/**
 The data path of MapReduce: what the workers compute (Lab3/src/mr/worker.go) and what the sequential program
 computes (Lab3/src/main/mrsequential.go).
 */
module MrData {
  import opened Sorting

  datatype KeyValue = KeyValue(key: string, value: string)

  /** One line of output: `"%v %v\n"` of a key and its reduced value. */
  datatype Line = Line(key: string, value: string)

  type Reduce = (string, seq<string>) -> string

  /** The values of one key, in order. */
  function ValuesOf(kvs: seq<KeyValue>, k: string): seq<string> {
    if kvs == [] then []
    else
      var last := kvs[|kvs| - 1];
      ValuesOf(kvs[..|kvs| - 1], k) + (if last.key == k then [last.value] else [])
  }

  ghost predicate HasKey(kvs: seq<KeyValue>, k: string) {
    exists i | 0 <= i < |kvs| :: kvs[i].key == k
  }

  lemma {:induction false} ValuesSome(kvs: seq<KeyValue>, k: string)
    ensures ValuesOf(kvs, k) != [] <==> HasKey(kvs, k)
  {
    if kvs != [] {
      var n := |kvs| - 1;
      ValuesSome(kvs[..n], k);
      if HasKey(kvs[..n], k) {
        var i :| 0 <= i < n && kvs[..n][i].key == k;
        assert kvs[i].key == k;
      }
      if HasKey(kvs, k) && kvs[n].key != k {
        var i :| 0 <= i < |kvs| && kvs[i].key == k;
        assert kvs[..n][i].key == k;
      }
    }
  }

  lemma {:induction false} ValuesConcat(a: seq<KeyValue>, b: seq<KeyValue>, k: string)
    ensures ValuesOf(a + b, k) == ValuesOf(a, k) + ValuesOf(b, k)
  {
    if b == [] {
      assert a + b == a;
    } else {
      var n := |b| - 1;
      ValuesConcat(a, b[..n], k);
      assert (a + b)[..|a + b| - 1] == a + b[..n];
    }
  }

  /** How often a value occurs under a key depends on the pairs alone, not on their order. */
  lemma {:induction false} ValuesCount(kvs: seq<KeyValue>, k: string, v: string)
    ensures multiset(ValuesOf(kvs, k))[v] == multiset(kvs)[KeyValue(k, v)]
  {
    if kvs != [] {
      var init, last := kvs[..|kvs| - 1], kvs[|kvs| - 1];
      ValuesCount(init, k, v);
      assert kvs == init + [last];
      MultisetSnoc(init, last, KeyValue(k, v));
      var values := ValuesOf(init, k);
      assert ValuesOf(kvs, k) == if last.key == k then values + [last.value] else values;
      hide ValuesOf;
      MultisetSnoc(values, last.value, v);
    }
  }

  lemma ValuesPermute(a: seq<KeyValue>, b: seq<KeyValue>, k: string)
    requires multiset(a) == multiset(b)
    ensures multiset(ValuesOf(a, k)) == multiset(ValuesOf(b, k))
  {
    forall v ensures multiset(ValuesOf(a, k))[v] == multiset(ValuesOf(b, k))[v] {
      ValuesCount(a, k, v);
      ValuesCount(b, k, v);
    }
  }

  /** The reduce function does not care in which order the values come. */
  ghost predicate OrderInsensitive(reduce: Reduce) {
    forall k, vs, ws | multiset(vs) == multiset(ws) :: reduce(k, vs) == reduce(k, ws)
  }

  // ----- What the output means -----

  /** The line for key `k`. */
  function LineOf(reduce: Reduce, kvs: seq<KeyValue>, k: string): Line {
    Line(k, reduce(k, ValuesOf(kvs, k)))
  }

  /** `keys` are the keys of `kvs`, each once, sorted. */
  ghost predicate KeysOf(kvs: seq<KeyValue>, keys: seq<string>) {
    && NoDuplicates(keys)
    && SortedBy(StringLeq, keys)
    && forall k :: k in keys <==> HasKey(kvs, k)
  }

  /** `lines` has one line for each key of `kvs`, in key order. */
  ghost predicate Summarises(reduce: Reduce, kvs: seq<KeyValue>, lines: seq<Line>) {
    exists keys :: KeysOf(kvs, keys) && lines == LinesOf(reduce, kvs, keys)
  }

  ghost function LinesOf(reduce: Reduce, kvs: seq<KeyValue>, keys: seq<string>): seq<Line> {
    seq(|keys|, i requires 0 <= i < |keys| => LineOf(reduce, kvs, keys[i]))
  }

  // ----- The same, by positions -----

  ghost predicate Increasing(ps: seq<nat>) {
    forall i, j | 0 <= i < j < |ps| :: ps[i] < ps[j]
  }

  /** All of `ps` are positions of pairs with key `k`. */
  ghost predicate AllAt(kvs: seq<KeyValue>, k: string, ps: seq<nat>) {
    forall j | 0 <= j < |ps| :: ps[j] < |kvs| && kvs[ps[j]].key == k
  }

  /** All positions of pairs with key `k` are among `ps`. */
  ghost predicate AllIn(kvs: seq<KeyValue>, k: string, ps: seq<nat>) {
    forall i: nat | i < |kvs| && kvs[i].key == k :: i in ps
  }

  /** `ps` are the positions of the pairs with key `k`, in order. */
  ghost predicate Occurrences(kvs: seq<KeyValue>, k: string, ps: seq<nat>) {
    Increasing(ps) && AllAt(kvs, k, ps) && AllIn(kvs, k, ps)
  }

  ghost function ValuesAt(kvs: seq<KeyValue>, ps: seq<nat>): seq<string>
    requires forall j | 0 <= j < |ps| :: ps[j] < |kvs|
  {
    seq(|ps|, j requires 0 <= j < |ps| => kvs[ps[j]].value)
  }

  lemma {:induction false} OccurrencesExist(kvs: seq<KeyValue>, k: string) returns (ps: seq<nat>)
    ensures Occurrences(kvs, k, ps)
  {
    hide Increasing, AllAt, AllIn;
    if kvs == [] {
      ps := [];
      NoOccurrences(kvs, k);
    } else {
      var n := |kvs| - 1;
      ps := OccurrencesExist(kvs[..n], k);
      assert kvs == kvs[..n] + [kvs[n]];
      if kvs[n].key == k {
        OneMore(kvs[..n], kvs[n], k, ps);
        ps := ps + [n];
      } else {
        NoneMore(kvs[..n], kvs[n], k, ps);
      }
    }
  }

  lemma NoOccurrences(kvs: seq<KeyValue>, k: string)
    requires kvs == []
    ensures Occurrences(kvs, k, [])
  {
  }

  lemma OneMore(kvs: seq<KeyValue>, kv: KeyValue, k: string, ps: seq<nat>)
    requires Occurrences(kvs, k, ps) && kv.key == k
    ensures Occurrences(kvs + [kv], k, ps + [|kvs|])
  {
    var more, ps' := kvs + [kv], ps + [|kvs|];
    assert Increasing(ps') && AllAt(more, k, ps');
    hide Increasing, AllAt;
    forall i: nat | i < |more| && more[i].key == k ensures i in ps' {
      if i < |kvs| {
        assert kvs[i].key == k && i in ps;
      } else {
        assert ps'[|ps|] == i;
      }
    }
  }

  lemma NoneMore(kvs: seq<KeyValue>, kv: KeyValue, k: string, ps: seq<nat>)
    requires Occurrences(kvs, k, ps) && kv.key != k
    ensures Occurrences(kvs + [kv], k, ps)
  {
    hide Increasing;
    var more := kvs + [kv];
    assert AllAt(more, k, ps);
    forall i: nat | i < |more| && more[i].key == k ensures i in ps {
      assert i < |kvs| && kvs[i].key == k;
    }
  }

  lemma IncreasingLast(ps: seq<nat>, j: nat)
    requires Increasing(ps) && j < |ps|
    ensures ps[j] <= ps[|ps| - 1]
  {
  }

  /** If the last pair has the key, its position is the last one. */
  lemma LastOccurrence(kvs: seq<KeyValue>, k: string, ps: seq<nat>)
    requires kvs != [] && Occurrences(kvs, k, ps) && kvs[|kvs| - 1].key == k
    ensures ps != [] && ps[|ps| - 1] == |kvs| - 1
  {
    var n: nat := |kvs| - 1;
    assert n in ps;
    var j: nat :| j < |ps| && ps[j] == n;
    IncreasingLast(ps, j);
  }

  lemma DropLastOccurrence(kvs: seq<KeyValue>, k: string, ps: seq<nat>)
    requires kvs != [] && Occurrences(kvs, k, ps) && kvs[|kvs| - 1].key == k
    ensures ps != [] && ps[|ps| - 1] == |kvs| - 1 && Occurrences(kvs[..|kvs| - 1], k, ps[..|ps| - 1])
  {
    LastOccurrence(kvs, k, ps);
    var n, init := |kvs| - 1, ps[..|ps| - 1];
    forall j | 0 <= j < |init| ensures init[j] < n && kvs[..n][init[j]].key == k {
      assert ps[j] < ps[|ps| - 1] && kvs[ps[j]].key == k;
    }
    assert Increasing(init);
    hide Increasing;
    forall i: nat | i < n && kvs[..n][i].key == k ensures i in init {
      assert kvs[i].key == k && i in ps;
      var q: nat :| q < |ps| && ps[q] == i;
      assert init[q] == i;
    }
  }

  lemma KeepOccurrences(kvs: seq<KeyValue>, k: string, ps: seq<nat>)
    requires kvs != [] && Occurrences(kvs, k, ps) && kvs[|kvs| - 1].key != k
    ensures Occurrences(kvs[..|kvs| - 1], k, ps)
  {
    hide Increasing;
    var n := |kvs| - 1;
    forall j | 0 <= j < |ps| ensures ps[j] < n && kvs[..n][ps[j]].key == k {
      assert kvs[ps[j]].key == k;
    }
    forall i: nat | i < n && kvs[..n][i].key == k ensures i in ps {
      assert kvs[i].key == k;
    }
  }

  /** The values of a key are those at its positions, in order. */
  lemma {:induction false} ValuesAreAt(kvs: seq<KeyValue>, k: string, ps: seq<nat>)
    requires Occurrences(kvs, k, ps)
    ensures ValuesOf(kvs, k) == ValuesAt(kvs, ps)
  {
    if kvs != [] {
      hide Increasing, AllIn;
      var n := |kvs| - 1;
      if kvs[n].key == k {
        DropLastOccurrence(kvs, k, ps);
        var init := ps[..|ps| - 1];
        ValuesAreAt(kvs[..n], k, init);
        assert ValuesAt(kvs, ps) == ValuesAt(kvs[..n], init) + [kvs[n].value];
      } else {
        KeepOccurrences(kvs, k, ps);
        ValuesAreAt(kvs[..n], k, ps);
        assert ValuesAt(kvs, ps) == ValuesAt(kvs[..n], ps);
      }
    }
  }

  /** A line holds a key and what the reduce function makes of the values at all positions of that key, in order. */
  ghost predicate LineIsRight(reduce: Reduce, kvs: seq<KeyValue>, l: Line) {
    exists ps :: Occurrences(kvs, l.key, ps) && l.value == reduce(l.key, ValuesAt(kvs, ps))
  }

  lemma LineIsRightIff(reduce: Reduce, kvs: seq<KeyValue>, l: Line)
    ensures LineIsRight(reduce, kvs, l) <==> l == LineOf(reduce, kvs, l.key)
  {
    hide ValuesOf;
    if ps :| Occurrences(kvs, l.key, ps) && l.value == reduce(l.key, ValuesAt(kvs, ps)) {
      ValuesAreAt(kvs, l.key, ps);
    }
    var ps := OccurrencesExist(kvs, l.key);
    ValuesAreAt(kvs, l.key, ps);
  }

  /** The output lines: keys strictly increasing, a line for every key and for no other, each with the right value. */
  lemma SummaryByPosition(reduce: Reduce, kvs: seq<KeyValue>, lines: seq<Line>)
    requires Summarises(reduce, kvs, lines)
    ensures forall i, j | 0 <= i < j < |lines| ::
              StringLeq(lines[i].key, lines[j].key) && lines[i].key != lines[j].key
    ensures forall k :: HasKey(kvs, k) <==> exists i | 0 <= i < |lines| :: lines[i].key == k
    ensures forall i | 0 <= i < |lines| :: LineIsRight(reduce, kvs, lines[i])
  {
    hide HasKey, ValuesOf, StringLeq, LineIsRight;
    var keys :| KeysOf(kvs, keys) && lines == LinesOf(reduce, kvs, keys);
    assert forall i | 0 <= i < |lines| :: lines[i].key == keys[i];
    forall k ensures HasKey(kvs, k) <==> exists i | 0 <= i < |lines| :: lines[i].key == k {
      if HasKey(kvs, k) {
        var i :| 0 <= i < |keys| && keys[i] == k;
        assert lines[i].key == k;
      }
      if i :| 0 <= i < |lines| && lines[i].key == k {
        assert keys[i] in keys;
      }
    }
    forall i | 0 <= i < |lines| ensures LineIsRight(reduce, kvs, lines[i]) {
      LineIsRightIff(reduce, kvs, lines[i]);
    }
  }

  lemma SummaryMember(reduce: Reduce, kvs: seq<KeyValue>, lines: seq<Line>, l: Line)
    requires Summarises(reduce, kvs, lines)
    ensures l in lines <==> HasKey(kvs, l.key) && l == LineOf(reduce, kvs, l.key)
  {
    hide HasKey, ValuesOf;
    var keys :| KeysOf(kvs, keys) && lines == LinesOf(reduce, kvs, keys);
    if l in lines {
      var i :| 0 <= i < |lines| && lines[i] == l;
      assert keys[i] in keys;
    }
    if HasKey(kvs, l.key) && l == LineOf(reduce, kvs, l.key) {
      var i :| 0 <= i < |keys| && keys[i] == l.key;
      assert lines[i] == l;
    }
  }

  lemma SummaryNoDuplicates(reduce: Reduce, kvs: seq<KeyValue>, lines: seq<Line>)
    requires Summarises(reduce, kvs, lines)
    ensures NoDuplicates(lines)
  {
    hide HasKey, ValuesOf, SortedBy;
    var keys :| KeysOf(kvs, keys) && lines == LinesOf(reduce, kvs, keys);
    forall i, j | 0 <= i < j < |lines| ensures lines[i] != lines[j] {
      assert lines[i].key == keys[i] && lines[j].key == keys[j];
    }
  }

  lemma SummaryCount(reduce: Reduce, kvs: seq<KeyValue>, lines: seq<Line>, l: Line)
    requires Summarises(reduce, kvs, lines)
    ensures multiset(lines)[l] == if HasKey(kvs, l.key) && l == LineOf(reduce, kvs, l.key) then 1 else 0
  {
    hide Summarises, HasKey, LineOf, NoDuplicates;
    SummaryMember(reduce, kvs, lines, l);
    SummaryNoDuplicates(reduce, kvs, lines);
    NoDuplicatesCount(lines, l);
    assert l in multiset(lines) <==> l in lines;
  }

  // ----- The map side -----

  /** The pairs that go to reduce task `r`, in order. */
  function Share(hash: string -> nat, n: nat, kvs: seq<KeyValue>, r: nat): seq<KeyValue>
    requires n > 0
  {
    if kvs == [] then []
    else
      var last := kvs[|kvs| - 1];
      Share(hash, n, kvs[..|kvs| - 1], r) + (if hash(last.key) % n == r then [last] else [])
  }

  /** `writeMapOutput`: each pair goes to the file that its key's hash selects. */
  method WriteMapOutput(hash: string -> nat, n: nat, kvs: seq<KeyValue>) returns (files: seq<seq<KeyValue>>)
    requires n > 0
    ensures |files| == n && forall r | 0 <= r < n :: files[r] == Share(hash, n, kvs, r)
  {
    files := seq(n, _ => []);
    for i := 0 to |kvs|
      invariant |files| == n && forall r | 0 <= r < n :: files[r] == Share(hash, n, kvs[..i], r)
    {
      var id := hash(kvs[i].key) % n;
      assert kvs[..i + 1][..i] == kvs[..i];
      files := files[id := files[id] + [kvs[i]]];
    }
    assert kvs[..|kvs|] == kvs;
  }

  /** A share has all the values of its own keys and none of any other. */
  lemma {:induction false} ShareValues(hash: string -> nat, n: nat, kvs: seq<KeyValue>, r: nat, k: string)
    requires n > 0
    ensures ValuesOf(Share(hash, n, kvs, r), k) == if hash(k) % n == r then ValuesOf(kvs, k) else []
  {
    if kvs != [] {
      var init, last := kvs[..|kvs| - 1], kvs[|kvs| - 1];
      ShareValues(hash, n, init, r, k);
      var share := Share(hash, n, init, r);
      if hash(last.key) % n == r {
        ValuesSnoc(share, last, k);
      } else {
        assert Share(hash, n, kvs, r) == share;
      }
    }
  }

  lemma ValuesSnoc(kvs: seq<KeyValue>, kv: KeyValue, k: string)
    ensures ValuesOf(kvs + [kv], k) == ValuesOf(kvs, k) + (if kv.key == k then [kv.value] else [])
  {
    assert (kvs + [kv])[..|kvs|] == kvs;
  }

  // ----- The reduce side -----

  function Concat(files: seq<seq<KeyValue>>): seq<KeyValue> {
    if files == [] then [] else Concat(files[..|files| - 1]) + files[|files| - 1]
  }

  /** `kvMap` of `doReduce` after the pairs of `kvs`. */
  ghost predicate Grouped(kvs: seq<KeyValue>, kvMap: map<string, seq<string>>) {
    forall k :: if k in kvMap then kvMap[k] == ValuesOf(kvs, k) && kvMap[k] != [] else ValuesOf(kvs, k) == []
  }

  /** `doReduce`, lines 232-263: appends the value of each pair of each file under its key. */
  method Group(files: seq<seq<KeyValue>>) returns (kvMap: map<string, seq<string>>)
    ensures Grouped(Concat(files), kvMap)
  {
    kvMap := map[];
    for i := 0 to |files|
      invariant Grouped(Concat(files[..i]), kvMap)
    {
      ghost var before := Concat(files[..i]);
      assert before + files[i][..0] == before;
      for j := 0 to |files[i]|
        invariant Grouped(before + files[i][..j], kvMap)
      {
        var kv := files[i][j];
        ghost var sofar := before + files[i][..j];
        GroupOne(sofar, kvMap, kv);
        assert sofar + [kv] == before + files[i][..j + 1];
        kvMap := kvMap[kv.key := (if kv.key in kvMap then kvMap[kv.key] else []) + [kv.value]];
      }
      assert files[i][..|files[i]|] == files[i];
      assert files[..i + 1][..i] == files[..i];
    }
    assert files[..|files|] == files;
  }

  lemma GroupOne(kvs: seq<KeyValue>, kvMap: map<string, seq<string>>, kv: KeyValue)
    requires Grouped(kvs, kvMap)
    ensures Grouped(kvs + [kv], kvMap[kv.key := (if kv.key in kvMap then kvMap[kv.key] else []) + [kv.value]])
  {
    var after := kvMap[kv.key := (if kv.key in kvMap then kvMap[kv.key] else []) + [kv.value]];
    forall k
      ensures if k in after then after[k] == ValuesOf(kvs + [kv], k) && after[k] != []
              else ValuesOf(kvs + [kv], k) == []
    {
      ValuesSnoc(kvs, kv, k);
    }
  }

  /** `writeReduceOutput`, lines 284-291: one line per key. */
  method WriteLines(reduce: Reduce, kvMap: map<string, seq<string>>, keys: seq<string>, ghost kvs: seq<KeyValue>)
    returns (lines: seq<Line>)
    requires forall i | 0 <= i < |keys| :: keys[i] in kvMap && kvMap[keys[i]] == ValuesOf(kvs, keys[i])
    ensures lines == LinesOf(reduce, kvs, keys)
  {
    hide ValuesOf;
    lines := [];
    for i := 0 to |keys|
      invariant |lines| == i && forall j | 0 <= j < i :: lines[j] == LineOf(reduce, kvs, keys[j])
    {
      lines := lines + [Line(keys[i], reduce(keys[i], kvMap[keys[i]]))];
    }
  }

  lemma GroupedKeys(kvs: seq<KeyValue>, kvMap: map<string, seq<string>>, list: seq<string>, keys: seq<string>)
    requires Grouped(kvs, kvMap) && NoDuplicates(list) && (forall k :: k in list <==> k in kvMap)
    requires multiset(keys) == multiset(list) && SortedBy(StringLeq, keys)
    ensures KeysOf(kvs, keys)
    ensures forall i | 0 <= i < |keys| :: keys[i] in kvMap && kvMap[keys[i]] == ValuesOf(kvs, keys[i])
  {
    hide ValuesOf, HasKey, NoDuplicates, SortedBy;
    PermutationNoDuplicates(list, keys);
    forall k ensures k in keys <==> k in kvMap {
      PermutationMembers(list, keys, k);
    }
    forall k ensures k in kvMap <==> HasKey(kvs, k) {
      ValuesSome(kvs, k);
    }
    forall i | 0 <= i < |keys| ensures keys[i] in kvMap && kvMap[keys[i]] == ValuesOf(kvs, keys[i]) {
      assert keys[i] in keys;
    }
  }

  /** `writeReduceOutput`: the lines of the keys in sorted order. */
  method WriteReduceOutput(reduce: Reduce, kvMap: map<string, seq<string>>, ghost kvs: seq<KeyValue>)
    returns (lines: seq<Line>)
    requires Grouped(kvs, kvMap)
    ensures Summarises(reduce, kvs, lines)
  {
    hide HasKey, ValuesOf, NoDuplicates, SortedBy, Grouped, KeysOf, LinesOf;
    var list := KeyList(kvMap);
    var keys := SortStrings(list);
    GroupedKeys(kvs, kvMap, list, keys);
    lines := WriteLines(reduce, kvMap, keys, kvs);
  }

  /** `doReduce` on the files it has read. */
  method DoReduce(reduce: Reduce, files: seq<seq<KeyValue>>) returns (lines: seq<Line>)
    ensures Summarises(reduce, Concat(files), lines)
  {
    var kvMap := Group(files);
    lines := WriteReduceOutput(reduce, kvMap, Concat(files));
  }

  // ----- The sequential program -----

  predicate KeyLeq(a: KeyValue, b: KeyValue) {
    StringLeq(a.key, b.key)
  }

  /** `sort.Sort(ByKey(intermediate))` gives some arrangement sorted by key. */
  ghost predicate SortedPairs(kvs: seq<KeyValue>, sorted: seq<KeyValue>) {
    multiset(sorted) == multiset(kvs) && SortedBy(KeyLeq, sorted)
  }

  lemma {:induction false} ValuesRun(kvs: seq<KeyValue>, k: string)
    requires forall i | 0 <= i < |kvs| :: kvs[i].key == k
    ensures ValuesOf(kvs, k) == seq(|kvs|, i requires 0 <= i < |kvs| => kvs[i].value)
  {
    if kvs != [] {
      ValuesRun(kvs[..|kvs| - 1], k);
    }
  }

  lemma {:induction false} ValuesNone(kvs: seq<KeyValue>, k: string)
    requires forall i | 0 <= i < |kvs| :: kvs[i].key != k
    ensures ValuesOf(kvs, k) == []
  {
    if kvs != [] {
      ValuesNone(kvs[..|kvs| - 1], k);
    }
  }

  /** Positions `i` to `j` are the run of one key in sorted pairs: no equal key before or after. */
  ghost predicate IsRun(sorted: seq<KeyValue>, i: int, j: int) {
    && 0 <= i < j <= |sorted|
    && (forall p | i <= p < j :: sorted[p].key == sorted[i].key)
    && (forall p | 0 <= p < i :: sorted[p].key != sorted[i].key)
    && (forall p | j <= p < |sorted| :: sorted[p].key != sorted[i].key)
  }

  /** A run holds all the values of its key. */
  lemma RunHasAllValues(sorted: seq<KeyValue>, i: int, j: int)
    requires IsRun(sorted, i, j)
    ensures ValuesOf(sorted, sorted[i].key) == seq(j - i, p requires 0 <= p < j - i => sorted[i + p].value)
  {
    var k := sorted[i].key;
    var before, run, after := sorted[..i], sorted[i..j], sorted[j..];
    assert sorted == before + run + after;
    ValuesConcat(before + run, after, k);
    ValuesConcat(before, run, k);
    ValuesNone(before, k);
    ValuesRun(run, k);
    ValuesNone(after, k);
  }

  /** In sorted pairs the keys before a new key are all different from it. */
  lemma SortedRunStarts(sorted: seq<KeyValue>, i: int, j: int)
    requires SortedBy(KeyLeq, sorted) && 0 <= i < j <= |sorted|
    requires forall p | i <= p < j :: sorted[p].key == sorted[i].key
    requires i > 0 ==> sorted[i - 1].key != sorted[i].key
    requires j < |sorted| ==> sorted[j].key != sorted[i].key
    ensures IsRun(sorted, i, j)
  {
    hide SortedBy, StringLeq;
    forall p | 0 <= p < i ensures sorted[p].key != sorted[i].key {
      if sorted[p].key == sorted[i].key {
        SortedNeighbour(sorted, p, i - 1, i);
      }
    }
    forall p | j <= p < |sorted| ensures sorted[p].key != sorted[i].key {
      if sorted[p].key == sorted[i].key {
        SortedNeighbour(sorted, i, j, p);
      }
    }
  }

  /** Between two equal keys of a sorted sequence stand only equal keys. */
  lemma SortedNeighbour(sorted: seq<KeyValue>, a: int, b: int, c: int)
    requires SortedBy(KeyLeq, sorted) && 0 <= a <= b <= c < |sorted| && sorted[a].key == sorted[c].key
    ensures sorted[b].key == sorted[a].key
  {
    if a < b < c {
      assert KeyLeq(sorted[a], sorted[b]) && KeyLeq(sorted[b], sorted[c]);
      StringLeqAntisymmetric(sorted[a].key, sorted[b].key);
    }
  }

  /** The keys of the runs that start before position `i`, in order. */
  ghost predicate RunKeys(sorted: seq<KeyValue>, i: int, keys: seq<string>) {
    && 0 <= i <= |sorted|
    && NoDuplicates(keys) && SortedBy(StringLeq, keys)
    && (forall k :: k in keys <==> HasKey(sorted[..i], k))
  }

  lemma RunKeysExtend(sorted: seq<KeyValue>, i: int, j: int, keys: seq<string>)
    requires SortedBy(KeyLeq, sorted) && IsRun(sorted, i, j) && RunKeys(sorted, i, keys)
    ensures RunKeys(sorted, j, keys + [sorted[i].key])
  {
    var k0 := sorted[i].key;
    forall k ensures HasKey(sorted[..j], k) <==> HasKey(sorted[..i], k) || k == k0 {
      if HasKey(sorted[..j], k) {
        var p :| 0 <= p < j && sorted[..j][p].key == k;
        assert p < i ==> sorted[..i][p].key == k;
      }
      if HasKey(sorted[..i], k) {
        var p :| 0 <= p < i && sorted[..i][p].key == k;
        assert sorted[..j][p].key == k;
      }
      assert sorted[..j][i].key == k0;
    }
    forall q | 0 <= q < |keys| ensures keys[q] != k0 && StringLeq(keys[q], k0) {
      assert keys[q] in keys;
      var p :| 0 <= p < i && sorted[..i][p].key == keys[q];
      assert KeyLeq(sorted[p], sorted[i]);
    }
  }

  /** Lines 68-84 of `main`: `i` and `j` bound one run of equal keys after another. */
  method ReduceRuns(reduce: Reduce, sorted: seq<KeyValue>) returns (lines: seq<Line>)
    requires SortedBy(KeyLeq, sorted)
    ensures Summarises(reduce, sorted, lines)
  {
    hide RunKeys, ValuesOf, HasKey, SortedBy, StringLeq;
    lines := [];
    ghost var keys: seq<string> := [];
    RunKeysNone(sorted);
    var i := 0;
    while i < |sorted|
      invariant 0 <= i <= |sorted|
      invariant RunKeys(sorted, i, keys) && lines == LinesOf(reduce, sorted, keys)
      invariant 0 < i < |sorted| ==> sorted[i - 1].key != sorted[i].key
    {
      var j := i + 1;
      while j < |sorted| && sorted[j].key == sorted[i].key
        invariant i < j <= |sorted|
        invariant forall p | i <= p < j :: sorted[p].key == sorted[i].key
      {
        j := j + 1;
      }
      SortedRunStarts(sorted, i, j);
      RunHasAllValues(sorted, i, j);
      var values := [];
      for k := i to j
        invariant values == seq(k - i, p requires 0 <= p < k - i => sorted[i + p].value)
      {
        values := values + [sorted[k].value];
      }
      RunKeysExtend(sorted, i, j, keys);
      lines := lines + [Line(sorted[i].key, reduce(sorted[i].key, values))];
      keys := keys + [sorted[i].key];
      i := j;
    }
    RunKeysAll(sorted, keys);
  }

  lemma RunKeysNone(sorted: seq<KeyValue>)
    ensures RunKeys(sorted, 0, [])
  {
  }

  lemma RunKeysAll(sorted: seq<KeyValue>, keys: seq<string>)
    requires RunKeys(sorted, |sorted|, keys)
    ensures KeysOf(sorted, keys)
  {
    assert sorted[..|sorted|] == sorted;
  }
}
