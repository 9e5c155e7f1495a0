/**
 The partitioned computation gives what the sequential one gives: the lines of all reduce outputs together are
 the lines of the sequential program, whatever the order in which files and values are read.
 */
module MrEquivalence {
  import opened Sorting
  import opened MrData

  // ----- Order does not matter -----

  lemma PermutedHasKey(a: seq<KeyValue>, b: seq<KeyValue>, k: string)
    requires multiset(a) == multiset(b)
    ensures HasKey(a, k) <==> HasKey(b, k)
  {
    if HasKey(a, k) {
      var i :| 0 <= i < |a| && a[i].key == k;
      PermutationMembers(a, b, a[i]);
    }
    if HasKey(b, k) {
      var i :| 0 <= i < |b| && b[i].key == k;
      PermutationMembers(a, b, b[i]);
    }
  }

  lemma PermutedLine(reduce: Reduce, a: seq<KeyValue>, b: seq<KeyValue>, k: string)
    requires OrderInsensitive(reduce) && multiset(a) == multiset(b)
    ensures LineOf(reduce, a, k) == LineOf(reduce, b, k)
  {
    ValuesPermute(a, b, k);
  }

  /** The summary of some pairs is the summary of the same pairs in any other order. */
  lemma PermutedSummary(reduce: Reduce, a: seq<KeyValue>, b: seq<KeyValue>, lines: seq<Line>)
    requires OrderInsensitive(reduce) && multiset(a) == multiset(b) && Summarises(reduce, a, lines)
    ensures Summarises(reduce, b, lines)
  {
    hide HasKey, LineOf, OrderInsensitive, NoDuplicates, SortedBy;
    var keys :| KeysOf(a, keys) && lines == LinesOf(reduce, a, keys);
    forall k ensures HasKey(a, k) <==> HasKey(b, k) {
      PermutedHasKey(a, b, k);
    }
    forall i | 0 <= i < |keys| ensures LineOf(reduce, a, keys[i]) == LineOf(reduce, b, keys[i]) {
      PermutedLine(reduce, a, b, keys[i]);
    }
    assert KeysOf(b, keys) && lines == LinesOf(reduce, b, keys);
  }

  /** Sorted keys without duplicates are determined by which keys they are. */
  lemma {:induction false} SortedKeysUnique(a: seq<string>, b: seq<string>)
    requires NoDuplicates(a) && SortedBy(StringLeq, a) && NoDuplicates(b) && SortedBy(StringLeq, b)
    requires forall k :: k in a <==> k in b
    ensures a == b
  {
    hide StringLeq;
    assert b != [] ==> b[0] in b;
    if a != [] {
      assert a[0] in a;
      var x, y := a[|a| - 1], b[|b| - 1];
      assert x in a && y in b;
      LastIsGreatest(a, y);
      LastIsGreatest(b, x);
      StringLeqAntisymmetric(x, y);
      var a', b' := a[..|a| - 1], b[..|b| - 1];
      forall k ensures k in a' <==> k in b' {
        WithoutLast(a, k);
        WithoutLast(b, k);
      }
      SortedKeysUnique(a', b');
      assert a == a' + [x] && b == b' + [y];
    }
  }

  lemma LastIsGreatest(a: seq<string>, k: string)
    requires SortedBy(StringLeq, a) && k in a
    ensures a != [] && StringLeq(k, a[|a| - 1])
  {
    var i :| 0 <= i < |a| && a[i] == k;
    if i == |a| - 1 {
      StringLeqTotal(k, k);
    }
  }

  lemma WithoutLast(a: seq<string>, k: string)
    requires a != [] && NoDuplicates(a)
    ensures k in a[..|a| - 1] <==> k in a && k != a[|a| - 1]
  {
    assert a == a[..|a| - 1] + [a[|a| - 1]];
  }

  /** There is only one summary, so every re-execution of a reduce task writes the same lines. */
  lemma SummaryIsUnique(reduce: Reduce, kvs: seq<KeyValue>, x: seq<Line>, y: seq<Line>)
    requires Summarises(reduce, kvs, x) && Summarises(reduce, kvs, y)
    ensures x == y
  {
    hide HasKey, LineOf, NoDuplicates, SortedBy;
    var a :| KeysOf(kvs, a) && x == LinesOf(reduce, kvs, a);
    var b :| KeysOf(kvs, b) && y == LinesOf(reduce, kvs, b);
    SortedKeysUnique(a, b);
  }

  /** Every list of pairs has a summary. */
  lemma SummaryExists(reduce: Reduce, kvs: seq<KeyValue>) returns (lines: seq<Line>)
    ensures Summarises(reduce, kvs, lines)
  {
    hide StringLeq, HasKey, LineOf;
    var list := SomeKeys(kvs);
    var keys := SortStrings(list);
    PermutationNoDuplicates(list, keys);
    forall k ensures k in keys <==> HasKey(kvs, k) {
      PermutationMembers(list, keys, k);
    }
    lines := LinesOf(reduce, kvs, keys);
    assert KeysOf(kvs, keys) && lines == LinesOf(reduce, kvs, keys);
  }

  /** The keys, each once. */
  lemma {:induction false} SomeKeys(kvs: seq<KeyValue>) returns (keys: seq<string>)
    ensures NoDuplicates(keys) && forall k :: k in keys <==> HasKey(kvs, k)
  {
    if kvs == [] {
      keys := [];
    } else {
      var n := |kvs| - 1;
      var before := SomeKeys(kvs[..n]);
      var last := kvs[n].key;
      keys := if last in before then before else before + [last];
      forall k ensures k in keys <==> HasKey(kvs, k) {
        HasKeySnoc(kvs, k);
      }
    }
  }

  lemma HasKeySnoc(kvs: seq<KeyValue>, k: string)
    requires kvs != []
    ensures HasKey(kvs, k) <==> HasKey(kvs[..|kvs| - 1], k) || kvs[|kvs| - 1].key == k
  {
    var n := |kvs| - 1;
    if HasKey(kvs[..n], k) {
      var i :| 0 <= i < n && kvs[..n][i].key == k;
      assert kvs[i].key == k;
    }
    if HasKey(kvs, k) && kvs[n].key != k {
      var i :| 0 <= i < |kvs| && kvs[i].key == k;
      assert kvs[..n][i].key == k;
    }
  }

  // ----- Shares of all map tasks -----

  function Shares(hash: string -> nat, n: nat, inter: seq<seq<KeyValue>>, r: nat): seq<seq<KeyValue>>
    requires n > 0
  {
    seq(|inter|, t requires 0 <= t < |inter| => Share(hash, n, inter[t], r))
  }

  lemma {:induction false} ShareConcat(hash: string -> nat, n: nat, a: seq<KeyValue>, b: seq<KeyValue>, r: nat)
    requires n > 0
    ensures Share(hash, n, a + b, r) == Share(hash, n, a, r) + Share(hash, n, b, r)
  {
    if b == [] {
      assert a + b == a;
    } else {
      var k := |b| - 1;
      ShareConcat(hash, n, a, b[..k], r);
      assert (a + b)[..|a + b| - 1] == a + b[..k];
    }
  }

  /** Sharing out each task's pairs and putting the shares together is sharing out all pairs. */
  lemma {:induction false} SharesConcat(hash: string -> nat, n: nat, inter: seq<seq<KeyValue>>, r: nat)
    requires n > 0
    ensures Concat(Shares(hash, n, inter, r)) == Share(hash, n, Concat(inter), r)
  {
    if inter != [] {
      var k := |inter| - 1;
      SharesConcat(hash, n, inter[..k], r);
      assert Shares(hash, n, inter, r)[..k] == Shares(hash, n, inter[..k], r);
      ShareConcat(hash, n, Concat(inter[..k]), inter[k], r);
    }
  }

  lemma {:induction false} ConcatSplit(a: seq<seq<KeyValue>>, b: seq<seq<KeyValue>>)
    ensures Concat(a + b) == Concat(a) + Concat(b)
  {
    if b == [] {
      assert a + b == a;
    } else {
      var k := |b| - 1;
      ConcatSplit(a, b[..k]);
      assert (a + b)[..|a + b| - 1] == a + b[..k];
      assert Concat(a + b) == Concat(a + b[..k]) + b[k];
    }
  }

  ghost predicate Below(order: seq<nat>, n: nat) {
    forall i | 0 <= i < |order| :: order[i] < n
  }

  /** `order` lists the numbers below `n`, each once. */
  ghost predicate Lists(order: seq<nat>, n: nat) {
    NoDuplicates(order) && Below(order, n) && forall t: nat | t < n :: t in order
  }

  ghost function InOrder(files: seq<seq<KeyValue>>, order: seq<nat>): seq<seq<KeyValue>>
    requires Below(order, |files|)
  {
    seq(|order|, i requires 0 <= i < |order| => files[order[i]])
  }

  ghost function Without(order: seq<nat>, p: nat): seq<nat>
    requires p < |order|
  {
    order[..p] + order[p + 1..]
  }

  lemma ListsWithout(order: seq<nat>, n: nat, p: nat)
    requires Lists(order, n + 1) && p < |order| && order[p] == n
    ensures Lists(Without(order, p), n)
  {
    var rest := Without(order, p);
    forall t: nat | t < n ensures t in rest {
      assert t in order;
      var i :| 0 <= i < |order| && order[i] == t;
      assert rest[if i < p then i else i - 1] == t;
    }
  }

  lemma InOrderSplit(files: seq<seq<KeyValue>>, order: seq<nat>, p: nat)
    requires files != [] && p < |order| && Below(order, |files|) && Below(Without(order, p), |files| - 1)
    ensures Below(order[..p], |files|) && Below(order[p + 1..], |files|)
    ensures InOrder(files, order) == InOrder(files, order[..p]) + [files[order[p]]] + InOrder(files, order[p + 1..])
    ensures InOrder(files[..|files| - 1], Without(order, p)) ==
            InOrder(files, order[..p]) + InOrder(files, order[p + 1..])
  {
    var rest, n := Without(order, p), |files| - 1;
    forall i | 0 <= i < |rest|
      ensures InOrder(files[..n], rest)[i] == (InOrder(files, order[..p]) + InOrder(files, order[p + 1..]))[i]
    {
      assert rest[i] < n;
    }
  }

  lemma ConcatMiddle(a: seq<seq<KeyValue>>, x: seq<KeyValue>, b: seq<seq<KeyValue>>)
    ensures multiset(Concat(a + [x] + b)) == multiset(Concat(a + b)) + multiset(x)
  {
    ConcatSplit(a + [x], b);
    ConcatSplit(a, [x]);
    ConcatSplit(a, b);
    ConcatOne(x);
  }

  lemma ConcatOne(file: seq<KeyValue>)
    ensures Concat([file]) == file
  {
    assert Concat([file]) == Concat([]) + file;
  }

  lemma BelowFirst(order: seq<nat>, n: nat)
    requires Below(order, n)
    ensures order != [] ==> order[0] < n
  {
  }

  /** Reading the files in another order gives the same pairs in another order. */
  lemma {:induction false} ReadOrder(files: seq<seq<KeyValue>>, order: seq<nat>)
    requires Lists(order, |files|)
    ensures multiset(Concat(InOrder(files, order))) == multiset(Concat(files))
    decreases |files|
  {
    if files == [] {
      BelowFirst(order, 0);
    } else {
      var n := |files| - 1;
      assert n in order;
      var p :| 0 <= p < |order| && order[p] == n;
      ListsWithout(order, n, p);
      ReadOrder(files[..n], Without(order, p));
      InOrderSplit(files, order, p);
      hide InOrder, Without, NoDuplicates;
      ConcatMiddle(InOrder(files, order[..p]), files[n], InOrder(files, order[p + 1..]));
    }
  }

  /** What reduce task `r` writes after reading the map tasks' files in some order. */
  lemma ReduceSummarisesShare(
    reduce: Reduce, hash: string -> nat, n: nat, inter: seq<seq<KeyValue>>, r: nat, order: seq<nat>, lines: seq<Line>)
    requires n > 0 && OrderInsensitive(reduce) && Lists(order, |inter|)
    requires Summarises(reduce, Concat(InOrder(Shares(hash, n, inter, r), order)), lines)
    ensures Summarises(reduce, Share(hash, n, Concat(inter), r), lines)
  {
    hide Summarises, OrderInsensitive, Share;
    ReadOrder(Shares(hash, n, inter, r), order);
    SharesConcat(hash, n, inter, r);
    PermutedSummary(reduce, Concat(InOrder(Shares(hash, n, inter, r), order)), Share(hash, n, Concat(inter), r), lines);
  }

  // ----- All reduce outputs together -----

  function AllLines(outs: seq<seq<Line>>): seq<Line> {
    if outs == [] then [] else AllLines(outs[..|outs| - 1]) + outs[|outs| - 1]
  }

  /** Is `l` one of the lines for `all`, and does its key belong to a reduce task below `k`? */
  ghost predicate Belongs(reduce: Reduce, hash: string -> nat, n: nat, all: seq<KeyValue>, k: nat, l: Line)
    requires n > 0
  {
    HasKey(all, l.key) && l == LineOf(reduce, all, l.key) && hash(l.key) % n < k
  }

  lemma ShareLine(reduce: Reduce, hash: string -> nat, n: nat, all: seq<KeyValue>, r: nat, l: Line)
    requires n > 0
    ensures HasKey(Share(hash, n, all, r), l.key) && l == LineOf(reduce, Share(hash, n, all, r), l.key) <==>
            HasKey(all, l.key) && l == LineOf(reduce, all, l.key) && hash(l.key) % n == r
  {
    ShareValues(hash, n, all, r, l.key);
    ValuesSome(Share(hash, n, all, r), l.key);
    ValuesSome(all, l.key);
  }

  /** Every line occurs once, in the output that its key's hash selects. */
  lemma {:induction false} AllLinesCount(
    reduce: Reduce, hash: string -> nat, n: nat, all: seq<KeyValue>, outs: seq<seq<Line>>, l: Line)
    requires n > 0
    requires forall r | 0 <= r < |outs| :: Summarises(reduce, Share(hash, n, all, r), outs[r])
    ensures multiset(AllLines(outs))[l] == if Belongs(reduce, hash, n, all, |outs|, l) then 1 else 0
    decreases |outs|
  {
    hide Summarises, HasKey, LineOf, Share;
    if outs != [] {
      var k := |outs| - 1;
      AllLinesCount(reduce, hash, n, all, outs[..k], l);
      SummaryCount(reduce, Share(hash, n, all, k), outs[k], l);
      ShareLine(reduce, hash, n, all, k, l);
    }
  }

  /**
   The lines of all reduce outputs are the lines of the sequential program, for every reduce function that does
   not depend on the order of its values.
   */
  lemma PartitionedEqualsSequential(
    reduce: Reduce, hash: string -> nat, n: nat, all: seq<KeyValue>, outs: seq<seq<Line>>,
    sorted: seq<KeyValue>, lines: seq<Line>)
    requires n > 0 && OrderInsensitive(reduce) && |outs| == n
    requires forall r | 0 <= r < n :: Summarises(reduce, Share(hash, n, all, r), outs[r])
    requires SortedPairs(all, sorted) && Summarises(reduce, sorted, lines)
    ensures multiset(AllLines(outs)) == multiset(lines)
  {
    hide Summarises, HasKey, LineOf, Share, OrderInsensitive;
    PermutedSummary(reduce, sorted, all, lines);
    forall l ensures multiset(AllLines(outs))[l] == multiset(lines)[l] {
      AllLinesCount(reduce, hash, n, all, outs, l);
      SummaryCount(reduce, all, lines, l);
    }
  }
}
