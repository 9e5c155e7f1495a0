/** The key/value model of Lab3/src/models/kv.go. */
module KvModel {
  import opened Linearizability
  import opened Locality
  import opened Options
  import opened Sorting

  type uint8 = b: nat | b < 256

  datatype KvInput = KvInput(op: uint8, key: string, value: string) // op: 0 get, 1 put, anything else append
  datatype KvOutput = KvOutput(value: string)

  type KvOperation = Operation<KvInput, KvOutput>

  function Step(st: string, inp: KvInput, out: KvOutput): (bool, string) {
    if inp.op == 0 then (out.value == st, st)
    else if inp.op == 1 then (true, inp.value)
    else (true, st + inp.value)
  }

  /** The model of a single key's value; `Equal` is left to the default, plain equality. */
  function Kv(): Model<string, KvInput, KvOutput> {
    Model("", Step, (a, b) => a == b)
  }

  function Key(inp: KvInput): string {
    inp.key
  }

  lemma KvCongruence()
    ensures Congruence(Kv())
  {
  }

  /** The whole store that the test servers implement: every key starts as the empty string. */
  ghost function KvStore(): Model<map<string, string>, KvInput, KvOutput> {
    Store(Kv(), Key)
  }

  // ----- What a run of the model is -----

  predicate IsGet(op: KvOperation) {
    op.input.op == 0
  }

  predicate IsPut(op: KvOperation) {
    op.input.op == 1
  }

  /** Is the operation on the key in question? For a single value, every operation is. */
  predicate On(op: KvOperation, key: Option<string>) {
    key.None? || op.input.key == key.value
  }

  /** Position `p` is that of the last put before position `k`; -1 says that there is none. */
  ghost predicate LastPut(order: seq<KvOperation>, key: Option<string>, k: nat, p: int)
    requires k <= |order|
  {
    && -1 <= p < k
    && (p >= 0 ==> On(order[p], key) && IsPut(order[p]))
    && forall j | p < j < k :: !(On(order[j], key) && IsPut(order[j]))
  }

  /** The values of the appends from position `from` up to position `k`, one after the other. */
  ghost function Appended(order: seq<KvOperation>, key: Option<string>, from: nat, k: nat): string
    requires k <= |order|
  {
    if k <= from then ""
    else
      var op := order[k - 1];
      Appended(order, key, from, k - 1) + (if On(op, key) && !IsGet(op) && !IsPut(op) then op.input.value else "")
  }

  /** What is there at position `k` when the last put before it stands at `p`. */
  ghost function Written(order: seq<KvOperation>, key: Option<string>, k: nat, p: int): string
    requires k <= |order| && LastPut(order, key, k, p)
  {
    (if p < 0 then "" else order[p].input.value) + Appended(order, key, p + 1, k)
  }

  lemma {:induction false} LastPutExists(order: seq<KvOperation>, key: Option<string>, k: nat) returns (p: int)
    requires k <= |order|
    ensures LastPut(order, key, k, p)
  {
    if k == 0 {
      p := -1;
    } else if On(order[k - 1], key) && IsPut(order[k - 1]) {
      p := k - 1;
    } else {
      p := LastPutExists(order, key, k - 1);
    }
  }

  /** How one operation changes what is there. */
  lemma WrittenNext(order: seq<KvOperation>, key: Option<string>, k: nat, p: int)
    requires 0 < k <= |order| && LastPut(order, key, k, p)
    ensures var op := order[k - 1];
            if p == k - 1 then Written(order, key, k, p) == op.input.value
            else && LastPut(order, key, k - 1, p)
                 && Written(order, key, k, p) ==
                    if On(op, key) && !IsGet(op) then Written(order, key, k - 1, p) + op.input.value
                    else Written(order, key, k - 1, p)
  {
    if p == k - 1 {
      assert Appended(order, key, p + 1, k) == "";
    } else {
      var op, first := order[k - 1], if p < 0 then "" else order[p].input.value;
      var before := Appended(order, key, p + 1, k - 1);
      assert first + (before + op.input.value) == first + before + op.input.value;
      assert before + "" == before;
    }
  }

  /** The state is the value of the last put, with the appends after it added at the end in their order. */
  lemma {:induction false} StateIsWritten(order: seq<KvOperation>, k: nat, p: int)
    requires k <= |order| && LastPut(order, None, k, p)
    ensures Final(Kv(), order[..k]) == Written(order, None, k, p)
  {
    if k > 0 {
      WrittenNext(order, None, k, p);
      assert order[..k][..k - 1] == order[..k - 1];
      if p < k - 1 {
        hide Written;
        StateIsWritten(order, k - 1, p);
      }
    }
  }

  /** In the whole store each key holds what was written to that key. */
  lemma {:induction false} StoreIsWritten(order: seq<KvOperation>, x: string, k: nat, p: int)
    requires k <= |order| && LastPut(order, Some(x), k, p)
    ensures Locality.Lookup(Final(KvStore(), order[..k]), x, "") == Written(order, Some(x), k, p)
  {
    if k > 0 {
      WrittenNext(order, Some(x), k, p);
      assert order[..k][..k - 1] == order[..k - 1];
      if p < k - 1 {
        hide Written;
        StoreIsWritten(order, x, k - 1, p);
      }
    }
  }

  /** The get at position `k`, if there is one, returns what was written before it. */
  ghost predicate ReadsRight(order: seq<KvOperation>, key: Option<string>, k: nat)
    requires k < |order|
  {
    IsGet(order[k]) ==> exists p :: LastPut(order, key, k, p) && order[k].output.value == Written(order, key, k, p)
  }

  /** Puts and appends always succeed; a get succeeds exactly if it returns what was written before it. */
  lemma StepReadsRight(order: seq<KvOperation>, k: nat)
    requires k < |order|
    ensures Kv().step(Final(Kv(), order[..k]), order[k].input, order[k].output).0 <==> ReadsRight(order, None, k)
  {
    hide LastPut, Written;
    var p := LastPutExists(order, None, k);
    StateIsWritten(order, k, p);
    if IsGet(order[k]) && ReadsRight(order, None, k) {
      var q :| LastPut(order, None, k, q) && order[k].output.value == Written(order, None, k, q);
      StateIsWritten(order, k, q);
    }
  }

  lemma StoreReadsRight(order: seq<KvOperation>, k: nat)
    requires k < |order|
    ensures KvStore().step(Final(KvStore(), order[..k]), order[k].input, order[k].output).0 <==>
            ReadsRight(order, Some(order[k].input.key), k)
  {
    hide LastPut, Written;
    var x := order[k].input.key;
    var p := LastPutExists(order, Some(x), k);
    StoreIsWritten(order, x, k, p);
    if IsGet(order[k]) && ReadsRight(order, Some(x), k) {
      var q :| LastPut(order, Some(x), k, q) && order[k].output.value == Written(order, Some(x), k, q);
      StoreIsWritten(order, x, k, q);
    }
  }

  /**
   An order of operations on one value is legal exactly when every get returns the value of the last put before it,
   the empty string if there is none, followed by the values of the appends since then, in their order.
   */
  lemma {:induction false} LegalIffReadsRight(order: seq<KvOperation>, n: nat)
    requires n <= |order|
    ensures Legal(Kv(), order[..n]) <==> forall k: nat | k < n :: ReadsRight(order, None, k)
  {
    if n > 0 {
      hide ReadsRight;
      LegalIffReadsRight(order, n - 1);
      assert order[..n][..n - 1] == order[..n - 1];
      StepReadsRight(order, n - 1);
    }
  }

  /** An order is legal for the whole store exactly when every get returns what was so written to its own key. */
  lemma {:induction false} StoreLegalIffReadsRight(order: seq<KvOperation>, n: nat)
    requires n <= |order|
    ensures Legal(KvStore(), order[..n]) <==>
            forall k: nat | k < n :: ReadsRight(order, Some(order[k].input.key), k)
  {
    if n > 0 {
      hide ReadsRight;
      StoreLegalIffReadsRight(order, n - 1);
      assert order[..n][..n - 1] == order[..n - 1];
      StoreReadsRight(order, n - 1);
    }
  }

  // ----- The partition -----

  /** The operations that `Partition` has collected under each key so far. */
  ghost predicate Collected(history: seq<KvOperation>, m: map<string, seq<KvOperation>>) {
    forall k :: if k in m then m[k] == Filter(Key, history, k) && m[k] != [] else Filter(Key, history, k) == []
  }

  lemma CollectOne(history: seq<KvOperation>, m: map<string, seq<KvOperation>>, v: KvOperation)
    requires Collected(history, m)
    ensures var k := v.input.key;
            Collected(history + [v], m[k := (if k in m then m[k] else []) + [v]])
  {
    var k0 := v.input.key;
    var m' := m[k0 := (if k0 in m then m[k0] else []) + [v]];
    forall k
      ensures if k in m' then m'[k] == Filter(Key, history + [v], k) && m'[k] != []
              else Filter(Key, history + [v], k) == []
    {
      FilterSnoc(Key, history, v, k);
    }
  }

  /** `keys` names every key of the history once. */
  ghost predicate KeysOf(history: seq<KvOperation>, keys: seq<string>) {
    && NoDuplicates(keys)
    && forall k :: k in keys <==> Filter(Key, history, k) != []
  }

  /** `Partition` keeps its promise: the history is linearizable if and only if each partition is. */
  lemma PartitionIsLocal(history: seq<KvOperation>, parts: seq<seq<KvOperation>>, keys: seq<string>)
    requires WellTimed(history) && KeysOf(history, keys)
    requires parts == seq(|keys|, i requires 0 <= i < |keys| => Filter(Key, history, keys[i]))
    ensures Linearizable(KvStore(), history) <==> forall i | 0 <= i < |parts| :: Linearizable(Kv(), parts[i])
    ensures forall i | 0 <= i < |parts| :: WellTimed(parts[i])
  {
    forall i | 0 <= i < |history| ensures Key(history[i].input) in keys {
      FilterMember(Key, history, Key(history[i].input), history[i]);
    }
    LocalityTheorem(Kv(), Key, history, keys);
    forall i | 0 <= i < |parts| ensures WellTimed(parts[i]) {
      FilterWellTimed(Key, history, keys[i]);
    }
    assert EachKeyLinearizable(Kv(), Key, history, keys) <==>
           forall i | 0 <= i < |parts| :: Linearizable(Kv(), parts[i]) by {
      if forall i | 0 <= i < |parts| :: Linearizable(Kv(), parts[i]) {
        forall k | k in keys ensures Linearizable(Kv(), Filter(Key, history, k)) {
          var i :| 0 <= i < |keys| && keys[i] == k;
          assert Linearizable(Kv(), parts[i]);
        }
      }
    }
  }

  lemma KeysOfNothing(history: seq<KvOperation>, keys: seq<string>)
    requires KeysOf(history, keys)
    ensures keys == [] <==> history == []
  {
    assert keys != [] ==> keys[0] in keys;
    if history != [] {
      FilterMember(Key, history, history[0].input.key, history[0]);
    }
  }

  /** The partitions: the operations of each key in their order, keys sorted. */
  ghost predicate ByKey(history: seq<KvOperation>, keys: seq<string>, parts: seq<seq<KvOperation>>) {
    && KeysOf(history, keys) && SortedBy(StringLeq, keys)
    && |parts| == |keys| && forall i | 0 <= i < |keys| :: parts[i] == Filter(Key, history, keys[i])
  }

  lemma ByKeyIsLocal(history: seq<KvOperation>, keys: seq<string>, parts: seq<seq<KvOperation>>)
    requires ByKey(history, keys, parts) && WellTimed(history)
    ensures Linearizable(KvStore(), history) <==> forall i | 0 <= i < |parts| :: Linearizable(Kv(), parts[i])
  {
    hide Filter, Linearizable, NoDuplicates, SortedBy;
    assert parts == seq(|keys|, i requires 0 <= i < |keys| => Filter(Key, history, keys[i]));
    PartitionIsLocal(history, parts, keys);
  }

  /** The first loop: the operations of each key in their order. */
  method Collect(history: seq<KvOperation>) returns (m: map<string, seq<KvOperation>>)
    ensures Collected(history, m)
  {
    m := map[];
    for i := 0 to |history|
      invariant Collected(history[..i], m)
    {
      var v := history[i];
      CollectOne(history[..i], m, v);
      assert history[..i] + [v] == history[..i + 1];
      m := m[v.input.key := (if v.input.key in m then m[v.input.key] else []) + [v]];
    }
    assert history[..|history|] == history;
  }

  /** The partition function, with what the model promises of it. */
  method Partition(history: seq<KvOperation>) returns (parts: seq<seq<KvOperation>>)
    ensures exists keys :: ByKey(history, keys, parts)
    ensures WellTimed(history) ==>
              (Linearizable(KvStore(), history) <==> forall i | 0 <= i < |parts| :: Linearizable(Kv(), parts[i]))
  {
    hide Filter, Linearizable, NoDuplicates, SortedBy, StringLeq, WellTimed, KvStore, Kv;
    var m := Collect(history);
    var list := KeyList(m);
    var keys := SortStrings(list);
    PermutationNoDuplicates(list, keys);
    forall k ensures k in keys <==> k in m {
      PermutationMembers(list, keys, k);
    }
    parts := [];
    for i := 0 to |keys|
      invariant |parts| == i
      invariant forall j | 0 <= j < i :: parts[j] == Filter(Key, history, keys[j])
    {
      assert keys[i] in keys;
      parts := parts + [m[keys[i]]];
    }
    assert ByKey(history, keys, parts);
    if WellTimed(history) {
      ByKeyIsLocal(history, keys, parts);
    }
  }

  /** Nothing is lost or duplicated by partitioning. */
  lemma PartsPartition(history: seq<KvOperation>, keys: seq<string>, op: KvOperation)
    requires KeysOf(history, keys) && op in history
    ensures exists i | 0 <= i < |keys| :: multiset(Filter(Key, history, keys[i]))[op] == multiset(history)[op]
    ensures forall i, j | 0 <= i < j < |keys| ::
              !(op in Filter(Key, history, keys[i]) && op in Filter(Key, history, keys[j]))
  {
    FilterMember(Key, history, op.input.key, op);
    var i :| 0 <= i < |keys| && keys[i] == op.input.key;
    FilterCount(Key, history, keys[i], op);
    forall a, b | 0 <= a < b < |keys|
      ensures !(op in Filter(Key, history, keys[a]) && op in Filter(Key, history, keys[b]))
    {
      FilterMember(Key, history, keys[a], op);
      FilterMember(Key, history, keys[b], op);
    }
  }
}
