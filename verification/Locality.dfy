/**
 Locality: checking each key on its own answers the question for the whole store. This is the contract that
 Lab3/src/porcupine/model.go states for `Partition` and that Lab3/src/models/kv.go relies on.

 The proof gives each operation of a linearization a point in time inside its own interval, in order. Orders
 with points can be merged by time, and the merge keeps the order of each part.
 */
module Locality {
  import opened Linearizability
  import opened Sorting

  // ----- Points in time -----

  ghost predicate Window<I, O>(op: Operation<I, O>, t: int) {
    op.call <= t <= op.ret
  }

  /** `ts` are points for `order`: never decreasing, each between the call and the return of its operation. */
  ghost predicate Points<I, O>(order: seq<Operation<I, O>>, ts: seq<int>) {
    && |ts| == |order|
    && (forall i | 0 <= i < |order| :: Window(order[i], ts[i]))
    && (forall i, j | 0 <= i < j < |ts| :: ts[i] <= ts[j])
  }

  /** Operation `top` has the latest call of the order. */
  ghost predicate IsLatestCall<I, O>(order: seq<Operation<I, O>>, top: nat) {
    top < |order| && forall i | 0 <= i < |order| :: order[i].call <= order[top].call
  }

  lemma PointsSnoc<I, O>(order: seq<Operation<I, O>>, ts: seq<int>, op: Operation<I, O>, t: int)
    requires Points(order, ts) && Window(op, t)
    requires order != [] ==> ts[|ts| - 1] <= t
    ensures Points(order + [op], ts + [t])
  {
  }

  lemma NewestHasPoint<I, O>(order: seq<Operation<I, O>>, top: nat)
    requires RealTime(order) && WellTimed(order) && IsLatestCall(order, top)
    ensures Window(order[|order| - 1], order[top].call)
  {
    var k := |order| - 1;
    assert order[k].call <= order[k].ret;
    assert top < k ==> !(order[k].ret < order[top].call);
  }

  /** In real-time order, the latest call so far is a point for the newest operation. */
  lemma {:induction false} LatestCallIsPoint<I, O>(order: seq<Operation<I, O>>) returns (ts: seq<int>, top: nat)
    requires RealTime(order) && WellTimed(order)
    ensures Points(order, ts)
    ensures order != [] ==> IsLatestCall(order, top) && ts[|ts| - 1] == order[top].call
  {
    top := 0;
    if order == [] {
      ts := [];
    } else {
      InitIsTimed(order);
      var k := |order| - 1;
      var init, op := order[..k], order[k];
      ts, top := LatestCallIsPoint(init);
      assert |ts| == k && (k > 0 ==> top < k);
      hide Points, RealTime, WellTimed, Window, IsLatestCall;
      LatestSnoc(init, op, top);
      if k == 0 || init[top].call <= op.call {
        top := k;
      }
      NewestHasPoint(order, top);
      PointsSnoc(init, ts, op, order[top].call);
      ts := ts + [order[top].call];
    }
  }

  lemma InitIsTimed<I, O>(order: seq<Operation<I, O>>)
    requires order != [] && RealTime(order) && WellTimed(order)
    ensures RealTime(order[..|order| - 1]) && WellTimed(order[..|order| - 1])
    ensures order == order[..|order| - 1] + [order[|order| - 1]]
  {
  }

  lemma LatestSnoc<I, O>(init: seq<Operation<I, O>>, op: Operation<I, O>, top: nat)
    requires init != [] ==> IsLatestCall(init, top)
    ensures IsLatestCall(init + [op], if init == [] || init[top].call <= op.call then |init| else top)
  {
  }

  lemma PointsGiveRealTime<I, O>(order: seq<Operation<I, O>>, ts: seq<int>)
    requires Points(order, ts)
    ensures RealTime(order)
  {
    forall i, j | 0 <= i < j < |order| ensures !(order[j].ret < order[i].call) {
      assert Window(order[i], ts[i]) && Window(order[j], ts[j]);
    }
  }

  /** An order respects real time exactly when its operations can be given points. */
  lemma RealTimeIffPoints<I, O>(order: seq<Operation<I, O>>)
    requires WellTimed(order)
    ensures RealTime(order) <==> exists ts :: Points(order, ts)
  {
    if RealTime(order) {
      var ts, _ := LatestCallIsPoint(order);
    }
    if ts :| Points(order, ts) {
      PointsGiveRealTime(order, ts);
    }
  }

  // ----- Keys -----

  /** The operations on one key, in order. */
  function Filter<I, O, K(==)>(key: I -> K, s: seq<Operation<I, O>>, k: K): seq<Operation<I, O>> {
    if s == [] then []
    else
      var last := s[|s| - 1];
      Filter(key, s[..|s| - 1], k) + (if key(last.input) == k then [last] else [])
  }

  lemma FilterSnoc<I, O, K>(key: I -> K, s: seq<Operation<I, O>>, op: Operation<I, O>, k: K)
    ensures Filter(key, s + [op], k) == Filter(key, s, k) + (if key(op.input) == k then [op] else [])
  {
    assert (s + [op])[..|s|] == s;
  }

  lemma {:induction false} FilterMember<I, O, K>(key: I -> K, s: seq<Operation<I, O>>, k: K, op: Operation<I, O>)
    ensures op in Filter(key, s, k) <==> op in s && key(op.input) == k
  {
    if s != [] {
      FilterMember(key, s[..|s| - 1], k, op);
      assert s == s[..|s| - 1] + [s[|s| - 1]];
    }
  }

  lemma {:induction false} FilterCount<I, O, K>(key: I -> K, s: seq<Operation<I, O>>, k: K, op: Operation<I, O>)
    ensures multiset(Filter(key, s, k))[op] == if key(op.input) == k then multiset(s)[op] else 0
  {
    if s != [] {
      FilterCount(key, s[..|s| - 1], k, op);
      assert s == s[..|s| - 1] + [s[|s| - 1]];
    }
  }

  lemma {:induction false} FilterRealTime<I, O, K>(key: I -> K, s: seq<Operation<I, O>>, k: K)
    requires RealTime(s)
    ensures RealTime(Filter(key, s, k))
  {
    if s != [] {
      var n := |s| - 1;
      FilterRealTime(key, s[..n], k);
      var front := Filter(key, s[..n], k);
      forall i | 0 <= i < |front| ensures !(s[n].ret < front[i].call) {
        FilterMember(key, s[..n], k, front[i]);
        var j :| 0 <= j < n && s[..n][j] == front[i];
        assert s[j] == front[i];
      }
    }
  }

  lemma FilterWellTimed<I, O, K>(key: I -> K, s: seq<Operation<I, O>>, k: K)
    requires WellTimed(s)
    ensures WellTimed(Filter(key, s, k))
  {
    var part := Filter(key, s, k);
    forall i | 0 <= i < |part| ensures part[i].call <= part[i].ret {
      FilterMember(key, s, k, part[i]);
    }
  }

  // ----- The whole store -----

  function Lookup<S, K>(store: map<K, S>, k: K, default: S): S {
    if k in store then store[k] else default
  }

  function StoreStep<S, I, O, K(==)>(m: Model<S, I, O>, key: I -> K, store: map<K, S>, i: I, o: O): (bool, map<K, S>) {
    var r := m.step(Lookup(store, key(i), m.init), i, o);
    (r.0, store[key(i) := r.1])
  }

  /** One object of model `m` per key; a key not written yet holds the initial state. */
  ghost function Store<S, I, O, K>(m: Model<S, I, O>, key: I -> K): Model<map<K, S>, I, O> {
    Model(map[], (store, i, o) => StoreStep(m, key, store, i, o), (a, b) => a == b)
  }

  /** The part of `order` on key `k` replays on an object of its own. */
  ghost predicate KeyLegal<S, I, O, K>(m: Model<S, I, O>, key: I -> K, order: seq<Operation<I, O>>, k: K) {
    Legal(m, Filter(key, order, k))
  }

  ghost function KeyState<S, I, O, K>(m: Model<S, I, O>, key: I -> K, order: seq<Operation<I, O>>, k: K): S {
    Final(m, Filter(key, order, k))
  }

  lemma KeyStep<S, I, O, K>(m: Model<S, I, O>, key: I -> K, order: seq<Operation<I, O>>, k: K)
    requires order != []
    ensures var n := |order| - 1;
            var r := m.step(KeyState(m, key, order[..n], k), order[n].input, order[n].output);
            if k == key(order[n].input)
            then KeyState(m, key, order, k) == r.1 &&
                 (KeyLegal(m, key, order, k) <==> KeyLegal(m, key, order[..n], k) && r.0)
            else KeyState(m, key, order, k) == KeyState(m, key, order[..n], k) &&
                 (KeyLegal(m, key, order, k) <==> KeyLegal(m, key, order[..n], k))
  {
    var n := |order| - 1;
    var part := Filter(key, order[..n], k);
    if k == key(order[n].input) {
      assert (part + [order[n]])[..|part|] == part;
    } else {
      assert Filter(key, order, k) == part;
    }
  }

  /** The whole store after one more operation. */
  lemma StoreSnoc<S, I, O, K>(m: Model<S, I, O>, key: I -> K, order: seq<Operation<I, O>>)
    requires order != []
    ensures var n := |order| - 1;
            var before := Final(Store(m, key), order[..n]);
            var k0 := key(order[n].input);
            var r := m.step(Lookup(before, k0, m.init), order[n].input, order[n].output);
            && Final(Store(m, key), order) == before[k0 := r.1]
            && (Legal(Store(m, key), order) <==> Legal(Store(m, key), order[..n]) && r.0)
  {
  }

  /** Each key of the store sees only its own operations. */
  lemma {:induction false} StoreProjects<S, I, O, K(!new)>(
    m: Model<S, I, O>, key: I -> K, order: seq<Operation<I, O>>)
    ensures forall k :: Lookup(Final(Store(m, key), order), k, m.init) == KeyState(m, key, order, k)
    ensures Legal(Store(m, key), order) <==> forall k :: KeyLegal(m, key, order, k)
  {
    if order != [] {
      hide Final, Legal, KeyLegal, KeyState, Store;
      var init, op := order[..|order| - 1], order[|order| - 1];
      var k0 := key(op.input);
      StoreProjects(m, key, init);
      StoreSnoc(m, key, order);
      KeyStep(m, key, order, k0);
      forall k
        ensures Lookup(Final(Store(m, key), order), k, m.init) == KeyState(m, key, order, k)
        ensures k != k0 ==> (KeyLegal(m, key, order, k) <==> KeyLegal(m, key, init, k))
      {
        KeyStep(m, key, order, k);
      }
      if Legal(Store(m, key), order) {
        forall k ensures KeyLegal(m, key, order, k) {
          assert KeyLegal(m, key, init, k);
        }
      }
      if forall k :: KeyLegal(m, key, order, k) {
        forall k ensures KeyLegal(m, key, init, k) {
          assert KeyLegal(m, key, order, k) && KeyLegal(m, key, order, k0);
        }
      }
    }
  }

  // ----- Merging -----

  datatype Timed<I, O> = Timed(op: Operation<I, O>, at: int)

  /** Operations with their points, in order. */
  ghost predicate Ordered<I, O>(ts: seq<Timed<I, O>>) {
    && (forall i | 0 <= i < |ts| :: Window(ts[i].op, ts[i].at))
    && (forall i, j | 0 <= i < j < |ts| :: ts[i].at <= ts[j].at)
  }

  ghost function Ops<I, O>(ts: seq<Timed<I, O>>): seq<Operation<I, O>> {
    seq(|ts|, i requires 0 <= i < |ts| => ts[i].op)
  }

  lemma OpsSnoc<I, O>(ts: seq<Timed<I, O>>)
    requires ts != []
    ensures Ops(ts) == Ops(ts[..|ts| - 1]) + [ts[|ts| - 1].op]
  {
  }

  ghost function Merge<I, O>(a: seq<Timed<I, O>>, b: seq<Timed<I, O>>): seq<Timed<I, O>>
    decreases |a| + |b|
  {
    if a == [] then b
    else if b == [] then a
    else if a[|a| - 1].at > b[|b| - 1].at then Merge(a[..|a| - 1], b) + [a[|a| - 1]]
    else Merge(a, b[..|b| - 1]) + [b[|b| - 1]]
  }

  lemma {:induction false} MergeBounded<I, O>(a: seq<Timed<I, O>>, b: seq<Timed<I, O>>, t: int)
    requires forall i | 0 <= i < |a| :: a[i].at <= t
    requires forall i | 0 <= i < |b| :: b[i].at <= t
    ensures forall i | 0 <= i < |Merge(a, b)| :: Merge(a, b)[i].at <= t
    decreases |a| + |b|
  {
    if a != [] && b != [] {
      if a[|a| - 1].at > b[|b| - 1].at {
        MergeBounded(a[..|a| - 1], b, t);
      } else {
        MergeBounded(a, b[..|b| - 1], t);
      }
    }
  }

  lemma OrderedSnoc<I, O>(ts: seq<Timed<I, O>>, x: Timed<I, O>)
    requires Ordered(ts) && Window(x.op, x.at) && forall i | 0 <= i < |ts| :: ts[i].at <= x.at
    ensures Ordered(ts + [x])
  {
  }

  lemma {:induction false} MergeOrdered<I, O>(a: seq<Timed<I, O>>, b: seq<Timed<I, O>>)
    requires Ordered(a) && Ordered(b)
    ensures Ordered(Merge(a, b))
    decreases |a| + |b|
  {
    if a != [] && b != [] {
      var x, y := a[|a| - 1], b[|b| - 1];
      if x.at > y.at {
        MergeOrdered(a[..|a| - 1], b);
        MergeBounded(a[..|a| - 1], b, x.at);
        OrderedSnoc(Merge(a[..|a| - 1], b), x);
      } else {
        MergeOrdered(a, b[..|b| - 1]);
        MergeBounded(a, b[..|b| - 1], y.at);
        OrderedSnoc(Merge(a, b[..|b| - 1]), y);
      }
    }
  }

  ghost predicate Lacks<I, O, K>(key: I -> K, ts: seq<Timed<I, O>>, k: K) {
    forall i | 0 <= i < |ts| :: key(ts[i].op.input) != k
  }

  lemma {:induction false} LacksFilter<I, O, K>(key: I -> K, ts: seq<Timed<I, O>>, k: K)
    requires Lacks(key, ts, k)
    ensures Filter(key, Ops(ts), k) == []
  {
    if ts != [] {
      LacksFilter(key, ts[..|ts| - 1], k);
      OpsSnoc(ts);
      FilterSnoc(key, Ops(ts[..|ts| - 1]), ts[|ts| - 1].op, k);
    }
  }

  lemma FilterOpsSnoc<I, O, K>(key: I -> K, ts: seq<Timed<I, O>>, x: Timed<I, O>, k: K)
    ensures Filter(key, Ops(ts + [x]), k) == Filter(key, Ops(ts), k) + (if key(x.op.input) == k then [x.op] else [])
  {
    OpsSnoc(ts + [x]);
    assert (ts + [x])[..|ts|] == ts;
    FilterSnoc(key, Ops(ts), x.op, k);
  }

  lemma FilterOpsUnsnoc<I, O, K>(key: I -> K, ts: seq<Timed<I, O>>, k: K)
    requires ts != []
    ensures var x := ts[|ts| - 1];
            Filter(key, Ops(ts), k) ==
            Filter(key, Ops(ts[..|ts| - 1]), k) + (if key(x.op.input) == k then [x.op] else [])
  {
    assert ts == ts[..|ts| - 1] + [ts[|ts| - 1]];
    FilterOpsSnoc(key, ts[..|ts| - 1], ts[|ts| - 1], k);
  }

  /** A key that only one of two orders has keeps its order in the merge. */
  lemma {:induction false} MergeFilter<I, O, K>(key: I -> K, a: seq<Timed<I, O>>, b: seq<Timed<I, O>>, k: K)
    ensures Lacks(key, b, k) ==> Filter(key, Ops(Merge(a, b)), k) == Filter(key, Ops(a), k)
    ensures Lacks(key, a, k) ==> Filter(key, Ops(Merge(a, b)), k) == Filter(key, Ops(b), k)
    decreases |a| + |b|
  {
    if a == [] {
      if Lacks(key, b, k) {
        LacksFilter(key, b, k);
      }
    } else if b == [] {
      if Lacks(key, a, k) {
        LacksFilter(key, a, k);
      }
    } else if a[|a| - 1].at > b[|b| - 1].at {
      MergeFilter(key, a[..|a| - 1], b, k);
      FilterOpsSnoc(key, Merge(a[..|a| - 1], b), a[|a| - 1], k);
      FilterOpsUnsnoc(key, a, k);
    } else {
      MergeFilter(key, a, b[..|b| - 1], k);
      FilterOpsSnoc(key, Merge(a, b[..|b| - 1]), b[|b| - 1], k);
      FilterOpsUnsnoc(key, b, k);
    }
  }

  /** A linearization of one key's operations, with points. */
  lemma TimedLinearization<S, I(!new), O(!new)>(m: Model<S, I, O>, ops: seq<Operation<I, O>>)
    returns (ts: seq<Timed<I, O>>)
    requires Linearizable(m, ops) && WellTimed(ops)
    ensures Ordered(ts) && IsLinearization(m, ops, Ops(ts))
  {
    var order: seq<Operation<I, O>> :| IsLinearization(m, ops, order);
    forall i | 0 <= i < |order| ensures order[i].call <= order[i].ret {
      assert order[i] in multiset(ops);
    }
    var points, _ := LatestCallIsPoint(order);
    ts := seq(|order|, i requires 0 <= i < |order| => Timed(order[i], points[i]));
    assert Ops(ts) == order;
  }

  /** `ts` holds a linearization of each of the first `n` keys, merged. */
  ghost predicate Merged<S, I, O, K(!new)>(
    m: Model<S, I, O>, key: I -> K, ops: seq<Operation<I, O>>, keys: seq<K>, n: nat, ts: seq<Timed<I, O>>)
    requires n <= |keys|
  {
    && Ordered(ts)
    && (forall k | k !in keys[..n] :: Lacks(key, ts, k))
    && (forall k | k in keys[..n] :: IsLinearization(m, Filter(key, ops, k), Filter(key, Ops(ts), k)))
  }

  /** All operations of an order that only holds key `k0` are on `k0`. */
  lemma OneKeyLacksOthers<S, I, O, K>(
    m: Model<S, I, O>, key: I -> K, ops: seq<Operation<I, O>>, ts: seq<Timed<I, O>>, k0: K, k: K)
    requires IsLinearization(m, Filter(key, ops, k0), Ops(ts)) && k != k0
    ensures Lacks(key, ts, k)
  {
    forall i | 0 <= i < |ts| ensures key(ts[i].op.input) != k {
      assert ts[i].op == Ops(ts)[i];
      assert ts[i].op in multiset(Ops(ts));
      FilterMember(key, ops, k0, ts[i].op);
    }
  }

  lemma {:induction false} FilterFilter<I, O, K>(key: I -> K, s: seq<Operation<I, O>>, k: K)
    requires forall i | 0 <= i < |s| :: key(s[i].input) == k
    ensures Filter(key, s, k) == s
  {
    if s != [] {
      FilterFilter(key, s[..|s| - 1], k);
      assert s == s[..|s| - 1] + [s[|s| - 1]];
    }
  }

  lemma OneKeyFilters<S, I, O, K>(
    m: Model<S, I, O>, key: I -> K, ops: seq<Operation<I, O>>, order: seq<Operation<I, O>>, k: K)
    requires IsLinearization(m, Filter(key, ops, k), order)
    ensures Filter(key, order, k) == order
  {
    forall i | 0 <= i < |order| ensures key(order[i].input) == k {
      assert order[i] in multiset(order);
      FilterMember(key, ops, k, order[i]);
    }
    FilterFilter(key, order, k);
  }

  /** Adding one more key's linearization by merging. */
  lemma MergeOneKey<S, I, O, K(!new)>(
    m: Model<S, I, O>, key: I -> K, ops: seq<Operation<I, O>>, keys: seq<K>, n: nat,
    ts: seq<Timed<I, O>>, one: seq<Timed<I, O>>)
    requires n < |keys| && keys[n] !in keys[..n]
    requires Merged(m, key, ops, keys, n, ts)
    requires Ordered(one) && IsLinearization(m, Filter(key, ops, keys[n]), Ops(one))
    ensures Merged(m, key, ops, keys, n + 1, Merge(ts, one))
  {
    hide Filter, Ordered, Lacks, IsLinearization, Merge, Ops;
    var k0 := keys[n];
    assert keys[..n + 1] == keys[..n] + [k0];
    MergeOrdered(ts, one);
    MergeNewKey(m, key, ops, ts, one, k0);
    forall k | k != k0 ensures Filter(key, Ops(Merge(ts, one)), k) == Filter(key, Ops(ts), k) {
      MergeOtherKey(m, key, ops, ts, one, k0, k);
    }
    forall k | k !in keys[..n + 1] ensures Lacks(key, Merge(ts, one), k) {
      LacksFilter(key, ts, k);
      FilterLacks(key, Merge(ts, one), k);
    }
  }

  lemma MergeNewKey<S, I, O, K(!new)>(
    m: Model<S, I, O>, key: I -> K, ops: seq<Operation<I, O>>, ts: seq<Timed<I, O>>, one: seq<Timed<I, O>>, k0: K)
    requires Lacks(key, ts, k0) && IsLinearization(m, Filter(key, ops, k0), Ops(one))
    ensures IsLinearization(m, Filter(key, ops, k0), Filter(key, Ops(Merge(ts, one)), k0))
  {
    hide IsLinearization, Filter, Lacks, Merge;
    OneKeyFilters(m, key, ops, Ops(one), k0);
    MergeFilter(key, ts, one, k0);
  }

  lemma MergeOtherKey<S, I, O, K(!new)>(
    m: Model<S, I, O>, key: I -> K, ops: seq<Operation<I, O>>, ts: seq<Timed<I, O>>, one: seq<Timed<I, O>>,
    k0: K, k: K)
    requires IsLinearization(m, Filter(key, ops, k0), Ops(one)) && k != k0
    ensures Filter(key, Ops(Merge(ts, one)), k) == Filter(key, Ops(ts), k)
  {
    hide IsLinearization, Filter, Lacks, Merge;
    OneKeyLacksOthers(m, key, ops, one, k0, k);
    MergeFilter(key, ts, one, k);
  }

  lemma {:induction false} FilterLacks<I, O, K>(key: I -> K, ts: seq<Timed<I, O>>, k: K)
    requires Filter(key, Ops(ts), k) == []
    ensures Lacks(key, ts, k)
  {
    forall i | 0 <= i < |ts| ensures key(ts[i].op.input) != k {
      FilterMember(key, Ops(ts), k, Ops(ts)[i]);
    }
  }

  ghost predicate EachKeyLinearizable<S, I(!new), O(!new), K>(
    m: Model<S, I, O>, key: I -> K, ops: seq<Operation<I, O>>, keys: seq<K>)
  {
    forall k | k in keys :: Linearizable(m, Filter(key, ops, k))
  }

  lemma {:induction false} MergeKeys<S, I(!new), O(!new), K(!new)>(
    m: Model<S, I, O>, key: I -> K, ops: seq<Operation<I, O>>, keys: seq<K>, n: nat)
    returns (ts: seq<Timed<I, O>>)
    requires n <= |keys| && NoDuplicates(keys) && WellTimed(ops) && EachKeyLinearizable(m, key, ops, keys)
    ensures Merged(m, key, ops, keys, n, ts)
  {
    if n == 0 {
      ts := [];
      assert keys[..0] == [];
    } else {
      hide Merged, IsLinearization, Linearizable, Ordered, Filter;
      assert keys[n - 1] !in keys[..n - 1];
      var front := MergeKeys(m, key, ops, keys, n - 1);
      var k0 := keys[n - 1];
      assert k0 in keys;
      FilterWellTimed(key, ops, k0);
      var one := TimedLinearization(m, Filter(key, ops, k0));
      MergeOneKey(m, key, ops, keys, n - 1, front, one);
      ts := Merge(front, one);
    }
  }

  lemma MergedIsPermutation<S, I, O, K(!new)>(
    m: Model<S, I, O>, key: I -> K, ops: seq<Operation<I, O>>, keys: seq<K>, ts: seq<Timed<I, O>>)
    requires Merged(m, key, ops, keys, |keys|, ts)
    requires forall i | 0 <= i < |ops| :: key(ops[i].input) in keys
    ensures multiset(Ops(ts)) == multiset(ops)
  {
    hide Filter, Ordered, Lacks, RealTime, Legal;
    var order := Ops(ts);
    assert keys[..|keys|] == keys;
    forall op ensures multiset(order)[op] == multiset(ops)[op] {
      var k := key(op.input);
      FilterCount(key, order, k, op);
      FilterCount(key, ops, k, op);
      if k in keys {
        assert IsLinearization(m, Filter(key, ops, k), Filter(key, order, k));
      } else {
        LacksFilter(key, ts, k);
        assert op !in ops;
      }
    }
  }

  /** Per-key linearizations merge into one of the whole store. */
  lemma KeysToStore<S, I(!new), O(!new), K(!new)>(
    m: Model<S, I, O>, key: I -> K, ops: seq<Operation<I, O>>, keys: seq<K>)
    requires NoDuplicates(keys) && WellTimed(ops)
    requires forall i | 0 <= i < |ops| :: key(ops[i].input) in keys
    requires EachKeyLinearizable(m, key, ops, keys)
    ensures Linearizable(Store(m, key), ops)
  {
    hide Filter, Final, Store, RealTime;
    var ts := MergeKeys(m, key, ops, keys, |keys|);
    assert keys[..|keys|] == keys;
    var order := Ops(ts);
    MergedIsPermutation(m, key, ops, keys, ts);
    PointsGiveRealTime(order, seq(|ts|, i requires 0 <= i < |ts| => ts[i].at));
    forall k ensures KeyLegal(m, key, order, k) {
      if k in keys {
        assert IsLinearization(m, Filter(key, ops, k), Filter(key, order, k));
      } else {
        LacksFilter(key, ts, k);
      }
    }
    StoreProjects(m, key, order);
    assert IsLinearization(Store(m, key), ops, order);
  }

  /** A linearization of the whole store restricts to one of each key. */
  lemma StoreToKey<S, I(!new), O(!new), K(!new)>(
    m: Model<S, I, O>, key: I -> K, ops: seq<Operation<I, O>>, k: K)
    requires Linearizable(Store(m, key), ops)
    ensures Linearizable(m, Filter(key, ops, k))
  {
    var order: seq<Operation<I, O>> :| IsLinearization(Store(m, key), ops, order);
    hide Store, Filter, Final, RealTime, Legal;
    var part := Filter(key, order, k);
    forall op ensures multiset(part)[op] == multiset(Filter(key, ops, k))[op] {
      assert multiset(order)[op] == multiset(ops)[op];
      FilterCount(key, order, k, op);
      FilterCount(key, ops, k, op);
    }
    assert multiset(part) == multiset(Filter(key, ops, k));
    FilterRealTime(key, order, k);
    StoreProjects(m, key, order);
    assert KeyLegal(m, key, order, k);
    assert IsLinearization(m, Filter(key, ops, k), part);
  }

  /** A history is linearizable against the whole store exactly when each key's part is against its own object. */
  lemma LocalityTheorem<S, I(!new), O(!new), K(!new)>(
    m: Model<S, I, O>, key: I -> K, ops: seq<Operation<I, O>>, keys: seq<K>)
    requires NoDuplicates(keys) && WellTimed(ops)
    requires forall i | 0 <= i < |ops| :: key(ops[i].input) in keys
    ensures Linearizable(Store(m, key), ops) <==> EachKeyLinearizable(m, key, ops, keys)
  {
    if EachKeyLinearizable(m, key, ops, keys) {
      KeysToStore(m, key, ops, keys);
    }
    if Linearizable(Store(m, key), ops) {
      forall k | k in keys ensures Linearizable(m, Filter(key, ops, k)) {
        StoreToKey(m, key, ops, k);
      }
    }
  }
}
