/**
 Histories of operations (Lab3/src/porcupine/model.go) and what it means for one to be linearizable.
 `Linearizable` is the specification of the whole checker. It mentions no search, no identifiers and no list.
 */
module Linearizability {
  import opened Sorting


  datatype Operation<I, O> = Operation(clientId: int, input: I, call: int, output: O, ret: int)

  /** `Model`, without the functions that describe operations and states for display. */
  datatype Model<!S, !I, !O> = Model(
    init: S,
    step: (S, I, O) -> (bool, S),
    equal: (S, S) -> bool)

  /** Each operation returns no earlier than it is called. */
  predicate WellTimed<I, O>(ops: seq<Operation<I, O>>) {
    forall i | 0 <= i < |ops| :: ops[i].call <= ops[i].ret
  }

  /** `Equal` identifies only states that no later step can tell apart. Plain equality always qualifies. */
  ghost predicate Congruence<S(!new), I(!new), O(!new)>(m: Model<S, I, O>) {
    && (forall s :: m.equal(s, s))
    && (forall s, t, u :: m.equal(s, t) && m.equal(t, u) ==> m.equal(s, u))
    && (forall s, t, i, o :: m.equal(s, t) && m.step(s, i, o).0 ==>
          m.step(t, i, o).0 && m.equal(m.step(s, i, o).1, m.step(t, i, o).1))
  }

  /** The state after the operations of `order`, whether or not the steps succeed. */
  function Final<S, I, O>(m: Model<S, I, O>, order: seq<Operation<I, O>>): S {
    if order == [] then m.init
    else
      var k := |order| - 1;
      m.step(Final(m, order[..k]), order[k].input, order[k].output).1
  }

  /** Every step from the initial state succeeds. */
  predicate Legal<S, I, O>(m: Model<S, I, O>, order: seq<Operation<I, O>>) {
    order == [] ||
    var k := |order| - 1;
    Legal(m, order[..k]) && m.step(Final(m, order[..k]), order[k].input, order[k].output).0
  }

  /** No operation is placed after one that was called only once it had returned. */
  ghost predicate RealTime<I, O>(order: seq<Operation<I, O>>) {
    forall i, j | 0 <= i < j < |order| :: !(order[j].ret < order[i].call)
  }

  ghost predicate IsLinearization<S, I, O>(
    m: Model<S, I, O>, ops: seq<Operation<I, O>>, order: seq<Operation<I, O>>)
  {
    multiset(order) == multiset(ops) && RealTime(order) && Legal(m, order)
  }

  ghost predicate Linearizable<S, I(!new), O(!new)>(m: Model<S, I, O>, ops: seq<Operation<I, O>>) {
    exists order :: IsLinearization(m, ops, order)
  }

  // ----- Partial linearizations, named by identifiers -----

  /** The identifiers of an order. Identifier `i` names operation `ops[i]`. */
  function Ids(order: seq<nat>): set<nat> {
    set x | x in order
  }

  ghost predicate Precedes<I, O>(ops: seq<Operation<I, O>>, a: nat, b: nat)
    requires a < |ops| && b < |ops|
  {
    ops[a].ret < ops[b].call
  }

  /** With `done` already placed, `id` may be placed next: nothing left outside returned before its call. */
  ghost predicate Minimal<I, O>(ops: seq<Operation<I, O>>, done: set<nat>, id: nat) {
    && id < |ops|
    && id !in done
    && forall other: nat | other < |ops| && other !in done :: !Precedes(ops, other, id)
  }

  predicate InRange(order: seq<nat>, n: nat) {
    forall i | 0 <= i < |order| :: order[i] < n
  }

  function StateAfter<S, I, O>(m: Model<S, I, O>, ops: seq<Operation<I, O>>, order: seq<nat>): S
    requires InRange(order, |ops|)
  {
    if order == [] then m.init
    else
      var op := ops[order[|order| - 1]];
      m.step(StateAfter(m, ops, order[..|order| - 1]), op.input, op.output).1
  }

  /** `order` is a legal partial linearization: each member is minimal when placed and its step succeeds. */
  ghost predicate Partial<S, I, O>(m: Model<S, I, O>, ops: seq<Operation<I, O>>, order: seq<nat>) {
    && InRange(order, |ops|)
    && (order == [] ||
        var init, id := order[..|order| - 1], order[|order| - 1];
        && Partial(m, ops, init)
        && Minimal(ops, Ids(init), id)
        && m.step(StateAfter(m, ops, init), ops[id].input, ops[id].output).0)
  }

  function Pick<I, O>(ops: seq<Operation<I, O>>, order: seq<nat>): seq<Operation<I, O>>
    requires InRange(order, |ops|)
  {
    seq(|order|, i requires 0 <= i < |order| => ops[order[i]])
  }

  lemma IdsSnoc(order: seq<nat>, id: nat)
    ensures Ids(order + [id]) == Ids(order) + {id}
  {
  }

  lemma PickSnoc<I, O>(ops: seq<Operation<I, O>>, order: seq<nat>)
    requires InRange(order, |ops|) && order != []
    ensures Pick(ops, order) == Pick(ops, order[..|order| - 1]) + [ops[order[|order| - 1]]]
  {
  }

  lemma {:induction false} DistinctSize(order: seq<nat>)
    requires NoDuplicates(order)
    ensures |Ids(order)| == |order|
  {
    if order != [] {
      var k := |order| - 1;
      DistinctSize(order[..k]);
      assert order == order[..k] + [order[k]];
      IdsSnoc(order[..k], order[k]);
    }
  }

  /** Each member is minimal when it is placed. */
  ghost predicate MinimalThroughout<I, O>(ops: seq<Operation<I, O>>, order: seq<nat>) {
    forall k | 0 <= k < |order| :: Minimal(ops, Ids(order[..k]), order[k])
  }

  lemma MinimalSnoc<I, O>(ops: seq<Operation<I, O>>, order: seq<nat>)
    requires order != []
    ensures var k := |order| - 1;
            MinimalThroughout(ops, order) <==>
            MinimalThroughout(ops, order[..k]) && Minimal(ops, Ids(order[..k]), order[k])
  {
    hide Minimal, Ids;
    var k := |order| - 1;
    forall i | 0 <= i < k
      ensures Minimal(ops, Ids(order[..i]), order[i]) <==> Minimal(ops, Ids(order[..k][..i]), order[..k][i])
    {
      assert order[..i] == order[..k][..i];
    }
  }

  /** What a partial linearization is, in one quantifier over its positions. */
  lemma {:induction false} PartialMeaning<S, I, O>(
    m: Model<S, I, O>, ops: seq<Operation<I, O>>, order: seq<nat>)
    requires InRange(order, |ops|)
    ensures StateAfter(m, ops, order) == Final(m, Pick(ops, order))
    ensures Partial(m, ops, order) <==> MinimalThroughout(ops, order) && Legal(m, Pick(ops, order))
  {
    if order != [] {
      hide Minimal, MinimalThroughout, Ids;
      var k := |order| - 1;
      PartialMeaning(m, ops, order[..k]);
      PickSnoc(ops, order);
      assert Pick(ops, order)[..k] == Pick(ops, order[..k]);
      MinimalSnoc(ops, order);
    } else {
      assert Pick(ops, order) == [];
    }
  }

  lemma {:induction false} PartialIsDistinct<S, I, O>(m: Model<S, I, O>, ops: seq<Operation<I, O>>, order: seq<nat>)
    requires Partial(m, ops, order)
    ensures NoDuplicates(order) && |Ids(order)| == |order|
  {
    if order != [] {
      PartialIsDistinct(m, ops, order[..|order| - 1]);
      assert order[|order| - 1] !in Ids(order[..|order| - 1]);
    }
    DistinctSize(order);
  }

  lemma {:induction false} PartialPrefix<S, I, O>(
    m: Model<S, I, O>, ops: seq<Operation<I, O>>, order: seq<nat>, k: nat)
    requires Partial(m, ops, order) && k <= |order|
    ensures Partial(m, ops, order[..k])
    decreases |order|
  {
    if k < |order| {
      var init := order[..|order| - 1];
      PartialPrefix(m, ops, init, k);
      assert init[..k] == order[..k];
    } else {
      assert order[..k] == order;
    }
  }

  // ----- Complete partial linearizations are linearizations -----

  /** The operations whose identifier is in `ids`. */
  ghost function Sub<I, O>(ops: seq<Operation<I, O>>, ids: set<nat>): multiset<Operation<I, O>> {
    if ops == [] then multiset{}
    else
      var k := |ops| - 1;
      Sub(ops[..k], ids) + (if k in ids then multiset{ops[k]} else multiset{})
  }

  lemma {:induction false} SubAll<I, O>(ops: seq<Operation<I, O>>, ids: set<nat>)
    requires forall id: nat | id < |ops| :: id in ids
    ensures Sub(ops, ids) == multiset(ops)
  {
    if ops != [] {
      SubAll(ops[..|ops| - 1], ids);
      assert ops == ops[..|ops| - 1] + [ops[|ops| - 1]];
    }
  }

  lemma {:induction false} SubNone<I, O>(ops: seq<Operation<I, O>>)
    ensures Sub(ops, {}) == multiset{}
  {
    if ops != [] {
      SubNone(ops[..|ops| - 1]);
    }
  }

  lemma {:induction false} SubBeyond<I, O>(ops: seq<Operation<I, O>>, ids: set<nat>, id: nat)
    requires id >= |ops|
    ensures Sub(ops, ids + {id}) == Sub(ops, ids)
  {
    if ops != [] {
      SubBeyond(ops[..|ops| - 1], ids, id);
    }
  }

  lemma Swap<X>(a: multiset<X>, b: multiset<X>, c: multiset<X>)
    ensures a + b + c == a + c + b
    ensures a + multiset{} == a
  {
  }

  lemma {:induction false} SubAdd<I, O>(ops: seq<Operation<I, O>>, ids: set<nat>, id: nat)
    requires id < |ops| && id !in ids
    ensures Sub(ops, ids + {id}) == Sub(ops, ids) + multiset{ops[id]}
  {
    var k := |ops| - 1;
    var tail := if k in ids then multiset{ops[k]} else multiset{};
    if id < k {
      SubAdd(ops[..k], ids, id);
      Swap(Sub(ops[..k], ids), multiset{ops[id]}, tail);
    } else {
      SubBeyond(ops[..k], ids, id);
      assert Sub(ops, ids) == Sub(ops[..k], ids) + multiset{};
    }
  }

  lemma {:induction false} SubMember<I, O>(ops: seq<Operation<I, O>>, ids: set<nat>, op: Operation<I, O>)
    returns (id: nat)
    requires op in Sub(ops, ids)
    ensures id in ids && id < |ops| && ops[id] == op
  {
    var k := |ops| - 1;
    if k in ids && ops[k] == op {
      id := k;
    } else {
      id := SubMember(ops[..k], ids, op);
    }
  }

  lemma {:induction false} PickIsSub<I, O>(ops: seq<Operation<I, O>>, order: seq<nat>)
    requires InRange(order, |ops|) && NoDuplicates(order)
    ensures multiset(Pick(ops, order)) == Sub(ops, Ids(order))
  {
    if order == [] {
      SubNone(ops);
      assert Ids(order) == {};
    } else {
      var k := |order| - 1;
      PickIsSub(ops, order[..k]);
      PickSnoc(ops, order);
      assert order == order[..k] + [order[k]];
      IdsSnoc(order[..k], order[k]);
      SubAdd(ops, Ids(order[..k]), order[k]);
    }
  }

  lemma SubRemove<I, O>(ops: seq<Operation<I, O>>, ids: set<nat>, id: nat)
    requires id in ids && id < |ops|
    ensures Sub(ops, ids) == Sub(ops, ids - {id}) + multiset{ops[id]}
  {
    SubAdd(ops, ids - {id}, id);
    assert ids - {id} + {id} == ids;
  }

  lemma DropLast<X>(s: seq<X>, rest: multiset<X>)
    requires s != [] && multiset(s) == rest + multiset{s[|s| - 1]}
    ensures multiset(s[..|s| - 1]) == rest
  {
    var k := |s| - 1;
    assert s == s[..k] + [s[k]];
    assert multiset(s[..k]) == multiset(s) - multiset{s[k]};
  }

  lemma AssignExtend<I, O>(ops: seq<Operation<I, O>>, order: seq<Operation<I, O>>, rest: seq<nat>, id: nat)
    requires order != [] && id < |ops| && ops[id] == order[|order| - 1]
    requires InRange(rest, |ops|) && NoDuplicates(rest) && id !in Ids(rest)
    requires Pick(ops, rest) == order[..|order| - 1]
    ensures InRange(rest + [id], |ops|) && NoDuplicates(rest + [id])
    ensures Pick(ops, rest + [id]) == order
  {
    assert |Pick(ops, rest)| == |order| - 1;
    assert order == order[..|order| - 1] + [order[|order| - 1]];
    PickSnoc(ops, rest + [id]);
    assert (rest + [id])[..|rest|] == rest;
  }

  /** Any arrangement of the operations named by `ids` comes from an arrangement of `ids` itself. */
  lemma {:induction false} Assign<I, O>(ops: seq<Operation<I, O>>, ids: set<nat>, order: seq<Operation<I, O>>)
    returns (named: seq<nat>)
    requires forall id | id in ids :: id < |ops|
    requires multiset(order) == Sub(ops, ids)
    ensures InRange(named, |ops|) && NoDuplicates(named) && Ids(named) == ids
    ensures Pick(ops, named) == order
    decreases |order|
  {
    if order == [] {
      named := [];
      forall id | id in ids ensures false {
        SubRemove(ops, ids, id);
      }
      assert Ids(named) == {};
    } else {
      var k := |order| - 1;
      assert order[k] in multiset(order);
      var id := SubMember(ops, ids, order[k]);
      SubRemove(ops, ids, id);
      DropLast(order, Sub(ops, ids - {id}));
      var rest := Assign(ops, ids - {id}, order[..k]);
      named := rest + [id];
      IdsSnoc(rest, id);
      AssignExtend(ops, order, rest, id);
    }
  }

  function AllIds(n: nat): (ids: set<nat>)
    ensures forall id: nat :: id in ids <==> id < n
    ensures |ids| == n
  {
    if n == 0 then {} else AllIds(n - 1) + {n - 1}
  }

  lemma SubsetFull(ids: set<nat>, n: nat)
    requires ids <= AllIds(n) && |ids| == n
    ensures ids == AllIds(n)
  {
    assert |AllIds(n) - ids| == 0;
  }

  /** Every partial linearization is free of duplicates, respects real time and is accepted by the model. */
  lemma PartialRespectsRealTime<S, I, O>(m: Model<S, I, O>, ops: seq<Operation<I, O>>, order: seq<nat>)
    requires Partial(m, ops, order)
    ensures NoDuplicates(order) && RealTime(Pick(ops, order)) && Legal(m, Pick(ops, order))
  {
    PartialMeaning(m, ops, order);
    PartialIsDistinct(m, ops, order);
    var picked := Pick(ops, order);
    forall i, j | 0 <= i < j < |picked| ensures !(picked[j].ret < picked[i].call) {
      assert Minimal(ops, Ids(order[..i]), order[i]);
      assert order[j] !in Ids(order[..i]);
    }
  }

  lemma CompletePartialIsLinearization<S, I(!new), O(!new)>(
    m: Model<S, I, O>, ops: seq<Operation<I, O>>, order: seq<nat>)
    requires Partial(m, ops, order) && |order| == |ops|
    ensures Linearizable(m, ops)
  {
    PartialRespectsRealTime(m, ops, order);
    PartialIsDistinct(m, ops, order);
    SubsetFull(Ids(order), |ops|);
    SubAll(ops, Ids(order));
    PickIsSub(ops, order);
    assert IsLinearization(m, ops, Pick(ops, order));
  }

  lemma InPrefix(order: seq<nat>, k: nat, j: nat)
    requires j < k <= |order|
    ensures order[j] in Ids(order[..k])
  {
    assert order[..k][j] == order[j];
  }

  lemma IndexOutside(order: seq<nat>, k: nat, x: nat) returns (j: nat)
    requires k <= |order| && x in Ids(order) && x !in Ids(order[..k])
    ensures k <= j < |order| && order[j] == x
  {
    j :| j < |order| && order[j] == x;
    if j < k {
      InPrefix(order, k, j);
    }
  }

  lemma RealTimeIsMinimal<I, O>(ops: seq<Operation<I, O>>, order: seq<nat>, k: nat)
    requires InRange(order, |ops|) && NoDuplicates(order) && k < |order|
    requires Ids(order) == AllIds(|ops|)
    requires WellTimed(ops) && RealTime(Pick(ops, order))
    ensures Minimal(ops, Ids(order[..k]), order[k])
  {
    var picked := Pick(ops, order);
    forall other: nat | other < |ops| && other !in Ids(order[..k]) ensures !Precedes(ops, other, order[k]) {
      var j := IndexOutside(order, k, other);
      assert picked[j] == ops[other] && picked[k] == ops[order[k]];
    }
  }

  lemma LinearizationIsCompletePartial<S, I(!new), O(!new)>(m: Model<S, I, O>, ops: seq<Operation<I, O>>)
    returns (order: seq<nat>)
    requires WellTimed(ops) && Linearizable(m, ops)
    ensures Partial(m, ops, order) && |order| == |ops|
  {
    var picked :| IsLinearization(m, ops, picked);
    SubAll(ops, AllIds(|ops|));
    order := Assign(ops, AllIds(|ops|), picked);
    DistinctSize(order);
    forall k | 0 <= k < |order| ensures Minimal(ops, Ids(order[..k]), order[k]) {
      RealTimeIsMinimal(ops, order, k);
    }
    PartialMeaning(m, ops, order);
  }

  /** The set of complete partial linearizations is empty exactly when the history is not linearizable. */
  lemma LinearizableIffCompletePartial<S, I(!new), O(!new)>(m: Model<S, I, O>, ops: seq<Operation<I, O>>)
    requires WellTimed(ops)
    ensures Linearizable(m, ops) <==> exists order :: Partial(m, ops, order) && |order| == |ops|
  {
    if Linearizable(m, ops) {
      var order := LinearizationIsCompletePartial(m, ops);
    }
    if order :| Partial(m, ops, order) && |order| == |ops| {
      CompletePartialIsLinearization(m, ops, order);
    }
  }

  /** Only the inputs, the outputs and which operation precedes which matter, not the times themselves. */
  ghost predicate SameShape<I, O>(a: seq<Operation<I, O>>, b: seq<Operation<I, O>>) {
    && |a| == |b|
    && (forall i | 0 <= i < |a| :: a[i].input == b[i].input && a[i].output == b[i].output)
    && (forall i, j | 0 <= i < |a| && 0 <= j < |a| :: Precedes(a, i, j) <==> Precedes(b, i, j))
  }

  lemma {:induction false} PartialSameShape<S, I, O>(
    m: Model<S, I, O>, a: seq<Operation<I, O>>, b: seq<Operation<I, O>>, order: seq<nat>)
    requires SameShape(a, b)
    ensures Partial(m, a, order) <==> Partial(m, b, order)
    ensures InRange(order, |a|) ==> StateAfter(m, a, order) == StateAfter(m, b, order)
  {
    if order != [] && InRange(order, |a|) {
      PartialSameShape(m, a, b, order[..|order| - 1]);
    }
  }
}
