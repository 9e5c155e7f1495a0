/**
 `computeVisualizationData` (Lab3/src/porcupine/visualization.go) for one partition: replays each partial
 linearization and notes, for each operation, a largest one that holds it.
 */
module Visualization {
  import opened Checker
  import opened Linearizability
  import opened Entries
  import opened Options
  import opened SearchTheory
  import opened Sorting

  predicate LongerFirst(a: seq<nat>, b: seq<nat>) {
    |a| >= |b|
  }

  /** Lines 59-61. */
  function LongestFirst(partials: seq<seq<nat>>): (r: seq<seq<nat>>)
    ensures multiset(r) == multiset(partials)
    ensures forall i, j | 0 <= i < j < |r| :: |r[i]| >= |r[j]|
  {
    var r := Sort(LongerFirst, partials);
    assert forall i, j | 0 <= i < j < |r| :: LongerFirst(r[i], r[j]);
    r
  }

  /** When an operation ran and whose it was; its description is left out. */
  datatype Element = Element(clientId: int, start: int, end: int)

  /** Lines 38-53: the history to show, and the call and return values by identifier. */
  method Values<I, O>(history: seq<Entry<I, O>>)
    returns (elements: seq<Element>, callValue: map<nat, I>, returnValue: map<nat, O>)
    requires WellFormed(history)
    ensures forall id: nat | id < |OpsOf(history)| ::
              && id in callValue && callValue[id] == OpsOf(history)[id].input
              && id in returnValue && returnValue[id] == OpsOf(history)[id].output
    ensures Shows(history, elements)
  {
    callValue, returnValue := map[], map[];
    elements := seq(|history| / 2, _ => Element(0, 0, 0));
    ghost var ix := TheIndex(history);
    for p := 0 to |history|
      invariant Seen(history, ix, p, elements, callValue, returnValue)
    {
      hide Seen, Indexes;
      EntryHasPlace(history, ix, p);
      SeenNext(history, ix, p, elements, callValue, returnValue);
      match history[p] {
        case CallEntry(input, id, time, clientId) =>
          elements := elements[id := elements[id].(clientId := clientId, start := time)];
          callValue := callValue[id := input];
        case ReturnEntry(output, id, time, _) =>
          elements := elements[id := elements[id].(end := time)];
          returnValue := returnValue[id := output];
      }
    }
    SeenAll(history, elements, callValue, returnValue);
  }

  lemma SeenAll<I, O>(
    history: seq<Entry<I, O>>, elements: seq<Element>, callValue: map<nat, I>, returnValue: map<nat, O>)
    requires WellFormed(history) && Seen(history, TheIndex(history), |history|, elements, callValue, returnValue)
    ensures forall id: nat | id < |OpsOf(history)| ::
              && id in callValue && callValue[id] == OpsOf(history)[id].input
              && id in returnValue && returnValue[id] == OpsOf(history)[id].output
    ensures Shows(history, elements)
  {
    var ix := TheIndex(history);
    forall id: nat | id < |ix.calls|
      ensures id in callValue && callValue[id] == history[ix.calls[id]].input
      ensures id in returnValue && returnValue[id] == history[ix.rets[id]].output
      ensures elements[id] ==
              Element(history[ix.calls[id]].clientId, history[ix.calls[id]].time, history[ix.rets[id]].time)
    {
      assert SeenAt(history, ix, |history|, elements[id], callValue, returnValue, id);
    }
  }

  lemma EntryHasPlace<I, O>(history: seq<Entry<I, O>>, ix: Index, p: nat)
    requires Indexes(history, ix) && p < |history|
    ensures history[p].id < |history| / 2 == |ix.calls|
  {
  }

  /** What has been noted about operation `id` after the first `p` entries. */
  ghost predicate SeenAt<I, O>(
    history: seq<Entry<I, O>>, ix: Index, p: int, e: Element, callValue: map<nat, I>, returnValue: map<nat, O>, id: nat)
    requires Indexes(history, ix) && id < |ix.calls|
  {
    var c, r := history[ix.calls[id]], history[ix.rets[id]];
    && (ix.calls[id] < p ==>
          id in callValue && callValue[id] == c.input && e.clientId == c.clientId && e.start == c.time)
    && (ix.rets[id] < p ==> id in returnValue && returnValue[id] == r.output && e.end == r.time)
  }

  ghost predicate Seen<I, O>(
    history: seq<Entry<I, O>>, ix: Index, p: int, elements: seq<Element>, callValue: map<nat, I>,
    returnValue: map<nat, O>)
    requires Indexes(history, ix)
  {
    && |elements| == |ix.calls|
    && forall id: nat | id < |elements| :: SeenAt(history, ix, p, elements[id], callValue, returnValue, id)
  }

  lemma SeenNext<I, O>(
    history: seq<Entry<I, O>>, ix: Index, p: nat, elements: seq<Element>, callValue: map<nat, I>,
    returnValue: map<nat, O>)
    requires Indexes(history, ix) && p < |history| && Seen(history, ix, p, elements, callValue, returnValue)
    ensures |elements| == |ix.calls| && history[p].id < |elements|
    ensures match history[p]
            case CallEntry(input, id, time, clientId) =>
              Seen(history, ix, p + 1, elements[id := elements[id].(clientId := clientId, start := time)],
                   callValue[id := input], returnValue)
            case ReturnEntry(output, id, time, _) =>
              Seen(history, ix, p + 1, elements[id := elements[id].(end := time)],
                   callValue, returnValue[id := output])
  {
    var entry := history[p];
    forall id: nat | id < |ix.calls| && id != entry.id ensures ix.calls[id] != p && ix.rets[id] != p {
      assert history[ix.calls[id]].id == id && history[ix.rets[id]].id == id;
    }
    assert p == if entry.CallEntry? then ix.calls[entry.id] else ix.rets[entry.id];
    assert ix.calls[entry.id] != ix.rets[entry.id];
    hide Indexes;
    assert forall id: nat | id < |elements| :: SeenAt(history, ix, p, elements[id], callValue, returnValue, id);
  }

  /** Each operation is shown with the client and the time of its call and with the time of its return. */
  ghost predicate Shows<I, O>(history: seq<Entry<I, O>>, elements: seq<Element>)
    requires WellFormed(history)
  {
    var ix := TheIndex(history);
    && |elements| == |ix.calls|
    && forall id | 0 <= id < |elements| ::
         elements[id] == Element(history[ix.calls[id]].clientId, history[ix.calls[id]].time, history[ix.rets[id]].time)
  }

  /** The states after each operation of an order. */
  ghost predicate Replays<S, I, O>(
    m: Model<S, I, O>, ops: seq<Operation<I, O>>, order: seq<nat>, steps: seq<(nat, S)>)
    requires InRange(order, |ops|)
  {
    && |steps| == |order|
    && forall j | 0 <= j < |order| :: steps[j] == (order[j], StateAfter(m, ops, order[..j + 1]))
  }

  /** `largest` sends each identifier in the first `n` orders to the first of the longest ones that hold it. */
  ghost predicate LargestOf(orders: seq<seq<nat>>, n: nat, largest: map<nat, nat>)
    requires n <= |orders|
  {
    && (forall id | id in largest :: largest[id] < n && id in orders[largest[id]])
    && (forall i, id | 0 <= i < n && id in orders[i] :: id in largest && |orders[i]| <= |orders[largest[id]]|)
    && (forall id | id in largest :: IsFirst(orders, id, largest[id]))
  }

  /** Every earlier order that holds `id` is shorter than order `k`. */
  ghost predicate IsFirst(orders: seq<seq<nat>>, id: nat, k: nat)
    requires k < |orders|
  {
    forall i | 0 <= i < k && id in orders[i] :: |orders[i]| < |orders[k]|
  }

  /** The replay of one partial linearization; the source panics where `ok` is false. */
  method Replay<S, I, O>(
    m: Model<S, I, O>, callValue: map<nat, I>, returnValue: map<nat, O>, order: seq<nat>,
    ghost ops: seq<Operation<I, O>>)
    returns (ok: bool, steps: seq<(nat, S)>)
    requires InRange(order, |ops|)
    requires forall id: nat | id < |ops| ::
               && id in callValue && callValue[id] == ops[id].input
               && id in returnValue && returnValue[id] == ops[id].output
    ensures ok <==> Legal(m, Pick(ops, order))
    ensures ok ==> Replays(m, ops, order, steps)
  {
    hide StateAfter, Legal, Pick;
    var state := m.init;
    steps := [];
    ReplayStart(m, ops, order[..0]);
    for j := 0 to |order|
      invariant state == StateAfter(m, ops, order[..j]) && Legal(m, Pick(ops, order[..j]))
      invariant |steps| == j
      invariant forall i | 0 <= i < j :: steps[i] == (order[i], StateAfter(m, ops, order[..i + 1]))
    {
      var id := order[j];
      var result := m.step(state, callValue[id], returnValue[id]);
      ReplayStep(m, ops, order, j);
      if !result.0 {
        LegalPickPrefix(m, ops, order, j + 1);
        return false, steps;
      }
      state := result.1;
      steps := steps + [(id, state)];
    }
    assert order[..|order|] == order;
    return true, steps;
  }

  lemma ReplayStart<S, I, O>(m: Model<S, I, O>, ops: seq<Operation<I, O>>, order: seq<nat>)
    requires order == []
    ensures InRange(order, |ops|) && StateAfter(m, ops, order) == m.init && Legal(m, Pick(ops, order))
  {
    assert Pick(ops, order) == [];
  }

  lemma ReplayStep<S, I, O>(m: Model<S, I, O>, ops: seq<Operation<I, O>>, order: seq<nat>, j: nat)
    requires InRange(order, |ops|) && j < |order|
    ensures var before, after := order[..j], order[..j + 1];
            var op := ops[order[j]];
            var r := m.step(StateAfter(m, ops, before), op.input, op.output);
            && StateAfter(m, ops, after) == r.1
            && (Legal(m, Pick(ops, after)) <==> Legal(m, Pick(ops, before)) && r.0)
  {
    var before, after := order[..j], order[..j + 1];
    assert after[..j] == before;
    PickSnoc(ops, after);
    PartialMeaning(m, ops, before);
    assert Pick(ops, after)[..j] == Pick(ops, before);
  }

  lemma {:induction false} LegalPrefix<S, I, O>(m: Model<S, I, O>, order: seq<Operation<I, O>>, k: nat)
    requires k <= |order|
    ensures Legal(m, order) ==> Legal(m, order[..k])
    decreases |order|
  {
    if k < |order| {
      var init := order[..|order| - 1];
      LegalPrefix(m, init, k);
      assert init[..k] == order[..k];
    } else {
      assert order[..k] == order;
    }
  }

  lemma LegalPickPrefix<S, I, O>(m: Model<S, I, O>, ops: seq<Operation<I, O>>, order: seq<nat>, k: nat)
    requires InRange(order, |ops|) && k <= |order|
    ensures Legal(m, Pick(ops, order)) ==> Legal(m, Pick(ops, order[..k]))
  {
    LegalPrefix(m, Pick(ops, order), k);
    assert Pick(ops, order)[..k] == Pick(ops, order[..k]);
  }

  /** `size` holds the length of the order that `largest` points to. */
  ghost predicate Tally(orders: seq<seq<nat>>, n: nat, largest: map<nat, nat>, size: map<nat, nat>)
    requires n <= |orders|
  {
    && size.Keys == largest.Keys
    && forall id | id in largest ::
         && largest[id] < n && id in orders[largest[id]] && size[id] == |orders[largest[id]]|
         && IsFirst(orders, id, largest[id])
  }

  /** Every identifier of `before` is still there, with an order at least as long. */
  ghost predicate Grows(size: map<nat, nat>, size': map<nat, nat>) {
    forall id | id in size :: id in size' && size[id] <= size'[id]
  }

  /** Lines 73-76, for all members of one order. */
  method NoteLargest(order: seq<nat>, i: nat, largest: map<nat, nat>, size: map<nat, nat>, ghost orders: seq<seq<nat>>)
    returns (largest': map<nat, nat>, size': map<nat, nat>)
    requires i < |orders| && orders[i] == order
    requires Tally(orders, i, largest, size) && Counted(orders, i, size)
    ensures Tally(orders, i + 1, largest', size') && Grows(size, size')
    ensures forall id | id in order :: id in size' && |order| <= size'[id]
  {
    hide Tally, Counted, Grows;
    largest', size' := largest, size;
    NotingStart(orders, i, largest, size);
    for j := 0 to |order|
      invariant Noting(orders, i, size, largest', size')
      invariant forall k | 0 <= k < j :: order[k] in size' && |order| <= size'[order[k]]
    {
      hide Noting;
      var id := order[j];
      if (if id in size' then size'[id] else 0) < |order| {
        NotingNext(orders, i, size, largest', size', id);
        size' := size'[id := |order|];
        largest' := largest'[id := i];
      }
    }
  }

  /** Where noting order `i` has got to: records are as before, or point to order `i`. */
  ghost predicate Noting(
    orders: seq<seq<nat>>, i: nat, size: map<nat, nat>, largest': map<nat, nat>, size': map<nat, nat>)
    requires i < |orders|
  {
    && Tally(orders, i + 1, largest', size') && Grows(size, size')
    && forall id | id in size' :: (id in size && size'[id] == size[id]) || size'[id] == |orders[i]|
  }

  lemma NotingStart(orders: seq<seq<nat>>, i: nat, largest: map<nat, nat>, size: map<nat, nat>)
    requires i < |orders| && Tally(orders, i, largest, size)
    ensures Noting(orders, i, size, largest, size)
  {
    hide IsFirst;
  }

  lemma NotingNext(
    orders: seq<seq<nat>>, i: nat, size: map<nat, nat>, largest': map<nat, nat>, size': map<nat, nat>, id: nat)
    requires i < |orders| && Noting(orders, i, size, largest', size') && Counted(orders, i, size)
    requires id in orders[i] && (id in size' ==> size'[id] < |orders[i]|)
    ensures Noting(orders, i, size, largest'[id := i], size'[id := |orders[i]|])
  {
    hide IsFirst, Counted;
    FirstSoFar(orders, i, size, id);
  }

  lemma FirstSoFar(orders: seq<seq<nat>>, i: nat, size: map<nat, nat>, id: nat)
    requires i < |orders| && Counted(orders, i, size) && (id in size ==> size[id] < |orders[i]|)
    ensures IsFirst(orders, id, i)
  {
  }

  ghost predicate Counted(orders: seq<seq<nat>>, n: nat, size: map<nat, nat>)
    requires n <= |orders|
  {
    forall i, id | 0 <= i < n && id in orders[i] :: id in size && |orders[i]| <= size[id]
  }

  lemma CountedStep(orders: seq<seq<nat>>, n: nat, size: map<nat, nat>, size': map<nat, nat>)
    requires n < |orders| && Counted(orders, n, size) && Grows(size, size')
    requires forall id | id in orders[n] :: id in size' && |orders[n]| <= size'[id]
    ensures Counted(orders, n + 1, size')
  {
    forall i, id | 0 <= i < n + 1 && id in orders[i] ensures id in size' && |orders[i]| <= size'[id] {
      if i < n {
        assert id in size && |orders[i]| <= size[id];
      }
    }
  }

  lemma NothingCounted(orders: seq<seq<nat>>)
    ensures Tally(orders, 0, map[], map[]) && Counted(orders, 0, map[])
  {
  }

  lemma TallyIsLargest(orders: seq<seq<nat>>, n: nat, largest: map<nat, nat>, size: map<nat, nat>)
    requires n <= |orders| && Tally(orders, n, largest, size) && Counted(orders, n, size)
    ensures LargestOf(orders, n, largest)
  {
  }

  /**
   The source panics exactly when some reported order does not replay. Otherwise every order is shown with the
   states it leads to, and `largest` picks a longest order for each operation that occurs in any.
   */
  method ComputeVisualization<S, I, O>(m: Model<S, I, O>, history: seq<Entry<I, O>>, partials: seq<seq<nat>>)
    returns (
      panicked: bool, elements: seq<Element>, sorted: seq<seq<nat>>, shown: seq<seq<(nat, S)>>, largest: map<nat, nat>)
    requires WellFormed(history)
    requires forall i | 0 <= i < |partials| :: InRange(partials[i], |OpsOf(history)|)
    ensures Shows(history, elements)
    ensures multiset(sorted) == multiset(partials)
    ensures forall i, j | 0 <= i < j < |sorted| :: |sorted[i]| >= |sorted[j]|
    ensures panicked <==> exists i | 0 <= i < |partials| :: !Legal(m, Pick(OpsOf(history), partials[i]))
    ensures !panicked ==> LargestOf(sorted, |sorted|, largest) && |shown| == |sorted|
    ensures !panicked ==> forall i | 0 <= i < |shown| ::
              InRange(sorted[i], |OpsOf(history)|) && Replays(m, OpsOf(history), sorted[i], shown[i])
  {
    hide Grows, Replays, Legal, Pick, StateAfter, LargestOf, SortedBy, OpsOf, InRange, IsFirst, Shows, Tally, Counted,
      WellFormed;
    ghost var ops := OpsOf(history);
    var callValue, returnValue;
    elements, callValue, returnValue := Values(history);
    sorted := LongestFirst(partials);
    forall i | 0 <= i < |sorted| ensures InRange(sorted[i], |ops|) {
      PermutationMembers(partials, sorted, sorted[i]);
    }
    NothingCounted(sorted);
    panicked, shown, largest := false, [], map[];
    var size: map<nat, nat> := map[];
    for i := 0 to |sorted|
      invariant |shown| == i && Tally(sorted, i, largest, size)
      invariant Counted(sorted, i, size)
      invariant forall k | 0 <= k < i :: Legal(m, Pick(ops, sorted[k])) && Replays(m, ops, sorted[k], shown[k])
    {
      var ok, steps := Replay(m, callValue, returnValue, sorted[i], ops);
      if !ok {
        PermutationMembers(partials, sorted, sorted[i]);
        panicked := true;
        return;
      }
      ghost var size0 := size;
      largest, size := NoteLargest(sorted[i], i, largest, size, sorted);
      CountedStep(sorted, i, size0, size);
      shown := shown + [steps];
    }
    TallyIsLargest(sorted, |sorted|, largest, size);
    forall i | 0 <= i < |partials| ensures Legal(m, Pick(ops, partials[i])) {
      PermutationMembers(partials, sorted, partials[i]);
    }
  }

  // ----- What a search reports can be displayed -----

  /** Lines 320-338 of `checkParallel`: the reported orders, each once. */
  method CollectPartials(longest: seq<Option<seq<nat>>>) returns (partials: seq<seq<nat>>)
    ensures NoDuplicates(partials)
    ensures forall p :: p in partials <==> Some(p) in longest
  {
    partials := [];
    for i := 0 to |longest|
      invariant NoDuplicates(partials)
      invariant forall p :: p in partials <==> Some(p) in longest[..i]
    {
      assert longest[..i + 1] == longest[..i] + [longest[i]];
      if longest[i].Some? && longest[i].value !in partials {
        partials := partials + [longest[i].value];
      }
    }
    assert longest[..|longest|] == longest;
  }

  /** Orders reported by a search are partial linearizations, so displaying them never panics. */
  lemma ReportedNeverPanics<S, I, O>(
    m: Model<S, I, O>, ops: seq<Operation<I, O>>, longest: seq<Option<seq<nat>>>, order: seq<nat>)
    requires Reported(m, ops, longest) && Some(order) in longest
    ensures InRange(order, |ops|) && NoDuplicates(order) && RealTime(Pick(ops, order)) && Legal(m, Pick(ops, order))
  {
    hide RealTime, Legal;
    var id :| 0 <= id < |longest| && longest[id] == Some(order);
    PartialRespectsRealTime(m, ops, order);
  }

  /** A history that has been searched, even by a search that was killed, can be displayed without a panic. */
  method CheckAndDisplay<S(!new), I(!new), O(!new)>(m: Model<S, I, O>, history: seq<Entry<I, O>>, kill: nat -> bool)
    returns (
      ok: bool, panicked: bool, elements: seq<Element>, sorted: seq<seq<nat>>, shown: seq<seq<(nat, S)>>,
      largest: map<nat, nat>)
    requires WellFormed(history) && Congruence(m)
    ensures ok ==> Linearizable(m, OpsOf(history))
    ensures Shows(history, elements)
    ensures !panicked && |shown| == |sorted| && LargestOf(sorted, |sorted|, largest)
    ensures forall i | 0 <= i < |shown| ::
              && InRange(sorted[i], |OpsOf(history)|) && RealTime(Pick(OpsOf(history), sorted[i]))
              && Replays(m, OpsOf(history), sorted[i], shown[i])
  {
    hide OpsOf, RealTime, Legal, LargestOf, Shows, Replays, InRange, NoDuplicates, Reported, Optimal, Linearizable;
    var longest;
    ok, longest := CheckSingle(m, history, true, kill);
    ghost var ops := OpsOf(history);
    var partials := CollectPartials(longest);
    forall p | p in partials
      ensures InRange(p, |ops|) && RealTime(Pick(ops, p)) && Legal(m, Pick(ops, p))
    {
      ReportedNeverPanics(m, ops, longest, p);
    }
    panicked, elements, sorted, shown, largest := ComputeVisualization(m, history, partials);
    forall i | 0 <= i < |sorted| ensures RealTime(Pick(ops, sorted[i])) && InRange(sorted[i], |ops|) {
      PermutationMembers(partials, sorted, sorted[i]);
    }
  }
}
