/**
 Why the backtracking search of `checkSingle` (Lab3/src/porcupine/checker.go) may prune with a memo table.

 A search state is the stack `calls` of placed identifiers and the position `at` of the list entry looked at
 next. `explored` holds the pairs (set of placed identifiers, state) that were pushed and later popped. The memo
 table is always `explored` together with the pairs on the stack.
 Times are positions in the history, so `ops[id].call` and `ops[id].ret` say where the two entries stand.
 */
module SearchTheory {
  import opened Linearizability
  import opened Options

  type Pair<S> = (set<nat>, S)

  ghost predicate Covered<S(!new), I, O>(m: Model<S, I, O>, explored: set<Pair<S>>, ids: set<nat>, s: S) {
    exists t :: (ids, t) in explored && m.equal(s, t)
  }

  function After<S, I, O>(m: Model<S, I, O>, ops: seq<Operation<I, O>>, s: S, id: nat): (bool, S)
    requires id < |ops|
  {
    m.step(s, ops[id].input, ops[id].output)
  }

  /** Placing `id` next is impossible, or the pair it leads to has been explored. */
  ghost predicate Tried<S(!new), I, O>(
    m: Model<S, I, O>, ops: seq<Operation<I, O>>, explored: set<Pair<S>>, done: set<nat>, s: S, id: nat)
  {
    id < |ops| && Minimal(ops, done, id) && After(m, ops, s, id).0 ==>
      Covered(m, explored, done + {id}, After(m, ops, s, id).1)
  }

  ghost predicate TriedBelow<S(!new), I, O>(
    m: Model<S, I, O>, ops: seq<Operation<I, O>>, explored: set<Pair<S>>, done: set<nat>, s: S, at: int)
  {
    forall id: nat | id < |ops| && id !in done && ops[id].call < at :: Tried(m, ops, explored, done, s, id)
  }

  /** Whatever can be placed next at an explored pair leads to an explored pair, and none is complete. */
  ghost predicate Closed<S(!new), I, O>(m: Model<S, I, O>, ops: seq<Operation<I, O>>, explored: set<Pair<S>>) {
    forall p | p in explored ::
      p.0 < AllIds(|ops|) && forall id: nat :: Tried(m, ops, explored, p.0, p.1, id)
  }

  /** At every level of the stack, whatever was skipped before the chosen call was tried. */
  ghost predicate StackTried<S(!new), I, O>(
    m: Model<S, I, O>, ops: seq<Operation<I, O>>, explored: set<Pair<S>>, calls: seq<nat>)
    requires InRange(calls, |ops|)
  {
    forall k | 0 <= k < |calls| ::
      TriedBelow(m, ops, explored, Ids(calls[..k]), StateAfter(m, ops, calls[..k]), ops[calls[k]].call)
  }

  ghost predicate SearchInv<S(!new), I, O>(
    m: Model<S, I, O>, ops: seq<Operation<I, O>>, explored: set<Pair<S>>, calls: seq<nat>, at: int)
  {
    && Partial(m, ops, calls)
    && Closed(m, ops, explored)
    && StackTried(m, ops, explored, calls)
    && TriedBelow(m, ops, explored, Ids(calls), StateAfter(m, ops, calls), at)
    && forall id: nat | id < |ops| && id !in Ids(calls) :: at <= ops[id].ret
  }

  /** No live entry stands strictly between `from` and `to`. */
  ghost predicate Gap<I, O>(ops: seq<Operation<I, O>>, done: set<nat>, from: int, to: int) {
    forall id: nat | id < |ops| && id !in done ::
      !(from < ops[id].call < to) && !(from < ops[id].ret < to)
  }

  /** Distinct entries stand at distinct positions, each call before its own return. */
  ghost predicate Positions<I, O>(ops: seq<Operation<I, O>>) {
    && (forall i | 0 <= i < |ops| :: ops[i].call < ops[i].ret)
    && (forall i, j | 0 <= i < |ops| && 0 <= j < |ops| :: ops[i].call != ops[j].ret)
    && (forall i, j | 0 <= i < j < |ops| :: ops[i].call != ops[j].call && ops[i].ret != ops[j].ret)
  }

  // ----- Exploring more keeps what was tried -----

  lemma TriedMonotone<S(!new), I, O>(
    m: Model<S, I, O>, ops: seq<Operation<I, O>>, less: set<Pair<S>>, more: set<Pair<S>>,
    done: set<nat>, s: S, id: nat)
    requires less <= more && Tried(m, ops, less, done, s, id)
    ensures Tried(m, ops, more, done, s, id)
  {
  }

  lemma TriedBelowMonotone<S(!new), I, O>(
    m: Model<S, I, O>, ops: seq<Operation<I, O>>, less: set<Pair<S>>, more: set<Pair<S>>,
    done: set<nat>, s: S, at: int)
    requires less <= more && TriedBelow(m, ops, less, done, s, at)
    ensures TriedBelow(m, ops, more, done, s, at)
  {
    forall id: nat | id < |ops| && id !in done && ops[id].call < at ensures Tried(m, ops, more, done, s, id) {
      TriedMonotone(m, ops, less, more, done, s, id);
    }
  }

  // ----- The moves of the loop -----

  lemma Start<S(!new), I, O>(m: Model<S, I, O>, ops: seq<Operation<I, O>>, at: int)
    requires forall id | 0 <= id < |ops| :: at <= ops[id].call && at <= ops[id].ret
    ensures SearchInv(m, ops, {}, [], at)
  {
  }

  /** The call looked at is minimal, because no return was passed on the way to it. */
  lemma CandidateIsMinimal<S(!new), I, O>(
    m: Model<S, I, O>, ops: seq<Operation<I, O>>, explored: set<Pair<S>>, calls: seq<nat>, at: int, id: nat)
    requires SearchInv(m, ops, explored, calls, at)
    requires id < |ops| && id !in Ids(calls) && ops[id].call == at
    ensures Minimal(ops, Ids(calls), id)
  {
  }

  /** Moving past a call that was tried. */
  lemma Skip<S(!new), I, O>(
    m: Model<S, I, O>, ops: seq<Operation<I, O>>, explored: set<Pair<S>>, calls: seq<nat>, at: int, to: int, id: nat)
    requires SearchInv(m, ops, explored, calls, at) && Positions(ops)
    requires id < |ops| && id !in Ids(calls) && ops[id].call == at
    requires Tried(m, ops, explored, Ids(calls), StateAfter(m, ops, calls), id)
    requires at < to && Gap(ops, Ids(calls), at, to)
    ensures SearchInv(m, ops, explored, calls, to)
  {
  }

  lemma Push<S(!new), I, O>(
    m: Model<S, I, O>, ops: seq<Operation<I, O>>, explored: set<Pair<S>>, calls: seq<nat>, at: int, to: int, id: nat)
    requires SearchInv(m, ops, explored, calls, at)
    requires id < |ops| && id !in Ids(calls) && ops[id].call == at
    requires After(m, ops, StateAfter(m, ops, calls), id).0
    requires forall other: nat | other < |ops| && other !in Ids(calls + [id]) ::
               to <= ops[other].call && to <= ops[other].ret
    ensures SearchInv(m, ops, explored, calls + [id], to)
    ensures InRange(calls + [id], |ops|) && Partial(m, ops, calls + [id])
    ensures StateAfter(m, ops, calls + [id]) == After(m, ops, StateAfter(m, ops, calls), id).1
  {
    CandidateIsMinimal(m, ops, explored, calls, at, id);
    hide Minimal, Closed;
    PartialSnoc(m, ops, calls, id);
    hide Partial;
    StackTriedSnoc(m, ops, explored, calls, id);
    hide StackTried, StateAfter;
    assert InRange(calls + [id], |ops|);
  }

  lemma PartialSnoc<S, I, O>(m: Model<S, I, O>, ops: seq<Operation<I, O>>, calls: seq<nat>, id: nat)
    requires Partial(m, ops, calls) && id < |ops| && Minimal(ops, Ids(calls), id)
    requires After(m, ops, StateAfter(m, ops, calls), id).0
    ensures Partial(m, ops, calls + [id])
    ensures InRange(calls + [id], |ops|)
    ensures StateAfter(m, ops, calls + [id]) == After(m, ops, StateAfter(m, ops, calls), id).1
  {
    hide Minimal;
    assert (calls + [id])[..|calls|] == calls;
  }

  lemma StackTriedSnoc<S(!new), I, O>(
    m: Model<S, I, O>, ops: seq<Operation<I, O>>, explored: set<Pair<S>>, calls: seq<nat>, id: nat)
    requires InRange(calls, |ops|) && id < |ops| && StackTried(m, ops, explored, calls)
    requires TriedBelow(m, ops, explored, Ids(calls), StateAfter(m, ops, calls), ops[id].call)
    ensures InRange(calls + [id], |ops|) && StackTried(m, ops, explored, calls + [id])
  {
    hide TriedBelow, StateAfter, Ids;
    var more := calls + [id];
    forall k | 0 <= k < |more|
      ensures TriedBelow(m, ops, explored, Ids(more[..k]), StateAfter(m, ops, more[..k]), ops[more[k]].call)
    {
      if k < |calls| {
        assert more[..k] == calls[..k];
      } else {
        assert more[..k] == calls;
      }
    }
  }

  /** Reaching a return means that every call that could come next was tried. */
  lemma AllTried<S(!new), I, O>(
    m: Model<S, I, O>, ops: seq<Operation<I, O>>, explored: set<Pair<S>>, calls: seq<nat>, at: int, blocker: nat)
    requires SearchInv(m, ops, explored, calls, at) && Positions(ops)
    requires blocker < |ops| && blocker !in Ids(calls) && ops[blocker].ret == at
    ensures forall id: nat :: Tried(m, ops, explored, Ids(calls), StateAfter(m, ops, calls), id)
  {
    forall id: nat ensures Tried(m, ops, explored, Ids(calls), StateAfter(m, ops, calls), id) {
      if id < |ops| && Minimal(ops, Ids(calls), id) {
        assert !Precedes(ops, blocker, id);
      }
    }
  }

  lemma ClosedAdd<S(!new), I, O>(m: Model<S, I, O>, ops: seq<Operation<I, O>>, explored: set<Pair<S>>, p: Pair<S>)
    requires Closed(m, ops, explored)
    requires p.0 < AllIds(|ops|)
    requires forall id: nat :: Tried(m, ops, explored, p.0, p.1, id)
    ensures Closed(m, ops, explored + {p})
  {
    var more := explored + {p};
    forall q, id: nat | q in more ensures Tried(m, ops, more, q.0, q.1, id) {
      TriedMonotone(m, ops, explored, more, q.0, q.1, id);
    }
  }

  lemma StackTriedPop<S(!new), I, O>(
    m: Model<S, I, O>, ops: seq<Operation<I, O>>, less: set<Pair<S>>, more: set<Pair<S>>, calls: seq<nat>)
    requires InRange(calls, |ops|) && calls != [] && less <= more
    requires StackTried(m, ops, less, calls)
    ensures StackTried(m, ops, more, calls[..|calls| - 1])
    ensures var k := |calls| - 1;
            TriedBelow(m, ops, more, Ids(calls[..k]), StateAfter(m, ops, calls[..k]), ops[calls[k]].call)
  {
    hide StateAfter, TriedBelow, Ids;
    var init := calls[..|calls| - 1];
    forall i | 0 <= i < |calls|
      ensures TriedBelow(m, ops, more, Ids(calls[..i]), StateAfter(m, ops, calls[..i]), ops[calls[i]].call)
    {
      TriedBelowMonotone(m, ops, less, more, Ids(calls[..i]), StateAfter(m, ops, calls[..i]), ops[calls[i]].call);
    }
    assert forall i | 0 <= i < |init| :: init[..i] == calls[..i];
  }

  /** The call just popped counts as tried, since the pair it led to is explored now. */
  lemma TopIsTried<S(!new), I(!new), O(!new)>(
    m: Model<S, I, O>, ops: seq<Operation<I, O>>, explored: set<Pair<S>>, calls: seq<nat>)
    requires Congruence(m) && InRange(calls, |ops|) && calls != []
    requires (Ids(calls), StateAfter(m, ops, calls)) in explored
    ensures var k := |calls| - 1;
            Tried(m, ops, explored, Ids(calls[..k]), StateAfter(m, ops, calls[..k]), calls[k])
  {
    var k := |calls| - 1;
    assert calls == calls[..k] + [calls[k]];
    IdsSnoc(calls[..k], calls[k]);
    assert m.equal(StateAfter(m, ops, calls), StateAfter(m, ops, calls));
  }

  lemma ReturnsAhead<S(!new), I, O>(
    m: Model<S, I, O>, ops: seq<Operation<I, O>>, calls: seq<nat>, to: int)
    requires Partial(m, ops, calls) && calls != [] && Positions(ops)
    requires Gap(ops, Ids(calls[..|calls| - 1]), ops[calls[|calls| - 1]].call, to)
    ensures forall id: nat | id < |ops| && id !in Ids(calls[..|calls| - 1]) :: to <= ops[id].ret
  {
    var init, top := calls[..|calls| - 1], calls[|calls| - 1];
    forall id: nat | id < |ops| && id !in Ids(init) ensures to <= ops[id].ret {
      assert !Precedes(ops, id, top);
    }
  }

  /** Backtracking: the top pair becomes explored and the entry after the popped call is next. */
  lemma Pop<S(!new), I(!new), O(!new)>(
    m: Model<S, I, O>, ops: seq<Operation<I, O>>, explored: set<Pair<S>>, calls: seq<nat>, at: int, to: int,
    blocker: nat)
    requires Congruence(m)
    requires SearchInv(m, ops, explored, calls, at) && Positions(ops)
    requires blocker < |ops| && blocker !in Ids(calls) && ops[blocker].ret == at
    requires calls != []
    requires var top := calls[|calls| - 1];
             ops[top].call < to && Gap(ops, Ids(calls[..|calls| - 1]), ops[top].call, to)
    ensures SearchInv(m, ops, explored + {(Ids(calls), StateAfter(m, ops, calls))}, calls[..|calls| - 1], to)
  {
    var init := calls[..|calls| - 1];
    var p := (Ids(calls), StateAfter(m, ops, calls));
    var more := explored + {p};
    AllTried(m, ops, explored, calls, at, blocker);
    assert Ids(calls) < AllIds(|ops|) by {
      assert blocker in AllIds(|ops|);
    }
    ClosedAdd(m, ops, explored, p);
    StackTriedPop(m, ops, explored, more, calls);
    TopIsTried(m, ops, more, calls);
    ReturnsAhead(m, ops, calls, to);
    TriedBelowExtend(m, ops, more, Ids(init), StateAfter(m, ops, init), calls[|init|], to);
  }

  lemma TriedBelowExtend<S(!new), I, O>(
    m: Model<S, I, O>, ops: seq<Operation<I, O>>, explored: set<Pair<S>>, done: set<nat>, s: S, id: nat, to: int)
    requires id < |ops| && Positions(ops)
    requires TriedBelow(m, ops, explored, done, s, ops[id].call)
    requires Tried(m, ops, explored, done, s, id)
    requires Gap(ops, done, ops[id].call, to)
    ensures TriedBelow(m, ops, explored, done, s, to)
  {
  }

  // ----- The memo table -----

  ghost function StackPairs<S, I, O>(m: Model<S, I, O>, ops: seq<Operation<I, O>>, calls: seq<nat>): set<Pair<S>>
    requires InRange(calls, |ops|)
  {
    if calls == [] then {}
    else StackPairs(m, ops, calls[..|calls| - 1]) + {(Ids(calls), StateAfter(m, ops, calls))}
  }

  lemma StackPairsSnoc<S, I, O>(m: Model<S, I, O>, ops: seq<Operation<I, O>>, calls: seq<nat>, id: nat)
    requires InRange(calls, |ops|) && id < |ops|
    ensures StackPairs(m, ops, calls + [id]) ==
            StackPairs(m, ops, calls) + {(Ids(calls + [id]), StateAfter(m, ops, calls + [id]))}
  {
    assert (calls + [id])[..|calls|] == calls;
  }

  lemma {:induction false} StackPairsAreSmall<S, I, O>(
    m: Model<S, I, O>, ops: seq<Operation<I, O>>, calls: seq<nat>, p: Pair<S>)
    requires Partial(m, ops, calls) && p in StackPairs(m, ops, calls)
    ensures |p.0| <= |calls|
  {
    if p == (Ids(calls), StateAfter(m, ops, calls)) {
      PartialIsDistinct(m, ops, calls);
    } else {
      StackPairsAreSmall(m, ops, calls[..|calls| - 1], p);
    }
  }

  /** A memo hit can only be an explored pair: every pair on the stack holds fewer identifiers. */
  lemma HitIsExplored<S(!new), I, O>(
    m: Model<S, I, O>, ops: seq<Operation<I, O>>, explored: set<Pair<S>>, calls: seq<nat>, id: nat, t: S)
    requires Partial(m, ops, calls) && id < |ops| && id !in Ids(calls)
    requires (Ids(calls) + {id}, t) in explored + StackPairs(m, ops, calls)
    ensures (Ids(calls) + {id}, t) in explored
  {
    PartialIsDistinct(m, ops, calls);
    var p := (Ids(calls) + {id}, t);
    if p in StackPairs(m, ops, calls) {
      StackPairsAreSmall(m, ops, calls, p);
    }
  }

  // ----- Termination: there are only finitely many pairs -----

  ghost function Extend<S, I, O>(m: Model<S, I, O>, ops: seq<Operation<I, O>>, pairs: set<Pair<S>>): set<Pair<S>> {
    set p, id | p in pairs && id in AllIds(|ops|) :: (p.0 + {id}, After(m, ops, p.1, id).1)
  }

  /** The pairs that at most `k` placements can lead to. */
  ghost function Universe<S, I, O>(m: Model<S, I, O>, ops: seq<Operation<I, O>>, k: nat): set<Pair<S>> {
    if k == 0 then {({}, m.init)}
    else Universe(m, ops, k - 1) + Extend(m, ops, Universe(m, ops, k - 1))
  }

  lemma ExtendBy<S, I, O>(
    m: Model<S, I, O>, ops: seq<Operation<I, O>>, pairs: set<Pair<S>>, ids: set<nat>, s: S, id: nat)
    requires (ids, s) in pairs && id < |ops|
    ensures (ids + {id}, After(m, ops, s, id).1) in Extend(m, ops, pairs)
  {
    var p := (ids, s);
    assert p in pairs && id in AllIds(|ops|);
    assert (p.0 + {id}, After(m, ops, p.1, id).1) in Extend(m, ops, pairs);
  }

  lemma UniverseGrows<S, I, O>(m: Model<S, I, O>, ops: seq<Operation<I, O>>, k: nat)
    ensures Universe(m, ops, k) <= Universe(m, ops, k + 1)
    ensures Extend(m, ops, Universe(m, ops, k)) <= Universe(m, ops, k + 1)
  {
    var u := Universe(m, ops, k);
    assert Universe(m, ops, k + 1) == u + Extend(m, ops, u);
  }

  lemma {:induction false} UniverseMonotone<S, I, O>(m: Model<S, I, O>, ops: seq<Operation<I, O>>, k: nat, n: nat)
    requires k <= n
    ensures Universe(m, ops, k) <= Universe(m, ops, n)
    decreases n - k
  {
    if k < n {
      UniverseGrows(m, ops, k);
      UniverseMonotone(m, ops, k + 1, n);
    }
  }

  lemma {:induction false} OrderInUniverse<S, I, O>(
    m: Model<S, I, O>, ops: seq<Operation<I, O>>, order: seq<nat>)
    requires InRange(order, |ops|)
    ensures (Ids(order), StateAfter(m, ops, order)) in Universe(m, ops, |order|)
  {
    if order == [] {
      assert Ids(order) == {};
    } else {
      hide Extend, InRange;
      var k := |order| - 1;
      var init, id := order[..k], order[k];
      InRangeInit(order, |ops|);
      OrderInUniverse(m, ops, init);
      assert order == init + [id];
      IdsSnoc(init, id);
      hide Universe, Ids;
      ExtendBy(m, ops, Universe(m, ops, k), Ids(init), StateAfter(m, ops, init), id);
      UniverseGrows(m, ops, k);
    }
  }

  lemma InRangeInit(order: seq<nat>, n: nat)
    requires InRange(order, n) && order != []
    ensures InRange(order[..|order| - 1], n) && order[|order| - 1] < n
  {
  }

  lemma PartialInUniverse<S, I, O>(m: Model<S, I, O>, ops: seq<Operation<I, O>>, order: seq<nat>)
    requires Partial(m, ops, order)
    ensures |order| <= |ops|
    ensures (Ids(order), StateAfter(m, ops, order)) in Universe(m, ops, |ops|)
  {
    PartialIsDistinct(m, ops, order);
    assert Ids(order) <= AllIds(|ops|);
    SubsetSize(Ids(order), AllIds(|ops|));
    OrderInUniverse(m, ops, order);
    UniverseMonotone(m, ops, |order|, |ops|);
  }

  lemma {:induction false} SubsetSize<X>(a: set<X>, b: set<X>)
    requires a <= b
    ensures |a| <= |b|
  {
    assert b == a + (b - a);
  }

  // ----- What a finished search knows -----

  ghost predicate Exhausted<S(!new), I, O>(m: Model<S, I, O>, ops: seq<Operation<I, O>>, explored: set<Pair<S>>) {
    Closed(m, ops, explored) && forall id: nat :: Tried(m, ops, explored, {}, m.init, id)
  }

  /** Pruning loses nothing: every partial linearization was covered by an explored pair. */
  lemma {:induction false} EveryPartialIsCovered<S(!new), I(!new), O(!new)>(
    m: Model<S, I, O>, ops: seq<Operation<I, O>>, explored: set<Pair<S>>, order: seq<nat>)
    requires Congruence(m) && Exhausted(m, ops, explored)
    requires Partial(m, ops, order) && order != []
    ensures Covered(m, explored, Ids(order), StateAfter(m, ops, order))
  {
    var k := |order| - 1;
    var init, id := order[..k], order[k];
    assert order == init + [id];
    IdsSnoc(init, id);
    if init == [] {
      assert Ids(init) == {};
      assert Tried(m, ops, explored, {}, m.init, id);
    } else {
      EveryPartialIsCovered(m, ops, explored, init);
      var t :| (Ids(init), t) in explored && m.equal(StateAfter(m, ops, init), t);
      var p := (Ids(init), t);
      assert Tried(m, ops, explored, p.0, p.1, id);
      assert m.step(t, ops[id].input, ops[id].output).0;
      var u :| (Ids(order), u) in explored && m.equal(After(m, ops, t, id).1, u);
      assert m.equal(StateAfter(m, ops, order), After(m, ops, t, id).1);
      assert m.equal(StateAfter(m, ops, order), u);
    }
  }

  lemma ExhaustedMeansNotLinearizable<S(!new), I(!new), O(!new)>(
    m: Model<S, I, O>, ops: seq<Operation<I, O>>, explored: set<Pair<S>>)
    requires Congruence(m) && Exhausted(m, ops, explored) && ops != []
    ensures !exists order :: Partial(m, ops, order) && |order| == |ops|
  {
    forall order | Partial(m, ops, order) && |order| == |ops| ensures false {
      EveryPartialIsCovered(m, ops, explored, order);
      PartialIsDistinct(m, ops, order);
      var t :| (Ids(order), t) in explored;
      assert (Ids(order), t).0 < AllIds(|ops|);
      SubsetFull(Ids(order), |ops|);
    }
  }

  // ----- The longest partial linearizations -----

  ghost predicate Reported<S, I, O>(m: Model<S, I, O>, ops: seq<Operation<I, O>>, longest: seq<Option<seq<nat>>>) {
    && |longest| == |ops|
    && forall id: nat | id < |ops| && longest[id].Some? ::
         Partial(m, ops, longest[id].value) && id in longest[id].value
  }

  ghost predicate Recorded<S, I, O>(
    m: Model<S, I, O>, ops: seq<Operation<I, O>>, explored: set<Pair<S>>, longest: seq<Option<seq<nat>>>)
  {
    Reported(m, ops, longest) && forall p | p in explored :: LongFor(longest, p.0)
  }

  /** Each of the identifiers has a record at least as long as there are identifiers. */
  ghost predicate LongFor(longest: seq<Option<seq<nat>>>, ids: set<nat>) {
    forall id | id in ids :: id < |longest| && longest[id].Some? && |longest[id].value| >= |ids|
  }

  /** `longest[id]` is as long as any partial linearization with `id`, and is missing only if there is none. */
  ghost predicate Optimal<S, I, O>(m: Model<S, I, O>, ops: seq<Operation<I, O>>, longest: seq<Option<seq<nat>>>) {
    && Reported(m, ops, longest)
    && forall order, id: nat | Partial(m, ops, order) && id in order ::
         id < |ops| && longest[id].Some? && |order| <= |longest[id].value|
  }

  lemma ExhaustedMeansOptimal<S(!new), I(!new), O(!new)>(
    m: Model<S, I, O>, ops: seq<Operation<I, O>>, explored: set<Pair<S>>, longest: seq<Option<seq<nat>>>)
    requires Congruence(m) && Exhausted(m, ops, explored)
    requires Recorded(m, ops, explored, longest)
    ensures Optimal(m, ops, longest)
  {
    forall order, id: nat | Partial(m, ops, order) && id in order
      ensures id < |ops| && longest[id].Some? && |order| <= |longest[id].value|
    {
      EveryPartialIsCovered(m, ops, explored, order);
      PartialIsDistinct(m, ops, order);
      var t :| (Ids(order), t) in explored;
      assert LongFor(longest, (Ids(order), t).0);
      assert id in Ids(order);
    }
  }
}
