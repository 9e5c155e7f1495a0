/**
 `checkSingle` (Lab3/src/porcupine/checker.go): the backtracking search over one partition's history.
 */
module Checker {
  import opened Bitset
  import opened Linearizability
  import opened SearchTheory
  import opened LinkedHistory
  import opened Entries
  import opened MemoTable
  import opened Options
  import opened Sorting

  datatype CallsEntry<I, O, S> = CallsEntry(entry: Node<I, O>, state: S)

  // ----- The list and the stack -----

  /** The list indices cut out while the identifiers of `calls` are on the stack, oldest first. */
  ghost function Path<I, O>(ops: seq<Operation<I, O>>, calls: seq<nat>): seq<int>
    requires InRange(calls, |ops|)
  {
    if calls == [] then []
    else
      var op := ops[calls[|calls| - 1]];
      Path(ops, calls[..|calls| - 1]) + [op.call + 1] + [op.ret + 1]
  }

  lemma PathSnoc<I, O>(ops: seq<Operation<I, O>>, calls: seq<nat>, id: nat)
    requires InRange(calls, |ops|) && id < |ops|
    ensures Path(ops, calls + [id]) == Path(ops, calls) + [ops[id].call + 1] + [ops[id].ret + 1]
    ensures Elems(Path(ops, calls + [id])) == Elems(Path(ops, calls)) + {ops[id].call + 1} + {ops[id].ret + 1}
  {
    assert (calls + [id])[..|calls|] == calls;
    ElemsSnoc(Path(ops, calls), ops[id].call + 1);
    ElemsSnoc(Path(ops, calls) + [ops[id].call + 1], ops[id].ret + 1);
  }

  lemma {:induction false} PathElems<I, O>(ops: seq<Operation<I, O>>, calls: seq<nat>, id: nat)
    requires InRange(calls, |ops|) && Positions(ops) && id < |ops|
    ensures ops[id].call + 1 in Elems(Path(ops, calls)) <==> id in Ids(calls)
    ensures ops[id].ret + 1 in Elems(Path(ops, calls)) <==> id in Ids(calls)
  {
    if calls != [] {
      var init, top := calls[..|calls| - 1], calls[|calls| - 1];
      PathElems(ops, init, id);
      PathSnoc(ops, init, top);
      assert calls == init + [top];
      IdsSnoc(init, top);
      assert id != top ==> ops[id].call != ops[top].call && ops[id].ret != ops[top].ret;
    }
  }

  /** Index `q` of the list is the call or the return of some operation. */
  ghost predicate Placed<I, O>(all: seq<Node<I, O>>, ops: seq<Operation<I, O>>, q: int)
    requires 0 < q < |all|
  {
    && 0 <= all[q].id < |ops|
    && var op := ops[all[q].id];
       if all[q].mate != null
       then q == op.call + 1 && all[q].value == Input(op.input) && all[q].mate == At(all, op.ret + 1) &&
            all[q].mate.value == Output(op.output)
       else q == op.ret + 1
  }

  ghost predicate NodesOk<I, O>(all: seq<Node<I, O>>, ops: seq<Operation<I, O>>) {
    && |all| == 2 * |ops| + 1
    && Positions(ops)
    && (forall q | 0 < q < |all| :: Placed(all, ops, q))
    && (forall id | 0 <= id < |ops| ::
          && 0 < ops[id].call + 1 < ops[id].ret + 1 < |all|
          && all[ops[id].call + 1].id == id && all[ops[id].call + 1].mate == all[ops[id].ret + 1])
  }

  lemma NodesAreOk<I, O>(h: seq<Entry<I, O>>, ix: Index, nodes: seq<Node<I, O>>, head: Node<I, O>)
    requires Built(h, ix, 0, nodes)
    ensures NodesOk([head] + nodes, OpsAt(h, ix))
  {
    var all, ops := [head] + nodes, OpsAt(h, ix);
    forall q | 0 < q < |all| ensures Placed(all, ops, q) {
      assert all[q] == nodes[q - 1];
      assert Represents(h, ix, 0, nodes, q - 1);
      var e := h[0 + (q - 1)];
      if e.CallEntry? {
        assert Represents(h, ix, 0, nodes, ix.rets[e.id]);
        assert h[0 + ix.rets[e.id]] == h[ix.rets[e.id]];
      }
    }
    forall id | 0 <= id < |ops|
      ensures 0 < ops[id].call + 1 < ops[id].ret + 1 < |all|
      ensures all[ops[id].call + 1].id == id && all[ops[id].call + 1].mate == all[ops[id].ret + 1]
    {
      var p := ix.calls[id];
      assert Represents(h, ix, 0, nodes, p);
      assert h[0 + p] == h[p];
      assert all[p + 1] == nodes[p];
    }
  }

  /** Between a live index and the next one there is no live entry. */
  lemma NextLeavesGap<I, O>(all: seq<Node<I, O>>, ops: seq<Operation<I, O>>, calls: seq<nat>, q: int)
    requires NodesOk(all, ops) && InRange(calls, |ops|) && 0 <= q < |all|
    ensures Gap(ops, Ids(calls), q - 1, NextLive(Elems(Path(ops, calls)), q, |all|) - 1)
  {
    var gone := Elems(Path(ops, calls));
    forall id: nat | id < |ops| && id !in Ids(calls)
      ensures !(q - 1 < ops[id].call < NextLive(gone, q, |all|) - 1)
      ensures !(q - 1 < ops[id].ret < NextLive(gone, q, |all|) - 1)
    {
      PathElems(ops, calls, id);
    }
  }

  /** A live return stands ahead, so there is a next node. */
  lemma NextExists<I, O>(all: seq<Node<I, O>>, ops: seq<Operation<I, O>>, calls: seq<nat>, id: nat)
    requires NodesOk(all, ops) && InRange(calls, |ops|) && id < |ops| && id !in Ids(calls)
    ensures NextLive(Elems(Path(ops, calls)), ops[id].call + 1, |all|) < |all|
    ensures NextLive(Elems(Path(ops, calls)), 0, |all|) < |all|
  {
    PathElems(ops, calls, id);
  }

  lemma FirstLive<I, O>(all: seq<Node<I, O>>, ops: seq<Operation<I, O>>, calls: seq<nat>)
    requires NodesOk(all, ops) && InRange(calls, |ops|)
    ensures var first := NextLive(Elems(Path(ops, calls)), 0, |all|) - 1;
            forall id: nat | id < |ops| && id !in Ids(calls) :: first <= ops[id].call && first <= ops[id].ret
  {
    NextLeavesGap(all, ops, calls, 0);
  }

  /** With nothing left in the list, every identifier has been placed. */
  lemma EmptyListIsComplete<S, I, O>(
    m: Model<S, I, O>, all: seq<Node<I, O>>, ops: seq<Operation<I, O>>, calls: seq<nat>)
    requires NodesOk(all, ops) && Partial(m, ops, calls)
    requires NextLive(Elems(Path(ops, calls)), 0, |all|) == |all|
    ensures |calls| == |ops|
  {
    forall id: nat | id < |ops| ensures id in Ids(calls) {
      if id !in Ids(calls) {
        NextExists(all, ops, calls, id);
      }
    }
    assert Ids(calls) == AllIds(|ops|);
    PartialIsDistinct(m, ops, calls);
  }

  /** The stack of the program, and the bitset of what is on it. */
  ghost predicate StackOk<S, I, O>(
    m: Model<S, I, O>, all: seq<Node<I, O>>, ops: seq<Operation<I, O>>, calls: seq<nat>,
    stack: seq<CallsEntry<I, O, S>>)
    requires NodesOk(all, ops) && InRange(calls, |ops|)
  {
    && |stack| == |calls|
    && forall k | 0 <= k < |calls| ::
         stack[k].entry == all[ops[calls[k]].call + 1] && stack[k].state == StateAfter(m, ops, calls[..k])
  }

  lemma StackPush<S, I, O>(
    m: Model<S, I, O>, all: seq<Node<I, O>>, ops: seq<Operation<I, O>>, calls: seq<nat>,
    stack: seq<CallsEntry<I, O, S>>, id: nat)
    requires NodesOk(all, ops) && InRange(calls, |ops|) && StackOk(m, all, ops, calls, stack) && id < |ops|
    ensures StackOk(m, all, ops, calls + [id],
                    stack + [CallsEntry(all[ops[id].call + 1], StateAfter(m, ops, calls))])
  {
    hide StateAfter, Placed, Positions;
    var more, stack' := calls + [id], stack + [CallsEntry(all[ops[id].call + 1], StateAfter(m, ops, calls))];
    forall k | 0 <= k < |more|
      ensures stack'[k].entry == all[ops[more[k]].call + 1] && stack'[k].state == StateAfter(m, ops, more[..k])
    {
      if k < |calls| {
        assert more[..k] == calls[..k] && stack'[k] == stack[k];
      } else {
        assert more[..k] == calls;
      }
    }
  }

  lemma StackPop<S, I, O>(
    m: Model<S, I, O>, all: seq<Node<I, O>>, ops: seq<Operation<I, O>>, calls: seq<nat>,
    stack: seq<CallsEntry<I, O, S>>)
    requires NodesOk(all, ops) && InRange(calls, |ops|) && StackOk(m, all, ops, calls, stack) && calls != []
    ensures StackOk(m, all, ops, calls[..|calls| - 1], stack[..|stack| - 1])
    ensures stack[|stack| - 1].state == StateAfter(m, ops, calls[..|calls| - 1])
  {
    hide StateAfter, Placed, Positions;
    var less := calls[..|calls| - 1];
    forall k | 0 <= k < |less|
      ensures stack[k].entry == all[ops[less[k]].call + 1] && stack[k].state == StateAfter(m, ops, less[..k])
    {
      assert less[..k] == calls[..k];
    }
  }

  // ----- The longest partial linearizations -----

  /** `after` is `before` with the order of `calls` written in where the record was missing or shorter. */
  ghost predicate Updated(before: seq<Option<seq<nat>>>, calls: seq<nat>, after: seq<Option<seq<nat>>>) {
    |after| == |before| && forall id | 0 <= id < |before| :: after[id] == UpdatedAt(before[id], calls, id)
  }

  ghost function UpdatedAt(record: Option<seq<nat>>, calls: seq<nat>, id: int): Option<seq<nat>> {
    if id in calls && (record.None? || |calls| > |record.value|) then Some(calls) else record
  }

  /** Writes the current order in for every member whose record is missing or shorter. */
  method RecordLongest<S, I, O>(
    stack: seq<CallsEntry<I, O, S>>, longest: array<Option<seq<nat>>>, ghost calls: seq<nat>)
    requires |stack| == |calls| && NoDuplicates(calls) && InRange(calls, longest.Length)
    requires forall k | 0 <= k < |stack| :: stack[k].entry.id == calls[k]
    modifies longest
    ensures Updated(old(longest[..]), calls, longest[..])
    ensures forall id | 0 <= id < longest.Length ::
              if id in calls && (old(longest[id]).None? || |calls| > |old(longest[id]).value|)
              then longest[id] == Some(calls)
              else longest[id] == old(longest[id])
  {
    var order := OrderOf(stack, calls);
    for i := 0 to |stack|
      invariant forall id | 0 <= id < longest.Length ::
                  longest[id] == if id in calls[..i] then UpdatedAt(old(longest[id]), calls, id) else old(longest[id])
    {
      var id := stack[i].entry.id;
      assert id !in calls[..i];
      if longest[id].None? || |stack| > |longest[id].value| {
        longest[id] := Some(order);
      }
      assert calls[..i + 1] == calls[..i] + [calls[i]];
    }
    assert calls[..|stack|] == calls;
  }

  lemma ReportedAfter<S, I, O>(
    m: Model<S, I, O>, ops: seq<Operation<I, O>>, calls: seq<nat>,
    before: seq<Option<seq<nat>>>, after: seq<Option<seq<nat>>>)
    requires Partial(m, ops, calls) && Reported(m, ops, before) && Updated(before, calls, after)
    ensures Reported(m, ops, after)
  {
    hide Partial;
    forall id: nat | id < |ops| && after[id].Some? ensures Partial(m, ops, after[id].value) && id in after[id].value {
      assert after[id] == UpdatedAt(before[id], calls, id);
    }
  }

  lemma LongForUpdated(before: seq<Option<seq<nat>>>, calls: seq<nat>, after: seq<Option<seq<nat>>>, ids: set<nat>)
    requires Updated(before, calls, after) && LongFor(before, ids)
    ensures LongFor(after, ids)
  {
    forall id | id in ids ensures id < |after| && after[id].Some? && |after[id].value| >= |ids| {
      assert after[id] == UpdatedAt(before[id], calls, id);
    }
  }

  lemma LongForCalls(before: seq<Option<seq<nat>>>, calls: seq<nat>, after: seq<Option<seq<nat>>>)
    requires Updated(before, calls, after) && InRange(calls, |before|) && |Ids(calls)| == |calls|
    ensures LongFor(after, Ids(calls))
  {
    forall id | id in Ids(calls) ensures id < |after| && after[id].Some? && |after[id].value| >= |calls| {
      var k :| 0 <= k < |calls| && calls[k] == id;
      assert calls[k] < |before|;
      assert after[id] == UpdatedAt(before[id], calls, id);
    }
  }

  lemma RecordedAfter<S, I, O>(
    m: Model<S, I, O>, ops: seq<Operation<I, O>>, explored: set<Pair<S>>, calls: seq<nat>,
    before: seq<Option<seq<nat>>>, after: seq<Option<seq<nat>>>)
    requires Partial(m, ops, calls) && Recorded(m, ops, explored, before) && Updated(before, calls, after)
    ensures Recorded(m, ops, explored + {(Ids(calls), StateAfter(m, ops, calls))}, after)
    ensures Reported(m, ops, after)
  {
    PartialInRange(m, ops, calls);
    PartialIsDistinct(m, ops, calls);
    assert |before| == |ops|;
    hide Partial, StateAfter, Updated, LongFor, Reported;
    ReportedAfter(m, ops, calls, before, after);
    LongForCalls(before, calls, after);
    var more := explored + {(Ids(calls), StateAfter(m, ops, calls))};
    forall p | p in more ensures LongFor(after, p.0) {
      if p in explored {
        LongForUpdated(before, calls, after, p.0);
      }
    }
  }

  lemma PartialInRange<S, I, O>(m: Model<S, I, O>, ops: seq<Operation<I, O>>, calls: seq<nat>)
    requires Partial(m, ops, calls)
    ensures InRange(calls, |ops|)
  {
  }

  // ----- One candidate call -----

  /**
   Takes the step of the call looked at. When it succeeds and the pair it leads to is not in the memo table, the
   pair is added and the bit of the call is set.
   */
  method TryCall<S(!new), I(!new), O(!new)>(
    m: Model<S, I, O>, state: S, input: I, output: O, id: nat, linearized: array<uint64>, table: Table<S>)
    returns (pushed: bool, newState: S)
    requires Congruence(m)
    requires table.Valid() && table.width == linearized.Length && linearized !in table.Repr
    requires id < 64 * linearized.Length
    modifies table, linearized
    ensures table.Valid() && linearized !in table.Repr
    ensures newState == m.step(state, input, output).1
    ensures var ids := old(Members(linearized[..])) + {id};
            if pushed
            then && m.step(state, input, output).0
                 && (ids, newState) !in old(table.pairs)
                 && table.pairs == old(table.pairs) + {(ids, newState)}
                 && Members(linearized[..]) == ids
            else && (m.step(state, input, output).0 ==> Covered(m, old(table.pairs), ids, newState))
                 && table.pairs == old(table.pairs)
                 && Members(linearized[..]) == old(Members(linearized[..]))
  {
    hide Members, Table.Valid;
    var result := m.step(state, input, output);
    var ok := result.0;
    newState := result.1;
    pushed := false;
    if ok {
      var newLinearized := Clone(linearized);
      Set(newLinearized, id);
      var newEntry := CacheEntry(newLinearized, newState);
      var found := table.Contains(m, newEntry);
      if !found {
        assert m.equal(newState, newState);
        table.Insert(newEntry);
        Set(linearized, id);
        pushed := true;
      }
    }
  }

  // ----- The search -----

  /** The part of the loop invariant that does not read the heap. */
  ghost predicate Searching<S(!new), I, O>(
    m: Model<S, I, O>, all: seq<Node<I, O>>, ops: seq<Operation<I, O>>, explored: set<Pair<S>>, calls: seq<nat>,
    at: int, stack: seq<CallsEntry<I, O, S>>, state: S)
  {
    && NodesOk(all, ops) && Positions(ops) && InRange(calls, |ops|) && Partial(m, ops, calls)
    && SearchInv(m, ops, explored, calls, at)
    && StackOk(m, all, ops, calls, stack)
    && state == StateAfter(m, ops, calls)
    && explored + StackPairs(m, ops, calls) <= Universe(m, ops, |ops|)
  }

  /** Position `at` is that of an entry still in the list, or the list is empty. */
  ghost predicate Cursor<I, O>(all: seq<Node<I, O>>, ops: seq<Operation<I, O>>, calls: seq<nat>, at: int)
    requires InRange(calls, |ops|)
  {
    && 0 <= at < |all|
    && var gone := Elems(Path(ops, calls));
       if at + 1 < |all| then at + 1 !in gone else NextLive(gone, 0, |all|) == |all|
  }

  /** Looking at a call: its identifier is not on the stack, and a next entry exists. */
  lemma AtCall<I, O>(all: seq<Node<I, O>>, ops: seq<Operation<I, O>>, calls: seq<nat>, at: int)
    requires NodesOk(all, ops) && InRange(calls, |ops|) && Cursor(all, ops, calls, at) && at + 1 < |all|
    ensures 0 <= all[at + 1].id < |ops| && all[at + 1].id !in Ids(calls)
    ensures var op := ops[all[at + 1].id];
            if all[at + 1].mate != null
            then && op.call == at < op.ret < op.ret + 1 < |all|
                 && all[at + 1].mate == all[op.ret + 1] && op.ret + 1 !in Elems(Path(ops, calls))
                 && all[at + 1].value == Input(op.input) && all[op.ret + 1].value == Output(op.output)
            else op.ret == at
  {
    assert Placed(all, ops, at + 1);
    PathElems(ops, calls, all[at + 1].id);
  }

  /** The entry after a live call. */
  lemma Advance<I, O>(all: seq<Node<I, O>>, ops: seq<Operation<I, O>>, calls: seq<nat>, id: nat)
    requires NodesOk(all, ops) && InRange(calls, |ops|) && id < |ops| && id !in Ids(calls)
    ensures var to := NextLive(Elems(Path(ops, calls)), ops[id].call + 1, |all|) - 1;
            ops[id].call < to && Cursor(all, ops, calls, to) && Gap(ops, Ids(calls), ops[id].call, to)
  {
    NextExists(all, ops, calls, id);
    NextLeavesGap(all, ops, calls, ops[id].call + 1);
  }

  lemma SkipStep<S(!new), I, O>(
    m: Model<S, I, O>, all: seq<Node<I, O>>, ops: seq<Operation<I, O>>, explored: set<Pair<S>>, calls: seq<nat>,
    at: int, to: int, stack: seq<CallsEntry<I, O, S>>, state: S, id: nat)
    requires Searching(m, all, ops, explored, calls, at, stack, state)
    requires id < |ops| && id !in Ids(calls) && ops[id].call == at
    requires After(m, ops, state, id).0 ==>
               Covered(m, explored + StackPairs(m, ops, calls), Ids(calls) + {id}, After(m, ops, state, id).1)
    requires at < to && Gap(ops, Ids(calls), at, to)
    ensures Searching(m, all, ops, explored, calls, to, stack, state)
  {
    if After(m, ops, state, id).0 {
      var t :| (Ids(calls) + {id}, t) in explored + StackPairs(m, ops, calls) && m.equal(After(m, ops, state, id).1, t);
      HitIsExplored(m, ops, explored, calls, id, t);
    }
    Skip(m, ops, explored, calls, at, to, id);
  }

  lemma PushStep<S(!new), I, O>(
    m: Model<S, I, O>, all: seq<Node<I, O>>, ops: seq<Operation<I, O>>, explored: set<Pair<S>>, calls: seq<nat>,
    at: int, to: int, stack: seq<CallsEntry<I, O, S>>, state: S, id: nat)
    requires Searching(m, all, ops, explored, calls, at, stack, state)
    requires id < |ops| && id !in Ids(calls) && ops[id].call == at
    requires After(m, ops, state, id).0
    requires forall other: nat | other < |ops| && other !in Ids(calls + [id]) ::
               to <= ops[other].call && to <= ops[other].ret
    ensures Searching(m, all, ops, explored, calls + [id], to,
                      stack + [CallsEntry(all[ops[id].call + 1], state)], After(m, ops, state, id).1)
    ensures StackPairs(m, ops, calls + [id]) ==
            StackPairs(m, ops, calls) + {(Ids(calls) + {id}, After(m, ops, state, id).1)}
  {
    hide NodesOk, SearchInv, Universe, StackOk, Positions, Partial, StateAfter, StackPairs, Ids;
    Push(m, ops, explored, calls, at, to, id);
    StackPush(m, all, ops, calls, stack, id);
    StackPairsSnoc(m, ops, calls, id);
    IdsSnoc(calls, id);
    PartialInUniverse(m, ops, calls + [id]);
  }

  lemma PopStep<S(!new), I(!new), O(!new)>(
    m: Model<S, I, O>, all: seq<Node<I, O>>, ops: seq<Operation<I, O>>, explored: set<Pair<S>>, calls: seq<nat>,
    at: int, to: int, stack: seq<CallsEntry<I, O, S>>, state: S, blocker: nat)
    requires Congruence(m)
    requires Searching(m, all, ops, explored, calls, at, stack, state) && calls != []
    requires blocker < |ops| && blocker !in Ids(calls) && ops[blocker].ret == at
    requires var top := calls[|calls| - 1];
             ops[top].call < to && Gap(ops, Ids(calls[..|calls| - 1]), ops[top].call, to)
    ensures var k := |calls| - 1;
            var p := (Ids(calls), StateAfter(m, ops, calls));
            && Searching(m, all, ops, explored + {p}, calls[..k], to, stack[..k], stack[k].state)
            && explored + {p} + StackPairs(m, ops, calls[..k]) == explored + StackPairs(m, ops, calls)
  {
    hide SearchInv, NodesOk, Universe, StateAfter, Partial, Congruence, Gap, Positions;
    PartialPrefix(m, ops, calls, |calls| - 1);
    Pop(m, ops, explored, calls, at, to, blocker);
    StackPop(m, all, ops, calls, stack);
  }

  /** The heap part of the loop invariant: the list, the live bitset and the memo table. */
  ghost predicate Stored<S(!new), I, O>(
    m: Model<S, I, O>, all: seq<Node<I, O>>, ops: seq<Operation<I, O>>, explored: set<Pair<S>>, calls: seq<nat>,
    linearized: array<uint64>, table: Table<S>)
    requires InRange(calls, |ops|)
    reads set x | x in all
    reads linearized, table, table.Repr
  {
    && Linked(all, Path(ops, calls))
    && Members(linearized[..]) == Ids(calls)
    && |ops| <= 64 * linearized.Length
    && table.Valid() && table.width == linearized.Length && linearized !in table.Repr
    && table.pairs == explored + StackPairs(m, ops, calls)
  }

  lemma FewerUnused<X>(universe: set<X>, less: set<X>, more: set<X>)
    requires less < more <= universe
    ensures |universe - more| < |universe - less|
  {
    assert more - less != {} by {
      assert more == less + (more - less);
    }
    var x :| x in more - less;
    SubsetSize(universe - more, universe - less - {x});
  }

  /** Lines 202-207: the call goes on the stack and out of the list, and the search starts over at the head. */
  method Place<S(!new), I(!new), O(!new)>(
    m: Model<S, I, O>, entry: Node<I, O>, headEntry: Node<I, O>, stack: seq<CallsEntry<I, O, S>>, state: S,
    ghost all: seq<Node<I, O>>, ghost ops: seq<Operation<I, O>>, ghost explored: set<Pair<S>>,
    ghost calls: seq<nat>, ghost at: int, ghost id: nat)
    returns (entry': Node?<I, O>, stack': seq<CallsEntry<I, O, S>>, ghost at': int)
    requires Searching(m, all, ops, explored, calls, at, stack, state)
    requires Linked(all, Path(ops, calls))
    requires Cursor(all, ops, calls, at) && at + 1 < |all| && entry == all[at + 1] && headEntry == all[0]
    requires entry.mate != null && entry.id == id && id < |ops| && After(m, ops, state, id).0
    modifies all
    ensures InRange(calls + [id], |ops|)
    ensures Searching(m, all, ops, explored, calls + [id], at', stack', After(m, ops, state, id).1)
    ensures Linked(all, Path(ops, calls + [id]))
    ensures Cursor(all, ops, calls + [id], at') && entry' == At(all, at' + 1)
    ensures StackPairs(m, ops, calls + [id]) ==
            StackPairs(m, ops, calls) + {(Ids(calls) + {id}, After(m, ops, state, id).1)}
  {
    hide SearchInv, NodesOk, StackOk, Linked, StackPairs, Universe, Path, StateAfter, Ids, Positions, Partial, Elems;
    AtCall(all, ops, calls, at);
    stack' := stack + [CallsEntry(entry, state)];
    Lift(entry, all, Path(ops, calls), at + 1, ops[id].ret + 1);
    PathSnoc(ops, calls, id);
    FirstLive(all, ops, calls + [id]);
    at' := NextLive(Elems(Path(ops, calls + [id])), 0, |all|) - 1;
    PushStep(m, all, ops, explored, calls, at, at', stack, state, id);
    HeadNext(all, Path(ops, calls + [id]));
    entry' := headEntry.next;
  }

  /** Passing a call whose step fails, or whose pair is covered. */
  lemma PassStep<S(!new), I, O>(
    m: Model<S, I, O>, all: seq<Node<I, O>>, ops: seq<Operation<I, O>>, explored: set<Pair<S>>, calls: seq<nat>,
    at: int, stack: seq<CallsEntry<I, O, S>>, state: S, id: nat)
    requires Searching(m, all, ops, explored, calls, at, stack, state)
    requires id < |ops| && id !in Ids(calls) && ops[id].call == at
    requires After(m, ops, state, id).0 ==>
               Covered(m, explored + StackPairs(m, ops, calls), Ids(calls) + {id}, After(m, ops, state, id).1)
    ensures var to := NextLive(Elems(Path(ops, calls)), at + 1, |all|) - 1;
            at < to < |all| && Searching(m, all, ops, explored, calls, to, stack, state) && Cursor(all, ops, calls, to)
  {
    hide SearchInv, NodesOk, StackOk, StackPairs, Universe, Path, StateAfter, Covered, Ids, Positions, Partial, Gap,
      Elems, After;
    Advance(all, ops, calls, id);
    SkipStep(m, all, ops, explored, calls, at, NextLive(Elems(Path(ops, calls)), at + 1, |all|) - 1, stack, state, id);
  }

  /** Lines 208-213: the search goes on with the next entry of the list. */
  method Pass<S(!new), I(!new), O(!new)>(
    m: Model<S, I, O>, entry: Node<I, O>, ghost stack: seq<CallsEntry<I, O, S>>, ghost state: S,
    ghost all: seq<Node<I, O>>, ghost ops: seq<Operation<I, O>>, ghost explored: set<Pair<S>>,
    ghost calls: seq<nat>, ghost at: int, ghost id: nat)
    returns (entry': Node?<I, O>, ghost at': int)
    requires Searching(m, all, ops, explored, calls, at, stack, state) && Linked(all, Path(ops, calls))
    requires Cursor(all, ops, calls, at) && at + 1 < |all| && entry == all[at + 1]
    requires id < |ops| && id !in Ids(calls) && ops[id].call == at
    requires After(m, ops, state, id).0 ==>
               Covered(m, explored + StackPairs(m, ops, calls), Ids(calls) + {id}, After(m, ops, state, id).1)
    ensures Searching(m, all, ops, explored, calls, at', stack, state)
    ensures entry' == entry.next
    ensures Cursor(all, ops, calls, at') && at < at' && entry' == At(all, at' + 1)
  {
    hide SearchInv, NodesOk, StackOk, Linked, StackPairs, Universe, Path, StateAfter, Covered, Ids, Positions, Partial,
      Gap, Elems, NextLive, After;
    ghost var to := NextLive(Elems(Path(ops, calls)), at + 1, |all|);
    PassStep(m, all, ops, explored, calls, at, stack, state, id);
    LinkedNext(all, Path(ops, calls), at + 1);
    entry', at' := entry.next, to - 1;
    assert at' + 1 == to;
  }

  /** The branch of the loop for a call: place it, or move on to the next entry. */
  method ConsiderCall<S(!new), I(!new), O(!new)>(
    m: Model<S, I, O>, entry: Node<I, O>, headEntry: Node<I, O>, stack: seq<CallsEntry<I, O, S>>, state: S,
    linearized: array<uint64>, table: Table<S>,
    ghost all: seq<Node<I, O>>, ghost ops: seq<Operation<I, O>>, ghost explored: set<Pair<S>>,
    ghost calls: seq<nat>, ghost at: int)
    returns (entry': Node?<I, O>, stack': seq<CallsEntry<I, O, S>>, state': S, ghost calls': seq<nat>, ghost at': int)
    requires Congruence(m)
    requires Searching(m, all, ops, explored, calls, at, stack, state)
    requires Stored(m, all, ops, explored, calls, linearized, table)
    requires Cursor(all, ops, calls, at) && at + 1 < |all| && entry == all[at + 1] && headEntry == all[0]
    requires entry.mate != null
    modifies all, linearized, table
    ensures InRange(calls', |ops|) && Searching(m, all, ops, explored, calls', at', stack', state')
    ensures Stored(m, all, ops, explored, calls', linearized, table)
    ensures Cursor(all, ops, calls', at') && entry' == At(all, at' + 1)
    ensures var unused := Universe(m, ops, |ops|) - table.pairs;
            || |unused| < |Universe(m, ops, |ops|) - old(table.pairs)|
            || (calls' == calls && at < at' < |all| && table.pairs == old(table.pairs))
    ensures |calls'| <= |calls| + 1
  {
    hide SearchInv, NodesOk, StackOk, Linked, StackPairs, Universe, Path, StateAfter, Congruence, Covered, Members,
      Ids, Positions, Partial, Table.Valid, Gap, Elems, NextLive, InRange;
    AtCall(all, ops, calls, at);
    ghost var id: nat := entry.id;
    var pushed, newState := TryCall(m, state, entry.value.input, entry.mate.value.output, entry.id, linearized, table);
    if pushed {
      entry', stack', at' := Place(m, entry, headEntry, stack, state, all, ops, explored, calls, at, id);
      state', calls' := newState, calls + [id];
      IdsSnoc(calls, id);
      assert table.pairs == explored + StackPairs(m, ops, calls');
      FewerUnused(Universe(m, ops, |ops|), old(table.pairs), table.pairs);
    } else {
      stack', state', calls' := stack, state, calls;
      entry', at' := Pass(m, entry, stack, state, all, ops, explored, calls, at, id);
    }
  }

  lemma TopOfStack<S, I, O>(
    m: Model<S, I, O>, all: seq<Node<I, O>>, ops: seq<Operation<I, O>>, calls: seq<nat>,
    stack: seq<CallsEntry<I, O, S>>)
    requires NodesOk(all, ops) && Partial(m, ops, calls) && StackOk(m, all, ops, calls, stack) && stack != []
    ensures |calls| == |stack| && InRange(calls[..|calls| - 1], |ops|) && Positions(ops)
    ensures var id := calls[|calls| - 1];
            && id !in Ids(calls[..|calls| - 1])
            && 0 < ops[id].call + 1 < ops[id].ret + 1 < |all|
            && stack[|stack| - 1].entry == all[ops[id].call + 1]
            && all[ops[id].call + 1].id == id && all[ops[id].call + 1].mate == all[ops[id].ret + 1]
  {
    var k := |calls| - 1;
    assert Minimal(ops, Ids(calls[..k]), calls[k]) && InRange(calls[..k], |ops|);
    hide Partial, StateAfter, Placed, Minimal, Positions;
    assert stack[k].entry == all[ops[calls[k]].call + 1];
  }

  /** The branch of the loop for a return: take the top call back and look at the entry after it. */
  method Backtrack<S(!new), I(!new), O(!new)>(
    m: Model<S, I, O>, stack: seq<CallsEntry<I, O, S>>, linearized: array<uint64>, table: Table<S>,
    ghost all: seq<Node<I, O>>, ghost ops: seq<Operation<I, O>>, ghost explored: set<Pair<S>>,
    ghost calls: seq<nat>, ghost at: int, ghost blocker: nat)
    returns (entry': Node?<I, O>, stack': seq<CallsEntry<I, O, S>>, state': S, ghost at': int)
    requires Congruence(m) && stack != []
    requires InRange(calls, |ops|) && Searching(m, all, ops, explored, calls, at, stack, StateAfter(m, ops, calls))
    requires Stored(m, all, ops, explored, calls, linearized, table)
    requires blocker < |ops| && blocker !in Ids(calls) && ops[blocker].ret == at
    modifies all, linearized
    ensures var p := (Ids(calls), StateAfter(m, ops, calls));
            var calls' := calls[..|calls| - 1];
            && InRange(calls', |ops|) && Searching(m, all, ops, explored + {p}, calls', at', stack', state')
            && Stored(m, all, ops, explored + {p}, calls', linearized, table)
            && Cursor(all, ops, calls', at') && entry' == At(all, at' + 1)
  {
    hide SearchInv, NodesOk, StackOk, Linked, StackPairs, Universe, Path, StateAfter, Congruence, Members, Ids,
      Positions, Partial;
    var k := |stack| - 1;
    TopOfStack(m, all, ops, calls, stack);
    ghost var calls', id := calls[..k], calls[k];
    var entry := stack[k].entry;
    state', stack' := stack[k].state, stack[..k];
    assert calls == calls' + [id];
    IdsSnoc(calls', id);
    PathSnoc(ops, calls', id);
    PathElems(ops, calls', id);
    Clear(linearized, entry.id);
    Unlift(entry, all, Path(ops, calls'), ops[id].call + 1, ops[id].ret + 1);
    Advance(all, ops, calls', id);
    at' := NextLive(Elems(Path(ops, calls')), ops[id].call + 1, |all|) - 1;
    PopStep(m, all, ops, explored, calls, at, at', stack, StateAfter(m, ops, calls), blocker);
    LinkedNext(all, Path(ops, calls'), ops[id].call + 1);
    entry' := entry.next;
  }

  lemma StackIds<S, I, O>(
    m: Model<S, I, O>, all: seq<Node<I, O>>, ops: seq<Operation<I, O>>, calls: seq<nat>,
    stack: seq<CallsEntry<I, O, S>>)
    requires NodesOk(all, ops) && Partial(m, ops, calls) && StackOk(m, all, ops, calls, stack)
    ensures |stack| == |calls| && NoDuplicates(calls) && InRange(calls, |ops|)
    ensures forall k | 0 <= k < |stack| :: stack[k].entry.id == calls[k]
  {
    PartialIsDistinct(m, ops, calls);
  }

  lemma ListedIsLinked<I, O>(all: seq<Node<I, O>>)
    requires all != [] && Listed(all)
    ensures Linked(all, [])
    ensures At(all, 1) == At(all[1..], 0)
  {
  }

  lemma PackStored<S(!new), I, O>(
    m: Model<S, I, O>, all: seq<Node<I, O>>, ops: seq<Operation<I, O>>, explored: set<Pair<S>>, calls: seq<nat>,
    linearized: array<uint64>, table: Table<S>)
    requires InRange(calls, |ops|)
    requires Linked(all, Path(ops, calls))
    requires Members(linearized[..]) == Ids(calls)
    requires |ops| <= 64 * linearized.Length
    requires table.Valid() && table.width == linearized.Length && linearized !in table.Repr
    requires table.pairs == explored + StackPairs(m, ops, calls)
    ensures Stored(m, all, ops, explored, calls, linearized, table)
  {
  }

  /** Before the first turn of the loop. */
  lemma Begin<S(!new), I, O>(
    m: Model<S, I, O>, all: seq<Node<I, O>>, ops: seq<Operation<I, O>>, longest: seq<Option<seq<nat>>>)
    requires NodesOk(all, ops)
    requires |longest| == |ops| && forall id | 0 <= id < |longest| :: longest[id].None?
    ensures InRange([], |ops|) && Searching(m, all, ops, {}, [], 0, [], m.init)
    ensures Cursor(all, ops, [], 0) && Path(ops, []) == [] && Ids([]) == {} && StackPairs(m, ops, []) == {}
    ensures Recorded(m, ops, {}, longest) && Reported(m, ops, longest)
  {
    Start(m, ops, 0);
    assert Elems(Path(ops, [])) == {};
  }

  /** Giving up with an empty stack: everything was tried. */
  lemma Fail<S(!new), I(!new), O(!new)>(
    m: Model<S, I, O>, all: seq<Node<I, O>>, ops: seq<Operation<I, O>>, explored: set<Pair<S>>, calls: seq<nat>,
    at: int, stack: seq<CallsEntry<I, O, S>>, state: S, blocker: nat)
    requires Congruence(m) && WellTimed(ops)
    requires Searching(m, all, ops, explored, calls, at, stack, state) && stack == []
    requires blocker < |ops| && blocker !in Ids(calls) && ops[blocker].ret == at
    ensures Exhausted(m, ops, explored) && !Linearizable(m, ops)
  {
    assert calls == [] && Ids(calls) == {};
    AllTried(m, ops, explored, calls, at, blocker);
    ExhaustedMeansNotLinearizable(m, ops, explored);
    LinearizableIffCompletePartial(m, ops);
  }

  lemma CompleteIsOptimal<S(!new), I(!new), O(!new)>(
    m: Model<S, I, O>, ops: seq<Operation<I, O>>, calls: seq<nat>, longest: seq<Option<seq<nat>>>)
    requires Partial(m, ops, calls) && |calls| == |ops| == |longest|
    requires forall id | 0 <= id < |ops| :: longest[id] == Some(calls)
    ensures Optimal(m, ops, longest) && Reported(m, ops, longest)
  {
    PartialIsDistinct(m, ops, calls);
    assert Ids(calls) <= AllIds(|ops|);
    SubsetFull(Ids(calls), |ops|);
    forall id: nat | id < |ops| ensures id in calls {
      assert id in Ids(calls);
    }
    forall order, id: nat | Partial(m, ops, order) && id in order ensures id < |ops| && |order| <= |calls| {
      PartialInUniverse(m, ops, order);
    }
  }

  /** Leaving the loop with an empty list: the stack is a complete linearization. */
  lemma Succeed<S(!new), I(!new), O(!new)>(
    m: Model<S, I, O>, all: seq<Node<I, O>>, ops: seq<Operation<I, O>>, explored: set<Pair<S>>, calls: seq<nat>,
    at: int, stack: seq<CallsEntry<I, O, S>>, state: S, linearized: array<uint64>, table: Table<S>)
    requires InRange(calls, |ops|) && Searching(m, all, ops, explored, calls, at, stack, state)
    requires Stored(m, all, ops, explored, calls, linearized, table)
    requires |all| > 0 && all[0].next == null
    ensures Linearizable(m, ops) && Partial(m, ops, calls) && |calls| == |ops|
    ensures |stack| == |calls| && forall k | 0 <= k < |stack| :: stack[k].entry.id == calls[k]
  {
    hide NodesOk, Path, Partial, StateAfter, Linearizable, SearchInv, StackOk, Linked;
    HeadNext(all, Path(ops, calls));
    EmptyListIsComplete(m, all, ops, calls);
    CompletePartialIsLinearization(m, ops, calls);
    StackIds(m, all, ops, calls, stack);
  }

  /** At the top of the loop body: the entry is a live one, and what it is tells which branch may run. */
  lemma AtEntry<S(!new), I, O>(
    m: Model<S, I, O>, all: seq<Node<I, O>>, ops: seq<Operation<I, O>>, explored: set<Pair<S>>, calls: seq<nat>,
    at: int, stack: seq<CallsEntry<I, O, S>>, state: S, linearized: array<uint64>, table: Table<S>,
    entry: Node?<I, O>)
    requires InRange(calls, |ops|) && Searching(m, all, ops, explored, calls, at, stack, state)
    requires Stored(m, all, ops, explored, calls, linearized, table)
    requires Cursor(all, ops, calls, at) && entry == At(all, at + 1)
    requires |all| > 0 && all[0].next != null
    ensures 0 <= at && at + 1 < |all| && entry == all[at + 1]
    ensures 0 <= entry.id < |ops| && entry.id !in Ids(calls)
    ensures entry.mate == null ==> ops[entry.id].ret == at
    ensures NodesOk(all, ops) && Partial(m, ops, calls) && StackOk(m, all, ops, calls, stack)
    ensures state == StateAfter(m, ops, calls) && |stack| == |calls|
  {
    hide NodesOk, Path, Partial, StateAfter, SearchInv, Linked;
    HeadNext(all, Path(ops, calls));
    AtCall(all, ops, calls, at);
  }

  /** `seq[i] = calls[i].entry.id`. */
  method OrderOf<S, I, O>(stack: seq<CallsEntry<I, O, S>>, ghost calls: seq<nat>) returns (order: seq<nat>)
    requires |stack| == |calls| && forall k | 0 <= k < |stack| :: stack[k].entry.id == calls[k]
    ensures order == calls
  {
    order := [];
    for i := 0 to |stack|
      invariant order == calls[..i]
    {
      order := order + [stack[i].entry.id];
    }
  }

  /** The loop. It ends with a complete order on the stack, with every pair explored, or because it was killed. */
  method Search<S(!new), I(!new), O(!new)>(
    m: Model<S, I, O>, first: Node?<I, O>, headEntry: Node<I, O>, linearized: array<uint64>, table: Table<S>,
    longest: array<Option<seq<nat>>>, computePartial: bool, kill: nat -> bool,
    ghost all: seq<Node<I, O>>, ghost ops: seq<Operation<I, O>>)
    returns (ok: bool, order: seq<nat>)
    requires Congruence(m) && WellTimed(ops)
    requires InRange([], |ops|) && Searching(m, all, ops, {}, [], 0, [], m.init)
    requires Stored(m, all, ops, {}, [], linearized, table)
    requires Cursor(all, ops, [], 0) && first == At(all, 1) && 0 < |all| && headEntry == all[0]
    requires longest.Length == |ops| && Recorded(m, ops, {}, longest[..]) && Reported(m, ops, longest[..])
    modifies all, linearized, table, longest
    ensures Reported(m, ops, longest[..])
    ensures ok ==> Linearizable(m, ops) && Partial(m, ops, order) && |order| == |ops|
    ensures !ok && (forall i :: !kill(i)) ==>
              !Linearizable(m, ops) && (computePartial ==> Optimal(m, ops, longest[..]))
    ensures ok ==> forall i: nat | i < |ops| :: !kill(i)
    ensures old(headEntry.next) != null && kill(0) ==> !ok && longest[..] == old(longest[..])
    ensures !computePartial ==> longest[..] == old(longest[..])
  {
    hide *;
    var entry, stack: seq<CallsEntry<I, O, S>>, state := first, [], m.init;
    ghost var calls: seq<nat>, explored: set<Pair<S>>, at := [], {}, 0;
    var loads := 0;
    while headEntry.next != null
      invariant InRange(calls, |ops|) && Searching(m, all, ops, explored, calls, at, stack, state)
      invariant Stored(m, all, ops, explored, calls, linearized, table)
      invariant Cursor(all, ops, calls, at) && entry == At(all, at + 1)
      invariant Reported(m, ops, longest[..])
      invariant computePartial ==> Recorded(m, ops, explored, longest[..])
      invariant |calls| <= loads && forall i: nat | i < loads :: !kill(i)
      invariant loads == 0 ==> headEntry.next == old(headEntry.next)
      invariant loads == 0 || !computePartial ==> longest[..] == old(longest[..])
      decreases |Universe(m, ops, |ops|) - table.pairs|, |calls|, |all| - at
    {
      if kill(loads) {
        return false, [];
      }
      loads := loads + 1;
      AtEntry(m, all, ops, explored, calls, at, stack, state, linearized, table, entry);
      if entry.mate != null {
        entry, stack, state, calls, at :=
          ConsiderCall(m, entry, headEntry, stack, state, linearized, table, all, ops, explored, calls, at);
      } else {
        ghost var blocker: nat := entry.id;
        if |stack| == 0 {
          Fail(m, all, ops, explored, calls, at, stack, state, blocker);
          if computePartial {
            ExhaustedMeansOptimal(m, ops, explored, longest[..]);
          }
          return false, [];
        }
        if computePartial {
          StackIds(m, all, ops, calls, stack);
          ghost var before := longest[..];
          RecordLongest(stack, longest, calls);
          RecordedAfter(m, ops, explored, calls, before, longest[..]);
        }
        entry, stack, state, at := Backtrack(m, stack, linearized, table, all, ops, explored, calls, at, blocker);
        explored := explored + {(Ids(calls), StateAfter(m, ops, calls))};
        calls := calls[..|calls| - 1];
      }
    }
    Succeed(m, all, ops, explored, calls, at, stack, state, linearized, table);
    order := OrderOf(stack, calls);
    ok := true;
  }

  lemma BuiltLength<I, O>(h: seq<Entry<I, O>>, ix: Index, nodes: seq<Node<I, O>>)
    requires Built(h, ix, 0, nodes)
    ensures |nodes| == |h|
  {
  }

  lemma TheOps<I, O>(h: seq<Entry<I, O>>)
    requires WellFormed(h)
    ensures OpsOf(h) == OpsAt(h, TheIndex(h))
    ensures WellTimed(OpsOf(h)) && |h| == 2 * |OpsOf(h)|
  {
  }

  /** No operation has a record. */
  ghost predicate NoneRecorded(longest: seq<Option<seq<nat>>>) {
    forall id | 0 <= id < |longest| :: longest[id].None?
  }

  /** Every operation has the same complete order for its record. */
  ghost predicate AllRecorded(n: nat, order: seq<nat>, longest: seq<Option<seq<nat>>>) {
    |order| == |longest| == n && forall id | 0 <= id < n :: longest[id] == Some(order)
  }

  lemma NothingYet(longest: seq<Option<seq<nat>>>)
    requires forall id | 0 <= id < |longest| :: longest[id] == None
    ensures NoneRecorded(longest)
  {
  }

  lemma OneForAll(n: nat, order: seq<nat>, longest: seq<Option<seq<nat>>>)
    requires |order| == n && longest == seq(n, _ => Some(order))
    ensures AllRecorded(n, order, longest)
  {
  }

  lemma FirstOfList<I, O>(all: seq<Node<I, O>>, h: seq<Entry<I, O>>)
    requires Listed(all) && |all| == |h| + 1
    ensures h != [] ==> all[0].next != null
  {
    assert all[0].next == At(all, 1);
  }

  /** Lines 182-189 and the loop: sets the search up on the list and runs it. */
  method SearchList<S(!new), I(!new), O(!new)>(
    m: Model<S, I, O>, first: Node?<I, O>, n: nat, computePartial: bool, kill: nat -> bool,
    ghost history: seq<Entry<I, O>>, ghost ix: Index, ghost nodes: seq<Node<I, O>>)
    returns (ok: bool, order: seq<nat>, longest: seq<Option<seq<nat>>>)
    requires Congruence(m) && Indexes(history, ix) && n == |ix.calls|
    requires Listed(nodes) && first == At(nodes, 0) && Built(history, ix, 0, nodes)
    modifies nodes
    ensures Reported(m, OpsAt(history, ix), longest)
    ensures ok ==> Linearizable(m, OpsAt(history, ix)) && Partial(m, OpsAt(history, ix), order) && |order| == n
    ensures !ok && (forall i :: !kill(i)) ==>
              !Linearizable(m, OpsAt(history, ix)) && (computePartial ==> Optimal(m, OpsAt(history, ix), longest))
    ensures ok ==> forall i: nat | i < n :: !kill(i)
    ensures history != [] && kill(0) ==> !ok && NoneRecorded(longest)
    ensures !computePartial ==> NoneRecorded(longest)
  {
    hide *;
    ghost var ops := OpsAt(history, ix);
    BuiltLength(history, ix, nodes);
    var linearized := NewBitset(n);
    var table := new Table<S>(linearized.Length);
    var records := new Option<seq<nat>>[n](_ => None);
    var headEntry := new Node<I, O>(Nothing, null, -1);
    Prepend(headEntry, first, nodes);
    ghost var all := [headEntry] + nodes;
    NodesAreOk(history, ix, nodes, headEntry);
    ListedIsLinked(all);
    Begin(m, all, ops, records[..]);
    assert all[1..] == nodes;
    PackStored(m, all, ops, {}, [], linearized, table);
    FirstOfList(all, history);
    NothingYet(records[..]);
    ok, order := Search(m, first, headEntry, linearized, table, records, computePartial, kill, all, ops);
    longest := records[..];
  }

  /**
   Decides whether the history is linearizable. `kill(i)` is the value read from the shared kill flag at turn `i`.
   A search that is not killed answers true exactly when the history is linearizable, although it prunes.
   */
  method CheckSingle<S(!new), I(!new), O(!new)>(
    m: Model<S, I, O>, history: seq<Entry<I, O>>, computePartial: bool, kill: nat -> bool)
    returns (ok: bool, partials: seq<Option<seq<nat>>>)
    requires WellFormed(history) && Congruence(m)
    ensures ok ==> Linearizable(m, OpsOf(history))
    ensures !ok ==> !Linearizable(m, OpsOf(history)) || exists i :: kill(i)
    ensures Reported(m, OpsOf(history), partials)
    ensures ok || (computePartial && forall i :: !kill(i)) ==> Optimal(m, OpsOf(history), partials)
    ensures ok ==> forall i: nat | i < |OpsOf(history)| :: !kill(i)
    ensures history != [] && kill(0) ==> !ok && NoneRecorded(partials)
    ensures !ok && !computePartial ==> NoneRecorded(partials)
    ensures ok ==> exists order :: Partial(m, OpsOf(history), order) && AllRecorded(|OpsOf(history)|, order, partials)
  {
    hide *;
    ghost var ix, ops := TheIndex(history), OpsOf(history);
    TheOps(history);
    var first, nodes := MakeLinkedEntries(history, ix);
    var l := Length(first, nodes);
    BuiltLength(history, ix, nodes);
    var n := l / 2;
    var order, longest;
    ok, order, longest := SearchList(m, first, n, computePartial, kill, history, ix, nodes);
    if ok {
      partials := seq(n, _ => Some(order));
      CompleteIsOptimal(m, ops, order, partials);
      OneForAll(n, order, partials);
    } else {
      partials := longest;
    }
  }
}
