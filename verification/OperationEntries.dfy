/**
 From timed operations to sorted entries (Lab3/src/porcupine/checker.go, `byTime`, `makeEntries`).
 */
module OperationEntries {
  import opened Linearizability
  import opened Entries
  import opened Sorting

  /** `byTime.Less`: at equal times a call comes before a return. */
  predicate Less<I, O>(a: Entry<I, O>, b: Entry<I, O>) {
    a.time < b.time || (a.time == b.time && a.CallEntry? && b.ReturnEntry?)
  }

  predicate NotAfter<I, O>(a: Entry<I, O>, b: Entry<I, O>) {
    !Less(b, a)
  }

  function CallOf<I, O>(ops: seq<Operation<I, O>>, id: nat): Entry<I, O>
    requires id < |ops|
  {
    CallEntry(ops[id].input, id, ops[id].call, ops[id].clientId)
  }

  function ReturnOf<I, O>(ops: seq<Operation<I, O>>, id: nat): Entry<I, O>
    requires id < |ops|
  {
    ReturnEntry(ops[id].output, id, ops[id].ret, ops[id].clientId)
  }

  /** The entries of the first `k` operations, unsorted: call and return in turn. */
  function Unsorted<I, O>(ops: seq<Operation<I, O>>, k: nat): (entries: seq<Entry<I, O>>)
    requires k <= |ops|
    ensures |entries| == 2 * k
  {
    if k == 0 then [] else Unsorted(ops, k - 1) + [CallOf(ops, k - 1)] + [ReturnOf(ops, k - 1)]
  }

  /** `sort.Sort(byTime(entries))`. */
  function SortByTime<I(!new), O(!new)>(entries: seq<Entry<I, O>>): (r: seq<Entry<I, O>>)
    ensures multiset(r) == multiset(entries)
    ensures SortedBy(NotAfter, r)
  {
    assert TotalPreorder<Entry<I, O>>(NotAfter);
    Sort(NotAfter, entries)
  }

  lemma HasEveryEntry<I, O>(history: seq<Operation<I, O>>, entries: seq<Entry<I, O>>)
    requires Arranges(history, entries)
    ensures |entries| == 2 * |history|
    ensures forall id: nat | id < |history| ::
              var op := history[id];
              && CallEntry(op.input, id, op.call, op.clientId) in entries
              && ReturnEntry(op.output, id, op.ret, op.clientId) in entries
  {
    ArrangedHasNoDuplicates(history, entries);
    forall id: nat | id < |history|
      ensures var op := history[id];
              && CallEntry(op.input, id, op.call, op.clientId) in entries
              && ReturnEntry(op.output, id, op.ret, op.clientId) in entries
    {
      ArrangedMember(history, entries, CallOf(history, id));
      ArrangedMember(history, entries, ReturnOf(history, id));
    }
  }

  /** `entries` holds the call and the return of every operation, sorted. */
  ghost predicate Arranges<I, O>(ops: seq<Operation<I, O>>, entries: seq<Entry<I, O>>) {
    multiset(entries) == multiset(Unsorted(ops, |ops|)) && SortedBy(NotAfter, entries)
  }

  method MakeEntries<I(!new), O(!new)>(history: seq<Operation<I, O>>) returns (entries: seq<Entry<I, O>>)
    ensures Arranges(history, entries)
    ensures |entries| == 2 * |history|
    ensures forall id: nat | id < |history| ::
              var op := history[id];
              && CallEntry(op.input, id, op.call, op.clientId) in entries
              && ReturnEntry(op.output, id, op.ret, op.clientId) in entries
  {
    hide SortedBy, Unsorted, Arranges;
    entries := [];
    var id := 0;
    NoEntries(history);
    while id < |history|
      invariant id <= |history| && entries == Unsorted(history, id)
    {
      var elem := history[id];
      entries := entries + [CallEntry(elem.input, id, elem.call, elem.clientId)];
      entries := entries + [ReturnEntry(elem.output, id, elem.ret, elem.clientId)];
      TwoMoreEntries(history, id);
      id := id + 1;
    }
    entries := SortByTime(entries);
    SortedArranges(history, entries);
    HasEveryEntry(history, entries);
  }

  lemma NoEntries<I, O>(ops: seq<Operation<I, O>>)
    ensures Unsorted(ops, 0) == []
  {
  }

  lemma TwoMoreEntries<I, O>(ops: seq<Operation<I, O>>, k: nat)
    requires k < |ops|
    ensures Unsorted(ops, k + 1) == Unsorted(ops, k) + [CallOf(ops, k)] + [ReturnOf(ops, k)]
  {
  }

  lemma SortedArranges<I, O>(ops: seq<Operation<I, O>>, entries: seq<Entry<I, O>>)
    requires multiset(entries) == multiset(Unsorted(ops, |ops|)) && SortedBy(NotAfter, entries)
    ensures Arranges(ops, entries)
  {
  }

  // ----- A sorted arrangement is a well-formed history of the same shape -----

  lemma {:induction false} UnsortedMember<I, O>(ops: seq<Operation<I, O>>, k: nat, e: Entry<I, O>)
    requires k <= |ops|
    ensures e in Unsorted(ops, k) <==> e.id < k && (e == CallOf(ops, e.id) || e == ReturnOf(ops, e.id))
  {
    if k > 0 {
      UnsortedMember(ops, k - 1, e);
    }
  }

  lemma {:induction false} UnsortedNoDuplicates<I, O>(ops: seq<Operation<I, O>>, k: nat)
    requires k <= |ops|
    ensures NoDuplicates(Unsorted(ops, k))
  {
    if k > 0 {
      UnsortedNoDuplicates(ops, k - 1);
      UnsortedMember(ops, k - 1, CallOf(ops, k - 1));
      UnsortedMember(ops, k - 1, ReturnOf(ops, k - 1));
    }
  }

  lemma ArrangedMember<I, O>(ops: seq<Operation<I, O>>, entries: seq<Entry<I, O>>, e: Entry<I, O>)
    requires Arranges(ops, entries)
    ensures e in entries <==> e.id < |ops| && (e == CallOf(ops, e.id) || e == ReturnOf(ops, e.id))
  {
    UnsortedMember(ops, |ops|, e);
    PermutationMembers(entries, Unsorted(ops, |ops|), e);
  }

  /** `ix` says where the call and the return of each operation stand. */
  ghost predicate Standing<I, O>(ops: seq<Operation<I, O>>, entries: seq<Entry<I, O>>, ix: Index) {
    && |ix.calls| == |ix.rets| == |ops|
    && forall id | 0 <= id < |ops| ::
         && ix.calls[id] < |entries| && entries[ix.calls[id]] == CallOf(ops, id)
         && ix.rets[id] < |entries| && entries[ix.rets[id]] == ReturnOf(ops, id)
  }

  lemma PositionsOf<I, O>(ops: seq<Operation<I, O>>, entries: seq<Entry<I, O>>) returns (ix: Index)
    requires Arranges(ops, entries)
    ensures Standing(ops, entries, ix)
  {
    var calls: seq<nat>, rets: seq<nat> := [], [];
    for k := 0 to |ops|
      invariant |calls| == |rets| == k
      invariant forall id | 0 <= id < k ::
                  && calls[id] < |entries| && entries[calls[id]] == CallOf(ops, id)
                  && rets[id] < |entries| && entries[rets[id]] == ReturnOf(ops, id)
    {
      ArrangedMember(ops, entries, CallOf(ops, k));
      ArrangedMember(ops, entries, ReturnOf(ops, k));
      var c: nat :| c < |entries| && entries[c] == CallOf(ops, k);
      var r: nat :| r < |entries| && entries[r] == ReturnOf(ops, k);
      calls, rets := calls + [c], rets + [r];
    }
    ix := Index(calls, rets);
  }

  /** Sorting by time puts a return before a call exactly when the one operation precedes the other. */
  lemma SortedPositions<I, O>(
    ops: seq<Operation<I, O>>, entries: seq<Entry<I, O>>, r: nat, c: nat, a: nat, b: nat)
    requires SortedBy(NotAfter, entries) && r < |entries| && c < |entries| && a < |ops| && b < |ops|
    requires entries[r] == ReturnOf(ops, a) && entries[c] == CallOf(ops, b)
    ensures r < c <==> ops[a].ret < ops[b].call
  {
    assert r != c;
    if r < c {
      assert NotAfter(entries[r], entries[c]);
    } else {
      assert NotAfter(entries[c], entries[r]);
    }
  }

  lemma EveryEntryIsAt<I, O>(ops: seq<Operation<I, O>>, entries: seq<Entry<I, O>>, ix: Index, p: nat)
    requires Arranges(ops, entries) && Standing(ops, entries, ix) && NoDuplicates(entries) && p < |entries|
    ensures entries[p].id < |ix.calls|
    ensures p == if entries[p].CallEntry? then ix.calls[entries[p].id] else ix.rets[entries[p].id]
  {
    ArrangedMember(ops, entries, entries[p]);
  }

  lemma ArrangedHasNoDuplicates<I, O>(ops: seq<Operation<I, O>>, entries: seq<Entry<I, O>>)
    requires Arranges(ops, entries)
    ensures NoDuplicates(entries) && |entries| == 2 * |ops|
  {
    hide SortedBy, NoDuplicates;
    UnsortedNoDuplicates(ops, |ops|);
    PermutationNoDuplicates(Unsorted(ops, |ops|), entries);
    assert |entries| == |multiset(entries)| == 2 * |ops|;
  }

  lemma AtIndexes<I, O>(ops: seq<Operation<I, O>>, entries: seq<Entry<I, O>>, ix: Index)
    requires Arranges(ops, entries) && WellTimed(ops) && Standing(ops, entries, ix)
    ensures Indexes(entries, ix)
  {
    ArrangedHasNoDuplicates(ops, entries);
    hide NoDuplicates, SortedBy, Unsorted;
    forall p | 0 <= p < |entries|
      ensures entries[p].id < |ix.calls|
      ensures p == if entries[p].CallEntry? then ix.calls[entries[p].id] else ix.rets[entries[p].id]
    {
      EveryEntryIsAt(ops, entries, ix, p);
    }
    forall id | 0 <= id < |ops| ensures ix.calls[id] < ix.rets[id] {
      SortedPositions(ops, entries, ix.rets[id], ix.calls[id], id, id);
    }
  }

  lemma ArrangedIsIndexed<I, O>(ops: seq<Operation<I, O>>, entries: seq<Entry<I, O>>) returns (ix: Index)
    requires Arranges(ops, entries) && WellTimed(ops)
    ensures Indexes(entries, ix)
    ensures SameShape(OpsAt(entries, ix), ops)
  {
    hide SortedBy, Unsorted, Indexes;
    ix := PositionsOf(ops, entries);
    AtIndexes(ops, entries, ix);
    var at := OpsAt(entries, ix);
    forall i, j | 0 <= i < |ops| && 0 <= j < |ops| ensures Precedes(at, i, j) <==> Precedes(ops, i, j) {
      SortedPositions(ops, entries, ix.rets[i], ix.calls[j], i, j);
    }
  }

  /** The entries of an operation history are well formed and stand for the same linearizability question. */
  lemma ArrangedEntriesAgree<S, I(!new), O(!new)>(
    m: Model<S, I, O>, ops: seq<Operation<I, O>>, entries: seq<Entry<I, O>>)
    requires Arranges(ops, entries) && WellTimed(ops)
    ensures WellFormed(entries)
    ensures |OpsOf(entries)| == |ops| && |entries| == 2 * |ops|
    ensures forall order :: Partial(m, OpsOf(entries), order) <==> Partial(m, ops, order)
    ensures Linearizable(m, OpsOf(entries)) <==> Linearizable(m, ops)
  {
    ArrangedHasNoDuplicates(ops, entries);
    var ix := ArrangedIsIndexed(ops, entries);
    IndexIsUnique(entries, ix, TheIndex(entries));
    var at := OpsOf(entries);
    forall order ensures Partial(m, at, order) <==> Partial(m, ops, order) {
      PartialSameShape(m, at, ops, order);
    }
    LinearizableIffCompletePartial(m, at);
    LinearizableIffCompletePartial(m, ops);
  }
}
