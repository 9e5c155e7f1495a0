/**
 One partition of `checkEvents` (Lab3/src/porcupine/checker.go): events are renumbered, become entries in the order
 they have, and the entries are searched.
 */
module EventCheck {
  import opened Linearizability
  import opened SearchTheory
  import opened Entries
  import opened Checker
  import opened Options
  import opened Sorting

  datatype Event<I, O> =
    | CallEvent(input: I, id: int, clientId: int)
    | ReturnEvent(output: O, id: int, clientId: int)

  /** The identifiers in the order in which they first appear. */
  function Firsts<I, O>(events: seq<Event<I, O>>): (ids: seq<int>)
    ensures NoDuplicates(ids)
  {
    if events == [] then []
    else
      var ids, id := Firsts(events[..|events| - 1]), events[|events| - 1].id;
      if id in ids then ids else ids + [id]
  }

  /** `e` with its identifier replaced by `number`. */
  function Numbered<I, O>(e: Event<I, O>, number: nat): Event<I, O> {
    e.(id := number)
  }

  /** Each event keeps its kind, value and client; its new identifier is the place of the old one in `ids`. */
  ghost predicate Renumbers<I, O>(events: seq<Event<I, O>>, ids: seq<int>, r: seq<Event<I, O>>) {
    && |r| == |events|
    && forall p | 0 <= p < |r| ::
         0 <= r[p].id < |ids| && ids[r[p].id] == events[p].id && r[p] == Numbered(events[p], r[p].id)
  }

  lemma FirstsSnoc<I, O>(events: seq<Event<I, O>>, i: nat)
    requires i < |events|
    ensures events[..i + 1] == events[..i] + [events[i]]
    ensures Firsts(events[..i + 1]) ==
            Firsts(events[..i]) + if events[i].id in Firsts(events[..i]) then [] else [events[i].id]
  {
    assert events[..i + 1][..i] == events[..i];
  }

  lemma RenumbersSnoc<I, O>(
    events: seq<Event<I, O>>, ids: seq<int>, r: seq<Event<I, O>>, v: Event<I, O>, more: seq<int>, number: nat)
    requires Renumbers(events, ids, r) && number < |ids + more| && (ids + more)[number] == v.id
    ensures Renumbers(events + [v], ids + more, r + [Numbered(v, number)])
  {
  }

  /** The table `m` gives the place of each identifier in `ids`. */
  ghost predicate Places(ids: seq<int>, m: map<int, nat>) {
    && (forall k | 0 <= k < |ids| :: ids[k] in m && m[ids[k]] == k)
    && (forall x | x in m :: m[x] < |ids| && ids[m[x]] == x)
  }

  /** Some event before position `p` has the number `k`. */
  ghost predicate AppearsBefore<I, O>(e: seq<Event<I, O>>, p: int, k: nat)
    requires 0 <= p <= |e|
  {
    exists q | 0 <= q < p :: e[q].id == k
  }

  /** Smaller numbers appear earlier, and all numbers below `id` appear. */
  ghost predicate InOrder<I, O>(e: seq<Event<I, O>>, id: nat) {
    && (forall p, k: nat | 0 <= p < |e| && k < e[p].id :: AppearsBefore(e, p, k))
    && forall k: nat | k < id :: AppearsBefore(e, |e|, k)
  }

  lemma InOrderSnoc<I, O>(e: seq<Event<I, O>>, id: nat, v: Event<I, O>)
    requires InOrder(e, id) && 0 <= v.id <= id
    ensures InOrder(e + [v], if v.id == id then id + 1 else id)
  {
    var e' := e + [v];
    var n := |e'|;
    forall p, k: nat | 0 <= p < |e'| && k < e'[p].id ensures AppearsBefore(e', p, k) {
      assert AppearsBefore(e, p, k);
      var q :| 0 <= q < p && e[q].id == k;
      assert e'[q].id == k;
    }
    forall k: nat | k < id ensures AppearsBefore(e', n, k) {
      assert AppearsBefore(e, |e|, k);
      var q :| 0 <= q < |e| && e[q].id == k;
      assert e'[q].id == k;
    }
    assert e'[|e|].id == v.id;
    assert AppearsBefore(e', n, v.id);
  }

  /** Numbering goes by first appearance, for every history, matched or not. */
  method Renumber<I, O>(events: seq<Event<I, O>>) returns (e: seq<Event<I, O>>)
    ensures Renumbers(events, Firsts(events), e)
    ensures |e| == |events| && forall p | 0 <= p < |e| :: e[p] == events[p].(id := e[p].id)
    ensures forall p, q | 0 <= p < |e| && 0 <= q < |e| :: e[p].id == e[q].id <==> events[p].id == events[q].id
    ensures forall p, k: nat | 0 <= p < |e| && k < e[p].id :: AppearsBefore(e, p, k)
  {
    hide Renumbers, Firsts, NoDuplicates;
    e := [];
    var m: map<int, nat> := map[];
    var id := 0;
    ghost var ids: seq<int> := [];
    NoneRenumbered(events[..0]);
    for i := 0 to |events|
      invariant ids == Firsts(events[..i]) && id == |ids|
      invariant Places(ids, m)
      invariant Renumbers(events[..i], ids, e)
      invariant InOrder(e, id)
    {
      var v := events[i];
      FirstsSnoc(events, i);
      if v.id in m {
        RenumbersSnoc(events[..i], ids, e, v, [], m[v.id]);
        InOrderSnoc(e, id, Numbered(v, m[v.id]));
        e := e + [Numbered(v, m[v.id])];
      } else {
        RenumbersSnoc(events[..i], ids, e, v, [v.id], id);
        InOrderSnoc(e, id, Numbered(v, id));
        e := e + [Numbered(v, id)];
        m := m[v.id := id];
        id := id + 1;
        ids := ids + [v.id];
      }
    }
    assert events[..|events|] == events;
    RenumberedMeans(events, Firsts(events), e);
  }

  lemma RenumberedMeans<I, O>(events: seq<Event<I, O>>, ids: seq<int>, r: seq<Event<I, O>>)
    requires Renumbers(events, ids, r) && NoDuplicates(ids)
    ensures |r| == |events| && forall p | 0 <= p < |r| :: r[p] == events[p].(id := r[p].id)
    ensures forall p, q | 0 <= p < |r| && 0 <= q < |r| :: r[p].id == r[q].id <==> events[p].id == events[q].id
  {
    forall p, q | 0 <= p < |r| && 0 <= q < |r| ensures r[p].id == r[q].id <==> events[p].id == events[q].id {
      assert ids[r[p].id] == events[p].id && ids[r[q].id] == events[q].id;
    }
  }

  lemma NoneRenumbered<I, O>(events: seq<Event<I, O>>)
    requires events == []
    ensures Firsts(events) == [] && Renumbers(events, [], [])
  {
  }

  function EntryOf<I, O>(e: Event<I, O>, i: nat): Entry<I, O>
    requires e.id >= 0
  {
    match e
    case CallEvent(input, id, clientId) => CallEntry(input, id, i, clientId)
    case ReturnEvent(output, id, clientId) => ReturnEntry(output, id, i, clientId)
  }

  /** The position of an event is its time. */
  method ConvertEntries<I, O>(events: seq<Event<I, O>>) returns (entries: seq<Entry<I, O>>)
    requires forall p | 0 <= p < |events| :: events[p].id >= 0
    ensures |entries| == |events|
    ensures forall p | 0 <= p < |events| :: entries[p] == EntryOf(events[p], p)
    ensures forall p | 0 <= p < |events| ::
              && entries[p].time == p && entries[p].id == events[p].id && entries[p].clientId == events[p].clientId
              && match events[p]
                 case CallEvent(input, _, _) => entries[p].CallEntry? && entries[p].input == input
                 case ReturnEvent(output, _, _) => entries[p].ReturnEntry? && entries[p].output == output
  {
    entries := [];
    for i := 0 to |events|
      invariant |entries| == i
      invariant forall p | 0 <= p < i :: entries[p] == EntryOf(events[p], p)
    {
      entries := entries + [EntryOf(events[i], i)];
    }
  }

  /** Every identifier has one call and one return, in that order; `ix` says where they stand. */
  ghost predicate Paired<I, O>(events: seq<Event<I, O>>, ix: Index) {
    var ids := Firsts(events);
    && |ix.calls| == |ix.rets| == |ids| && |events| == 2 * |ids|
    && (forall k | 0 <= k < |ids| ::
          && ix.calls[k] < ix.rets[k] < |events|
          && events[ix.calls[k]].CallEvent? && events[ix.calls[k]].id == ids[k]
          && events[ix.rets[k]].ReturnEvent? && events[ix.rets[k]].id == ids[k])
    && (forall k, p | 0 <= k < |ids| && 0 <= p < |events| && events[p].id == ids[k] ::
          p == if events[p].CallEvent? then ix.calls[k] else ix.rets[k])
  }

  /** The operations that the events describe. */
  ghost function EventOps<I, O>(events: seq<Event<I, O>>, ix: Index): seq<Operation<I, O>>
    requires Paired(events, ix)
  {
    seq(|ix.calls|, k requires 0 <= k < |ix.calls| =>
      var c, r := events[ix.calls[k]], events[ix.rets[k]];
      Operation(c.clientId, c.input, ix.calls[k], r.output, ix.rets[k]))
  }

  lemma NumberIsPlace<I, O>(events: seq<Event<I, O>>, ids: seq<int>, r: seq<Event<I, O>>, p: nat, k: nat)
    requires Renumbers(events, ids, r) && NoDuplicates(ids) && p < |events| && k < |ids| && events[p].id == ids[k]
    ensures r[p].id == k
  {
    assert ids[r[p].id] == ids[k];
  }

  /** Renumbering and converting keeps the meaning: the entries are well formed and hold the same operations. */
  lemma EntriesKeepMeaning<I, O>(
    events: seq<Event<I, O>>, ix: Index, r: seq<Event<I, O>>, entries: seq<Entry<I, O>>)
    requires Paired(events, ix) && Renumbers(events, Firsts(events), r)
    requires |entries| == |r| && forall p | 0 <= p < |r| :: entries[p] == EntryOf(r[p], p)
    ensures WellFormed(entries) && OpsOf(entries) == EventOps(events, ix)
  {
    var ids := Firsts(events);
    forall k | 0 <= k < |ids|
      ensures entries[ix.calls[k]] == EntryOf(Numbered(events[ix.calls[k]], k), ix.calls[k])
      ensures entries[ix.rets[k]] == EntryOf(Numbered(events[ix.rets[k]], k), ix.rets[k])
    {
      NumberIsPlace(events, ids, r, ix.calls[k], k);
      NumberIsPlace(events, ids, r, ix.rets[k], k);
    }
    forall p | 0 <= p < |entries|
      ensures entries[p].id < |ids|
      ensures p == if entries[p].CallEntry? then ix.calls[entries[p].id] else ix.rets[entries[p].id]
    {
      assert entries[p] == EntryOf(Numbered(events[p], r[p].id), p);
    }
    assert Indexes(entries, ix);
    IndexIsUnique(entries, ix, TheIndex(entries));
  }

  /** The search decides linearizability of the operations that the events describe. */
  method CheckPartition<S(!new), I(!new), O(!new)>(
    m: Model<S, I, O>, events: seq<Event<I, O>>, computeInfo: bool, kill: nat -> bool, ghost ix: Index)
    returns (ok: bool, longest: seq<Option<seq<nat>>>)
    requires Paired(events, ix) && Congruence(m)
    ensures ok ==> Linearizable(m, EventOps(events, ix))
    ensures !ok ==> !Linearizable(m, EventOps(events, ix)) || exists i :: kill(i)
    ensures Reported(m, EventOps(events, ix), longest)
    ensures ok || (computeInfo && forall i :: !kill(i)) ==> Optimal(m, EventOps(events, ix), longest)
    ensures ok ==> forall i: nat | i < |EventOps(events, ix)| :: !kill(i)
    ensures events != [] && kill(0) ==> !ok && NoneRecorded(longest)
  {
    hide Paired, Indexes;
    var r := Renumber(events);
    var entries := ConvertEntries(r);
    EntriesKeepMeaning(events, ix, r, entries);
    ok, longest := CheckSingle(m, entries, computeInfo, kill);
  }
}
