/**
 Call and return entries, and the linked list made from them
 (Lab3/src/porcupine/checker.go, `makeLinkedEntries`, `insertBefore`, `length`).
 */
module Entries {
  import opened Linearizability
  import opened LinkedHistory
  import opened Sorting
  import opened SearchTheory

  datatype Entry<I, O> =
    | CallEntry(input: I, id: nat, time: int, clientId: int)
    | ReturnEntry(output: O, id: nat, time: int, clientId: int)

  /** Where each identifier's call and return stand. */
  datatype Index = Index(calls: seq<nat>, rets: seq<nat>)

  /** Every identifier has one call and one return, in that order, and nothing else is in the history. */
  ghost predicate Indexes<I, O>(h: seq<Entry<I, O>>, ix: Index) {
    && |ix.calls| == |ix.rets| && |h| == 2 * |ix.calls|
    && (forall id | 0 <= id < |ix.calls| ::
          && ix.calls[id] < ix.rets[id] < |h|
          && h[ix.calls[id]].CallEntry? && h[ix.calls[id]].id == id
          && h[ix.rets[id]].ReturnEntry? && h[ix.rets[id]].id == id)
    && (forall p | 0 <= p < |h| ::
          h[p].id < |ix.calls| && p == if h[p].CallEntry? then ix.calls[h[p].id] else ix.rets[h[p].id])
  }

  ghost predicate WellFormed<I, O>(h: seq<Entry<I, O>>) {
    exists ix :: Indexes(h, ix)
  }

  /** The operations of a history, with positions in the history as their times. */
  ghost function OpsAt<I, O>(h: seq<Entry<I, O>>, ix: Index): (ops: seq<Operation<I, O>>)
    requires Indexes(h, ix)
    ensures |ops| == |ix.calls| && WellTimed(ops) && Positions(ops)
  {
    seq(|ix.calls|, id requires 0 <= id < |ix.calls| =>
      var c, r := h[ix.calls[id]], h[ix.rets[id]];
      Operation(c.clientId, c.input, ix.calls[id], r.output, ix.rets[id]))
  }

  lemma IndexIsUnique<I, O>(h: seq<Entry<I, O>>, a: Index, b: Index)
    requires Indexes(h, a) && Indexes(h, b)
    ensures a == b
  {
    assert |a.calls| == |b.calls|;
    forall id | 0 <= id < |a.calls| ensures a.calls[id] == b.calls[id] && a.rets[id] == b.rets[id] {
      assert h[a.calls[id]].id == id && h[a.rets[id]].id == id;
    }
  }

  ghost function TheIndex<I, O>(h: seq<Entry<I, O>>): (ix: Index)
    requires WellFormed(h)
    ensures Indexes(h, ix)
  {
    var ix :| Indexes(h, ix);
    ix
  }

  ghost function OpsOf<I, O>(h: seq<Entry<I, O>>): seq<Operation<I, O>>
    requires WellFormed(h)
  {
    OpsAt(h, TheIndex(h))
  }

  // ----- Building the list -----

  method InsertBefore<I, O>(n: Node<I, O>, mark: Node?<I, O>)
    requires n != mark && (mark != null ==> n != mark.prev && mark.prev != mark)
    modifies n, if mark == null then {} else {mark, mark.prev}
    ensures mark == null ==> n.next == old(n.next) && n.prev == old(n.prev)
    ensures mark != null ==> n.next == mark && mark.prev == n && mark.next == old(mark.next)
    ensures mark != null && old(mark.prev) == null ==> n.prev == old(n.prev)
    ensures mark != null && old(mark.prev) != null ==>
              n.prev == old(mark.prev) && n.prev.next == n && n.prev.prev == old(mark.prev.prev)
  {
    if mark != null {
      var beforeMark := mark.prev;
      mark.prev := n;
      n.next := mark;
      if beforeMark != null {
        n.prev := beforeMark;
        beforeMark.next := n;
      }
    }
  }

  ghost predicate Listed<I, O>(nodes: seq<Node<I, O>>)
    reads set x | x in nodes
  {
    && NoDuplicates(nodes)
    && forall k | 0 <= k < |nodes| :: nodes[k].next == At(nodes, k + 1) && nodes[k].prev == At(nodes, k - 1)
  }

  /** Puts a new node in front of a list that starts with `root`. */
  method Prepend<I, O>(n: Node<I, O>, root: Node?<I, O>, ghost nodes: seq<Node<I, O>>)
    requires Listed(nodes) && root == At(nodes, 0)
    requires n !in nodes && n.next == null && n.prev == null
    modifies n, nodes
    ensures Listed([n] + nodes)
  {
    ghost var all := [n] + nodes;
    InsertBefore(n, root);
    forall k | 0 <= k < |all| ensures all[k].next == At(all, k + 1) && all[k].prev == At(all, k - 1) {
      if k > 0 {
        assert all[k] == nodes[k - 1];
        assert old(nodes[k - 1].next) == At(nodes, k);
      }
    }
  }

  function ValueOf<I, O>(e: Entry<I, O>): Value<I, O> {
    match e
    case CallEntry(input, _, _, _) => Input(input)
    case ReturnEntry(output, _, _, _) => Output(output)
  }

  /** `nodes` are the nodes of `h[i..]`: a call node points to the node of its return. */
  ghost predicate Built<I, O>(h: seq<Entry<I, O>>, ix: Index, i: int, nodes: seq<Node<I, O>>) {
    && Indexes(h, ix)
    && 0 <= i && i + |nodes| == |h|
    && forall k | 0 <= k < |nodes| :: Represents(h, ix, i, nodes, k)
  }

  ghost predicate Represents<I, O>(h: seq<Entry<I, O>>, ix: Index, i: int, nodes: seq<Node<I, O>>, k: int)
    requires Indexes(h, ix) && 0 <= i && i + |nodes| == |h| && 0 <= k < |nodes|
  {
    && nodes[k].id == h[i + k].id
    && nodes[k].value == ValueOf(h[i + k])
    && nodes[k].mate == if h[i + k].CallEntry? then At(nodes, ix.rets[h[i + k].id] - i) else null
  }

  lemma BuiltExtend<I, O>(h: seq<Entry<I, O>>, ix: Index, i: int, nodes: seq<Node<I, O>>, n: Node<I, O>)
    requires Built(h, ix, i, nodes) && i > 0
    requires n.id == h[i - 1].id && n.value == ValueOf(h[i - 1])
    requires n.mate == if h[i - 1].CallEntry? then At(nodes, ix.rets[h[i - 1].id] - i) else null
    ensures Built(h, ix, i - 1, [n] + nodes)
  {
    var all, j := [n] + nodes, i - 1;
    forall k | 0 <= k < |all| ensures Represents(h, ix, j, all, k) {
      if k > 0 {
        assert all[k] == nodes[k - 1];
        assert Represents(h, ix, i, nodes, k - 1);
        var e := h[i + (k - 1)];
        assert e == h[i - 1 + k];
        assert ix.calls[e.id] < ix.rets[e.id];
      } else {
        var e := h[i - 1];
        assert e.CallEntry? ==> ix.calls[e.id] == i - 1 && i <= ix.rets[e.id] < |h|;
      }
    }
  }

  /** `mates` knows the node of every return that has been built. */
  ghost predicate MatesKnown<I, O>(ix: Index, i: int, nodes: seq<Node<I, O>>, mates: map<int, Node<I, O>>) {
    forall id | 0 <= id < |ix.rets| && ix.rets[id] >= i :: id in mates && mates[id] == At(nodes, ix.rets[id] - i)
  }

  lemma MatesExtend<I, O>(
    h: seq<Entry<I, O>>, ix: Index, i: int, nodes: seq<Node<I, O>>, mates: map<int, Node<I, O>>, n: Node<I, O>)
    requires Built(h, ix, i, nodes) && i > 0 && MatesKnown(ix, i, nodes, mates)
    ensures h[i - 1].ReturnEntry? ==> MatesKnown(ix, i - 1, [n] + nodes, mates[h[i - 1].id := n])
    ensures h[i - 1].CallEntry? ==> MatesKnown(ix, i - 1, [n] + nodes, mates)
  {
    var e := h[i - 1];
    var after := if e.ReturnEntry? then mates[e.id := n] else mates;
    forall id | 0 <= id < |ix.rets| && ix.rets[id] >= i - 1
      ensures id in after && after[id] == At([n] + nodes, ix.rets[id] - (i - 1))
    {
      assert h[ix.rets[id]].id == id && h[ix.rets[id]].ReturnEntry?;
    }
  }

  lemma MateIsKnown<I, O>(
    h: seq<Entry<I, O>>, ix: Index, i: int, nodes: seq<Node<I, O>>, mates: map<int, Node<I, O>>)
    requires Built(h, ix, i, nodes) && 0 < i <= |h| && MatesKnown(ix, i, nodes, mates)
    ensures var e := h[i - 1];
            e.id < |ix.rets| &&
            (e.CallEntry? ==> e.id in mates && mates[e.id] == At(nodes, ix.rets[e.id] - i))
  {
    var e := h[i - 1];
    assert e.CallEntry? ==> ix.calls[e.id] == i - 1;
  }

  lemma BuiltNothing<I, O>(h: seq<Entry<I, O>>, ix: Index)
    requires Indexes(h, ix)
    ensures Built<I, O>(h, ix, |h|, [])
    ensures MatesKnown<I, O>(ix, |h|, [], map[])
    ensures Listed<I, O>([])
  {
  }

  /** One turn of the loop: makes the node of an entry and puts it in front of the list. */
  method PrependEntry<I, O>(
    elem: Entry<I, O>, mates: map<int, Node<I, O>>, root: Node?<I, O>, ghost nodes: seq<Node<I, O>>)
    returns (n: Node<I, O>, mates': map<int, Node<I, O>>)
    requires Listed(nodes) && root == At(nodes, 0)
    modifies nodes
    ensures fresh(n) && Listed([n] + nodes)
    ensures n.id == elem.id && n.value == ValueOf(elem)
    ensures n.mate == if elem.CallEntry? && elem.id in mates then mates[elem.id] else null
    ensures mates' == if elem.ReturnEntry? then mates[elem.id := n] else mates
  {
    if elem.ReturnEntry? {
      n := new Node(Output(elem.output), null, elem.id);
      mates' := mates[elem.id := n];
    } else {
      n := new Node(Input(elem.input), if elem.id in mates then mates[elem.id] else null, elem.id);
      mates' := mates;
    }
    Prepend(n, root, nodes);
  }

  method MakeLinkedEntries<I, O>(entries: seq<Entry<I, O>>, ghost ix: Index)
    returns (root: Node?<I, O>, ghost nodes: seq<Node<I, O>>)
    requires Indexes(entries, ix)
    ensures forall k | 0 <= k < |nodes| :: fresh(nodes[k])
    ensures Listed(nodes) && root == At(nodes, 0)
    ensures Built(entries, ix, 0, nodes)
  {
    hide Indexes, Built, Listed;
    BuiltNothing(entries, ix);
    root, nodes := null, [];
    var mates: map<int, Node<I, O>> := map[];
    var i := |entries|;
    while i > 0
      invariant 0 <= i <= |entries|
      invariant Listed(nodes) && root == At(nodes, 0)
      invariant forall k | 0 <= k < |nodes| :: fresh(nodes[k])
      invariant Built(entries, ix, i, nodes)
      invariant MatesKnown(ix, i, nodes, mates)
    {
      var elem := entries[i - 1];
      MateIsKnown(entries, ix, i, nodes, mates);
      var n, mates' := PrependEntry(elem, mates, root, nodes);
      BuiltExtend(entries, ix, i, nodes, n);
      MatesExtend(entries, ix, i, nodes, mates, n);
      root, nodes, mates, i := n, [n] + nodes, mates', i - 1;
    }
  }

  method Length<I, O>(first: Node?<I, O>, ghost nodes: seq<Node<I, O>>) returns (l: nat)
    requires Listed(nodes) && first == At(nodes, 0)
    ensures l == |nodes|
  {
    var n := first;
    l := 0;
    while n != null
      invariant l <= |nodes| && n == At(nodes, l)
      decreases |nodes| - l
    {
      n := n.next;
      l := l + 1;
    }
  }
}
