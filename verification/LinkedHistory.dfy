/**
 The doubly linked list of entries that `checkSingle` cuts pairs out of and puts back
 (Lab3/src/porcupine/checker.go, `insertBefore`, `lift`, `unlift`).

 `all` lists the nodes in their original order, the head node first. `cut` lists the indices of the nodes that
 are out of the list, oldest first. A node that is out keeps the neighbours it had when it was cut, and that is
 what lets it be put back.
 */
module LinkedHistory {
  import opened Sorting

  datatype Value<I, O> = Nothing | Input(input: I) | Output(output: O)

  class Node<I, O> {
    const value: Value<I, O>
    const mate: Node?<I, O> // the return node of a call node, null for a return node
    const id: int
    var next: Node?<I, O>
    var prev: Node?<I, O>

    constructor (value: Value<I, O>, mate: Node?<I, O>, id: int)
      ensures this.value == value && this.mate == mate && this.id == id
      ensures next == null && prev == null
    {
      this.value, this.mate, this.id := value, mate, id;
      next, prev := null, null;
    }
  }

  // ----- Neighbours in a list with gaps -----

  ghost function NextLive(gone: set<int>, i: int, n: int): (j: int)
    requires i < n
    ensures i < j <= n
    ensures j < n ==> j !in gone
    ensures forall k | i < k < j :: k in gone
    decreases n - i
  {
    if i + 1 == n || i + 1 !in gone then i + 1 else NextLive(gone, i + 1, n)
  }

  ghost function PrevLive(gone: set<int>, i: int): (j: int)
    requires 0 <= i
    ensures -1 <= j < i
    ensures j >= 0 ==> j !in gone
    ensures forall k | j < k < i :: k in gone
    decreases i
  {
    if i == 0 || i - 1 !in gone then i - 1 else PrevLive(gone, i - 1)
  }

  lemma NextPrevInverse(gone: set<int>, i: int, p: int, n: int)
    requires 0 <= i < n && 0 <= p < n && i !in gone && p !in gone
    ensures NextLive(gone, i, n) == p <==> PrevLive(gone, p) == i
  {
  }

  lemma NextLiveIs(gone: set<int>, i: int, n: int, j: int)
    requires i < j <= n && (j < n ==> j !in gone) && forall k | i < k < j :: k in gone
    ensures NextLive(gone, i, n) == j
  {
  }

  lemma PrevLiveIs(gone: set<int>, i: int, j: int)
    requires -1 <= j < i && (j >= 0 ==> j !in gone) && forall k | j < k < i :: k in gone
    ensures PrevLive(gone, i) == j
  {
  }

  lemma NextAfterCut(gone: set<int>, p: int, i: int, n: int)
    requires 0 <= i < n && 0 <= p < n && p !in gone
    ensures NextLive(gone + {p}, i, n) ==
            if NextLive(gone, i, n) == p then NextLive(gone, p, n) else NextLive(gone, i, n)
  {
    var j := if NextLive(gone, i, n) == p then NextLive(gone, p, n) else NextLive(gone, i, n);
    NextLiveIs(gone + {p}, i, n, j);
  }

  lemma PrevAfterCut(gone: set<int>, p: int, i: int)
    requires 0 <= i && 0 <= p && p !in gone
    ensures PrevLive(gone + {p}, i) ==
            if PrevLive(gone, i) == p then PrevLive(gone, p) else PrevLive(gone, i)
  {
    var j := if PrevLive(gone, i) == p then PrevLive(gone, p) else PrevLive(gone, i);
    PrevLiveIs(gone + {p}, i, j);
  }

  // ----- The list -----

  ghost function Elems(cut: seq<int>): set<int> {
    set p | p in cut
  }

  lemma ElemsSnoc(cut: seq<int>, p: int)
    ensures Elems(cut + [p]) == Elems(cut) + {p}
  {
  }

  /** Entries are cut once each; the head node, at index 0, never is. */
  ghost predicate CutOk(cut: seq<int>, n: int) {
    && NoDuplicates(cut)
    && forall k | 0 <= k < |cut| :: 0 < cut[k] < n
  }

  lemma CutInit(cut: seq<int>, n: int)
    requires CutOk(cut, n) && cut != []
    ensures CutOk(cut[..|cut| - 1], n)
    ensures cut[|cut| - 1] !in Elems(cut[..|cut| - 1])
    ensures Elems(cut) == Elems(cut[..|cut| - 1]) + {cut[|cut| - 1]}
  {
    assert cut == cut[..|cut| - 1] + [cut[|cut| - 1]];
  }

  lemma CutSnoc(cut: seq<int>, p: int, n: int)
    requires CutOk(cut + [p], n)
    ensures CutOk(cut, n) && p !in Elems(cut)
  {
    CutInit(cut + [p], n);
    assert (cut + [p])[..|cut|] == cut;
  }

  /** Where the two pointers of each node lead, as indices; -1 and `n` stand for null. */
  datatype Links = Links(next: seq<int>, prev: seq<int>)

  /** The pointers agree with the list from which `gone` is missing, for every node still in it. */
  ghost predicate Threaded(links: Links, gone: set<int>, n: int) {
    && |links.next| == n && |links.prev| == n
    && forall i | 0 <= i < n && i !in gone ::
         links.next[i] == NextLive(gone, i, n) && links.prev[i] == PrevLive(gone, i)
  }

  ghost function CutOut(links: Links, p: int): Links
    requires 0 <= p < |links.next| == |links.prev|
    requires 0 <= links.prev[p] < |links.next|
  {
    var a, b := links.prev[p], links.next[p];
    Links(links.next[a := b], if 0 <= b < |links.prev| then links.prev[b := a] else links.prev)
  }

  lemma CutOutThreaded(links: Links, gone: set<int>, p: int, n: int)
    requires Threaded(links, gone, n) && 0 < p < n && p !in gone && 0 !in gone
    ensures 0 <= links.prev[p] < n
    ensures Threaded(CutOut(links, p), gone + {p}, n)
  {
    forall i | 0 <= i < n && i !in gone + {p}
      ensures CutOut(links, p).next[i] == NextLive(gone + {p}, i, n)
      ensures CutOut(links, p).prev[i] == PrevLive(gone + {p}, i)
    {
      NextAfterCut(gone, p, i, n);
      PrevAfterCut(gone, p, i);
      NextPrevInverse(gone, i, p, n);
      NextPrevInverse(gone, p, i, n);
    }
  }

  /** The pointers after cutting the nodes of `cut` out one after another. */
  ghost function Chain(n: int, cut: seq<int>): (links: Links)
    requires n > 0 && CutOk(cut, n)
    ensures Threaded(links, Elems(cut), n)
    decreases |cut|
  {
    if cut == [] then
      Links(seq(n, i => i + 1), seq(n, i => i - 1))
    else
      var init, p := cut[..|cut| - 1], cut[|cut| - 1];
      CutInit(cut, n);
      CutOutThreaded(Chain(n, init), Elems(init), p, n);
      CutOut(Chain(n, init), p)
  }

  lemma ChainSnoc(n: int, cut: seq<int>, p: int)
    requires n > 0 && CutOk(cut, n) && 0 < p < n && p !in Elems(cut)
    ensures CutOk(cut + [p], n)
    ensures 0 <= Chain(n, cut).prev[p] < n
    ensures Chain(n, cut + [p]) == CutOut(Chain(n, cut), p)
  {
    hide Threaded, Elems;
    assert CutOk(cut + [p], n) by {
      NotCut(cut, p);
    }
    var more := cut + [p];
    assert more[..|more| - 1] == cut && more[|more| - 1] == p;
    HeadIsNotCut(cut, n);
    CutOutThreaded(Chain(n, cut), Elems(cut), p, n);
  }

  lemma NotCut(cut: seq<int>, p: int)
    requires p !in Elems(cut)
    ensures forall k | 0 <= k < |cut| :: cut[k] != p
  {
  }

  lemma HeadIsNotCut(cut: seq<int>, n: int)
    requires CutOk(cut, n)
    ensures 0 !in Elems(cut)
  {
  }

  /** A cut node is its neighbours' neighbour in the list before the cut, so the cut can be undone. */
  lemma NeighboursPointBack(n: int, cut: seq<int>, p: int)
    requires n > 0 && CutOk(cut, n) && 0 < p < n && p !in Elems(cut)
    ensures var links := Chain(n, cut);
            var a, b := links.prev[p], links.next[p];
            && 0 <= a < p && links.next[a] == p
            && p < b <= n && (b < n ==> links.prev[b] == p)
  {
    var gone := Elems(cut);
    var a, b := PrevLive(gone, p), NextLive(gone, p, n);
    assert 0 !in gone;
    NextPrevInverse(gone, a, p, n);
    if b < n {
      NextPrevInverse(gone, p, b, n);
    }
  }

  ghost function At<I, O>(all: seq<Node<I, O>>, j: int): Node?<I, O> {
    if 0 <= j < |all| then all[j] else null
  }

  /** The nodes' pointers are those of `links`. */
  ghost predicate Wired<I, O>(all: seq<Node<I, O>>, links: Links)
    requires |links.next| == |links.prev| == |all|
    reads set x | x in all
  {
    forall i | 0 <= i < |all| :: all[i].next == At(all, links.next[i]) && all[i].prev == At(all, links.prev[i])
  }

  /** The list holds exactly the nodes not in `cut`, and every cut node remembers its neighbours. */
  ghost predicate Linked<I, O>(all: seq<Node<I, O>>, cut: seq<int>)
    reads set x | x in all
  {
    all != [] && NoDuplicates(all) && CutOk(cut, |all|) && Wired(all, Chain(|all|, cut))
  }

  /** Following `next` from a node in the list leads to the next node in the list. */
  lemma LinkedNext<I, O>(all: seq<Node<I, O>>, cut: seq<int>, q: int)
    requires Linked(all, cut) && 0 <= q < |all| && q !in Elems(cut)
    ensures all[q].next == At(all, NextLive(Elems(cut), q, |all|))
  {
  }

  lemma HeadNext<I, O>(all: seq<Node<I, O>>, cut: seq<int>)
    requires Linked(all, cut)
    ensures 0 < |all| && all[0].next == At(all, NextLive(Elems(cut), 0, |all|))
  {
    assert 0 !in Elems(cut);
  }

  /** `n.prev.next = n.next`, and the mirror image when there is a next node. */
  method Bypass<I, O>(x: Node<I, O>, ghost all: seq<Node<I, O>>, ghost links: Links, ghost p: int)
    requires |links.next| == |links.prev| == |all| && NoDuplicates(all) && Wired(all, links)
    requires 0 <= p < |all| && all[p] == x
    requires 0 <= links.prev[p] < p < links.next[p] <= |all|
    modifies all
    ensures Wired(all, CutOut(links, p))
  {
    ghost var a, b := links.prev[p], links.next[p];
    assert x.prev == all[a] && x.next == At(all, b);
    x.prev.next := x.next;
    if x.next != null {
      x.next.prev := x.prev;
    }
    forall i | 0 <= i < |all|
      ensures all[i].next == At(all, if i == a then b else links.next[i])
      ensures all[i].prev == At(all, if i == b then a else links.prev[i])
    {
      assert old(all[i].next) == At(all, links.next[i]) && old(all[i].prev) == At(all, links.prev[i]);
    }
  }

  /** The node still knows between which two nodes it belongs. */
  method Rejoin<I, O>(x: Node<I, O>, ghost all: seq<Node<I, O>>, ghost links: Links, ghost p: int)
    requires |links.next| == |links.prev| == |all| && NoDuplicates(all)
    requires 0 <= p < |all| && all[p] == x
    requires 0 <= links.prev[p] < p < links.next[p] <= |all|
    requires links.next[links.prev[p]] == p && (links.next[p] < |all| ==> links.prev[links.next[p]] == p)
    requires Wired(all, CutOut(links, p))
    modifies all
    ensures Wired(all, links)
  {
    ghost var a, b, cut := links.prev[p], links.next[p], CutOut(links, p);
    assert x.prev == all[a] && x.next == At(all, b) by {
      assert cut.next[p] == b && cut.prev[p] == a;
    }
    x.prev.next := x;
    if x.next != null {
      x.next.prev := x;
    }
    forall i | 0 <= i < |all|
      ensures all[i].next == At(all, links.next[i]) && all[i].prev == At(all, links.prev[i])
    {
      assert old(all[i].next) == At(all, cut.next[i]) && old(all[i].prev) == At(all, cut.prev[i]);
    }
  }

  /** Cuts a call and its return out of the list. */
  method Lift<I, O>(entry: Node<I, O>, ghost all: seq<Node<I, O>>, ghost cut: seq<int>, ghost e: int, ghost r: int)
    requires Linked(all, cut)
    requires 0 < e < |all| && e !in Elems(cut) && all[e] == entry
    requires 0 < r < |all| && r !in Elems(cut) && all[r] == entry.mate && e != r
    modifies all
    ensures Linked(all, cut + [e] + [r])
  {
    ChainSnoc(|all|, cut, e);
    NeighboursPointBack(|all|, cut, e);
    Bypass(entry, all, Chain(|all|, cut), e);
    ElemsSnoc(cut, e);
    ChainSnoc(|all|, cut + [e], r);
    NeighboursPointBack(|all|, cut + [e], r);
    Bypass(entry.mate, all, Chain(|all|, cut + [e]), r);
  }

  /** Puts the most recently lifted pair back, the return first, and so restores the list exactly. */
  method Unlift<I, O>(entry: Node<I, O>, ghost all: seq<Node<I, O>>, ghost cut: seq<int>, ghost e: int, ghost r: int)
    requires Linked(all, cut + [e] + [r])
    requires 0 < e < |all| && all[e] == entry
    requires 0 < r < |all| && all[r] == entry.mate
    modifies all
    ensures Linked(all, cut)
  {
    CutSnoc(cut + [e], r, |all|);
    ChainSnoc(|all|, cut + [e], r);
    NeighboursPointBack(|all|, cut + [e], r);
    Rejoin(entry.mate, all, Chain(|all|, cut + [e]), r);
    CutSnoc(cut, e, |all|);
    ChainSnoc(|all|, cut, e);
    NeighboursPointBack(|all|, cut, e);
    Rejoin(entry, all, Chain(|all|, cut), e);
  }
}
