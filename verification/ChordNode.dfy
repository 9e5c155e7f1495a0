/**
 The node object of Lab2/Node, with the methods that read and change it (node.go, routing.go, stabilizing.go).
 A remote call finds its target in `net`; an address that is not there cannot be reached. Each method is proved
 against the functions of `ChordLookup`, `FixFingers`, `ChordRing` and `Placement`.
 */
module ChordNode {
  import opened Powers
  import opened Ring
  import opened Options
  import opened ChordLookup
  import opened FixFingers
  import CR = ChordRing
  import P = Placement

  const NO_ADDRESS := Address("")

  class Node {
    const m: nat // `m` and `fingerTableSize`
    const id: int
    const address: Address
    var fingers: seq<Address>
    var next: int
    var predecessor: Address // NO_ADDRESS when there is none
    var successor: Address   // Successors[0]
    var bucket: map<int, string>

    ghost function ViewOf(): View
      reads this
    {
      View(id, successor, fingers)
    }

    /** Lines 207-222 and 134-139 of node.go: every finger starts as the node itself. */
    constructor (m: nat, id: int, address: Address)
      ensures this.m == m && this.id == id && this.address == address
      ensures |fingers| == m + 1 && forall k | 0 <= k <= m :: fingers[k] == address
      ensures next == 0 && predecessor == NO_ADDRESS && successor == NO_ADDRESS && bucket == map[] && BucketOk()
    {
      this.m, this.id, this.address := m, id, address;
      fingers := seq(m + 1, _ => address);
      next, predecessor, successor, bucket := 0, NO_ADDRESS, NO_ADDRESS, map[];
    }

    /** `createChord`. */
    method CreateChord()
      modifies this
      ensures predecessor == NO_ADDRESS && successor == address
      ensures fingers == old(fingers) && next == old(next) && bucket == old(bucket)
    {
      predecessor := NO_ADDRESS;
      successor := address;
    }

    /** `closePrecedingNode`: from the last finger down, the first that can be reached and precedes the request. */
    method ClosePrecedingNode(net: map<Address, Node>, requestId: int) returns (a: Address)
      ensures a == ClosestPreceding(NetOf(net), ViewOf(), requestId, |fingers| - 1)
    {
      var i := |fingers| - 1;
      while i >= 1
        invariant i < |fingers|
        invariant ClosestPreceding(NetOf(net), ViewOf(), requestId, |fingers| - 1) ==
                  ClosestPreceding(NetOf(net), ViewOf(), requestId, i)
      {
        if fingers[i] in net && Between(id, net[fingers[i]].id, requestId, false) {
          return fingers[i];
        }
        i := i - 1;
      }
      return successor;
    }

    /** `FindSuccessorRPC`, with the reply's two fields as results. */
    method FindSuccessorRPC(net: map<Address, Node>, requestId: int) returns (found: bool, reply: Option<Address>)
      requires NetOk(Pow2(m), NetOf(net)) && address in net && net[address] == this
      requires Addressed(m, net)
      ensures Reply(found, reply) == Lookup(Pow2(m), NetOf(net), address, requestId % Pow2(m))
      decreases Dist1(Pow2(m), id, requestId % Pow2(m))
    {
      hide NetOk, Between, Pow2, Dist1, ClosestPreceding, Forward;
      var size := Pow2(m);
      var request := requestId % size;
      Reduced(size, requestId);
      ghost var view := NetOf(net);
      if successor !in net {
        return false, None;
      }
      if Between(id, request, net[successor].id, true) {
        return true, Some(successor);
      }
      ForwardIsCloser(size, view, address, request);
      ForwardIsClosest(view, address, request);
      var next := ClosePrecedingNode(net, request);
      var _, r := net[next].FindSuccessorRPC(net, request);
      return true, r;
    }

    /** `fixFingers`. The result is false where the source returns an error. */
    method FixFingers(net: map<Address, Node>) returns (ok: bool)
      requires NetOk(Pow2(m), NetOf(net)) && address in net && net[address] == this
      requires Addressed(m, net)
      requires Ready(m, NetOf(net), address, next)
      modifies this
      ensures (fingers, next) == Fix(m, old(NetOf(net)), address, old(next))
      ensures var j, found := old(next) % m + 1, old(Answer(net, next % m + 1));
              if found.Some? && found.value in net
              then var s := found.value;
                   ok && Extent(m, id, net[s].id, s, old(fingers)[j := s], j, fingers, next)
              else !ok && fingers == old(fingers) && next == j
      ensures predecessor == old(predecessor) && successor == old(successor) && bucket == old(bucket)
    {
      hide NetOk, Between, Lookup, Dist, Dist1, Pow2, FingerStart, Shortcut, Extent;
      ghost var view := NetOf(net);
      assert view[address] == ViewOf();
      NetId(Pow2(m), view, address);
      StartIsNext(m, next);
      next := next + 1;
      if next > m {
        next := 1;
      }
      FingerStartDist(m, id, next);
      assert NetOf(net) == view;
      ghost var found := Answer(net, next);
      var _, r := FindSuccessorRPC(net, FingerStart(m, id, next));
      StartIsReduced(m, id, next);
      assert r == found;
      if r.None? || r.value !in net {
        return false;
      }
      var s, sid := r.value, net[r.value].id;
      fingers := fingers[next := s];
      UseForLater(s, sid);
      return true;
    }

    /** The loop at the end of `fixFingers`: the node just found serves for the fingers that start before it. */
    method UseForLater(s: Address, sid: int)
      requires 1 <= next <= m && |fingers| == m + 1
      modifies this`fingers, this`next
      ensures (fingers, next) == Shortcut(m, id, sid, s, old(fingers), old(next))
      ensures Extent(m, id, sid, s, old(fingers), old(next), fingers, next)
    {
      hide Between, Pow2, FingerStart, Extent;
      ShortcutExtent(m, id, sid, s, fingers, next);
      while true
        invariant 1 <= next <= m && |fingers| == m + 1
        invariant Shortcut(m, id, sid, s, fingers, next) == Shortcut(m, id, sid, s, old(fingers), old(next))
        decreases m - next
      {
        next := next + 1;
        if next > m {
          next := 0;
          return;
        }
        if Between(id, FingerStart(m, id, next), sid, false) {
          fingers := fingers[next := s];
        } else {
          next := next - 1;
          return;
        }
      }
    }

    /**
     Lines 52-85 of `stablize`, when nothing else happens in between: which node to notify. Nobody is notified if
     the successor's predecessor cannot be reached.
     */
    method StabilizeSuccessor(net: map<Address, Node>) returns (target: Option<Address>)
      modifies this
      ensures target == if old(Unreachable(net)) then None else Some(successor)
      ensures old(Reachable(net)) ==>
                && successor in {old(successor), old(net[successor].predecessor)}
                && net[successor].id == CR.Adopted(id, net[old(successor)].id, net[old(net[successor].predecessor)].id)
      ensures old(Reachable(net)) && InRing(net) ==>
                var s, p := old(successor), old(net[successor].predecessor);
                successor == if Dist1(Pow2(m), id, net[p].id) < Dist1(Pow2(m), id, net[s].id) then p else s
      ensures !old(Reachable(net)) ==> successor == old(successor)
      ensures fingers == old(fingers) && next == old(next) && bucket == old(bucket)
      ensures predecessor == old(predecessor)
    {
      if successor in net && net[successor].predecessor != NO_ADDRESS {
        var p := net[successor].predecessor;
        if p !in net {
          return None;
        }
        if InRing(net) {
          BetweenIsDistance(Pow2(m), id, net[p].id, net[successor].id);
        }
        if Between(id, net[p].id, net[successor].id, false) {
          successor := p;
        }
      }
      target := Some(successor);
    }

    /** The successor has a predecessor that can be reached. */
    ghost predicate Reachable(net: map<Address, Node>)
      reads this, net.Values
    {
      successor in net && net[successor].predecessor != NO_ADDRESS && net[successor].predecessor in net
    }

    /** The successor has a predecessor that cannot be reached. */
    ghost predicate Unreachable(net: map<Address, Node>)
      reads this, net.Values
    {
      successor in net && net[successor].predecessor != NO_ADDRESS && net[successor].predecessor !in net
    }

    /** `notify`: takes the caller as predecessor if there is none or the caller is closer. */
    method Notify(net: map<Address, Node>, caller: Address) returns (changed: bool)
      modifies this
      ensures predecessor == if changed then caller else old(predecessor)
      ensures old(predecessor) == NO_ADDRESS ==> changed
      ensures old(predecessor) != NO_ADDRESS ==>
                (changed <==> old(predecessor) in net && caller in net &&
                              CR.Closer(id, Some(net[old(predecessor)].id), net[caller].id))
      ensures old(predecessor) in net && caller in net && old(predecessor) != NO_ADDRESS && InRing(net) ==>
                (changed <==> Dist1(Pow2(m), net[caller].id, id) < Dist1(Pow2(m), net[old(predecessor)].id, id))
      ensures fingers == old(fingers) && next == old(next) && successor == old(successor) && bucket == old(bucket)
    {
      if predecessor != NO_ADDRESS {
        if predecessor !in net || caller !in net {
          return false;
        }
        if InRing(net) {
          BetweenMeansNearer(Pow2(m), net[predecessor].id, net[caller].id, id);
        }
        if Between(net[predecessor].id, net[caller].id, id, false) {
          predecessor := caller;
          return true;
        }
        return false;
      }
      predecessor := caller;
      return true;
    }

    /** This node's identifier and those of the nodes in `net` are reduced. */
    ghost predicate InRing(net: map<Address, Node>) {
      Id(Pow2(m), id) && forall a | a in net :: Id(Pow2(m), net[a].id)
    }

    /** The address that a lookup at this node gives for the start of its finger `k`. */
    ghost function Answer(net: map<Address, Node>, k: nat): Option<Address>
      requires NetOk(Pow2(m), NetOf(net)) && address in net && net[address] == this && 1 <= k <= m
      reads set a | a in net :: net[a]
    {
      NetId(Pow2(m), NetOf(net), address);
      FingerStartDist(m, id, k);
      Lookup(Pow2(m), NetOf(net), address, FingerStart(m, id, k)).address
    }

    /** File identifiers in the bucket are reduced. */
    ghost predicate BucketOk()
      reads this
    {
      forall f | f in bucket :: Id(Pow2(m), f)
    }

    /** `storeChordFile`, without the backup branch and the copy on disk. The identifier may be of any size. */
    method StoreChordFile(fileId: int, name: string) returns (stored: bool)
      modifies this`bucket
      ensures stored <==> fileId % Pow2(m) !in old(bucket)
      ensures bucket == if stored then old(bucket)[fileId % Pow2(m) := name] else old(bucket)
      ensures old(BucketOk()) ==> BucketOk()
    {
      hide Pow2;
      var key := fileId % Pow2(m);
      Reduced(Pow2(m), fileId);
      if key in bucket {
        return false;
      }
      bucket := bucket[key := name];
      return true;
    }

    /** `moveFiles`: one file after another, in the order the map gives them. */
    method MoveFiles(target: Node)
      requires BucketOk() && target.m == m
      modifies this`bucket, target`bucket
      ensures BucketOk() && (old(target.BucketOk()) ==> target.BucketOk())
      ensures target != this ==>
                && bucket == P.Kept(old(bucket), target.id, id)
                && target.bucket == P.StoreAll(old(target.bucket), P.Handed(old(bucket), target.id, id))
      ensures target == this ==> bucket == map[]
    {
      hide P.Leaves, Pow2;
      var rest := bucket.Keys;
      while exists f :: f in rest
        invariant rest <= old(bucket).Keys && (old(target.BucketOk()) ==> target.BucketOk())
        invariant forall f | f in rest :: f in bucket && bucket[f] == old(bucket)[f]
        invariant forall f | f in old(bucket).Keys - rest ::
                    if P.Leaves(f, target.id, id) then f !in bucket
                    else f in bucket && bucket[f] == old(bucket)[f]
        invariant bucket.Keys <= old(bucket).Keys
        invariant target != this ==>
                    && (forall f | f in old(target.bucket) ::
                          f in target.bucket && target.bucket[f] == old(target.bucket)[f])
                    && (forall f | f in target.bucket && f !in old(target.bucket) ::
                          && f in old(bucket).Keys - rest && P.Leaves(f, target.id, id)
                          && target.bucket[f] == old(bucket)[f])
                    && (forall f | f in old(bucket).Keys - rest && P.Leaves(f, target.id, id) :: f in target.bucket)
        decreases rest
      {
        var f :| f in rest;
        rest := rest - {f};
        SmallMod(Pow2(m), f);
        if P.Leaves(f, target.id, id) {
          var _ := target.StoreChordFile(f, bucket[f]);
          bucket := bucket - {f};
        }
      }
      assert old(bucket).Keys - rest == old(bucket).Keys;
      if target == this {
        forall f | f in old(bucket) ensures f !in bucket {
          LeavesSelf(f, id);
        }
        assert bucket.Keys == {};
      } else {
        ghost var kept := P.Kept(old(bucket), target.id, id);
        forall f ensures f in bucket <==> f in kept {
          assert f in bucket ==> f in old(bucket).Keys;
        }
        assert bucket == kept;
        ghost var all := P.StoreAll(old(target.bucket), P.Handed(old(bucket), target.id, id));
        forall f ensures f in target.bucket <==> f in all {
          assert f in target.bucket && f !in old(target.bucket) ==> f in old(bucket).Keys;
        }
        forall f | f in all ensures target.bucket[f] == all[f] {
          assert f !in old(target.bucket) ==> target.bucket[f] == old(bucket)[f];
        }
        assert target.bucket == all;
      }
    }

    /**
     `NotifyRPC`: files move to a caller that can be reached, unless the node is its own successor; then the caller
     may become the predecessor. A node that notifies itself while another is its successor loses its files.
     */
    method NotifyRPC(net: map<Address, Node>, caller: Address) returns (success: bool)
      requires BucketOk() && (caller in net ==> net[caller].m == m)
      modifies this, if caller in net then {net[caller]} else {}
      ensures old(successor) == address || caller !in net ==>
                bucket == old(bucket) && (caller in net ==> net[caller].bucket == old(net[caller].bucket))
      ensures old(successor) != address && caller in net && net[caller] != this ==>
                && bucket == P.Kept(old(bucket), net[caller].id, id)
                && net[caller].bucket == P.StoreAll(old(net[caller].bucket), P.Handed(old(bucket), net[caller].id, id))
      ensures old(successor) != address && caller in net && net[caller] == this ==> bucket == map[]
      ensures ViewOf() == old(ViewOf()) && next == old(next)
      ensures caller in net && net[caller] != this ==>
                && net[caller].ViewOf() == old(net[caller].ViewOf()) && net[caller].next == old(net[caller].next)
                && net[caller].predecessor == old(net[caller].predecessor)
      ensures predecessor == if success then caller else old(predecessor)
      ensures old(predecessor) == NO_ADDRESS ==> success
      ensures old(predecessor) != NO_ADDRESS ==>
                (success <==> old(predecessor) in net && caller in net &&
                              CR.Closer(id, Some(net[old(predecessor)].id), net[caller].id))
      ensures old(predecessor) in net && caller in net && old(predecessor) != NO_ADDRESS && InRing(net) ==>
                (success <==> Dist1(Pow2(m), net[caller].id, id) < Dist1(Pow2(m), net[old(predecessor)].id, id))
    {
      if successor != address {
        if caller in net {
          MoveFiles(net[caller]);
        }
      }
      success := Notify(net, caller);
    }

    /**
     `joinChord`. The result is false where the source returns an error; an error text in place of the successor's
     address, which nobody can reach, is here no address.
     */
    method JoinChord(net: map<Address, Node>, joinNode: Address) returns (ok: bool)
      requires NetOk(Pow2(m), NetOf(net)) && Addressed(m, net) && address in net && net[address] == this
      requires NO_ADDRESS !in net && forall a | a in net :: net[a].BucketOk()
      modifies set a | a in net :: net[a]
      ensures ok <==> joinNode in net && old(Lookup(Pow2(m), NetOf(net), joinNode, id % Pow2(m))).address.Some?
      ensures successor ==
              if ok then old(Lookup(Pow2(m), NetOf(net), joinNode, id % Pow2(m))).address.value else NO_ADDRESS
      ensures ok ==> successor in net
      ensures ok && net[successor] != this ==> predecessor == NO_ADDRESS && Joined(net)
      ensures forall a | a in net && net[a] != this && (ok ==> net[a] != net[successor]) :: unchanged(net[a])
      ensures fingers == old(fingers) && next == old(next)
    {
      forall a | a in net ensures Id(Pow2(m), net[a].id) {
        NetId(Pow2(m), NetOf(net), a);
      }
      hide NetOk, Lookup, Pow2, Dist1;
      predecessor := NO_ADDRESS;
      if joinNode !in net {
        successor := NO_ADDRESS;
        return false;
      }
      assert NetOf(net) == old(NetOf(net));
      LookupIsInNet(Pow2(m), NetOf(net), joinNode, id);
      var _, reply := net[joinNode].FindSuccessorRPC(net, id);
      if reply.None? {
        successor := NO_ADDRESS;
        return false;
      }
      successor := reply.value;
      var _ := net[successor].NotifyRPC(net, address);
      return true;
    }

    /** The successor has taken this node as predecessor if it is nearer than the one it had, and handed over files. */
    twostate predicate Joined(net: map<Address, Node>)
      requires address in net && successor in net
      reads this, set a | a in net :: net[a]
    {
      var x := net[successor];
      var p := old(x.predecessor);
      var size := Pow2(m);
      && x.predecessor == (if p == NO_ADDRESS || (p in net && Dist1(size, id, x.id) < Dist1(size, net[p].id, x.id))
                           then address else p)
      && x.ViewOf() == old(x.ViewOf()) && x.next == old(x.next)
      && (if old(x.successor) == x.address
          then x.bucket == old(x.bucket) && bucket == old(bucket)
          else && x.bucket == P.Kept(old(x.bucket), id, x.id)
               && bucket == P.StoreAll(old(bucket), P.Handed(old(x.bucket), id, x.id)))
    }
  }

  /** Every node is found under its own address, and all agree on the number of identifiers. */
  ghost predicate Addressed(m: nat, net: map<Address, Node>) {
    forall a | a in net :: net[a].m == m && net[a].address == a
  }

  lemma {:induction false} LookupIsInNet(size: nat, net: Net, at: Address, id: int)
    requires NetOk(size, net) && size > 0 && at in net
    ensures Lookup(size, net, at, id % size).address.Some? ==> Lookup(size, net, at, id % size).address.value in net
    decreases Dist1(size, net[at].id, id % size)
  {
    var n := net[at];
    if n.successor in net && !Between(n.id, id % size, net[n.successor].id, true) {
      ForwardIsCloser(size, net, at, id % size);
      LookupIsInNet(size, net, Forward(net, at, id % size), id);
    }
  }

  /**
   `find`: asks again at each answer until one is found, at most ten times. The first answer decides: either it is
   found, or its address cannot be asked.
   */
  method Find(m: nat, net: map<Address, Node>, id: int, start: Address) returns (found: bool, address: Option<Address>)
    requires NetOk(Pow2(m), NetOf(net)) && Addressed(m, net) && NO_ADDRESS !in net
    ensures found <==> start in net && net[start].successor in net
    ensures found ==> address == Lookup(Pow2(m), NetOf(net), start, id % Pow2(m)).address
    ensures !found ==> address == None
  {
    hide NetOk, Lookup, Pow2;
    found, address := false, Some(start);
    var i := 0;
    while !found && i < 10
      invariant i == 0 ==> !found && address == Some(start)
      invariant i > 0 && !found ==> (start in net ==> net[start].successor !in net)
      invariant i > 0 && !found ==> (address.Some? ==> address.value !in net)
      invariant found ==> start in net && net[start].successor in net
      invariant found ==> address == Lookup(Pow2(m), NetOf(net), start, id % Pow2(m)).address
    {
      if address.Some? && address.value in net {
        FirstHopDecides(Pow2(m), NetOf(net), start, id);
        found, address := net[address.value].FindSuccessorRPC(net, id);
      } else {
        found, address := false, Some(NO_ADDRESS);
      }
      i := i + 1;
    }
    if !found {
      address := None;
    }
  }

  lemma FirstHopDecides(size: nat, net: Net, at: Address, id: int)
    requires NetOk(size, net) && size > 0 && at in net
    ensures Lookup(size, net, at, id % size).found <==> net[at].successor in net
    ensures !Lookup(size, net, at, id % size).found ==> Lookup(size, net, at, id % size).address == None
  {
    FoundReportsFirstHopOnly(size, net, at, id % size);
  }

  /** `requestID.Mod(requestID, hashMod)`, done again at every hop, changes nothing after the first time. */
  lemma Reduced(size: nat, x: int)
    requires size > 0
    ensures Id(size, x % size) && (x % size) % size == x % size
  {
  }

  lemma StartIsReduced(m: nat, n: int, k: nat)
    requires 1 <= k <= m && Id(Pow2(m), n)
    ensures FingerStart(m, n, k) % Pow2(m) == FingerStart(m, n, k)
  {
    hide *;
    FingerStartDist(m, n, k);
    SmallMod(Pow2(m), FingerStart(m, n, k));
  }

  lemma SmallMod(size: nat, x: int)
    requires Id(size, x)
    ensures x % size == x
  {
  }

  lemma LeavesSelf(f: int, x: int)
    ensures P.Leaves(f, x, x)
  {
  }

  /** What the nodes of a network hold. */
  ghost function NetOf(net: map<Address, Node>): Net
    reads set a | a in net :: net[a]
  {
    map a | a in net :: net[a].ViewOf()
  }
}
