/**
 Lookup in the Chord ring (Lab2/Node/routing.go; section 4 of Stoica et al., "Chord: A Scalable Peer-to-peer Lookup
 Service for Internet Applications", SIGCOMM 2001).
 A network is what the nodes hold at one moment, by address. An address that is not in it cannot be reached.
 */
module ChordLookup {
  import opened Powers
  import opened Ring
  import opened Options

  datatype Address = Address(text: string)

  datatype View = View(id: int, successor: Address, fingers: seq<Address>)

  type Net = map<Address, View>

  ghost predicate NetOk(size: nat, net: Net) {
    forall a | a in net :: Id(size, net[a].id)
  }

  ghost predicate DistinctIds(net: Net) {
    forall a, b | a in net && b in net && net[a].id == net[b].id :: a == b
  }

  /** Finger `i` can be reached and lies strictly between the node and `id`. */
  predicate Precedes(net: Net, n: View, i: int, id: int)
    requires 0 <= i < |n.fingers|
  {
    n.fingers[i] in net && Between(n.id, net[n.fingers[i]].id, id, false)
  }

  /** `closePrecedingNode`: the last finger, up to index `i`, that precedes `id`; else the successor. */
  function ClosestPreceding(net: Net, n: View, id: int, i: int): Address
    requires i < |n.fingers|
  {
    if i < 1 then n.successor
    else if Precedes(net, n, i, id) then n.fingers[i]
    else ClosestPreceding(net, n, id, i - 1)
  }

  lemma {:induction false} ClosestPrecedingFacts(net: Net, n: View, id: int, i: int)
    requires i < |n.fingers|
    ensures var a := ClosestPreceding(net, n, id, i);
            || (exists j | 1 <= j <= i :: a == n.fingers[j] && Precedes(net, n, j, id) &&
                  forall k | j < k <= i :: !Precedes(net, n, k, id))
            || (a == n.successor && forall k | 1 <= k <= i :: !Precedes(net, n, k, id))
  {
    if i >= 1 && !Precedes(net, n, i, id) {
      ClosestPrecedingFacts(net, n, id, i - 1);
    }
  }

  /** The node that a lookup is forwarded to; it is nearer to `id`, whatever the pointers are. */
  function Forward(net: Net, at: Address, id: int): Address
    requires at in net
  {
    ClosestPreceding(net, net[at], id, |net[at].fingers| - 1)
  }

  lemma ForwardIsCloser(size: nat, net: Net, at: Address, id: int)
    requires NetOk(size, net) && Id(size, id) && at in net && net[at].successor in net
    requires !Between(net[at].id, id, net[net[at].successor].id, true)
    ensures Forward(net, at, id) in net
    ensures Between(net[at].id, net[Forward(net, at, id)].id, id, false)
    ensures 0 < Dist1(size, net[Forward(net, at, id)].id, id) < Dist1(size, net[at].id, id)
  {
    var n, a := net[at], Forward(net, at, id);
    ClosestPrecedingFacts(net, n, id, |n.fingers| - 1);
    OutsideMeansBeyond(size, n.id, id, net[n.successor].id);
    StepCloser(size, n.id, net[a].id, id);
  }

  /** The reply of `FindSuccessorRPC`; no address stands for an error text in its place. */
  datatype Reply = Reply(found: bool, address: Option<Address>)

  /** `FindSuccessorRPC`. It ends from any pointers, because each hop shortens the clockwise way to `id`. */
  function Lookup(size: nat, net: Net, at: Address, id: int): Reply
    requires NetOk(size, net) && Id(size, id) && at in net
    decreases Dist1(size, net[at].id, id)
  {
    var n := net[at];
    if n.successor !in net then Reply(false, None)
    else if Between(n.id, id, net[n.successor].id, true) then Reply(true, Some(n.successor))
    else
      ForwardIsCloser(size, net, at, id);
      Reply(true, Lookup(size, net, Forward(net, at, id), id).address)
  }

  /** How often a lookup is forwarded. */
  ghost function Hops(size: nat, net: Net, at: Address, id: int): nat
    requires NetOk(size, net) && Id(size, id) && at in net
    decreases Dist1(size, net[at].id, id)
  {
    var n := net[at];
    if n.successor !in net || Between(n.id, id, net[n.successor].id, true) then 0
    else
      ForwardIsCloser(size, net, at, id);
      1 + Hops(size, net, Forward(net, at, id), id)
  }

  // ----- A ring whose immediate successors are right -----

  ghost predicate RightSuccessors(net: Net) {
    forall a {:trigger RightSuccessor(net, a)} | a in net :: RightSuccessor(net, a)
  }

  /** No member lies strictly between a node and its successor. */
  ghost predicate RightSuccessor(net: Net, a: Address)
    requires a in net
  {
    && net[a].successor in net
    && forall b | b in net :: !Between(net[a].id, net[b].id, net[net[a].successor].id, false)
  }

  lemma SuccessorIsMember(net: Net, at: Address)
    requires RightSuccessors(net) && at in net
    ensures net[at].successor in net
  {
    assert RightSuccessor(net, at);
  }

  /** `s` is the first member at or after `id` going clockwise. */
  ghost predicate IsSuccessorOf(size: nat, net: Net, id: int, s: Address) {
    s in net && forall b | b in net :: Dist(size, id, net[s].id) <= Dist(size, id, net[b].id)
  }

  lemma SuccessorIsUnique(size: nat, net: Net, id: int, s: Address, t: Address)
    requires NetOk(size, net) && DistinctIds(net) && Id(size, id)
    requires IsSuccessorOf(size, net, id, s) && IsSuccessorOf(size, net, id, t)
    ensures s == t
  {
  }

  /** The node just before `id` knows the successor of `id`. */
  lemma FoundIsRight(size: nat, net: Net, at: Address, id: int)
    requires NetOk(size, net) && RightSuccessors(net) && Id(size, id) && at in net && net[at].successor in net
    requires Between(net[at].id, id, net[net[at].successor].id, true)
    ensures IsSuccessorOf(size, net, id, net[at].successor)
  {
    assert RightSuccessor(net, at);
    var n, s := net[at].id, net[net[at].successor].id;
    forall b | b in net ensures Dist(size, id, s) <= Dist(size, id, net[b].id) {
      NearestAfter(size, n, id, s, net[b].id);
    }
  }

  /** Whatever the fingers hold - stale, pointing to the node itself, or unreachable - the answer is right. */
  lemma {:induction false} LookupIsRight(size: nat, net: Net, at: Address, id: int)
    requires NetOk(size, net) && RightSuccessors(net) && Id(size, id) && at in net
    ensures var r := Lookup(size, net, at, id);
            r.found && r.address.Some? && IsSuccessorOf(size, net, id, r.address.value)
    decreases Dist1(size, net[at].id, id)
  {
    SuccessorIsMember(net, at);
    if Between(net[at].id, id, net[net[at].successor].id, true) {
      FoundIsRight(size, net, at, id);
    } else {
      ForwardIsCloser(size, net, at, id);
      LookupIsRight(size, net, Forward(net, at, id), id);
    }
  }

  /** The answer does not depend on where the lookup starts: it is the one successor of the identifier. */
  lemma AnswerIsUnique(size: nat, net: Net, at: Address, id: int, s: Address)
    requires NetOk(size, net) && DistinctIds(net) && RightSuccessors(net) && Id(size, id) && at in net
    ensures IsSuccessorOf(size, net, id, s) <==> Lookup(size, net, at, id) == Reply(true, Some(s))
  {
    LookupIsRight(size, net, at, id);
    if IsSuccessorOf(size, net, id, s) {
      SuccessorIsUnique(size, net, id, s, Lookup(size, net, at, id).address.value);
    }
  }

  /** The flag only says whether the first node reached its own successor, not whether the lookup worked. */
  lemma FoundReportsFirstHopOnly(size: nat, net: Net, at: Address, id: int)
    requires NetOk(size, net) && Id(size, id) && at in net
    ensures Lookup(size, net, at, id).found <==> net[at].successor in net
  {
  }

  /** Every member can reach its successor. */
  ghost predicate SuccessorsReachable(net: Net) {
    forall a | a in net :: net[a].successor in net
  }

  lemma {:induction false} ReachableGivesAddress(size: nat, net: Net, at: Address, id: int)
    requires NetOk(size, net) && Id(size, id) && at in net && SuccessorsReachable(net)
    ensures Lookup(size, net, at, id).found && Lookup(size, net, at, id).address.Some?
    decreases Dist1(size, net[at].id, id)
  {
    if !Between(net[at].id, id, net[net[at].successor].id, true) {
      ForwardIsCloser(size, net, at, id);
      ReachableGivesAddress(size, net, Forward(net, at, id), id);
    }
  }

  /** Every lookup, from every member for every identifier, yields an address. */
  ghost predicate AllAnswered(size: nat, net: Net)
    requires NetOk(size, net)
  {
    forall at, id | at in net && Id(size, id) :: Lookup(size, net, at, id).address.Some?
  }

  /** All lookups yield an address exactly when every member can reach its successor. */
  lemma AnsweredIffReachable(size: nat, net: Net)
    requires NetOk(size, net)
    ensures AllAnswered(size, net) <==> SuccessorsReachable(net)
  {
    if AllAnswered(size, net) {
      forall a | a in net ensures net[a].successor in net {
        assert Lookup(size, net, a, net[a].id).address.Some?;
      }
    }
    if SuccessorsReachable(net) {
      forall at, id | at in net && Id(size, id) ensures Lookup(size, net, at, id).address.Some? {
        ReachableGivesAddress(size, net, at, id);
      }
    }
  }

  /** The flag is honest: whenever a lookup claims to have found its target, it has an address. */
  ghost predicate HonestFlag(size: nat, net: Net)
    requires NetOk(size, net)
  {
    forall at, id | at in net && Id(size, id) ::
      Lookup(size, net, at, id).found ==> Lookup(size, net, at, id).address.Some?
  }

  /** A member that can reach its successor forwards the request for `id` to a member that can, too, or to none. */
  ghost predicate ForwardsWell(net: Net, at: Address, id: int)
    requires at in net
  {
    net[at].successor in net && !Between(net[at].id, id, net[net[at].successor].id, true) ==>
      Forward(net, at, id) in net && net[Forward(net, at, id)].successor in net
  }

  lemma {:induction false} WellForwardedIsHonest(size: nat, net: Net, at: Address, id: int)
    requires NetOk(size, net) && Id(size, id) && at in net && net[at].successor in net
    requires forall a | a in net :: ForwardsWell(net, a, id)
    ensures Lookup(size, net, at, id).address.Some?
    decreases Dist1(size, net[at].id, id)
  {
    if !Between(net[at].id, id, net[net[at].successor].id, true) {
      assert ForwardsWell(net, at, id);
      ForwardIsCloser(size, net, at, id);
      WellForwardedIsHonest(size, net, Forward(net, at, id), id);
    }
  }

  /** The flag is honest exactly when no single forward leads from a member with a successor to one without. */
  lemma HonestIffForwardsWell(size: nat, net: Net)
    requires NetOk(size, net)
    ensures HonestFlag(size, net) <==> forall at, id | at in net && Id(size, id) :: ForwardsWell(net, at, id)
  {
    if HonestFlag(size, net) {
      forall at, id | at in net && Id(size, id) ensures ForwardsWell(net, at, id) {
        OneHop(size, net, at, id);
      }
    } else {
      var at, id :| at in net && Id(size, id) &&
        Lookup(size, net, at, id).found && !Lookup(size, net, at, id).address.Some?;
      if forall a | a in net :: ForwardsWell(net, a, id) {
        WellForwardedIsHonest(size, net, at, id);
      }
    }
  }

  lemma OneHop(size: nat, net: Net, at: Address, id: int)
    requires NetOk(size, net) && HonestFlag(size, net) && at in net && Id(size, id)
    ensures ForwardsWell(net, at, id)
  {
    if net[at].successor in net && !Between(net[at].id, id, net[net[at].successor].id, true) {
      ForwardIsCloser(size, net, at, id);
      assert Lookup(size, net, at, id).found ==> Lookup(size, net, at, id).address.Some?;
      assert Lookup(size, net, at, id).address == Lookup(size, net, Forward(net, at, id), id).address;
    }
  }

  /** A lookup that claims to have found its target without an address to show for it. */
  lemma FoundWithoutAddress(a: Address, b: Address, gone: Address)
    requires a != b && gone != a && gone != b
    ensures var net: Net := map[a := View(0, b, [a]), b := View(10, gone, [b])];
            NetOk(64, net) && Lookup(64, net, a, 20) == Reply(true, None)
  {
    var net: Net := map[a := View(0, b, [a]), b := View(10, gone, [b])];
    assert gone !in net;
    assert Forward(net, a, 20) == b;
    assert Lookup(64, net, b, 20) == Reply(false, None);
  }

  // ----- Accurate fingers: at most m forwards -----

  ghost predicate AccurateFingers(m: nat, net: Net) {
    && NetOk(Pow2(m), net)
    && forall a | a in net ::
         && |net[a].fingers| == m + 1
         && forall k | 1 <= k <= m :: IsSuccessorOf(Pow2(m), net, FingerStart(m, net[a].id, k), net[a].fingers[k])
  }

  /** `p` is the last member strictly before `id`. */
  ghost predicate IsPredecessorOf(size: nat, net: Net, id: int, p: Address) {
    p in net && forall b | b in net :: Dist1(size, net[p].id, id) <= Dist1(size, net[b].id, id)
  }

  /** Finger `k` of a node is the node itself or at least `2^(k-1)` away. */
  lemma FingerReach(m: nat, net: Net, at: Address, k: nat)
    requires AccurateFingers(m, net) && at in net && 1 <= k <= m
    ensures var f := net[net[at].fingers[k]].id;
            f == net[at].id || Dist(Pow2(m), net[at].id, f) >= Pow2(k - 1)
  {
    FingerStartDist(m, net[at].id, k);
    Pow2Increases(k - 1, m);
    assert IsSuccessorOf(Pow2(m), net, FingerStart(m, net[at].id, k), net[at].fingers[k]);
  }

  /** If the predecessor of `id` is at least `2^(k-1)` away, finger `k` does not overshoot it. */
  lemma FingerPrecedes(m: nat, net: Net, at: Address, id: int, p: Address, k: nat)
    requires AccurateFingers(m, net) && at in net && 1 <= k <= m && Id(Pow2(m), id)
    requires IsPredecessorOf(Pow2(m), net, id, p) && Pow2(k - 1) <= Dist(Pow2(m), net[at].id, net[p].id)
    ensures Precedes(net, net[at], k, id)
  {
    var size, n, f := Pow2(m), net[at].id, net[net[at].fingers[k]].id;
    FingerStartDist(m, n, k);
    assert IsSuccessorOf(size, net, FingerStart(m, n, k), net[at].fingers[k]);
    assert Dist(size, FingerStart(m, n, k), f) <= Dist(size, FingerStart(m, n, k), net[p].id);
    FingerReach(m, net, at, k);
    assert Dist1(size, net[p].id, id) <= Dist1(size, n, id);
    BetweenIsDistance(size, n, f, id);
  }

  /** The predecessor of `id` answers itself. */
  lemma PredecessorAnswers(size: nat, net: Net, at: Address, id: int, p: Address)
    requires NetOk(size, net) && RightSuccessors(net) && Id(size, id) && at in net
    requires IsPredecessorOf(size, net, id, p) && net[at].id == net[p].id
    ensures net[at].successor in net && Between(net[at].id, id, net[net[at].successor].id, true)
  {
    SuccessorIsMember(net, at);
    var n, s := net[at].id, net[net[at].successor].id;
    if !Between(n, id, s, true) {
      OutsideMeansBeyond(size, n, id, s);
      StepCloser(size, n, s, id);
    }
  }

  /** The bit length of a positive distance. */
  lemma {:induction false} BitLength(d: int, k: nat) returns (i: nat)
    requires 0 < d < Pow2(k)
    ensures 1 <= i <= k && Pow2(i - 1) <= d < 2 * Pow2(i - 1)
  {
    if Pow2(k - 1) <= d {
      i := k;
    } else {
      i := BitLength(d, k - 1);
    }
  }

  lemma {:induction false} Pow2AtLeast(j: nat, k: nat)
    requires j <= k
    ensures Pow2(j) <= Pow2(k)
  {
    if j < k {
      Pow2Increases(j, k);
    }
  }

  /** With accurate fingers a forward goes to a finger, and to one of index `i` or more. */
  lemma ForwardTakesFinger(m: nat, net: Net, at: Address, id: int, p: Address, i: nat) returns (j: nat)
    requires AccurateFingers(m, net) && at in net && 1 <= i <= m && Id(Pow2(m), id)
    requires IsPredecessorOf(Pow2(m), net, id, p) && Pow2(i - 1) <= Dist(Pow2(m), net[at].id, net[p].id)
    ensures i <= j <= m && Forward(net, at, id) == net[at].fingers[j] && Precedes(net, net[at], j, id)
  {
    FingerPrecedes(m, net, at, id, p, i);
    assert |net[at].fingers| == m + 1;
    hide *;
    ForwardIsClosest(net, at, id);
    j := ClosestIsLater(net, net[at], id, m, i);
  }

  lemma ForwardIsClosest(net: Net, at: Address, id: int)
    requires at in net
    ensures Forward(net, at, id) == ClosestPreceding(net, net[at], id, |net[at].fingers| - 1)
  {
  }

  /** If finger `k` precedes `id`, the scan from `i` down stops there at the latest. */
  lemma {:induction false} ClosestIsLater(net: Net, n: View, id: int, i: nat, k: nat) returns (j: nat)
    requires 1 <= k <= i < |n.fingers| && Precedes(net, n, k, id)
    ensures k <= j <= i && ClosestPreceding(net, n, id, i) == n.fingers[j] && Precedes(net, n, j, id)
  {
    hide Precedes;
    if Precedes(net, n, i, id) {
      j := i;
    } else {
      j := ClosestIsLater(net, n, id, i - 1, k);
    }
  }

  lemma AccurateIds(m: nat, net: Net, a: Address)
    requires AccurateFingers(m, net) && a in net
    ensures NetOk(Pow2(m), net) && Id(Pow2(m), net[a].id) && |net[a].fingers| == m + 1
  {
  }

  lemma PredecessorIsNearest(size: nat, net: Net, id: int, p: Address, b: Address)
    requires IsPredecessorOf(size, net, id, p) && b in net
    ensures p in net && Dist1(size, net[p].id, id) <= Dist1(size, net[b].id, id)
  {
  }

  /** A forward taken while the predecessor of `id` is `d` away, with `2^(i-1) <= d`, covers at least `2^(i-1)`. */
  lemma ForwardCovers(m: nat, net: Net, at: Address, id: int, p: Address, i: nat)
    requires AccurateFingers(m, net) && at in net && 1 <= i <= m && Id(Pow2(m), id)
    requires IsPredecessorOf(Pow2(m), net, id, p) && Pow2(i - 1) <= Dist(Pow2(m), net[at].id, net[p].id)
    ensures Forward(net, at, id) in net
    ensures Dist(Pow2(m), net[Forward(net, at, id)].id, net[p].id) <=
            Dist(Pow2(m), net[at].id, net[p].id) - Pow2(i - 1)
  {
    hide AccurateFingers, IsPredecessorOf, Dist, Dist1, Forward, Between;
    var size, n := Pow2(m), net[at].id;
    var j := ForwardTakesFinger(m, net, at, id, p, i);
    var a := Forward(net, at, id);
    AccurateIds(m, net, at);
    AccurateIds(m, net, a);
    FingerReach(m, net, at, j);
    Pow2AtLeast(i - 1, j - 1);
    PredecessorIsNearest(size, net, id, p, a);
    PredecessorIsNearest(size, net, id, p, at);
    AccurateIds(m, net, p);
    NotBeyondPredecessor(size, n, net[a].id, net[p].id, id);
  }

  /** Each forward takes at least one bit off the distance to the predecessor of `id`. */
  lemma HopHalves(m: nat, net: Net, at: Address, id: int, p: Address, k: nat)
    requires AccurateFingers(m, net) && RightSuccessors(net) && Id(Pow2(m), id) && at in net && k <= m
    requires IsPredecessorOf(Pow2(m), net, id, p) && Dist(Pow2(m), net[at].id, net[p].id) < Pow2(k)
    requires net[at].successor in net && !Between(net[at].id, id, net[net[at].successor].id, true)
    ensures k > 0 && Forward(net, at, id) in net
    ensures Dist(Pow2(m), net[Forward(net, at, id)].id, net[p].id) < Pow2(k - 1)
  {
    hide *;
    var size, n := Pow2(m), net[at].id;
    AccurateIds(m, net, at);
    PredecessorIsNearest(size, net, id, p, at);
    AccurateIds(m, net, p);
    var d := Dist(size, n, net[p].id);
    DistFacts(size, n, net[p].id);
    if d == 0 {
      PredecessorAnswers(size, net, at, id, p);
    }
    var i := BitLength(d, k);
    ForwardCovers(m, net, at, id, p, i);
    Pow2AtLeast(i - 1, k - 1);
  }

  /** A point strictly between `n` and `id` that is not nearer to `id` than `p` lies on the way from `n` to `p`. */
  lemma NotBeyondPredecessor(size: nat, n: int, c: int, p: int, id: int)
    requires Id(size, n) && Id(size, c) && Id(size, p) && Id(size, id)
    requires Between(n, c, id, false)
    requires Dist1(size, p, id) <= Dist1(size, c, id) && Dist1(size, p, id) <= Dist1(size, n, id)
    ensures Dist(size, c, p) == Dist(size, n, p) - Dist(size, n, c)
    ensures n != c
  {
  }

  lemma {:induction false} HopsFrom(m: nat, net: Net, at: Address, id: int, p: Address, k: nat)
    requires AccurateFingers(m, net) && RightSuccessors(net) && Id(Pow2(m), id) && at in net && k <= m
    requires IsPredecessorOf(Pow2(m), net, id, p) && Dist(Pow2(m), net[at].id, net[p].id) < Pow2(k)
    ensures Hops(Pow2(m), net, at, id) <= k
    decreases k
  {
    hide AccurateFingers, IsPredecessorOf, Dist, Dist1, Forward, Between, RightSuccessors, NetOk, Pow2;
    AccurateIds(m, net, at);
    SuccessorIsMember(net, at);
    if !Between(net[at].id, id, net[net[at].successor].id, true) {
      HopHalves(m, net, at, id, p, k);
      HopsFrom(m, net, Forward(net, at, id), id, p, k - 1);
    }
  }

  lemma {:induction false} PredecessorExists(size: nat, net: Net, id: int, some: set<Address>) returns (p: Address)
    requires some <= net.Keys && some != {}
    ensures p in some && forall b | b in some :: Dist1(size, net[p].id, id) <= Dist1(size, net[b].id, id)
  {
    p :| p in some;
    if some != {p} {
      var q := PredecessorExists(size, net, id, some - {p});
      if Dist1(size, net[q].id, id) < Dist1(size, net[p].id, id) {
        p := q;
      }
    }
  }

  /** With accurate fingers a lookup in a space of `2^m` identifiers is forwarded at most `m` times. */
  lemma LookupTakesAtMostM(m: nat, net: Net, at: Address, id: int)
    requires AccurateFingers(m, net) && RightSuccessors(net) && Id(Pow2(m), id) && at in net
    ensures Hops(Pow2(m), net, at, id) <= m
  {
    hide AccurateFingers, RightSuccessors;
    AccurateIds(m, net, at);
    assert at in net.Keys;
    var p := PredecessorExists(Pow2(m), net, id, net.Keys);
    HopsFrom(m, net, at, id, p, m);
  }
}
