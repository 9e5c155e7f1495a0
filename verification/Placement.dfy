/**
 Where files live in the Chord ring, and what a join's notify moves (Lab2/Node/stabilizing.go, `moveFiles`,
 `NotifyRPC`; Lab2/Node/node.go, `storeChordFile`). Nodes and files are named by their identifiers.
 */
module Placement {
  import opened Ring

  type Bucket = map<int, string>
  type Buckets = map<int, Bucket>

  /** Node `s` is the successor of `f` among `nodes`, and so the one that should hold file `f`. */
  ghost predicate Owner(size: nat, nodes: set<int>, f: int, s: int) {
    s in nodes && forall b | b in nodes :: Dist(size, f, s) <= Dist(size, f, b)
  }

  ghost predicate NodesOk(size: nat, nodes: set<int>) {
    forall s | s in nodes :: Id(size, s)
  }

  /** Every file sits at the successor of its identifier. */
  ghost predicate Placed(size: nat, buckets: Buckets) {
    && NodesOk(size, buckets.Keys)
    && forall s, f | s in buckets && f in buckets[s] :: Id(size, f) && Owner(size, buckets.Keys, f, s)
  }

  /** The condition under which node `x` hands file `f` to node `a`. */
  predicate Leaves(f: int, a: int, x: int) {
    (Between(f, a, x, true) && f != x) || f == a
  }

  function Kept(bucket: Bucket, a: int, x: int): Bucket {
    map f | f in bucket && !Leaves(f, a, x) :: bucket[f]
  }

  function Handed(bucket: Bucket, a: int, x: int): Bucket {
    map f | f in bucket && Leaves(f, a, x) :: bucket[f]
  }

  /** `storeChordFile` refuses an identifier that the bucket already has. */
  function StoreAll(bucket: Bucket, files: Bucket): Bucket {
    files + bucket
  }

  /** The buckets after `x` has moved files to `a`, a node with its own bucket or a new one. */
  function HandOver(buckets: Buckets, x: int, a: int): Buckets
    requires x in buckets
  {
    var there := if a in buckets then buckets[a] else map[];
    buckets[a := StoreAll(there, Handed(buckets[x], a, x))][x := Kept(buckets[x], a, x)]
  }

  /** Some node holds file `f` with name `v`. */
  ghost predicate Holds(buckets: Buckets, f: int, v: string) {
    exists s | s in buckets :: f in buckets[s] && buckets[s][f] == v
  }

  /** No file is in two buckets. */
  ghost predicate Once(buckets: Buckets) {
    forall s, t, f | s in buckets && t in buckets && f in buckets[s] && f in buckets[t] :: s == t
  }

  lemma OwnerIsUnique(size: nat, nodes: set<int>, f: int, s: int, t: int)
    requires NodesOk(size, nodes) && Id(size, f) && Owner(size, nodes, f, s) && Owner(size, nodes, f, t)
    ensures s == t
  {
  }

  lemma PlacedIsOnce(size: nat, buckets: Buckets)
    requires Placed(size, buckets)
    ensures Once(buckets)
  {
    forall s, t, f | s in buckets && t in buckets && f in buckets[s] && f in buckets[t] ensures s == t {
      OwnerIsUnique(size, buckets.Keys, f, s, t);
    }
  }

  // ----- One new node -----

  /** The files that leave are exactly those to which the new node is nearer than the old owner. */
  lemma LeavesIffNearer(size: nat, f: int, a: int, x: int)
    requires Id(size, f) && Id(size, a) && Id(size, x) && a != x
    ensures Leaves(f, a, x) <==> Dist(size, f, a) < Dist(size, f, x)
  {
  }

  /** If `x` is nearest after `a` and another node `y` is nearest after `f`, then `a` is not nearer to `f` than `y`. */
  lemma OthersKeepOwner(size: nat, f: int, a: int, x: int, y: int)
    requires Id(size, f) && Id(size, a) && Id(size, x) && Id(size, y) && x != y && a != y
    requires Dist(size, a, x) <= Dist(size, a, y) && Dist(size, f, y) <= Dist(size, f, x)
    ensures Dist(size, f, y) <= Dist(size, f, a)
  {
  }

  /** A file that stays at its node has the right owner in the larger ring too. */
  lemma StaysRight(size: nat, nodes: set<int>, f: int, s: int, a: int, x: int)
    requires NodesOk(size, nodes) && Id(size, f) && Id(size, a) && a !in nodes
    requires Owner(size, nodes, a, x) && Owner(size, nodes, f, s)
    requires s == x ==> !Leaves(f, a, x)
    ensures Owner(size, nodes + {a}, f, s)
  {
    if s == x {
      LeavesIffNearer(size, f, a, x);
    } else {
      OthersKeepOwner(size, f, a, x, s);
    }
  }

  lemma MovesRight(size: nat, nodes: set<int>, f: int, a: int, x: int)
    requires NodesOk(size, nodes) && Id(size, f) && Id(size, a) && a !in nodes
    requires Owner(size, nodes, f, x) && Leaves(f, a, x)
    ensures Owner(size, nodes + {a}, f, a)
  {
    LeavesIffNearer(size, f, a, x);
  }

  /**
   The notify of a joining node keeps every file in place: each sits at the successor of its identifier in the
   enlarged ring, and none is lost, changed or doubled.
   */
  lemma JoinKeepsPlacement(size: nat, buckets: Buckets, x: int, a: int)
    requires Placed(size, buckets) && Id(size, a) && a !in buckets && Owner(size, buckets.Keys, a, x)
    ensures Placed(size, HandOver(buckets, x, a)) && Once(HandOver(buckets, x, a))
    ensures forall f, v :: Holds(HandOver(buckets, x, a), f, v) <==> Holds(buckets, f, v)
  {
    var after, nodes := HandOver(buckets, x, a), buckets.Keys;
    assert after.Keys == nodes + {a};
    forall s, f | s in after && f in after[s] ensures Id(size, f) && Owner(size, after.Keys, f, s) {
      hide Owner, Leaves;
      if s == a {
        assert f in buckets[x];
        MovesRight(size, nodes, f, a, x);
      } else {
        assert f in buckets[s];
        StaysRight(size, nodes, f, s, a, x);
      }
    }
    assert Placed(size, after);
    PlacedIsOnce(size, after);
    forall f, v ensures Holds(after, f, v) <==> Holds(buckets, f, v) {
      HandOverHolds(buckets, x, a, f, v);
    }
  }

  lemma HandOverHolds(buckets: Buckets, x: int, a: int, f: int, v: string)
    requires x in buckets && a !in buckets
    ensures Holds(HandOver(buckets, x, a), f, v) <==> Holds(buckets, f, v)
  {
    hide Leaves;
    var after := HandOver(buckets, x, a);
    if s :| s in buckets && f in buckets[s] && buckets[s][f] == v {
      var t := if s == x && Leaves(f, a, x) then a else s;
      assert t in after && f in after[t] && after[t][f] == v;
    }
    if s :| s in after && f in after[s] && after[s][f] == v {
      var t := if s == a then x else s;
      assert t in buckets && f in buckets[t] && buckets[t][f] == v;
    }
  }

  /** The notifies of nodes that are already members move nothing. */
  lemma MemberMovesNothing(size: nat, buckets: Buckets, x: int, a: int)
    requires Placed(size, buckets) && x in buckets && a in buckets && a != x
    ensures HandOver(buckets, x, a) == buckets
  {
    forall f | f in buckets[x] ensures !Leaves(f, a, x) {
      assert Owner(size, buckets.Keys, f, x);
      LeavesIffNearer(size, f, a, x);
    }
    assert Handed(buckets[x], a, x) == map[];
    assert Kept(buckets[x], a, x) == buckets[x];
    assert StoreAll(buckets[a], map[]) == buckets[a];
  }

  // ----- A ring of one, and a node that notifies itself -----

  /**
   A lone node is its own successor, so `NotifyRPC` skips the move. The ring of two is then placed right exactly
   when there was nothing to move.
   */
  lemma LoneNodeKeepsFiles(size: nat, bucket: Bucket, x: int, a: int)
    requires Id(size, x) && Id(size, a) && a != x && forall f | f in bucket :: Id(size, f)
    ensures Placed(size, map[x := bucket, a := map[]]) <==> forall f | f in bucket :: !Leaves(f, a, x)
  {
    var after: Buckets := map[x := bucket, a := map[]];
    assert after.Keys == {x, a};
    forall f | f in bucket ensures Owner(size, {x, a}, f, x) <==> !Leaves(f, a, x) {
      LeavesIffNearer(size, f, a, x);
    }
    if Placed(size, after) {
      forall f | f in bucket ensures !Leaves(f, a, x) {
        assert f in after[x];
      }
    }
  }

  /** Node 20 joins the lone node 10, which holds file 15; the file stays at 10 though 20 comes first after it. */
  lemma LoneJoinMisplaces()
    ensures !Placed(64, map[10 := map[15 := "f"], 20 := map[]])
  {
    var after: Buckets := map[10 := map[15 := "f"], 20 := map[]];
    assert 15 in after[10] && 20 in after.Keys;
    assert !Owner(64, after.Keys, 15, 10);
  }

  /**
   The next notify of the joined node, once the first node has it as successor, puts this right, whatever the first
   node holds and whatever has been stored at its proper place in the meantime; and nothing is lost.
   */
  lemma NextNotifyRepairs(size: nat, bucket: Bucket, other: Bucket, x: int, a: int)
    requires Id(size, x) && Id(size, a) && a != x && forall f | f in bucket :: Id(size, f)
    requires forall f | f in other :: Id(size, f) && Owner(size, {x, a}, f, a)
    ensures Placed(size, HandOver(map[x := bucket, a := other], x, a))
    ensures bucket.Keys !! other.Keys ==>
              forall f, v :: Holds(HandOver(map[x := bucket, a := other], x, a), f, v) <==>
                             (f in bucket && bucket[f] == v) || (f in other && other[f] == v)
  {
    var before: Buckets := map[x := bucket, a := other];
    var after := HandOver(before, x, a);
    assert after.Keys == {x, a};
    forall f | f in bucket ensures if Leaves(f, a, x) then Owner(size, {x, a}, f, a) else Owner(size, {x, a}, f, x) {
      LeavesIffNearer(size, f, a, x);
    }
    hide Owner, Leaves;
    assert after[x] == Kept(bucket, a, x) && after[a] == StoreAll(other, Handed(bucket, a, x));
    if bucket.Keys !! other.Keys {
      forall f, v
        ensures Holds(after, f, v) <==> (f in bucket && bucket[f] == v) || (f in other && other[f] == v)
      {
        if f in bucket && bucket[f] == v {
          var t := if Leaves(f, a, x) then a else x;
          assert t in after && f in after[t] && after[t][f] == v;
        } else if f in other && other[f] == v {
          assert f in after[a] && after[a][f] == v;
        }
      }
    }
  }

  /** Moving files to oneself would lose them all: each is refused as a duplicate and then deleted. */
  lemma SelfMoveLosesAll(buckets: Buckets, x: int)
    requires x in buckets
    ensures HandOver(buckets, x, x)[x] == map[]
  {
  }
}
