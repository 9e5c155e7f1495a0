/**
 Finger repair (Lab2/Node/stabilizing.go, `fingerEntry`, `fixFingers`) as a function of what the network holds.
 `fingerTableSize` and `m` are the same number, as in the source.
 */
module FixFingers {
  import opened Powers
  import opened Ring
  import opened ChordLookup
  import opened Sorting

  /** The index that a call starts with: the one after `next`, and 1 after the last. */
  function StartIndex(m: nat, next: int): int {
    if next + 1 > m then 1 else next + 1
  }

  /**
   The shortcut loop: while the next finger starts before the node just found, that node is its successor too.
   Returns the table and the new `next`.
   */
  function Shortcut(m: nat, n: int, sid: int, s: Address, fingers: seq<Address>, k: nat): (r: (seq<Address>, int))
    requires k <= m && |fingers| == m + 1
    ensures |r.0| == m + 1
    decreases m - k
  {
    if k + 1 > m then (fingers, 0)
    else if Between(n, FingerStart(m, n, k + 1), sid, false) then
      Shortcut(m, n, sid, s, fingers[k + 1 := s], k + 1)
    else (fingers, k)
  }

  /** The last index that a call has set. */
  function LastIndex(m: nat, next: int): int {
    if next == 0 then m else next
  }

  /**
   Exactly the fingers after `k` that start before the node found are set to it, up to the first that does not;
   `next` is left at the last index set, and at 0 after the whole table.
   */
  ghost predicate Extent(
    m: nat, n: int, sid: int, s: Address, before: seq<Address>, k: nat, after: seq<Address>, next: int)
  {
    && |before| == |after| == m + 1 && 0 <= next < m && k <= LastIndex(m, next)
    && (forall i: nat | k < i <= LastIndex(m, next) :: Between(n, FingerStart(m, n, i), sid, false))
    && (next != 0 ==> !Between(n, FingerStart(m, n, next + 1), sid, false))
    && forall i | 0 <= i <= m :: after[i] == if k < i <= LastIndex(m, next) then s else before[i]
  }

  lemma {:induction false} ShortcutExtent(m: nat, n: int, sid: int, s: Address, fingers: seq<Address>, k: nat)
    requires 1 <= k <= m && |fingers| == m + 1
    ensures var r := Shortcut(m, n, sid, s, fingers, k);
            Extent(m, n, sid, s, fingers, k, r.0, r.1)
    decreases m - k
  {
    hide Between, FingerStart;
    if k + 1 <= m && Between(n, FingerStart(m, n, k + 1), sid, false) {
      ShortcutExtent(m, n, sid, s, fingers[k + 1 := s], k + 1);
    }
  }

  predicate Ready(m: nat, net: Net, at: Address, next: int) {
    m >= 1 && at in net && |net[at].fingers| == m + 1 && 0 <= next <= m
  }

  /** One call of `fixFingers` at the node `at`: the table and `next` afterwards. */
  function Fix(m: nat, net: Net, at: Address, next: int): (r: (seq<Address>, int))
    requires NetOk(Pow2(m), net) && Ready(m, net, at, next)
    ensures |r.0| == m + 1
  {
    var j := StartIndex(m, next);
    var n := net[at];
    FingerStartDist(m, n.id, j);
    var reply := Lookup(Pow2(m), net, at, FingerStart(m, n.id, j));
    if reply.address.None? || reply.address.value !in net then (n.fingers, j)
    else
      var s := reply.address.value;
      Shortcut(m, n.id, net[s].id, s, n.fingers[j := s], j)
  }

  /** The index after `next`, going round from the last to the first. */
  lemma StartIsNext(m: nat, next: int)
    requires m >= 1 && 0 <= next <= m
    ensures 1 <= StartIndex(m, next) <= m && StartIndex(m, next) == next % m + 1
  {
    if next < m {
      ModIs(m, next, 0, next);
    } else {
      ModIs(m, next, 1, 0);
    }
  }

  /**
   One call looks up the start of one finger. If that fails, only `next` moves on, by one. Otherwise the node found
   goes into that finger and into exactly the following ones that start before it.
   */
  lemma FixExtent(m: nat, net: Net, at: Address, next: int)
    requires NetOk(Pow2(m), net) && Ready(m, net, at, next)
    ensures var n, j, r := net[at], next % m + 1, Fix(m, net, at, next);
            && 1 <= j <= m && Id(Pow2(m), FingerStart(m, n.id, j))
            && var found := Lookup(Pow2(m), net, at, FingerStart(m, n.id, j)).address;
               if found.Some? && found.value in net
               then Extent(m, n.id, net[found.value].id, found.value, n.fingers[j := found.value], j, r.0, r.1)
               else r == (n.fingers, j)
  {
    var n, j := net[at], StartIndex(m, next);
    StartIsNext(m, next);
    FingerStartDist(m, n.id, j);
    hide Between, FingerStart, Lookup, Shortcut, Extent, Pow2;
    var found := Lookup(Pow2(m), net, at, FingerStart(m, n.id, j)).address;
    if found.Some? && found.value in net {
      ShortcutExtent(m, n.id, net[found.value].id, found.value, n.fingers[j := found.value], j);
    }
  }

  function WithFingers(net: Net, at: Address, fingers: seq<Address>): Net
    requires at in net
  {
    net[at := net[at].(fingers := fingers)]
  }

  // ----- In a stable ring -----

  /** Finger `k` of a node is the true successor of its start. */
  ghost predicate RightFinger(m: nat, net: Net, n: int, fingers: seq<Address>, k: nat)
    requires 1 <= k <= m && |fingers| == m + 1
  {
    IsSuccessorOf(Pow2(m), net, FingerStart(m, n, k), fingers[k])
  }

  /** The shortcut never writes a wrong finger. */
  lemma ShortcutIsRight(m: nat, net: Net, n: int, s: Address, j: nat, k: nat)
    requires NetOk(Pow2(m), net) && Id(Pow2(m), n) && 1 <= j < k <= m
    requires IsSuccessorOf(Pow2(m), net, FingerStart(m, n, j), s)
    requires Between(n, FingerStart(m, n, k), net[s].id, false)
    ensures IsSuccessorOf(Pow2(m), net, FingerStart(m, n, k), s)
  {
    var size := Pow2(m);
    FingerStartDist(m, n, j);
    FingerStartDist(m, n, k);
    Pow2Increases(j - 1, k - 1);
    var start := FingerStart(m, n, k);
    forall b | b in net ensures Dist(size, start, net[s].id) <= Dist(size, start, net[b].id) {
      NearestFurtherOn(size, n, FingerStart(m, n, j), start, net[s].id, net[b].id);
    }
  }

  /** Fingers `lo` to `hi` are right. */
  ghost predicate RightRange(m: nat, net: Net, n: int, fingers: seq<Address>, lo: int, hi: int) {
    |fingers| == m + 1 && forall i: nat | 1 <= i <= m && lo <= i <= hi :: RightFinger(m, net, n, fingers, i)
  }

  /** A finger that was right still is. */
  ghost predicate NoneSpoiled(m: nat, net: Net, n: int, before: seq<Address>, after: seq<Address>) {
    && |before| == |after| == m + 1
    && forall i: nat | 1 <= i <= m && RightFinger(m, net, n, before, i) :: RightFinger(m, net, n, after, i)
  }

  lemma SetRight(m: nat, net: Net, n: int, fingers: seq<Address>, k: nat, s: Address)
    requires |fingers| == m + 1 && 1 <= k <= m && IsSuccessorOf(Pow2(m), net, FingerStart(m, n, k), s)
    ensures RightFinger(m, net, n, fingers[k := s], k)
    ensures NoneSpoiled(m, net, n, fingers, fingers[k := s])
  {
    hide IsSuccessorOf, FingerStart;
  }

  lemma {:induction false} ShortcutFacts(
    m: nat, net: Net, n: int, s: Address, fingers: seq<Address>, j: nat, k: nat)
    requires NetOk(Pow2(m), net) && Id(Pow2(m), n) && 1 <= j <= k <= m && |fingers| == m + 1
    requires s in net && IsSuccessorOf(Pow2(m), net, FingerStart(m, n, j), s)
    ensures var r := Shortcut(m, n, net[s].id, s, fingers, k);
            && 0 <= r.1 <= m && k <= LastIndex(m, r.1)
            && RightRange(m, net, n, r.0, k + 1, LastIndex(m, r.1))
            && NoneSpoiled(m, net, n, fingers, r.0)
    decreases m - k
  {
    hide IsSuccessorOf, Between, FingerStart, NetOk, RightFinger;
    if k + 1 <= m && Between(n, FingerStart(m, n, k + 1), net[s].id, false) {
      var fingers' := fingers[k + 1 := s];
      ShortcutIsRight(m, net, n, s, j, k + 1);
      SetRight(m, net, n, fingers, k + 1, s);
      ShortcutFacts(m, net, n, s, fingers', j, k + 1);
    }
  }

  /**
   One call in a ring with right successors: it sets the fingers from its start index to the last one it
   touches, at least one of them, spoils none that was right, and leaves `next` in range. The first finger not set
   starts at or after the node found.
   */
  lemma FixFacts(m: nat, net: Net, at: Address, next: int)
    requires NetOk(Pow2(m), net) && RightSuccessors(net) && Ready(m, net, at, next)
    ensures var r := Fix(m, net, at, next);
            && 0 <= r.1 <= m && StartIndex(m, next) <= LastIndex(m, r.1)
            && RightRange(m, net, net[at].id, r.0, StartIndex(m, next), LastIndex(m, r.1))
            && NoneSpoiled(m, net, net[at].id, net[at].fingers, r.0)
            && r.1 < m && r.0[StartIndex(m, next)] in net
            && (r.1 != 0 ==>
                  !Between(net[at].id, FingerStart(m, net[at].id, r.1 + 1), net[r.0[StartIndex(m, next)]].id, false))
  {
    hide IsSuccessorOf, Between, FingerStart, RightSuccessors, RightFinger, RightRange, NetOk, Lookup, Shortcut, Pow2,
      Dist;
    var n, j := net[at], StartIndex(m, next);
    NetId(Pow2(m), net, at);
    FingerStartDist(m, n.id, j);
    LookupIsRight(Pow2(m), net, at, FingerStart(m, n.id, j));
    var s := Lookup(Pow2(m), net, at, FingerStart(m, n.id, j)).address.value;
    SuccessorInNet(Pow2(m), net, FingerStart(m, n.id, j), s);
    SetRight(m, net, n.id, n.fingers, j, s);
    ShortcutFacts(m, net, n.id, s, n.fingers[j := s], j, j);
    var r := Fix(m, net, at, next);
    SpoilNone(m, net, n.id, n.fingers, n.fingers[j := s], r.0, j, LastIndex(m, r.1));
    ShortcutExtent(m, n.id, net[s].id, s, n.fingers[j := s], j);
  }

  lemma NetId(size: nat, net: Net, a: Address)
    requires NetOk(size, net) && a in net
    ensures Id(size, net[a].id)
  {
  }

  lemma SpoilNone(
    m: nat, net: Net, n: int, a: seq<Address>, b: seq<Address>, c: seq<Address>, j: nat, hi: int)
    requires NoneSpoiled(m, net, n, a, b) && NoneSpoiled(m, net, n, b, c)
    requires 1 <= j <= m && RightFinger(m, net, n, b, j) && RightRange(m, net, n, c, j + 1, hi)
    ensures NoneSpoiled(m, net, n, a, c) && RightRange(m, net, n, c, j, hi)
  {
    hide RightFinger;
  }

  lemma SuccessorInNet(size: nat, net: Net, id: int, s: Address)
    requires IsSuccessorOf(size, net, id, s)
    ensures s in net
  {
  }

  // ----- Any number of calls, at any nodes, in any order -----

  /** Every member has its own place in its own table. */
  ghost predicate AllReady(m: nat, net: Net, nexts: map<Address, int>) {
    forall a | a in net :: a in nexts && Ready(m, net, a, nexts[a])
  }

  ghost predicate Members(net: Net, schedule: seq<Address>) {
    forall i | 0 <= i < |schedule| :: schedule[i] in net
  }

  /** The network and every `next` after the calls of `schedule`, each at the node it names. */
  ghost function Repair(
    m: nat, net: Net, nexts: map<Address, int>, schedule: seq<Address>): (r: (Net, map<Address, int>))
    requires NetOk(Pow2(m), net) && RightSuccessors(net) && AllReady(m, net, nexts) && Members(net, schedule)
    ensures NetOk(Pow2(m), r.0) && RightSuccessors(r.0) && SameButFingers(net, r.0) && AllReady(m, r.0, r.1)
  {
    if schedule == [] then (net, nexts)
    else
      var k := |schedule| - 1;
      var (before, nexts') := Repair(m, net, nexts, schedule[..k]);
      CallKeeps(m, before, nexts', schedule[k]);
      Called(m, before, nexts', schedule[k])
  }

  /** One call at the node `at`. */
  ghost function Called(m: nat, net: Net, nexts: map<Address, int>, at: Address): (Net, map<Address, int>)
    requires NetOk(Pow2(m), net) && AllReady(m, net, nexts) && at in net
  {
    var r := Fix(m, net, at, nexts[at]);
    (WithFingers(net, at, r.0), nexts[at := r.1])
  }

  lemma CallKeeps(m: nat, net: Net, nexts: map<Address, int>, at: Address)
    requires NetOk(Pow2(m), net) && RightSuccessors(net) && AllReady(m, net, nexts) && at in net
    ensures var r := Called(m, net, nexts, at);
            NetOk(Pow2(m), r.0) && RightSuccessors(r.0) && SameButFingers(net, r.0) && AllReady(m, r.0, r.1)
  {
    hide NetOk, RightSuccessors, Fix, RightRange, NoneSpoiled, SameButFingers;
    FixFacts(m, net, at, nexts[at]);
    FingersDoNotMatter(m, net, at, Fix(m, net, at, nexts[at]).0);
  }

  ghost predicate SameButFingers(a: Net, b: Net) {
    a.Keys == b.Keys && forall x | x in a :: a[x].id == b[x].id && a[x].successor == b[x].successor
  }

  lemma FingersDoNotMatter(m: nat, net: Net, at: Address, fingers: seq<Address>)
    requires NetOk(Pow2(m), net) && RightSuccessors(net) && at in net
    ensures var net' := WithFingers(net, at, fingers);
            NetOk(Pow2(m), net') && RightSuccessors(net') && SameButFingers(net, net')
  {
    hide NetOk, RightSuccessors;
    SameNet(Pow2(m), net, WithFingers(net, at, fingers));
  }

  lemma SameNet(size: nat, a: Net, b: Net)
    requires SameButFingers(a, b) && NetOk(size, a) && RightSuccessors(a)
    ensures NetOk(size, b) && RightSuccessors(b)
  {
    hide RightSuccessor;
    forall x | x in b ensures RightSuccessor(b, x) {
      assert RightSuccessor(a, x);
      SameNetAt(a, b, x);
    }
  }

  lemma SameNetAt(a: Net, b: Net, x: Address)
    requires SameButFingers(a, b) && x in a && RightSuccessor(a, x)
    ensures x in b && RightSuccessor(b, x)
  {
    hide Between;
  }

  lemma RightFingerSame(m: nat, a: Net, b: Net, n: int, fingers: seq<Address>, k: nat)
    requires SameButFingers(a, b) && 1 <= k <= m && |fingers| == m + 1
    ensures RightFinger(m, a, n, fingers, k) <==> RightFinger(m, b, n, fingers, k)
  {
  }

  /** Index `y` of a table that is gone through over and over, for `y` up to two rounds. */
  function Wrap(m: nat, y: int): int {
    if y > m then y - m else y
  }

  /** Where the calls have got to: 0 before index 1, and again after index `m`. */
  function Place(m: nat, next: int): int {
    if next == m then 0 else next
  }

  /** The `a` indices that follow `p` are right; `next` stands after the last of them. */
  ghost predicate Swept(m: nat, net: Net, at: Address, next: int, p: int, a: int) {
    && at in net && |net[at].fingers| == m + 1
    && 0 <= p < m && 0 <= a < m
    && Place(m, next) == (if p + a >= m then p + a - m else p + a)
    && forall y | p < y <= p + a :: RightFinger(m, net, net[at].id, net[at].fingers, Wrap(m, y))
  }

  ghost predicate AllRight(m: nat, net: Net, at: Address) {
    at in net && RightRange(m, net, net[at].id, net[at].fingers, 1, m)
  }

  /** One more call either completes the table or sweeps on by at least one index. */
  lemma SweepOn(m: nat, net: Net, at: Address, next: int, p: int, a: int) returns (a': int)
    requires NetOk(Pow2(m), net) && RightSuccessors(net) && Ready(m, net, at, next)
    requires Swept(m, net, at, next, p, a)
    ensures var r := Fix(m, net, at, next);
            var net' := WithFingers(net, at, r.0);
            AllRight(m, net', at) || (a < a' && Swept(m, net', at, r.1, p, a'))
  {
    hide IsSuccessorOf, RightSuccessors, NetOk, RightFinger, Fix;
    var r, n := Fix(m, net, at, next), net[at].id;
    FixFacts(m, net, at, next);
    FingersDoNotMatter(m, net, at, r.0);
    var net' := WithFingers(net, at, r.0);
    var last := LastIndex(m, r.1);
    a' := a + last - Place(m, next);
    forall y | p < y <= p + a' && y <= p + m ensures RightFinger(m, net', n, r.0, Wrap(m, y)) {
      RightFingerSame(m, net, net', n, r.0, Wrap(m, y));
      if y <= p + a {
        assert RightFinger(m, net, n, net[at].fingers, Wrap(m, y));
      }
    }
    if a' >= m {
      forall i: nat | 1 <= i <= m ensures RightFinger(m, net', n, r.0, i) {
        var y := if i > p then i else i + m;
        assert Wrap(m, y) == i;
      }
    }
  }

  /** A complete table stays complete. */
  lemma AllRightStays(m: nat, net: Net, at: Address, next: int)
    requires NetOk(Pow2(m), net) && RightSuccessors(net) && Ready(m, net, at, next) && AllRight(m, net, at)
    ensures AllRight(m, WithFingers(net, at, Fix(m, net, at, next).0), at)
  {
    hide IsSuccessorOf, RightSuccessors, NetOk, RightFinger, Fix;
    var r, n := Fix(m, net, at, next), net[at].id;
    FixFacts(m, net, at, next);
    FingersDoNotMatter(m, net, at, r.0);
    var net' := WithFingers(net, at, r.0);
    forall i: nat | 1 <= i <= m ensures RightFinger(m, net', n, r.0, i) {
      RightFingerSame(m, net, net', n, r.0, i);
      assert RightFinger(m, net, n, net[at].fingers, i);
    }
  }

  /** The table of `at` is complete, or at least `t` indices after `p` have been swept. */
  ghost predicate Progress(m: nat, net: Net, at: Address, next: int, p: int, t: nat) {
    AllRight(m, net, at) || exists a :: t <= a && Swept(m, net, at, next, p, a)
  }

  /** A call at another node leaves this table and what is right about it alone. */
  lemma OthersSpoilNothing(m: nat, net: Net, net': Net, at: Address, next: int, p: int, t: nat)
    requires SameButFingers(net, net') && at in net && net'[at] == net[at]
    requires Progress(m, net, at, next, p, t)
    ensures Progress(m, net', at, next, p, t)
  {
    hide RightFinger;
    var n, fingers := net[at].id, net[at].fingers;
    if AllRight(m, net, at) {
      forall k: nat | 1 <= k <= m ensures RightFinger(m, net', n, fingers, k) {
        RightFingerSame(m, net, net', n, fingers, k);
        assert RightFinger(m, net, n, fingers, k);
      }
    } else {
      var a :| t <= a && Swept(m, net, at, next, p, a);
      forall y | p < y <= p + a ensures RightFinger(m, net', n, fingers, Wrap(m, y)) {
        RightFingerSame(m, net, net', n, fingers, Wrap(m, y));
        assert RightFinger(m, net, n, fingers, Wrap(m, y));
      }
      assert Swept(m, net', at, next, p, a);
    }
  }

  lemma OwnCallProgresses(m: nat, net: Net, nexts: map<Address, int>, at: Address, p: int, t: nat)
    requires NetOk(Pow2(m), net) && RightSuccessors(net) && AllReady(m, net, nexts) && at in net
    requires Progress(m, net, at, nexts[at], p, t)
    ensures var r := Called(m, net, nexts, at);
            Progress(m, r.0, at, r.1[at], p, t + 1)
  {
    hide NetOk, RightSuccessors, Fix, AllRight, Swept, WithFingers;
    if AllRight(m, net, at) {
      AllRightStays(m, net, at, nexts[at]);
    } else {
      var a :| t <= a && Swept(m, net, at, nexts[at], p, a);
      var a' := SweepOn(m, net, at, nexts[at], p, a);
    }
  }

  lemma {:induction false} ScheduleProgresses(
    m: nat, net: Net, nexts: map<Address, int>, schedule: seq<Address>, at: Address)
    requires NetOk(Pow2(m), net) && RightSuccessors(net) && AllReady(m, net, nexts) && Members(net, schedule)
    requires at in net
    ensures var r := Repair(m, net, nexts, schedule);
            at in r.0 && at in r.1 && Progress(m, r.0, at, r.1[at], Place(m, nexts[at]), multiset(schedule)[at])
  {
    hide NetOk, RightSuccessors, Fix, AllRight, Progress, WithFingers, Called, Place, Ready, IsSuccessorOf, Between,
      Dist, Dist1, Lookup, Pow2;
    var p := Place(m, nexts[at]);
    if schedule == [] {
      SweptStart(m, net, nexts, at);
    } else {
      var k := |schedule| - 1;
      ScheduleProgresses(m, net, nexts, schedule[..k], at);
      var (before, nexts') := Repair(m, net, nexts, schedule[..k]);
      CallKeeps(m, before, nexts', schedule[k]);
      assert schedule == schedule[..k] + [schedule[k]];
      MultisetSnoc(schedule[..k], schedule[k], at);
      var t := multiset(schedule[..k])[at];
      if schedule[k] == at {
        OwnCallProgresses(m, before, nexts', at, p, t);
      } else {
        CallElsewhere(m, before, nexts', schedule[k], at);
        OthersSpoilNothing(m, before, Called(m, before, nexts', schedule[k]).0, at, nexts'[at], p, t);
      }
    }
  }

  lemma CallElsewhere(m: nat, net: Net, nexts: map<Address, int>, x: Address, at: Address)
    requires NetOk(Pow2(m), net) && AllReady(m, net, nexts) && x in net && at in net && x != at
    ensures var r := Called(m, net, nexts, x);
            at in r.0 && r.0[at] == net[at] && r.1[at] == nexts[at]
  {
    hide Fix;
  }

  lemma SweptStart(m: nat, net: Net, nexts: map<Address, int>, at: Address)
    requires AllReady(m, net, nexts) && at in net
    ensures Progress(m, net, at, nexts[at], Place(m, nexts[at]), 0)
  {
    assert Ready(m, net, at, nexts[at]);
    assert Swept(m, net, at, nexts[at], Place(m, nexts[at]), 0);
  }

  /**
   From any tables and any legal `next`s, whatever calls other nodes make in between, `m` calls at a node make every
   one of its fingers right, and they stay so.
   */
  lemma MCallsFixAll(m: nat, net: Net, nexts: map<Address, int>, schedule: seq<Address>, at: Address)
    requires NetOk(Pow2(m), net) && RightSuccessors(net) && AllReady(m, net, nexts) && Members(net, schedule)
    requires at in net && multiset(schedule)[at] >= m
    ensures AllRight(m, Repair(m, net, nexts, schedule).0, at)
  {
    hide NetOk, RightSuccessors, Repair, AllRight;
    ScheduleProgresses(m, net, nexts, schedule, at);
  }

  lemma AllRightIsAccurate(m: nat, net: Net)
    requires NetOk(Pow2(m), net) && forall a | a in net :: AllRight(m, net, a)
    ensures AccurateFingers(m, net)
  {
    hide IsSuccessorOf, FingerStart;
    forall a | a in net
      ensures |net[a].fingers| == m + 1
      ensures forall k | 1 <= k <= m :: IsSuccessorOf(Pow2(m), net, FingerStart(m, net[a].id, k), net[a].fingers[k])
    {
      assert AllRight(m, net, a);
      forall k: nat | 1 <= k <= m
        ensures IsSuccessorOf(Pow2(m), net, FingerStart(m, net[a].id, k), net[a].fingers[k])
      {
        assert RightFinger(m, net, net[a].id, net[a].fingers, k);
      }
    }
  }

  /** After `m` calls at every node, in any order, every lookup is right and is forwarded at most `m` times. */
  lemma RepairedLookupsAreShort(
    m: nat, net: Net, nexts: map<Address, int>, schedule: seq<Address>, at: Address, id: int)
    requires NetOk(Pow2(m), net) && RightSuccessors(net) && AllReady(m, net, nexts) && Members(net, schedule)
    requires forall a | a in net :: multiset(schedule)[a] >= m
    requires at in net && Id(Pow2(m), id)
    ensures var net' := Repair(m, net, nexts, schedule).0;
            && AccurateFingers(m, net') && at in net' && Hops(Pow2(m), net', at, id) <= m
            && var r := Lookup(Pow2(m), net', at, id);
               r.found && r.address.Some? && IsSuccessorOf(Pow2(m), net', id, r.address.value)
  {
    hide NetOk, RightSuccessors, Repair, AllRight, AccurateFingers, IsSuccessorOf;
    var net' := Repair(m, net, nexts, schedule).0;
    forall a | a in net' ensures AllRight(m, net', a) {
      MCallsFixAll(m, net, nexts, schedule, a);
    }
    AllRightIsAccurate(m, net');
    LookupTakesAtMostM(m, net', at, id);
    LookupIsRight(Pow2(m), net', at, id);
  }
}
