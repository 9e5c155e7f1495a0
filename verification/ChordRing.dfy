/**
 Create, join, stabilise and notify (Lab2/Node/node.go and stabilizing.go; section 4.4 and 5 of Stoica et al.,
 SIGCOMM 2001), as the set of all failure-free runs. Nodes are named by their identifiers, which are distinct.

 A remote call is two steps, with any other steps in between: what was asked or answered stays in `mail`.
 Mail is never removed, so it may arrive late, more than once, or not at all.
 */
module ChordRing {
  import opened Ring
  import opened Options

  datatype Peer = Peer(successor: int, predecessor: Option<int>)

  datatype Mail =
    | Answer(n: int, s: int)           // a lookup told the joining node n that s is its successor
    | Fetched(n: int, s: int, p: int)  // n asked its successor s for its predecessor, which was p
    | Notify(x: int, n: int)           // n tells x that it might be its predecessor
    | Accepted(x: int, n: int)         // x has compared n with its predecessor and will take n

  type Peers = map<int, Peer>

  datatype State = State(peers: Peers, mail: set<Mail>)

  /** `createChord`: the first node is its own successor. */
  ghost predicate Created(size: nat, b: int, st: State) {
    Id(size, b) && st == State(map[b := Peer(b, None)], {})
  }

  datatype Step =
    | Locate(n: int, c: int)          // the lookup of a joining node's identifier ends at c
    | Join(n: int, s: int)            // joinChord takes the answer and notifies
    | Fetch(n: int)                   // stablize reads the successor's predecessor
    | Adopt(n: int, s: int, p: int)   // stablize compares, perhaps changes its successor, and notifies
    | NotifyOnly(n: int)              // stablize when the successor has no predecessor yet
    | Compare(x: int, n: int)         // notify compares n with the current predecessor
    | SetPredecessor(x: int, n: int)  // notify stores n

  ghost predicate Enabled(size: nat, st: State, e: Step) {
    match e
    case Locate(n, c) =>
      Id(size, n) && n !in st.peers && c in st.peers && Between(c, n, st.peers[c].successor, true)
    case Join(n, s) => n !in st.peers && Answer(n, s) in st.mail
    case Fetch(n) =>
      n in st.peers && st.peers[n].successor in st.peers && st.peers[st.peers[n].successor].predecessor.Some?
    case Adopt(n, s, p) => n in st.peers && Fetched(n, s, p) in st.mail && st.peers[n].successor == s
    case NotifyOnly(n) => n in st.peers
    case Compare(x, n) => x in st.peers && Notify(x, n) in st.mail
    case SetPredecessor(x, n) => x in st.peers && Accepted(x, n) in st.mail
  }

  /** `stablize`: the successor's predecessor becomes the successor if it lies in between. */
  function Adopted(n: int, s: int, p: int): int {
    if Between(n, p, s, false) then p else s
  }

  /** `notify`: is `n` a better predecessor of `x` than the current one? */
  predicate Closer(x: int, predecessor: Option<int>, n: int) {
    predecessor.None? || Between(predecessor.value, n, x, false)
  }

  /** `stablize` ends with the nearer of the two nodes; the node itself counts as a full turn away. */
  lemma AdoptedIsNearer(size: nat, n: int, s: int, p: int)
    requires Id(size, n) && Id(size, s) && Id(size, p)
    ensures Adopted(n, s, p) == if Dist1(size, n, p) < Dist1(size, n, s) then p else s
  {
    BetweenIsDistance(size, n, p, s);
  }

  /** `notify` replaces a predecessor exactly by one that is nearer, going clockwise from it to `x`. */
  lemma CloserIsNearer(size: nat, x: int, p: int, n: int)
    requires Id(size, x) && Id(size, p) && Id(size, n)
    ensures Closer(x, Some(p), n) <==> Dist1(size, n, x) < Dist1(size, p, x)
  {
    BetweenMeansNearer(size, p, n, x);
  }

  ghost function Apply(size: nat, st: State, e: Step): State
    requires Enabled(size, st, e)
  {
    var peers := st.peers;
    match e
    case Locate(n, c) => st.(mail := st.mail + {Answer(n, peers[c].successor)})
    case Join(n, s) => State(peers[n := Peer(s, None)], st.mail + {Notify(s, n)})
    case Fetch(n) =>
      var s := peers[n].successor;
      st.(mail := st.mail + {Fetched(n, s, peers[s].predecessor.value)})
    case Adopt(n, s, p) =>
      var s' := Adopted(n, s, p);
      State(peers[n := peers[n].(successor := s')], st.mail + {Notify(s', n)})
    case NotifyOnly(n) => st.(mail := st.mail + {Notify(peers[n].successor, n)})
    case Compare(x, n) =>
      if Closer(x, peers[x].predecessor, n) then st.(mail := st.mail + {Accepted(x, n)}) else st
    case SetPredecessor(x, n) => st.(peers := peers[x := peers[x].(predecessor := Some(n))])
  }

  ghost predicate Next(size: nat, st: State, st': State) {
    exists e :: Enabled(size, st, e) && st' == Apply(size, st, e)
  }

  ghost predicate IsRun(size: nat, b: int, run: seq<State>) {
    && run != []
    && Created(size, b, run[0])
    && forall i | 0 <= i < |run| - 1 :: Next(size, run[i], run[i + 1])
  }

  // ----- Clockwise successor paths -----

  /** Following successors clockwise from `x` leads to `y` without passing it. */
  ghost predicate Reaches(size: nat, peers: Peers, x: int, y: int)
    requires Id(size, x) && Id(size, y)
    decreases Dist(size, x, y)
  {
    x == y ||
    (x in peers && Id(size, peers[x].successor) &&
     Dist1(size, x, peers[x].successor) <= Dist(size, x, y) &&
     Reaches(size, peers, peers[x].successor, y))
  }

  lemma {:induction false} ReachesTransitive(size: nat, peers: Peers, x: int, y: int, z: int)
    requires Id(size, x) && Id(size, y) && Id(size, z)
    requires Reaches(size, peers, x, y) && Reaches(size, peers, y, z)
    requires Dist(size, x, y) + Dist(size, y, z) == Dist(size, x, z)
    ensures Reaches(size, peers, x, z)
    decreases Dist(size, x, y)
  {
    if x != y {
      ReachesTransitive(size, peers, peers[x].successor, y, z);
    }
  }

  /** `after` differs from `before` in one successor, moved to a node from which the old one is reached. */
  ghost predicate Refined(size: nat, before: Peers, after: Peers, n: int, p: int) {
    && n in before && Id(size, n) && Id(size, p) && Id(size, before[n].successor)
    && Between(n, p, before[n].successor, false)
    && Reaches(size, before, p, before[n].successor)
    && after.Keys == before.Keys
    && after[n].successor == p
    && forall x | x in before && x != n :: after[x].successor == before[x].successor
  }

  /** Refining a successor keeps every clockwise path. */
  lemma {:induction false} RefinedKeepsPath(size: nat, before: Peers, after: Peers, n: int, p: int, x: int, y: int)
    requires Refined(size, before, after, n, p)
    requires Id(size, x) && Id(size, y) && Reaches(size, before, x, y)
    ensures Reaches(size, after, x, y)
    decreases Dist(size, x, y)
  {
    if x != y {
      if x == n {
        var s := before[n].successor;
        DetourFits(size, n, p, s, y);
        ReachesTransitive(size, before, p, s, y);
        RefinedKeepsPath(size, before, after, n, p, p, y);
      } else {
        RefinedKeepsPath(size, before, after, n, p, before[x].successor, y);
      }
    }
  }

  lemma DetourFits(size: nat, n: int, p: int, s: int, y: int)
    requires Id(size, n) && Id(size, p) && Id(size, s) && Id(size, y)
    requires Between(n, p, s, false) && n != y && Dist1(size, n, s) <= Dist(size, n, y)
    ensures Dist(size, p, s) + Dist(size, s, y) == Dist(size, p, y)
    ensures Dist1(size, n, p) <= Dist(size, n, y) && Dist(size, p, y) < Dist(size, n, y)
  {
  }

  /** Nodes added and predecessors changed do not touch existing paths. */
  lemma {:induction false} ExtendedKeepsPath(size: nat, before: Peers, after: Peers, x: int, y: int)
    requires forall z | z in before :: z in after && after[z].successor == before[z].successor
    requires Id(size, x) && Id(size, y) && Reaches(size, before, x, y)
    ensures Reaches(size, after, x, y)
    decreases Dist(size, x, y)
  {
    if x != y {
      ExtendedKeepsPath(size, before, after, before[x].successor, y);
    }
  }

  // ----- What every run keeps -----

  /** Pointers lead to members, and none jumps over the first node `b`. */
  ghost predicate SuccessorsOk(size: nat, b: int, peers: Peers) {
    && b in peers
    && forall n | n in peers ::
         && Id(size, n)
         && peers[n].successor in peers
         && !Between(n, b, peers[n].successor, false)
  }

  /** A node that claims to precede another reaches it. */
  ghost predicate Behind(size: nat, peers: Peers, n: int, x: int) {
    n in peers && x in peers && Id(size, n) && Id(size, x) && Reaches(size, peers, n, x)
  }

  ghost predicate MailOk(size: nat, b: int, peers: Peers, mail: Mail) {
    match mail
    case Answer(n, s) => Id(size, n) && s in peers && !Between(n, b, s, false)
    case Fetched(n, s, p) => Behind(size, peers, p, s)
    case Notify(x, n) => Behind(size, peers, n, x)
    case Accepted(x, n) => Behind(size, peers, n, x)
  }

  ghost predicate Inv(size: nat, b: int, st: State) {
    && Id(size, b)
    && SuccessorsOk(size, b, st.peers)
    && (forall x | x in st.peers && st.peers[x].predecessor.Some? ::
          Behind(size, st.peers, st.peers[x].predecessor.value, x))
    && (forall m | m in st.mail :: MailOk(size, b, st.peers, m))
  }

  /** Everything that was reached before is reached still. */
  ghost predicate PathsKept(size: nat, before: Peers, after: Peers) {
    && (forall x | x in before :: x in after)
    && (forall x, y | Id(size, x) && Id(size, y) && Reaches(size, before, x, y) :: Reaches(size, after, x, y))
  }

  lemma MailKept(size: nat, b: int, before: Peers, after: Peers, m: Mail)
    requires PathsKept(size, before, after) && MailOk(size, b, before, m)
    ensures MailOk(size, b, after, m)
  {
  }

  /** The new successor pointers of a joining or adopting node do not jump over `b` either. */
  lemma SubIntervalAvoids(size: nat, c: int, n: int, s: int, b: int)
    requires Id(size, c) && Id(size, n) && Id(size, s) && Id(size, b)
    requires Between(c, n, s, true) && !Between(c, b, s, false) && n != s
    ensures !Between(n, b, s, false)
  {
  }

  lemma AdoptedAvoids(size: nat, n: int, p: int, s: int, b: int)
    requires Id(size, n) && Id(size, p) && Id(size, s) && Id(size, b)
    requires Between(n, p, s, false) && !Between(n, b, s, false)
    ensures !Between(n, b, p, false)
  {
  }

  lemma RefinedKeepsPaths(size: nat, before: Peers, after: Peers, n: int, p: int)
    requires Refined(size, before, after, n, p)
    ensures PathsKept(size, before, after)
  {
    forall x, y | Id(size, x) && Id(size, y) && Reaches(size, before, x, y) ensures Reaches(size, after, x, y) {
      RefinedKeepsPath(size, before, after, n, p, x, y);
    }
  }

  lemma ExtendedKeepsPaths(size: nat, before: Peers, after: Peers)
    requires forall z | z in before :: z in after && after[z].successor == before[z].successor
    ensures PathsKept(size, before, after)
  {
    forall x, y | Id(size, x) && Id(size, y) && Reaches(size, before, x, y) ensures Reaches(size, after, x, y) {
      ExtendedKeepsPath(size, before, after, x, y);
    }
  }

  lemma PathKept(size: nat, before: Peers, after: Peers, x: int, y: int)
    requires PathsKept(size, before, after) && Id(size, x) && Id(size, y) && Reaches(size, before, x, y)
    ensures Reaches(size, after, x, y)
  {
  }

  lemma BehindKept(size: nat, before: Peers, after: Peers, n: int, x: int)
    requires PathsKept(size, before, after) && Behind(size, before, n, x)
    ensures Behind(size, after, n, x)
  {
  }

  /** Does the step move a successor pointer? */
  ghost predicate Moves(st: State, e: Step) {
    e.Adopt? && Between(e.n, e.p, e.s, false)
  }

  lemma OthersKeepSuccessors(size: nat, st: State, e: Step, z: int)
    requires Enabled(size, st, e) && z in st.peers
    requires Moves(st, e) ==> z != e.n
    ensures var after := Apply(size, st, e).peers;
            z in after && after[z].successor == st.peers[z].successor
  {
    hide Between;
  }

  lemma MovesRefines(size: nat, b: int, st: State, e: Step)
    requires Inv(size, b, st) && Enabled(size, st, e) && Moves(st, e)
    ensures e.Adopt?
    ensures Refined(size, st.peers, Apply(size, st, e).peers, e.n, e.p)
  {
    hide Reaches;
    assert MailOk(size, b, st.peers, Fetched(e.n, e.s, e.p));
    assert Id(size, e.n);
  }

  /** No step loses a clockwise path. */
  lemma StepKeepsPaths(size: nat, b: int, st: State, e: Step)
    requires Inv(size, b, st) && Enabled(size, st, e)
    ensures PathsKept(size, st.peers, Apply(size, st, e).peers)
  {
    hide *;
    var after := Apply(size, st, e).peers;
    if Moves(st, e) {
      MovesRefines(size, b, st, e);
      RefinedKeepsPaths(size, st.peers, after, e.n, e.p);
    } else {
      forall z | z in st.peers ensures z in after && after[z].successor == st.peers[z].successor {
        OthersKeepSuccessors(size, st, e, z);
      }
      ExtendedKeepsPaths(size, st.peers, after);
    }
  }

  /** A new or changed pointer that leads to a member and does not jump over `b`. */
  lemma SuccessorsPut(size: nat, b: int, peers: Peers, n: int, peer: Peer)
    requires SuccessorsOk(size, b, peers) && Id(size, n)
    requires (peer.successor in peers || peer.successor == n) && !Between(n, b, peer.successor, false)
    ensures SuccessorsOk(size, b, peers[n := peer])
  {
    hide Between;
  }

  lemma SuccessorFacts(size: nat, b: int, peers: Peers, n: int)
    requires SuccessorsOk(size, b, peers) && n in peers
    ensures Id(size, n) && peers[n].successor in peers && Id(size, peers[n].successor)
    ensures !Between(n, b, peers[n].successor, false)
  {
    hide Between;
  }

  lemma AdoptedIsOk(size: nat, b: int, peers: Peers, n: int, p: int)
    requires Id(size, b) && SuccessorsOk(size, b, peers) && n in peers && p in peers
    ensures var s' := Adopted(n, peers[n].successor, p);
            s' in peers && !Between(n, b, s', false)
  {
    var s := peers[n].successor;
    SuccessorFacts(size, b, peers, n);
    SuccessorFacts(size, b, peers, p);
    hide Between, SuccessorsOk;
    if Between(n, p, s, false) {
      AdoptedAvoids(size, n, p, s, b);
    }
  }

  lemma StepKeepsSuccessors(size: nat, b: int, st: State, e: Step)
    requires Inv(size, b, st) && Enabled(size, st, e)
    ensures SuccessorsOk(size, b, Apply(size, st, e).peers)
  {
    hide Reaches, Between, SuccessorsOk, Adopted, Closer;
    match e {
      case Join(n, s) =>
        assert MailOk(size, b, st.peers, Answer(n, s));
        SuccessorsPut(size, b, st.peers, n, Peer(s, None));
      case Adopt(n, s, p) =>
        assert MailOk(size, b, st.peers, Fetched(n, s, p));
        SuccessorFacts(size, b, st.peers, n);
        AdoptedIsOk(size, b, st.peers, n, p);
        SuccessorsPut(size, b, st.peers, n, st.peers[n].(successor := Adopted(n, s, p)));
      case SetPredecessor(x, n) =>
        SuccessorFacts(size, b, st.peers, x);
        SuccessorsPut(size, b, st.peers, x, st.peers[x].(predecessor := Some(n)));
      case _ =>
    }
  }

  lemma SuccessorIsBehind(size: nat, peers: Peers, n: int)
    requires n in peers && peers[n].successor in peers && Id(size, n) && Id(size, peers[n].successor)
    ensures Behind(size, peers, n, peers[n].successor)
  {
    var s := peers[n].successor;
    assert Reaches(size, peers, s, s);
  }

  /** What a lookup that ends at member `c` answers. */
  lemma AnswerIsOk(size: nat, b: int, peers: Peers, n: int, c: int)
    requires Id(size, b) && SuccessorsOk(size, b, peers) && Id(size, n) && n !in peers && c in peers
    requires Between(c, n, peers[c].successor, true)
    ensures MailOk(size, b, peers, Answer(n, peers[c].successor))
  {
    SuccessorFacts(size, b, peers, c);
    hide SuccessorsOk, Between;
    SubIntervalAvoids(size, c, n, peers[c].successor, b);
  }

  /** A node may notify its successor. */
  lemma NotifyIsOk(size: nat, b: int, peers: Peers, n: int)
    requires SuccessorsOk(size, b, peers) && n in peers
    ensures MailOk(size, b, peers, Notify(peers[n].successor, n))
  {
    SuccessorFacts(size, b, peers, n);
    hide SuccessorsOk, Reaches;
    SuccessorIsBehind(size, peers, n);
  }

  /** What a step adds to the mail. */
  lemma NewMailOk(size: nat, b: int, st: State, e: Step, m: Mail)
    requires Inv(size, b, st) && Enabled(size, st, e)
    requires m in Apply(size, st, e).mail && m !in st.mail
    requires SuccessorsOk(size, b, Apply(size, st, e).peers)
    ensures MailOk(size, b, Apply(size, st, e).peers, m)
  {
    hide Reaches, SuccessorsOk, Between, Adopted;
    var after := Apply(size, st, e).peers;
    match e {
      case Locate(n, c) => AnswerIsOk(size, b, st.peers, n, c);
      case Join(n, s) => NotifyIsOk(size, b, after, n);
      case Fetch(n) =>
        var s := st.peers[n].successor;
        assert Behind(size, st.peers, st.peers[s].predecessor.value, s);
      case Adopt(n, s, p) => NotifyIsOk(size, b, after, n);
      case NotifyOnly(n) => NotifyIsOk(size, b, after, n);
      case Compare(x, n) => assert MailOk(size, b, st.peers, Notify(x, n));
      case SetPredecessor(x, n) =>
    }
  }

  lemma StepKeepsMail(size: nat, b: int, st: State, e: Step, m: Mail)
    requires Inv(size, b, st) && Enabled(size, st, e)
    requires m in Apply(size, st, e).mail
    ensures MailOk(size, b, Apply(size, st, e).peers, m)
  {
    StepKeepsPaths(size, b, st, e);
    StepKeepsSuccessors(size, b, st, e);
    if m in st.mail {
      assert MailOk(size, b, st.peers, m);
      hide *;
      MailKept(size, b, st.peers, Apply(size, st, e).peers, m);
    } else {
      hide *;
      NewMailOk(size, b, st, e, m);
    }
  }

  lemma StepKeepsPredecessors(size: nat, b: int, st: State, e: Step, x: int)
    requires Inv(size, b, st) && Enabled(size, st, e)
    requires x in Apply(size, st, e).peers && Apply(size, st, e).peers[x].predecessor.Some?
    ensures Behind(size, Apply(size, st, e).peers, Apply(size, st, e).peers[x].predecessor.value, x)
  {
    hide Reaches, PathsKept, SuccessorsOk, Between;
    var after := Apply(size, st, e).peers;
    StepKeepsPaths(size, b, st, e);
    if e.SetPredecessor? && e.x == x {
      assert MailOk(size, b, st.peers, Accepted(x, e.n));
      BehindKept(size, st.peers, after, e.n, x);
    } else {
      assert after[x].predecessor == if x in st.peers then st.peers[x].predecessor else None;
      BehindKept(size, st.peers, after, st.peers[x].predecessor.value, x);
    }
  }

  lemma StepKeepsInv(size: nat, b: int, st: State, e: Step)
    requires Inv(size, b, st) && Enabled(size, st, e)
    ensures Inv(size, b, Apply(size, st, e))
  {
    var st' := Apply(size, st, e);
    hide Apply, Enabled, SuccessorsOk, Behind, MailOk;
    StepKeepsSuccessors(size, b, st, e);
    forall m | m in st'.mail ensures MailOk(size, b, st'.peers, m) {
      StepKeepsMail(size, b, st, e, m);
    }
    forall x | x in st'.peers && st'.peers[x].predecessor.Some?
      ensures Behind(size, st'.peers, st'.peers[x].predecessor.value, x)
    {
      StepKeepsPredecessors(size, b, st, e, x);
    }
  }

  lemma {:induction false} RunKeepsInv(size: nat, b: int, run: seq<State>)
    requires IsRun(size, b, run)
    ensures Inv(size, b, run[|run| - 1])
  {
    hide Apply, Enabled, Reaches;
    var n := |run| - 1;
    if n > 0 {
      RunKeepsInv(size, b, run[..n]);
      assert Next(size, run[n - 1], run[n - 1 + 1]);
      var e :| Enabled(size, run[n - 1], e) && run[n] == Apply(size, run[n - 1], e);
      StepKeepsInv(size, b, run[n - 1], e);
    }
  }

  /** A clockwise path, once there, is there in every later state of the run: it is only ever refined. */
  lemma {:induction false} PathsAreOnlyRefined(size: nat, b: int, run: seq<State>, i: nat, x: int, y: int)
    requires IsRun(size, b, run) && i < |run|
    requires Id(size, x) && Id(size, y) && Reaches(size, run[i].peers, x, y)
    ensures Reaches(size, run[|run| - 1].peers, x, y)
    decreases |run|
  {
    hide Apply, Enabled, Reaches, Inv, PathsKept, Created;
    var n := |run| - 1;
    if i < n {
      PathsAreOnlyRefined(size, b, run[..n], i, x, y);
      RunKeepsInv(size, b, run[..n]);
      assert Next(size, run[n - 1], run[n - 1 + 1]);
      var e :| Enabled(size, run[n - 1], e) && run[n] == Apply(size, run[n - 1], e);
      StepKeepsPaths(size, b, run[n - 1], e);
      PathKept(size, run[n - 1].peers, run[n].peers, x, y);
    }
  }

  // ----- Who is told, and what is accepted -----

  /** Every member has told its current successor about itself, except the first node while it is alone with itself. */
  ghost predicate Announced(b: int, st: State) {
    forall n | n in st.peers :: Notify(st.peers[n].successor, n) in st.mail || (n == b && st.peers[n].successor == b)
  }

  lemma StepKeepsAnnounced(size: nat, b: int, st: State, e: Step)
    requires Announced(b, st) && Enabled(size, st, e)
    ensures Announced(b, Apply(size, st, e))
  {
    hide Between;
  }

  lemma {:induction false} RunKeepsAnnounced(size: nat, b: int, run: seq<State>)
    requires IsRun(size, b, run)
    ensures Announced(b, run[|run| - 1])
  {
    hide Apply, Enabled;
    var n := |run| - 1;
    if n > 0 {
      RunKeepsAnnounced(size, b, run[..n]);
      assert Next(size, run[n - 1], run[n - 1 + 1]);
      var e :| Enabled(size, run[n - 1], e) && run[n] == Apply(size, run[n - 1], e);
      StepKeepsAnnounced(size, b, run[n - 1], e);
    }
  }

  /** Node `x` has no predecessor, or one that is further away than `n`. */
  ghost predicate NearerThanPredecessor(size: nat, st: State, x: int, n: int) {
    x in st.peers &&
    (st.peers[x].predecessor.None? || Dist1(size, n, x) < Dist1(size, st.peers[x].predecessor.value, x))
  }

  /** A notify is accepted exactly by comparing it with a predecessor that is further away, or with none. */
  lemma AcceptedIffNearer(size: nat, b: int, st: State, e: Step, x: int, n: int)
    requires Inv(size, b, st) && Enabled(size, st, e) && Accepted(x, n) !in st.mail
    ensures Accepted(x, n) in Apply(size, st, e).mail <==>
            e == Compare(x, n) && Notify(x, n) in st.mail && NearerThanPredecessor(size, st, x, n)
  {
    if e == Compare(x, n) {
      assert MailOk(size, b, st.peers, Notify(x, n));
      if st.peers[x].predecessor.Some? {
        PredecessorId(size, b, st, x);
        CloserIsNearer(size, x, st.peers[x].predecessor.value, n);
      }
    }
  }

  // ----- One cycle, once round -----

  /** Every node reaches the first one. */
  lemma {:induction false} AllReachFirst(size: nat, b: int, peers: Peers, x: int)
    requires Id(size, b) && SuccessorsOk(size, b, peers) && x in peers
    ensures Id(size, x) && Reaches(size, peers, x, b)
    decreases Dist(size, x, b)
  {
    if x != b {
      AllReachFirst(size, b, peers, peers[x].successor);
    }
  }

  /** The nodes on the clockwise path from `x` to `y`, without `y`. */
  ghost function Walk(size: nat, peers: Peers, x: int, y: int): (path: seq<int>)
    requires Id(size, x) && Id(size, y) && Reaches(size, peers, x, y)
    ensures path == [] <==> x == y
    ensures path != [] ==> path[0] == x
    decreases Dist(size, x, y)
  {
    if x == y then [] else [x] + Walk(size, peers, peers[x].successor, y)
  }

  ghost predicate OnPath(size: nat, peers: Peers, path: seq<int>, y: int, i: int)
    requires 0 <= i < |path|
  {
    && path[i] in peers && Id(size, path[i]) && path[i] != y
    && peers[path[i]].successor == (if i + 1 < |path| then path[i + 1] else y)
    && (i + 1 < |path| ==> Dist(size, path[i + 1], y) < Dist(size, path[i], y))
  }

  /** Each node on the path is followed by its successor, and the distance to `y` falls along it. */
  ghost predicate PathOk(size: nat, peers: Peers, path: seq<int>, y: int) {
    forall i | 0 <= i < |path| :: OnPath(size, peers, path, y, i)
  }

  lemma {:induction false} WalkFacts(size: nat, peers: Peers, x: int, y: int)
    requires Id(size, x) && Id(size, y) && Reaches(size, peers, x, y)
    ensures PathOk(size, peers, Walk(size, peers, x, y), y)
    decreases Dist(size, x, y)
  {
    if x != y {
      var s := peers[x].successor;
      WalkFacts(size, peers, s, y);
      var path, rest := Walk(size, peers, x, y), Walk(size, peers, s, y);
      forall i | 0 <= i < |path| ensures OnPath(size, peers, path, y, i) {
        if i > 0 {
          assert path[i] == rest[i - 1] && OnPath(size, peers, rest, y, i - 1);
          assert i + 1 < |path| ==> path[i + 1] == rest[i];
        }
      }
    }
  }

  lemma {:induction false} PathFalls(size: nat, peers: Peers, path: seq<int>, y: int, i: nat, j: nat)
    requires PathOk(size, peers, path, y) && i < j < |path|
    ensures Dist(size, path[j], y) < Dist(size, path[i], y)
    decreases j
  {
    assert OnPath(size, peers, path, y, j - 1);
    if i < j - 1 {
      PathFalls(size, peers, path, y, i, j - 1);
    }
  }

  ghost function NextOn(c: seq<int>, i: int): int
    requires 0 <= i < |c|
  {
    if i + 1 < |c| then c[i + 1] else c[0]
  }

  /** `c` is a cycle of successors that starts at `b` and goes once round in identifier order. */
  ghost predicate IsCycle(size: nat, b: int, peers: Peers, c: seq<int>) {
    && c != [] && c[0] == b
    && (forall i | 0 <= i < |c| :: c[i] in peers && peers[c[i]].successor == NextOn(c, i))
    && (forall i, j | 0 <= i < j < |c| :: Dist(size, b, c[i]) < Dist(size, b, c[j]))
  }

  lemma CycleExists(size: nat, b: int, peers: Peers) returns (c: seq<int>)
    requires Id(size, b) && SuccessorsOk(size, b, peers)
    ensures IsCycle(size, b, peers, c)
  {
    var s := peers[b].successor;
    AllReachFirst(size, b, peers, s);
    var path := Walk(size, peers, s, b);
    WalkFacts(size, peers, s, b);
    c := [b] + path;
    PathClosesCycle(size, b, peers, path);
  }

  lemma PathClosesCycle(size: nat, b: int, peers: Peers, path: seq<int>)
    requires Id(size, b) && b in peers && PathOk(size, peers, path, b)
    requires peers[b].successor == if path == [] then b else path[0]
    ensures IsCycle(size, b, peers, [b] + path)
  {
    hide Dist;
    var c := [b] + path;
    forall i | 0 <= i < |c| ensures c[i] in peers && peers[c[i]].successor == NextOn(c, i) {
      if i > 0 {
        assert c[i] == path[i - 1] && OnPath(size, peers, path, b, i - 1);
        assert i + 1 < |c| ==> c[i + 1] == path[i];
      }
    }
    forall i, j | 0 <= i < j < |c| ensures Dist(size, b, c[i]) < Dist(size, b, c[j]) {
      assert c[j] == path[j - 1] && OnPath(size, peers, path, b, j - 1);
      if i > 0 {
        assert c[i] == path[i - 1] && OnPath(size, peers, path, b, i - 1);
        PathFalls(size, peers, path, b, i - 1, j - 1);
      }
      FartherFrom(size, b, c[i], c[j]);
    }
  }

  lemma FartherFrom(size: nat, b: int, x: int, y: int)
    requires Id(size, b) && Id(size, x) && Id(size, y)
    requires y != b && (x == b || Dist(size, y, b) < Dist(size, x, b))
    ensures Dist(size, b, x) < Dist(size, b, y)
  {
  }

  ghost predicate Closed(peers: Peers) {
    forall n | n in peers :: peers[n].successor in peers
  }

  /** Following the successor `k` times. */
  ghost function Iterate(peers: Peers, x: int, k: nat): int
    requires x in peers && Closed(peers)
    ensures Iterate(peers, x, k) in peers
    decreases k
  {
    if k == 0 then x else Iterate(peers, peers[x].successor, k - 1)
  }

  lemma {:induction false} IterateAdd(peers: Peers, x: int, j: nat, k: nat)
    requires x in peers && Closed(peers)
    ensures Iterate(peers, x, j + k) == Iterate(peers, Iterate(peers, x, j), k)
    decreases j
  {
    if j > 0 {
      IterateAdd(peers, peers[x].successor, j - 1, k);
    }
  }

  lemma {:induction false} IterateAround(peers: Peers, x: int, k: nat, t: nat)
    requires x in peers && Closed(peers) && Iterate(peers, x, k) == x
    ensures Iterate(peers, x, k * t) == x
  {
    if t > 0 {
      IterateAround(peers, x, k, t - 1);
      IterateAdd(peers, x, k, k * (t - 1));
      assert k * t == k + k * (t - 1);
    }
  }

  lemma {:induction false} ReachesIterates(size: nat, peers: Peers, x: int, y: int) returns (k: nat)
    requires Closed(peers) && x in peers && Id(size, x) && Id(size, y) && Reaches(size, peers, x, y)
    ensures Iterate(peers, x, k) == y
    decreases Dist(size, x, y)
  {
    if x == y {
      k := 0;
    } else {
      k := ReachesIterates(size, peers, peers[x].successor, y);
      k := k + 1;
    }
  }

  lemma CycleNext(size: nat, b: int, peers: Peers, c: seq<int>, i: nat)
    requires IsCycle(size, b, peers, c) && i < |c|
    ensures c[i] in peers && peers[c[i]].successor in c
    ensures i + 1 < |c| ==> peers[c[i]].successor == c[i + 1]
    ensures i + 1 == |c| ==> peers[c[i]].successor == b
  {
    assert b == c[0];
  }

  lemma CycleHasFirst(size: nat, b: int, peers: Peers, c: seq<int>)
    requires IsCycle(size, b, peers, c)
    ensures b in c
  {
  }

  lemma {:induction false} CycleIsClosed(size: nat, b: int, peers: Peers, c: seq<int>, x: int, k: nat)
    requires Closed(peers) && IsCycle(size, b, peers, c) && x in c
    ensures Iterate(peers, x, k) in c
    decreases k
  {
    var i: nat :| i < |c| && c[i] == x;
    CycleNext(size, b, peers, c, i);
    if k > 0 {
      CycleIsClosed(size, b, peers, c, peers[x].successor, k - 1);
    }
  }

  /** Going on from a node of the cycle comes back to it. */
  lemma {:induction false} CycleReturns(size: nat, b: int, peers: Peers, c: seq<int>, i: nat)
    requires Closed(peers) && IsCycle(size, b, peers, c) && i < |c|
    ensures Iterate(peers, c[i], |c| - i) == b
    decreases |c| - i
  {
    CycleNext(size, b, peers, c, i);
    if i + 1 < |c| {
      CycleReturns(size, b, peers, c, i + 1);
    } else {
      assert |c| - i == 1;
      assert Iterate(peers, c[i], 1) == Iterate(peers, peers[c[i]].successor, 0);
    }
  }

  lemma {:induction false} CycleFromFirst(size: nat, b: int, peers: Peers, c: seq<int>, i: nat)
    requires Closed(peers) && IsCycle(size, b, peers, c) && i < |c|
    ensures b in peers
    ensures Iterate(peers, b, i) == c[i]
  {
    hide Closed, Dist;
    CycleNext(size, b, peers, c, 0);
    if i > 0 {
      CycleFromFirst(size, b, peers, c, i - 1);
      CycleNext(size, b, peers, c, i - 1);
      IterateAdd(peers, b, i - 1, 1);
      assert Iterate(peers, c[i - 1], 1) == Iterate(peers, peers[c[i - 1]].successor, 0);
    }
  }

  ghost predicate OnSomeCycle(peers: Peers, x: int)
    requires Closed(peers)
  {
    x in peers && exists k: nat :: k > 0 && Iterate(peers, x, k) == x
  }

  /** The nodes on any cycle at all are exactly the nodes of this one. */
  lemma OnlyCycle(size: nat, b: int, peers: Peers, c: seq<int>, x: int)
    requires Id(size, b) && SuccessorsOk(size, b, peers) && Closed(peers) && IsCycle(size, b, peers, c)
    ensures OnSomeCycle(peers, x) <==> x in c
  {
    hide SuccessorsOk, IsCycle, Closed, Reaches, Dist;
    if OnSomeCycle(peers, x) {
      var k: nat :| k > 0 && Iterate(peers, x, k) == x;
      AllReachFirst(size, b, peers, x);
      var j := ReachesIterates(size, peers, x, b);
      IterateAround(peers, x, k, j);
      assert k * j >= j;
      IterateAdd(peers, x, j, k * j - j);
      CycleHasFirst(size, b, peers, c);
      CycleIsClosed(size, b, peers, c, b, k * j - j);
    }
    if x in c {
      var i :| 0 <= i < |c| && c[i] == x;
      CycleReturns(size, b, peers, c, i);
      CycleFromFirst(size, b, peers, c, i);
      IterateAdd(peers, x, |c| - i, i);
      assert |c| - i + i > 0;
    }
  }

  /**
   In every state of every run the successor pointers have exactly one cycle. It goes once round the circle in
   identifier order, and every node that has joined reaches it.
   */
  lemma OneOrderedCycle(size: nat, b: int, run: seq<State>) returns (c: seq<int>)
    requires IsRun(size, b, run)
    ensures var peers := run[|run| - 1].peers;
            && Closed(peers)
            && IsCycle(size, b, peers, c)
            && (forall x :: OnSomeCycle(peers, x) <==> x in c)
            && (forall x | x in peers :: Id(size, x) && Reaches(size, peers, x, b))
  {
    var peers := run[|run| - 1].peers;
    RunKeepsInv(size, b, run);
    c := CycleExists(size, b, peers);
    forall x ensures OnSomeCycle(peers, x) <==> x in c {
      OnlyCycle(size, b, peers, c, x);
    }
    forall x | x in peers ensures Id(size, x) && Reaches(size, peers, x, b) {
      AllReachFirst(size, b, peers, x);
    }
  }

  // ----- Stabilisation stops, and where it stops the ring is right -----

  /** One more round of stabilise and notify at any node would change nothing. */
  ghost predicate Quiet(peers: Peers) {
    forall n | n in peers ::
      && peers[n].successor in peers
      && var s := peers[n].successor;
         && peers[s].predecessor.Some?
         && !Between(n, peers[s].predecessor.value, s, false)
         && !Closer(s, peers[s].predecessor, n)
  }

  /** If neither of two nodes is strictly nearer before `s` than the other, they are the same. */
  lemma NeitherCloser(size: nat, n: int, p: int, s: int)
    requires Id(size, n) && Id(size, p) && Id(size, s)
    requires !Between(n, p, s, false) && !Between(p, n, s, false)
    ensures n == p
  {
  }

  lemma PredecessorId(size: nat, b: int, st: State, x: int)
    requires Inv(size, b, st) && x in st.peers
    ensures Id(size, x) && st.peers[x].successor in st.peers
    ensures st.peers[x].predecessor.Some? ==> Id(size, st.peers[x].predecessor.value)
  {
    hide Reaches, Between;
    assert st.peers[x].predecessor.Some? ==> Behind(size, st.peers, st.peers[x].predecessor.value, x);
  }

  lemma QuietAt(peers: Peers, n: int)
    requires Quiet(peers) && n in peers
    ensures var s := peers[n].successor;
            s in peers && peers[s].predecessor.Some? &&
            !Between(n, peers[s].predecessor.value, s, false) && !Between(peers[s].predecessor.value, n, s, false)
  {
    hide Between;
  }

  lemma QuietPredecessor(size: nat, b: int, st: State, n: int)
    requires Inv(size, b, st) && Quiet(st.peers) && n in st.peers
    ensures var s := st.peers[n].successor;
            s in st.peers && st.peers[s].predecessor == Some(n)
  {
    hide *;
    var s := st.peers[n].successor;
    QuietAt(st.peers, n);
    PredecessorId(size, b, st, n);
    PredecessorId(size, b, st, s);
    NeitherCloser(size, n, st.peers[s].predecessor.value, s);
  }

  /** In a quiet state whatever reaches the cycle is on it. */
  lemma {:induction false} QuietOnCycle(size: nat, b: int, st: State, c: seq<int>, x: int, k: nat)
    requires Inv(size, b, st) && Quiet(st.peers) && Closed(st.peers) && IsCycle(size, b, st.peers, c)
    requires x in st.peers && Iterate(st.peers, x, k) == b
    ensures x in c
    decreases k
  {
    hide Inv, Quiet, IsCycle, Closed;
    CycleHasFirst(size, b, st.peers, c);
    if k > 0 {
      var s := st.peers[x].successor;
      QuietPredecessor(size, b, st, x);
      QuietOnCycle(size, b, st, c, s, k - 1);
      var y := CyclePredecessor(size, b, st.peers, c, s);
      QuietPredecessor(size, b, st, y);
    }
  }

  lemma CyclePredecessor(size: nat, b: int, peers: Peers, c: seq<int>, s: int) returns (y: int)
    requires IsCycle(size, b, peers, c) && s in c
    ensures y in c && y in peers && peers[y].successor == s
  {
    var i: nat :| i < |c| && c[i] == s;
    var j: nat := if i > 0 then i - 1 else |c| - 1;
    y := c[j];
    assert peers[c[j]].successor == NextOn(c, j);
  }

  /** Every member is followed by the next member, and knows the one before it. */
  ghost predicate Ideal(peers: Peers) {
    forall x | x in peers :: IdealAt(peers, x)
  }

  ghost predicate IdealAt(peers: Peers, x: int) {
    && x in peers && peers[x].successor in peers
    && peers[peers[x].successor].predecessor == Some(x)
    && forall z | z in peers :: !Between(x, z, peers[x].successor, false)
  }

  /** Nothing on an ordered cycle lies strictly between a node and the next. */
  lemma CycleLeavesNoGap(size: nat, b: int, peers: Peers, c: seq<int>, i: nat, j: nat)
    requires Id(size, b) && IsCycle(size, b, peers, c) && i < |c| && j < |c|
    requires forall k | 0 <= k < |c| :: Id(size, c[k])
    ensures !Between(c[i], c[j], NextOn(c, i), false)
  {
    var x, z, s := c[i], c[j], NextOn(c, i);
    assert i < j ==> Dist(size, b, x) < Dist(size, b, z);
    assert j < i ==> Dist(size, b, z) < Dist(size, b, x);
    assert i + 1 < |c| && i + 1 < j ==> Dist(size, b, s) < Dist(size, b, z);
    assert i + 1 < |c| ==> Dist(size, b, x) < Dist(size, b, s);
  }

  lemma QuietMember(size: nat, b: int, st: State, c: seq<int>, x: int) returns (i: nat)
    requires Inv(size, b, st) && Quiet(st.peers) && IsCycle(size, b, st.peers, c) && x in st.peers
    ensures i < |c| && c[i] == x && Id(size, x)
  {
    hide *;
    QuietFacts(size, b, st);
    AllReachFirst(size, b, st.peers, x);
    var k := ReachesIterates(size, st.peers, x, b);
    QuietOnCycle(size, b, st, c, x, k);
    i :| i < |c| && c[i] == x;
  }

  lemma CycleIds(size: nat, b: int, st: State, c: seq<int>, k: int)
    requires Inv(size, b, st) && IsCycle(size, b, st.peers, c) && 0 <= k < |c|
    ensures Id(size, c[k]) && c[k] in st.peers && st.peers[c[k]].successor == NextOn(c, k)
  {
    hide Reaches, Between, Dist;
  }

  lemma QuietNoGap(size: nat, b: int, st: State, c: seq<int>, x: int, z: int)
    requires Inv(size, b, st) && Quiet(st.peers) && IsCycle(size, b, st.peers, c) && x in st.peers && z in st.peers
    ensures !Between(x, z, st.peers[x].successor, false)
  {
    hide *;
    QuietFacts(size, b, st);
    var i := QuietMember(size, b, st, c, x);
    var j := QuietMember(size, b, st, c, z);
    forall k | 0 <= k < |c| ensures Id(size, c[k]) {
      CycleIds(size, b, st, c, k);
    }
    CycleIds(size, b, st, c, i);
    CycleLeavesNoGap(size, b, st.peers, c, i, j);
  }

  /** Where stabilisation has come to rest, every successor and every predecessor is the right one. */
  lemma QuietIsIdeal(size: nat, b: int, st: State)
    requires Inv(size, b, st) && Quiet(st.peers)
    ensures Ideal(st.peers)
  {
    hide Inv, Quiet, IsCycle, SuccessorsOk, IdealAt, Closed;
    QuietFacts(size, b, st);
    var c := CycleExists(size, b, st.peers);
    forall x | x in st.peers ensures IdealAt(st.peers, x) {
      QuietIdealAt(size, b, st, c, x);
    }
  }

  lemma QuietIdealAt(size: nat, b: int, st: State, c: seq<int>, x: int)
    requires Inv(size, b, st) && Quiet(st.peers) && IsCycle(size, b, st.peers, c) && x in st.peers
    ensures IdealAt(st.peers, x)
  {
    hide Inv, Quiet, IsCycle, Between;
    QuietPredecessor(size, b, st, x);
    forall z | z in st.peers ensures !Between(x, z, st.peers[x].successor, false) {
      QuietNoGap(size, b, st, c, x, z);
    }
  }

  lemma QuietFacts(size: nat, b: int, st: State)
    requires Inv(size, b, st)
    ensures Id(size, b) && SuccessorsOk(size, b, st.peers) && Closed(st.peers)
  {
    hide Between, Reaches;
  }

  /** How far the successors of `some` nodes are away, in total. */
  ghost function Slack(size: nat, peers: Peers, some: set<int>): int
    requires some <= peers.Keys
  {
    if exists n :: n in some then
      var n :| n in some;
      Dist1(size, n, peers[n].successor) + Slack(size, peers, some - {n})
    else 0
  }

  ghost function TotalSlack(size: nat, st: State): int {
    Slack(size, st.peers, st.peers.Keys)
  }

  lemma {:induction false} SlackSplit(size: nat, peers: Peers, some: set<int>, n: int)
    requires some <= peers.Keys && n in some
    ensures Slack(size, peers, some) == Dist1(size, n, peers[n].successor) + Slack(size, peers, some - {n})
    decreases some
  {
    hide Dist1;
    var k :| k in some && Slack(size, peers, some) ==
      Dist1(size, k, peers[k].successor) + Slack(size, peers, some - {k});
    if k != n {
      SlackSplit(size, peers, some - {k}, n);
      SlackSplit(size, peers, some - {n}, k);
      assert some - {k} - {n} == some - {n} - {k};
    }
  }

  lemma {:induction false} SlackSame(size: nat, before: Peers, after: Peers, some: set<int>)
    requires some <= before.Keys && some <= after.Keys
    requires forall n | n in some :: after[n].successor == before[n].successor
    ensures Slack(size, after, some) == Slack(size, before, some)
    decreases some
  {
    hide Dist1;
    if n :| n in some {
      SlackSplit(size, before, some, n);
      SlackSplit(size, after, some, n);
      SlackSame(size, before, after, some - {n});
    }
  }

  lemma {:induction false} SlackBounds(size: nat, b: int, peers: Peers, some: set<int>)
    requires SuccessorsOk(size, b, peers) && some <= peers.Keys
    ensures Slack(size, peers, some) >= 0
    decreases some
  {
    hide Between;
    if n :| n in some {
      SlackSplit(size, peers, some, n);
      SlackBounds(size, b, peers, some - {n});
      assert Id(size, n) && Id(size, peers[n].successor);
    }
  }

  /** A step without a join never adds slack, and one that moves a successor takes some away. */
  lemma StepUsesSlack(size: nat, b: int, st: State, e: Step)
    requires Inv(size, b, st) && Enabled(size, st, e) && !e.Join?
    ensures var st' := Apply(size, st, e);
            && st'.peers.Keys == st.peers.Keys
            && TotalSlack(size, st') <= TotalSlack(size, st) - (if Moves(st, e) then 1 else 0)
  {
    hide Inv, Slack;
    var after, keys := Apply(size, st, e).peers, st.peers.Keys;
    assert after.Keys == keys;
    if Moves(st, e) {
      var n := e.n;
      assert n in keys;
      forall z | z in keys - {n} ensures after[z].successor == st.peers[z].successor {
        OthersKeepSuccessors(size, st, e, z);
      }
      SlackSplit(size, st.peers, keys, n);
      SlackSplit(size, after, keys, n);
      SlackSame(size, st.peers, after, keys - {n});
      MoveIsCloser(size, b, st, e);
    } else {
      forall z | z in keys ensures after[z].successor == st.peers[z].successor {
        OthersKeepSuccessors(size, st, e, z);
      }
      SlackSame(size, st.peers, after, keys);
    }
  }

  lemma MoveIsCloser(size: nat, b: int, st: State, e: Step)
    requires Inv(size, b, st) && Enabled(size, st, e) && Moves(st, e)
    ensures e.Adopt? && e.n in Apply(size, st, e).peers
    ensures Dist1(size, e.n, Apply(size, st, e).peers[e.n].successor) < Dist1(size, e.n, st.peers[e.n].successor)
  {
    hide Reaches;
    MovesRefines(size, b, st, e);
    BetweenIsDistance(size, e.n, e.p, e.s);
  }

  /** The steps of a run as events, with no join among them. */
  ghost predicate Quietens(size: nat, run: seq<State>, steps: seq<Step>) {
    && |run| == |steps| + 1
    && forall i | 0 <= i < |steps| ::
         Enabled(size, run[i], steps[i]) && run[i + 1] == Apply(size, run[i], steps[i]) && !steps[i].Join?
  }

  ghost function MoveCount(run: seq<State>, steps: seq<Step>): nat
    requires |run| == |steps| + 1
  {
    if steps == [] then 0
    else
      var k := |steps| - 1;
      MoveCount(run[..k + 1], steps[..k]) + (if Moves(run[k], steps[k]) then 1 else 0)
  }

  /** Once nodes stop joining, successors move only finitely often: at most as often as the slack they start with. */
  lemma {:induction false} MovesAreBounded(size: nat, b: int, run: seq<State>, steps: seq<Step>)
    requires Quietens(size, run, steps) && Inv(size, b, run[0])
    ensures Inv(size, b, run[|steps|])
    ensures 0 <= TotalSlack(size, run[|steps|])
    ensures MoveCount(run, steps) + TotalSlack(size, run[|steps|]) <= TotalSlack(size, run[0])
    decreases |steps|
  {
    hide Inv, TotalSlack, Enabled, Apply, Moves;
    if steps == [] {
      TotalSlackBounds(size, b, run[0]);
    } else {
      var k := |steps| - 1;
      assert Quietens(size, run[..k + 1], steps[..k]);
      MovesAreBounded(size, b, run[..k + 1], steps[..k]);
      StepUsesSlack(size, b, run[k], steps[k]);
      StepKeepsInv(size, b, run[k], steps[k]);
      TotalSlackBounds(size, b, run[k + 1]);
    }
  }

  lemma TotalSlackBounds(size: nat, b: int, st: State)
    requires Inv(size, b, st)
    ensures TotalSlack(size, st) >= 0
  {
    hide Between, Reaches, Slack;
    SlackBounds(size, b, st.peers, st.peers.Keys);
  }
}
