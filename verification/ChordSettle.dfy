/**
 Stabilisation can always settle: from every state of every run of the ring protocol, stabilise and notify alone can
 bring every successor and every predecessor to its right value.
 */
module ChordSettle {
  import opened Options
  import opened Ring
  import opened ChordRing

  ghost function Last(run: seq<State>): State
    requires run != []
  {
    run[|run| - 1]
  }

  /** `run'` goes on from `run` without any join. */
  ghost predicate Continues(size: nat, b: int, run: seq<State>, run': seq<State>) {
    && run != [] && IsRun(size, b, run') && run <= run'
    && forall i | |run| <= i < |run'| :: run'[i].peers.Keys == Last(run).peers.Keys
  }

  lemma Transitive(size: nat, b: int, x: seq<State>, y: seq<State>, z: seq<State>)
    requires Continues(size, b, x, y) && Continues(size, b, y, z)
    ensures Continues(size, b, x, z)
  {
    hide IsRun;
    assert Last(y).peers.Keys == Last(x).peers.Keys;
    forall i | |x| <= i < |z| ensures z[i].peers.Keys == Last(x).peers.Keys {
      if i < |y| {
        assert z[i] == y[i];
      }
    }
  }

  lemma ExtendRun(size: nat, b: int, run: seq<State>, st: State)
    requires IsRun(size, b, run) && Next(size, Last(run), st)
    ensures IsRun(size, b, run + [st])
  {
    hide Next, Created;
    var run' := run + [st];
    forall i | 0 <= i < |run'| - 1 ensures Next(size, run'[i], run'[i + 1]) {
      if i < |run| - 1 {
        assert Next(size, run[i], run[i + 1]);
      }
    }
  }

  lemma ContinuesByOne(size: nat, b: int, run: seq<State>, st: State)
    requires IsRun(size, b, run) && Next(size, Last(run), st) && st.peers.Keys == Last(run).peers.Keys
    ensures Continues(size, b, run, run + [st]) && Last(run + [st]) == st
  {
    assert run != [];
    hide IsRun, Next;
    ExtendRun(size, b, run, st);
  }

  lemma StepFacts(size: nat, b: int, run: seq<State>, e: Step)
    requires IsRun(size, b, run) && Enabled(size, Last(run), e) && !e.Join?
    ensures var st := Apply(size, Last(run), e);
            && Next(size, Last(run), st) && st.peers.Keys == Last(run).peers.Keys
            && TotalSlack(size, st) <= TotalSlack(size, Last(run)) - (if Moves(Last(run), e) then 1 else 0)
  {
    assert run != [];
    hide IsRun, Enabled, Apply, Inv, TotalSlack, Moves;
    RunKeepsInv(size, b, run);
    StepUsesSlack(size, b, Last(run), e);
  }

  lemma Extend(size: nat, b: int, run: seq<State>, e: Step) returns (run': seq<State>)
    requires IsRun(size, b, run) && Enabled(size, Last(run), e) && !e.Join?
    ensures Continues(size, b, run, run') && Last(run') == Apply(size, Last(run), e)
    ensures TotalSlack(size, Last(run')) <= TotalSlack(size, Last(run)) - (if Moves(Last(run), e) then 1 else 0)
  {
    assert run != [];
    hide *;
    StepFacts(size, b, run, e);
    run' := run + [Apply(size, Last(run), e)];
    ContinuesByOne(size, b, run, Apply(size, Last(run), e));
  }

  lemma MembersHaveSuccessors(size: nat, b: int, run: seq<State>, n: int)
    requires IsRun(size, b, run) && n in Last(run).peers
    ensures Id(size, n) && Last(run).peers[n].successor in Last(run).peers && Id(size, Last(run).peers[n].successor)
    ensures var pred := Last(run).peers[n].predecessor;
            pred.Some? ==> pred.value in Last(run).peers && Id(size, pred.value)
  {
    RunKeepsInv(size, b, run);
    hide IsRun, Reaches;
    SuccessorFacts(size, b, Last(run).peers, n);
    PredecessorId(size, b, Last(run), n);
  }

  // ----- Two things a node can do -----

  /** Node `n` notifies its successor, which takes it as predecessor. */
  lemma NotifyThrough(size: nat, b: int, run: seq<State>, n: int) returns (run': seq<State>)
    requires IsRun(size, b, run) && n in Last(run).peers && Last(run).peers[n].successor in Last(run).peers
    requires var s := Last(run).peers[n].successor;
             Closer(s, Last(run).peers[s].predecessor, n)
    ensures Continues(size, b, run, run')
    ensures var peers, s := Last(run).peers, Last(run).peers[n].successor;
            Last(run').peers == peers[s := peers[s].(predecessor := Some(n))]
    ensures TotalSlack(size, Last(run')) <= TotalSlack(size, Last(run))
  {
    var s := Last(run).peers[n].successor;
    hide IsRun, Closer, TotalSlack, Between;
    var told := Extend(size, b, run, NotifyOnly(n));
    var compared := Extend(size, b, told, Compare(s, n));
    Transitive(size, b, run, told, compared);
    run' := Extend(size, b, compared, SetPredecessor(s, n));
    Transitive(size, b, run, compared, run');
  }

  /** Node `n` takes the predecessor of its successor as its own successor. */
  lemma MoveThrough(size: nat, b: int, run: seq<State>, n: int) returns (run': seq<State>)
    requires IsRun(size, b, run) && n in Last(run).peers && Last(run).peers[n].successor in Last(run).peers
    requires var s := Last(run).peers[n].successor;
             var pred := Last(run).peers[s].predecessor;
             pred.Some? && Between(n, pred.value, s, false)
    ensures Continues(size, b, run, run') && TotalSlack(size, Last(run')) < TotalSlack(size, Last(run))
  {
    var s := Last(run).peers[n].successor;
    var p := Last(run).peers[s].predecessor.value;
    hide IsRun, Closer, TotalSlack, Between;
    var fetched := Extend(size, b, run, Fetch(n));
    run' := Extend(size, b, fetched, Adopt(n, s, p));
    Transitive(size, b, run, fetched, run');
  }

  // ----- One of them always helps -----

  lemma NotInsideMeansBehind(size: nat, n1: int, n2: int, p: int, s: int)
    requires Id(size, n1) && Id(size, n2) && Id(size, p) && Id(size, s)
    requires Between(n1, n2, s, false) && !Between(n1, p, s, false)
    ensures Between(p, n2, s, false)
  {
  }

  /** Of two nodes with one successor, the further one comes to follow something nearer. */
  lemma Overtake(size: nat, b: int, run: seq<State>, n1: int, n2: int) returns (run': seq<State>)
    requires IsRun(size, b, run) && n1 in Last(run).peers && n2 in Last(run).peers
    requires Last(run).peers[n1].successor == Last(run).peers[n2].successor
    requires Between(n1, n2, Last(run).peers[n1].successor, false)
    ensures Continues(size, b, run, run') && TotalSlack(size, Last(run')) < TotalSlack(size, Last(run))
  {
    var peers := Last(run).peers;
    var s := peers[n1].successor;
    MembersHaveSuccessors(size, b, run, n1);
    MembersHaveSuccessors(size, b, run, n2);
    MembersHaveSuccessors(size, b, run, s);
    var pred := peers[s].predecessor;
    hide IsRun, TotalSlack;
    if pred.Some? && Between(n1, pred.value, s, false) {
      run' := MoveThrough(size, b, run, n1);
    } else {
      if pred.Some? {
        NotInsideMeansBehind(size, n1, n2, pred.value, s);
      }
      assert Closer(s, pred, n2);
      hide Between, Closer;
      var told := NotifyThrough(size, b, run, n2);
      run' := MoveThrough(size, b, told, n1);
      Transitive(size, b, run, told, run');
    }
  }

  /** Node `n` is the predecessor of its successor. */
  ghost predicate Settled(peers: Peers, n: int) {
    n in peers && peers[n].successor in peers && peers[peers[n].successor].predecessor == Some(n)
  }

  ghost function Unsettled(peers: Peers): set<int> {
    set n | n in peers && !Settled(peers, n)
  }

  lemma NeverBetweenItself(n: int, s: int)
    ensures !Between(n, n, s, false)
  {
  }

  lemma SettledIsQuiet(peers: Peers)
    requires Unsettled(peers) == {}
    ensures Quiet(peers)
  {
    forall n | n in peers
      ensures Settled(peers, n) && !Between(n, n, peers[n].successor, false)
    {
      assert n !in Unsettled(peers);
      NeverBetweenItself(n, peers[n].successor);
    }
  }

  /** If no other node has its successor, a notify settles a node and unsettles none. */
  lemma NotifySettles(peers: Peers, n: int)
    requires n in peers && peers[n].successor in peers && !Settled(peers, n)
    requires forall z | z in peers && z != n :: peers[z].successor != peers[n].successor
    ensures var s := peers[n].successor;
            Unsettled(peers[s := peers[s].(predecessor := Some(n))]) < Unsettled(peers)
  {
    var s := peers[n].successor;
    var after := peers[s := peers[s].(predecessor := Some(n))];
    assert Settled(after, n) && n in Unsettled(peers);
    forall z | z in Unsettled(after) ensures z in Unsettled(peers) {
      assert z != n && after[z].successor == peers[z].successor != s;
    }
  }

  /** An unsettled node either follows something nearer, or settles, or shares its successor with another node. */
  lemma SettleOne(size: nat, b: int, run: seq<State>, n: int) returns (run': seq<State>)
    requires IsRun(size, b, run) && n in Unsettled(Last(run).peers)
    ensures Continues(size, b, run, run')
    ensures || TotalSlack(size, Last(run')) < TotalSlack(size, Last(run))
            || (TotalSlack(size, Last(run')) == TotalSlack(size, Last(run)) &&
                Unsettled(Last(run').peers) < Unsettled(Last(run).peers))
  {
    var peers := Last(run).peers;
    var s := peers[n].successor;
    MembersHaveSuccessors(size, b, run, n);
    MembersHaveSuccessors(size, b, run, s);
    var pred := peers[s].predecessor;
    if pred.Some? {
      var p := pred.value;
      if !Between(n, p, s, false) && !Between(p, n, s, false) {
        NeitherCloser(size, n, p, s);
      }
    }
    if pred.Some? && Between(n, pred.value, s, false) {
      hide IsRun, TotalSlack, Unsettled, Between;
      run' := MoveThrough(size, b, run, n);
    } else if z :| z in peers && z != n && peers[z].successor == s {
      MembersHaveSuccessors(size, b, run, z);
      if !Between(n, z, s, false) && !Between(z, n, s, false) {
        NeitherCloser(size, n, z, s);
      }
      hide IsRun, TotalSlack, Unsettled, Settled, Closer;
      if Between(n, z, s, false) {
        run' := Overtake(size, b, run, n, z);
      } else {
        run' := Overtake(size, b, run, z, n);
      }
    } else {
      assert Closer(s, pred, n);
      NotifySettles(peers, n);
      hide IsRun, TotalSlack, Unsettled, Between, Settled, Closer;
      run' := NotifyThrough(size, b, run, n);
    }
  }

  /**
   From every state of every run, some continuation without joins ends where stabilisation changes nothing any more;
   and there every successor and every predecessor is the right one.
   */
  lemma {:induction false} CanAlwaysSettle(size: nat, b: int, run: seq<State>) returns (run': seq<State>)
    requires IsRun(size, b, run)
    ensures Continues(size, b, run, run') && Quiet(Last(run').peers) && Ideal(Last(run').peers)
    decreases TotalSlack(size, Last(run)), Unsettled(Last(run).peers)
  {
    RunKeepsInv(size, b, run);
    TotalSlackBounds(size, b, Last(run));
    hide Quiet, Ideal, TotalSlack, Inv, Unsettled, Created, Next;
    if n :| n in Unsettled(Last(run).peers) {
      var next := SettleOne(size, b, run, n);
      run' := CanAlwaysSettle(size, b, next);
      Transitive(size, b, run, next, run');
    } else {
      run' := run;
      SettledIsQuiet(Last(run).peers);
      QuietIsIdeal(size, b, Last(run));
    }
  }
}
