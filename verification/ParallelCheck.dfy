/**
 `checkParallel` and `checkOperations` (Lab3/src/porcupine/checker.go): one search per partition runs on its own,
 results arrive in any order over a channel, a timer may fire, and a shared flag kills the searches.
 The model is the set of all runs of that protocol.
 */
module ParallelCheck {
  import opened Options
  import opened Linearizability
  import opened Entries
  import opened OperationCheck
  import opened OperationEntries
  import opened Sorting
  import opened Locality
  import K = KvModel

  datatype Verdict = Unknown | Ok | Illegal

  datatype Search = Running | Sent(result: bool) | Received(result: bool)

  /** `linearizable[i]` is the right answer for partition `i`. */
  datatype Config = Config(linearizable: seq<bool>, computeInfo: bool, hasTimeout: bool)

  datatype State = State(
    searches: seq<Search>, kill: bool, ok: bool, timedOut: bool, count: nat, looping: bool, verdict: Option<Verdict>)

  datatype Event =
    | Finish(i: nat, result: bool) // a search ends and its result goes into the channel
    | Receive(i: nat)              // the loop takes a result from the channel
    | TimeOut                      // the loop takes the timer's tick
    | Drain(i: nat)                // the wait for the remaining searches, when partial results are wanted
    | Return                       // the verdict

  ghost predicate Start(c: Config, s: State) {
    s == State(seq(|c.linearizable|, _ => Running), false, true, false, 0, true, None)
  }

  /** A search answers rightly, or it answers no after the kill flag was raised (see `Checker.CheckSingle`). */
  ghost predicate Answer(c: Config, s: State, i: nat, result: bool)
    requires i < |c.linearizable|
  {
    result == c.linearizable[i] || (s.kill && !result)
  }

  ghost predicate Enabled(c: Config, s: State, e: Event) {
    match e
    case Finish(i, result) => i < |s.searches| == |c.linearizable| && s.searches[i].Running? && Answer(c, s, i, result)
    case Receive(i) => s.looping && i < |s.searches| && s.searches[i].Sent?
    case TimeOut => s.looping && c.hasTimeout
    case Drain(i) => !s.looping && c.computeInfo && s.count < |s.searches| && i < |s.searches| && s.searches[i].Sent?
    case Return => !s.looping && s.verdict.None? && (c.computeInfo ==> s.count >= |s.searches|)
  }

  ghost function Apply(c: Config, s: State, e: Event): State
    requires Enabled(c, s, e)
  {
    match e
    case Finish(i, result) => s.(searches := s.searches[i := Sent(result)])
    case Receive(i) =>
      var result := s.searches[i].result;
      var s' := s.(searches := s.searches[i := Received(result)], count := s.count + 1, ok := s.ok && result);
      if !s'.ok && !c.computeInfo then s'.(kill := true, looping := false)
      else if s'.count >= |s.searches| then s'.(looping := false)
      else s'
    case TimeOut => s.(timedOut := true, kill := true, looping := false)
    case Drain(i) =>
      s.(searches := s.searches[i := Received(s.searches[i].result)], count := s.count + 1)
    case Return => s.(verdict := Some(if !s.ok then Illegal else if s.timedOut then Unknown else Ok))
  }

  ghost predicate Next(c: Config, s: State, s': State) {
    exists e :: Enabled(c, s, e) && s' == Apply(c, s, e)
  }

  /** A run from the start; its last state is `run[|run| - 1]`. */
  ghost predicate IsRun(c: Config, run: seq<State>) {
    && run != []
    && Start(c, run[0])
    && forall i | 0 <= i < |run| - 1 :: Next(c, run[i], run[i + 1])
  }

  ghost function Last(run: seq<State>): State
    requires run != []
  {
    run[|run| - 1]
  }

  ghost predicate CanConclude(c: Config, v: Verdict) {
    exists run :: IsRun(c, run) && Last(run).verdict == Some(v)
  }

  // ----- What every run keeps -----

  ghost function Arrived(searches: seq<Search>): nat {
    if searches == [] then 0
    else Arrived(searches[..|searches| - 1]) + (if searches[|searches| - 1].Received? then 1 else 0)
  }

  lemma {:induction false} ArrivedNone(n: nat)
    ensures Arrived(seq(n, _ => Running)) == 0
  {
    if n > 0 {
      ArrivedNone(n - 1);
      assert seq(n, _ => Running)[..n - 1] == seq(n - 1, _ => Running);
    }
  }

  lemma {:induction false} ArrivedUpdate(searches: seq<Search>, i: nat, x: Search)
    requires i < |searches| && !searches[i].Received?
    ensures Arrived(searches[i := x]) == Arrived(searches) + (if x.Received? then 1 else 0)
  {
    var k := |searches| - 1;
    if i < k {
      ArrivedUpdate(searches[..k], i, x);
      assert searches[i := x][..k] == searches[..k][i := x];
    } else {
      assert searches[i := x][..k] == searches[..k];
    }
  }

  lemma {:induction false} ArrivedAll(searches: seq<Search>)
    ensures Arrived(searches) <= |searches|
    ensures Arrived(searches) == |searches| ==> forall i | 0 <= i < |searches| :: searches[i].Received?
  {
    if searches != [] {
      ArrivedAll(searches[..|searches| - 1]);
    }
  }

  /** No result that the loop takes comes from a killed search. */
  ghost predicate Truthful(c: Config, s: State) {
    forall i | 0 <= i < |s.searches| && i < |c.linearizable| ::
      !s.searches[i].Running? ==> s.searches[i].result == c.linearizable[i]
  }

  ghost predicate AllLinearizable(c: Config) {
    forall i | 0 <= i < |c.linearizable| :: c.linearizable[i]
  }

  ghost predicate Inv(c: Config, s: State) {
    && |s.searches| == |c.linearizable|
    && s.count == Arrived(s.searches)
    && (s.looping ==>
          && (s.searches == [] || s.count < |s.searches|)
          && !s.kill && !s.timedOut && s.verdict.None?
          && Truthful(c, s)
          && (s.ok ==> forall i | 0 <= i < |s.searches| && s.searches[i].Received? :: c.linearizable[i]))
    && (!s.ok ==> !AllLinearizable(c))
    && (!s.looping && s.ok && !s.timedOut ==> AllLinearizable(c) && c.linearizable != [])
    && (s.timedOut ==> c.hasTimeout)
    && (s.kill <==> s.timedOut || (!s.ok && !c.computeInfo))
    && (s.verdict.Some? && c.computeInfo ==> s.count == |s.searches|)
    && (s.verdict.Some? ==>
          !s.looping && s.verdict.value == if !s.ok then Illegal else if s.timedOut then Unknown else Ok)
  }

  lemma ReceiveKeepsInv(c: Config, s: State, i: nat)
    requires Inv(c, s) && Enabled(c, s, Receive(i))
    ensures Inv(c, Apply(c, s, Receive(i)))
  {
    var s' := Apply(c, s, Receive(i));
    ArrivedUpdate(s.searches, i, Received(s.searches[i].result));
    ArrivedAll(s'.searches);
    hide Arrived;
    assert s.looping && Truthful(c, s);
    assert s.searches[i].result == c.linearizable[i];
    assert forall j | 0 <= j < |s.searches| && s'.searches[j].Received? :: s'.ok ==> c.linearizable[j];
  }

  lemma StepKeepsInv(c: Config, s: State, e: Event)
    requires Inv(c, s) && Enabled(c, s, e)
    ensures Inv(c, Apply(c, s, e))
  {
    hide Arrived;
    match e {
      case Finish(i, result) => ArrivedUpdate(s.searches, i, Sent(result));
      case Receive(i) => ReceiveKeepsInv(c, s, i);
      case TimeOut =>
      case Drain(i) => ArrivedUpdate(s.searches, i, Received(s.searches[i].result));
      case Return => ArrivedAll(s.searches);
    }
  }

  lemma {:induction false} RunKeepsInv(c: Config, run: seq<State>)
    requires IsRun(c, run)
    ensures Inv(c, Last(run))
  {
    var n := |run| - 1;
    if n == 0 {
      ArrivedNone(|c.linearizable|);
    } else {
      RunKeepsInv(c, run[..n]);
      assert Next(c, run[n - 1], run[n - 1 + 1]);
      var e :| Enabled(c, run[n - 1], e) && run[n] == Apply(c, run[n - 1], e);
      StepKeepsInv(c, run[n - 1], e);
    }
  }

  /** Whatever the interleaving: the verdict is right, and it is Unknown only after a timeout. */
  lemma VerdictIsSound(c: Config, run: seq<State>)
    requires IsRun(c, run)
    ensures Last(run).verdict == Some(Illegal) ==> !AllLinearizable(c)
    ensures Last(run).verdict == Some(Ok) ==> AllLinearizable(c) && c.linearizable != []
    ensures Last(run).verdict == Some(Unknown) ==> Last(run).timedOut && c.hasTimeout
  {
    RunKeepsInv(c, run);
  }

  /**
   The searches are told to stop exactly after a timeout, or after the first no when only the verdict is wanted; and
   when partial results are wanted, the verdict waits for all searches.
   */
  lemma KillAndDrain(c: Config, run: seq<State>)
    requires IsRun(c, run)
    ensures Last(run).kill <==> Last(run).timedOut || (!Last(run).ok && !c.computeInfo)
    ensures Last(run).kill ==> !Last(run).looping
    ensures Last(run).verdict.Some? && c.computeInfo ==>
              forall i | 0 <= i < |Last(run).searches| :: Last(run).searches[i].Received?
  {
    RunKeepsInv(c, run);
    ArrivedAll(Last(run).searches);
  }

  // ----- Every run ends -----

  /** How many more events the searches can take part in. */
  ghost function Ahead(searches: seq<Search>): nat {
    if searches == [] then 0
    else
      var last := searches[|searches| - 1];
      Ahead(searches[..|searches| - 1]) + (if last.Running? then 2 else if last.Sent? then 1 else 0)
  }

  lemma {:induction false} AheadUpdate(searches: seq<Search>, i: nat, x: Search)
    requires i < |searches|
    requires (searches[i].Running? && x.Sent?) || (searches[i].Sent? && x.Received?)
    ensures Ahead(searches[i := x]) == Ahead(searches) - 1
  {
    var k := |searches| - 1;
    if i < k {
      AheadUpdate(searches[..k], i, x);
      assert searches[i := x][..k] == searches[..k][i := x];
    } else {
      assert searches[i := x][..k] == searches[..k];
    }
  }

  lemma {:induction false} AheadAtStart(n: nat)
    ensures Ahead(seq(n, _ => Running)) == 2 * n
  {
    if n > 0 {
      AheadAtStart(n - 1);
      assert seq(n, _ => Running)[..n - 1] == seq(n - 1, _ => Running);
    }
  }

  ghost function Rank(s: State): nat {
    Ahead(s.searches) + (if s.looping then 1 else 0) + (if s.verdict.None? then 1 else 0)
  }

  lemma StepLowersRank(c: Config, s: State, e: Event)
    requires Enabled(c, s, e)
    ensures Rank(Apply(c, s, e)) < Rank(s)
  {
    hide Ahead, Answer;
    match e {
      case Finish(i, result) => AheadUpdate(s.searches, i, Sent(result));
      case Receive(i) => AheadUpdate(s.searches, i, Received(s.searches[i].result));
      case TimeOut =>
      case Drain(i) => AheadUpdate(s.searches, i, Received(s.searches[i].result));
      case Return =>
    }
  }

  /** No run is longer than two events for each search, one for leaving the loop and one for the verdict. */
  lemma {:induction false} RunsAreBounded(c: Config, run: seq<State>)
    requires IsRun(c, run)
    ensures |run| + Rank(Last(run)) <= 2 * |c.linearizable| + 3
  {
    hide Ahead, Apply, Enabled;
    var n := |run| - 1;
    if n == 0 {
      AheadAtStart(|c.linearizable|);
      assert run[0].searches == seq(|c.linearizable|, _ => Running);
    } else {
      RunsAreBounded(c, run[..n]);
      assert Next(c, run[n - 1], run[n - 1 + 1]);
      var e :| Enabled(c, run[n - 1], e) && run[n] == Apply(c, run[n - 1], e);
      StepLowersRank(c, run[n - 1], e);
    }
  }

  /** A run that cannot go on. */
  ghost predicate IsMaximal(c: Config, run: seq<State>) {
    IsRun(c, run) && forall e :: !Enabled(c, Last(run), e)
  }

  /** A search that has sent its result and not been received, if not all have been received. */
  lemma SomeSent(searches: seq<Search>)
    requires forall i | 0 <= i < |searches| :: !searches[i].Running?
    requires Arrived(searches) < |searches|
    ensures exists i: nat :: i < |searches| && searches[i].Sent?
  {
    if forall i | 0 <= i < |searches| :: searches[i].Received? {
      AllArrived(searches);
    }
  }

  lemma {:induction false} AllArrived(searches: seq<Search>)
    requires forall i | 0 <= i < |searches| :: searches[i].Received?
    ensures Arrived(searches) == |searches|
  {
    if searches != [] {
      AllArrived(searches[..|searches| - 1]);
    }
  }

  /** Where a run cannot go on, every search has ended. */
  lemma NoneRunning(c: Config, s: State)
    requires Inv(c, s) && forall e :: !Enabled(c, s, e)
    ensures forall i | 0 <= i < |s.searches| :: !s.searches[i].Running?
  {
    hide Arrived;
    forall i: nat | i < |s.searches| ensures !s.searches[i].Running? {
      assert !Enabled(c, s, Finish(i, c.linearizable[i]));
    }
  }

  lemma StoppedMeansReturned(c: Config, s: State)
    requires Inv(c, s) && forall e :: !Enabled(c, s, e)
    ensures s.looping ==> c.linearizable == [] && !c.hasTimeout
    ensures !s.looping ==> s.verdict.Some?
  {
    NoneRunning(c, s);
    assert !Enabled(c, s, TimeOut) && !Enabled(c, s, Return);
    if s.count < |s.searches| {
      SomeSent(s.searches);
      var i: nat :| i < |s.searches| && s.searches[i].Sent?;
      assert !Enabled(c, s, Receive(i)) && !Enabled(c, s, Drain(i));
    }
  }

  /** Every run that cannot go on has a verdict, unless there is nothing to check and no timeout; and it is right. */
  lemma MaximalRunsDecide(c: Config, run: seq<State>)
    requires IsMaximal(c, run)
    ensures Last(run).verdict.Some? <==> c.linearizable != [] || c.hasTimeout
    ensures c.linearizable != [] && !Last(run).timedOut ==>
              Last(run).verdict == Some(if AllLinearizable(c) then Ok else Illegal)
    ensures !c.hasTimeout ==> !Last(run).timedOut
  {
    RunKeepsInv(c, run);
    hide Arrived;
    StoppedMeansReturned(c, Last(run));
  }

  // ----- Which verdicts can be reached -----

  /** The first `k` searches have been received in order and the loop goes on, unless all have. */
  ghost function InOrder(c: Config, k: nat): State
    requires k <= |c.linearizable|
  {
    var n := |c.linearizable|;
    State(seq(n, i requires 0 <= i < n => if i < k then Received(c.linearizable[i]) else Running),
          false, forall i | 0 <= i < k :: c.linearizable[i], false, k, !(0 < k == n), None)
  }

  lemma Extend(c: Config, run: seq<State>, e: Event)
    requires IsRun(c, run) && Enabled(c, Last(run), e)
    ensures IsRun(c, run + [Apply(c, Last(run), e)])
  {
  }

  /** The next search in order ends and is received. */
  lemma ReceiveNext(c: Config, front: seq<State>, k: nat) returns (run: seq<State>)
    requires k < |c.linearizable| && IsRun(c, front) && Last(front) == InOrder(c, k)
    ensures IsRun(c, run)
    ensures var ok := InOrder(c, k).ok && c.linearizable[k];
            var s := Last(run);
            && s.searches == InOrder(c, k + 1).searches && s.ok == ok && !s.timedOut && s.verdict.None?
            && s.count == k + 1
            && (if !ok && !c.computeInfo then s.kill && !s.looping
                else !s.kill && s.looping == (k + 1 < |c.linearizable|))
  {
    var e, r := Finish(k, c.linearizable[k]), Receive(k);
    Extend(c, front, e);
    run := front + [Apply(c, Last(front), e)];
    Extend(c, run, r);
    run := run + [Apply(c, Last(run), r)];
    assert Last(run).searches == InOrder(c, k + 1).searches;
  }

  lemma {:induction false} InOrderIsReached(c: Config, k: nat) returns (run: seq<State>)
    requires k <= |c.linearizable|
    requires c.computeInfo || forall i | 0 <= i < k :: c.linearizable[i]
    ensures IsRun(c, run) && Last(run) == InOrder(c, k)
  {
    if k == 0 {
      run := [InOrder(c, 0)];
      assert InOrder(c, 0).searches == seq(|c.linearizable|, _ => Running);
    } else {
      var front := InOrderIsReached(c, k - 1);
      run := ReceiveNext(c, front, k - 1);
    }
  }

  /** Ok can be the verdict exactly when there is a partition and all are linearizable. */
  lemma OkIsReachable(c: Config)
    ensures CanConclude(c, Ok) <==> AllLinearizable(c) && c.linearizable != []
  {
    if run :| IsRun(c, run) && Last(run).verdict == Some(Ok) {
      VerdictIsSound(c, run);
    }
    if AllLinearizable(c) && c.linearizable != [] {
      var run := InOrderIsReached(c, |c.linearizable|);
      Extend(c, run, Return);
      assert Last(run + [Apply(c, Last(run), Return)]).verdict == Some(Ok);
    }
  }

  /** Illegal can be the verdict exactly when some partition is not linearizable. */
  lemma IllegalIsReachable(c: Config)
    ensures CanConclude(c, Illegal) <==> !AllLinearizable(c)
  {
    if run :| IsRun(c, run) && Last(run).verdict == Some(Illegal) {
      VerdictIsSound(c, run);
    }
    if !AllLinearizable(c) {
      var k := FirstFailure(c);
      var run;
      if c.computeInfo {
        run := InOrderIsReached(c, |c.linearizable|);
      } else {
        run := InOrderIsReached(c, k);
        run := ReceiveNext(c, run, k);
      }
      Extend(c, run, Return);
      assert Last(run + [Apply(c, Last(run), Return)]).verdict == Some(Illegal);
    }
  }

  lemma FirstFailure(c: Config) returns (k: nat)
    requires !AllLinearizable(c)
    ensures k < |c.linearizable| && !c.linearizable[k] && forall i | 0 <= i < k :: c.linearizable[i]
  {
    k := 0;
    while c.linearizable[k]
      invariant k < |c.linearizable| && forall i | 0 <= i < k :: c.linearizable[i]
      decreases |c.linearizable| - k
    {
      k := k + 1;
    }
  }

  // ----- checkOperations on a key/value history -----

  /** The searches of `checkOperations`: partition by key, then search each partition's entries. */
  ghost predicate Checks(
    history: seq<K.KvOperation>, keys: seq<string>, entries: seq<seq<Entry<K.KvInput, K.KvOutput>>>, c: Config)
  {
    && K.KeysOf(history, keys)
    && |entries| == |c.linearizable| == |keys|
    && forall i | 0 <= i < |keys| ::
         && Arranges(Filter(K.Key, history, keys[i]), entries[i])
         && WellFormed(entries[i])
         && (c.linearizable[i] <==> Linearizable(K.Kv(), OpsOf(entries[i])))
  }

  /** All searches answer yes exactly when the history is linearizable against the whole store. */
  lemma SearchesDecideStore(
    history: seq<K.KvOperation>, keys: seq<string>, entries: seq<seq<Entry<K.KvInput, K.KvOutput>>>, c: Config)
    requires WellTimed(history) && Checks(history, keys, entries, c)
    ensures AllLinearizable(c) <==> Linearizable(K.KvStore(), history)
    ensures c.linearizable == [] <==> history == []
  {
    hide Filter, Linearizable, WellFormed, OpsOf, Arranges, NoDuplicates;
    var parts := seq(|keys|, i requires 0 <= i < |keys| => Filter(K.Key, history, keys[i]));
    K.PartitionIsLocal(history, parts, keys);
    forall i | 0 <= i < |keys| ensures c.linearizable[i] <==> Linearizable(K.Kv(), parts[i]) {
      ArrangedEntriesAgree(K.Kv(), parts[i], entries[i]);
    }
    K.KeysOfNothing(history, keys);
  }

  /**
   A search of one partition answers as the protocol expects: `kill` is what its loads of the flag see, so that it
   sees a kill only if the flag was raised.
   */
  method SearchPartition(
    ops: seq<K.KvOperation>, computeInfo: bool, kill: nat -> bool, ghost c: Config, ghost s: State, ghost i: nat)
    returns (result: bool, longest: seq<Option<seq<nat>>>)
    requires WellTimed(ops) && i < |c.linearizable| && (c.linearizable[i] <==> Linearizable(K.Kv(), ops))
    requires (exists t :: kill(t)) ==> s.kill
    ensures Answer(c, s, i, result)
  {
    K.KvCongruence();
    result, longest := CheckPartition(K.Kv(), ops, computeInfo, kill);
  }

  /**
   A key/value history can be found Ok exactly when it is linearizable against the whole store and not empty,
   and Illegal exactly when it is not linearizable. On the empty history the loop waits for a result that no
   search will send, so no verdict but Unknown is possible there.
   */
  lemma CheckOperationsDecides(
    history: seq<K.KvOperation>, keys: seq<string>, entries: seq<seq<Entry<K.KvInput, K.KvOutput>>>, c: Config)
    requires WellTimed(history) && Checks(history, keys, entries, c)
    ensures CanConclude(c, Ok) <==> Linearizable(K.KvStore(), history) && history != []
    ensures CanConclude(c, Illegal) <==> !Linearizable(K.KvStore(), history)
  {
    hide Linearizable, Checks, CanConclude;
    SearchesDecideStore(history, keys, entries, c);
    OkIsReachable(c);
    IllegalIsReachable(c);
  }

  /**
   Every maximal run on a history that is not empty ends, within a bounded number of events, with a verdict; and
   unless the timer went off it is Ok for a linearizable history and Illegal for any other.
   */
  lemma CheckOperationsAnswers(
    history: seq<K.KvOperation>, keys: seq<string>, entries: seq<seq<Entry<K.KvInput, K.KvOutput>>>, c: Config,
    run: seq<State>)
    requires WellTimed(history) && Checks(history, keys, entries, c) && IsMaximal(c, run)
    ensures |run| <= 2 * |keys| + 3
    ensures Last(run).verdict.Some? <==> history != [] || c.hasTimeout
    ensures history != [] && !Last(run).timedOut ==>
              Last(run).verdict == Some(if Linearizable(K.KvStore(), history) then Ok else Illegal)
    ensures Last(run).timedOut ==> c.hasTimeout
  {
    assert |c.linearizable| == |keys|;
    hide Linearizable, Checks, Rank, Enabled, Inv;
    SearchesDecideStore(history, keys, entries, c);
    RunsAreBounded(c, run);
    MaximalRunsDecide(c, run);
  }

  /** The empty history is linearizable, yet it is never found Ok, and without a timeout nothing is ever found. */
  lemma EmptyHistoryIsNeverOk(c: Config, run: seq<State>)
    requires c.linearizable == [] && IsRun(c, run)
    ensures Linearizable(K.KvStore(), [])
    ensures Last(run).verdict == None || Last(run).verdict == Some(Unknown)
    ensures !c.hasTimeout ==> Last(run).verdict == None
  {
    VerdictIsSound(c, run);
    assert AllLinearizable(c);
    match Last(run).verdict {
      case None =>
      case Some(v) => assert v != Ok && v != Illegal;
    }
    assert IsLinearization(K.KvStore(), [], []);
  }
}
