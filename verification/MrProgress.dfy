/**
 A job can always still be finished: whatever has happened so far (workers that stopped, timers that ran out,
 reports that came late), some continuation ends with every task completed.
 */
module MrProgress {
  import opened Coordinator
  import opened MrData
  import opened MrEquivalence
  import opened MrRun
  import opened MrSystem

  ghost function Last(run: seq<Sys>): Sys
    requires run != []
  {
    run[|run| - 1]
  }

  ghost predicate Continues(c: Config, run: seq<Sys>, run': seq<Sys>) {
    IsExecution(c, run') && run <= run'
  }

  lemma Extend(c: Config, run: seq<Sys>, e: Step) returns (run': seq<Sys>)
    requires IsExecution(c, run) && Enabled(c, Last(run), e)
    ensures Continues(c, run, run') && Last(run') == Apply(c, Last(run), e)
  {
    hide Enabled, Apply, Init;
    run' := run + [Apply(c, Last(run), e)];
    forall i | 0 <= i < |run'| - 1 ensures Next(c, run'[i], run'[i + 1]) {
      if i < |run| - 1 {
        assert Next(c, run[i], run[i + 1]);
      } else {
        assert Enabled(c, run'[i], e) && run'[i + 1] == Apply(c, run'[i], e);
      }
    }
  }

  // ----- One worker carries a task through -----

  lemma TellAndDeliver(c: Config, run: seq<Sys>, w: nat, ref: Ref) returns (run': seq<Sys>)
    requires IsExecution(c, run) && Enabled(c, Last(run), Tell(w)) && Has(Last(run).co, ref)
    requires ref == if Last(run).jobs[w].Mapping? then MapRef(Last(run).jobs[w].m) else ReduceRef(Last(run).jobs[w].r)
    ensures Continues(c, run, run') && Last(run').co == Finish(Last(run).co, ref, w)
  {
    hide IsExecution, Finish, Has, Summarises, Globbed;
    var told := Extend(c, run, Tell(w));
    run' := Extend(c, told, Deliver(Report(ref, w)));
  }

  lemma {:induction false} CarryMap(c: Config, run: seq<Sys>, w: nat) returns (run': seq<Sys>)
    requires IsExecution(c, run) && w in Last(run).jobs && Last(run).jobs[w].Mapping?
    requires Last(run).jobs[w].k <= c.n && Last(run).jobs[w].m < |c.inter|
    requires Has(Last(run).co, MapRef(Last(run).jobs[w].m))
    ensures Continues(c, run, run') && Last(run').co == Finish(Last(run).co, MapRef(Last(run).jobs[w].m), w)
    decreases c.n - Last(run).jobs[w].k
  {
    var j := Last(run).jobs[w];
    hide IsExecution, Finish, Has, Share;
    if j.k < c.n {
      var next := Extend(c, run, Rename(w));
      run' := CarryMap(c, next, w);
    } else {
      run' := TellAndDeliver(c, run, w, MapRef(j.m));
    }
  }

  lemma {:induction false} ReadAll(c: Config, run: seq<Sys>, w: nat) returns (run': seq<Sys>)
    requires IsExecution(c, run) && w in Last(run).jobs && Last(run).jobs[w].Reducing?
    requires |Last(run).jobs[w].read| <= |Last(run).jobs[w].order|
    ensures Continues(c, run, run') && Last(run').co == Last(run).co
    ensures w in Last(run').jobs && Last(run').jobs[w].Reducing? && Last(run').jobs[w].r == Last(run).jobs[w].r
    ensures |Last(run').jobs[w].read| == |Last(run').jobs[w].order|
    decreases |Last(run).jobs[w].order| - |Last(run).jobs[w].read|
  {
    var j := Last(run).jobs[w];
    hide IsExecution, Contents;
    if |j.read| < |j.order| {
      var next := Extend(c, run, Read(w));
      run' := ReadAll(c, next, w);
    } else {
      run' := run;
    }
  }

  lemma CarryReduce(c: Config, run: seq<Sys>, w: nat) returns (run': seq<Sys>)
    requires ValidConfig(c) && IsExecution(c, run) && w in Last(run).jobs && Last(run).jobs[w].Globbing?
    requires Has(Last(run).co, ReduceRef(Last(run).jobs[w].r))
    ensures Continues(c, run, run') && Last(run').co == Finish(Last(run).co, ReduceRef(Last(run).jobs[w].r), w)
  {
    var r := Last(run).jobs[w].r;
    var order := GlobExists(c, run, w);
    hide IsExecution, Finish, Has, Globbed, Summarises, ValidConfig;
    var globbed := Extend(c, run, Glob(w, order));
    var read := ReadAll(c, globbed, w);
    var lines := SummaryExists(c.reduce, Concat(Last(read).jobs[w].read));
    var written := Extend(c, read, Write(w, lines));
    run' := TellAndDeliver(c, written, w, ReduceRef(r));
  }

  lemma GlobExists(c: Config, run: seq<Sys>, w: nat) returns (order: seq<nat>)
    requires ValidConfig(c) && IsExecution(c, run) && w in Last(run).jobs && Last(run).jobs[w].Globbing?
    ensures Globbed(Last(run).files, Last(run).jobs[w].r, order)
  {
    RunKeepsInv(c, run, |run| - 1);
    var s := Last(run);
    assert JobOk(c, s, s.jobs[w]);
    hide IsExecution, Shaped, FilesOk, TasksOk, MapsDone;
    order := seq(|c.inter|, i requires 0 <= i < |c.inter| => i);
    forall m: nat ensures m in order <==> Key(m, s.jobs[w].r) in s.files {
      AllFilesThere(c, s, s.jobs[w].r, m);
      assert m < |c.inter| ==> order[m] == m;
    }
  }

  // ----- One more task is completed -----

  ghost function Left(co: State): int {
    |co.maps| + |co.reduces| - co.mapsDone - co.reducesDone
  }

  lemma {:induction false} Fresh(used: set<nat>) returns (w: nat)
    ensures w !in used && forall v | v in used :: v < w
  {
    if x :| x in used {
      var v := Fresh(used - {x});
      w := if v <= x then x + 1 else v;
      forall y | y in used ensures y < w {
        assert y == x || y in used - {x};
      }
    } else {
      w := 0;
    }
  }

  /** A new worker asks and a task is chosen for it. */
  lemma Choose(c: Config, run: seq<Sys>) returns (run': seq<Sys>, p: Pending)
    requires IsExecution(c, run) && Picked(Last(run).co).Hand?
    ensures Continues(c, run, run') && p.ref == Picked(Last(run).co).ref
    ensures Last(run').co == Start(Last(run).co) && p in Last(run').inflight
    ensures p.worker in Last(run').jobs && Last(run').jobs[p.worker].Awaiting?
  {
    var s := Last(run);
    hide IsExecution, Start, Picked;
    var w := Fresh(s.jobs.Keys);
    var asked := Extend(c, run, Ask(w));
    run' := Extend(c, asked, Select(w));
    p := Pending(Picked(s.co).ref, w, s.next);
  }

  /** The chosen task comes to the worker, and a report by this worker would now count. */
  lemma HandOut(c: Config, run: seq<Sys>) returns (run': seq<Sys>, w: nat, ref: Ref)
    requires IsExecution(c, run) && Picked(Last(run).co).Hand?
    requires Labelled(Last(run).co, c.names) && forall i | 0 <= i < |c.names| :: c.names[i] != ""
    ensures Continues(c, run, run') && Has(Last(run').co, ref) && Accepts(Last(run').co, ref, w)
    ensures Last(run').co.mapsDone == Last(run).co.mapsDone && Last(run').co.reducesDone == Last(run).co.reducesDone
    ensures |Last(run').co.maps| == |Last(run).co.maps| && |Last(run').co.reduces| == |Last(run).co.reduces|
    ensures w in Last(run').jobs && Last(run').jobs[w] == if ref.MapRef? then Mapping(ref.i, 0) else Globbing(ref.i)
  {
    var co := Last(run).co;
    ref := Picked(co).ref;
    PickedHas(co);
    var chosen, p := Choose(c, run);
    w := p.worker;
    assert ref.MapRef? ==> Get(Start(co), ref).file != "";
    hide IsExecution, Picked, Labelled;
    run' := Extend(c, chosen, Dispatch(p));
  }

  lemma CompleteOne(c: Config, run: seq<Sys>) returns (run': seq<Sys>)
    requires ValidConfig(c) && IsExecution(c, run) && Picked(Last(run).co).Hand?
    requires forall i | 0 <= i < |c.names| :: c.names[i] != ""
    ensures Continues(c, run, run') && Left(Last(run').co) == Left(Last(run).co) - 1
  {
    hide LeaseInv, DataInv, Picked, Labelled, Counted, Init, Next, ValidConfig;
    RunKeepsInv(c, run, |run| - 1);
    var handed, w, ref := HandOut(c, run);
    RunKeepsInv(c, handed, |handed| - 1);
    hide IsExecution;
    if ref.MapRef? {
      run' := CarryMap(c, handed, w);
    } else {
      run' := CarryReduce(c, handed, w);
    }
  }

  // ----- A task that is held up is freed -----

  /** The timer of a task in progress runs out, after the dispatch if that is still to come. */
  lemma FreeOne(c: Config, run: seq<Sys>, ref: Ref) returns (run': seq<Sys>)
    requires ValidConfig(c) && IsExecution(c, run)
    requires Has(Last(run).co, ref) && Get(Last(run).co, ref).status.InProgress?
    ensures Continues(c, run, run') && Left(Last(run').co) == Left(Last(run).co)
    ensures Has(Last(run').co, ref) && Get(Last(run').co, ref).status.NotStarted?
    ensures MapsDone(Last(run)) ==> MapsDone(Last(run'))
  {
    hide DataInv, Shaped, AllCompleted, Init, Next, Summarises, Globbed, ValidConfig;
    RunKeepsInv(c, run, |run| - 1);
    var s := Last(run);
    assert HeldOk(s, ref);
    hide IsExecution;
    if HasTimer(s, ref) {
      run' := LetTimeOut(c, run, ref);
    } else {
      var p :| p in s.inflight && p.ref == ref;
      assert PendingOk(s, p);
      var next := Extend(c, run, Dispatch(p));
      PutKeepsMapsDone(s, Last(next), ref, Get(s.co, ref).(worker := p.worker));
      run' := LetTimeOut(c, next, ref);
    }
  }

  lemma LetTimeOut(c: Config, run: seq<Sys>, ref: Ref) returns (run': seq<Sys>)
    requires IsExecution(c, run) && Has(Last(run).co, ref) && Get(Last(run).co, ref).status.InProgress?
    requires HasTimer(Last(run), ref)
    ensures Continues(c, run, run') && Left(Last(run').co) == Left(Last(run).co)
    ensures Has(Last(run').co, ref) && Get(Last(run').co, ref).status.NotStarted?
    ensures MapsDone(Last(run)) ==> MapsDone(Last(run'))
  {
    var s := Last(run);
    hide IsExecution;
    run' := Extend(c, run, TimeOut(Timer(ref, s.holder[ref])));
  }

  lemma MakeIdle(c: Config, run: seq<Sys>) returns (run': seq<Sys>)
    requires ValidConfig(c) && IsExecution(c, run) && !AllDone(Last(run).co)
    ensures Continues(c, run, run') && Left(Last(run').co) == Left(Last(run).co) && Picked(Last(run').co).Hand?
  {
    var s := Last(run);
    if Picked(s.co).Hand? {
      run' := run;
    } else {
      var ref := HeldUp(c, run);
      run' := FreeOne(c, run, ref);
      RunKeepsInv(c, run', |run'| - 1);
      hide Picked, IsExecution, Counted;
      IdleMeansHand(Last(run').co, ref);
    }
  }

  lemma HeldUp(c: Config, run: seq<Sys>) returns (ref: Ref)
    requires ValidConfig(c) && IsExecution(c, run) && !AllDone(Last(run).co) && !Picked(Last(run).co).Hand?
    ensures Has(Last(run).co, ref) && Get(Last(run).co, ref).status.InProgress?
    ensures ref.ReduceRef? ==> MapsDone(Last(run))
  {
    RunKeepsInv(c, run, |run| - 1);
    var s := Last(run);
    hide IsExecution, LeaseInv, FilesOk, JobsOk, OutsOk, MailOk, Labelled;
    PickMeaning(s.co);
    DoneIffCompleted(s.co);
    ref :| Has(s.co, ref) && Get(s.co, ref).status.InProgress?;
    assert TaskOk(c, s, ref);
  }

  lemma IdleMeansHand(co: State, ref: Ref)
    requires Counted(co) && Has(co, ref) && Get(co, ref).status.NotStarted?
    requires ref.ReduceRef? ==> AllCompleted(co.maps)
    ensures Picked(co).Hand?
  {
    CountIsFull(co.maps);
  }

  /** From every state of every run, some continuation completes the whole job. */
  lemma {:induction false} CanAlwaysFinish(c: Config, run: seq<Sys>) returns (run': seq<Sys>)
    requires ValidConfig(c) && IsExecution(c, run)
    requires forall i | 0 <= i < |c.names| :: c.names[i] != ""
    ensures Continues(c, run, run') && AllDone(Last(run').co)
    decreases Left(Last(run).co)
  {
    LeftIsNatural(c, run);
    if AllDone(Last(run).co) {
      run' := run;
    } else {
      var idle := MakeIdle(c, run);
      var more := CompleteOne(c, idle);
      LeftIsNatural(c, more);
      run' := CanAlwaysFinish(c, more);
    }
  }

  lemma LeftIsNatural(c: Config, run: seq<Sys>)
    requires ValidConfig(c) && IsExecution(c, run)
    ensures Left(Last(run).co) >= 0
  {
    RunKeepsInv(c, run, |run| - 1);
    CountIsFull(Last(run).co.maps);
    CountIsFull(Last(run).co.reduces);
  }

  // ----- A map task without a file name -----

  /** Nobody works on map task `m` or reports it, and it is not completed. */
  ghost predicate Untouched(s: Sys, m: nat) {
    && m < |s.co.maps| && s.co.maps[m].file == "" && !s.co.maps[m].status.Completed?
    && (forall w | w in s.jobs :: !OnMap(s.jobs[w], m))
    && (forall report | report in s.mail :: report.ref != MapRef(m))
  }

  predicate OnMap(j: Job, m: nat) {
    j.Mapping? && j.m == m
  }

  lemma StepKeepsUntouched(c: Config, s: Sys, e: Step, m: nat)
    requires Enabled(c, s, e) && Untouched(s, m)
    ensures Untouched(Apply(c, s, e), m)
  {
    hide Summarises, Globbed, Share, Contents;
    PickedHas(s.co);
    var s' := Apply(c, s, e);
    assert m < |s'.co.maps| && s'.co.maps[m].file == "" && !s'.co.maps[m].status.Completed? by {
      if e.Deliver? {
        assert e.report.ref != MapRef(m);
      }
    }
    hide Idle, Picked, Accepts;
    forall w | w in s'.jobs ensures !OnMap(s'.jobs[w], m) {
      assert w in s.jobs ==> !OnMap(s.jobs[w], m);
    }
    if e.Tell? {
      assert !OnMap(s.jobs[e.w], m);
    }
  }

  lemma {:induction false} EmptyNameIsUntouched(c: Config, run: seq<Sys>, i: nat, m: nat)
    requires IsExecution(c, run) && i < |run| && m < |c.names| && c.names[m] == ""
    ensures Untouched(run[i], m)
  {
    hide Enabled, Apply;
    if i > 0 {
      EmptyNameIsUntouched(c, run, i - 1, m);
      assert Next(c, run[i - 1], run[i - 1 + 1]);
      var e :| Enabled(c, run[i - 1], e) && run[i] == Apply(c, run[i - 1], e);
      StepKeepsUntouched(c, run[i - 1], e, m);
    }
  }

  /** The job can be finished, at any moment of any run, exactly when every input file has a name. */
  lemma FinishableIffNamed(c: Config, run: seq<Sys>)
    requires ValidConfig(c) && IsExecution(c, run)
    ensures (exists run' :: Continues(c, run, run') && AllDone(Last(run').co)) <==>
            forall i | 0 <= i < |c.names| :: c.names[i] != ""
  {
    if forall i | 0 <= i < |c.names| :: c.names[i] != "" {
      var run' := CanAlwaysFinish(c, run);
    } else {
      var m: nat :| m < |c.names| && c.names[m] == "";
      forall run' | Continues(c, run, run') ensures !AllDone(Last(run').co) {
        EmptyNameNeverDone(c, run', m);
      }
    }
  }

  lemma EmptyNameNeverDone(c: Config, run: seq<Sys>, m: nat)
    requires ValidConfig(c) && IsExecution(c, run) && m < |c.names| && c.names[m] == ""
    ensures !AllDone(Last(run).co)
  {
    EmptyNameIsUntouched(c, run, |run| - 1, m);
    RunKeepsInv(c, run, |run| - 1);
    DoneIffCompleted(Last(run).co);
  }
}
