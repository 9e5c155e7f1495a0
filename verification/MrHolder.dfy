/**
 Whose report counts. The steps of a run of a MapReduce job are named here, so that a report can be traced back to
 the dispatch of the task it is about (Lab3/src/mr/coordinator.go, `RequestTask`, `CompleteTask`, `waitForTask`).
 */
module MrHolder {
  import opened Coordinator
  import opened MrData
  import opened MrRun
  import opened MrSystem

  /** The steps `steps` lead from one state of `run` to the next. */
  ghost predicate IsExecutionBy(c: Config, run: seq<Sys>, steps: seq<Step>) {
    && |run| == |steps| + 1
    && Init(c, run[0])
    && forall i | 0 <= i < |steps| :: Enabled(c, run[i], steps[i]) && run[i + 1] == Apply(c, run[i], steps[i])
  }

  lemma ByIsExecution(c: Config, run: seq<Sys>, steps: seq<Step>)
    requires IsExecutionBy(c, run, steps)
    ensures IsExecution(c, run)
  {
    hide Enabled, Apply, Init;
    forall i | 0 <= i < |run| - 1 ensures Next(c, run[i], run[i + 1]) {
      assert Enabled(c, run[i], steps[i]) && run[i + 1] == Apply(c, run[i], steps[i]);
    }
  }

  /** The step dispatches the task, or ends a lease of it. */
  predicate Concerns(e: Step, ref: Ref) {
    (e.Dispatch? && e.p.ref == ref) || (e.TimeOut? && e.t.ref == ref)
  }

  /** Of the steps before position `i`, number `j` is the last that dispatches the task or ends a lease of it. */
  ghost predicate Latest(steps: seq<Step>, i: nat, ref: Ref, j: int)
    requires i <= |steps|
  {
    0 <= j < i && Concerns(steps[j], ref) && forall k | j < k < i :: !Concerns(steps[k], ref)
  }

  /** The latest such step before `i` dispatched the task to `worker`: the lease is still on. */
  ghost predicate Holds(steps: seq<Step>, i: nat, ref: Ref, worker: nat)
    requires i <= |steps|
  {
    exists j :: Latest(steps, i, ref, j) && steps[j].Dispatch? && steps[j].p.worker == worker
  }

  ghost predicate NobodyHolds(steps: seq<Step>, i: nat, ref: Ref)
    requires i <= |steps|
  {
    forall w: nat :: !Holds(steps, i, ref, w)
  }

  lemma HoldsStays(steps: seq<Step>, i: nat, ref: Ref, w: nat)
    requires i < |steps| && !Concerns(steps[i], ref)
    ensures Holds(steps, i + 1, ref, w) <==> Holds(steps, i, ref, w)
  {
    if Holds(steps, i, ref, w) {
      var j :| Latest(steps, i, ref, j) && steps[j].Dispatch? && steps[j].p.worker == w;
      assert Latest(steps, i + 1, ref, j);
    }
    if Holds(steps, i + 1, ref, w) {
      var j :| Latest(steps, i + 1, ref, j) && steps[j].Dispatch? && steps[j].p.worker == w;
      assert Latest(steps, i, ref, j);
    }
  }

  lemma HoldsNow(steps: seq<Step>, i: nat, ref: Ref, w: nat)
    requires i < |steps| && Concerns(steps[i], ref)
    ensures Holds(steps, i + 1, ref, w) <==> steps[i].Dispatch? && steps[i].p.worker == w
  {
    var n := i + 1;
    assert Latest(steps, n, ref, i);
    forall j | Latest(steps, n, ref, j) ensures j == i {
      assert !(j < i);
    }
  }

  /** What the table says about a task agrees with who holds it. */
  ghost predicate HolderOk(s: Sys, steps: seq<Step>, i: nat, ref: Ref)
    requires i <= |steps| && Has(s.co, ref)
  {
    match Get(s.co, ref).status
    case NotStarted => NobodyHolds(steps, i, ref)
    case InProgress => forall w: nat :: Holds(steps, i, ref, w) <==> Get(s.co, ref).worker == w
    case Completed => true
  }

  /** What a step does to a task that it does not dispatch or take back. */
  lemma OtherStep(c: Config, s: Sys, e: Step, ref: Ref)
    requires Enabled(c, s, e) && Has(s.co, ref) && !Concerns(e, ref) && HeldOk(s, ref)
    ensures var s' := Apply(c, s, e);
            && Has(s'.co, ref)
            && var t, t' := Get(s.co, ref), Get(s'.co, ref);
               || t' == t
               || (t.status.InProgress? && t'.status.Completed?)
               || (t.status.NotStarted? && t.worker == -1 && t' == t.(status := InProgress))
  {
    hide Summarises, Globbed, Share, Contents;
    PickedHas(s.co);
  }

  lemma OwnStep(c: Config, s: Sys, e: Step, ref: Ref)
    requires Enabled(c, s, e) && Has(s.co, ref) && Concerns(e, ref) && LeaseInv(s)
    ensures var s' := Apply(c, s, e);
            && Has(s'.co, ref)
            && var t, t' := Get(s.co, ref), Get(s'.co, ref);
               if e.Dispatch? then t.status.InProgress? && t' == t.(worker := e.p.worker)
               else t'.status.NotStarted? || t'.status.Completed?
  {
    if e.Dispatch? {
      assert PendingOk(s, e.p);
    } else {
      assert TimerOk(s, e.t);
    }
  }

  lemma StepKeepsHolder(c: Config, s: Sys, steps: seq<Step>, i: nat, ref: Ref)
    requires i < |steps| && Enabled(c, s, steps[i]) && LeaseInv(s) && Has(s.co, ref) && HolderOk(s, steps, i, ref)
    ensures Has(Apply(c, s, steps[i]).co, ref) && HolderOk(Apply(c, s, steps[i]), steps, i + 1, ref)
  {
    var n := i + 1;
    assert HeldOk(s, ref);
    if Concerns(steps[i], ref) {
      OwnStep(c, s, steps[i], ref);
      hide Apply, Enabled, Has, Get, Holds, LeaseInv, HeldOk;
      forall w: nat ensures Holds(steps, n, ref, w) <==> steps[i].Dispatch? && steps[i].p.worker == w {
        HoldsNow(steps, i, ref, w);
      }
    } else {
      OtherStep(c, s, steps[i], ref);
      hide Apply, Enabled, Has, Get, Holds, LeaseInv, HeldOk;
      forall w: nat ensures Holds(steps, n, ref, w) <==> Holds(steps, i, ref, w) {
        HoldsStays(steps, i, ref, w);
      }
    }
  }

  /** In every run the table names as worker of a task in progress exactly the one that holds its lease. */
  lemma {:induction false} RunKeepsHolder(c: Config, run: seq<Sys>, steps: seq<Step>, i: nat, ref: Ref)
    requires ValidConfig(c) && IsExecutionBy(c, run, steps) && i <= |steps| && Has(run[0].co, ref)
    ensures Has(run[i].co, ref) && HolderOk(run[i], steps, i, ref)
  {
    hide Enabled, Apply, ValidConfig, Holds;
    if i == 0 {
      NobodyAtFirst(steps, ref);
    } else {
      RunKeepsHolder(c, run, steps, i - 1, ref);
      ByIsExecution(c, run, steps);
      RunKeepsInv(c, run, i - 1);
      hide HolderOk, Init, Has;
      assert Enabled(c, run[i - 1], steps[i - 1]) && run[i - 1 + 1] == Apply(c, run[i - 1], steps[i - 1]);
      StepKeepsHolder(c, run[i - 1], steps, i - 1, ref);
    }
  }

  lemma NobodyAtFirst(steps: seq<Step>, ref: Ref)
    ensures NobodyHolds(steps, 0, ref)
  {
    forall w: nat ensures !Holds(steps, 0, ref, w) {
      assert forall j :: !Latest(steps, 0, ref, j);
    }
  }

  /** The table has the same tasks in every state. */
  lemma SameTasks(c: Config, run: seq<Sys>, i: nat, ref: Ref)
    requires ValidConfig(c) && IsExecution(c, run) && i < |run| && Has(run[i].co, ref)
    ensures Has(run[0].co, ref)
  {
    RunKeepsInv(c, run, i);
    RunKeepsInv(c, run, 0);
    hide LeaseInv, DataInv, Init, Labelled, Counted;
  }

  /**
   In every run, a report that arrives changes the coordinator's table if and only if its task is not completed yet
   and the reporting worker holds its lease: the latest dispatch of the task went to this worker, and the lease has
   not run out since. Then the task is completed and counted, and nothing else changes.
   */
  lemma ReportCountsIffHeld(c: Config, run: seq<Sys>, steps: seq<Step>, i: nat, report: Report)
    requires ValidConfig(c) && IsExecutionBy(c, run, steps) && i < |steps| && steps[i] == Deliver(report)
    ensures Has(run[i].co, report.ref)
    ensures run[i + 1].co != run[i].co <==>
            !Get(run[i].co, report.ref).status.Completed? && Holds(steps, i, report.ref, report.worker)
    ensures run[i + 1].co != run[i].co ==>
              && Has(run[i + 1].co, report.ref)
              && Get(run[i + 1].co, report.ref) == Get(run[i].co, report.ref).(status := Completed)
              && run[i + 1].co.mapsDone == run[i].co.mapsDone + (if report.ref.MapRef? then 1 else 0)
              && run[i + 1].co.reducesDone == run[i].co.reducesDone + (if report.ref.ReduceRef? then 1 else 0)
              && forall q | Has(run[i].co, q) && q != report.ref ::
                   Has(run[i + 1].co, q) && Get(run[i + 1].co, q) == Get(run[i].co, q)
  {
    assert Enabled(c, run[i], steps[i]) && run[i + 1] == Apply(c, run[i], steps[i]);
    assert run[i + 1].co == Finish(run[i].co, report.ref, report.worker);
    ByIsExecution(c, run, steps);
    SameTasks(c, run, i, report.ref);
    RunKeepsHolder(c, run, steps, i, report.ref);
    hide Holds, IsExecutionBy, Apply, Enabled, Init, ValidConfig, IsExecution;
  }
}
