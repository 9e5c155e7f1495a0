/**
 Runs of a MapReduce job: one coordinator (Lab3/src/mr/coordinator.go), any number of workers
 (Lab3/src/mr/worker.go) and the shared files. A step is one locked section of the coordinator, one file operation
 of a worker, or the passing of time. Workers may stop for good at any moment, be slow for any length of time, and
 their reports may arrive late or more than once.
 */
module MrRun {
  import opened Coordinator
  import opened MrData
  import opened Sorting

  /** The job: the input files' names, what the map function gives for each, and the rest of the set-up. */
  datatype Config = Config(names: seq<string>, inter: seq<seq<KeyValue>>, n: nat, hash: string -> nat, reduce: Reduce)

  ghost predicate ValidConfig(c: Config) {
    |c.names| == |c.inter| && c.n > 0 && OrderInsensitive(c.reduce)
  }

  /** The intermediate file of map task `m` for reduce task `r`. */
  datatype Key = Key(m: nat, r: nat)

  /** `selectTask` has chosen `ref` for `worker`; the second locked section of `RequestTask` is still to come. */
  datatype Pending = Pending(ref: Ref, worker: nat, lease: nat)

  /** A `waitForTask` that is sleeping. */
  datatype Timer = Timer(ref: Ref, lease: nat)

  datatype Report = Report(ref: Ref, worker: nat)

  /** What a worker is doing. */
  datatype Job =
    | Asking                  // it has sent RequestTask
    | Awaiting                // a task has been chosen for it
    | Mapping(m: nat, k: nat) // it has renamed the first k of its map outputs
    | Globbing(r: nat)        // it is about to list the inputs of reduce task r
    | Reducing(r: nat, order: seq<nat>, read: seq<seq<KeyValue>>) // it has read the first |read| of them
    | Reporting(r: nat)       // it has renamed the output of reduce task r

  /** `holder` and `next` are history: the number of the latest lease of each task, and the next number. */
  datatype Sys = Sys(
    co: State, inflight: set<Pending>, timers: set<Timer>, holder: map<Ref, nat>, next: nat,
    jobs: map<nat, Job>, mail: set<Report>, files: map<Key, seq<KeyValue>>, outs: map<nat, seq<Line>>)

  ghost predicate Init(c: Config, s: Sys) {
    s == Sys(Initial(c.names, c.n), {}, {}, map[], 0, map[], {}, map[], map[])
  }

  datatype Step =
    | Ask(w: nat)
    | Select(w: nat)
    | Dispatch(p: Pending)
    | TimeOut(t: Timer)
    | Rename(w: nat)
    | Glob(w: nat, order: seq<nat>)
    | Read(w: nat)
    | Write(w: nat, lines: seq<Line>)
    | Tell(w: nat)
    | Deliver(report: Report)
    | Stop(w: nat)

  /** `order` lists the files that are there for reduce task `r`, in the order the glob gives them. */
  ghost predicate Globbed(files: map<Key, seq<KeyValue>>, r: nat, order: seq<nat>) {
    NoDuplicates(order) && forall m: nat :: m in order <==> Key(m, r) in files
  }

  ghost predicate Enabled(c: Config, s: Sys, e: Step) {
    match e
    case Ask(w) => w !in s.jobs
    case Select(w) => w in s.jobs && s.jobs[w].Asking?
    case Dispatch(p) => p in s.inflight && Has(s.co, p.ref)
    case TimeOut(t) => t in s.timers && Has(s.co, t.ref)
    case Rename(w) => w in s.jobs && s.jobs[w].Mapping? && s.jobs[w].k < c.n && s.jobs[w].m < |c.inter|
    case Glob(w, order) => w in s.jobs && s.jobs[w].Globbing? && Globbed(s.files, s.jobs[w].r, order)
    case Read(w) => w in s.jobs && s.jobs[w].Reducing? && |s.jobs[w].read| < |s.jobs[w].order|
    case Write(w, lines) =>
      && w in s.jobs && s.jobs[w].Reducing? && |s.jobs[w].read| == |s.jobs[w].order|
      && Summarises(c.reduce, Concat(s.jobs[w].read), lines)
    case Tell(w) => w in s.jobs && ((s.jobs[w].Mapping? && s.jobs[w].k == c.n) || s.jobs[w].Reporting?)
    case Deliver(report) => report in s.mail && Has(s.co, report.ref)
    case Stop(w) => w in s.jobs
  }

  /** The chosen task goes to the worker, if the worker is still there. A map task without a file is ignored. */
  function Begun(jobs: map<nat, Job>, w: nat, ref: Ref, file: string): map<nat, Job> {
    if w !in jobs || !jobs[w].Awaiting? then jobs
    else
      match ref
      case MapRef(m) => if file == "" then jobs - {w} else jobs[w := Mapping(m, 0)]
      case ReduceRef(r) => jobs[w := Globbing(r)]
  }

  function Selected(s: Sys, w: nat): Sys {
    match Picked(s.co)
    case Hand(ref) =>
      s.(co := Start(s.co), inflight := s.inflight + {Pending(ref, w, s.next)},
         holder := s.holder[ref := s.next], next := s.next + 1, jobs := s.jobs[w := Awaiting])
    case _ => s.(jobs := s.jobs - {w})
  }

  function Dispatched(s: Sys, p: Pending): Sys
    requires Has(s.co, p.ref)
  {
    s.(co := Assign(s.co, p.ref, p.worker), inflight := s.inflight - {p}, timers := s.timers + {Timer(p.ref, p.lease)},
       jobs := Begun(s.jobs, p.worker, p.ref, Get(s.co, p.ref).file))
  }

  function TimedOut(s: Sys, t: Timer): Sys
    requires Has(s.co, t.ref)
  {
    s.(co := Expire(s.co, t.ref), timers := s.timers - {t})
  }

  function Renamed(c: Config, s: Sys, w: nat): Sys
    requires Enabled(c, s, Rename(w))
  {
    var j := s.jobs[w];
    s.(files := s.files[Key(j.m, j.k) := Share(c.hash, c.n, c.inter[j.m], j.k)],
       jobs := s.jobs[w := Mapping(j.m, j.k + 1)])
  }

  /** A file that has gone would read as empty. */
  function Contents(files: map<Key, seq<KeyValue>>, key: Key): seq<KeyValue> {
    if key in files then files[key] else []
  }

  function ReadOne(files: map<Key, seq<KeyValue>>, j: Job): Job
    requires j.Reducing? && |j.read| < |j.order|
  {
    j.(read := j.read + [Contents(files, Key(j.order[|j.read|], j.r))])
  }

  ghost function Apply(c: Config, s: Sys, e: Step): Sys
    requires Enabled(c, s, e)
  {
    match e
    case Ask(w) => s.(jobs := s.jobs[w := Asking])
    case Select(w) => Selected(s, w)
    case Dispatch(p) => Dispatched(s, p)
    case TimeOut(t) => TimedOut(s, t)
    case Rename(w) => Renamed(c, s, w)
    case Glob(w, order) => s.(jobs := s.jobs[w := Reducing(s.jobs[w].r, order, [])])
    case Read(w) => s.(jobs := s.jobs[w := ReadOne(s.files, s.jobs[w])])
    case Write(w, lines) =>
      s.(outs := s.outs[s.jobs[w].r := lines], jobs := s.jobs[w := Reporting(s.jobs[w].r)])
    case Tell(w) =>
      var ref := if s.jobs[w].Mapping? then MapRef(s.jobs[w].m) else ReduceRef(s.jobs[w].r);
      s.(mail := s.mail + {Report(ref, w)}, jobs := s.jobs - {w})
    case Deliver(report) => s.(co := Finish(s.co, report.ref, report.worker))
    case Stop(w) => s.(jobs := s.jobs - {w})
  }

  ghost predicate Next(c: Config, s: Sys, s': Sys) {
    exists e :: Enabled(c, s, e) && s' == Apply(c, s, e)
  }

  ghost predicate IsExecution(c: Config, run: seq<Sys>) {
    && run != []
    && Init(c, run[0])
    && forall i | 0 <= i < |run| - 1 :: Next(c, run[i], run[i + 1])
  }

  // ----- Leases -----

  ghost predicate TimerOk(s: Sys, t: Timer) {
    Has(s.co, t.ref) && t.ref in s.holder && t.lease == s.holder[t.ref] && !Get(s.co, t.ref).status.NotStarted?
  }

  ghost predicate PendingOk(s: Sys, p: Pending) {
    && Has(s.co, p.ref) && p.ref in s.holder && p.lease == s.holder[p.ref]
    && Get(s.co, p.ref).status.InProgress? && Get(s.co, p.ref).worker == -1
    && Timer(p.ref, p.lease) !in s.timers
  }

  ghost predicate IsPending(s: Sys, ref: Ref) {
    exists p :: p in s.inflight && p.ref == ref
  }

  ghost predicate HasTimer(s: Sys, ref: Ref) {
    ref in s.holder && Timer(ref, s.holder[ref]) in s.timers
  }

  ghost predicate HeldOk(s: Sys, ref: Ref)
    requires Has(s.co, ref)
  {
    && (Get(s.co, ref).status.InProgress? ==> HasTimer(s, ref) || IsPending(s, ref))
    && (Get(s.co, ref).status.NotStarted? ==> Get(s.co, ref).worker == -1)
  }

  /**
   A task that has not started has no worker and no timer; a task in progress is on its way to one worker or has
   one timer, that of its own lease; timers of earlier leases are gone.
   */
  ghost predicate LeaseInv(s: Sys) {
    && (forall t | t in s.timers :: TimerOk(s, t))
    && (forall p | p in s.inflight :: PendingOk(s, p))
    && (forall p, q | p in s.inflight && q in s.inflight && p.ref == q.ref :: p == q)
    && (forall ref | Has(s.co, ref) :: HeldOk(s, ref))
  }

  lemma SelectKeepsLeases(s: Sys, w: nat)
    requires LeaseInv(s) && w in s.jobs
    ensures LeaseInv(Selected(s, w))
  {
    PickedHas(s.co);
    if Picked(s.co).Hand? {
      var ref := Picked(s.co).ref;
      var s', t := Selected(s, w), Get(s.co, ref).(status := InProgress);
      var new_ := Pending(ref, w, s.next);
      assert s'.co == Put(s.co, ref, t);
      forall q ensures Has(s'.co, q) <==> Has(s.co, q)
               ensures Has(s.co, q) ==> Get(s'.co, q) == if q == ref then t else Get(s.co, q) {
        PutGet(s.co, ref, t, q);
      }
      hide Get, Put, Has, Start, Picked;
      assert HeldOk(s, ref);
      forall p | p in s'.inflight ensures PendingOk(s', p) {
        if p != new_ {
          assert PendingOk(s, p);
        }
      }
      forall q | Has(s'.co, q) ensures HeldOk(s', q) {
        assert HeldOk(s, q);
        if q == ref {
          assert new_ in s'.inflight;
        }
      }
    }
  }

  lemma DispatchKeepsLeases(s: Sys, p: Pending)
    requires LeaseInv(s) && p in s.inflight && Has(s.co, p.ref)
    ensures LeaseInv(Dispatched(s, p))
  {
    var s', t := Dispatched(s, p), Get(s.co, p.ref).(worker := p.worker);
    forall q ensures Has(s'.co, q) <==> Has(s.co, q)
             ensures Has(s.co, q) ==> Get(s'.co, q) == if q == p.ref then t else Get(s.co, q) {
      PutGet(s.co, p.ref, t, q);
    }
    hide Get, Put, Has, Assign, Begun;
    assert PendingOk(s, p);
    forall q | Has(s'.co, q) ensures HeldOk(s', q) {
      assert HeldOk(s, q);
      if IsPending(s, q) && q != p.ref {
        var o :| o in s.inflight && o.ref == q;
        assert o in s'.inflight;
      }
    }
  }

  lemma TimeOutKeepsLeases(s: Sys, t: Timer)
    requires LeaseInv(s) && t in s.timers && Has(s.co, t.ref)
    ensures LeaseInv(TimedOut(s, t))
  {
    var s', u := TimedOut(s, t), Get(s.co, t.ref).(status := NotStarted, worker := -1);
    forall q
      ensures Has(s'.co, q) <==> Has(s.co, q)
      ensures Has(s.co, q) ==>
                Get(s'.co, q) == if q == t.ref && Get(s.co, q).status.InProgress? then u else Get(s.co, q)
    {
      PutGet(s.co, t.ref, u, q);
    }
    hide Get, Put, Has, Expire;
    assert TimerOk(s, t);
    forall p | p in s'.inflight ensures PendingOk(s', p) {
      assert PendingOk(s, p);
    }
    forall q | Has(s'.co, q) ensures HeldOk(s', q) {
      assert HeldOk(s, q);
      if IsPending(s, q) {
        var o :| o in s.inflight && o.ref == q;
        assert o in s'.inflight;
      }
    }
  }

  lemma DeliverKeepsLeases(s: Sys, report: Report)
    requires LeaseInv(s) && Has(s.co, report.ref)
    ensures LeaseInv(s.(co := Finish(s.co, report.ref, report.worker)))
  {
    var s' := s.(co := Finish(s.co, report.ref, report.worker));
    var u := Get(s.co, report.ref).(status := Completed);
    forall q
      ensures Has(s'.co, q) <==> Has(s.co, q)
      ensures Has(s.co, q) ==>
                Get(s'.co, q) == if q == report.ref && Accepts(s.co, q, report.worker) then u else Get(s.co, q)
    {
      PutGet(s.co, report.ref, u, q);
    }
    hide Get, Put, Has, Finish;
    forall p | p in s'.inflight ensures PendingOk(s', p) {
      assert PendingOk(s, p);
    }
    forall q | Has(s'.co, q) ensures HeldOk(s', q) {
      assert HeldOk(s, q);
      if IsPending(s, q) {
        var o :| o in s.inflight && o.ref == q;
        assert o in s'.inflight;
      }
    }
  }

  lemma SameLeases(s: Sys, s': Sys)
    requires LeaseInv(s)
    requires s'.co == s.co && s'.inflight == s.inflight && s'.timers == s.timers && s'.holder == s.holder
    ensures LeaseInv(s')
  {
    hide Get, Has;
    forall q | Has(s'.co, q) ensures HeldOk(s', q) {
      assert HeldOk(s, q);
      if IsPending(s, q) {
        var o :| o in s.inflight && o.ref == q;
        assert o in s'.inflight;
      }
    }
  }

  lemma StepKeepsLeases(c: Config, s: Sys, e: Step)
    requires LeaseInv(s) && Enabled(c, s, e)
    ensures LeaseInv(Apply(c, s, e))
  {
    hide LeaseInv, Selected, Dispatched, TimedOut, Renamed, ReadOne, Summarises, Globbed, Finish;
    match e
    case Select(w) => SelectKeepsLeases(s, w);
    case Dispatch(p) => DispatchKeepsLeases(s, p);
    case TimeOut(t) => TimeOutKeepsLeases(s, t);
    case Deliver(report) => DeliverKeepsLeases(s, report);
    case Rename(w) =>
      RenameFrame(c, s, w);
      SameLeases(s, Apply(c, s, e));
    case _ => SameLeases(s, Apply(c, s, e));
  }

  lemma RenameFrame(c: Config, s: Sys, w: nat)
    requires Enabled(c, s, Rename(w))
    ensures Renamed(c, s, w) == s.(files := Renamed(c, s, w).files, jobs := Renamed(c, s, w).jobs)
  {
  }
}
