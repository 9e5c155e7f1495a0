/**
 What every run of a MapReduce job keeps, and what follows when the coordinator says that the job is done: the
 outputs are there, they are final, and their lines are the lines of the sequential program
 (Lab3/src/main/mrsequential.go).
 */
module MrSystem {
  import opened Coordinator
  import opened MrData
  import opened MrEquivalence
  import opened MrRun
  import opened Sorting

  // ----- The invariant on files, jobs, reports and tasks -----

  ghost predicate MapsDone(s: Sys) {
    AllCompleted(s.co.maps)
  }

  ghost predicate FileOk(c: Config, key: Key, file: seq<KeyValue>)
    requires c.n > 0
  {
    key.m < |c.inter| && key.r < c.n && file == Share(c.hash, c.n, c.inter[key.m], key.r)
  }

  ghost predicate FilesOk(c: Config, s: Sys)
    requires c.n > 0
  {
    forall key | key in s.files :: FileOk(c, key, s.files[key])
  }

  /** The first `k` outputs of map task `m` are there. */
  ghost predicate HasFiles(s: Sys, m: nat, k: nat) {
    forall r: nat | r < k :: Key(m, r) in s.files
  }

  /** Everything that belongs to reduce task `r`. */
  ghost function Whole(c: Config, r: nat): seq<KeyValue>
    requires c.n > 0
  {
    Share(c.hash, c.n, Concat(c.inter), r)
  }

  ghost predicate OutOk(c: Config, r: nat, lines: seq<Line>)
    requires c.n > 0
  {
    r < c.n && Summarises(c.reduce, Whole(c, r), lines)
  }

  ghost predicate OutsOk(c: Config, s: Sys)
    requires c.n > 0
  {
    forall r | r in s.outs :: OutOk(c, r, s.outs[r])
  }

  /** What reading has given so far is the beginning of what the whole of `order` gives. */
  ghost predicate ReadOk(c: Config, r: nat, order: seq<nat>, read: seq<seq<KeyValue>>)
    requires c.n > 0
  {
    && Lists(order, |c.inter|)
    && |read| <= |order|
    && read == InOrder(Shares(c.hash, c.n, c.inter, r), order)[..|read|]
  }

  /** All inputs of reduce task `r` are there. */
  ghost predicate HasInputs(c: Config, s: Sys, r: nat) {
    forall m: nat | m < |c.inter| :: Key(m, r) in s.files
  }

  ghost predicate JobOk(c: Config, s: Sys, j: Job)
    requires c.n > 0
  {
    match j
    case Mapping(m, k) => m < |c.inter| && k <= c.n && HasFiles(s, m, k)
    case Globbing(r) => r < c.n && MapsDone(s)
    case Reducing(r, order, read) => r < c.n && ReadOk(c, r, order, read) && HasInputs(c, s, r)
    case Reporting(r) => r < c.n && r in s.outs
    case _ => true
  }

  ghost predicate JobsOk(c: Config, s: Sys)
    requires c.n > 0
  {
    forall w | w in s.jobs :: JobOk(c, s, s.jobs[w])
  }

  /** The result of a map or reduce task is on disk. */
  ghost predicate Stored(c: Config, s: Sys, ref: Ref) {
    match ref
    case MapRef(m) => m < |c.inter| && HasFiles(s, m, c.n)
    case ReduceRef(r) => r < c.n && r in s.outs
  }

  ghost predicate MailOk(c: Config, s: Sys) {
    forall report | report in s.mail :: Stored(c, s, report.ref)
  }

  /** A completed task is stored; a reduce task leaves its first state only after all map tasks are completed. */
  ghost predicate TaskOk(c: Config, s: Sys, ref: Ref)
    requires Has(s.co, ref)
  {
    && (Get(s.co, ref).status.Completed? ==> Stored(c, s, ref))
    && (ref.ReduceRef? && !Get(s.co, ref).status.NotStarted? ==> MapsDone(s))
  }

  ghost predicate TasksOk(c: Config, s: Sys) {
    forall ref | Has(s.co, ref) :: TaskOk(c, s, ref)
  }

  ghost predicate Shaped(c: Config, co: State) {
    |co.maps| == |c.inter| && |co.reduces| == c.n && Counted(co) && Labelled(co, c.names)
  }

  ghost predicate DataInv(c: Config, s: Sys)
    requires c.n > 0
  {
    FilesOk(c, s) && OutsOk(c, s) && JobsOk(c, s) && MailOk(c, s) && TasksOk(c, s)
  }

  ghost predicate Inv(c: Config, s: Sys)
    requires c.n > 0
  {
    Shaped(c, s.co) && LeaseInv(s) && DataInv(c, s)
  }

  // ----- Growth -----

  /** Nothing that was there is lost. */
  ghost predicate Grows(s: Sys, s': Sys) {
    && (forall key | key in s.files :: key in s'.files)
    && (forall r | r in s.outs :: r in s'.outs)
    && (MapsDone(s) ==> MapsDone(s'))
  }

  lemma JobGrows(c: Config, s: Sys, s': Sys, j: Job)
    requires c.n > 0 && Grows(s, s') && JobOk(c, s, j)
    ensures JobOk(c, s', j)
  {
    hide ReadOk, AllCompleted;
  }

  lemma StoredGrows(c: Config, s: Sys, s': Sys, ref: Ref)
    requires Grows(s, s') && Stored(c, s, ref)
    ensures Stored(c, s', ref)
  {
    hide MapsDone;
  }

  /** The jobs other than that of `w` stay as they are. */
  ghost predicate OthersSame(s: Sys, s': Sys, w: nat) {
    forall v | v in s'.jobs && v != w :: v in s.jobs && s'.jobs[v] == s.jobs[v]
  }

  lemma JobsGrow(c: Config, s: Sys, s': Sys, w: nat)
    requires c.n > 0 && Grows(s, s') && JobsOk(c, s) && OthersSame(s, s', w)
    requires w in s'.jobs ==> JobOk(c, s', s'.jobs[w])
    ensures JobsOk(c, s')
  {
    hide Grows, JobOk;
    forall v | v in s'.jobs ensures JobOk(c, s', s'.jobs[v]) {
      if v != w {
        JobGrows(c, s, s', s.jobs[v]);
      }
    }
  }

  lemma MailGrows(c: Config, s: Sys, s': Sys)
    requires Grows(s, s') && MailOk(c, s) && s'.mail == s.mail
    ensures MailOk(c, s')
  {
    hide Grows, Stored;
    forall report | report in s'.mail ensures Stored(c, s', report.ref) {
      StoredGrows(c, s, s', report.ref);
    }
  }

  lemma TasksGrow(c: Config, s: Sys, s': Sys)
    requires Grows(s, s') && TasksOk(c, s) && s'.co == s.co
    ensures TasksOk(c, s')
  {
    hide Stored, Get, Has;
    forall ref | Has(s'.co, ref) ensures TaskOk(c, s', ref) {
      assert TaskOk(c, s, ref);
      if Get(s.co, ref).status.Completed? {
        StoredGrows(c, s, s', ref);
      }
    }
  }

  // ----- Steps of the coordinator -----

  lemma PutKeepsMapsDone(s: Sys, s': Sys, ref: Ref, t: Task)
    requires Has(s.co, ref) && s'.co.maps == Put(s.co, ref, t).maps
    requires Get(s.co, ref).status.Completed? ==> t.status.Completed?
    ensures MapsDone(s) ==> MapsDone(s')
  {
  }

  /** One task changes; the files and outputs do not. */
  lemma CoKeepsTasks(c: Config, s: Sys, s': Sys, ref: Ref, t: Task)
    requires Has(s.co, ref) && TasksOk(c, s)
    requires s'.co.maps == Put(s.co, ref, t).maps && s'.co.reduces == Put(s.co, ref, t).reduces
    requires s'.files == s.files && s'.outs == s.outs
    requires Get(s.co, ref).status.Completed? ==> t.status.Completed?
    requires t.status.Completed? && !Get(s.co, ref).status.Completed? ==> Stored(c, s, ref)
    requires ref.ReduceRef? && Get(s.co, ref).status.NotStarted? && !t.status.NotStarted? ==> MapsDone(s)
    ensures Grows(s, s') && TasksOk(c, s')
  {
    PutKeepsMapsDone(s, s', ref, t);
    assert Grows(s, s') by {
      hide MapsDone;
    }
    forall q | Has(s'.co, q) ensures TaskOk(c, s', q) {
      PutGet(s.co, ref, t, q);
      GetSame(s'.co, Put(s.co, ref, t), q);
      hide Get, Has, Put, Stored, MapsDone;
      assert TaskOk(c, s, q);
      if Get(s'.co, q).status.Completed? {
        StoredGrows(c, s, s', q);
      }
    }
  }

  lemma GetSame(a: State, b: State, ref: Ref)
    requires a.maps == b.maps && a.reduces == b.reduces
    ensures Has(a, ref) <==> Has(b, ref)
    ensures Has(a, ref) ==> Get(a, ref) == Get(b, ref)
  {
  }

  lemma CoKeepsData(c: Config, s: Sys, s': Sys, w: nat, ref: Ref, t: Task)
    requires c.n > 0 && FilesOk(c, s) && OutsOk(c, s) && JobsOk(c, s) && MailOk(c, s)
    requires Has(s.co, ref) && TasksOk(c, s)
    requires s'.co.maps == Put(s.co, ref, t).maps && s'.co.reduces == Put(s.co, ref, t).reduces
    requires s'.files == s.files && s'.outs == s.outs && s'.mail == s.mail && OthersSame(s, s', w)
    requires Get(s.co, ref).status.Completed? ==> t.status.Completed?
    requires t.status.Completed? && !Get(s.co, ref).status.Completed? ==> Stored(c, s, ref)
    requires ref.ReduceRef? && Get(s.co, ref).status.NotStarted? && !t.status.NotStarted? ==> MapsDone(s)
    requires w in s'.jobs ==> Grows(s, s') ==> JobOk(c, s', s'.jobs[w])
    ensures FilesOk(c, s') && OutsOk(c, s') && JobsOk(c, s') && MailOk(c, s') && TasksOk(c, s')
  {
    CoKeepsTasks(c, s, s', ref, t);
    hide *;
    JobsGrow(c, s, s', w);
    MailGrows(c, s, s');
    SameFiles(c, s, s');
  }

  lemma SameFiles(c: Config, s: Sys, s': Sys)
    requires c.n > 0 && s'.files == s.files && s'.outs == s.outs && FilesOk(c, s) && OutsOk(c, s)
    ensures FilesOk(c, s') && OutsOk(c, s')
  {
  }

  lemma SelectKeepsData(c: Config, s: Sys, w: nat)
    requires c.n > 0 && DataInv(c, s) && Counted(s.co) && w in s.jobs
    ensures DataInv(c, Selected(s, w))
  {
    var s' := Selected(s, w);
    PickedHas(s.co);
    PickMeaning(s.co);
    if Picked(s.co).Hand? {
      var ref := Picked(s.co).ref;
      CoKeepsData(c, s, s', w, ref, Get(s.co, ref).(status := InProgress));
    } else {
      JobOnly(c, s, s', w);
    }
  }

  lemma DispatchKeepsData(c: Config, s: Sys, p: Pending)
    requires c.n > 0 && DataInv(c, s) && Shaped(c, s.co) && Has(s.co, p.ref) && PendingOk(s, p)
    ensures DataInv(c, Dispatched(s, p))
  {
    var s' := Dispatched(s, p);
    assert TaskOk(c, s, p.ref);
    CoKeepsData(c, s, s', p.worker, p.ref, Get(s.co, p.ref).(worker := p.worker));
  }

  lemma TimeOutKeepsData(c: Config, s: Sys, t: Timer)
    requires c.n > 0 && DataInv(c, s) && Has(s.co, t.ref)
    ensures DataInv(c, TimedOut(s, t))
  {
    var s' := TimedOut(s, t);
    if Get(s.co, t.ref).status.InProgress? {
      CoKeepsData(c, s, s', 0, t.ref, Get(s.co, t.ref).(status := NotStarted, worker := -1));
    } else {
      CoKeepsData(c, s, s', 0, t.ref, Get(s.co, t.ref));
    }
  }

  lemma DeliverKeepsData(c: Config, s: Sys, report: Report)
    requires c.n > 0 && DataInv(c, s) && Has(s.co, report.ref) && report in s.mail
    ensures DataInv(c, s.(co := Finish(s.co, report.ref, report.worker)))
  {
    var s' := s.(co := Finish(s.co, report.ref, report.worker));
    assert Stored(c, s, report.ref);
    if Accepts(s.co, report.ref, report.worker) {
      CoKeepsData(c, s, s', 0, report.ref, Get(s.co, report.ref).(status := Completed));
    }
  }

  // ----- Steps of the workers -----

  /** Only the job of `w` changes. */
  lemma JobOnly(c: Config, s: Sys, s': Sys, w: nat)
    requires c.n > 0 && DataInv(c, s) && OthersSame(s, s', w)
    requires s'.co == s.co && s'.files == s.files && s'.outs == s.outs && s'.mail == s.mail
    requires w in s'.jobs ==> JobOk(c, s', s'.jobs[w])
    ensures DataInv(c, s')
  {
    assert Grows(s, s');
    hide Grows, JobOk, TasksOk, MailOk, FilesOk, OutsOk, OthersSame, JobsOk;
    JobsGrow(c, s, s', w);
    MailGrows(c, s, s');
    TasksGrow(c, s, s');
    SameFiles(c, s, s');
  }

  lemma RenameKeepsData(c: Config, s: Sys, w: nat)
    requires c.n > 0 && DataInv(c, s) && Enabled(c, s, Rename(w))
    ensures DataInv(c, Renamed(c, s, w))
  {
    var s', j := Renamed(c, s, w), s.jobs[w];
    assert JobOk(c, s, j);
    assert Grows(s, s');
    assert FilesOk(c, s') by {
      forall key | key in s'.files ensures FileOk(c, key, s'.files[key]) {
        assert key != Key(j.m, j.k) ==> FileOk(c, key, s.files[key]);
      }
    }
    assert OutsOk(c, s');
    assert JobOk(c, s', s'.jobs[w]);
    hide Grows, JobOk, TasksOk, MailOk, FilesOk, OutsOk, JobsOk, Share;
    JobsGrow(c, s, s', w);
    MailGrows(c, s, s');
    TasksGrow(c, s, s');
  }

  /** When all maps are done, all their files are there. */
  lemma AllFilesThere(c: Config, s: Sys, r: nat, m: nat)
    requires c.n > 0 && FilesOk(c, s) && TasksOk(c, s) && Shaped(c, s.co) && MapsDone(s) && r < c.n
    ensures Key(m, r) in s.files <==> m < |c.inter|
  {
    if m < |c.inter| {
      assert TaskOk(c, s, MapRef(m));
    }
    if Key(m, r) in s.files {
      assert FileOk(c, Key(m, r), s.files[Key(m, r)]);
    }
  }

  /** A reduce task lists the files of all map tasks. */
  lemma GlobIsComplete(c: Config, s: Sys, r: nat, order: seq<nat>)
    requires c.n > 0 && FilesOk(c, s) && TasksOk(c, s) && Shaped(c, s.co) && MapsDone(s) && r < c.n
    requires Globbed(s.files, r, order)
    ensures Lists(order, |c.inter|) && HasInputs(c, s, r)
  {
    hide FilesOk, TasksOk, Shaped, MapsDone;
    forall m: nat ensures m in order <==> m < |c.inter| {
      AllFilesThere(c, s, r, m);
    }
    forall i | 0 <= i < |order| ensures order[i] < |c.inter| {
      assert order[i] in order;
    }
  }

  lemma GlobKeepsData(c: Config, s: Sys, w: nat, order: seq<nat>)
    requires c.n > 0 && DataInv(c, s) && Shaped(c, s.co) && Enabled(c, s, Glob(w, order))
    ensures DataInv(c, Apply(c, s, Glob(w, order)))
  {
    var s', r := Apply(c, s, Glob(w, order)), s.jobs[w].r;
    assert JobOk(c, s, s.jobs[w]);
    GlobIsComplete(c, s, r, order);
    assert ReadOk(c, r, order, []);
    JobOnly(c, s, s', w);
  }

  lemma ReadKeepsOk(c: Config, s: Sys, j: Job)
    requires c.n > 0 && FilesOk(c, s) && j.Reducing? && |j.read| < |j.order| && ReadOk(c, j.r, j.order, j.read)
    requires HasInputs(c, s, j.r)
    ensures ReadOk(c, j.r, j.order, ReadOne(s.files, j).read)
  {
    hide Share, NoDuplicates;
    var key := Key(j.order[|j.read|], j.r);
    assert FileOk(c, key, s.files[key]);
    var all := InOrder(Shares(c.hash, c.n, c.inter, j.r), j.order);
    assert all[|j.read|] == s.files[key];
    assert all[..|j.read| + 1] == all[..|j.read|] + [all[|j.read|]];
  }

  lemma ReadKeepsData(c: Config, s: Sys, w: nat)
    requires c.n > 0 && DataInv(c, s) && Enabled(c, s, Read(w))
    ensures DataInv(c, Apply(c, s, Read(w)))
  {
    hide ReadOk, ReadOne, HasInputs, FilesOk, OutsOk, MailOk, TasksOk;
    var s', j := Apply(c, s, Read(w)), s.jobs[w];
    assert JobOk(c, s, j);
    ReadKeepsOk(c, s, j);
    ReadOneFrame(s.files, j);
    InputsSame(c, s, s', j.r);
    JobOnly(c, s, s', w);
  }

  lemma ReadOneFrame(files: map<Key, seq<KeyValue>>, j: Job)
    requires j.Reducing? && |j.read| < |j.order|
    ensures ReadOne(files, j) == Reducing(j.r, j.order, ReadOne(files, j).read)
  {
  }

  lemma InputsSame(c: Config, s: Sys, s': Sys, r: nat)
    requires s'.files == s.files && HasInputs(c, s, r)
    ensures HasInputs(c, s', r)
  {
  }

  /** What a reduce task writes after reading everything. */
  lemma WriteIsRight(c: Config, r: nat, order: seq<nat>, read: seq<seq<KeyValue>>, lines: seq<Line>)
    requires ValidConfig(c) && r < c.n && ReadOk(c, r, order, read) && |read| == |order|
    requires Summarises(c.reduce, Concat(read), lines)
    ensures OutOk(c, r, lines)
  {
    hide Share, Summarises, OrderInsensitive, Concat;
    assert read == InOrder(Shares(c.hash, c.n, c.inter, r), order);
    ReduceSummarisesShare(c.reduce, c.hash, c.n, c.inter, r, order, lines);
  }

  lemma WriteKeepsData(c: Config, s: Sys, w: nat, lines: seq<Line>)
    requires ValidConfig(c) && DataInv(c, s) && Enabled(c, s, Write(w, lines))
    ensures DataInv(c, Apply(c, s, Write(w, lines)))
  {
    hide ReadOk, HasInputs, Summarises, OrderInsensitive, TaskOk, Stored, OutOk, FileOk;
    var s', j := Apply(c, s, Write(w, lines)), s.jobs[w];
    assert JobOk(c, s, j);
    WriteIsRight(c, j.r, j.order, j.read, lines);
    assert Grows(s, s') && JobOk(c, s', s'.jobs[w]) && FilesOk(c, s') && OutsOk(c, s');
    hide Grows, JobOk, TasksOk, MailOk, FilesOk, OutsOk, JobsOk;
    JobsGrow(c, s, s', w);
    MailGrows(c, s, s');
    TasksGrow(c, s, s');
  }

  lemma TellKeepsData(c: Config, s: Sys, w: nat)
    requires c.n > 0 && DataInv(c, s) && Enabled(c, s, Tell(w))
    ensures DataInv(c, Apply(c, s, Tell(w)))
  {
    hide ReadOk, HasInputs, TaskOk, OutOk, FileOk;
    var s', mid := Apply(c, s, Tell(w)), s.(jobs := s.jobs - {w});
    assert JobOk(c, s, s.jobs[w]);
    JobOnly(c, s, mid, w);
    assert s' == mid.(mail := s'.mail);
    SameButMail(c, mid, s');
  }

  /** Reports are added, each about a task that is stored. */
  lemma SameButMail(c: Config, s: Sys, s': Sys)
    requires c.n > 0 && DataInv(c, s) && s' == s.(mail := s'.mail)
    requires forall report | report in s'.mail :: report in s.mail || Stored(c, s, report.ref)
    ensures DataInv(c, s')
  {
    assert Grows(s, s');
    assert OthersSame(s, s', 0);
    assert MailOk(c, s') by {
      forall report | report in s'.mail ensures Stored(c, s', report.ref) {
        StoredGrows(c, s, s', report.ref);
      }
    }
    hide Grows, JobOk, TasksOk, MailOk, FilesOk, OutsOk;
    assert 0 in s'.jobs ==> JobOk(c, s, s.jobs[0]);
    if 0 in s'.jobs {
      JobGrows(c, s, s', s.jobs[0]);
    }
    JobsGrow(c, s, s', 0);
    TasksGrow(c, s, s');
    SameFiles(c, s, s');
  }

  lemma StepKeepsData(c: Config, s: Sys, e: Step)
    requires ValidConfig(c) && DataInv(c, s) && Shaped(c, s.co) && LeaseInv(s) && Enabled(c, s, e)
    ensures DataInv(c, Apply(c, s, e))
  {
    hide DataInv, Labelled, CountDone, OrderInsensitive, Summarises, Globbed, Finish, Begun, Start, Share;
    match e
    case Ask(w) => AskOrStop(c, s, Apply(c, s, e), w);
    case Stop(w) => AskOrStop(c, s, Apply(c, s, e), w);
    case Select(w) => SelectKeepsData(c, s, w);
    case Dispatch(p) => DispatchKeepsData(c, s, p);
    case TimeOut(t) => TimeOutKeepsData(c, s, t);
    case Deliver(report) => DeliverKeepsData(c, s, report);
    case Rename(w) => RenameKeepsData(c, s, w);
    case Glob(w, order) => GlobKeepsData(c, s, w, order);
    case Read(w) => ReadKeepsData(c, s, w);
    case Write(w, lines) => WriteKeepsData(c, s, w, lines);
    case Tell(w) => TellKeepsData(c, s, w);
  }

  lemma AskOrStop(c: Config, s: Sys, s': Sys, w: nat)
    requires c.n > 0 && DataInv(c, s)
    requires s' == s.(jobs := s.jobs[w := Asking]) || s' == s.(jobs := s.jobs - {w})
    ensures DataInv(c, s')
  {
    hide DataInv;
    JobOnly(c, s, s', w);
  }

  // ----- Whole runs -----

  lemma PutKeepsShape(c: Config, co: State, ref: Ref, t: Task)
    requires Shaped(c, co) && Has(co, ref)
    requires t == Get(co, ref).(status := t.status, worker := t.worker)
    requires t.status.Completed? == Get(co, ref).status.Completed?
    ensures Shaped(c, Put(co, ref, t))
  {
    hide CountDone;
    CountedPut(co, ref, t);
    LabelledPut(co, c.names, ref, t);
  }

  lemma StepKeepsShape(c: Config, s: Sys, e: Step)
    requires Shaped(c, s.co) && Enabled(c, s, e)
    ensures Shaped(c, Apply(c, s, e).co)
  {
    hide Shaped, Summarises, Share, Globbed, Counted;
    match e
    case Select(w) =>
      PickedHas(s.co);
      if Picked(s.co).Hand? {
        var ref := Picked(s.co).ref;
        PutKeepsShape(c, s.co, ref, Get(s.co, ref).(status := InProgress));
      }
    case Dispatch(p) => PutKeepsShape(c, s.co, p.ref, Get(s.co, p.ref).(worker := p.worker));
    case TimeOut(t) =>
      if Get(s.co, t.ref).status.InProgress? {
        PutKeepsShape(c, s.co, t.ref, Get(s.co, t.ref).(status := NotStarted, worker := -1));
      }
    case Deliver(report) => FinishKeepsShape(c, s.co, report.ref, report.worker);
    case _ =>
  }

  lemma FinishKeepsShape(c: Config, co: State, ref: Ref, worker: int)
    requires Shaped(c, co) && Has(co, ref)
    ensures Shaped(c, Finish(co, ref, worker))
  {
    hide CountDone;
    SectionsKeepCounts(co, ref, worker);
    LabelledFinish(co, c.names, ref, worker);
  }

  lemma StepKeepsInv(c: Config, s: Sys, e: Step)
    requires ValidConfig(c) && Inv(c, s) && Enabled(c, s, e)
    ensures Inv(c, Apply(c, s, e))
  {
    hide Shaped, LeaseInv, DataInv, ValidConfig, Enabled, Apply;
    StepKeepsShape(c, s, e);
    StepKeepsLeases(c, s, e);
    StepKeepsData(c, s, e);
  }

  lemma InitInv(c: Config, s: Sys)
    requires ValidConfig(c) && Init(c, s)
    ensures Inv(c, s)
  {
    InitialCounts(c.names, c.n);
    hide CountDone;
    forall ref | Has(s.co, ref) ensures HeldOk(s, ref) && TaskOk(c, s, ref) {
    }
  }

  /** The invariant holds in every state of every run. */
  lemma {:induction false} RunKeepsInv(c: Config, run: seq<Sys>, i: nat)
    requires ValidConfig(c) && IsExecution(c, run) && i < |run|
    ensures Inv(c, run[i])
  {
    hide Inv, ValidConfig, Init, Apply, Enabled;
    if i == 0 {
      InitInv(c, run[0]);
    } else {
      RunKeepsInv(c, run, i - 1);
      assert Next(c, run[i - 1], run[i - 1 + 1]);
      var e :| Enabled(c, run[i - 1], e) && run[i] == Apply(c, run[i - 1], e);
      StepKeepsInv(c, run[i - 1], e);
    }
  }

  /** A sleeping timer can only ever take back the lease it was started for. */
  lemma TimersAreCurrent(c: Config, run: seq<Sys>, i: nat, t: Timer)
    requires ValidConfig(c) && IsExecution(c, run) && i < |run| && t in run[i].timers
    ensures t.ref in run[i].holder && t.lease == run[i].holder[t.ref]
    ensures forall u | u in run[i].timers && u.ref == t.ref :: u == t
    ensures forall p | p in run[i].inflight :: p.ref != t.ref
  {
    RunKeepsInv(c, run, i);
    hide DataInv, Shaped, Init, IsExecution;
    var s := run[i];
    assert TimerOk(s, t);
    forall u | u in s.timers && u.ref == t.ref ensures u == t {
      assert TimerOk(s, u);
    }
    forall p | p in s.inflight ensures p.ref != t.ref {
      assert PendingOk(s, p);
    }
  }

  ghost function TimersOf(s: Sys, ref: Ref): set<Timer> {
    set t | t in s.timers && t.ref == ref
  }

  ghost function DispatchesOf(s: Sys, ref: Ref): set<Pending> {
    set p | p in s.inflight && p.ref == ref
  }

  lemma AtMostOneTimer(s: Sys, ref: Ref)
    requires LeaseInv(s)
    ensures TimersOf(s, ref) == {} || (ref in s.holder && TimersOf(s, ref) == {Timer(ref, s.holder[ref])})
    ensures TimersOf(s, ref) != {} ==> Has(s.co, ref) && !Get(s.co, ref).status.NotStarted?
  {
    forall t | t in TimersOf(s, ref) ensures ref in s.holder && t == Timer(ref, s.holder[ref]) {
      assert TimerOk(s, t);
    }
    if t :| t in TimersOf(s, ref) {
      assert TimerOk(s, t);
    }
  }

  lemma AtMostOneDispatch(s: Sys, ref: Ref)
    requires LeaseInv(s)
    ensures |DispatchesOf(s, ref)| <= 1
    ensures DispatchesOf(s, ref) != {} ==>
              && Has(s.co, ref) && Get(s.co, ref).status.InProgress? && Get(s.co, ref).worker == -1
              && TimersOf(s, ref) == {}
  {
    if p :| p in DispatchesOf(s, ref) {
      assert PendingOk(s, p);
      forall q | q in DispatchesOf(s, ref) ensures q == p {
      }
      assert DispatchesOf(s, ref) == {p};
      AtMostOneTimer(s, ref);
    }
  }

  /**
   The leases in every state of every run. Not started: no worker, no timer, no dispatch under way. In progress:
   one dispatch under way and still no worker, or one timer. Completed: at most one timer.
   */
  lemma LeaseStates(c: Config, run: seq<Sys>, i: nat, ref: Ref)
    requires ValidConfig(c) && IsExecution(c, run) && i < |run| && Has(run[i].co, ref)
    ensures var s := run[i];
            match Get(s.co, ref).status
            case NotStarted => Get(s.co, ref).worker == -1 && TimersOf(s, ref) == {} && DispatchesOf(s, ref) == {}
            case InProgress =>
              || (|DispatchesOf(s, ref)| == 1 && Get(s.co, ref).worker == -1 && TimersOf(s, ref) == {})
              || (DispatchesOf(s, ref) == {} && |TimersOf(s, ref)| == 1)
            case Completed => DispatchesOf(s, ref) == {} && |TimersOf(s, ref)| <= 1
  {
    RunKeepsInv(c, run, i);
    var s := run[i];
    hide DataInv, Shaped, Init, IsExecution, ValidConfig, Has, Get;
    AtMostOneTimer(s, ref);
    AtMostOneDispatch(s, ref);
    assert HeldOk(s, ref);
    if IsPending(s, ref) {
      var p :| p in s.inflight && p.ref == ref;
      assert p in DispatchesOf(s, ref);
    }
    assert HasTimer(s, ref) ==> Timer(ref, s.holder[ref]) in TimersOf(s, ref);
  }

  /** In every run the counters are exact, and no reduce task is touched before all map tasks are completed. */
  lemma CountsAndBarrier(c: Config, run: seq<Sys>, i: nat, r: nat)
    requires ValidConfig(c) && IsExecution(c, run) && i < |run|
    ensures run[i].co.mapsDone == CountDone(run[i].co.maps) && run[i].co.reducesDone == CountDone(run[i].co.reduces)
    ensures r < |run[i].co.reduces| && !run[i].co.reduces[r].status.NotStarted? ==> AllCompleted(run[i].co.maps)
  {
    RunKeepsInv(c, run, i);
    var s := run[i];
    hide Init, IsExecution, ValidConfig, LeaseInv;
    if r < |s.co.reduces| {
      assert TaskOk(c, s, ReduceRef(r));
    }
  }

  /**
   While the job is not done, a task can be handed out, or some task in progress is on its way to a worker or has a
   timer running that will free it.
   */
  lemma NeverStuck(c: Config, run: seq<Sys>, i: nat)
    requires ValidConfig(c) && IsExecution(c, run) && i < |run| && !AllDone(run[i].co)
    ensures Picked(run[i].co).Hand? ||
            exists ref :: Has(run[i].co, ref) && Get(run[i].co, ref).status.InProgress? &&
                          (HasTimer(run[i], ref) || IsPending(run[i], ref))
  {
    RunKeepsInv(c, run, i);
    hide DataInv, Init, IsExecution;
    var s := run[i];
    PickMeaning(s.co);
    DoneIffCompleted(s.co);
    if Picked(s.co).Wait? {
      var ref :| Has(s.co, ref) && Get(s.co, ref).status.InProgress?;
      assert HeldOk(s, ref);
    }
  }

  // ----- What is stored stays -----

  /** What one step leaves alone: finished tasks, intermediate files, outputs. */
  ghost predicate Keeps(s: Sys, s': Sys) {
    && (forall ref | Has(s.co, ref) ::
          Has(s'.co, ref) && (Get(s.co, ref).status.Completed? ==> Get(s'.co, ref).status.Completed?))
    && (forall key | key in s.files :: key in s'.files && s'.files[key] == s.files[key])
    && (forall r | r in s.outs :: r in s'.outs && s'.outs[r] == s.outs[r])
  }

  lemma StepKeepsTasks(c: Config, s: Sys, e: Step, ref: Ref)
    requires Enabled(c, s, e) && Has(s.co, ref)
    ensures Has(Apply(c, s, e).co, ref)
    ensures Get(s.co, ref).status.Completed? ==> Get(Apply(c, s, e).co, ref).status.Completed?
  {
    hide Share, Summarises, Globbed;
    PickedHas(s.co);
  }

  lemma OutputIsDetermined(c: Config, r: nat, x: seq<Line>, y: seq<Line>)
    requires c.n > 0 && OutOk(c, r, x) && OutOk(c, r, y)
    ensures x == y
  {
    hide Share, Summarises;
    SummaryIsUnique(c.reduce, Whole(c, r), x, y);
  }

  lemma ContentsAreDetermined(c: Config, s: Sys, s': Sys)
    requires c.n > 0 && FilesOk(c, s) && FilesOk(c, s') && OutsOk(c, s) && OutsOk(c, s')
    ensures forall key | key in s.files && key in s'.files :: s'.files[key] == s.files[key]
    ensures forall r | r in s.outs && r in s'.outs :: s'.outs[r] == s.outs[r]
  {
    hide OutOk, Share;
    forall key | key in s.files && key in s'.files ensures s'.files[key] == s.files[key] {
      assert FileOk(c, key, s.files[key]) && FileOk(c, key, s'.files[key]);
    }
    forall r | r in s.outs && r in s'.outs ensures s'.outs[r] == s.outs[r] {
      OutputIsDetermined(c, r, s.outs[r], s'.outs[r]);
    }
  }

  /** Files and outputs are rewritten only with what they hold already. */
  lemma StepKeepsStored(c: Config, s: Sys, e: Step)
    requires ValidConfig(c) && Inv(c, s) && Enabled(c, s, e)
    ensures Keeps(s, Apply(c, s, e))
  {
    hide Enabled, Apply, Has, Get, FilesOk, OutsOk, JobsOk, MailOk, TasksOk, Shaped, LeaseInv;
    var s' := Apply(c, s, e);
    StepKeepsInv(c, s, e);
    StepKeepsDomains(c, s, e);
    ContentsAreDetermined(c, s, s');
    forall ref | Has(s.co, ref)
      ensures Has(s'.co, ref) && (Get(s.co, ref).status.Completed? ==> Get(s'.co, ref).status.Completed?)
    {
      StepKeepsTasks(c, s, e, ref);
    }
  }

  lemma StepKeepsDomains(c: Config, s: Sys, e: Step)
    requires Enabled(c, s, e)
    ensures forall key | key in s.files :: key in Apply(c, s, e).files
    ensures forall r | r in s.outs :: r in Apply(c, s, e).outs
  {
    hide Share, Summarises, Globbed;
  }

  lemma KeepsTransitive(a: Sys, b: Sys, d: Sys)
    requires Keeps(a, b) && Keeps(b, d)
    ensures Keeps(a, d)
  {
    hide Get, Has;
  }

  /** In every run, completed tasks stay completed, and files and outputs never change once they are there. */
  lemma {:induction false} StoredIsFinal(c: Config, run: seq<Sys>, i: nat, j: nat)
    requires ValidConfig(c) && IsExecution(c, run) && i <= j < |run|
    ensures Keeps(run[i], run[j])
  {
    hide Inv, Apply, Enabled, Keeps, ValidConfig, Init;
    if i == j {
      KeepsItself(run[i]);
    } else {
      StoredIsFinal(c, run, i, j - 1);
      RunKeepsInv(c, run, j - 1);
      assert Next(c, run[j - 1], run[j - 1 + 1]);
      var e :| Enabled(c, run[j - 1], e) && run[j] == Apply(c, run[j - 1], e);
      StepKeepsStored(c, run[j - 1], e);
      KeepsTransitive(run[i], run[j - 1], run[j]);
    }
  }

  lemma KeepsItself(s: Sys)
    ensures Keeps(s, s)
  {
  }

  // ----- The outcome -----

  /** The output files one after the other. */
  ghost function Outputs(c: Config, s: Sys): seq<seq<Line>>
    requires forall r: nat | r < c.n :: r in s.outs
  {
    seq(c.n, r requires 0 <= r < c.n => s.outs[r])
  }

  /** The coordinator has said that the job is over: `Done` or `CanExit` holds, or an exit task is handed out. */
  ghost predicate SaidDone(co: State) {
    AllDone(co) || Picked(co).Quit?
  }

  lemma SaidDoneMeansDone(co: State)
    requires Counted(co) && SaidDone(co)
    ensures AllCompleted(co.maps) && AllCompleted(co.reduces)
  {
    PickMeaning(co);
    DoneIffCompleted(co);
  }

  lemma DoneMeansStored(c: Config, s: Sys, r: nat)
    requires c.n > 0 && Inv(c, s) && SaidDone(s.co) && r < c.n
    ensures r in s.outs && OutOk(c, r, s.outs[r])
  {
    SaidDoneMeansDone(s.co);
    assert TaskOk(c, s, ReduceRef(r));
  }

  /**
   Whenever the coordinator says that the job is over, every output is there, and all outputs together hold
   exactly the lines of the sequential program on the same inputs.
   */
  lemma DoneMeansSequential(c: Config, run: seq<Sys>, i: nat, sorted: seq<KeyValue>, lines: seq<Line>)
    requires ValidConfig(c) && IsExecution(c, run) && i < |run| && SaidDone(run[i].co)
    requires SortedPairs(Concat(c.inter), sorted) && Summarises(c.reduce, sorted, lines)
    ensures forall r: nat | r < c.n :: r in run[i].outs
    ensures multiset(AllLines(Outputs(c, run[i]))) == multiset(lines)
  {
    RunKeepsInv(c, run, i);
    var s := run[i];
    forall r: nat | r < c.n ensures r in s.outs && OutOk(c, r, s.outs[r]) {
      DoneMeansStored(c, s, r);
    }
    hide Inv, Share, Summarises, OrderInsensitive, Init, SaidDone, SortedPairs, IsExecution;
    PartitionedEqualsSequential(c.reduce, c.hash, c.n, Concat(c.inter), Outputs(c, s), sorted, lines);
  }

  /** What is there when the coordinator says that the job is over is there unchanged for ever after. */
  lemma DoneMeansFinal(c: Config, run: seq<Sys>, i: nat, j: nat)
    requires ValidConfig(c) && IsExecution(c, run) && i <= j < |run| && SaidDone(run[i].co)
    ensures AllDone(run[j].co)
    ensures forall r: nat | r < c.n :: r in run[i].outs && r in run[j].outs && run[j].outs[r] == run[i].outs[r]
  {
    RunKeepsInv(c, run, i);
    RunKeepsInv(c, run, j);
    StoredIsFinal(c, run, i, j);
    forall r: nat | r < c.n ensures r in run[i].outs {
      DoneMeansStored(c, run[i], r);
    }
    AllDoneStays(c, run[i], run[j]);
  }

  lemma AllDoneStays(c: Config, s: Sys, s': Sys)
    requires Shaped(c, s.co) && Shaped(c, s'.co) && SaidDone(s.co) && Keeps(s, s')
    ensures AllDone(s'.co)
  {
    SaidDoneMeansDone(s.co);
    forall i | 0 <= i < |s'.co.maps| ensures s'.co.maps[i].status.Completed? {
      assert Has(s.co, MapRef(i)) && Get(s.co, MapRef(i)).status.Completed?;
    }
    forall i | 0 <= i < |s'.co.reduces| ensures s'.co.reduces[i].status.Completed? {
      assert Has(s.co, ReduceRef(i)) && Get(s.co, ReduceRef(i)).status.Completed?;
    }
    DoneIffCompleted(s'.co);
  }
}
