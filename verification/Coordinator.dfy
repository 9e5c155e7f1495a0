/**
 The MapReduce coordinator (Lab3/src/mr/coordinator.go): its task tables, the locked sections of its handlers as
 functions on the tables, and the object whose methods carry them out in place.
 */
module Coordinator {
  datatype TaskType = MapTask | ReduceTask | NoTask | ExitTask
  datatype TaskStatus = NotStarted | InProgress | Completed
  datatype Task = Task(kind: TaskType, status: TaskStatus, index: int, file: string, worker: int)

  /** The Go code passes pointers into its task tables around; here such a pointer is the table and the position. */
  datatype Ref = MapRef(i: nat) | ReduceRef(i: nat)

  datatype State = State(maps: seq<Task>, reduces: seq<Task>, mapsDone: nat, reducesDone: nat)

  predicate Has(s: State, ref: Ref) {
    match ref
    case MapRef(i) => i < |s.maps|
    case ReduceRef(i) => i < |s.reduces|
  }

  function Get(s: State, ref: Ref): Task
    requires Has(s, ref)
  {
    match ref
    case MapRef(i) => s.maps[i]
    case ReduceRef(i) => s.reduces[i]
  }

  function Put(s: State, ref: Ref, t: Task): State
    requires Has(s, ref)
  {
    match ref
    case MapRef(i) => s.(maps := s.maps[i := t])
    case ReduceRef(i) => s.(reduces := s.reduces[i := t])
  }

  lemma PutGet(s: State, ref: Ref, t: Task, q: Ref)
    requires Has(s, ref)
    ensures Has(Put(s, ref, t), q) <==> Has(s, q)
    ensures Has(s, q) ==> Get(Put(s, ref, t), q) == if q == ref then t else Get(s, q)
  {
  }

  // ----- The locked sections -----

  /** The position of the first task that has not started, or the length. */
  function Idle(ts: seq<Task>): (i: nat)
    ensures i <= |ts|
    ensures i < |ts| ==> ts[i].status.NotStarted?
    ensures forall j | 0 <= j < i :: !ts[j].status.NotStarted?
  {
    if ts == [] then 0
    else
      var i := Idle(ts[..|ts| - 1]);
      if i < |ts| - 1 || ts[|ts| - 1].status.NotStarted? then i else |ts|
  }

  /** What `selectTask` hands out: a task, the word to wait, or the word to exit. */
  datatype Pick = Hand(ref: Ref) | Wait | Quit

  function Picked(s: State): Pick {
    if Idle(s.maps) < |s.maps| then Hand(MapRef(Idle(s.maps)))
    else if s.mapsDone != |s.maps| then Wait
    else if Idle(s.reduces) < |s.reduces| then Hand(ReduceRef(Idle(s.reduces)))
    else if s.reducesDone != |s.reduces| then Wait
    else Quit
  }

  lemma PickedHas(s: State)
    ensures Picked(s).Hand? ==> Has(s, Picked(s).ref) && Get(s, Picked(s).ref).status.NotStarted?
  {
  }

  function Start(s: State): State {
    match Picked(s)
    case Hand(ref) => PickedHas(s); Put(s, ref, Get(s, ref).(status := InProgress))
    case _ => s
  }

  function Assign(s: State, ref: Ref, worker: int): State
    requires Has(s, ref)
  {
    Put(s, ref, Get(s, ref).(worker := worker))
  }

  /** Does a report by `worker` count? */
  predicate Accepts(s: State, ref: Ref, worker: int)
    requires Has(s, ref)
  {
    Get(s, ref).status.InProgress? && Get(s, ref).worker == worker
  }

  function Finish(s: State, ref: Ref, worker: int): State
    requires Has(s, ref)
  {
    if !Accepts(s, ref, worker) then s
    else
      var s' := Put(s, ref, Get(s, ref).(status := Completed));
      if ref.MapRef? then s'.(mapsDone := s.mapsDone + 1) else s'.(reducesDone := s.reducesDone + 1)
  }

  function Expire(s: State, ref: Ref): State
    requires Has(s, ref)
  {
    if Get(s, ref).status.InProgress? then Put(s, ref, Get(s, ref).(status := NotStarted, worker := -1)) else s
  }

  predicate AllDone(s: State) {
    s.mapsDone == |s.maps| && s.reducesDone == |s.reduces|
  }

  // ----- The counters -----

  function CountDone(ts: seq<Task>): nat {
    if ts == [] then 0
    else CountDone(ts[..|ts| - 1]) + if ts[|ts| - 1].status.Completed? then 1 else 0
  }

  /** The counters say how many tasks are completed. */
  predicate Counted(s: State) {
    s.mapsDone == CountDone(s.maps) && s.reducesDone == CountDone(s.reduces)
  }

  predicate AllCompleted(ts: seq<Task>) {
    forall i | 0 <= i < |ts| :: ts[i].status.Completed?
  }

  lemma {:induction false} CountIsFull(ts: seq<Task>)
    ensures CountDone(ts) <= |ts|
    ensures CountDone(ts) == |ts| <==> AllCompleted(ts)
  {
    if ts != [] {
      var n := |ts| - 1;
      CountIsFull(ts[..n]);
      assert ts == ts[..n] + [ts[n]];
      if AllCompleted(ts) {
        assert ts[n].status.Completed?;
        forall i | 0 <= i < n ensures ts[..n][i].status.Completed? {
          assert ts[i].status.Completed?;
        }
      }
    }
  }

  lemma {:induction false} CountPut(ts: seq<Task>, i: nat, t: Task)
    requires i < |ts|
    ensures CountDone(ts[i := t]) ==
            CountDone(ts) + (if t.status.Completed? then 1 else 0) - (if ts[i].status.Completed? then 1 else 0)
  {
    var n := |ts| - 1;
    if i == n {
      assert ts[i := t][..n] == ts[..n];
    } else {
      assert ts[i := t][..n] == ts[..n][i := t];
      CountPut(ts[..n], i, t);
    }
  }

  lemma CountedPut(s: State, ref: Ref, t: Task)
    requires Has(s, ref) && Counted(s) && t.status.Completed? == Get(s, ref).status.Completed?
    ensures Counted(Put(s, ref, t))
  {
    match ref
    case MapRef(i) => CountPut(s.maps, i, t);
    case ReduceRef(i) => CountPut(s.reduces, i, t);
  }

  /** Every locked section keeps the counters right. */
  lemma SectionsKeepCounts(s: State, ref: Ref, worker: int)
    requires Counted(s) && Has(s, ref)
    ensures Counted(Start(s)) && Counted(Assign(s, ref, worker)) && Counted(Expire(s, ref))
    ensures Counted(Finish(s, ref, worker))
  {
    StartKeepsCounts(s);
    CountedPut(s, ref, Get(s, ref).(worker := worker));
    if Get(s, ref).status.InProgress? {
      CountedPut(s, ref, Get(s, ref).(status := NotStarted, worker := -1));
    }
    if Accepts(s, ref, worker) {
      match ref
      case MapRef(i) => CountPut(s.maps, i, s.maps[i].(status := Completed));
      case ReduceRef(i) => CountPut(s.reduces, i, s.reduces[i].(status := Completed));
    }
  }

  lemma StartKeepsCounts(s: State)
    requires Counted(s)
    ensures Counted(Start(s))
  {
    PickedHas(s);
    match Picked(s)
    case Hand(ref) => CountedPut(s, ref, Get(s, ref).(status := InProgress));
    case _ =>
  }

  /** The counters decide exactly when the whole job is done. */
  lemma DoneIffCompleted(s: State)
    requires Counted(s)
    ensures AllDone(s) <==> AllCompleted(s.maps) && AllCompleted(s.reduces)
  {
    CountIsFull(s.maps);
    CountIsFull(s.reduces);
  }

  /** Some task of the table has not started. */
  ghost predicate SomeIdle(ts: seq<Task>) {
    exists i | 0 <= i < |ts| :: ts[i].status.NotStarted?
  }

  /** Task `i` is the first of the table that has not started. */
  ghost predicate FirstIdle(ts: seq<Task>, i: nat) {
    i < |ts| && ts[i].status.NotStarted? && forall j | 0 <= j < i :: !ts[j].status.NotStarted?
  }

  /** A map task that has not started goes first, then, after all maps, a reduce task; each time the first such. */
  lemma PickIsFirstIdle(s: State)
    requires Counted(s)
    ensures SomeIdle(s.maps) ==> Picked(s).Hand? && Picked(s).ref.MapRef? && FirstIdle(s.maps, Picked(s).ref.i)
    ensures !SomeIdle(s.maps) && AllCompleted(s.maps) && SomeIdle(s.reduces) ==>
              Picked(s).Hand? && Picked(s).ref.ReduceRef? && FirstIdle(s.reduces, Picked(s).ref.i)
    ensures Picked(s).Hand? ==> SomeIdle(s.maps) || (AllCompleted(s.maps) && SomeIdle(s.reduces))
  {
    CountIsFull(s.maps);
  }

  /**
   Maps go first; a reduce task is handed out only when every map task is completed; the word to exit is given
   exactly when everything is completed; the word to wait only while some task is in progress.
   */
  lemma PickMeaning(s: State)
    requires Counted(s)
    ensures Picked(s).Hand? && Picked(s).ref.ReduceRef? ==> AllCompleted(s.maps)
    ensures Picked(s).Quit? <==> AllCompleted(s.maps) && AllCompleted(s.reduces)
    ensures Picked(s).Wait? ==> exists ref :: Has(s, ref) && Get(s, ref).status.InProgress?
  {
    CountIsFull(s.maps);
    CountIsFull(s.reduces);
    if Picked(s).Wait? {
      if s.mapsDone != |s.maps| {
        var i :| 0 <= i < |s.maps| && !s.maps[i].status.Completed?;
        assert Has(s, MapRef(i)) && Get(s, MapRef(i)).status.InProgress?;
      } else {
        var i :| 0 <= i < |s.reduces| && !s.reduces[i].status.Completed?;
        assert Has(s, ReduceRef(i)) && Get(s, ReduceRef(i)).status.InProgress?;
      }
    }
  }

  // ----- The object -----

  /** Every task carries its own type and position, and a map task its file. */
  predicate Labelled(s: State, files: seq<string>) {
    && |s.maps| == |files|
    && (forall i | 0 <= i < |s.maps| :: s.maps[i].kind == MapTask && s.maps[i].index == i && s.maps[i].file == files[i])
    && (forall i | 0 <= i < |s.reduces| ::
          s.reduces[i].kind == ReduceTask && s.reduces[i].index == i && s.reduces[i].file == "")
  }

  lemma LabelledPut(s: State, files: seq<string>, ref: Ref, t: Task)
    requires Labelled(s, files) && Has(s, ref)
    requires t.kind == Get(s, ref).kind && t.index == Get(s, ref).index && t.file == Get(s, ref).file
    ensures Labelled(Put(s, ref, t), files)
    ensures Get(s, ref).index == ref.i && Get(s, ref).kind == if ref.MapRef? then MapTask else ReduceTask
    ensures Get(s, ref).file == if ref.MapRef? then files[ref.i] else ""
  {
  }

  lemma LabelledFinish(s: State, files: seq<string>, ref: Ref, worker: int)
    requires Labelled(s, files) && Has(s, ref)
    ensures Labelled(Finish(s, ref, worker), files)
  {
  }

  /** Nothing has started. */
  function Initial(files: seq<string>, nReduce: nat): State {
    State(
      seq(|files|, i requires 0 <= i < |files| => Task(MapTask, NotStarted, i, files[i], -1)),
      seq(nReduce, i => Task(ReduceTask, NotStarted, i, "", -1)),
      0, 0)
  }

  datatype Reply = Reply(kind: TaskType, id: int, file: string)

  class Coordinator {
    const files: seq<string>
    const nMap: nat
    const nReduce: nat
    var nMapCompleted: nat
    var nReduceCompleted: nat
    const mapTasks: array<Task>
    const reduceTasks: array<Task>

    ghost function View(): State
      reads this, mapTasks, reduceTasks
    {
      State(mapTasks[..], reduceTasks[..], nMapCompleted, nReduceCompleted)
    }

    ghost predicate Valid()
      reads this, mapTasks, reduceTasks
    {
      && mapTasks != reduceTasks
      && mapTasks.Length == nMap && reduceTasks.Length == nReduce
      && Labelled(View(), files)
      && Counted(View())
    }

    constructor (files: seq<string>, nReduce: nat)
      ensures Valid() && fresh(mapTasks) && fresh(reduceTasks)
      ensures this.files == files && this.nReduce == nReduce && View() == Initial(files, nReduce)
    {
      this.files, this.nMap, this.nReduce := files, |files|, nReduce;
      nMapCompleted, nReduceCompleted := 0, 0;
      var maps := new Task[|files|];
      var reduces := new Task[nReduce];
      for i := 0 to |files|
        invariant forall j | 0 <= j < i :: maps[j] == Task(MapTask, NotStarted, j, files[j], -1)
      {
        maps[i] := Task(MapTask, NotStarted, i, files[i], -1);
      }
      for i := 0 to nReduce
        invariant forall j | 0 <= j < |files| :: maps[j] == Task(MapTask, NotStarted, j, files[j], -1)
        invariant forall j | 0 <= j < i :: reduces[j] == Task(ReduceTask, NotStarted, j, "", -1)
      {
        reduces[i] := Task(ReduceTask, NotStarted, i, "", -1);
      }
      mapTasks, reduceTasks := maps, reduces;
      new;
      assert View() == Initial(files, nReduce);
      InitialCounts(files, nReduce);
    }

    /** Writing through a task pointer. */
    method Store(ref: Ref, t: Task)
      requires mapTasks != reduceTasks && Has(View(), ref)
      modifies mapTasks, reduceTasks
      ensures View() == Put(old(View()), ref, t)
    {
      ghost var s := View();
      match ref
      case MapRef(i) =>
        mapTasks[i] := t;
        assert mapTasks[..] == s.maps[i := t];
      case ReduceRef(i) =>
        reduceTasks[i] := t;
        assert reduceTasks[..] == s.reduces[i := t];
    }

    /** Reading through a task pointer. */
    method Load(ref: Ref) returns (t: Task)
      requires Has(View(), ref)
      ensures t == Get(View(), ref)
    {
      match ref
      case MapRef(i) => t := mapTasks[i];
      case ReduceRef(i) => t := reduceTasks[i];
    }

    method SelectTask() returns (pick: Pick)
      requires Valid()
      modifies mapTasks, reduceTasks
      ensures Valid()
      ensures pick == Picked(old(View())) && View() == Start(old(View()))
    {
      hide CountDone, Counted;
      ghost var s := View();
      StartKeepsCounts(s);
      for i := 0 to nMap
        invariant View() == s
        invariant forall j | 0 <= j < i :: !mapTasks[j].status.NotStarted?
      {
        if mapTasks[i].status.NotStarted? {
          IdleIs(s.maps, i);
          LabelledPut(s, files, MapRef(i), s.maps[i].(status := InProgress));
          Store(MapRef(i), mapTasks[i].(status := InProgress, index := i));
          return Hand(MapRef(i));
        }
      }
      IdleIs(s.maps, nMap);
      if nMapCompleted != nMap {
        return Wait;
      }
      for i := 0 to nReduce
        invariant View() == s
        invariant forall j | 0 <= j < i :: !reduceTasks[j].status.NotStarted?
      {
        if reduceTasks[i].status.NotStarted? {
          IdleIs(s.reduces, i);
          LabelledPut(s, files, ReduceRef(i), s.reduces[i].(status := InProgress));
          Store(ReduceRef(i), reduceTasks[i].(status := InProgress, index := i));
          return Hand(ReduceRef(i));
        }
      }
      IdleIs(s.reduces, nReduce);
      return if nReduceCompleted != nReduce then Wait else Quit;
    }

    /** The second locked section of `RequestTask`: note the worker and answer it. The caller starts the timer. */
    method AssignTask(pick: Pick, worker: int) returns (reply: Reply)
      requires Valid() && (pick.Hand? ==> Has(View(), pick.ref))
      modifies mapTasks, reduceTasks
      ensures Valid()
      ensures View() == if pick.Hand? then Assign(old(View()), pick.ref, worker) else old(View())
      ensures pick.Hand? && pick.ref.MapRef? ==> reply == Reply(MapTask, pick.ref.i, files[pick.ref.i])
      ensures pick.Hand? && pick.ref.ReduceRef? ==> reply == Reply(ReduceTask, pick.ref.i, "")
      ensures !pick.Hand? ==> reply == Reply(if pick.Wait? then NoTask else ExitTask, -1, "")
    {
      hide CountDone, Counted;
      ghost var s := View();
      match pick
      case Hand(ref) =>
        SectionsKeepCounts(s, ref, worker);
        LabelledPut(s, files, ref, Get(s, ref).(worker := worker));
        var task := Load(ref);
        Store(ref, task.(worker := worker));
        reply := Reply(task.kind, task.index, task.file);
      case Wait => reply := Reply(NoTask, -1, "");
      case Quit => reply := Reply(ExitTask, -1, "");
    }

    /** A report of another type than map or reduce is answered with `false` and changes nothing. */
    method CompleteTask(kind: TaskType, id: nat, worker: int) returns (canExit: bool)
      requires Valid()
      requires kind.MapTask? ==> id < nMap
      requires kind.ReduceTask? ==> id < nReduce
      modifies this, mapTasks, reduceTasks
      ensures Valid()
      ensures kind.MapTask? ==> View() == Finish(old(View()), MapRef(id), worker)
      ensures kind.ReduceTask? ==> View() == Finish(old(View()), ReduceRef(id), worker)
      ensures !kind.MapTask? && !kind.ReduceTask? ==> View() == old(View())
      ensures kind.MapTask? ==>
                && reduceTasks[..] == old(reduceTasks[..]) && nReduceCompleted == old(nReduceCompleted)
                && if old(mapTasks[id]).status.InProgress? && old(mapTasks[id]).worker == worker
                   then && mapTasks[..] == old(mapTasks[..])[id := old(mapTasks[id]).(status := Completed)]
                        && nMapCompleted == old(nMapCompleted) + 1
                   else mapTasks[..] == old(mapTasks[..]) && nMapCompleted == old(nMapCompleted)
      ensures kind.ReduceTask? ==>
                && mapTasks[..] == old(mapTasks[..]) && nMapCompleted == old(nMapCompleted)
                && if old(reduceTasks[id]).status.InProgress? && old(reduceTasks[id]).worker == worker
                   then && reduceTasks[..] == old(reduceTasks[..])[id := old(reduceTasks[id]).(status := Completed)]
                        && nReduceCompleted == old(nReduceCompleted) + 1
                   else reduceTasks[..] == old(reduceTasks[..]) && nReduceCompleted == old(nReduceCompleted)
      ensures canExit <==>
              (kind.MapTask? || kind.ReduceTask?) && AllCompleted(mapTasks[..]) && AllCompleted(reduceTasks[..])
    {
      hide CountDone, Counted, Labelled, AllCompleted;
      if !kind.MapTask? && !kind.ReduceTask? {
        return false;
      }
      ghost var s := View();
      var ref := if kind.MapTask? then MapRef(id) else ReduceRef(id);
      SectionsKeepCounts(s, ref, worker);
      LabelledFinish(s, files, ref, worker);
      var task := Load(ref);
      if task.status.InProgress? && task.worker == worker {
        Store(ref, task.(status := Completed));
        if kind.MapTask? {
          nMapCompleted := nMapCompleted + 1;
        } else {
          nReduceCompleted := nReduceCompleted + 1;
        }
      }
      DoneIffCompleted(View());
      canExit := nMapCompleted == nMap && nReduceCompleted == nReduce;
    }

    /** What `waitForTask` does when its time is up. */
    method TimeOut(ref: Ref)
      requires Valid() && Has(View(), ref)
      modifies mapTasks, reduceTasks
      ensures Valid() && View() == Expire(old(View()), ref)
    {
      hide CountDone, Counted, Labelled;
      ghost var s := View();
      SectionsKeepCounts(s, ref, 0);
      LabelledPut(s, files, ref, Get(s, ref).(status := NotStarted, worker := -1));
      var task := Load(ref);
      if task.status.InProgress? {
        Store(ref, task.(status := NotStarted, worker := -1));
      }
    }

    method Done() returns (done: bool)
      requires Valid()
      ensures done <==> AllCompleted(mapTasks[..]) && AllCompleted(reduceTasks[..])
    {
      DoneIffCompleted(View());
      done := nMap == nMapCompleted && nReduce == nReduceCompleted;
    }
  }

  lemma IdleIs(ts: seq<Task>, i: nat)
    requires i <= |ts| && (i < |ts| ==> ts[i].status.NotStarted?)
    requires forall j | 0 <= j < i :: !ts[j].status.NotStarted?
    ensures Idle(ts) == i
  {
    assert Idle(ts) < |ts| ==> ts[Idle(ts)].status.NotStarted?;
  }

  lemma InitialCounts(files: seq<string>, nReduce: nat)
    ensures Counted(Initial(files, nReduce))
  {
    NoneDone(Initial(files, nReduce).maps);
    NoneDone(Initial(files, nReduce).reduces);
  }

  lemma {:induction false} NoneDone(ts: seq<Task>)
    requires forall i | 0 <= i < |ts| :: !ts[i].status.Completed?
    ensures CountDone(ts) == 0
  {
    if ts != [] {
      NoneDone(ts[..|ts| - 1]);
    }
  }
}
