// The background task scheduler as a state machine: worker threads that take plain tasks and
// task groups from two queues under one mutex. A step is what happens between taking the
// mutex and giving it up again, or one atomic update of a reference count.
module TaskModel {

  const MAX_TASK_THREADS: nat := 16
  const MAX_IDLE_TASK_THREADS: nat := 2

  type Task = nat
  type Gid = nat
  type Wid = nat

  // A task group in memory: its reference count and its tasks, a running one still in front.
  datatype Group = Group(refs: int, tasks: seq<Task>)

  // Where the worker threads are: waiting, signalled but not yet awake, created but not yet
  // running, running a plain task, running the first task of a group.
  datatype Workers = Workers(
    idle: set<Wid>,
    signalled: set<Wid>,
    starting: set<Wid>,
    plain: map<Wid, Task>,
    running: map<Wid, Gid>,
    next: Wid)

  // What happened so far: tasks handed in and begun, tasks of each group handed in and done,
  // groups entering and leaving the queue of groups.
  datatype Log = Log(
    submitted: seq<Task>,
    started: seq<Task>,
    gsubmitted: map<Gid, seq<Task>>,
    gdone: map<Gid, seq<Task>>,
    arrived: seq<Gid>,
    dispatched: seq<Gid>)

  // The two queues, the live groups and the two counters of the program; then the handles that
  // callers hold and the submissions that have taken a reference to a group but not yet
  // entered the mutex.
  datatype State = State(
    tasks: seq<Task>,
    groups: seq<Gid>,
    live: map<Gid, Group>,
    num: int,
    avail: int,
    handles: set<Gid>,
    promised: multiset<Gid>,
    nextGid: Gid,
    ws: Workers,
    log: Log)

  function Init(): State {
    State([], [], map[], 0, 0, {}, multiset{}, 0,
          Workers({}, {}, {}, map[], map[], 0), Log([], [], map[], map[], [], []))
  }

  // ----- The program's critical sections -----

  // task_schedule: wake a waiting worker, or create one if none waits and there is room.
  // `w` is the waiter that the signal reaches, if there is one.
  function Schedule(s: State, w: Wid): State {
    if s.avail > 0 then s.(ws := Signal(s.ws, w))
    else if s.num < MAX_TASK_THREADS then
      s.(num := s.num + 1, ws := s.ws.(starting := s.ws.starting + {s.ws.next}, next := s.ws.next + 1))
    else s
  }

  function Signal(ws: Workers, w: Wid): Workers {
    if w in ws.idle then ws.(idle := ws.idle - {w}, signalled := ws.signalled + {w}) else ws
  }

  // Take the first group off its queue and run its first task.
  function RunGroup(s: State, w: Wid): State
    requires s.groups != []
  {
    var g := s.groups[0];
    s.(groups := s.groups[1..],
       ws := s.ws.(running := s.ws.running[w := g]),
       log := s.log.(dispatched := s.log.dispatched + [g]))
  }

  // Take the first plain task and run it.
  function RunPlain(s: State, w: Wid): State
    requires s.tasks != []
  {
    var t := s.tasks[0];
    s.(tasks := s.tasks[1..],
       ws := s.ws.(plain := s.ws.plain[w := t]),
       log := s.log.(started := s.log.started + [t]))
  }

  // Nothing to do: wait, or exit if enough others wait.
  function Rest(s: State, w: Wid): State {
    if s.avail == MAX_IDLE_TASK_THREADS then s.(num := s.num - 1)
    else s.(avail := s.avail + 1, ws := s.ws.(idle := s.ws.idle + {w}))
  }

  // The top of the worker's loop.
  function Dispatch(s: State, w: Wid): State {
    if s.tasks == [] && s.groups == [] then Rest(s, w)
    else if s.tasks != [] then RunPlain(s, w)
    else RunGroup(s, w)
  }

  // A reference is dropped; the last one frees the group.
  function Release(s: State, g: Gid): State
    requires g in s.live
  {
    var refs := s.live[g].refs - 1;
    if refs == 0 then s.(live := s.live - {g}) else s.(live := s.live[g := s.live[g].(refs := refs)])
  }

  function Begin(s: State, w: Wid): State {
    Dispatch(s.(ws := s.ws.(starting := s.ws.starting - {w})), w)
  }

  function Wake(s: State, w: Wid): State {
    Dispatch(s.(avail := s.avail - 1, ws := s.ws.(signalled := s.ws.signalled - {w})), w)
  }

  function PlainDone(s: State, w: Wid): State {
    var s1 := s.(ws := s.ws.(plain := s.ws.plain - {w}));
    if s1.groups != [] then RunGroup(s1, w) else Dispatch(s1, w)
  }

  // Worker w runs a task of a group that has not been freed.
  predicate RunsLive(s: State, w: Wid) {
    && w in s.ws.running
    && var g := s.ws.running[w]; g in s.live && s.live[g].tasks != [] && g in s.log.gdone
  }

  // The finished task leaves its group, which queues up again if it has more.
  function Unlink(s: State, w: Wid): State
    requires RunsLive(s, w)
  {
    var g := s.ws.running[w];
    var t := s.live[g].tasks[0];
    var rest := s.live[g].tasks[1..];
    var again := if rest != [] then [g] else [];
    s.(ws := s.ws.(running := s.ws.running - {w}),
       live := s.live[g := s.live[g].(tasks := rest)],
       groups := s.groups + again,
       log := s.log.(gdone := s.log.gdone[g := s.log.gdone[g] + [t]], arrived := s.log.arrived + again))
  }

  function GroupDone(s: State, w: Wid): State
    requires RunsLive(s, w)
  {
    Dispatch(Release(Unlink(s, w), s.ws.running[w]), w)
  }

  function Submit(s: State, t: Task, w: Wid): State {
    Schedule(s.(tasks := s.tasks + [t], log := s.log.(submitted := s.log.submitted + [t])), w)
  }

  function Create(s: State): State {
    var g := s.nextGid;
    s.(live := s.live[g := Group(1, [])], handles := s.handles + {g}, nextGid := g + 1,
       log := s.log.(gsubmitted := s.log.gsubmitted[g := []], gdone := s.log.gdone[g := []]))
  }

  function Destroy(s: State, g: Gid): State
    requires g in s.live
  {
    Release(s.(handles := s.handles - {g}), g)
  }

  function Promise(s: State, g: Gid): State
    requires g in s.live
  {
    s.(live := s.live[g := s.live[g].(refs := s.live[g].refs + 1)], promised := s.promised + multiset{g})
  }

  function Enqueue(s: State, t: Task, g: Gid): State
    requires g in s.live && g in s.log.gsubmitted
  {
    var was := s.live[g].tasks;
    var arrives := if was == [] then [g] else [];
    s.(promised := s.promised - multiset{g},
       groups := s.groups + arrives,
       live := s.live[g := s.live[g].(tasks := was + [t])],
       log := s.log.(arrived := s.log.arrived + arrives, gsubmitted := s.log.gsubmitted[g := s.log.gsubmitted[g] + [t]]))
  }

  function SubmitGroup(s: State, t: Task, g: Gid, w: Wid): State
    requires g in s.live && g in s.log.gsubmitted
  {
    Schedule(Enqueue(s, t, g), w)
  }

  function Spurious(s: State, w: Wid): State {
    s.(ws := Signal(s.ws, w))
  }

  // ----- Steps -----

  datatype Event =
    | EBegin(w: Wid) | EWake(w: Wid) | EPlainDone(w: Wid) | EGroupDone(w: Wid)
    | ESubmit(t: Task, w: Wid) | ECreate | EDestroy(g: Gid) | EPromise(g: Gid) | ESubmitGroup(t: Task, g: Gid, w: Wid)
    | ESpurious(w: Wid)

  // A signal reaches a waiter if there is one.
  predicate Reaches(s: State, w: Wid) {
    s.ws.idle != {} ==> w in s.ws.idle
  }

  // Some worker runs a task of the group.
  predicate RunBy(running: map<Wid, Gid>, g: Gid) {
    exists w :: w in running && running[w] == g
  }

  // When an event can happen: what its thread has done before, and for the public functions
  // what they ask of their callers. Whoever hands a task to a group has its handle, or is one
  // of its tasks.
  predicate Enabled(s: State, e: Event) {
    match e
    case EBegin(w) => w in s.ws.starting
    case EWake(w) => w in s.ws.signalled
    case EPlainDone(w) => w in s.ws.plain
    case EGroupDone(w) => w in s.ws.running
    case ESubmit(t, w) => Reaches(s, w)
    case ECreate => true
    case EDestroy(g) => g in s.handles
    case EPromise(g) => g in s.handles || RunBy(s.ws.running, g)
    case ESubmitGroup(t, g, w) => g in s.promised && Reaches(s, w)
    case ESpurious(w) => w in s.ws.idle
  }

  // The step touches only groups that have not been freed.
  predicate Safe(s: State, e: Event) {
    match e
    case EGroupDone(w) => RunsLive(s, w)
    case EDestroy(g) => g in s.live
    case EPromise(g) => g in s.live
    case ESubmitGroup(t, g, w) => g in s.live && g in s.log.gsubmitted
    case _ => true
  }

  function Step(s: State, e: Event): State
    requires Safe(s, e)
  {
    match e
    case EBegin(w) => Begin(s, w)
    case EWake(w) => Wake(s, w)
    case EPlainDone(w) => PlainDone(s, w)
    case EGroupDone(w) => GroupDone(s, w)
    case ESubmit(t, w) => Submit(s, t, w)
    case ECreate => Create(s)
    case EDestroy(g) => Destroy(s, g)
    case EPromise(g) => Promise(s, g)
    case ESubmitGroup(t, g, w) => SubmitGroup(s, t, g, w)
    case ESpurious(w) => Spurious(s, w)
  }

  // ----- Invariants -----

  function One(b: bool): nat {
    if b then 1 else 0
  }

  // In how many places worker w is.
  ghost function Places(ws: Workers, w: Wid): nat {
    One(w in ws.idle) + One(w in ws.signalled) + One(w in ws.starting) + One(w in ws.plain) + One(w in ws.running)
  }

  // Every worker is in at most one place; the next worker is new.
  ghost predicate Placed(ws: Workers) {
    forall w: Wid :: Places(ws, w) <= One(w < ws.next)
  }

  // Worker w, and no other, is in one more place than before.
  ghost predicate Joins(before: Workers, after: Workers, w: Wid) {
    && after.next == before.next
    && forall v: Wid :: Places(after, v) == Places(before, v) + One(v == w)
  }

  // Workers that will look at the queues before they wait or exit.
  function Busy(ws: Workers): nat {
    |ws.signalled| + |ws.starting| + |ws.plain| + |ws.running|
  }

  // The program's counters are right, and bounded; `extra` workers are in none of the places.
  ghost predicate Counted(s: State, extra: nat) {
    && s.avail == |s.ws.idle| + |s.ws.signalled| <= MAX_IDLE_TASK_THREADS
    && s.num == |s.ws.idle| + Busy(s.ws) + extra <= MAX_TASK_THREADS
  }

  // Queued work finds a worker that will look at the queues.
  ghost predicate Awake(s: State) {
    s.tasks != [] || s.groups != [] ==> Busy(s.ws) > 0
  }

  ghost predicate NoDuplicates(q: seq<Gid>) {
    forall i, j :: 0 <= i < j < |q| ==> q[i] != q[j]
  }

  function Unfinished(live: map<Gid, Group>, g: Gid): seq<Task> {
    if g in live then live[g].tasks else []
  }

  // A group is queued exactly when it has tasks and nobody runs it; nobody shares a group.
  ghost predicate Serialised(groups: seq<Gid>, live: map<Gid, Group>, running: map<Wid, Gid>) {
    && NoDuplicates(groups)
    && (forall g :: g in groups ==> Unfinished(live, g) != [] && !RunBy(running, g))
    && (forall g :: RunBy(running, g) ==> Unfinished(live, g) != [])
    && (forall v, w :: v in running && w in running && running[v] == running[w] ==> v == w)
    && (forall g :: Unfinished(live, g) != [] ==> g in groups || RunBy(running, g))
  }

  // The count is the caller's handle, the submissions on their way and the unfinished tasks.
  ghost predicate Referenced(live: map<Gid, Group>, handles: set<Gid>, promised: multiset<Gid>) {
    && (forall g :: g in handles ==> g in live)
    && (forall g :: g in promised ==> g in live)
    && (forall g :: g in live ==>
          live[g].refs == (if g in handles then 1 else 0) + promised[g] + |live[g].tasks| > 0)
  }

  // Tasks and groups leave the queues in the order they came.
  ghost predicate QueuesOrdered(s: State) {
    s.log.submitted == s.log.started + s.tasks && s.log.arrived == s.log.dispatched + s.groups
  }

  // Tasks of a group are done in the order they came, and none is lost or repeated.
  ghost predicate GroupsOrdered(live: map<Gid, Group>, gsubmitted: map<Gid, seq<Task>>, gdone: map<Gid, seq<Task>>, next: Gid) {
    && live.Keys <= gsubmitted.Keys == gdone.Keys
    && (forall g :: g in gsubmitted ==> g < next)
    && (forall g :: g in gsubmitted ==> gsubmitted[g] == gdone[g] + Unfinished(live, g))
  }

  // The invariant while `extra` workers hold the mutex.
  ghost predicate Core(s: State, extra: nat) {
    && Placed(s.ws) && Counted(s, extra)
    && Serialised(s.groups, s.live, s.ws.running)
    && Referenced(s.live, s.handles, s.promised)
    && QueuesOrdered(s) && GroupsOrdered(s.live, s.log.gsubmitted, s.log.gdone, s.nextGid)
  }

  ghost predicate Inv(s: State) {
    Core(s, 0) && Awake(s)
  }

  lemma InitInv()
    ensures Inv(Init())
  {
  }

  // No step ever touches a freed group.
  lemma EnabledIsSafe(s: State, e: Event)
    requires Inv(s) && Enabled(s, e)
    ensures Safe(s, e)
  {
    if e.EGroupDone? {
      assert RunBy(s.ws.running, s.ws.running[e.w]);
    }
    if e.EPromise? && RunBy(s.ws.running, e.g) {
      assert Unfinished(s.live, e.g) != [];
    }
  }

  lemma AddedSize<T>(a: set<T>, x: T)
    requires x !in a
    ensures |a + {x}| == |a| + 1
  {
  }

  lemma RemovedSize<T>(a: set<T>, x: T)
    requires x in a
    ensures |a - {x}| == |a| - 1
  {
  }

  lemma AddedKeys<V>(m: map<Wid, V>, w: Wid, v: V)
    requires w !in m
    ensures m[w := v].Keys == m.Keys + {w} && |m[w := v]| == |m| + 1
  {
    assert m[w := v].Keys == m.Keys + {w};
    assert |m[w := v].Keys| == |m.Keys| + 1;
  }

  lemma RemovedKeys<V>(m: map<Wid, V>, w: Wid)
    requires w in m
    ensures (m - {w}).Keys == m.Keys - {w} && |m - {w}| == |m| - 1
  {
    assert (m - {w}).Keys == m.Keys - {w};
    assert |(m - {w}).Keys| == |m.Keys| - 1;
  }

  // A worker that holds the mutex: counted, but in none of the places.
  ghost predicate Between(s: State, w: Wid) {
    Core(s, 1) && w < s.ws.next && Places(s.ws, w) == 0
  }

  lemma JoinsRunning(ws: Workers, w: Wid, g: Gid)
    requires w !in ws.running
    ensures Joins(ws, ws.(running := ws.running[w := g]), w)
  {
  }

  lemma JoinsPlain(ws: Workers, w: Wid, t: Task)
    requires w !in ws.plain
    ensures Joins(ws, ws.(plain := ws.plain[w := t]), w)
  {
  }

  // A worker in no place is in none of the parts.
  lemma Nowhere(ws: Workers, w: Wid)
    requires Places(ws, w) == 0
    ensures w !in ws.idle && w !in ws.signalled && w !in ws.starting && w !in ws.plain && w !in ws.running
  {
  }

  lemma MoveAlong(past: seq<nat>, queue: seq<nat>)
    requires queue != []
    ensures past + queue == (past + [queue[0]]) + queue[1..]
  {
  }

  lemma RunGroupInv(s: State, w: Wid)
    requires Between(s, w) && s.groups != []
    ensures Inv(RunGroup(s, w))
  {
    hide Serialised, Referenced, GroupsOrdered, Places;
    Nowhere(s.ws, w);
    AddedKeys(s.ws.running, w, s.groups[0]);
    JoinsRunning(s.ws, w, s.groups[0]);
    RunGroupSerialised(s.groups, s.live, s.ws.running, w);
    MoveAlong(s.log.dispatched, s.groups);
  }

  lemma RunGroupSerialised(groups: seq<Gid>, live: map<Gid, Group>, running: map<Wid, Gid>, w: Wid)
    requires Serialised(groups, live, running) && groups != [] && w !in running
    ensures Serialised(groups[1..], live, running[w := groups[0]])
  {
    var g, after := groups[0], running[w := groups[0]];
    assert groups == [g] + groups[1..];
    forall x
      ensures RunBy(after, x) <==> x == g || RunBy(running, x)
    {
      if x == g { assert after[w] == g; }
      if RunBy(running, x) {
        var v :| v in running && running[v] == x;
        assert after[v] == x;
      }
    }
    forall v | v in running
      ensures running[v] != g
    {
      assert RunBy(running, running[v]);
    }
  }

  lemma RunPlainInv(s: State, w: Wid)
    requires Between(s, w) && s.tasks != []
    ensures Inv(RunPlain(s, w))
  {
    hide Serialised, Referenced, GroupsOrdered, Places;
    Nowhere(s.ws, w);
    AddedKeys(s.ws.plain, w, s.tasks[0]);
    JoinsPlain(s.ws, w, s.tasks[0]);
    MoveAlong(s.log.started, s.tasks);
  }

  lemma RestInv(s: State, w: Wid)
    requires Between(s, w) && s.tasks == [] && s.groups == []
    ensures Inv(Rest(s, w))
  {
    hide Serialised, Referenced, GroupsOrdered;
    AddedSize(s.ws.idle, w);
    if s.avail != MAX_IDLE_TASK_THREADS { assert Joins(s.ws, Rest(s, w).ws, w); }
  }

  lemma DispatchInv(s: State, w: Wid)
    requires Between(s, w)
    ensures Inv(Dispatch(s, w))
  {
    hide Between, Inv, RunGroup, RunPlain, Rest;
    if s.tasks == [] && s.groups == [] {
      RestInv(s, w);
    } else if s.tasks != [] {
      RunPlainInv(s, w);
    } else {
      RunGroupInv(s, w);
    }
  }

  lemma SignalPlaced(ws: Workers, w: Wid)
    requires Placed(ws) && w in ws.idle
    ensures Placed(Signal(ws, w))
    ensures |Signal(ws, w).idle| == |ws.idle| - 1 && |Signal(ws, w).signalled| == |ws.signalled| + 1
    ensures Signal(ws, w) == ws.(idle := ws.idle - {w}, signalled := ws.signalled + {w})
  {
    assert Places(ws, w) <= 1;
    AddedSize(ws.signalled, w);
    RemovedSize(ws.idle, w);
    var after := Signal(ws, w);
    forall v: Wid
      ensures Places(after, v) <= One(v < after.next)
    {
      assert Places(after, v) == Places(ws, v);
    }
  }

  lemma StartPlaced(ws: Workers)
    requires Placed(ws)
    ensures Placed(ws.(starting := ws.starting + {ws.next}, next := ws.next + 1))
    ensures |ws.starting + {ws.next}| == |ws.starting| + 1
  {
    assert Places(ws, ws.next) == 0;
    AddedSize(ws.starting, ws.next);
    var after := ws.(starting := ws.starting + {ws.next}, next := ws.next + 1);
    forall v: Wid
      ensures Places(after, v) <= One(v < after.next)
    {
      assert Places(after, v) == Places(ws, v) + One(v == ws.next);
    }
  }

  // Scheduling makes sure that somebody looks at the queues.
  lemma ScheduleInv(s: State, w: Wid)
    requires Core(s, 0) && Reaches(s, w)
    ensures Inv(Schedule(s, w))
  {
    hide Serialised, Referenced, GroupsOrdered, Placed;
    if s.avail > 0 {
      if w in s.ws.idle { SignalPlaced(s.ws, w); }
    } else if s.num < MAX_TASK_THREADS {
      StartPlaced(s.ws);
    }
  }

  // ----- Groups -----

  // A release drops a reference that is not the last one while tasks remain.
  lemma ReleaseSerialised(groups: seq<Gid>, live: map<Gid, Group>, after: map<Gid, Group>, running: map<Wid, Gid>)
    requires Serialised(groups, live, running)
    requires forall g: Gid :: Unfinished(after, g) == Unfinished(live, g)
    ensures Serialised(groups, after, running)
  {
  }

  lemma ReleaseUnfinished(s: State, g: Gid)
    requires g in s.live && (s.live[g].refs == 1 ==> s.live[g].tasks == [])
    ensures forall x: Gid :: Unfinished(Release(s, g).live, x) == Unfinished(s.live, x)
  {
  }

  // One reference and whatever it stood for are gone.
  lemma ReleaseReferenced(s: State, g: Gid, handles: set<Gid>, promised: multiset<Gid>)
    requires g in s.live && s.live[g].refs > 0
    requires forall x :: x in handles || x in promised ==> x in s.live
    requires forall x: Gid :: x in s.live ==>
      s.live[x].refs == One(x in handles) + promised[x] + |s.live[x].tasks| + One(x == g)
      && (x != g ==> s.live[x].refs > 0)
    ensures Referenced(Release(s, g).live, handles, promised)
  {
    var after := Release(s, g).live;
    if s.live[g].refs == 1 {
      assert g !in handles && promised[g] == 0;
    }
  }

  lemma ReleaseGroupsOrdered(live: map<Gid, Group>, after: map<Gid, Group>, gsubmitted: map<Gid, seq<Task>>, gdone: map<Gid, seq<Task>>, next: Gid)
    requires GroupsOrdered(live, gsubmitted, gdone, next) && after.Keys <= live.Keys
    requires forall g: Gid :: Unfinished(after, g) == Unfinished(live, g)
    ensures GroupsOrdered(after, gsubmitted, gdone, next)
  {
  }

  lemma DestroyInv(s: State, g: Gid)
    requires Inv(s) && g in s.handles
    ensures g in s.live && Inv(Destroy(s, g))
  {
    hide Serialised, GroupsOrdered, Placed, Busy;
    var s1 := s.(handles := s.handles - {g});
    ReleaseUnfinished(s1, g);
    ReleaseReferenced(s1, g, s1.handles, s1.promised);
    var after := Release(s1, g).live;
    ReleaseSerialised(s.groups, s.live, after, s.ws.running);
    ReleaseGroupsOrdered(s.live, after, s.log.gsubmitted, s.log.gdone, s.nextGid);
  }

  lemma PromiseReferenced(s: State, g: Gid)
    requires Referenced(s.live, s.handles, s.promised) && g in s.live
    ensures var s' := Promise(s, g);
      && Referenced(s'.live, s'.handles, s'.promised)
      && s'.live.Keys == s.live.Keys
      && forall x: Gid :: Unfinished(s'.live, x) == Unfinished(s.live, x)
  {
  }

  lemma PromiseInv(s: State, g: Gid)
    requires Inv(s) && (g in s.handles || RunBy(s.ws.running, g))
    ensures g in s.live && Inv(Promise(s, g))
  {
    if RunBy(s.ws.running, g) { assert Unfinished(s.live, g) != []; }
    assert g in s.live;
    PromiseCore(s, g);
  }

  lemma PromiseCore(s: State, g: Gid)
    requires Inv(s) && g in s.live
    ensures Inv(Promise(s, g))
  {
    hide Serialised, GroupsOrdered, Placed, Busy, Referenced, Unfinished;
    var s' := Promise(s, g);
    PromiseReferenced(s, g);
    ReleaseSerialised(s.groups, s.live, s'.live, s.ws.running);
    ReleaseGroupsOrdered(s.live, s'.live, s.log.gsubmitted, s.log.gdone, s.nextGid);
  }

  lemma CreateReferenced(s: State)
    requires Referenced(s.live, s.handles, s.promised) && s.nextGid !in s.live
    ensures var s' := Create(s);
      && Referenced(s'.live, s'.handles, s'.promised)
      && forall x: Gid :: Unfinished(s'.live, x) == Unfinished(s.live, x)
  {
    var g := s.nextGid;
    assert g !in s.handles && g !in s.promised;
  }

  lemma CreateOrdered(s: State)
    requires GroupsOrdered(s.live, s.log.gsubmitted, s.log.gdone, s.nextGid)
    ensures s.nextGid !in s.live
    ensures var s' := Create(s); GroupsOrdered(s'.live, s'.log.gsubmitted, s'.log.gdone, s'.nextGid)
  {
  }

  lemma CreateInv(s: State)
    requires Inv(s)
    ensures Inv(Create(s))
  {
    hide Serialised, GroupsOrdered, Placed, Busy, Referenced, Unfinished;
    CreateOrdered(s);
    CreateReferenced(s);
    ReleaseSerialised(s.groups, s.live, Create(s).live, s.ws.running);
  }

  // One more task: the group joins the queue unless it already has tasks.
  lemma EnqueueSerialised(groups: seq<Gid>, live: map<Gid, Group>, after: map<Gid, Group>, running: map<Wid, Gid>, g: Gid)
    requires Serialised(groups, live, running) && g in live
    requires Unfinished(after, g) != []
    requires forall x: Gid :: x != g ==> Unfinished(after, x) == Unfinished(live, x)
    ensures Serialised(if live[g].tasks == [] then groups + [g] else groups, after, running)
  {
    assert Unfinished(live, g) == live[g].tasks;
    if live[g].tasks == [] {
      assert g !in groups;
      assert !RunBy(running, g);
      AppendedUnique(groups, g);
    }
  }

  lemma AppendedUnique(q: seq<Gid>, g: Gid)
    requires NoDuplicates(q) && g !in q
    ensures NoDuplicates(q + [g])
    ensures forall x :: x in q + [g] <==> x in q || x == g
  {
  }

  lemma EnqueueCore(s: State, t: Task, g: Gid)
    requires Inv(s) && g in s.promised
    ensures g in s.live && g in s.log.gsubmitted && Core(Enqueue(s, t, g), 0)
    ensures Enqueue(s, t, g).ws == s.ws && Enqueue(s, t, g).avail == s.avail
  {
    hide Serialised, Placed, Busy;
    var s' := Enqueue(s, t, g);
    assert Unfinished(s'.live, g) == s.live[g].tasks + [t];
    assert forall x: Gid :: x != g ==> Unfinished(s'.live, x) == Unfinished(s.live, x);
    EnqueueSerialised(s.groups, s.live, s'.live, s.ws.running, g);
    assert s.groups + [] == s.groups;
    assert QueuesOrdered(s');
    assert Referenced(s'.live, s'.handles, s'.promised);
    EnqueueOrdered(s, t, g);
  }

  lemma EnqueueOrdered(s: State, t: Task, g: Gid)
    requires GroupsOrdered(s.live, s.log.gsubmitted, s.log.gdone, s.nextGid) && g in s.live
    ensures var s' := Enqueue(s, t, g); GroupsOrdered(s'.live, s'.log.gsubmitted, s'.log.gdone, s'.nextGid)
  {
    var s' := Enqueue(s, t, g);
    assert s.log.gsubmitted[g] + [t] == s.log.gdone[g] + (s.live[g].tasks + [t]);
    assert forall x: Gid :: x != g ==> Unfinished(s'.live, x) == Unfinished(s.live, x);
  }

  lemma SubmitGroupInv(s: State, t: Task, g: Gid, w: Wid)
    requires Inv(s) && g in s.promised && Reaches(s, w)
    ensures g in s.live && g in s.log.gsubmitted && Inv(SubmitGroup(s, t, g, w))
  {
    hide Inv, Core, Schedule, Enqueue;
    EnqueueCore(s, t, g);
    ScheduleInv(Enqueue(s, t, g), w);
  }

  lemma SubmitInv(s: State, t: Task, w: Wid)
    requires Inv(s) && Reaches(s, w)
    ensures Inv(Submit(s, t, w))
  {
    hide Serialised, Placed, Busy, Referenced, GroupsOrdered, Schedule;
    var s1 := s.(tasks := s.tasks + [t], log := s.log.(submitted := s.log.submitted + [t]));
    assert Core(s1, 0);
    ScheduleInv(s1, w);
  }

  // ----- Workers taking the mutex -----

  // Worker w, and no other, is in one place less than before.
  lemma LeavesStarting(ws: Workers, w: Wid)
    requires w in ws.starting
    ensures Joins(ws.(starting := ws.starting - {w}), ws, w)
  {
  }

  lemma LeavesSignalled(ws: Workers, w: Wid)
    requires w in ws.signalled
    ensures Joins(ws.(signalled := ws.signalled - {w}), ws, w)
  {
  }

  lemma LeavesPlain(ws: Workers, w: Wid)
    requires w in ws.plain
    ensures Joins(ws.(plain := ws.plain - {w}), ws, w)
  {
  }

  lemma LeavesRunning(ws: Workers, w: Wid)
    requires w in ws.running
    ensures Joins(ws.(running := ws.running - {w}), ws, w)
  {
  }

  lemma LeftPlaced(before: Workers, after: Workers, w: Wid)
    requires Placed(before) && Joins(after, before, w)
    ensures Placed(after) && Places(after, w) == 0 && w < after.next
  {
    hide Places;
    assert Places(before, w) == Places(after, w) + 1;
    forall v: Wid
      ensures Places(after, v) <= One(v < after.next)
    {
      assert Places(before, v) == Places(after, v) + One(v == w);
    }
  }

  lemma BeginInv(s: State, w: Wid)
    requires Inv(s) && w in s.ws.starting
    ensures Inv(Begin(s, w))
  {
    hide Serialised, Referenced, GroupsOrdered, Placed, Places, Dispatch;
    var s1 := s.(ws := s.ws.(starting := s.ws.starting - {w}));
    LeavesStarting(s.ws, w);
    RemovedSize(s.ws.starting, w);
    LeftPlaced(s.ws, s1.ws, w);
    DispatchInv(s1, w);
  }

  lemma WakeInv(s: State, w: Wid)
    requires Inv(s) && w in s.ws.signalled
    ensures Inv(Wake(s, w))
  {
    hide Serialised, Referenced, GroupsOrdered, Placed, Places, Dispatch;
    var s1 := s.(avail := s.avail - 1, ws := s.ws.(signalled := s.ws.signalled - {w}));
    LeavesSignalled(s.ws, w);
    RemovedSize(s.ws.signalled, w);
    LeftPlaced(s.ws, s1.ws, w);
    DispatchInv(s1, w);
  }

  lemma PlainDoneInv(s: State, w: Wid)
    requires Inv(s) && w in s.ws.plain
    ensures Inv(PlainDone(s, w))
  {
    hide Serialised, Referenced, GroupsOrdered, Placed, Places, Dispatch, RunGroup;
    var s1 := s.(ws := s.ws.(plain := s.ws.plain - {w}));
    LeavesPlain(s.ws, w);
    LeftPlaced(s.ws, s1.ws, w);
    RemovedKeys(s.ws.plain, w);
    if s1.groups != [] {
      RunGroupInv(s1, w);
    } else {
      DispatchInv(s1, w);
    }
  }

  lemma UnlinkSerialised(s: State, w: Wid)
    requires Serialised(s.groups, s.live, s.ws.running) && RunsLive(s, w)
    ensures var s1 := Unlink(s, w); Serialised(s1.groups, s1.live, s1.ws.running)
  {
    var g := s.ws.running[w];
    var s1 := Unlink(s, w);
    var after := s1.ws.running;
    assert RunBy(s.ws.running, g);
    forall x
      ensures RunBy(after, x) <==> x != g && RunBy(s.ws.running, x)
    {
      if x != g && RunBy(s.ws.running, x) {
        var v :| v in s.ws.running && s.ws.running[v] == x;
        assert after[v] == x;
      }
    }
    assert forall x: Gid :: x != g ==> Unfinished(s1.live, x) == Unfinished(s.live, x);
    assert g !in s.groups;
    AppendedUnique(s.groups, g);
    assert s.groups + [] == s.groups;
  }

  lemma UnlinkOrdered(s: State, w: Wid)
    requires RunsLive(s, w) && GroupsOrdered(s.live, s.log.gsubmitted, s.log.gdone, s.nextGid) && QueuesOrdered(s)
    ensures var s1 := Unlink(s, w); GroupsOrdered(s1.live, s1.log.gsubmitted, s1.log.gdone, s1.nextGid) && QueuesOrdered(s1)
  {
    var g := s.ws.running[w];
    var s1 := Unlink(s, w);
    var tasks := s.live[g].tasks;
    assert s.log.gdone[g] + tasks == (s.log.gdone[g] + [tasks[0]]) + tasks[1..];
    assert forall x: Gid :: x != g ==> Unfinished(s1.live, x) == Unfinished(s.live, x);
  }

  lemma UnlinkReferenced(s: State, w: Wid)
    requires RunsLive(s, w) && Referenced(s.live, s.handles, s.promised)
    ensures var s1, g := Unlink(s, w), s.ws.running[w];
      && g in s1.live && s1.live[g].refs > 0
      && (s1.live[g].refs == 1 ==> s1.live[g].tasks == [])
      && Referenced(Release(s1, g).live, s1.handles, s1.promised)
  {
    var s1, g := Unlink(s, w), s.ws.running[w];
    ReleaseReferenced(s1, g, s1.handles, s1.promised);
  }

  lemma GroupDoneBetween(s: State, w: Wid)
    requires Inv(s) && RunsLive(s, w)
    ensures Between(Release(Unlink(s, w), s.ws.running[w]), w)
  {
    hide Serialised, Referenced, GroupsOrdered, Placed, Places, QueuesOrdered, Unfinished;
    var g := s.ws.running[w];
    var s1 := Unlink(s, w);
    LeavesRunning(s.ws, w);
    LeftPlaced(s.ws, s1.ws, w);
    RemovedKeys(s.ws.running, w);
    UnlinkSerialised(s, w);
    UnlinkOrdered(s, w);
    UnlinkReferenced(s, w);
    ReleaseUnfinished(s1, g);
    var s2 := Release(s1, g);
    ReleaseSerialised(s1.groups, s1.live, s2.live, s1.ws.running);
    ReleaseGroupsOrdered(s1.live, s2.live, s1.log.gsubmitted, s1.log.gdone, s1.nextGid);
    ReleaseQueues(s1, g);
  }

  lemma ReleaseQueues(s: State, g: Gid)
    requires g in s.live && QueuesOrdered(s)
    ensures QueuesOrdered(Release(s, g))
  {
  }

  lemma GroupDoneInv(s: State, w: Wid)
    requires Inv(s) && RunsLive(s, w)
    ensures Inv(GroupDone(s, w))
  {
    hide Inv, Between, Dispatch;
    GroupDoneBetween(s, w);
    DispatchInv(Release(Unlink(s, w), s.ws.running[w]), w);
  }

  lemma SpuriousInv(s: State, w: Wid)
    requires Inv(s) && w in s.ws.idle
    ensures Inv(Spurious(s, w))
  {
    hide Serialised, Referenced, GroupsOrdered, Placed, Signal;
    SignalPlaced(s.ws, w);
  }

  // Every step keeps the invariant.
  lemma StepInv(s: State, e: Event)
    requires Inv(s) && Enabled(s, e)
    ensures Safe(s, e) && Inv(Step(s, e))
  {
    hide Inv, Begin, Wake, PlainDone, GroupDone, Submit, Create, Destroy, Promise, SubmitGroup, Spurious, RunsLive;
    EnabledIsSafe(s, e);
    match e
    case EBegin(w) => BeginInv(s, w);
    case EWake(w) => WakeInv(s, w);
    case EPlainDone(w) => PlainDoneInv(s, w);
    case EGroupDone(w) => GroupDoneInv(s, w);
    case ESubmit(t, w) => SubmitInv(s, t, w);
    case ECreate => CreateInv(s);
    case EDestroy(g) => DestroyInv(s, g);
    case EPromise(g) => PromiseInv(s, g);
    case ESubmitGroup(t, g, w) => SubmitGroupInv(s, t, g, w);
    case ESpurious(w) => SpuriousInv(s, w);
  }
}
