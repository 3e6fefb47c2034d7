// What the scheduler guarantees over whole runs: no lost work, bounded workers, exclusive and
// ordered execution of groups, safe reclamation, and completion of everything submitted.
module TaskTheorems {
  import opened TaskModel

  // A run: each event can happen in the state the earlier ones lead to.
  ghost predicate Possible(s: State, es: seq<Event>)
    decreases |es|
  {
    es == [] || (Enabled(s, es[0]) && Safe(s, es[0]) && Possible(Step(s, es[0]), es[1..]))
  }

  ghost function After(s: State, es: seq<Event>): State
    requires Possible(s, es)
    decreases |es|
  {
    if es == [] then s else After(Step(s, es[0]), es[1..])
  }

  lemma {:induction false} RunKeepsInv(s: State, es: seq<Event>)
    requires Inv(s) && Possible(s, es)
    ensures Inv(After(s, es))
    decreases |es|
  {
    hide Inv, Step, Enabled, Safe;
    if es != [] {
      StepInv(s, es[0]);
      RunKeepsInv(Step(s, es[0]), es[1..]);
    }
  }

  // A worker that is signalled, starting or running something: it will look at the queues.
  ghost predicate Active(ws: Workers, w: Wid) {
    w in ws.signalled || w in ws.starting || w in ws.plain || w in ws.running
  }

  lemma BusyIsActive(ws: Workers)
    ensures Busy(ws) > 0 <==> exists w :: Active(ws, w)
  {
    if Busy(ws) > 0 {
      if |ws.signalled| > 0 {
        var w :| w in ws.signalled;
        assert Active(ws, w);
      } else if |ws.starting| > 0 {
        var w :| w in ws.starting;
        assert Active(ws, w);
      } else if |ws.plain| > 0 {
        assert |ws.plain.Keys| > 0;
        var w :| w in ws.plain.Keys;
        assert Active(ws, w);
      } else {
        assert |ws.running.Keys| > 0;
        var w :| w in ws.running.Keys;
        assert Active(ws, w);
      }
    }
    if w :| Active(ws, w) {
      assert w in ws.signalled ==> |ws.signalled| > 0;
      assert w in ws.starting ==> |ws.starting| > 0;
      assert w in ws.plain ==> |ws.plain.Keys| > 0;
      assert w in ws.running ==> |ws.running.Keys| > 0;
    }
  }

  // In every interleaving: work is never left to workers that all sleep unsignalled or are
  // gone, at most two workers wait, and there are at most sixteen.
  lemma NoLostWork(es: seq<Event>)
    requires Possible(Init(), es)
    ensures var s := After(Init(), es);
      && (s.tasks != [] || s.groups != [] ==> exists w :: Active(s.ws, w))
      && |s.ws.idle| <= s.avail <= MAX_IDLE_TASK_THREADS
      && s.num == |s.ws.idle| + Busy(s.ws) <= MAX_TASK_THREADS
  {
    InitInv();
    RunKeepsInv(Init(), es);
    BusyIsActive(After(Init(), es).ws);
  }

  // In every interleaving: a queued group is not being run, two workers never run the same
  // group, and what is queued or run has not been freed.
  lemma GroupsExclusive(es: seq<Event>)
    requires Possible(Init(), es)
    ensures var s := After(Init(), es);
      && (forall g :: g in s.live ==> (s.live[g].tasks != [] <==> g in s.groups || RunBy(s.ws.running, g)))
      && (forall g :: g in s.groups ==> g in s.live && !RunBy(s.ws.running, g))
      && (forall v, w :: v in s.ws.running && w in s.ws.running && v != w ==> s.ws.running[v] != s.ws.running[w])
      && (forall w :: w in s.ws.running ==> s.ws.running[w] in s.live)
  {
    hide Possible, After, Init, Placed, Counted, Referenced, QueuesOrdered, GroupsOrdered, NoDuplicates;
    InitInv();
    RunKeepsInv(Init(), es);
    SerialisedMeans(After(Init(), es));
  }

  lemma SerialisedMeans(s: State)
    requires Serialised(s.groups, s.live, s.ws.running)
    ensures forall g :: g in s.live ==> (s.live[g].tasks != [] <==> g in s.groups || RunBy(s.ws.running, g))
    ensures forall g :: g in s.groups ==> g in s.live && !RunBy(s.ws.running, g)
    ensures forall v, w :: v in s.ws.running && w in s.ws.running && v != w ==> s.ws.running[v] != s.ws.running[w]
    ensures forall w :: w in s.ws.running ==> s.ws.running[w] in s.live
  {
    assert forall g: Gid :: g in s.live ==> Unfinished(s.live, g) == s.live[g].tasks;
    forall w | w in s.ws.running
      ensures s.ws.running[w] in s.live
    {
      assert RunBy(s.ws.running, s.ws.running[w]);
    }
  }

  // Nothing refers to g any more and all tasks handed to it have been done, in order.
  ghost predicate Finished(s: State, g: Gid) {
    && g !in s.handles && g !in s.promised && g !in s.groups && !RunBy(s.ws.running, g)
    && g in s.log.gsubmitted && g in s.log.gdone && s.log.gdone[g] == s.log.gsubmitted[g]
  }

  // In every interleaving: whatever can happen next touches no freed group, and a group is
  // freed only by a release that leaves nothing of it behind.
  lemma FreedOnlyWhenDone(es: seq<Event>, e: Event, g: Gid)
    requires Possible(Init(), es) && Enabled(After(Init(), es), e)
    ensures var s := After(Init(), es);
      && Safe(s, e)
      && (g in s.live && g !in Step(s, e).live ==> (e.EDestroy? || e.EGroupDone?) && Finished(Step(s, e), g))
  {
    hide Step, Inv, Safe, Enabled, Finished;
    InitInv();
    RunKeepsInv(Init(), es);
    var s := After(Init(), es);
    StepInv(s, e);
    if g in s.live && g !in Step(s, e).live {
      FreedBy(s, e, g);
      LiveIsKnown(s, g);
      LogKeeps(s, e, g);
      GoneIsFinished(Step(s, e), g);
    }
  }

  lemma LiveIsKnown(s: State, g: Gid)
    requires Inv(s) && g in s.live
    ensures g in s.log.gsubmitted
  {
  }

  lemma FreedBy(s: State, e: Event, g: Gid)
    requires Safe(s, e) && g in s.live && g !in Step(s, e).live
    ensures e.EDestroy? || e.EGroupDone?
  {
  }

  lemma GoneIsFinished(s: State, g: Gid)
    requires Inv(s) && g !in s.live && g in s.log.gsubmitted
    ensures Finished(s, g)
  {
    assert Unfinished(s.live, g) == [];
  }

  lemma LogKeeps(s: State, e: Event, g: Gid)
    requires Safe(s, e) && g in s.log.gsubmitted
    ensures g in Step(s, e).log.gsubmitted
  {
  }

  // ----- The log is what the callers did -----

  predicate ByWorker(e: Event) {
    e.EBegin? || e.EWake? || e.EPlainDone? || e.EGroupDone?
  }

  // The plain tasks handed in during a run, and the tasks handed to a group.
  function PlainOf(e: Event): seq<Task> {
    if e.ESubmit? then [e.t] else []
  }

  function PlainTasks(es: seq<Event>): seq<Task> {
    if es == [] then [] else PlainOf(es[0]) + PlainTasks(es[1..])
  }

  function GroupOf(e: Event, g: Gid): seq<Task> {
    if e.ESubmitGroup? && e.g == g then [e.t] else []
  }

  function GroupTasks(es: seq<Event>, g: Gid): seq<Task> {
    if es == [] then [] else GroupOf(es[0], g) + GroupTasks(es[1..], g)
  }

  ghost function Submitted(s: State, g: Gid): seq<Task> {
    if g in s.log.gsubmitted then s.log.gsubmitted[g] else []
  }

  lemma DispatchLogs(s: State, w: Wid)
    ensures Dispatch(s, w).log.submitted == s.log.submitted && Dispatch(s, w).log.gsubmitted == s.log.gsubmitted
  {
  }

  lemma WorkerLogs(s: State, e: Event)
    requires Safe(s, e) && ByWorker(e)
    ensures Step(s, e).log.submitted == s.log.submitted && Step(s, e).log.gsubmitted == s.log.gsubmitted
  {
    hide Dispatch;
    match e
    case EBegin(w) => DispatchLogs(s.(ws := s.ws.(starting := s.ws.starting - {w})), w);
    case EWake(w) => DispatchLogs(s.(avail := s.avail - 1, ws := s.ws.(signalled := s.ws.signalled - {w})), w);
    case EPlainDone(w) => DispatchLogs(s.(ws := s.ws.(plain := s.ws.plain - {w})), w);
    case EGroupDone(w) => DispatchLogs(Release(Unlink(s, w), s.ws.running[w]), w);
  }

  lemma ScheduleLogs(s: State, w: Wid)
    ensures Schedule(s, w).log == s.log
  {
    hide Signal;
  }

  lemma OtherLogs(s: State, e: Event, g: Gid)
    requires Inv(s) && Safe(s, e) && !ByWorker(e)
    ensures Step(s, e).log.submitted == s.log.submitted + PlainOf(e)
    ensures Submitted(Step(s, e), g) == Submitted(s, g) + GroupOf(e, g)
  {
    hide Placed, Counted, Serialised, Referenced, QueuesOrdered, Signal, Schedule, Unfinished;
    match e
    case ESubmit(t, w) => ScheduleLogs(s.(tasks := s.tasks + [t], log := s.log.(submitted := s.log.submitted + [t])), w);
    case ESubmitGroup(t, h, w) => ScheduleLogs(Enqueue(s, t, h), w);
    case ECreate => assert s.nextGid !in s.log.gsubmitted;
    case _ =>
  }

  lemma StepLogs(s: State, e: Event, g: Gid)
    requires Inv(s) && Safe(s, e)
    ensures Step(s, e).log.submitted == s.log.submitted + PlainOf(e)
    ensures Submitted(Step(s, e), g) == Submitted(s, g) + GroupOf(e, g)
  {
    hide Inv, Step, Safe;
    if ByWorker(e) {
      WorkerLogs(s, e);
    } else {
      OtherLogs(s, e, g);
    }
  }

  lemma {:induction false} RunLogs(s: State, es: seq<Event>, g: Gid)
    requires Inv(s) && Possible(s, es)
    ensures After(s, es).log.submitted == s.log.submitted + PlainTasks(es)
    ensures Submitted(After(s, es), g) == Submitted(s, g) + GroupTasks(es, g)
    decreases |es|
  {
    hide Inv, Step, Enabled, Safe, Submitted;
    if es != [] {
      StepInv(s, es[0]);
      StepLogs(s, es[0], g);
      RunLogs(Step(s, es[0]), es[1..], g);
    }
  }

  // In every interleaving: plain tasks begin in the order they were handed in, the tasks of a
  // group are done in the order they were handed to it, each exactly once.
  lemma InOrderOnce(es: seq<Event>, g: Gid)
    requires Possible(Init(), es)
    ensures var s := After(Init(), es);
      && PlainTasks(es) == s.log.started + s.tasks
      && s.log.arrived == s.log.dispatched + s.groups
      && (g in s.log.gdone ==> GroupTasks(es, g) == s.log.gdone[g] + Unfinished(s.live, g))
      && (g !in s.log.gdone ==> GroupTasks(es, g) == [])
  {
    hide Step, Enabled, Safe;
    InitInv();
    RunKeepsInv(Init(), es);
    RunLogs(Init(), es, g);
  }

  // ----- Everything submitted gets done -----

  // Unfinished group tasks in memory.
  ghost function Total(live: map<Gid, Group>): nat {
    if live == map[] then 0
    else
      var g :| g in live;
      |live[g].tasks| + Total(live - {g})
  }

  lemma {:induction false} TotalWithout(live: map<Gid, Group>, g: Gid)
    requires g in live
    ensures Total(live) == |live[g].tasks| + Total(live - {g})
    decreases |live|
  {
    var h :| h in live && Total(live) == |live[h].tasks| + Total(live - {h});
    if h != g {
      TotalWithout(live - {h}, g);
      TotalWithout(live - {g}, h);
      assert live - {h} - {g} == live - {g} - {h};
    }
  }

  lemma TotalUpdate(live: map<Gid, Group>, g: Gid, x: Group)
    requires g in live
    ensures Total(live[g := x]) == Total(live) - |live[g].tasks| + |x.tasks|
  {
    TotalWithout(live, g);
    TotalWithout(live[g := x], g);
    assert live[g := x] - {g} == live - {g};
  }

  // Steps that workers can still make without new submissions or spurious wake-ups.
  ghost function Load(s: State): nat {
    3 * Total(s.live) + 2 * |s.tasks| + |s.groups| + Busy(s.ws)
  }

  lemma DispatchLoad(s: State, w: Wid)
    requires w !in s.ws.plain && w !in s.ws.running
    ensures Load(Dispatch(s, w)) <= Load(s)
    ensures (s.tasks == [] && s.groups == []) ==> Load(Dispatch(s, w)) == Load(s)
  {
    hide Total;
    if s.tasks != [] {
      AddedKeys(s.ws.plain, w, s.tasks[0]);
    } else if s.groups != [] {
      AddedKeys(s.ws.running, w, s.groups[0]);
    }
  }

  lemma ReleaseTotal(s: State, g: Gid)
    requires g in s.live && (s.live[g].refs == 1 ==> s.live[g].tasks == [])
    ensures Total(Release(s, g).live) == Total(s.live)
  {
    hide Total;
    if s.live[g].refs == 1 {
      TotalWithout(s.live, g);
    } else {
      TotalUpdate(s.live, g, s.live[g].(refs := s.live[g].refs - 1));
    }
  }

  lemma BeginLoad(s: State, w: Wid)
    requires Inv(s) && w in s.ws.starting
    ensures Load(Begin(s, w)) < Load(s)
  {
    hide Total, Dispatch, Serialised, Referenced, GroupsOrdered;
    var s1 := s.(ws := s.ws.(starting := s.ws.starting - {w}));
    assert Places(s.ws, w) <= 1;
    RemovedSize(s.ws.starting, w);
    DispatchLoad(s1, w);
  }

  lemma WakeLoad(s: State, w: Wid)
    requires Inv(s) && w in s.ws.signalled
    ensures Load(Wake(s, w)) < Load(s)
  {
    hide Total, Dispatch, Serialised, Referenced, GroupsOrdered;
    var s1 := s.(avail := s.avail - 1, ws := s.ws.(signalled := s.ws.signalled - {w}));
    assert Places(s.ws, w) <= 1;
    RemovedSize(s.ws.signalled, w);
    DispatchLoad(s1, w);
  }

  lemma PlainDoneLoad(s: State, w: Wid)
    requires Inv(s) && w in s.ws.plain
    ensures Load(PlainDone(s, w)) < Load(s)
  {
    hide Total, Dispatch, Serialised, Referenced, GroupsOrdered;
    var s1 := s.(ws := s.ws.(plain := s.ws.plain - {w}));
    assert Places(s.ws, w) <= 1;
    RemovedKeys(s.ws.plain, w);
    if s1.groups != [] {
      AddedKeys(s1.ws.running, w, s1.groups[0]);
    } else {
      DispatchLoad(s1, w);
    }
  }

  lemma GroupDoneLoad(s: State, w: Wid)
    requires Inv(s) && RunsLive(s, w)
    ensures Load(GroupDone(s, w)) < Load(s)
  {
    hide Total, Dispatch, Serialised, GroupsOrdered;
    var g := s.ws.running[w];
    var s1 := Unlink(s, w);
    UnlinkReferenced(s, w);
    ReleaseTotal(s1, g);
    TotalUpdate(s.live, g, s1.live[g]);
    RemovedKeys(s.ws.running, w);
    assert Places(s.ws, w) <= 1;
    DispatchLoad(Release(s1, g), w);
  }

  // Every step of a worker brings the end closer.
  lemma WorkerProgress(s: State, e: Event)
    requires Inv(s) && Enabled(s, e) && ByWorker(e)
    ensures Safe(s, e) && Load(Step(s, e)) < Load(s)
  {
    hide Inv, Load, Begin, Wake, PlainDone, GroupDone;
    EnabledIsSafe(s, e);
    match e
    case EBegin(w) => BeginLoad(s, w);
    case EWake(w) => WakeLoad(s, w);
    case EPlainDone(w) => PlainDoneLoad(s, w);
    case EGroupDone(w) => GroupDoneLoad(s, w);
  }

  ghost predicate WorkersOnly(es: seq<Event>) {
    forall i :: 0 <= i < |es| ==> ByWorker(es[i])
  }

  ghost predicate Quiet(s: State) {
    forall e: Event :: ByWorker(e) ==> !Enabled(s, e)
  }

  // Left to themselves the workers stop after a bounded number of steps.
  lemma {:induction false} WorkersStop(s: State, es: seq<Event>)
    requires Inv(s) && Possible(s, es) && WorkersOnly(es)
    ensures |es| + Load(After(s, es)) <= Load(s)
    decreases |es|
  {
    hide Inv, Step, Enabled, Safe, Load, ByWorker;
    if es != [] {
      StepInv(s, es[0]);
      WorkerProgress(s, es[0]);
      WorkersStop(Step(s, es[0]), es[1..]);
    }
  }

  // And when they stop, everything submitted before has been done.
  lemma QuietIsDone(s: State)
    requires Inv(s) && Quiet(s)
    ensures s.tasks == [] && s.groups == [] && s.ws.running == map[] && s.ws.plain == map[]
    ensures s.log.started == s.log.submitted && s.log.gdone == s.log.gsubmitted
  {
    forall w
      ensures !Active(s.ws, w)
    {
      assert !Enabled(s, EWake(w)) && !Enabled(s, EBegin(w)) && !Enabled(s, EPlainDone(w)) && !Enabled(s, EGroupDone(w));
    }
    BusyIsActive(s.ws);
    assert s.ws.running == map[] && s.ws.plain == map[];
    forall g | g in s.log.gsubmitted
      ensures s.log.gdone[g] == s.log.gsubmitted[g]
    {
      assert !RunBy(s.ws.running, g);
      assert Unfinished(s.live, g) == [];
    }
  }

  // No lost work, as completion: after any run, once no more work arrives, the workers finish
  // within a bounded number of steps, and then every plain task has been begun and finished and
  // every group task done, in the order they were handed in.
  lemma EverythingGetsDone(es: seq<Event>, ws: seq<Event>, g: Gid)
    requires Possible(Init(), es) && Possible(After(Init(), es), ws) && WorkersOnly(ws)
    ensures |ws| <= Load(After(Init(), es))
    ensures Quiet(After(After(Init(), es), ws)) ==>
      var s := After(After(Init(), es), ws);
      && s.log.started == PlainTasks(es) && s.ws.plain == map[]
      && (if g in s.log.gdone then s.log.gdone[g] else []) == GroupTasks(es, g)
  {
    hide Step, Enabled, Safe, Load, Inv, Quiet, ByWorker;
    InitInv();
    RunKeepsInv(Init(), es);
    var s0 := After(Init(), es);
    WorkersStop(s0, ws);
    RunKeepsInv(s0, ws);
    var s := After(s0, ws);
    RunLogs(Init(), es, g);
    RunLogs(s0, ws, g);
    WorkersSubmitNothing(ws, g);
    if Quiet(s) {
      QuietIsDone(s);
    }
  }

  lemma {:induction false} WorkersSubmitNothing(ws: seq<Event>, g: Gid)
    requires WorkersOnly(ws)
    ensures PlainTasks(ws) == [] && GroupTasks(ws, g) == []
    decreases |ws|
  {
    if ws != [] {
      assert ByWorker(ws[0]);
      WorkersSubmitNothing(ws[1..], g);
    }
  }
}
