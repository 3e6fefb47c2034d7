// The scheduler's critical sections as they update the shared variables. Each method is what
// runs while the mutex is held (or one atomic update) and is proved to be a step of the model.
// The worker function is cut where it blocks: waiting, and running a task.
module TaskThreads {
  import opened TaskModel

  class Scheduler {
    var tasks: seq<Task>
    var groups: seq<Gid>
    var live: map<Gid, Group>
    var num: int
    var avail: int
    var nextGid: Gid
    ghost var handles: set<Gid>
    ghost var promised: multiset<Gid>
    ghost var ws: Workers
    ghost var log: Log

    ghost function St(): State
      reads this
    {
      State(tasks, groups, live, num, avail, handles, promised, nextGid, ws, log)
    }

    constructor ()
      ensures St() == Init() && Inv(St())
    {
      tasks, groups, live, num, avail, nextGid := [], [], map[], 0, 0, 0;
      handles, promised := {}, multiset{};
      ws := Workers({}, {}, {}, map[], map[], 0);
      log := Log([], [], map[], map[], [], []);
      new;
      InitInv();
    }

    // `w` is the waiting worker that a signal reaches.
    method TaskSchedule(ghost w: Wid)
      modifies this`num, this`ws
      ensures St() == Schedule(old(St()), w)
    {
      if avail > 0 {
        ws := Signal(ws, w);
      } else {
        if num < MAX_TASK_THREADS {
          num := num + 1;
          ws := ws.(starting := ws.starting + {ws.next}, next := ws.next + 1);
        }
      }
    }

    method TaskRun(t: Task, ghost w: Wid)
      requires Inv(St()) && Enabled(St(), ESubmit(t, w))
      modifies this
      ensures St() == Step(old(St()), ESubmit(t, w)) && Inv(St())
    {
      hide Inv, Schedule;
      StepInv(St(), ESubmit(t, w));
      tasks := tasks + [t];
      log := log.(submitted := log.submitted + [t]);
      TaskSchedule(w);
    }

    method TaskGroupRelease(g: Gid)
      requires g in live && (live[g].refs == 1 ==> live[g].tasks == [])
      modifies this`live
      ensures St() == Release(old(St()), g)
    {
      var refs := live[g].refs - 1;
      if refs != 0 {
        live := live[g := live[g].(refs := refs)];
        return;
      }
      assert live[g].tasks == [];
      live := live - {g};
    }

    method TaskGroupCreate() returns (g: Gid)
      requires Inv(St())
      modifies this
      ensures St() == Step(old(St()), ECreate) && Inv(St())
      ensures g in live && g in handles && g !in old(live)
    {
      StepInv(St(), ECreate);
      g := nextGid;
      nextGid := nextGid + 1;
      live := live[g := Group(1, [])];
      handles := handles + {g};
      log := log.(gsubmitted := log.gsubmitted[g := []], gdone := log.gdone[g := []]);
    }

    method TaskGroupDestroy(g: Gid)
      requires Inv(St()) && Enabled(St(), EDestroy(g))
      modifies this
      ensures Safe(old(St()), EDestroy(g)) && St() == Step(old(St()), EDestroy(g)) && Inv(St())
    {
      StepInv(St(), EDestroy(g));
      LastReference(St(), g);
      handles := handles - {g};
      TaskGroupRelease(g);
    }

    // The first half of task_run_in_group, before the mutex: take a reference.
    method Retain(g: Gid)
      requires Inv(St()) && Enabled(St(), EPromise(g))
      modifies this
      ensures Safe(old(St()), EPromise(g)) && St() == Step(old(St()), EPromise(g)) && Inv(St())
    {
      hide Inv;
      StepInv(St(), EPromise(g));
      live := live[g := live[g].(refs := live[g].refs + 1)];
      promised := promised + multiset{g};
    }

    // The second half, under the mutex.
    method RunInGroup(t: Task, g: Gid, ghost w: Wid)
      requires Inv(St()) && Enabled(St(), ESubmitGroup(t, g, w))
      modifies this
      ensures Safe(old(St()), ESubmitGroup(t, g, w)) && St() == Step(old(St()), ESubmitGroup(t, g, w)) && Inv(St())
    {
      hide Inv, Schedule;
      StepInv(St(), ESubmitGroup(t, g, w));
      ghost var s := St();
      if live[g].tasks == [] {
        groups := groups + [g];
        log := log.(arrived := log.arrived + [g]);
      }
      live := live[g := live[g].(tasks := live[g].tasks + [t])];
      promised := promised - multiset{g};
      log := log.(gsubmitted := log.gsubmitted[g := log.gsubmitted[g] + [t]]);
      EnqueueIs(s, t, g);
      TaskSchedule(w);
    }

    // Remove the first group from its queue and start its first task.
    method TakeGroup(w: Wid)
      requires groups != []
      modifies this`groups, this`ws, this`log
      ensures St() == RunGroup(old(St()), w)
    {
      var g := groups[0];
      groups := groups[1..];
      ws := ws.(running := ws.running[w := g]);
      log := log.(dispatched := log.dispatched + [g]);
    }

    // The top of the worker's loop, up to where it waits, exits or runs a task.
    method Loop(w: Wid)
      modifies this
      ensures St() == Dispatch(old(St()), w)
    {
      if tasks == [] && groups == [] {
        if avail == MAX_IDLE_TASK_THREADS {
          num := num - 1;
          return;
        }
        avail := avail + 1;
        ws := ws.(idle := ws.idle + {w});
      } else if tasks != [] {
        var t := tasks[0];
        tasks := tasks[1..];
        ws := ws.(plain := ws.plain[w := t]);
        log := log.(started := log.started + [t]);
      } else {
        TakeGroup(w);
      }
    }

    method ThreadBegins(w: Wid)
      requires Inv(St()) && Enabled(St(), EBegin(w))
      modifies this
      ensures St() == Step(old(St()), EBegin(w)) && Inv(St())
    {
      hide Inv, Dispatch;
      StepInv(St(), EBegin(w));
      ws := ws.(starting := ws.starting - {w});
      Loop(w);
    }

    method ThreadWakes(w: Wid)
      requires Inv(St()) && Enabled(St(), EWake(w))
      modifies this
      ensures St() == Step(old(St()), EWake(w)) && Inv(St())
    {
      hide Inv, Dispatch;
      StepInv(St(), EWake(w));
      ws := ws.(signalled := ws.signalled - {w});
      avail := avail - 1;
      Loop(w);
    }

    // A plain task has returned: look at the groups before going round.
    method PlainReturns(w: Wid)
      requires Inv(St()) && Enabled(St(), EPlainDone(w))
      modifies this
      ensures St() == Step(old(St()), EPlainDone(w)) && Inv(St())
    {
      hide Inv, Dispatch, RunGroup;
      StepInv(St(), EPlainDone(w));
      ws := ws.(plain := ws.plain - {w});
      if groups != [] {
        TakeGroup(w);
      } else {
        Loop(w);
      }
    }

    // A task of group g has returned: only now does it leave the group.
    method GroupTaskReturns(w: Wid, g: Gid)
      requires Inv(St()) && Enabled(St(), EGroupDone(w)) && ws.running[w] == g
      modifies this
      ensures Safe(old(St()), EGroupDone(w)) && St() == Step(old(St()), EGroupDone(w)) && Inv(St())
    {
      hide Inv, Dispatch, Release;
      ghost var s := St();
      StepInv(s, EGroupDone(w));
      var t := live[g].tasks[0];
      live := live[g := live[g].(tasks := live[g].tasks[1..])];
      ws := ws.(running := ws.running - {w});
      log := log.(gdone := log.gdone[g := log.gdone[g] + [t]]);
      if live[g].tasks != [] {
        groups := groups + [g];
        log := log.(arrived := log.arrived + [g]);
      }
      UnlinkIs(s, w, St());
      LastUnlinked(s, w);
      TaskGroupRelease(g);
      Loop(w);
    }
  }

  // The last reference goes only when no task is left.
  lemma LastReference(s: State, g: Gid)
    requires Inv(s) && g in s.handles
    ensures g in s.live && (s.live[g].refs == 1 ==> s.live[g].tasks == [])
  {
  }

  lemma LastUnlinked(s: State, w: Wid)
    requires Inv(s) && RunsLive(s, w)
    ensures var s1, g := Unlink(s, w), s.ws.running[w];
      g in s1.live && (s1.live[g].refs == 1 ==> s1.live[g].tasks == [])
  {
    UnlinkReferenced(s, w);
  }

  lemma EnqueueIs(s: State, t: Task, g: Gid)
    requires g in s.live && g in s.log.gsubmitted
    ensures s.live[g].tasks != [] ==> Enqueue(s, t, g).groups == s.groups && Enqueue(s, t, g).log.arrived == s.log.arrived
  {
  }

  lemma UnlinkIs(s: State, w: Wid, s1: State)
    requires RunsLive(s, w)
    requires var g := s.ws.running[w];
      var rest := s.live[g].tasks[1..];
      s1 == s.(ws := s.ws.(running := s.ws.running - {w}),
               live := s.live[g := s.live[g].(tasks := rest)],
               groups := if rest != [] then s.groups + [g] else s.groups,
               log := s.log.(gdone := s.log.gdone[g := s.log.gdone[g] + [s.live[g].tasks[0]]],
                             arrived := if rest != [] then s.log.arrived + [g] else s.log.arrived))
    ensures s1 == Unlink(s, w)
  {
  }
}
