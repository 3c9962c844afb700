/** The scheduler as it runs: globals that every routine updates in place. Each routine takes the state to what
    the functions of `SchedulerModel` say, so what is proved of those holds of the routines. */
module SchedulerRoutines {
  import opened Bytes
  import opened SchedulerModel
  import opened SchedulerInvariant

  class Scheduler {
    /** The context of the interrupted process; the routines get it by reference and leave in it the one to
        return to. */
    var ctx: Context
    var currentPid: Pid
    var nextPid: Pid
    var stackBreak: nat
    var processList: seq<Pcb>
    var highQueue: seq<Pid>
    var lowQueue: seq<Pid>
    var events: seq<Event>

    ghost function State(): SchedulerModel.State
      reads this
    {
      SchedulerModel.State(ctx, currentPid, nextPid, processList, highQueue, lowQueue, events, stackBreak)
    }

    constructor (ctx: Context, entry: nat, stackTop: nat)
      ensures State() == Started(ctx, entry, stackTop)
    {
      var shell := Context(0x50, entry, ctx.gpr, stackTop, ctx.lr);
      this.ctx := shell;
      currentPid := 1;
      nextPid := 2;
      stackBreak := U32(stackTop - 2000);
      processList := [Pcb(1, shell, Running, Event(Exited, 0))];
      highQueue := [];
      lowQueue := [1];
      events := [];
    }

    method FindProcess(pid: Pid) returns (found: int)
      ensures found == Find(processList, pid)
    {
      found := 0;
      while found < |processList|
        invariant 0 <= found <= |processList|
        invariant forall j :: 0 <= j < found ==> processList[j].pid != pid
      {
        if processList[found].pid == pid {
          return;
        }
        found := found + 1;
      }
      found := -1;
    }

    method SaveCurrentProcess()
      requires Find(processList, currentPid) != -1
      modifies this`processList
      ensures State() == SaveCurrent(old(State()))
    {
      var i := FindProcess(currentPid);
      processList := processList[i := processList[i].(ctx := ctx)];
    }

    method RunProcess(pid: Pid)
      requires Find(processList, pid) != -1
      modifies this`ctx, this`currentPid
      ensures State() == SchedulerModel.RunProcess(old(State()), pid)
    {
      var i := FindProcess(pid);
      ctx := processList[i].ctx;
      currentPid := pid;
    }

    method SetStatus(pid: Pid, status: Status)
      requires Find(processList, pid) != -1
      modifies this`processList
      ensures State() == SchedulerModel.SetStatus(old(State()), pid, status)
    {
      var i := FindProcess(pid);
      processList := processList[i := processList[i].(status := status)];
    }

    /** Priority 0 falls through into priority 1. */
    method RemovePid(pid: Pid, priority: int)
      modifies this`highQueue, this`lowQueue
      ensures State() == SchedulerModel.RemovePid(old(State()), pid, priority)
    {
      hide Scanned;
      ScanEnds(highQueue, pid);
      ScanEnds(lowQueue, pid);
      if priority == 0 {
        var i := 0;
        while i < |highQueue|
          invariant 0 <= i <= |highQueue| && Scanned(highQueue, i, pid, Without(old(highQueue), pid))
          invariant lowQueue == old(lowQueue)
          decreases |highQueue| - i
        {
          ScanNext(highQueue, i, pid, Without(old(highQueue), pid));
          if highQueue[i] == pid {
            highQueue := highQueue[..i] + highQueue[i + 1..];
          } else {
            i := i + 1;
          }
        }
      }
      if priority == 0 || priority == 1 {
        var i := 0;
        while i < |lowQueue|
          invariant 0 <= i <= |lowQueue| && Scanned(lowQueue, i, pid, Without(old(lowQueue), pid))
          invariant priority == 0 ==> highQueue == Without(old(highQueue), pid)
          invariant priority == 1 ==> highQueue == old(highQueue)
          decreases |lowQueue| - i
        {
          ScanNext(lowQueue, i, pid, Without(old(lowQueue), pid));
          if lowQueue[i] == pid {
            lowQueue := lowQueue[..i] + lowQueue[i + 1..];
          } else {
            i := i + 1;
          }
        }
      }
    }

    /** Priority 0 falls through into priority 1. */
    method AddPid(pid: Pid, priority: int)
      modifies this`highQueue, this`lowQueue
      ensures State() == SchedulerModel.AddPid(old(State()), pid, priority)
    {
      if priority == 0 {
        highQueue := highQueue + [pid];
      }
      if priority == 0 || priority == 1 {
        lowQueue := lowQueue + [pid];
      }
    }

    method SetPriority(pid: Pid, priority: int)
      modifies this`highQueue, this`lowQueue
      ensures State() == SchedulerModel.SetPriority(old(State()), pid, priority)
    {
      hide SchedulerModel.RemovePid, SchedulerModel.AddPid;
      RemovePid(pid, priority);
      AddPid(pid, priority);
    }

    method GetNextProcess(priority: int) returns (pid: Pid)
      modifies this`highQueue, this`lowQueue
      ensures priority == 0 ==>
                && pid == (if old(highQueue) == [] then -1 else old(highQueue)[0])
                && highQueue == Rotate(old(highQueue)) && lowQueue == old(lowQueue)
      ensures priority == 1 ==>
                && pid == (if old(lowQueue) == [] then -1 else old(lowQueue)[0])
                && lowQueue == Rotate(old(lowQueue)) && highQueue == old(highQueue)
      ensures priority != 0 && priority != 1 ==> pid == -1 && State() == old(State())
    {
      if priority == 0 {
        if highQueue == [] {
          return -1;
        }
        pid := highQueue[0];
        highQueue := highQueue[1..];
        highQueue := highQueue + [pid];
      } else if priority == 1 {
        if lowQueue == [] {
          return -1;
        }
        pid := lowQueue[0];
        lowQueue := lowQueue[1..];
        lowQueue := lowQueue + [pid];
      } else {
        pid := -1;
      }
    }

    method Run()
      requires Queued(State()) && lowQueue != [] && Has(State(), currentPid)
      modifies this`ctx, this`currentPid, this`processList, this`highQueue, this`lowQueue
      ensures State() == SchedulerModel.Run(old(State()))
    {
      hide Find;
      ghost var before := State();
      ChosenRunnable(before);
      var next := GetNextProcess(0);
      if next == -1 {
        next := GetNextProcess(1);
      }
      SaveCurrentProcess();
      FindSame(before.procs, processList, next);
      RunProcess(next);
    }

    method BlockProcess(until: Event) returns (pid: Pid)
      requires Inv(State()) && Allowed(State(), BlockUntil(until))
      modifies this`ctx, this`currentPid, this`processList, this`highQueue, this`lowQueue, this`events
      ensures State() == SchedulerModel.BlockProcess(old(State()), until) && pid == until.from
      ensures Inv(State())
    {
      hide Find, SchedulerModel.RemovePid, Emit, SchedulerModel.Run;
      ghost var before := State();
      MarkedKeeps(before, until);
      BlockKeeps(before, until);
      SaveCurrentProcess();
      FindSame(before.procs, processList, currentPid);
      var i := FindProcess(currentPid);
      processList := processList[i := processList[i].(blockedUntil := until, status := Blocked)];
      RemovePid(currentPid, 0);
      RemovePid(currentPid, 1);
      EmitEvent(Event(BlockedEvent, currentPid));
      EmitKeeps(Marked(before, until), Event(BlockedEvent, currentPid));
      FindSame(before.procs, processList, currentPid);
      Run();
      return until.from;
    }

    /** The pid of the event if it is in the log, or 0. */
    method HasEventOccurred(event: Event) returns (pid: Pid)
      ensures pid == HasOccurred(State(), event)
    {
      var i := 0;
      while i < |events|
        invariant 0 <= i <= |events| && event !in events[..i]
      {
        if events[i].kind == event.kind && events[i].from == event.from {
          return event.from;
        }
        i := i + 1;
      }
      return 0;
    }

    /** `failed` when the exiting process was scheduled again. */
    method Exit() returns (failed: bool)
      requires Inv(State()) && Allowed(State(), ExitSelf)
      modifies this`ctx, this`currentPid, this`processList, this`highQueue, this`lowQueue, this`events
      ensures State() == SchedulerModel.Exit(old(State())) && !failed
      ensures Inv(State())
    {
      hide Emit, SchedulerModel.RemovePid, SchedulerModel.Run, Find, SchedulerModel.SetStatus;
      ExitKeeps(State());
      LeaveQueued(State(), currentPid);
      TerminateKeeps(State(), currentPid);
      RunEffect(Leave(State(), currentPid));
      var exited := currentPid;
      ghost var before := State();
      RemovePid(currentPid, 0);
      RemovePid(currentPid, 1);
      Run();
      FindSame(before.procs, processList, exited);
      failed := currentPid == exited;
      if !failed {
        SetStatus(exited, Terminated);
        EmitEvent(Event(Exited, exited));
      }
    }

    method Kill(pid: Pid) returns (result: int)
      requires Inv(State()) && Allowed(State(), KillPid(pid))
      modifies this`ctx, this`currentPid, this`processList, this`highQueue, this`lowQueue, this`events
      ensures State() == SchedulerModel.Kill(old(State()), pid) && result == 0
      ensures Inv(State())
    {
      hide Emit, SchedulerModel.RemovePid, SchedulerModel.Run, Find, SchedulerModel.SetStatus;
      KillKeeps(State(), pid);
      LeaveQueued(State(), pid);
      RunEffect(Leave(State(), pid));
      ghost var before := State();
      RemovePid(pid, 0);
      RemovePid(pid, 1);
      Run();
      FindSame(before.procs, processList, pid);
      SetStatus(pid, Terminated);
      EmitEvent(Event(Exited, pid));
      return 0;
    }

    method EmitEvent(event: Event)
      modifies this`processList, this`highQueue, this`lowQueue, this`events
      ensures State() == Emit(old(State()), event)
    {
      hide SchedulerModel.SetPriority;
      if event.kind != Suspended && event.kind != Unsuspended {
        events := events + [event];
      }
      var i := 0;
      while i < |processList|
        invariant 0 <= i <= |processList|
        invariant WakeFrom(State(), event, i) == Emit(old(State()), event)
        decreases |processList| - i
      {
        ghost var before := State();
        var item := processList[i];
        if item.status == Blocked {
          if item.blockedUntil.kind == event.kind && item.blockedUntil.from == event.from {
            item := item.(status := Running);
            item := item.(ctx := item.ctx.WithRegister(0, U32(event.from)));
            processList := processList[i := item];
            SetPriority(item.pid, 1);
          }
        }
        assert State() == Wake(before, event, i);
        i := i + 1;
      }
    }

    method SetProcessPriority(pid: Pid, priority: int) returns (result: int)
      modifies this`highQueue, this`lowQueue
      ensures State() == SchedulerModel.SetPriority(old(State()), pid, priority) && result == 0
    {
      SetPriority(pid, priority);
      return 0;
    }

    /** The child's pid, or -1 when no process is running. */
    method Fork(sp: nat, fp: nat) returns (pid: Pid)
      requires Inv(State()) && Allowed(State(), ForkSelf(sp, fp))
      modifies this`nextPid, this`stackBreak, this`processList, this`highQueue, this`lowQueue, this`events
      ensures State() == SchedulerModel.Fork(old(State()), sp, fp)
      ensures pid == if currentPid < 1 then -1 else old(nextPid)
      ensures Inv(State())
    {
      hide Emit, SchedulerModel.SetPriority, Find;
      ForkKeeps(State(), sp, fp);
      if currentPid < 1 {
        return -1;
      }
      pid := nextPid;
      nextPid := nextPid + 1;
      var oldBreak := stackBreak;
      stackBreak := U32(stackBreak - 2000);
      var i := FindProcess(currentPid);
      var child := processList[i];
      child := child.(ctx := ctx);
      child := child.(pid := pid, status := Ready);
      var frame := if 11 < |ctx.gpr| then ctx.gpr[11] else 0;
      child := child.(ctx := child.ctx.WithRegister(0, 0));
      child := child.(ctx := child.ctx.WithRegister(11, U32(oldBreak - U32(fp - frame))));
      child := child.(ctx := child.ctx.(sp := U32(oldBreak - U32(fp - sp))));
      processList := processList + [child];
      SetPriority(pid, 1);
      EmitEvent(Event(CreatedEvent, pid));
    }

    method Exec(pc: nat, argc: nat, argv: nat) returns (pid: Pid)
      requires Inv(State())
      modifies this`ctx, this`processList
      ensures State() == SchedulerModel.Exec(old(State()), pc, argc, argv) && pid == currentPid
      ensures Inv(State())
    {
      hide Find;
      ExecKeeps(State(), pc, argc, argv);
      ghost var before := processList;
      ctx := ctx.(pc := pc);
      ctx := ctx.WithRegister(0, argc);
      ctx := ctx.WithRegister(1, argv);
      SaveCurrentProcess();
      FindSame(before, processList, currentPid);
      SetStatus(currentPid, Running);
      return currentPid;
    }
  }

  /** The state in which the shell, process 1, starts. */
  ghost function Started(ctx: Context, entry: nat, stackTop: nat): SchedulerModel.State {
    Initial(Context(0x50, entry, ctx.gpr, stackTop, ctx.lr), stackTop)
  }

  /** The scan of a queue has dealt with the first `i` of what it holds; `all` is what it is to end with. */
  ghost predicate Scanned(q: seq<Pid>, i: nat, pid: Pid, all: seq<Pid>) {
    i <= |q| && q[..i] + Without(q[i..], pid) == all
  }

  lemma ScanNext(q: seq<Pid>, i: nat, pid: Pid, all: seq<Pid>)
    requires i < |q| && Scanned(q, i, pid, all)
    ensures q[i] == pid ==> Scanned(q[..i] + q[i + 1..], i, pid, all)
    ensures q[i] != pid ==> Scanned(q, i + 1, pid, all)
  {
    assert q[i..][1..] == q[i + 1..];
    assert (q[..i] + q[i + 1..])[i..] == q[i + 1..];
    assert (q[..i] + q[i + 1..])[..i] == q[..i];
    assert q[i] != pid ==> q[..i] + ([q[i]] + Without(q[i + 1..], pid)) == q[..i + 1] + Without(q[i + 1..], pid);
  }

  lemma ScanEnds(q: seq<Pid>, pid: Pid)
    ensures Scanned(q, 0, pid, Without(q, pid))
    ensures forall r: seq<Pid>, all: seq<Pid> :: Scanned(r, |r|, pid, all) ==> r == all
  {
    assert q[0..] == q && q[..0] + Without(q, pid) == Without(q, pid);
    forall r: seq<Pid>, all: seq<Pid> | Scanned(r, |r|, pid, all) ensures r == all {
      assert r[..|r|] + Without(r[|r|..], pid) == r;
    }
  }
}
