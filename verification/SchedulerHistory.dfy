/** What a process finds when it runs again, and what the event log says about the processes. */
module SchedulerHistory {
  import opened Bytes
  import opened SchedulerModel
  import opened SchedulerInvariant
  import opened SchedulerWaiting

  ghost function Proc(s: State, p: Pid): Pcb
    requires Has(s, p)
  {
    s.procs[Find(s.procs, p)]
  }

  function Saved(s: State, b: Pcb): Pcb {
    if b.pid == s.current then b.(ctx := s.ctx) else b
  }

  /** The event an operation emits. */
  function Emitted(s: State, op: Op): seq<Event> {
    match op
    case BlockUntil(_) => [Event(BlockedEvent, s.current)]
    case ExitSelf => [Event(Exited, s.current)]
    case KillPid(pid) => [Event(Exited, pid)]
    case ForkSelf(_, _) => [Event(CreatedEvent, s.next)]
    case _ => []
  }

  /** What an operation makes of one process. */
  function After(s: State, op: Op, b: Pcb): Pcb {
    match op
    case User(_) => b
    case Prioritise(_, _) => b
    case Yield => Saved(s, b)
    case BlockUntil(until) =>
      var e := Event(BlockedEvent, s.current);
      if b.pid == s.current then Woken(b.(ctx := s.ctx, blockedUntil := until, status := Blocked), e).(ctx := s.ctx)
      else Woken(b, e)
    case ExitSelf =>
      if b.pid == s.current then b.(ctx := s.ctx, status := Terminated) else Woken(b, Event(Exited, s.current))
    case KillPid(pid) =>
      if b.pid == pid then Saved(s, b).(status := Terminated) else Woken(Saved(s, b), Event(Exited, pid))
    case ForkSelf(_, _) => Woken(b, Event(CreatedEvent, s.next))
    case ExecSelf(pc, argc, argv) =>
      if b.pid == s.current
      then b.(ctx := s.ctx.WithRegister(0, argc).WithRegister(1, argv).(pc := pc), status := Running)
      else b
  }

  /** Every process becomes what `After` says, the log grows by what is emitted, and pids stay in place. */
  ghost predicate Follows(s: State, op: Op, s': State) {
    && |s.procs| <= |s'.procs| && s.next <= s'.next
    && (forall i :: 0 <= i < |s.procs| ==> s'.procs[i] == After(s, op, s.procs[i]))
    && s'.events == s.events + Emitted(s, op)
  }

  lemma ByPid(s: State, i: nat)
    requires Queued(s) && i < |s.procs| && Has(s, s.current)
    ensures s.procs[i].pid == s.current <==> i == Find(s.procs, s.current)
  {
  }

  /** The processes after another one is switched in and process `pid` marked terminated. */
  lemma TerminateProcs(s: State, pid: Pid)
    requires Inv(s) && Has(s, pid) && Leave(s, pid).low != []
    ensures var done := SetStatus(Run(Leave(s, pid)), pid, Terminated);
      && Consistent(done) && |done.procs| == |s.procs| && done.events == s.events && done.next == s.next
      && (forall i :: 0 <= i < |s.procs| ==>
            done.procs[i] ==
            if s.procs[i].pid == pid then Saved(s, s.procs[i]).(status := Terminated) else Saved(s, s.procs[i]))
      && done.current != pid && Has(s, done.current) && done.ctx == Saved(s, Proc(s, done.current)).ctx
      && done.current in s.low
  {
    hide Find, Run, Leave, SetStatus, Without, Chosen, Rotate;
    var left := Leave(s, pid);
    LeaveQueued(s, pid);
    RunEffect(left);
    RunQueued(left);
    TerminateKeeps(s, pid);
    var ran := Run(left);
    FindSame(s.procs, ran.procs, pid);
    SetStatusEffect(ran, pid, Terminated);
    FindSame(s.procs, ran.procs, ran.current);
    forall i | 0 <= i < |s.procs|
      ensures SetStatus(ran, pid, Terminated).procs[i]
           == if s.procs[i].pid == pid then Saved(s, s.procs[i]).(status := Terminated) else Saved(s, s.procs[i])
    {
      ByPid(s, i);
      FindAt(s, i);
    }
  }

  lemma TerminateFollows(s: State, op: Op, pid: Pid)
    requires Inv(s) && Allowed(s, op) && (op.ExitSelf? || op.KillPid?)
    requires pid == (if op.ExitSelf? then s.current else op.pid)
    ensures Follows(s, op, Apply(s, op))
    ensures var s' := Apply(s, op);
      && s'.current != pid && Has(s, s'.current)
      && s'.ctx == Saved(s, Proc(s, s'.current)).ctx
      && Runnable(Proc(s, s'.current))
  {
    hide Find, Run, Leave, Emit, SetStatus, Woken;
    CurrentAwake(s);
    TerminateProcs(s, pid);
    TerminateKeeps(s, pid);
    var done := SetStatus(Run(Leave(s, pid)), pid, Terminated);
    EmitKeeps(done, Event(Exited, pid));
    forall i | 0 <= i < |s.procs| ensures Apply(s, op).procs[i] == After(s, op, s.procs[i]) {
      TerminatedSleeps(done.procs[i], Event(Exited, pid));
    }
  }

  lemma TerminatedSleeps(b: Pcb, e: Event)
    ensures b.status != Blocked ==> Woken(b, e) == b
  {
  }

  lemma BlockFollows(s: State, until: Event)
    requires Inv(s) && Allowed(s, BlockUntil(until))
    ensures Follows(s, BlockUntil(until), BlockProcess(s, until))
    ensures var s' := BlockProcess(s, until);
      && Has(s, s'.current)
      && s'.ctx == (if s'.current == s.current then s.ctx
                    else Woken(Proc(s, s'.current), Event(BlockedEvent, s.current)).ctx)
  {
    hide Find, Run, Marked, Emit, BlockCurrent, Without, Chosen, Rotate;
    MarkedKeeps(s, until);
    var e := Event(BlockedEvent, s.current);
    var m := Marked(s, until);
    EmitKeeps(m, e);
    var b := BlockCurrent(s, until);
    FindSame(s.procs, b.procs, s.current);
    RunEffect(b);
    var s' := BlockProcess(s, until);
    FindSame(s.procs, s'.procs, s'.current);
    FindSame(s.procs, b.procs, s'.current);
    forall i | 0 <= i < |s.procs| ensures s'.procs[i] == After(s, BlockUntil(until), s.procs[i]) {
      ByPid(s, i);
    }
  }

  lemma ApplyFollows(s: State, op: Op)
    requires Inv(s) && Allowed(s, op)
    ensures Follows(s, op, Apply(s, op))
  {
    hide Find, Run, BlockProcess, Exit, Kill, Fork, Exec, Without, Woken;
    match op
    case User(_) =>
    case Prioritise(_, _) =>
    case Yield =>
      InvQueued(s);
      RunEffect(s);
      forall i | 0 <= i < |s.procs| ensures Run(s).procs[i] == Saved(s, s.procs[i]) {
        ByPid(s, i);
      }
    case BlockUntil(until) => BlockFollows(s, until);
    case ExitSelf => TerminateFollows(s, op, s.current);
    case KillPid(pid) => TerminateFollows(s, op, pid);
    case ForkSelf(sp, fp) => ForkFollows(s, sp, fp);
    case ExecSelf(pc, argc, argv) => ExecFollows(s, pc, argc, argv);
  }

  lemma ForkFollows(s: State, sp: nat, fp: nat)
    requires Inv(s)
    ensures Follows(s, ForkSelf(sp, fp), Fork(s, sp, fp))
  {
    hide Find, Born, Emit, Fork, Woken;
    BornKeeps(s, sp, fp);
    BornProcs(s, sp, fp);
    EmitKeeps(Born(s, sp, fp), Event(CreatedEvent, s.next));
  }

  lemma ExecFollows(s: State, pc: nat, argc: nat, argv: nat)
    requires Inv(s)
    ensures Follows(s, ExecSelf(pc, argc, argv), Exec(s, pc, argc, argv))
  {
    hide Find, Exec, Context.WithRegister;
    ExecKeeps(s, pc, argc, argv);
    forall i | 0 <= i < |s.procs|
      ensures Exec(s, pc, argc, argv).procs[i] == After(s, ExecSelf(pc, argc, argv), s.procs[i])
    {
      ByPid(s, i);
    }
  }

  lemma BornProcs(s: State, sp: nat, fp: nat)
    requires Inv(s)
    ensures var b := Born(s, sp, fp);
      b.procs[..|b.procs| - 1] == s.procs && |b.procs| == |s.procs| + 1 && b.events == s.events && b.next == s.next + 1
    ensures forall i :: 0 <= i < |s.procs| ==> Born(s, sp, fp).procs[i] == s.procs[i]
    ensures var child := Born(s, sp, fp).procs[|s.procs|]; child.pid == s.next && child.status == Ready
  {
    hide ChildContext;
  }

  /** The registers a process will find when it runs again. */
  function Resume(b: Pcb): Context {
    if b.status == Blocked then b.ctx.WithRegister(0, U32(b.blockedUntil.from)) else b.ctx
  }

  /** Pids keep their positions, so a process is found where it was. */
  lemma ProcAfter(s: State, op: Op, p: Pid)
    requires Inv(s) && Allowed(s, op) && Has(s, p)
    ensures Has(Apply(s, op), p) && Proc(Apply(s, op), p) == After(s, op, Proc(s, p))
  {
    hide Apply, Find, Allowed;
    ApplyFollows(s, op);
    ApplyKeeps(s, op);
    var i := Find(s.procs, p);
    AfterPid(s, op, s.procs[i]);
    FindAt(Apply(s, op), i);
  }

  lemma AfterPid(s: State, op: Op, b: Pcb)
    ensures After(s, op, b).pid == b.pid
  {
  }

  /** A process that is not running keeps the registers it will resume with, whatever the others do, and
      gets exactly those when it is switched in. */
  lemma WaitingKeepsContext(s: State, op: Op, p: Pid)
    requires Inv(s) && Allowed(s, op) && Has(s, p) && p != s.current
    ensures var s' := Apply(s, op);
      && Has(s', p)
      && (s'.current == p ==> s'.ctx == Resume(Proc(s, p)))
      && (s'.current != p && Proc(s', p).status != Terminated ==> Resume(Proc(s', p)) == Resume(Proc(s, p)))
  {
    hide Find, Run, BlockProcess, Exit, Kill, Fork, Exec, Leave, BlockCurrent, SetPriority;
    ProcAfter(s, op, p);
    match op
    case Yield =>
      InvQueued(s);
      RunEffect(s);
      FindSame(s.procs, Run(s).procs, p);
      ChosenRunnable(s);
    case BlockUntil(until) =>
      BlockFollows(s, until);
      ApplyKeeps(s, op);
      CurrentAwake(Apply(s, op));
    case ExitSelf => TerminateFollows(s, op, s.current);
    case KillPid(pid) => TerminateFollows(s, op, pid);
    case ForkSelf(sp, fp) => ForkStays(s, sp, fp);
    case ExecSelf(pc, argc, argv) => ExecKeeps(s, pc, argc, argv);
    case Prioritise(_, _) => PriorityStays(s, op.pid, op.priority);
    case User(_) =>
  }

  lemma ForkStays(s: State, sp: nat, fp: nat)
    requires Inv(s)
    ensures Fork(s, sp, fp).current == s.current && Fork(s, sp, fp).ctx == s.ctx
  {
    hide Find, Emit, ChildContext;
    BornKeeps(s, sp, fp);
    EmitKeeps(Born(s, sp, fp), Event(CreatedEvent, s.next));
  }

  /** A forked child is ready to run from where its parent is, with 0 in register 0 and its stack pointer as far
      from its frame pointer as its parent's. */
  lemma ForkedChild(s: State, sp: nat, fp: nat)
    requires Inv(s) && Allowed(s, ForkSelf(sp, fp)) && |s.ctx.gpr| == REGISTERS
    ensures var s' := Fork(s, sp, fp);
      && !Has(s, s.next) && Has(s', s.next) && s.next in s'.low
      && var child := Proc(s', s.next); var ctx := Resume(child);
      && child.status == Ready
      && ctx.pc == s.ctx.pc && ctx.lr == s.ctx.lr && ctx.cpsr == s.ctx.cpsr
      && |ctx.gpr| == REGISTERS && ctx.gpr[0] == 0
      && (forall r :: 1 <= r < REGISTERS && r != 11 ==> ctx.gpr[r] == s.ctx.gpr[r])
      && U32(ctx.gpr[11] - ctx.sp) == U32(s.ctx.gpr[11] - sp)
  {
    hide Find, Emit, ChildContext, Fork, Born, U32;
    FreshPid(s);
    BornKeeps(s, sp, fp);
    BornChild(s, sp, fp);
    EmitKeeps(Born(s, sp, fp), Event(CreatedEvent, s.next));
    FindAt(Fork(s, sp, fp), |s.procs|);
    ChildRegisters(s.ctx, s.stackBreak, sp, fp);
  }

  lemma ChildRegisters(parent: Context, stackBreak: nat, sp: nat, fp: nat)
    requires |parent.gpr| == REGISTERS
    ensures var ctx := ChildContext(parent, stackBreak, sp, fp);
      && ctx.pc == parent.pc && ctx.lr == parent.lr && ctx.cpsr == parent.cpsr
      && |ctx.gpr| == REGISTERS && ctx.gpr[0] == 0
      && (forall r :: 1 <= r < REGISTERS && r != 11 ==> ctx.gpr[r] == parent.gpr[r])
      && U32(ctx.gpr[11] - ctx.sp) == U32(parent.gpr[11] - sp)
  {
    SameDistance(stackBreak, fp, parent.gpr[11], sp);
  }

  lemma BornChild(s: State, sp: nat, fp: nat)
    requires Inv(s)
    ensures |Born(s, sp, fp).procs| == |s.procs| + 1
    ensures var child := Born(s, sp, fp).procs[|s.procs|];
      child.pid == s.next && child.status == Ready && child.ctx == ChildContext(s.ctx, s.stackBreak, sp, fp)
  {
    hide ChildContext;
  }

  lemma SameDistance(top: nat, fp: nat, frame: nat, sp: nat)
    ensures U32(U32(top - U32(fp - frame)) - U32(top - U32(fp - sp))) == U32(frame - sp)
  {
    var m := 0x1_0000_0000;
    var x, y := fp - frame, fp - sp;
    var a, b := top - U32(x), top - U32(y);
    assert U32(x) == x - m * (x / m) && U32(y) == y - m * (y / m);
    assert U32(a) == a - m * (a / m) && U32(b) == b - m * (b / m);
    Shifted(frame - sp, U32(a) - U32(b), x / m - y / m - a / m + b / m);
  }

  lemma Shifted(d: int, e: int, k: int)
    requires e == d + 0x1_0000_0000 * k
    ensures U32(e) == U32(d)
  {
  }

  lemma PriorityStays(s: State, pid: Pid, priority: int)
    ensures var s' := SetPriority(s, pid, priority); s' == s.(high := s'.high, low := s'.low)
  {
    hide Without;
  }

  /** A process that is switched out will resume with its registers as they were, except that one that
      blocked gets the awaited pid in register 0; one that awaited its own blocking does not. */
  lemma SwitchedOutKeepsContext(s: State, op: Op)
    requires Inv(s) && Allowed(s, op) && Apply(s, op).current != s.current
    ensures var s' := Apply(s, op); var p := s.current;
      && Has(s', p)
      && (Proc(s', p).status != Terminated ==>
            Resume(Proc(s', p)) == if op.BlockUntil? && op.until != Event(BlockedEvent, p)
                                   then s.ctx.WithRegister(0, U32(op.until.from)) else s.ctx)
  {
    hide Find, Run, BlockProcess, Exit, Kill, Fork, Exec, Leave, BlockCurrent, SetPriority;
    InvQueued(s);
    ProcAfter(s, op, s.current);
    match op
    case Yield =>
    case BlockUntil(until) =>
    case ExitSelf =>
    case KillPid(pid) => CurrentAwake(s);
    case ForkSelf(sp, fp) => ForkStays(s, sp, fp);
    case ExecSelf(pc, argc, argv) => ExecKeeps(s, pc, argc, argv);
    case Prioritise(_, _) => PriorityStays(s, op.pid, op.priority);
    case User(_) =>
  }

  lemma CurrentAwake(s: State)
    requires Inv(s)
    ensures Has(s, s.current) && Runnable(Proc(s, s.current))
  {
    hide Find;
  }

  /** Terminated is final. */
  lemma TerminatedIsFinal(s: State, op: Op, p: Pid)
    requires Inv(s) && Allowed(s, op) && Has(s, p) && Proc(s, p).status == Terminated
    ensures Has(Apply(s, op), p) && Proc(Apply(s, op), p).status == Terminated
    ensures s.current != p
  {
    hide Find, Apply, Allowed;
    ProcAfter(s, op, p);
    CurrentAwake(s);
  }

  lemma {:induction false} StaysTerminated(run: seq<State>, ops: seq<Op>, p: Pid)
    requires IsRun(run, ops) && Inv(run[0]) && Has(run[0], p) && Proc(run[0], p).status == Terminated
    ensures Inv(run[|ops|]) && Has(run[|ops|], p) && Proc(run[|ops|], p).status == Terminated
    decreases |ops|
  {
    hide Inv, Apply, Allowed, Find;
    if ops != [] {
      TerminatedIsFinal(run[0], ops[0], p);
      ApplyKeeps(run[0], ops[0]);
      TailRun(run, ops);
      StaysTerminated(run[1..], ops[1..], p);
    }
  }

  ghost predicate IsDone(s: State, p: Pid) {
    Has(s, p) && Proc(s, p).status == Terminated
  }

  /** A process that leaves the high queue other than by blocking is done. */
  lemma LeavesDone(s: State, op: Op, p: Pid)
    requires Inv(s) && Allowed(s, op) && p in s.high && Leaves(s, op, p) && !op.BlockUntil?
    ensures IsDone(Apply(s, op), p)
  {
    hide Apply, Find, Leave, Emit;
    ProcAfter(s, op, p);
  }

  /** "All high-priority tasks complete before any low-priority task resumes": at one scheduler run this is broken,
      with a process that was high neither done nor chosen over, exactly when the only process of the high queue
      blocks. */
  lemma PromiseBreaks(s: State, op: Op)
    requires Inv(s) && Allowed(s, op) && RunsScheduler(op) && s.high != []
    ensures var s' := Apply(s, op);
      (s'.current !in s'.high && exists p :: p in s.high && !IsDone(s', p)) <==> op.BlockUntil? && s.high == [s.current]
  {
    hide Apply, Find, Leave, Emit, Allowed, Inv, IsDone;
    var s' := Apply(s, op);
    HighFirst(s, op);
    forall p | p in s.high
      ensures p !in s'.high <==> Leaves(s, op, p)
      ensures Leaves(s, op, p) && !op.BlockUntil? ==> IsDone(s', p)
    {
      LeavesHigh(s, op, p);
      if Leaves(s, op, p) && !op.BlockUntil? {
        LeavesDone(s, op, p);
      }
    }
    assert s.high[0] in s.high;
    if op.BlockUntil? && s.high == [s.current] {
      BlocksAlone(s, op);
    } else if op.BlockUntil? && s'.high == [] {
      OneLeft(s, op);
    }
  }

  lemma BlocksAlone(s: State, op: Op)
    requires Inv(s) && Allowed(s, op) && op.BlockUntil? && s.high == [s.current]
    ensures Apply(s, op).high == [] && !IsDone(Apply(s, op), s.current)
  {
    hide Apply, Find, Leave, Emit;
    var s' := Apply(s, op);
    ProcAfter(s, op, s.current);
    forall p ensures p !in s'.high {
      if p == s.current {
        LeavesHigh(s, op, p);
      } else {
        HighOnlyWhenGiven(s, op, p);
      }
    }
    TwoMembers(s'.high);
  }

  lemma OneLeft(s: State, op: Op)
    requires Inv(s) && Allowed(s, op) && op.BlockUntil? && s.high != [] && Apply(s, op).high == []
    ensures s.high == [s.current]
  {
    hide Apply, Find, Leave, Emit, Allowed;
    forall p | p in s.high ensures p == s.current {
      LeavesHigh(s, op, p);
    }
    TwoMembers(s.high);
  }

  lemma TwoMembers(q: seq<Pid>)
    ensures q == [] || q[0] in q
    ensures Distinct(q) ==> |q| <= 1 || (q[1] in q && q[0] != q[1])
  {
  }

  /** Over any run: a process that is high at some moment and does not block after it stays high until it is done; no
      process without high priority resumes before. */
  lemma {:induction false} HighUntilDone(run: seq<State>, ops: seq<Op>, p: Pid, j: nat, k: nat)
    requires IsRun(run, ops) && Inv(run[0]) && j <= k <= |ops| && p in run[j].high
    requires forall i :: j <= i < k && ops[i].BlockUntil? ==> run[i].current != p
    ensures p in run[k].high || IsDone(run[k], p)
    ensures j < k && RunsScheduler(ops[k - 1]) && run[k].current !in run[k].high ==> IsDone(run[k], p)
  {
    hide Inv, Apply, Allowed, IsDone;
    RunsKeep(run, ops, k);
    if j < k {
      HighUntilDone(run, ops, p, j, k - 1);
      RunsKeep(run, ops, k - 1);
      if RunsScheduler(ops[k - 1]) {
        HighFirst(run[k - 1], ops[k - 1]);
      }
      HighOrDone(run[k - 1], ops[k - 1], p);
    }
  }

  lemma HighOrDone(s: State, op: Op, p: Pid)
    requires Inv(s) && Allowed(s, op) && (p in s.high || IsDone(s, p)) && !(op.BlockUntil? && s.current == p)
    ensures p in Apply(s, op).high || IsDone(Apply(s, op), p)
  {
    hide Inv, Apply, Allowed;
    if IsDone(s, p) {
      TerminatedIsFinal(s, op, p);
    } else {
      LeavesHigh(s, op, p);
      if Leaves(s, op, p) {
        LeavesDone(s, op, p);
      }
    }
  }

  /** A run from the start: the shell forks a job and gives it high priority, the job runs and waits for the shell's
      end, and the shell, of low priority, resumes. */
  lemma HighJobWaits(ctx: Context, stackTop: nat, sp: nat, fp: nat) returns (run: seq<State>)
    ensures IsRun(run, [ForkSelf(sp, fp), Prioritise(2, 0), Yield, BlockUntil(Event(Exited, 1))])
    ensures run[0] == Initial(ctx, stackTop)
    ensures run[3].current == 2 && run[3].high == [2]
    ensures run[4].current == 1 && run[4].high == [] && Has(run[4], 2) && Proc(run[4], 2).status == Blocked
  {
    hide Inv, Apply, Allowed, Initial, Find, IsRun;
    var ops := [ForkSelf(sp, fp), Prioritise(2, 0), Yield, BlockUntil(Event(Exited, 1))];
    var s0 := Initial(ctx, stackTop);
    JobForked(ctx, stackTop, sp, fp);
    var s1 := Apply(s0, ops[0]);
    ApplyKeeps(s0, ops[0]);
    var s2 := Apply(s1, ops[1]);
    JobRaised(s1);
    ApplyKeeps(s1, ops[1]);
    var s3 := Apply(s2, ops[2]);
    JobRuns(s2);
    ApplyKeeps(s2, ops[2]);
    JobBlocks(s3, Event(Exited, 1));
    run := [s0, s1, s2, s3, Apply(s3, ops[3])];
    FourSteps(run, ops);
  }

  lemma FourSteps(run: seq<State>, ops: seq<Op>)
    requires |run| == 5 && |ops| == 4
    requires Allowed(run[0], ops[0]) && Allowed(run[1], ops[1]) && Allowed(run[2], ops[2]) && Allowed(run[3], ops[3])
    requires run[1] == Apply(run[0], ops[0]) && run[2] == Apply(run[1], ops[1])
    requires run[3] == Apply(run[2], ops[2]) && run[4] == Apply(run[3], ops[3])
    ensures IsRun(run, ops)
  {
    hide Allowed, Apply;
  }

  lemma JobForked(ctx: Context, stackTop: nat, sp: nat, fp: nat)
    ensures var s := Initial(ctx, stackTop); var s' := Apply(s, ForkSelf(sp, fp));
      && Inv(s) && Allowed(s, ForkSelf(sp, fp))
      && s'.high == [] && s'.low == [1, 2] && s'.current == 1
  {
    var s := Initial(ctx, stackTop);
    InitialInv(ctx, stackTop);
    BornKeeps(s, sp, fp);
    ForkStays(s, sp, fp);
    BornChild(s, sp, fp);
    BornProcs(s, sp, fp);
    var born, e := Born(s, sp, fp), Event(CreatedEvent, s.next);
    assert born.procs[0] == s.procs[0];
    hide Born, Fork, Inv, Find;
    NobodyAwaits(Log(born, e), e, 0);
  }

  lemma {:induction false} NobodyAwaits(s: State, e: Event, k: nat)
    requires forall i :: k <= i < |s.procs| ==> !Awaits(s.procs[i], e)
    ensures WakeFrom(s, e, k) == s
    decreases |s.procs| - k
  {
    if k < |s.procs| {
      NobodyAwaits(s, e, k + 1);
    }
  }

  lemma JobRaised(s: State)
    requires s.high == [] && s.low == [1, 2]
    ensures var s' := Apply(s, Prioritise(2, 0));
      Allowed(s, Prioritise(2, 0)) && s'.high == [2] && s'.low == [1, 2] && s'.current == s.current
  {
    assert [1, 2][1..] == [2] && [2][1..] == [] && Without([2], 2) == Without([], 2) == [];
  }

  lemma JobRuns(s: State)
    requires Inv(s) && s.high == [2] && s.low == [1, 2]
    ensures var s' := Apply(s, Yield); Allowed(s, Yield) && s'.current == 2 && s'.high == [2] && s'.low == [1, 2]
  {
    hide Run, Find;
    RunEffect(s);
  }

  lemma JobBlocks(s: State, until: Event)
    requires Inv(s) && s.current == 2 && s.high == [2] && s.low == [1, 2] && until.kind == Exited
    ensures Allowed(s, BlockUntil(until))
    ensures var s' := Apply(s, BlockUntil(until));
      s'.current == 1 && s'.high == [] && Has(s', 2) && Proc(s', 2).status == Blocked
  {
    var op := BlockUntil(until);
    hide Inv, Apply, Find, BlockCurrent, BlockProcess, Leave, Emit, Without, Consistent, Marked, Run;
    CurrentAwake(s);
    JobMayBlock(s, until);
    BlockQueues(s, until);
    BlockIs(s, until);
    ProcAfter(s, op, 2);
  }

  lemma JobMayBlock(s: State, until: Event)
    requires Inv(s) && s.current == 2 && s.high == [2] && s.low == [1, 2]
    ensures Allowed(s, BlockUntil(until))
    ensures Without(s.low, s.current) == [1] && Without(s.high, s.current) == []
  {
    assert [1, 2][1..] == [2] && [2][1..] == [] && Without([2], 2) == Without([], 2) == [];
    hide Inv, Find, BlockCurrent, Leave, Emit, Without, Consistent, Marked;
    MarkedKeeps(s, until);
    EmitKeeps(Marked(s, until), Event(BlockedEvent, s.current));
  }

  lemma BlockIs(s: State, until: Event)
    ensures Apply(s, BlockUntil(until)) == BlockProcess(s, until)
  {
    hide BlockProcess;
  }

  /** Over a whole run: a process that runs again after others ran has the registers that its switch-out
      left it, however many operations the others did in between. */
  lemma {:induction false} ResumesWithItsContext(run: seq<State>, ops: seq<Op>, p: Pid)
    requires IsRun(run, ops) && Inv(run[0]) && ops != []
    requires Has(run[0], p) && run[|ops|].current == p
    requires forall k :: 0 <= k < |ops| ==> run[k].current != p
    ensures run[|ops|].ctx == Resume(Proc(run[0], p))
    decreases |ops|
  {
    hide Inv, Apply, Allowed, Find;
    WaitingKeepsContext(run[0], ops[0], p);
    ApplyKeeps(run[0], ops[0]);
    if |ops| > 1 {
      TailRun(run, ops);
      NotTerminatedLater(run[1..], ops[1..], p);
      ResumesWithItsContext(run[1..], ops[1..], p);
    }
  }

  lemma NotTerminatedLater(run: seq<State>, ops: seq<Op>, p: Pid)
    requires IsRun(run, ops) && Inv(run[0]) && Has(run[0], p) && run[|ops|].current == p
    ensures Proc(run[0], p).status != Terminated
  {
    hide Apply, Allowed, Find;
    if Proc(run[0], p).status == Terminated {
      StaysTerminated(run, ops, p);
      CurrentAwake(run[|ops|]);
    }
  }

  /** The log and the processes agree: an exit is logged exactly for the terminated processes, and nothing a
      blocked process waits for has been logged since it blocked. `since` holds, for each process that
      blocked, the length of the log at that point. */
  ghost predicate LogAgrees(s: State, since: map<Pid, nat>) {
    && (forall i :: 0 <= i < |s.procs| ==>
          (s.procs[i].status == Terminated <==> Event(Exited, s.procs[i].pid) in s.events))
    && (forall e :: e in s.events && e.kind == Exited ==> Has(s, e.from))
    && (forall i :: 0 <= i < |s.procs| && s.procs[i].status == Blocked ==>
          && s.procs[i].pid in since && since[s.procs[i].pid] <= |s.events|
          && s.procs[i].blockedUntil !in s.events[since[s.procs[i].pid]..])
  }

  function Since(s: State, op: Op, since: map<Pid, nat>): map<Pid, nat> {
    if op.BlockUntil? then since[s.current := |s.events|] else since
  }

  lemma LogStillAgrees(s: State, op: Op, since: map<Pid, nat>)
    requires Inv(s) && Allowed(s, op) && LogAgrees(s, since)
    ensures LogAgrees(Apply(s, op), Since(s, op, since))
  {
    hide Find, Apply, Allowed, Since, After;
    var s' := Apply(s, op);
    var since' := Since(s, op, since);
    ApplyFollows(s, op);
    ApplyKeeps(s, op);
    NewProcesses(s, op);
    forall e | e in s'.events && e.kind == Exited ensures Has(s', e.from) {
      EmittedBy(s, op, e);
      if Has(s, e.from) {
        ProcAfter(s, op, e.from);
      }
    }
    forall i | 0 <= i < |s'.procs|
      ensures s'.procs[i].status == Terminated <==> Event(Exited, s'.procs[i].pid) in s'.events
      ensures s'.procs[i].status == Blocked ==>
          && s'.procs[i].pid in since' && since'[s'.procs[i].pid] <= |s'.events|
          && s'.procs[i].blockedUntil !in s'.events[since'[s'.procs[i].pid]..]
    {
      if i < |s.procs| {
        StatusAfter(s, op, since, i);
      } else {
        assert !Has(s, s'.procs[i].pid);
        EmittedBy(s, op, Event(Exited, s'.procs[i].pid));
      }
    }
  }

  /** A process that an operation adds is new, and ready. */
  lemma NewProcesses(s: State, op: Op)
    requires Inv(s) && Allowed(s, op)
    ensures var s' := Apply(s, op);
      forall i :: |s.procs| <= i < |s'.procs| ==> s'.procs[i].status == Ready && !Has(s, s'.procs[i].pid)
  {
    hide Find, Run, BlockProcess, Exit, Kill, Emit, SetPriority, Exec, Fork, Born, BlockCurrent, Leave;
    match op
    case User(_) =>
    case Yield => InvQueued(s); RunEffect(s);
    case Prioritise(pid, priority) => PriorityStays(s, pid, priority);
    case BlockUntil(until) => SameCount(s, op);
    case ExitSelf => SameCount(s, op);
    case KillPid(pid) => SameCount(s, op);
    case ForkSelf(sp, fp) => NewChild(s, sp, fp);
    case ExecSelf(pc, argc, argv) => ExecKeeps(s, pc, argc, argv);
  }

  lemma NewChild(s: State, sp: nat, fp: nat)
    requires Inv(s)
    ensures var s' := Fork(s, sp, fp);
      && |s'.procs| == |s.procs| + 1 && s'.procs[|s.procs|].status == Ready && !Has(s, s'.procs[|s.procs|].pid)
  {
    hide Find, Emit, Fork, Born;
    BornKeeps(s, sp, fp);
    BornProcs(s, sp, fp);
    EmitKeeps(Born(s, sp, fp), Event(CreatedEvent, s.next));
    FreshPid(s);
  }

  lemma FreshPid(s: State)
    requires Inv(s)
    ensures !Has(s, s.next)
  {
  }

  lemma SameCount(s: State, op: Op)
    requires Inv(s) && Allowed(s, op) && (op.BlockUntil? || op.ExitSelf? || op.KillPid?)
    ensures |Apply(s, op).procs| == |s.procs|
  {
    hide Find, Run, Emit, Leave, SetStatus, BlockCurrent, Marked;
    match op
    case BlockUntil(until) =>
      MarkedKeeps(s, until);
      EmitKeeps(Marked(s, until), Event(BlockedEvent, s.current));
      FindSame(s.procs, BlockCurrent(s, until).procs, s.current);
      RunEffect(BlockCurrent(s, until));
    case ExitSelf =>
      CurrentAwake(s);
      TerminateCount(s, s.current);
    case KillPid(pid) => TerminateCount(s, pid);
  }

  lemma TerminateCount(s: State, pid: Pid)
    requires Inv(s) && Has(s, pid) && Leave(s, pid).low != []
    ensures |Emit(SetStatus(Run(Leave(s, pid)), pid, Terminated), Event(Exited, pid)).procs| == |s.procs|
    ensures Run(Leave(s, pid)).current != pid
  {
    hide Find, Run, Emit, Leave, SetStatus;
    InvQueued(s);
    TerminateKeeps(s, pid);
    EmitKeeps(SetStatus(Run(Leave(s, pid)), pid, Terminated), Event(Exited, pid));
  }

  /** An exit in the log after an operation was there before, or is that of the process it terminated. */
  lemma EmittedBy(s: State, op: Op, e: Event)
    requires Inv(s) && Allowed(s, op) && e.kind == Exited
    ensures e in s.events + Emitted(s, op) ==>
              e in s.events || (Has(s, e.from) && After(s, op, Proc(s, e.from)).status == Terminated)
    ensures forall p :: Has(s, p) && After(s, op, Proc(s, p)).status == Terminated ==>
              Proc(s, p).status == Terminated || Event(Exited, p) in Emitted(s, op)
  {
    hide Find, Leave;
    InvQueued(s);
  }

  /** The log and one process after an operation. */
  lemma StatusAfter(s: State, op: Op, since: map<Pid, nat>, i: nat)
    requires Inv(s) && Allowed(s, op) && LogAgrees(s, since) && i < |s.procs|
    ensures var b := After(s, op, s.procs[i]);
      var events, since' := s.events + Emitted(s, op), Since(s, op, since);
      && (b.status == Terminated <==> Event(Exited, b.pid) in events)
      && (b.status == Blocked ==>
            && b.pid in since' && since'[b.pid] <= |events| && b.blockedUntil !in events[since'[b.pid]..])
  {
    hide Find, Leave, BlockCurrent;
    var b := s.procs[i];
    FindAt(s, i);
    CurrentAwake(s);
    TerminatedAfter(s, op, i);
    var events := s.events + Emitted(s, op);
    if After(s, op, b).status == Blocked {
      if op.BlockUntil? && b.pid == s.current {
        assert events[|s.events|..] == Emitted(s, op);
      } else {
        var from := since[b.pid];
        assert events[from..] == s.events[from..] + Emitted(s, op);
      }
    }
  }

  lemma TerminatedAfter(s: State, op: Op, i: nat)
    requires Inv(s) && Allowed(s, op) && i < |s.procs|
    requires s.procs[i].status == Terminated <==> Event(Exited, s.procs[i].pid) in s.events
    ensures var b := After(s, op, s.procs[i]);
      b.status == Terminated <==> Event(Exited, b.pid) in s.events + Emitted(s, op)
  {
    hide Find, Leave, BlockCurrent;
    FindAt(s, i);
    CurrentAwake(s);
  }

  /** The points at which processes blocked, over a run. */
  function SinceOver(run: seq<State>, ops: seq<Op>): map<Pid, nat>
    requires |run| == |ops| + 1
  {
    if ops == [] then map[] else Since(run[|ops| - 1], ops[|ops| - 1], SinceOver(run[..|ops|], ops[..|ops| - 1]))
  }

  /** Over every run from the initial state the log agrees with the processes. */
  lemma {:induction false} LogAgreesOver(run: seq<State>, ops: seq<Op>, ctx: Context, stackTop: nat)
    requires IsRun(run, ops) && run[0] == Initial(ctx, stackTop)
    ensures Inv(run[|ops|]) && LogAgrees(run[|ops|], SinceOver(run, ops))
  {
    hide Apply, Allowed, Inv, LogAgrees, Since;
    InitialInv(ctx, stackTop);
    if ops == [] {
      InitialLog(ctx, stackTop);
    } else {
      var n := |ops| - 1;
      assert IsRun(run[..n + 1], ops[..n]) by {
        assert forall k :: 0 <= k < n ==> Allowed(run[k], ops[k]) && run[k + 1] == Apply(run[k], ops[k]);
      }
      LogAgreesOver(run[..n + 1], ops[..n], ctx, stackTop);
      LogStillAgrees(run[n], ops[n], SinceOver(run[..n + 1], ops[..n]));
      ApplyKeeps(run[n], ops[n]);
    }
  }

  lemma InitialLog(ctx: Context, stackTop: nat)
    ensures LogAgrees(Initial(ctx, stackTop), map[])
  {
  }

  /** So asking without waiting whether a process has exited is answered truthfully. */
  lemma NoHangTellsTheTruth(s: State, since: map<Pid, nat>, p: Pid)
    requires Inv(s) && LogAgrees(s, since) && 0 < p
    ensures HasOccurred(s, Event(Exited, p)) == if Has(s, p) && Proc(s, p).status == Terminated then p else 0
  {
    hide Find;
  }
}
