/** The scheduler's state and what each of its routines does to it. */
module SchedulerModel {
  import opened Bytes

  type Pid = int

  const REGISTERS := 13

  /** A saved register context; the scheduler only copies it, apart from registers 0, 1, 11, sp and pc. */
  datatype Context = Context(cpsr: nat, pc: nat, gpr: seq<nat>, sp: nat, lr: nat) {
    function WithRegister(r: nat, x: nat): Context {
      if r < |gpr| then this.(gpr := gpr[r := x]) else this
    }
  }

  datatype Status = Running | Ready | Blocked | Terminated

  datatype Kind = Exited | Suspended | Unsuspended | BlockedEvent | Unblocked | CreatedEvent

  datatype Event = Event(kind: Kind, from: Pid)

  datatype Pcb = Pcb(pid: Pid, ctx: Context, status: Status, blockedUntil: Event)

  /** The globals of the scheduler, and the context handed to each of its routines. */
  datatype State = State(
    ctx: Context,
    current: Pid,
    next: Pid,
    procs: seq<Pcb>,
    high: seq<Pid>,
    low: seq<Pid>,
    events: seq<Event>,
    stackBreak: nat)

  /** Position of a process in the process list, or -1. */
  function Find(procs: seq<Pcb>, pid: Pid): (i: int)
    ensures -1 <= i < |procs|
    ensures i != -1 ==> procs[i].pid == pid && forall j :: 0 <= j < i ==> procs[j].pid != pid
    ensures i == -1 ==> forall j :: 0 <= j < |procs| ==> procs[j].pid != pid
  {
    if procs == [] then -1
    else if procs[0].pid == pid then 0
    else var j := Find(procs[1..], pid); if j == -1 then -1 else j + 1
  }

  /** The queue without a pid, the others in order. */
  function Without(q: seq<Pid>, pid: Pid): (r: seq<Pid>) {
    if q == [] then []
    else if q[0] == pid then Without(q[1..], pid)
    else [q[0]] + Without(q[1..], pid)
  }

  function SaveCurrent(s: State): State {
    var i := Find(s.procs, s.current);
    if i == -1 then s else s.(procs := s.procs[i := s.procs[i].(ctx := s.ctx)])
  }

  function RunProcess(s: State, pid: Pid): State {
    var i := Find(s.procs, pid);
    if i == -1 then s else s.(ctx := s.procs[i].ctx, current := pid)
  }

  function SetStatus(s: State, pid: Pid, status: Status): State {
    var i := Find(s.procs, pid);
    if i == -1 then s else s.(procs := s.procs[i := s.procs[i].(status := status)])
  }

  /** Priority 0 falls through to priority 1: a pid leaves both queues. */
  function RemovePid(s: State, pid: Pid, priority: int): State {
    if priority == 0 then s.(high := Without(s.high, pid), low := Without(s.low, pid))
    else if priority == 1 then s.(low := Without(s.low, pid))
    else s
  }

  /** Priority 0 falls through to priority 1: a pid joins both queues. */
  function AddPid(s: State, pid: Pid, priority: int): State {
    if priority == 0 then s.(high := s.high + [pid], low := s.low + [pid])
    else if priority == 1 then s.(low := s.low + [pid])
    else s
  }

  function SetPriority(s: State, pid: Pid, priority: int): State {
    AddPid(RemovePid(s, pid, priority), pid, priority)
  }

  function Rotate(q: seq<Pid>): seq<Pid> {
    if q == [] then [] else q[1..] + [q[0]]
  }

  /** The pid at the front of the high queue, or of the low one when the high one is empty. */
  function Chosen(s: State): Pid {
    if s.high != [] then s.high[0] else if s.low != [] then s.low[0] else -1
  }

  /** `scheduler_run`: the front of the queue goes to its back, and its process is switched in. */
  function Run(s: State): State {
    var rotated := if s.high != [] then s.(high := Rotate(s.high)) else s.(low := Rotate(s.low));
    RunProcess(SaveCurrent(rotated), Chosen(s))
  }

  /** A process that an event finds waiting for it. */
  predicate Awaits(b: Pcb, e: Event) {
    b.status == Blocked && b.blockedUntil == e
  }

  /** The process woken: register 0 gets the pid it waited for. */
  function Woken(b: Pcb, e: Event): Pcb {
    if Awaits(b, e) then b.(status := Running, ctx := b.ctx.WithRegister(0, U32(e.from))) else b
  }

  function Wake(s: State, e: Event, k: nat): State
    requires k < |s.procs|
  {
    if Awaits(s.procs[k], e)
    then SetPriority(s.(procs := s.procs[k := Woken(s.procs[k], e)]), s.procs[k].pid, 1)
    else s
  }

  function WakeFrom(s: State, e: Event, k: nat): State
    decreases |s.procs| - k
  {
    if |s.procs| <= k then s else WakeFrom(Wake(s, e, k), e, k + 1)
  }

  function Log(s: State, e: Event): State {
    if e.kind == Suspended || e.kind == Unsuspended then s else s.(events := s.events + [e])
  }

  function Emit(s: State, e: Event): State {
    WakeFrom(Log(s, e), e, 0)
  }

  /** `scheduler_block_process` up to the point where another process is looked for. */
  function BlockCurrent(s: State, until: Event): State {
    var saved := SaveCurrent(s);
    var i := Find(saved.procs, s.current);
    var marked := if i == -1 then saved
      else saved.(procs := saved.procs[i := saved.procs[i].(blockedUntil := until, status := Blocked)]);
    Emit(RemovePid(RemovePid(marked, s.current, 0), s.current, 1), Event(BlockedEvent, s.current))
  }

  function BlockProcess(s: State, until: Event): State {
    Run(BlockCurrent(s, until))
  }

  function Leave(s: State, pid: Pid): State {
    RemovePid(RemovePid(s, pid, 0), pid, 1)
  }

  function Exit(s: State): State {
    var switched := Run(Leave(s, s.current));
    if switched.current != s.current then
      Emit(SetStatus(switched, s.current, Terminated), Event(Exited, s.current))
    else switched
  }

  function Kill(s: State, pid: Pid): State {
    Emit(SetStatus(Run(Leave(s, pid)), pid, Terminated), Event(Exited, pid))
  }

  /** The context a forked child starts with: 0 from the fork call, and a frame of its own. */
  function ChildContext(ctx: Context, stackBreak: nat, sp: nat, fp: nat): Context {
    var frame := if 11 < |ctx.gpr| then ctx.gpr[11] else 0;
    ctx.WithRegister(0, 0).WithRegister(11, U32(stackBreak - U32(fp - frame))).(sp := U32(stackBreak - U32(fp - sp)))
  }

  function Fork(s: State, sp: nat, fp: nat): State {
    var i := Find(s.procs, s.current);
    if s.current < 1 || i == -1 then s
    else
      var child := s.procs[i].(pid := s.next, status := Ready, ctx := ChildContext(s.ctx, s.stackBreak, sp, fp));
      var born := s.(next := s.next + 1, stackBreak := U32(s.stackBreak - 2000), procs := s.procs + [child]);
      Emit(SetPriority(born, s.next, 1), Event(CreatedEvent, s.next))
  }

  function Exec(s: State, pc: nat, argc: nat, argv: nat): State {
    SetStatus(SaveCurrent(s.(ctx := s.ctx.WithRegister(0, argc).WithRegister(1, argv).(pc := pc))), s.current, Running)
  }

  function HasOccurred(s: State, e: Event): Pid {
    if e in s.events then e.from else 0
  }

  /** What happens to the state between one kernel entry and the next. `User` is the current process
      computing, and whatever the dispatcher writes into its context. */
  datatype Op =
    | User(ctx: Context)
    | Yield
    | BlockUntil(until: Event)
    | ExitSelf
    | KillPid(pid: Pid)
    | Prioritise(pid: Pid, priority: int)
    | ForkSelf(sp: nat, fp: nat)
    | ExecSelf(pc: nat, argc: nat, argv: nat)

  function Apply(s: State, op: Op): State {
    match op
    case User(ctx) => s.(ctx := ctx)
    case Yield => Run(s)
    case BlockUntil(until) => BlockProcess(s, until)
    case ExitSelf => Exit(s)
    case KillPid(pid) => Kill(s, pid)
    case Prioritise(pid, priority) => SetPriority(s, pid, priority)
    case ForkSelf(sp, fp) => Fork(s, sp, fp)
    case ExecSelf(pc, argc, argv) => Exec(s, pc, argc, argv)
  }

  /** What the routines need of their callers: a killed process exists, a prioritised one is runnable, pids
      are left, and when a process leaves the queues another one is there to run. */
  predicate Allowed(s: State, op: Op) {
    match op
    case BlockUntil(until) => BlockCurrent(s, until).low != []
    case ExitSelf => Leave(s, s.current).low != []
    case KillPid(pid) => Find(s.procs, pid) != -1 && Leave(s, pid).low != []
    case Prioritise(pid, _) => pid in s.low
    case ForkSelf(_, _) => s.next < 0x7fff_ffff
    case _ => true
  }
}

/** The invariant of the scheduler, kept by every operation. */
module SchedulerInvariant {
  import opened Bytes
  import opened SchedulerModel

  ghost predicate Has(s: State, pid: Pid) {
    Find(s.procs, pid) != -1
  }

  predicate Runnable(b: Pcb) {
    b.status == Running || b.status == Ready
  }

  /** Pids are unique, positive and below the next one; both queues are free of duplicates; the high queue is
      part of the low one; and the low queue holds exactly the runnable processes. */
  ghost predicate Consistent(s: State) {
    && Queued(s)
    && (forall i :: 0 <= i < |s.procs| ==> (s.procs[i].pid in s.low <==> Runnable(s.procs[i])))
  }

  /** The part of it that says nothing of statuses. */
  ghost predicate Queued(s: State) {
    && (forall i, j :: 0 <= i < j < |s.procs| ==> s.procs[i].pid != s.procs[j].pid)
    && (forall i :: 0 <= i < |s.procs| ==> 0 < s.procs[i].pid < s.next)
    && Distinct(s.high) && Distinct(s.low)
    && (forall p :: p in s.high ==> p in s.low)
    && (forall p :: p in s.low ==> Has(s, p))
  }

  /** And the current process is runnable. */
  ghost predicate Inv(s: State) {
    Consistent(s) && s.current in s.low
  }

  lemma {:induction false} WithoutMembers(q: seq<Pid>, pid: Pid)
    ensures forall p :: p in Without(q, pid) <==> p in q && p != pid
  {
    if q != [] {
      WithoutMembers(q[1..], pid);
    }
  }

  lemma {:induction false} WithoutDistinct(q: seq<Pid>, pid: Pid)
    requires Distinct(q)
    ensures Distinct(Without(q, pid))
  {
    if q != [] {
      assert Distinct(q[1..]) && forall j :: 0 <= j < |q| - 1 ==> q[1..][j] == q[j + 1];
      assert q[0] !in q[1..];
      WithoutMembers(q[1..], pid);
      WithoutDistinct(q[1..], pid);
      assert q[0] !in Without(q[1..], pid);
    }
  }

  lemma {:induction false} WithoutAbsent(q: seq<Pid>, pid: Pid)
    requires pid !in q
    ensures Without(q, pid) == q
  {
    if q != [] {
      WithoutAbsent(q[1..], pid);
    }
  }

  lemma RotateSame(q: seq<Pid>)
    ensures forall p :: p in Rotate(q) <==> p in q
    ensures Distinct(q) ==> Distinct(Rotate(q))
  {
    if q != [] {
      assert q == [q[0]] + q[1..];
    }
  }

  /** With unique pids, a position is found by its pid. */
  lemma FindAt(s: State, i: nat)
    requires forall j, k :: 0 <= j < k < |s.procs| ==> s.procs[j].pid != s.procs[k].pid
    requires i < |s.procs|
    ensures Find(s.procs, s.procs[i].pid) == i
  {
  }

  /** Replacing processes by ones with the same pids finds the same positions. */
  lemma {:induction false} FindSame(a: seq<Pcb>, b: seq<Pcb>, pid: Pid)
    requires |a| == |b| && forall i :: 0 <= i < |a| ==> a[i].pid == b[i].pid
    ensures Find(a, pid) == Find(b, pid)
  {
  }

  /** Waking one process: it was in no queue and joins the low one. */
  lemma WakeKeeps(s: State, e: Event, k: nat)
    requires Consistent(s) && k < |s.procs|
    ensures var s' := Wake(s, e, k);
      && Consistent(s')
      && s'.procs == s.procs[k := Woken(s.procs[k], e)]
      && s.low <= s'.low && s' == s.(procs := s'.procs, low := s'.low)
  {
    hide Find;
    var b := s.procs[k];
    if Awaits(b, e) {
      FindAt(s, k);
      WithoutAbsent(s.low, b.pid);
      var s' := Wake(s, e, k);
      assert s'.low == s.low + [b.pid];
      forall p | p in s'.low ensures Has(s', p) {
        FindSame(s.procs, s'.procs, p);
      }
    }
  }

  lemma {:induction false} WakeFromKeeps(s: State, e: Event, k: nat)
    requires Consistent(s) && k <= |s.procs|
    ensures var s' := WakeFrom(s, e, k);
      && Consistent(s')
      && |s'.procs| == |s.procs|
      && (forall i :: 0 <= i < k ==> s'.procs[i] == s.procs[i])
      && (forall i :: k <= i < |s.procs| ==> s'.procs[i] == Woken(s.procs[i], e))
      && s.low <= s'.low && s' == s.(procs := s'.procs, low := s'.low)
    decreases |s.procs| - k
  {
    if k < |s.procs| {
      WakeKeeps(s, e, k);
      hide Wake, Woken, Consistent;
      WakeFromKeeps(Wake(s, e, k), e, k + 1);
    }
  }

  /** Emitting an event wakes exactly the processes that wait for it, and puts them behind the low queue. */
  lemma EmitKeeps(s: State, e: Event)
    requires Consistent(s)
    ensures var s' := Emit(s, e);
      && Consistent(s')
      && |s'.procs| == |s.procs| && (forall i :: 0 <= i < |s.procs| ==> s'.procs[i] == Woken(s.procs[i], e))
      && s.low <= s'.low && s' == Log(s, e).(procs := s'.procs, low := s'.low)
  {
    hide Woken;
    WakeFromKeeps(Log(s, e), e, 0);
  }

  lemma ChosenRunnable(s: State)
    requires Queued(s) && s.low != []
    ensures Chosen(s) in s.low && Has(s, Chosen(s))
  {
    hide Find;
    if s.high != [] {
      assert s.high[0] in s.high;
    }
  }

  /** The state after `scheduler_run`: the queue rotated, the old context saved, the chosen one loaded. */
  lemma RunEffect(s: State)
    requires Queued(s) && s.low != [] && Has(s, s.current)
    ensures var s' := Run(s); var i := Find(s.procs, s.current);
      && s'.procs == s.procs[i := s.procs[i].(ctx := s.ctx)]
      && s'.high == Rotate(s.high) && s'.low == (if s.high == [] then Rotate(s.low) else s.low)
      && s'.current == Chosen(s) && Chosen(s) in s.low && Has(s', s'.current)
      && s'.ctx == s'.procs[Find(s'.procs, s'.current)].ctx
      && s' == s.(procs := s'.procs, high := s'.high, low := s'.low, current := s'.current, ctx := s'.ctx)
  {
    var i := Find(s.procs, s.current);
    var saved := s.procs[i := s.procs[i].(ctx := s.ctx)];
    ChosenRunnable(s);
    FindSame(s.procs, saved, Chosen(s));
  }

  lemma RunQueued(s: State)
    requires Queued(s) && s.low != [] && Has(s, s.current)
    ensures Queued(Run(s)) && forall p :: p in Run(s).low <==> p in s.low
  {
    hide Run, Rotate, Find;
    RunEffect(s);
    RotateSame(s.high);
    RotateSame(s.low);
    var s' := Run(s);
    forall p | p in s'.low ensures Has(s', p) {
      FindSame(s.procs, s'.procs, p);
    }
  }

  lemma RunKeeps(s: State)
    requires Consistent(s) && s.low != [] && Has(s, s.current)
    ensures Inv(Run(s))
  {
    hide Run, Rotate, Find;
    RunEffect(s);
    RunQueued(s);
  }

  lemma LeaveQueued(s: State, pid: Pid)
    requires Queued(s)
    ensures Queued(Leave(s, pid)) && Leave(s, pid) == s.(high := Without(s.high, pid), low := Without(s.low, pid))
    ensures forall p :: p in Leave(s, pid).low <==> p in s.low && p != pid
  {
    hide Find;
    WithoutMembers(s.high, pid);
    WithoutMembers(s.low, pid);
    WithoutDistinct(s.high, pid);
    WithoutDistinct(s.low, pid);
    WithoutAbsent(Without(s.low, pid), pid);
  }

  lemma SetStatusEffect(s: State, pid: Pid, status: Status)
    requires Queued(s) && Has(s, pid)
    ensures var i := Find(s.procs, pid); var s' := SetStatus(s, pid, status);
      && s' == s.(procs := s.procs[i := s.procs[i].(status := status)]) && Queued(s')
  {
    SamePids(s, SetStatus(s, pid, status));
  }

  /** The queues say nothing of what a process is like but its pid. */
  lemma SamePids(s: State, s': State)
    requires Queued(s) && s'.high == s.high && s'.low == s.low && s'.next == s.next
    requires |s'.procs| == |s.procs| && forall i :: 0 <= i < |s.procs| ==> s'.procs[i].pid == s.procs[i].pid
    ensures Queued(s') && forall p :: Find(s'.procs, p) == Find(s.procs, p)
  {
    hide Find;
    forall p ensures Find(s'.procs, p) == Find(s.procs, p) {
      FindSame(s.procs, s'.procs, p);
    }
  }

  /** Removing a process, switching and marking it terminated. */
  lemma TerminateKeeps(s: State, pid: Pid)
    requires Inv(s) && Has(s, pid) && Leave(s, pid).low != []
    ensures var s' := SetStatus(Run(Leave(s, pid)), pid, Terminated);
      Inv(s') && s'.current != pid && Run(Leave(s, pid)).current != pid && s'.next == s.next && |s'.procs| == |s.procs|
  {
    hide Run, Leave, SetStatus, Find, Chosen;
    var left := Leave(s, pid);
    LeaveQueued(s, pid);
    RunEffect(left);
    RunQueued(left);
    var ran := Run(left);
    FindSame(s.procs, ran.procs, pid);
    SetStatusEffect(ran, pid, Terminated);
    assert forall i :: 0 <= i < |s.procs| ==> ran.procs[i] == s.procs[i].(ctx := ran.procs[i].ctx);
    Marks(s, ran, SetStatus(ran, pid, Terminated), pid, Find(s.procs, pid));
  }

  /** A process taken out of the queues and then marked terminated. */
  lemma Marks(s: State, left: State, s': State, pid: Pid, at: nat)
    requires Consistent(s) && at < |s.procs| && s.procs[at].pid == pid
    requires |left.procs| == |s.procs|
    requires forall i :: 0 <= i < |s.procs| ==> left.procs[i] == s.procs[i].(ctx := left.procs[i].ctx)
    requires forall p :: p in s'.low <==> p in s.low && p != pid
    requires s'.procs == left.procs[at := left.procs[at].(status := Terminated)] && Queued(s')
    ensures Consistent(s')
  {
    hide Has, Distinct;
  }

  lemma ExitKeeps(s: State)
    requires Inv(s) && Allowed(s, ExitSelf)
    ensures Inv(Exit(s))
  {
    hide Run, Leave, SetStatus, Find, Emit;
    TerminateKeeps(s, s.current);
    EmitKeeps(SetStatus(Run(Leave(s, s.current)), s.current, Terminated), Event(Exited, s.current));
  }

  lemma KillKeeps(s: State, pid: Pid)
    requires Inv(s) && Allowed(s, KillPid(pid))
    ensures Inv(Kill(s, pid))
  {
    hide Run, Leave, SetStatus, Find, Emit;
    TerminateKeeps(s, pid);
    EmitKeeps(SetStatus(Run(Leave(s, pid)), pid, Terminated), Event(Exited, pid));
  }

  /** The current process saved, marked blocked and taken out of the queues. */
  function Marked(s: State, until: Event): State {
    var i := Find(s.procs, s.current);
    if i == -1 then s
    else
      var b := s.procs[i].(ctx := s.ctx, blockedUntil := until, status := Blocked);
      Leave(s.(procs := s.procs[i := b]), s.current)
  }

  lemma MarkedKeeps(s: State, until: Event)
    requires Inv(s)
    ensures Consistent(Marked(s, until))
    ensures var i := Find(s.procs, s.current);
      && i != -1
      && var b := s.procs[i].(ctx := s.ctx, blockedUntil := until, status := Blocked);
      Marked(s, until) == s.(procs := s.procs[i := b],
                             high := Without(s.high, s.current), low := Without(s.low, s.current))
    ensures BlockCurrent(s, until) == Emit(Marked(s, until), Event(BlockedEvent, s.current))
  {
    var i := Find(s.procs, s.current);
    var marked := s.(procs := s.procs[i := s.procs[i].(ctx := s.ctx, blockedUntil := until, status := Blocked)]);
    assert i != -1;
    MarkedSteps(s, until);
    hide Find, Leave, Emit, Without;
    SamePids(s, marked);
    LeaveQueued(marked, s.current);
    forall j | 0 <= j < |s.procs| && j != i ensures s.procs[j].pid != s.current {
      FindAt(s, j);
    }
  }

  lemma MarkedSteps(s: State, until: Event)
    requires Has(s, s.current)
    ensures BlockCurrent(s, until) == Emit(Marked(s, until), Event(BlockedEvent, s.current))
  {
    hide Emit, Without;
    var i := Find(s.procs, s.current);
    var saved := s.procs[i := s.procs[i].(ctx := s.ctx)];
    FindSame(s.procs, saved, s.current);
    assert saved[i := saved[i].(blockedUntil := until, status := Blocked)]
        == s.procs[i := s.procs[i].(ctx := s.ctx, blockedUntil := until, status := Blocked)];
  }

  lemma BlockKeeps(s: State, until: Event)
    requires Inv(s) && Allowed(s, BlockUntil(until))
    ensures Inv(BlockProcess(s, until))
  {
    hide Run, Marked, Find, Emit, BlockCurrent;
    MarkedKeeps(s, until);
    var e := Event(BlockedEvent, s.current);
    EmitKeeps(Marked(s, until), e);
    FindSame(s.procs, Emit(Marked(s, until), e).procs, s.current);
    RunKeeps(Emit(Marked(s, until), e));
  }

  lemma SetPriorityKeeps(s: State, pid: Pid, priority: int)
    requires Inv(s) && pid in s.low
    ensures Inv(SetPriority(s, pid, priority))
  {
    hide Find, Without;
    Requeued(s.high, pid);
    Requeued(s.low, pid);
  }

  /** A pid taken out of a queue and put at its end. */
  lemma Requeued(q: seq<Pid>, pid: Pid)
    requires Distinct(q)
    ensures Distinct(Without(q, pid) + [pid])
    ensures forall p :: p in Without(q, pid) + [pid] <==> p in q || p == pid
  {
    WithoutMembers(q, pid);
    WithoutDistinct(q, pid);
    assert pid !in Without(q, pid);
  }

  /** Where a process list with one more process finds the old ones. */
  lemma {:induction false} FindAppend(a: seq<Pcb>, b: Pcb, pid: Pid)
    ensures Find(a + [b], pid) == if Find(a, pid) != -1 then Find(a, pid) else if b.pid == pid then |a| else -1
  {
    if a != [] {
      assert (a + [b])[1..] == a[1..] + [b];
      FindAppend(a[1..], b, pid);
    }
  }

  /** The state with the new process listed and queued, before the event. */
  function Born(s: State, sp: nat, fp: nat): State {
    var i := Find(s.procs, s.current);
    if i == -1 then s
    else
      var child := s.procs[i].(pid := s.next, status := Ready, ctx := ChildContext(s.ctx, s.stackBreak, sp, fp));
      s.(next := s.next + 1, stackBreak := U32(s.stackBreak - 2000),
         procs := s.procs + [child], low := s.low + [s.next])
  }

  lemma BornKeeps(s: State, sp: nat, fp: nat)
    requires Inv(s)
    ensures Inv(Born(s, sp, fp)) && Fork(s, sp, fp) == Emit(Born(s, sp, fp), Event(CreatedEvent, s.next))
    ensures s.current >= 1 && Find(s.procs, s.current) != -1 && s.next !in s.low
    ensures Born(s, sp, fp).high == s.high && Born(s, sp, fp).low == s.low + [s.next]
  {
    hide ChildContext, Find, Emit;
    assert forall i :: 0 <= i < |s.procs| ==> s.procs[i].pid != s.next;
    assert s.next !in s.low;
    WithoutAbsent(s.low, s.next);
    var s' := Born(s, sp, fp);
    Joined(s, s', s'.procs[|s.procs|]);
  }

  /** One more process, with the next pid and at the end of the low queue. */
  lemma Joined(s: State, s': State, child: Pcb)
    requires Inv(s) && child.pid == s.next && Runnable(child) && s.next >= 1
    requires s'.procs == s.procs + [child] && s'.low == s.low + [s.next] && s'.high == s.high
    requires s'.current == s.current && s'.next == s.next + 1
    ensures Inv(s')
  {
    hide Find;
    assert s.next !in s.low;
    assert s'.procs[|s.procs|] == child;
    assert forall i :: 0 <= i < |s.procs| ==> s'.procs[i] == s.procs[i];
    forall p | p in s'.low ensures Has(s', p) {
      FindAppend(s.procs, child, p);
    }
  }

  lemma ForkKeeps(s: State, sp: nat, fp: nat)
    requires Inv(s)
    ensures Inv(Fork(s, sp, fp))
  {
    hide Born, Emit, Find, Fork;
    BornKeeps(s, sp, fp);
    EmitKeeps(Born(s, sp, fp), Event(CreatedEvent, s.next));
  }

  lemma ExecKeeps(s: State, pc: nat, argc: nat, argv: nat)
    requires Inv(s)
    ensures Inv(Exec(s, pc, argc, argv))
    ensures var i := Find(s.procs, s.current); var ctx := s.ctx.WithRegister(0, argc).WithRegister(1, argv).(pc := pc);
      && i != -1
      && Exec(s, pc, argc, argv) == s.(ctx := ctx, procs := s.procs[i := s.procs[i].(ctx := ctx, status := Running)])
  {
    var i := Find(s.procs, s.current);
    var ctx := s.ctx.WithRegister(0, argc).WithRegister(1, argv).(pc := pc);
    var saved := s.procs[i := s.procs[i].(ctx := ctx)];
    FindSame(s.procs, saved, s.current);
    var s' := Exec(s, pc, argc, argv);
    assert s'.procs == s.procs[i := s.procs[i].(ctx := ctx, status := Running)];
    hide Find, Exec, Context.WithRegister;
    Replaced(s, s', i, s'.procs[i]);
  }

  /** One process replaced by one with the same pid that is runnable when it was. */
  lemma Replaced(s: State, s': State, i: nat, b: Pcb)
    requires Inv(s) && i < |s.procs| && b.pid == s.procs[i].pid && (Runnable(b) <==> Runnable(s.procs[i]))
    requires s'.procs == s.procs[i := b] && s'.low == s.low && s'.high == s.high
    requires s'.current == s.current && s'.next == s.next
    ensures Inv(s')
  {
    SamePids(s, s');
  }

  /** Every operation the callers are allowed keeps the invariant. */
  lemma ApplyKeeps(s: State, op: Op)
    requires Inv(s) && Allowed(s, op)
    ensures Inv(Apply(s, op))
  {
    hide Run, BlockProcess, Exit, Kill, SetPriority, Fork, Exec, Find, Leave, BlockCurrent;
    match op
    case User(_) =>
    case Yield => assert s.low != []; RunKeeps(s);
    case BlockUntil(until) => BlockKeeps(s, until);
    case ExitSelf => ExitKeeps(s);
    case KillPid(pid) => KillKeeps(s, pid);
    case Prioritise(pid, priority) => SetPriorityKeeps(s, pid, priority);
    case ForkSelf(sp, fp) => ForkKeeps(s, sp, fp);
    case ExecSelf(pc, argc, argv) => ExecKeeps(s, pc, argc, argv);
  }

  ghost predicate IsRun(run: seq<State>, ops: seq<Op>) {
    && |run| == |ops| + 1
    && forall k :: 0 <= k < |ops| ==> Allowed(run[k], ops[k]) && run[k + 1] == Apply(run[k], ops[k])
  }

  /** So every state of every allowed run satisfies it. */
  lemma {:induction false} RunsKeep(run: seq<State>, ops: seq<Op>, k: nat)
    requires IsRun(run, ops) && Inv(run[0]) && k <= |ops|
    ensures Inv(run[k])
  {
    hide Inv, Apply, Allowed;
    if k != 0 {
      RunsKeep(run, ops, k - 1);
      ApplyKeeps(run[k - 1], ops[k - 1]);
    }
  }

  /** The state `scheduler_initialise` sets up: one process, the shell. */
  function Initial(ctx: Context, stackTop: nat): State {
    State(ctx, 1, 2, [Pcb(1, ctx, Running, Event(Exited, 0))], [], [1], [], U32(stackTop - 2000))
  }

  lemma InitialInv(ctx: Context, stackTop: nat)
    ensures Inv(Initial(ctx, stackTop))
  {
    assert Find(Initial(ctx, stackTop).procs, 1) == 0;
  }
}
