/** Bounded waiting: a queued process is chosen after at most as many scheduler runs as there are processes
    in front of it, plus one, whatever the others do. */
module SchedulerWaiting {
  import opened SchedulerModel
  import opened SchedulerInvariant

  /** How many pids are in front of `p`. */
  function Position(q: seq<Pid>, p: Pid): nat {
    if q == [] || q[0] == p then 0 else 1 + Position(q[1..], p)
  }

  lemma {:induction false} PositionWithout(q: seq<Pid>, x: Pid, p: Pid)
    requires x != p
    ensures Position(Without(q, x), p) <= Position(q, p)
  {
    if q != [] {
      PositionWithout(q[1..], x, p);
      if q[0] != x {
        assert Without(q, x)[1..] == Without(q[1..], x);
      }
    }
  }

  lemma {:induction false} PositionPrefix(q: seq<Pid>, r: seq<Pid>, p: Pid)
    requires q <= r && p in q
    ensures Position(r, p) == Position(q, p)
  {
    if q[0] != p {
      assert q[1..] <= r[1..] && p in q[1..];
      PositionPrefix(q[1..], r[1..], p);
    }
  }

  /** Rotating a queue either brings `p`, which was in front, to the back, or moves it one place forward. */
  lemma PositionRotate(q: seq<Pid>, p: Pid)
    requires p in q
    ensures p in Rotate(q)
    ensures q[0] == p || Position(Rotate(q), p) < Position(q, p)
  {
    if q[0] != p {
      assert p in q[1..];
      PositionPrefix(q[1..], Rotate(q), p);
    } else {
      assert Rotate(q)[|q| - 1] == p;
    }
  }

  /** The operation is not about `p`. */
  predicate Spares(s: State, op: Op, p: Pid) {
    match op
    case BlockUntil(_) => s.current != p
    case ExitSelf => s.current != p
    case KillPid(pid) => pid != p
    case Prioritise(pid, _) => pid != p
    case _ => true
  }

  /** The operation runs the scheduler. */
  predicate RunsScheduler(op: Op) {
    op.Yield? || op.BlockUntil? || op.ExitSelf? || op.KillPid?
  }

  /** From `q` to `q'`, `p` stays queued and does not fall back; and if the scheduler ran, it came forward
      unless it was the one chosen. */
  ghost predicate Advances(q: seq<Pid>, q': seq<Pid>, p: Pid, ran: bool, chosen: bool) {
    && p in q'
    && if ran then chosen || Position(q', p) < Position(q, p) else Position(q', p) <= Position(q, p)
  }

  /** What terminating a process does to the queues and the choice. */
  lemma TerminateQueues(s: State, pid: Pid)
    requires Inv(s) && Has(s, pid) && Leave(s, pid).low != []
    ensures var left := Leave(s, pid); var s' := SetStatus(Run(left), pid, Terminated);
      && left.high == Without(s.high, pid) && left.low == Without(s.low, pid)
      && s'.high == Rotate(left.high) && s'.low == (if left.high == [] then Rotate(left.low) else left.low)
      && s'.current == Chosen(left) != pid
      && Consistent(s')
  {
    hide Find, Rotate, Without, Chosen, Run, Leave;
    LeaveQueued(s, pid);
    RunEffect(Leave(s, pid));
    TerminateKeeps(s, pid);
  }

  /** When `pid` leaves the queues, there is a process to switch to exactly when another one is queued; it is another
      one, so `scheduler_exit` never finds that it is still current. */
  lemma SwitchTarget(s: State, pid: Pid)
    requires Inv(s)
    ensures var left := Leave(s, pid);
      && (Find(left.procs, Chosen(left)) != -1 <==> exists p :: p in s.low && p != pid)
      && (left.low != [] <==> exists p :: p in s.low && p != pid)
      && (left.low != [] ==> Run(left).current != pid)
  {
    hide Find, Run, Leave;
    LeaveQueued(s, pid);
    var left := Leave(s, pid);
    if left.low != [] {
      assert left.low[0] in left.low;
      ChosenRunnable(left);
      RunCurrent(left);
    } else {
      assert Chosen(left) == -1 by {
        assert left.high != [] ==> left.high[0] in left.high;
      }
    }
  }

  lemma RunCurrent(s: State)
    requires Has(s, Chosen(s))
    ensures Run(s).current == Chosen(s)
  {
    FindSame(s.procs, SaveCurrent(s).procs, Chosen(s));
  }

  lemma SwitchQueues(s: State, op: Op, p: Pid, pid: Pid)
    requires Inv(s) && Allowed(s, op) && (op.ExitSelf? || op.KillPid?)
    requires pid == (if op.ExitSelf? then s.current else op.pid) && pid != p
    ensures var s' := Apply(s, op); var high, low := Without(s.high, pid), Without(s.low, pid);
      && s'.high == Rotate(high)
      && (high != [] ==> s'.current == high[0])
      && (high == [] ==> low != [] && s'.current == low[0] && Rotate(low) <= s'.low)
      && (high != [] ==> low <= s'.low)
  {
    hide Find, Rotate, Without, Run, Leave, Emit, SetStatus;
    TerminateQueues(s, pid);
    TerminateKeeps(s, pid);
    EmitKeeps(SetStatus(Run(Leave(s, pid)), pid, Terminated), Event(Exited, pid));
    LeaveQueued(s, pid);
  }

  lemma BlockQueues(s: State, until: Event)
    requires Inv(s) && Allowed(s, BlockUntil(until))
    ensures var s' := BlockProcess(s, until); var b := BlockCurrent(s, until);
      && b.high == Without(s.high, s.current) && Without(s.low, s.current) <= b.low && b.low != []
      && s'.high == Rotate(b.high) && s'.low == (if b.high == [] then Rotate(b.low) else b.low)
      && s'.current == Chosen(b)
  {
    hide Find, Rotate, Without, Run, Marked, Emit, BlockCurrent, Chosen;
    MarkedKeeps(s, until);
    var m := Marked(s, until);
    EmitKeeps(m, Event(BlockedEvent, s.current));
    FindSame(s.procs, BlockCurrent(s, until).procs, s.current);
    RunEffect(BlockCurrent(s, until));
  }

  /** A process of the high queue under an operation that is not about it. */
  lemma HighAdvances(s: State, op: Op, p: Pid)
    requires Inv(s) && Allowed(s, op) && p in s.high && Spares(s, op, p)
    ensures var s' := Apply(s, op); Advances(s.high, s'.high, p, RunsScheduler(op), s'.current == p)
  {
    hide Find, Run, Leave, Emit, SetStatus, BlockProcess, Exit, Kill, Born, Fork, Exec;
    match op
    case User(_) =>
    case Yield =>
      assert s.low != [];
      RunEffect(s);
      PositionRotate(s.high, p);
    case BlockUntil(until) =>
      BlockQueues(s, until);
      LeftBehind(s.high, s.current, p);
    case ExitSelf =>
      SwitchQueues(s, op, p, s.current);
      LeftBehind(s.high, s.current, p);
    case KillPid(pid) =>
      SwitchQueues(s, op, p, pid);
      LeftBehind(s.high, pid, p);
    case Prioritise(pid, priority) => Requeueing(s.high, pid, p);
    case ForkSelf(sp, fp) =>
      BornKeeps(s, sp, fp);
      EmitKeeps(Born(s, sp, fp), Event(CreatedEvent, s.next));
    case ExecSelf(pc, argc, argv) =>
      ExecKeeps(s, pc, argc, argv);
  }

  /** Taking another pid out and putting it at the end. */
  lemma Requeueing(q: seq<Pid>, x: Pid, p: Pid)
    requires p in q && x != p
    ensures p in Without(q, x) + [x] && Position(Without(q, x) + [x], p) <= Position(q, p)
  {
    WithoutMembers(q, x);
    PositionWithout(q, x, p);
    PositionPrefix(Without(q, x), Without(q, x) + [x], p);
  }

  /** Taking another pid out and rotating. */
  lemma LeftBehind(q: seq<Pid>, x: Pid, p: Pid)
    requires p in q && x != p
    ensures p in Without(q, x)
    ensures Position(Without(q, x), p) <= Position(q, p)
    ensures p in Rotate(Without(q, x))
    ensures Without(q, x)[0] == p || Position(Rotate(Without(q, x)), p) < Position(q, p)
  {
    WithoutMembers(q, x);
    PositionWithout(q, x, p);
    PositionRotate(Without(q, x), p);
  }

  lemma LowAdvancesPastBlock(s: State, until: Event, p: Pid)
    requires Inv(s) && Allowed(s, BlockUntil(until)) && p in s.low && p != s.current && s.high == []
    ensures var s' := BlockProcess(s, until); Advances(s.low, s'.low, p, true, s'.current == p)
  {
    hide Find, BlockProcess, BlockCurrent, Position, Rotate;
    BlockQueues(s, until);
    LeftBehind(s.low, s.current, p);
    PositionPrefix(Without(s.low, s.current), BlockCurrent(s, until).low, p);
    PositionRotate(BlockCurrent(s, until).low, p);
  }

  lemma LowAdvancesPastSwitch(s: State, op: Op, p: Pid, pid: Pid)
    requires Inv(s) && Allowed(s, op) && (op.ExitSelf? || op.KillPid?) && p in s.low && s.high == []
    requires pid == (if op.ExitSelf? then s.current else op.pid) && pid != p
    ensures var s' := Apply(s, op); Advances(s.low, s'.low, p, true, s'.current == p)
  {
    hide Find, Apply, Leave, Rotate, Position;
    SwitchQueues(s, op, p, pid);
    LeftBehind(s.low, pid, p);
    PositionPrefix(Rotate(Without(s.low, pid)), Apply(s, op).low, p);
  }

  /** A process of the low queue while the high queue is and stays empty. */
  lemma LowAdvances(s: State, op: Op, p: Pid)
    requires Inv(s) && Allowed(s, op) && p in s.low && Spares(s, op, p)
    requires s.high == [] && Apply(s, op).high == []
    ensures var s' := Apply(s, op); Advances(s.low, s'.low, p, RunsScheduler(op), s'.current == p)
  {
    hide Find, Run, Leave, Emit, SetStatus, BlockProcess, Exit, Kill, Born, Fork, Exec, Position, Rotate, Without;
    match op
    case User(_) =>
    case Yield =>
      RunEffect(s);
      PositionRotate(s.low, p);
    case BlockUntil(until) => LowAdvancesPastBlock(s, until, p);
    case ExitSelf => LowAdvancesPastSwitch(s, op, p, s.current);
    case KillPid(pid) => LowAdvancesPastSwitch(s, op, p, pid);
    case Prioritise(pid, priority) => Requeueing(s.low, pid, p);
    case ForkSelf(sp, fp) =>
      BornKeeps(s, sp, fp);
      EmitKeeps(Born(s, sp, fp), Event(CreatedEvent, s.next));
      PositionPrefix(s.low, Apply(s, op).low, p);
    case ExecSelf(pc, argc, argv) =>
      ExecKeeps(s, pc, argc, argv);
  }

  /** Whenever the scheduler runs, it chooses a process outside the high queue exactly when that queue is empty. */
  lemma HighFirst(s: State, op: Op)
    requires Inv(s) && Allowed(s, op) && RunsScheduler(op)
    ensures var s' := Apply(s, op); s'.current !in s'.high <==> s'.high == []
  {
    hide Find, Run, Leave, Emit, SetStatus, BlockProcess, Exit, Kill, Rotate;
    match op
    case Yield =>
      InvQueued(s);
      RunEffect(s);
      RotatedFirst(s.high);
    case BlockUntil(until) =>
      BlockQueues(s, until);
      RotatedFirst(BlockCurrent(s, until).high);
    case ExitSelf =>
      SwitchQueues(s, op, s.current - 1, s.current);
      RotatedFirst(Without(s.high, s.current));
    case KillPid(pid) =>
      SwitchQueues(s, op, pid - 1, pid);
      RotatedFirst(Without(s.high, pid));
  }

  lemma RotatedFirst(q: seq<Pid>)
    ensures q == [] <==> Rotate(q) == []
    ensures q != [] ==> q[0] in Rotate(q)
    ensures forall p :: p in Rotate(q) ==> p in q
  {
  }

  /** Only being given priority 0 brings a process into the high queue, so one that blocked has lost its high
      priority when it is woken. */
  lemma HighOnlyWhenGiven(s: State, op: Op, p: Pid)
    requires Inv(s) && Allowed(s, op)
    requires p !in s.high || (op.BlockUntil? && p == s.current)
    ensures p in Apply(s, op).high ==> op == Prioritise(p, 0)
  {
    hide Find, Run, Leave, Emit, SetStatus, BlockProcess, Exit, Kill, Rotate, Born, Fork, Exec;
    match op
    case User(_) =>
    case Yield =>
      InvQueued(s);
      RunEffect(s);
      RotatedFirst(s.high);
    case BlockUntil(until) =>
      BlockQueues(s, until);
      WithoutMembers(s.high, s.current);
      RotatedFirst(BlockCurrent(s, until).high);
    case ExitSelf =>
      SwitchQueues(s, op, s.current - 1, s.current);
      WithoutMembers(s.high, s.current);
      RotatedFirst(Without(s.high, s.current));
    case KillPid(pid) =>
      SwitchQueues(s, op, pid - 1, pid);
      WithoutMembers(s.high, pid);
      RotatedFirst(Without(s.high, pid));
    case Prioritise(pid, priority) =>
      WithoutMembers(s.high, pid);
    case ForkSelf(sp, fp) =>
      BornKeeps(s, sp, fp);
      EmitKeeps(Born(s, sp, fp), Event(CreatedEvent, s.next));
    case ExecSelf(pc, argc, argv) =>
      ExecKeeps(s, pc, argc, argv);
  }

  /** The operation takes `p` out of the queues: it blocks, exits or is killed. */
  predicate Leaves(s: State, op: Op, p: Pid) {
    op == KillPid(p) || (p == s.current && (op.BlockUntil? || op.ExitSelf?))
  }

  /** A process of the high queue stays in it unless it blocks, exits or is killed. */
  lemma LeavesHigh(s: State, op: Op, p: Pid)
    requires Inv(s) && Allowed(s, op) && p in s.high
    ensures p !in Apply(s, op).high <==> Leaves(s, op, p)
  {
    hide Inv, Allowed, Apply;
    if Leaves(s, op, p) {
      LeavingHigh(s, op, p);
    } else {
      StayingHigh(s, op, p);
    }
  }

  lemma LeavingHigh(s: State, op: Op, p: Pid)
    requires Inv(s) && Allowed(s, op) && p in s.high && Leaves(s, op, p)
    ensures p !in Apply(s, op).high
  {
    if op.BlockUntil? {
      hide Inv, Allowed, Apply;
      HighOnlyWhenGiven(s, op, p);
    } else {
      hide Find, Leave, Apply;
      SwitchQueues(s, op, p - 1, p);
      WithoutMembers(s.high, p);
      RotatedFirst(Without(s.high, p));
    }
  }

  lemma StayingHigh(s: State, op: Op, p: Pid)
    requires Inv(s) && Allowed(s, op) && p in s.high && !Leaves(s, op, p)
    ensures p in Apply(s, op).high
  {
    if Spares(s, op, p) {
      hide Inv, Allowed, Apply, Position;
      HighAdvances(s, op, p);
    } else {
      hide Find, Inv, Allowed;
      LowPriorityLeavesHigh(s, p, op.priority);
    }
  }

  /** Setting a priority other than 0 leaves the high queue as it is: 1 moves the pid to the end of the low queue
      only. */
  lemma LowPriorityLeavesHigh(s: State, p: Pid, priority: int)
    ensures var s' := Apply(s, Prioritise(p, priority));
      && (priority != 0 ==> s'.high == s.high)
      && (priority == 0 ==> s'.high == Without(s.high, p) + [p])
      && (priority == 1 ==> s'.low == Without(s.low, p) + [p])
  {
  }

  /** Since some moment of the run up to `k`, at its start or on being given priority 0, `p` had high priority and did
      not block, exit or get killed. */
  ghost predicate HighSince(run: seq<State>, ops: seq<Op>, p: Pid, k: nat)
    requires |run| == |ops| + 1 && k <= |ops|
  {
    exists j :: 0 <= j <= k && StartsHigh(run, ops, p, j) && forall i :: j <= i < k ==> !Leaves(run[i], ops[i], p)
  }

  ghost predicate StartsHigh(run: seq<State>, ops: seq<Op>, p: Pid, j: nat)
    requires |run| == |ops| + 1 && j <= |ops|
  {
    if j == 0 then p in run[0].high else ops[j - 1] == Prioritise(p, 0)
  }

  /** The high queue at any moment of any run is what has happened: exactly the processes that have had high priority
      since without blocking, exiting or being killed. */
  lemma {:induction false} HighIsHighSince(run: seq<State>, ops: seq<Op>, p: Pid, k: nat)
    requires IsRun(run, ops) && Inv(run[0]) && k <= |ops|
    ensures p in run[k].high <==> HighSince(run, ops, p, k)
  {
    hide Inv, Apply, Allowed, Leaves;
    if k == 0 {
      assert p in run[0].high <==> StartsHigh(run, ops, p, 0);
    } else {
      HighIsHighSince(run, ops, p, k - 1);
      RunsKeep(run, ops, k - 1);
      HighChange(run[k - 1], ops[k - 1], p);
      HighSinceNext(run, ops, p, k);
    }
  }

  lemma HighSinceNext(run: seq<State>, ops: seq<Op>, p: Pid, k: nat)
    requires |run| == |ops| + 1 && 0 < k <= |ops|
    ensures HighSince(run, ops, p, k) <==>
              ops[k - 1] == Prioritise(p, 0) || (HighSince(run, ops, p, k - 1) && !Leaves(run[k - 1], ops[k - 1], p))
  {
    hide Leaves;
    if ops[k - 1] == Prioritise(p, 0) {
      assert StartsHigh(run, ops, p, k);
    } else if HighSince(run, ops, p, k) {
      var j :| 0 <= j <= k && StartsHigh(run, ops, p, j) && forall i :: j <= i < k ==> !Leaves(run[i], ops[i], p);
      assert j <= k - 1;
    }
  }

  lemma HighChange(s: State, op: Op, p: Pid)
    requires Inv(s) && Allowed(s, op)
    ensures p in Apply(s, op).high <==> op == Prioritise(p, 0) || (p in s.high && !Leaves(s, op, p))
  {
    if op == Prioritise(p, 0) {
      LowPriorityLeavesHigh(s, p, 0);
    } else {
      hide Inv, Allowed, Apply;
      if p in s.high {
        LeavesHigh(s, op, p);
      } else {
        HighOnlyWhenGiven(s, op, p);
      }
    }
  }

  /** Over every run: the scheduler turns to a process without high priority exactly when every process that was given
      high priority has since blocked, exited or been killed. In particular, while one has not, every scheduler run
      chooses from the high queue. */
  lemma LowResumes(run: seq<State>, ops: seq<Op>, k: nat)
    requires IsRun(run, ops) && Inv(run[0]) && 0 < k <= |ops| && RunsScheduler(ops[k - 1])
    ensures run[k].current !in run[k].high <==> forall p :: !HighSince(run, ops, p, k)
  {
    hide Inv, Apply, Allowed, Leaves, HighSince;
    RunsKeep(run, ops, k - 1);
    HighFirst(run[k - 1], ops[k - 1]);
    forall p ensures p in run[k].high <==> HighSince(run, ops, p, k) {
      HighIsHighSince(run, ops, p, k);
    }
    if run[k].high != [] {
      assert run[k].high[0] in run[k].high;
    }
  }

  /** How many of the operations run the scheduler. */
  function SchedulerRuns(ops: seq<Op>): nat {
    if ops == [] then 0 else (if RunsScheduler(ops[0]) then 1 else 0) + SchedulerRuns(ops[1..])
  }

  /** A process at position `i` of the high queue is chosen within `i + 1` scheduler runs. */
  lemma {:induction false} HighIsChosen(run: seq<State>, ops: seq<Op>, p: Pid) returns (k: nat)
    requires IsRun(run, ops) && Inv(run[0]) && p in run[0].high
    requires forall i :: 0 <= i < |ops| ==> Spares(run[i], ops[i], p)
    requires Position(run[0].high, p) < SchedulerRuns(ops)
    ensures k < |ops| && RunsScheduler(ops[k]) && run[k + 1].current == p
    ensures SchedulerRuns(ops[..k + 1]) <= Position(run[0].high, p) + 1
  {
    hide Inv, Apply, Allowed, Position, Spares, Without;
    HighAdvances(run[0], ops[0], p);
    ApplyKeeps(run[0], ops[0]);
    if RunsScheduler(ops[0]) && run[1].current == p {
      k := 0;
      assert ops[..1] == [ops[0]] && ops[..1][1..] == [];
    } else {
      TailRun(run, ops);
      k := HighIsChosen(run[1..], ops[1..], p);
      assert ops[..k + 2][1..] == ops[1..][..k + 1] && ops[..k + 2][0] == ops[0];
      k := k + 1;
    }
  }

  lemma TailRun(run: seq<State>, ops: seq<Op>)
    requires IsRun(run, ops) && ops != []
    ensures IsRun(run[1..], ops[1..])
  {
    hide Apply, Allowed;
    forall k | 0 <= k < |ops| - 1
      ensures Allowed(run[1..][k], ops[1..][k]) && run[1..][k + 1] == Apply(run[1..][k], ops[1..][k])
    {
      assert Allowed(run[k + 1], ops[k + 1]) && run[k + 2] == Apply(run[k + 1], ops[k + 1]);
    }
  }

  /** So is one at position `i` of the low queue while the high queue stays empty. */
  lemma {:induction false} LowIsChosen(run: seq<State>, ops: seq<Op>, p: Pid) returns (k: nat)
    requires IsRun(run, ops) && Inv(run[0]) && p in run[0].low
    requires forall i :: 0 <= i < |run| ==> run[i].high == []
    requires forall i :: 0 <= i < |ops| ==> Spares(run[i], ops[i], p)
    requires Position(run[0].low, p) < SchedulerRuns(ops)
    ensures k < |ops| && RunsScheduler(ops[k]) && run[k + 1].current == p
    ensures SchedulerRuns(ops[..k + 1]) <= Position(run[0].low, p) + 1
  {
    hide Inv, Apply, Allowed, Position, Spares, Without;
    LowAdvances(run[0], ops[0], p);
    ApplyKeeps(run[0], ops[0]);
    if RunsScheduler(ops[0]) && run[1].current == p {
      k := 0;
      assert ops[..1] == [ops[0]] && ops[..1][1..] == [];
    } else {
      TailRun(run, ops);
      k := LowIsChosen(run[1..], ops[1..], p);
      assert ops[..k + 2][1..] == ops[1..][..k + 1] && ops[..k + 2][0] == ops[0];
      k := k + 1;
    }
  }

  /** The state after `k` scheduler runs and nothing else. */
  function RunTimes(s: State, k: nat): State {
    if k == 0 then s else Run(RunTimes(s, k - 1))
  }

  /** The queue that scheduler runs take from. */
  function Served(s: State): seq<Pid> {
    if s.high != [] then s.high else s.low
  }

  /** Undisturbed, the runs go round the queue: run number `k` chooses the process at position `k - 1`, and
      after as many runs as there are processes the queue is what it was. */
  lemma {:induction false} RoundRobin(s: State, k: nat)
    requires Inv(s) && k <= |Served(s)|
    ensures var s' := RunTimes(s, k);
      && Inv(s')
      && Served(s') == Served(s)[k..] + Served(s)[..k]
      && (s.high == [] <==> s'.high == [])
      && (0 < k ==> s'.current == Served(s)[k - 1])
      && (k == |Served(s)| ==> s'.high == s.high && s'.low == s.low)
      && (s.high != [] ==> s'.low == s.low)
  {
    var q := Served(s);
    assert q[0..] + q[..0] == q;
    hide Run, Find, Consistent, Rotate;
    if k != 0 {
      RoundRobin(s, k - 1);
      var before := RunTimes(s, k - 1);
      InvQueued(before);
      RunEffect(before);
      RunKeeps(before);
      RotateOn(q, k);
      assert q[|q|..] + q[..|q|] == q;
    }
  }

  lemma RotateOn(q: seq<Pid>, k: nat)
    requires 0 < k <= |q|
    ensures Rotate(q[k - 1..] + q[..k - 1]) == q[k..] + q[..k]
    ensures (q[k - 1..] + q[..k - 1])[0] == q[k - 1]
  {
  }

  lemma InvQueued(s: State)
    requires Inv(s)
    ensures Queued(s) && Has(s, s.current) && s.low != []
  {
  }
}
