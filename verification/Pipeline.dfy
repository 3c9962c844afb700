/** A producer, `k` pipeline stages and a consumer, each a process of its own, over the one message queue. */
module Pipeline {
  import opened Bytes
  import opened Ipc

  function Bump(b: Byte): Byte {
    (b + 1) % 256
  }

  /** Every byte increased `n` times. */
  function BumpAll(s: seq<Byte>, n: nat): (r: seq<Byte>)
    ensures |r| == |s|
  {
    seq(|s|, i requires 0 <= i < |s| => (s[i] + n) % 256)
  }

  /** Where a stage is in its loop: polling for a message, about to send the byte it received, or out of the
      loop. */
  datatype Phase = Receiving | Holding(b: Byte) | Stopped

  /** Process `pids[0]` produces, `pids[i + 1]` is stage `i`, and the last one consumes; each sends to the next.
      `signedChar` is whether `char` has a sign: only then does a process ever find its byte equal to -1. */
  datatype Net = Net(
    pids: seq<Pid>,
    signedChar: bool,
    queue: seq<Message>,
    stages: seq<Phase>,
    consuming: bool,
    produced: seq<Byte>,
    received: seq<Byte>)

  ghost predicate Wired(n: Net) {
    && |n.pids| == |n.stages| + 2
    && (forall i, j :: 0 <= i < j < |n.pids| ==> n.pids[i] != n.pids[j])
  }

  predicate IsLast(signedChar: bool, b: Byte) {
    signedChar && b == 255
  }

  function FirstByte(m: Message): Byte {
    if m.content == [] then 0 else m.content[0]
  }

  /** What one poll makes of the phase of a stage. */
  function AfterPoll(q: seq<Message>, pid: Pid): Phase {
    var got := Delivered(q, Receive(Anyone, pid));
    if got == [] then Receiving else Holding(FirstByte(got[0]))
  }

  function AfterSend(signedChar: bool, b: Byte): Phase {
    if IsLast(signedChar, Bump(b)) then Stopped else Receiving
  }

  /** What happens between two preemptions: one system call of one process, of the network or not. */
  datatype Step =
    | Produce(b: Byte)
    | Poll(i: nat)
    | Forward(i: nat)
    | Consume
    | Other(call: Call)

  predicate Enabled(n: Net, step: Step) {
    match step
    case Produce(_) => |n.pids| > 1
    case Poll(i) => i < |n.stages| && i + 1 < |n.pids| && n.stages[i] == Receiving
    case Forward(i) => i < |n.stages| && i + 2 < |n.pids| && n.stages[i].Holding?
    case Consume => n.pids != [] && n.consuming
    case Other(Send(m)) => m.to !in n.pids
    case Other(Receive(_, to)) => to !in n.pids
  }

  function Take(n: Net, step: Step): Net
    requires Enabled(n, step)
  {
    match step
    case Produce(b) =>
      n.(queue := Apply(n.queue, Send(Message([b], n.pids[0], n.pids[1]))), produced := n.produced + [b])
    case Poll(i) =>
      n.(queue := Apply(n.queue, Receive(Anyone, n.pids[i + 1])),
         stages := n.stages[i := AfterPoll(n.queue, n.pids[i + 1])])
    case Forward(i) =>
      var b := n.stages[i].b;
      n.(queue := Apply(n.queue, Send(Message([Bump(b)], n.pids[i + 1], n.pids[i + 2]))),
         stages := n.stages[i := AfterSend(n.signedChar, b)])
    case Consume =>
      var pid := n.pids[|n.pids| - 1];
      var got := Delivered(n.queue, Receive(Anyone, pid));
      if got == [] then n
      else
        var b := FirstByte(got[0]);
        n.(queue := Apply(n.queue, Receive(Anyone, pid)), received := n.received + [b],
           consuming := !IsLast(n.signedChar, b))
    case Other(call) => n.(queue := Apply(n.queue, call))
  }

  /** The bytes waiting for one process, in order. */
  function Inbox(q: seq<Message>, to: Pid): seq<Byte> {
    if q == [] then [] else (if q[0].to == to then [FirstByte(q[0])] else []) + Inbox(q[1..], to)
  }

  lemma {:induction false} InboxAppend(a: seq<Message>, b: seq<Message>, to: Pid)
    ensures Inbox(a + b, to) == Inbox(a, to) + Inbox(b, to)
  {
    if a == [] {
      assert a + b == b;
    } else {
      var head := if a[0].to == to then [FirstByte(a[0])] else [];
      assert (a + b)[1..] == a[1..] + b;
      InboxAppend(a[1..], b, to);
      assert head + (Inbox(a[1..], to) + Inbox(b, to)) == (head + Inbox(a[1..], to)) + Inbox(b, to);
    }
  }

  lemma {:induction false} InboxEmpty(q: seq<Message>, to: Pid)
    requires forall i :: 0 <= i < |q| ==> q[i].to != to
    ensures Inbox(q, to) == []
  {
    if q != [] {
      InboxEmpty(q[1..], to);
    }
  }

  lemma InboxOne(m: Message, to: Pid)
    ensures Inbox([m], to) == if m.to == to then [FirstByte(m)] else []
  {
    assert [m][1..] == [];
  }

  lemma SendInbox(q: seq<Message>, m: Message, to: Pid)
    ensures Inbox(Apply(q, Send(m)), to) == Inbox(q, to) + if m.to == to then [FirstByte(m)] else []
  {
    InboxOne(m, to);
    InboxAppend(q, [m], to);
  }

  lemma ReceiveInbox(q: seq<Message>, sender: Sender, pid: Pid, to: Pid)
    ensures pid != to ==> Inbox(Apply(q, Receive(sender, pid)), to) == Inbox(q, to)
    ensures sender == Anyone ==>
              var got := Delivered(q, Receive(sender, pid));
              if got == [] then Inbox(q, pid) == [] && Apply(q, Receive(sender, pid)) == q
              else Inbox(q, pid) == [FirstByte(got[0])] + Inbox(Apply(q, Receive(sender, pid)), pid)
  {
    var k := Oldest(q, sender, pid);
    if k == -1 {
      if sender == Anyone {
        InboxEmpty(q, pid);
      }
    } else {
      assert q == q[..k] + ([q[k]] + q[k + 1..]);
      forall t ensures Inbox(q, t) == Inbox(q[..k], t) + (Inbox([q[k]], t) + Inbox(q[k + 1..], t))
                    && Inbox(q[..k] + q[k + 1..], t) == Inbox(q[..k], t) + Inbox(q[k + 1..], t)
      {
        InboxAppend(q[..k], [q[k]] + q[k + 1..], t);
        InboxAppend([q[k]], q[k + 1..], t);
        InboxAppend(q[..k], q[k + 1..], t);
      }
      InboxOne(q[k], pid);
      InboxOne(q[k], to);
      if sender == Anyone {
        InboxEmpty(q[..k], pid);
      }
    }
  }

  function Held(p: Phase): seq<Byte> {
    if p.Holding? then [p.b] else []
  }

  /** What is still to come to process `j`, as it will find it: its inbox, then what the stage before it holds,
      then what is still to come to that stage. */
  function Pending(q: seq<Message>, pids: seq<Pid>, stages: seq<Phase>, j: nat): seq<Byte>
    requires 1 <= j < |pids| && j <= |stages| + 1
  {
    Inbox(q, pids[j])
      + if j == 1 then [] else Behind(Held(stages[j - 2]), Pending(q, pids, stages, j - 1))
  }

  /** What a stage will send: what it holds, then what is to come to it, each byte increased. */
  function Behind(held: seq<Byte>, coming: seq<Byte>): seq<Byte> {
    BumpAll(held + coming, 1)
  }

  lemma BehindRegroup(held: seq<Byte>, coming: seq<Byte>)
    ensures Behind([], held + coming) == Behind(held, coming)
    ensures Behind([], []) == []
  {
    assert [] + (held + coming) == held + coming;
  }

  lemma BehindFirst(b: Byte, coming: seq<Byte>)
    ensures Behind([b], coming) == [Bump(b)] + Behind([], coming)
  {
    assert [] + coming == coming;
  }

  lemma BehindAppend(held: seq<Byte>, coming: seq<Byte>, x: seq<Byte>)
    ensures Behind(held, coming + x) == Behind(held, coming) + BumpAll(x, 1)
  {
    assert held + (coming + x) == (held + coming) + x;
    BumpAllAppend(held + coming, x, 1);
  }

  /** What is still to come to the consumer. */
  function InFlight(n: Net): seq<Byte>
    requires Wired(n)
  {
    Pending(n.queue, n.pids, n.stages, |n.pids| - 1)
  }

  /** Nothing is lost, reordered or changed on the way, other than by the stages. */
  ghost predicate Streams(n: Net) {
    Wired(n) && n.received + InFlight(n) == BumpAll(n.produced, |n.stages|)
  }

  lemma BumpAllAppend(a: seq<Byte>, b: seq<Byte>, n: nat)
    ensures BumpAll(a + b, n) == BumpAll(a, n) + BumpAll(b, n)
  {
  }

  lemma BumpAllTwice(a: seq<Byte>, n: nat)
    ensures BumpAll(BumpAll(a, n), 1) == BumpAll(a, n + 1)
    ensures BumpAll(a, 0) == a
  {
  }

  /** Process `j` is told what reaches the one it listens to, once more increased. */
  lemma {:induction false} ProducePending(n: Net, b: Byte, j: nat)
    requires Wired(n) && 1 <= j < |n.pids|
    ensures var n' := Take(n, Produce(b));
      Pending(n'.queue, n.pids, n.stages, j) == Pending(n.queue, n.pids, n.stages, j) + BumpAll([b], j - 1)
  {
    hide Inbox, Apply, BumpAll, Behind;
    var m := Message([b], n.pids[0], n.pids[1]);
    SendInbox(n.queue, m, n.pids[j]);
    BumpAllTwice([b], j - 1);
    if j > 1 {
      ProducePending(n, b, j - 1);
      BumpAllTwice([b], j - 2);
      BehindAppend(Held(n.stages[j - 2]), Pending(n.queue, n.pids, n.stages, j - 1), BumpAll([b], j - 2));
    }
  }

  /** A poll by the process at `at` moves the head of its inbox on; the others see no difference. */
  lemma {:induction false} PollPending(n: Net, i: nat, j: nat)
    requires Wired(n) && Enabled(n, Poll(i)) && 1 <= j < |n.pids|
    ensures var n' := Take(n, Poll(i));
      if j == i + 1
      then Pending(n.queue, n.pids, n.stages, j) == Held(n'.stages[i]) + Pending(n'.queue, n.pids, n'.stages, j)
      else Pending(n.queue, n.pids, n.stages, j) == Pending(n'.queue, n.pids, n'.stages, j)
  {
    hide Inbox, Apply, Delivered, Behind, AfterPoll;
    var n' := Take(n, Poll(i));
    PollInbox(n, i, j);
    if j > 1 {
      PollPending(n, i, j - 1);
      if j == i + 2 {
        BehindRegroup(Held(n'.stages[i]), Pending(n'.queue, n.pids, n'.stages, i + 1));
      }
    }
    if j == i + 1 {
      var inbox' := Inbox(n'.queue, n.pids[j]);
      var rest := if j == 1 then [] else Behind(Held(n.stages[j - 2]), Pending(n.queue, n.pids, n.stages, j - 1));
      assert (Held(n'.stages[i]) + inbox') + rest == Held(n'.stages[i]) + (inbox' + rest);
    }
  }

  lemma PollInbox(n: Net, i: nat, j: nat)
    requires Wired(n) && Enabled(n, Poll(i)) && 1 <= j < |n.pids|
    ensures var n' := Take(n, Poll(i));
      Inbox(n.queue, n.pids[j]) == (if j == i + 1 then Held(n'.stages[i]) else []) + Inbox(n'.queue, n.pids[j])
  {
    hide Inbox, Apply, Delivered;
    ReceiveInbox(n.queue, Anyone, n.pids[i + 1], n.pids[j]);
  }

  /** A send moves the held byte into the next inbox; only there does it make a difference, and there it comes
      where it was. */
  lemma {:induction false} ForwardPending(n: Net, i: nat, j: nat)
    requires Wired(n) && Enabled(n, Forward(i)) && 1 <= j < |n.pids|
    ensures var n' := Take(n, Forward(i));
      Pending(n'.queue, n.pids, n'.stages, j) == Pending(n.queue, n.pids, n.stages, j)
  {
    hide Inbox, Apply, Behind, Bump;
    var b := n.stages[i].b;
    SendInbox(n.queue, Message([Bump(b)], n.pids[i + 1], n.pids[i + 2]), n.pids[j]);
    if j > 1 {
      ForwardPending(n, i, j - 1);
      if j == i + 2 {
        var rest, inbox := Pending(n.queue, n.pids, n.stages, i + 1), Inbox(n.queue, n.pids[j]);
        BehindFirst(b, rest);
        assert (inbox + [Bump(b)]) + Behind([], rest) == inbox + ([Bump(b)] + Behind([], rest));
      }
    }
  }

  /** Calls of processes outside the network, and of the consumer, leave what is to come to the stages alone. */
  lemma {:induction false} ElsewherePending(n: Net, q': seq<Message>, j: nat)
    requires Wired(n) && 1 <= j < |n.pids|
    requires forall i :: 1 <= i <= j ==> Inbox(q', n.pids[i]) == Inbox(n.queue, n.pids[i])
    ensures Pending(q', n.pids, n.stages, j) == Pending(n.queue, n.pids, n.stages, j)
  {
    hide Inbox, Behind;
    if j > 1 {
      ElsewherePending(n, q', j - 1);
    }
  }

  lemma OtherPending(n: Net, call: Call)
    requires Wired(n) && Enabled(n, Other(call))
    ensures InFlight(Take(n, Other(call))) == InFlight(n)
  {
    hide Inbox, Apply, Pending, Enabled;
    var q' := Apply(n.queue, call);
    forall i | 1 <= i < |n.pids| ensures Inbox(q', n.pids[i]) == Inbox(n.queue, n.pids[i]) {
      OtherInbox(n, call, i);
    }
    ElsewherePending(n, q', |n.pids| - 1);
  }

  lemma OtherInbox(n: Net, call: Call, i: nat)
    requires Wired(n) && Enabled(n, Other(call)) && 1 <= i < |n.pids|
    ensures Inbox(Apply(n.queue, call), n.pids[i]) == Inbox(n.queue, n.pids[i])
  {
    hide Inbox, Apply;
    match call
    case Send(m) => SendInbox(n.queue, m, n.pids[i]);
    case Receive(sender, to) => ReceiveInbox(n.queue, sender, to, n.pids[i]);
  }

  lemma ConsumePending(n: Net)
    requires Wired(n) && Enabled(n, Consume)
    ensures var n' := Take(n, Consume);
      Wired(n') && n'.received + InFlight(n') == n.received + InFlight(n)
  {
    hide Inbox, Apply, Delivered, Behind;
    var last := |n.pids| - 1;
    var pid := n.pids[last];
    var q' := Apply(n.queue, Receive(Anyone, pid));
    ReceiveInbox(n.queue, Anyone, pid, pid);
    forall i | 1 <= i < last ensures Inbox(q', n.pids[i]) == Inbox(n.queue, n.pids[i]) {
      ReceiveInbox(n.queue, Anyone, pid, n.pids[i]);
    }
    if last > 1 {
      ElsewherePending(n, q', last - 1);
    }
    var rest :=
      if last == 1 then [] else Behind(Held(n.stages[last - 2]), Pending(n.queue, n.pids, n.stages, last - 1));
    var got := Delivered(n.queue, Receive(Anyone, pid));
    if got != [] {
      var b, inbox' := FirstByte(got[0]), Inbox(q', pid);
      assert n.received + (([b] + inbox') + rest) == (n.received + [b]) + (inbox' + rest);
    }
  }

  lemma StepStreams(n: Net, step: Step)
    requires Streams(n) && Enabled(n, step)
    ensures Streams(Take(n, step))
  {
    hide Pending, BumpAll;
    match step
    case Produce(b) =>
      ProducePending(n, b, |n.pids| - 1);
      BumpAllAppend(n.produced, [b], |n.stages|);
    case Poll(i) => PollPending(n, i, |n.pids| - 1);
    case Forward(i) => ForwardPending(n, i, |n.pids| - 1);
    case Consume => ConsumePending(n);
    case Other(call) => OtherPending(n, call);
  }

  ghost predicate IsRun(run: seq<Net>, steps: seq<Step>) {
    && |run| == |steps| + 1
    && forall i :: 0 <= i < |steps| ==> Enabled(run[i], steps[i]) && run[i + 1] == Take(run[i], steps[i])
  }

  /** A network before it starts: nothing produced or received, and no message for its processes. */
  ghost predicate Fresh(n: Net) {
    && Wired(n) && n.produced == [] && n.received == [] && n.consuming
    && (forall i :: 0 <= i < |n.stages| ==> n.stages[i] == Receiving)
    && (forall m :: m in n.queue ==> m.to !in n.pids)
  }

  lemma {:induction false} NothingPending(n: Net, j: nat)
    requires Fresh(n) && 1 <= j < |n.pids|
    ensures Pending(n.queue, n.pids, n.stages, j) == []
  {
    hide Inbox, Behind;
    InboxEmpty(n.queue, n.pids[j]);
    BehindRegroup([], []);
    if j > 1 {
      NothingPending(n, j - 1);
    }
  }

  /** Under every interleaving: what the consumer has received, then what is in flight, is what was produced,
      in order, every byte increased once by each of the stages. */
  lemma {:induction false} PipelineStreams(run: seq<Net>, steps: seq<Step>, t: nat)
    requires IsRun(run, steps) && Fresh(run[0]) && t < |run|
    ensures Streams(run[t])
    ensures run[t].received <= BumpAll(run[t].produced, |run[t].stages|)
  {
    if t == 0 {
      NothingPending(run[0], |run[0].pids| - 1);
    } else {
      PipelineStreams(run, steps, t - 1);
      StepStreams(run[t - 1], steps[t - 1]);
    }
    assert run[t].received <= run[t].received + InFlight(run[t]);
  }

  lemma StepAdds(n: Net, step: Step)
    requires Enabled(n, step)
    ensures Take(n, step).pids == n.pids
    ensures forall m :: m in Take(n, step).queue ==> m in n.queue || |m.content| == 1 || m.to !in n.pids
  {
    hide Apply, Delivered;
    match step
    case Produce(b) => CallAdds(n.queue, Send(Message([b], n.pids[0], n.pids[1])));
    case Poll(i) => CallAdds(n.queue, Receive(Anyone, n.pids[i + 1]));
    case Forward(i) => CallAdds(n.queue, Send(Message([Bump(n.stages[i].b)], n.pids[i + 1], n.pids[i + 2])));
    case Consume => CallAdds(n.queue, Receive(Anyone, n.pids[|n.pids| - 1]));
    case Other(call) => CallAdds(n.queue, call);
  }

  /** Every message for a process of the network is one byte long, so no receive asks for more than was sent. */
  lemma {:induction false} MessagesAreBytes(run: seq<Net>, steps: seq<Step>, t: nat)
    requires IsRun(run, steps) && Fresh(run[0]) && t < |run|
    ensures forall m :: m in run[t].queue && m.to in run[t].pids ==> |m.content| == 1
  {
    hide Apply, Delivered, AfterPoll, AfterSend;
    if t > 0 {
      MessagesAreBytes(run, steps, t - 1);
      StepAdds(run[t - 1], steps[t - 1]);
    }
  }

  /** Steps still needed to bring what is under way to process `j`: one to take a message out of its inbox, two
      to send a held byte and take it, and for each byte on its way to the stage before, two more than there. */
  function Work(q: seq<Message>, pids: seq<Pid>, stages: seq<Phase>, j: nat): nat
    requires 1 <= j < |pids| && j <= |stages| + 1
  {
    |Inbox(q, pids[j])|
      + if j == 1 then 0
        else 2 * |Held(stages[j - 2])| + 2 * |Pending(q, pids, stages, j - 1)| + Work(q, pids, stages, j - 1)
  }

  function WorkLeft(n: Net): nat
    requires Wired(n)
  {
    Work(n.queue, n.pids, n.stages, |n.pids| - 1)
  }

  /** The step moves a byte. */
  predicate Moves(n: Net, step: Step) {
    match step
    case Poll(i) => Enabled(n, step) && Delivered(n.queue, Receive(Anyone, n.pids[i + 1])) != []
    case Forward(i) => Enabled(n, step)
    case Consume => Enabled(n, step) && Delivered(n.queue, Receive(Anyone, n.pids[|n.pids| - 1])) != []
    case _ => false
  }

  lemma {:induction false} PollWork(n: Net, i: nat, j: nat)
    requires Wired(n) && Moves(n, Poll(i)) && 1 <= j < |n.pids|
    ensures var n' := Take(n, Poll(i));
      Work(n.queue, n.pids, n.stages, j) == Work(n'.queue, n.pids, n'.stages, j) + if j < i + 1 then 0 else 1
  {
    hide Inbox, Apply, Pending, Delivered;
    PollInbox(n, i, j);
    if j > 1 {
      PollPending(n, i, j - 1);
      PollWork(n, i, j - 1);
    }
  }

  lemma {:induction false} ForwardWork(n: Net, i: nat, j: nat)
    requires Wired(n) && Enabled(n, Forward(i)) && 1 <= j < |n.pids|
    ensures var n' := Take(n, Forward(i));
      Work(n.queue, n.pids, n.stages, j) == Work(n'.queue, n.pids, n'.stages, j) + if j < i + 2 then 0 else 1
  {
    hide Inbox, Apply, Pending;
    SendInbox(n.queue, Message([Bump(n.stages[i].b)], n.pids[i + 1], n.pids[i + 2]), n.pids[j]);
    if j > 1 {
      ForwardPending(n, i, j - 1);
      ForwardWork(n, i, j - 1);
    }
  }

  lemma {:induction false} ElsewhereWork(n: Net, q': seq<Message>, j: nat)
    requires Wired(n) && 1 <= j < |n.pids|
    requires forall i :: 1 <= i <= j ==> Inbox(q', n.pids[i]) == Inbox(n.queue, n.pids[i])
    ensures Work(q', n.pids, n.stages, j) == Work(n.queue, n.pids, n.stages, j)
  {
    hide Inbox, Pending;
    if j > 1 {
      ElsewherePending(n, q', j - 1);
      ElsewhereWork(n, q', j - 1);
    }
  }

  /** Every step that moves a byte leaves exactly one step less to do. */
  lemma MovesFinish(n: Net, step: Step)
    requires Wired(n) && Moves(n, step)
    ensures Wired(Take(n, step)) && WorkLeft(Take(n, step)) == WorkLeft(n) - 1
  {
    hide Inbox, Apply, Delivered, Pending;
    match step
    case Poll(i) => PollWork(n, i, |n.pids| - 1);
    case Forward(i) => ForwardWork(n, i, |n.pids| - 1);
    case Consume =>
      var last := |n.pids| - 1;
      var pid := n.pids[last];
      ReceiveInbox(n.queue, Anyone, pid, pid);
      var q' := Apply(n.queue, Receive(Anyone, pid));
      forall i | 1 <= i < last ensures Inbox(q', n.pids[i]) == Inbox(n.queue, n.pids[i]) {
        ReceiveInbox(n.queue, Anyone, pid, n.pids[i]);
      }
      if last > 1 {
        ElsewherePending(n, q', last - 1);
        ElsewhereWork(n, q', last - 1);
      }
  }

  /** Without a sign on `char`, no process of the network ever leaves its loop. */
  ghost predicate AllRunning(n: Net) {
    !n.signedChar && n.consuming && forall i :: 0 <= i < |n.stages| ==> n.stages[i] != Stopped
  }

  lemma {:induction false} NobodyStops(run: seq<Net>, steps: seq<Step>, t: nat)
    requires IsRun(run, steps) && Fresh(run[0]) && !run[0].signedChar && t < |run|
    ensures AllRunning(run[t])
  {
    hide Apply, Delivered;
    if t > 0 {
      NobodyStops(run, steps, t - 1);
    }
  }

  ghost predicate Stuck(n: Net) {
    forall step :: !Moves(n, step)
  }

  lemma {:induction false} NothingToMove(n: Net, j: nat)
    requires Wired(n) && AllRunning(n) && Stuck(n) && 1 <= j < |n.pids|
    ensures Pending(n.queue, n.pids, n.stages, j) == []
  {
    hide Inbox, Behind, Stuck, Wired, AllRunning, Held;
    NobodyMoves(n, j);
    BehindRegroup([], []);
    if j > 1 {
      StageBehind(n, j);
      NothingToMove(n, j - 1);
    }
  }

  lemma StageBehind(n: Net, j: nat)
    requires Wired(n) && 1 < j < |n.pids|
    ensures j - 2 < |n.stages|
  {
  }

  lemma NobodyMoves(n: Net, j: nat)
    requires Wired(n) && AllRunning(n) && Stuck(n) && 1 <= j < |n.pids|
    ensures Inbox(n.queue, n.pids[j]) == [] && (j > 1 ==> Held(n.stages[j - 2]) == [])
  {
    hide Inbox, Apply, Delivered;
    ReceiveInbox(n.queue, Anyone, n.pids[j], n.pids[j]);
    assert j > 1 ==> !Moves(n, Forward(j - 2));
    if j < |n.pids| - 1 {
      assert !Moves(n, Poll(j - 1)) && !Moves(n, Forward(j - 1));
    } else {
      assert !Moves(n, Consume);
    }
  }

  /** So as long as something is under way some process can move it, and when none can, the consumer has
      received all that was produced. */
  lemma PipelineDelivers(run: seq<Net>, steps: seq<Step>, t: nat)
    requires IsRun(run, steps) && Fresh(run[0]) && !run[0].signedChar && t < |run|
    requires forall step :: !Moves(run[t], step)
    ensures run[t].received == BumpAll(run[t].produced, |run[t].stages|)
  {
    hide Pending, BumpAll;
    PipelineStreams(run, steps, t);
    NobodyStops(run, steps, t);
    NothingToMove(run[t], |run[t].pids| - 1);
  }
}

/** The programs of the network, one system call at a time. */
module PipelinePrograms {
  import opened Bytes
  import opened Ipc
  import opened Pipeline

  class Producer {
    const pid: Pid
    const outPid: Pid
    const argument: array<Byte>

    constructor (pid: Pid, outPid: Pid, argument: array<Byte>)
      ensures this.pid == pid && this.outPid == outPid && this.argument == argument
    {
      this.pid, this.outPid, this.argument := pid, outPid, argument;
    }

    /** One turn of the loop; `n` is the network this process starts. */
    method Turn(messages: MessageQueue, ghost n: Net)
      requires argument.Length > 0 && |n.pids| > 1 && n.pids[0] == pid && n.pids[1] == outPid
      requires messages.messages == n.queue
      modifies messages
      ensures messages.messages == Take(n, Produce(argument[0])).queue
    {
      messages.Send(argument, 1, pid, outPid);
      assert argument[..1] == [argument[0]];
    }
  }

  class Stage {
    const pid: Pid
    const outPid: Pid
    const signedChar: bool
    const receivedMessage: array<Byte>
    const outwardMessage: array<Byte>
    var holding: bool
    var stopped: bool

    ghost predicate Valid()
      reads this
    {
      && receivedMessage.Length == 1 && outwardMessage.Length == 1 && receivedMessage != outwardMessage
      && !(holding && stopped)
    }

    ghost function View(): Phase
      requires Valid()
      reads this, receivedMessage
    {
      if stopped then Stopped else if holding then Phase.Holding(receivedMessage[0]) else Phase.Receiving
    }

    constructor (pid: Pid, outPid: Pid, signedChar: bool)
      ensures Valid() && View() == Phase.Receiving
      ensures this.pid == pid && this.outPid == outPid && this.signedChar == signedChar
      ensures fresh(receivedMessage) && fresh(outwardMessage)
    {
      this.pid, this.outPid, this.signedChar := pid, outPid, signedChar;
      receivedMessage := new Byte[1](_ => 0);
      outwardMessage := new Byte[1](_ => 0);
      holding, stopped := false, false;
    }

    /** One poll of the inner loop, by stage `i` of the network `n`. */
    method Poll(messages: MessageQueue, ghost n: Net, ghost i: nat)
      requires Valid() && Enabled(n, Step.Poll(i)) && n.stages[i] == View() && n.pids[i + 1] == pid
      requires messages.messages == n.queue
      requires forall m :: m in n.queue && m.to == pid ==> |m.content| == 1
      modifies this, receivedMessage, messages
      ensures Valid()
      ensures messages.messages == Take(n, Step.Poll(i)).queue && View() == Take(n, Step.Poll(i)).stages[i]
    {
      var result := messages.ReceiveAny(receivedMessage, 1, pid);
      holding := result >= 0;
    }

    /** The rest of the outer loop, by stage `i` of the network `n`. */
    method Forward(messages: MessageQueue, ghost n: Net, ghost i: nat)
      requires Valid() && Enabled(n, Step.Forward(i)) && n.stages[i] == View()
      requires n.pids[i + 1] == pid && n.pids[i + 2] == outPid && n.signedChar == signedChar
      requires messages.messages == n.queue
      modifies this, outwardMessage, messages
      ensures Valid()
      ensures messages.messages == Take(n, Step.Forward(i)).queue && View() == Take(n, Step.Forward(i)).stages[i]
    {
      var c: int := receivedMessage[0];
      outwardMessage[0] := (c + 1) % 256;
      messages.Send(outwardMessage, 1, pid, outPid);
      assert outwardMessage[..1] == [outwardMessage[0]];
      holding := false;
      if signedChar && outwardMessage[0] == 0xff {
        stopped := true;
      }
    }
  }

  class Consumer {
    const pid: Pid
    const signedChar: bool
    const receivedMessage: array<Byte>
    /** What it has written to the console. */
    var printed: seq<Byte>
    var stopped: bool

    ghost predicate Valid() {
      receivedMessage.Length == 1
    }

    constructor (pid: Pid, signedChar: bool)
      ensures Valid() && printed == [] && !stopped && this.pid == pid && this.signedChar == signedChar
      ensures fresh(receivedMessage)
    {
      this.pid, this.signedChar := pid, signedChar;
      receivedMessage := new Byte[1](_ => 0);
      printed, stopped := [], false;
    }

    /** One poll, and the printing of what it found, as the consumer of the network `n`. */
    method Poll(messages: MessageQueue, ghost n: Net)
      requires Valid() && Enabled(n, Consume) && n.pids[|n.pids| - 1] == pid
      requires messages.messages == n.queue && printed == n.received
      requires stopped == !n.consuming && signedChar == n.signedChar
      requires forall m :: m in n.queue && m.to == pid ==> |m.content| == 1
      modifies this, receivedMessage, messages
      ensures Valid()
      ensures var n' := Take(n, Consume);
        messages.messages == n'.queue && printed == n'.received && stopped == !n'.consuming
    {
      var result := messages.ReceiveAny(receivedMessage, 1, pid);
      if result >= 0 {
        printed := printed + [receivedMessage[0]];
        if signedChar && receivedMessage[0] == 0xff {
          stopped := true;
        }
      }
    }
  }
}
