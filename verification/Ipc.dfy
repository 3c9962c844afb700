/** Messages between processes: one queue for the whole system. */
module Ipc {
  import opened Bytes
  import opened BlockDevice

  type Pid = int

  datatype Message = Message(content: seq<Byte>, from: Pid, to: Pid)

  /** Whose messages a receive call takes. */
  datatype Sender = From(pid: Pid) | Anyone

  predicate Matches(m: Message, sender: Sender, to: Pid) {
    m.to == to && (sender.From? ==> m.from == sender.pid)
  }

  /** Position of the oldest matching message, or -1. */
  function Oldest(q: seq<Message>, sender: Sender, to: Pid): (i: int)
    ensures -1 <= i < |q|
    ensures i != -1 ==> Matches(q[i], sender, to)
    ensures forall j :: 0 <= j < (if i == -1 then |q| else i) ==> !Matches(q[j], sender, to)
  {
    if q == [] then -1
    else if Matches(q[0], sender, to) then 0
    else var i := Oldest(q[1..], sender, to); if i == -1 then -1 else i + 1
  }

  /** A call into the queue, by any process. */
  datatype Call = Send(message: Message) | Receive(sender: Sender, to: Pid)

  /** The queue after a call. */
  function Apply(q: seq<Message>, call: Call): seq<Message> {
    match call
    case Send(m) => q + [m]
    case Receive(sender, to) =>
      var k := Oldest(q, sender, to);
      if k == -1 then q else q[..k] + q[k + 1..]
  }

  /** The message a call hands to its caller, if any. */
  function Delivered(q: seq<Message>, call: Call): seq<Message> {
    match call
    case Send(_) => []
    case Receive(sender, to) =>
      var k := Oldest(q, sender, to);
      if k == -1 then [] else [q[k]]
  }

  /** A call keeps messages as they are, and adds only what it sends. */
  lemma CallAdds(q: seq<Message>, call: Call)
    ensures forall m :: m in Apply(q, call) ==> m in q || (call.Send? && m == call.message)
    ensures forall m :: m in Delivered(q, call) ==> m in q
  {
  }

  class MessageQueue {
    var messages: seq<Message>

    constructor ()
      ensures messages == []
    {
      messages := [];
    }

    method Send(buf: array<Byte>, nbytes: nat, from: Pid, to: Pid)
      requires nbytes <= buf.Length
      modifies this
      ensures messages == Apply(old(messages), Call.Send(Message(buf[..nbytes], from, to)))
    {
      messages := messages + [Message(buf[..nbytes], from, to)];
    }

    method ReceiveFrom(buf: array<Byte>, nbytes: nat, from: Pid, to: Pid) returns (result: int)
      requires nbytes <= buf.Length
      requires forall m :: m in Delivered(messages, Receive(From(from), to)) ==> nbytes <= |m.content|
      modifies this, buf
      ensures messages == Apply(old(messages), Receive(From(from), to))
      ensures var got := Delivered(old(messages), Receive(From(from), to));
        if got == [] then result == -1 && buf[..] == old(buf[..])
        else result == 0 && buf[..] == Splice(old(buf[..]), 0, got[0].content[..nbytes])
    {
      hide Splice, Oldest;
      var i := 0;
      while i < |messages|
        invariant 0 <= i <= |messages| && messages == old(messages) && buf[..] == old(buf[..])
        invariant forall j :: 0 <= j < i ==> !Matches(messages[j], From(from), to)
      {
        var message := messages[i];
        if message.from == from && message.to == to {
          assert Oldest(messages, From(from), to) == i;
          CopyIn(buf, 0, message.content, 0, nbytes);
          messages := messages[..i] + messages[i + 1..];
          return 0;
        }
        i := i + 1;
      }
      return -1;
    }

    method ReceiveAny(buf: array<Byte>, nbytes: nat, to: Pid) returns (result: int)
      requires nbytes <= buf.Length
      requires forall m :: m in Delivered(messages, Receive(Anyone, to)) ==> nbytes <= |m.content|
      modifies this, buf
      ensures messages == Apply(old(messages), Receive(Anyone, to))
      ensures var got := Delivered(old(messages), Receive(Anyone, to));
        if got == [] then result == -1 && buf[..] == old(buf[..])
        else result == 0 && buf[..] == Splice(old(buf[..]), 0, got[0].content[..nbytes])
    {
      hide Splice, Oldest;
      var i := 0;
      while i < |messages|
        invariant 0 <= i <= |messages| && messages == old(messages) && buf[..] == old(buf[..])
        invariant forall j :: 0 <= j < i ==> !Matches(messages[j], Anyone, to)
      {
        var message := messages[i];
        if message.to == to {
          assert Oldest(messages, Anyone, to) == i;
          CopyIn(buf, 0, message.content, 0, nbytes);
          messages := messages[..i] + messages[i + 1..];
          return 0;
        }
        i := i + 1;
      }
      return -1;
    }
  }

  function ApplyAll(q: seq<Message>, calls: seq<Call>): seq<Message>
    decreases |calls|
  {
    if calls == [] then q else ApplyAll(Apply(q, calls[0]), calls[1..])
  }

  function DeliveredByAll(q: seq<Message>, calls: seq<Call>): seq<Message>
    decreases |calls|
  {
    if calls == [] then [] else Delivered(q, calls[0]) + DeliveredByAll(Apply(q, calls[0]), calls[1..])
  }

  function SentBy(calls: seq<Call>): seq<Message> {
    if calls == [] then []
    else (if calls[0].Send? then [calls[0].message] else []) + SentBy(calls[1..])
  }

  /** The messages of one channel, in order. */
  function Channel(ms: seq<Message>, from: Pid, to: Pid): (c: seq<Message>) {
    if ms == [] then []
    else (if ms[0].from == from && ms[0].to == to then [ms[0]] else []) + Channel(ms[1..], from, to)
  }

  lemma {:induction false} ChannelAppend(a: seq<Message>, b: seq<Message>, from: Pid, to: Pid)
    ensures Channel(a + b, from, to) == Channel(a, from, to) + Channel(b, from, to)
  {
    if a == [] {
      assert a + b == b;
    } else {
      assert (a + b)[1..] == a[1..] + b;
      ChannelAppend(a[1..], b, from, to);
    }
  }

  lemma {:induction false} ChannelEmpty(ms: seq<Message>, from: Pid, to: Pid)
    requires forall i :: 0 <= i < |ms| ==> !(ms[i].from == from && ms[i].to == to)
    ensures Channel(ms, from, to) == []
  {
    if ms != [] {
      ChannelEmpty(ms[1..], from, to);
    }
  }

  /** A receive takes the oldest message of whichever channel it takes from, and leaves the others. */
  lemma CallConserves(q: seq<Message>, call: Call, from: Pid, to: Pid)
    ensures Channel(Delivered(q, call), from, to) + Channel(Apply(q, call), from, to)
         == Channel(q, from, to) + (if call.Send? then Channel([call.message], from, to) else [])
  {
    match call
    case Send(m) => ChannelAppend(q, [m], from, to);
    case Receive(sender, receiver) =>
      var k := Oldest(q, sender, receiver);
      if k != -1 {
        var m := q[k];
        assert q == q[..k] + ([m] + q[k + 1..]);
        ChannelAppend(q[..k], [m] + q[k + 1..], from, to);
        ChannelAppend([m], q[k + 1..], from, to);
        ChannelAppend(q[..k], q[k + 1..], from, to);
        if m.from == from && m.to == to {
          ChannelEmpty(q[..k], from, to);
        }
      }
  }

  lemma Regroup<T>(got: seq<T>, between: seq<T>, before: seq<T>, sent: seq<T>, got': seq<T>, after: seq<T>,
                   sent': seq<T>)
    requires got + between == before + sent && got' + after == between + sent'
    ensures (got + got') + after == before + (sent + sent')
  {
    calc {
      (got + got') + after;
      got + (got' + after);
      (got + between) + sent';
      (before + sent) + sent';
      before + (sent + sent');
    }
  }

  /** Over any calls by anyone, each channel conserves its messages: those received, then those pending, are
      those that were pending, then those sent, in order. */
  lemma {:induction false} ChannelsConserve(q: seq<Message>, calls: seq<Call>, from: Pid, to: Pid)
    ensures Channel(DeliveredByAll(q, calls), from, to) + Channel(ApplyAll(q, calls), from, to)
         == Channel(q, from, to) + Channel(SentBy(calls), from, to)
    decreases |calls|
  {
    hide Channel, Oldest;
    if calls == [] {
      ChannelEmpty([], from, to);
    } else {
      var call, rest := calls[0], calls[1..];
      var next := Apply(q, call);
      CallConserves(q, call, from, to);
      ChannelsConserve(next, rest, from, to);
      ChannelAppend(Delivered(q, call), DeliveredByAll(next, rest), from, to);
      if call.Send? {
        ChannelAppend([call.message], SentBy(rest), from, to);
      } else {
        assert SentBy(calls) == SentBy(rest);
      }
      var sent := if call.Send? then Channel([call.message], from, to) else [];
      assert Channel(SentBy(calls), from, to) == sent + Channel(SentBy(rest), from, to);
      Regroup(Channel(Delivered(q, call), from, to), Channel(next, from, to), Channel(q, from, to), sent,
              Channel(DeliveredByAll(next, rest), from, to), Channel(ApplyAll(next, rest), from, to),
              Channel(SentBy(rest), from, to));
    }
  }

  /** A receive call fails exactly when nothing sent to the caller on the channels it listens to is pending. */
  lemma FailsOnlyWhenEmpty(q: seq<Message>, sender: Sender, to: Pid)
    ensures Oldest(q, sender, to) == -1 <==>
              forall from :: (sender.From? ==> from == sender.pid) ==> Channel(q, from, to) == []
  {
    var k := Oldest(q, sender, to);
    if k == -1 {
      forall from | sender.From? ==> from == sender.pid ensures Channel(q, from, to) == [] {
        ChannelEmpty(q, from, to);
      }
    } else {
      var m := q[k];
      assert q == q[..k] + ([m] + q[k + 1..]);
      ChannelAppend(q[..k], [m] + q[k + 1..], m.from, to);
      ChannelAppend([m], q[k + 1..], m.from, to);
      assert Channel(q, m.from, to) != [];
    }
  }
}
