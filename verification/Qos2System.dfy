/** Two endpoints and two FIFO channels. */
module Qos2System {
  // The outbound handlers of one client against the inbound handlers of another. A step is one handler call,
  // a retry pass, a loss of what is in flight, or a restart of one end from its store. A publish may take any
  // id that no message in flight holds, however the client searches for it. The tag of a message numbers the
  // application's publish calls; no handler looks at it.

  import opened Exchange

  datatype ToReceiver =
    | Publish(msgid: int, qos: int, dup: bool, tag: nat)
    | Pubrel(msgid: int, dup: bool)

  datatype ToSender = Puback(msgid: int) | Pubrec(msgid: int) | Pubcomp(msgid: int)

  datatype System = System(
    v5: bool,
    // the sender
    msgID: int, outbound: seq<Message<nat>>,
    // the receiver, and its stored records of QoS 2 PUBLISH packets
    inbound: seq<Message<nat>>, records: map<int, nat>,
    // the packets in flight
    toReceiver: seq<ToReceiver>, toSender: seq<ToSender>,
    // history: the QoS of every publication, what reached the application,
    // whose PUBREC was handled, who was removed on PUBCOMP, whether a restart lost the order
    qosOf: seq<int>, delivered: multiset<nat>, released: set<nat>, completed: set<nat>, shuffled: bool)

  datatype Step =
    | PublishStep(id: int, qos: int, sent: bool, clock: int)
    | ReceiverStep(pending: bool, sent: bool, clock: int)
    | SenderStep(sent: bool, clock: int)
    | RetryStep(t: RetryTime, io: seq<RetryIo>)
    | LoseStep(keepToReceiver: nat, keepToSender: nat)
    | CleanStep
    | SenderRestart(order: seq<Message<nat>>)
    | ReceiverRestart(order: seq<Message<nat>>)

  function Init(v5: bool): System {
    System(v5, 0, [], [], map[], [], [], [], multiset{}, {}, {}, false)
  }

  // ---------------------------------------------------------------- steps

  ghost predicate Restored(order: seq<Message<nat>>, records: map<int, nat>) {
    && DistinctIds(order)
    && (forall i :: 0 <= i < |order| ==>
          && order[i].msgid in records && order[i].body == records[order[i].msgid]
          && order[i].qos == 2 && order[i].next == AwaitPubrel)
    && (forall id :: id in records ==> InUse(order, id))
  }

  /** The entries of a list in another order and with other times. */
  ghost predicate Reordered(a: seq<Message<nat>>, b: seq<Message<nat>>) {
    && DistinctIds(a)
    && (forall i :: 0 <= i < |a| ==>
          InUse(b, a[i].msgid) && a[i] == b[IndexOf(b, a[i].msgid)].(lastTouch := a[i].lastTouch))
    && (forall i :: 0 <= i < |b| ==> InUse(a, b[i].msgid))
  }

  ghost predicate Enabled(s: System, step: Step) {
    match step
    case PublishStep(id, qos, _, _) =>
      (qos == 1 || qos == 2) && 1 <= id <= MAX_MSG_ID && !InUse(s.outbound, id)
    case ReceiverStep(_, _, _) => s.toReceiver != []
    case SenderStep(_, _) => s.toSender != []
    case RetryStep(_, _) => true
    case LoseStep(k, l) => k <= |s.toReceiver| && l <= |s.toSender|
    case CleanStep => true
    case SenderRestart(order) => !s.v5 && Reordered(order, s.outbound)
    case ReceiverRestart(order) => !s.v5 && Restored(order, s.records)
  }

  function Emit<P>(channel: seq<P>, p: P, sent: bool): seq<P> {
    if sent then channel + [p] else channel
  }

  /** The packet that a retry sends for an outbound entry. */
  function Resent(m: Message<nat>): ToReceiver {
    if ResendsPublish(m) then Publish(m.msgid, m.qos, true, m.body) else Pubrel(m.msgid, false)
  }

  function ResentAll(ms: seq<Message<nat>>, sent: seq<nat>): (r: seq<ToReceiver>)
    requires forall j :: 0 <= j < |sent| ==> sent[j] < |ms|
    ensures |r| == |sent| && forall j :: 0 <= j < |sent| ==> r[j] == Resent(ms[sent[j]])
  {
    seq(|sent|, j requires 0 <= j < |sent| => Resent(ms[sent[j]]))
  }

  function Deliver(s: System, tag: nat): System {
    s.(delivered := s.delivered + multiset{tag})
  }

  /** Store the publication: the record is written before the handler runs. */
  function Record(s: System, p: ToReceiver): System {
    if p.Publish? && p.qos == 2 then s.(records := s.records[p.msgid := p.tag]) else s
  }

  function Receive(s: System, p: ToReceiver, pending: bool, sent: bool, clock: int): System {
    match p
    case Publish(id, qos, _, tag) =>
      if qos == 0 then Deliver(s, tag)
      else if pending then s
      else if qos == 1 then Deliver(s.(toSender := Emit(s.toSender, Puback(id), sent)), tag)
      else if qos == 2 then
        var s1 := s.(inbound := OnPublish(s.inbound, Message(id, 2, false, AwaitPubrel, clock, tag)),
                     toSender := Emit(s.toSender, Pubrec(id), sent));
        if s.v5 && !InUse(s.inbound, id) then Deliver(s1, tag) else s1
      else s
    case Pubrel(id, dup) =>
      match OnPubrel(s.inbound, id, dup, pending)
      case Silent => s
      case Busy => s
      case AckOnly => s.(toSender := Emit(s.toSender, Pubcomp(id), sent))
      case Deliver(i) =>
        var s1 := s.(inbound := RemoveAt(s.inbound, i), records := s.records - {id},
                     toSender := Emit(s.toSender, Pubcomp(id), sent));
        if s.v5 then s1 else Deliver(s1, s.inbound[i].body)
  }

  function Acknowledge(s: System, p: ToSender, sent: bool, clock: int): System {
    match p
    case Puback(id) =>
      s.(outbound := Settle(s.outbound, OnPuback(s.outbound, id), clock))
    case Pubrec(id) =>
      var o := OnPubrec(s.outbound, id, false);
      var s1 := s.(outbound := Settle(s.outbound, o, clock));
      if o.Advance? then
        s1.(toReceiver := Emit(s.toReceiver, Pubrel(id, false), sent), released := s.released + {s.outbound[o.at].body})
      else s1
    case Pubcomp(id) =>
      var o := OnPubcomp(s.outbound, id);
      var s1 := s.(outbound := Settle(s.outbound, o, clock));
      if o.Remove? then s1.(completed := s.completed + {s.outbound[o.at].body}) else s1
  }

  ghost function Next(s: System, step: Step): System {
    if !Enabled(s, step) then s
    else
      match step
      case PublishStep(id, qos, sent, clock) =>
        var tag := |s.qosOf|;
        var m := Message(id, qos, false, if qos == 2 then AwaitPubrec else Unset, clock, tag);
        s.(outbound := s.outbound + [m], msgID := id, qosOf := s.qosOf + [qos],
           toReceiver := Emit(s.toReceiver, Publish(id, qos, false, tag), sent))
      case ReceiverStep(pending, sent, clock) =>
        var p := s.toReceiver[0];
        Receive(Record(s.(toReceiver := s.toReceiver[1..]), p), p, pending, sent, clock)
      case SenderStep(sent, clock) =>
        Acknowledge(s.(toSender := s.toSender[1..]), s.toSender[0], sent, clock)
      case RetryStep(t, io) =>
        var r := RetryFrom(s.outbound, 0, t, io);
        RetriesInOrder(s.outbound, 0, t, io);
        s.(outbound := r.list, toReceiver := s.toReceiver + ResentAll(s.outbound, r.sent))
      case LoseStep(k, l) =>
        s.(toReceiver := s.toReceiver[..k], toSender := s.toSender[..l])
      case CleanStep =>
        s.(toReceiver := [], toSender := [], outbound := [], msgID := 0, inbound := [], records := map[])
      case SenderRestart(order) =>
        s.(toReceiver := [], toSender := [], outbound := order, msgID := 0,
           shuffled := s.shuffled || !SameButTouch(order, s.outbound))
      case ReceiverRestart(order) =>
        s.(toReceiver := [], toSender := [], inbound := order)
  }

  ghost function Run(s: System, steps: seq<Step>): System
    decreases |steps|
  {
    if steps == [] then s else Run(Next(s, steps[0]), steps[1..])
  }
}
