/** The state of one client below version 5 and what each handler makes of it. */
module ClientState {
  // The in-flight lists, the shared publications with their reference counts, the pending QoS 0 writes and
  // the persistent store. The body of a message is the number of its stored publication.

  import opened Wrappers
  import opened Bytes
  import opened Exchange
  import opened Keys
  import P = Packets

  datatype Publication = Publication(topic: bytes, payload: bytes, refcount: int)

  /** What Protocol_processPublication is given. */
  datatype Delivery = Delivery(qos: int, retain: bool, msgid: int, topic: bytes, payload: bytes)

  datatype State = State(
    msgID: int,
    outbound: seq<Message<nat>>, inbound: seq<Message<nat>>,
    publications: map<nat, Publication>, nextRef: nat, pending: seq<nat>,
    store: map<string, bytes>,
    sent: seq<P.Packet>, delivered: seq<Delivery>)

  // ---------------------------------------------------------------- parts of the handlers

  /** MQTTProtocol_storePublication: the new publication is `s.nextRef`. */
  function Alloc(s: State, topic: bytes, payload: bytes): State {
    s.(publications := s.publications[s.nextRef := Publication(topic, payload, 1)], nextRef := s.nextRef + 1)
  }

  function Share(s: State, r: nat): State
    requires r in s.publications
  {
    s.(publications := s.publications[r := s.publications[r].(refcount := s.publications[r].refcount + 1)])
  }

  /** MQTTProtocol_removePublication. */
  function Release(s: State, r: nat): State {
    if r !in s.publications then s
    else if s.publications[r].refcount - 1 == 0 then s.(publications := s.publications - {r})
    else s.(publications := s.publications[r := s.publications[r].(refcount := s.publications[r].refcount - 1)])
  }

  function ReleaseAll(s: State, rs: seq<nat>): State
    decreases |rs|
  {
    if rs == [] then s else ReleaseAll(Release(s, rs[0]), rs[1..])
  }

  /** A packet that could not be written is lost; an interrupted write is finished later. */
  function Transmit(s: State, p: P.Packet, io: SendResult): State {
    if io == Failed then s else s.(sent := s.sent + [p])
  }

  function Put(s: State, key: string, record: bytes): State {
    s.(store := s.store[key := record])
  }

  /** MQTTPersistence_remove for a sent message: both records go. */
  function Forget(s: State, id: int): State
    requires id >= 0
  {
    s.(store := s.store - {KeyOf(SENT5, id), KeyOf(PUBREL5, id), SentKey(id), PubrelKey(id)})
  }

  function ForgetReceived(s: State, id: int): State
    requires id >= 0
  {
    s.(store := s.store - {KeyOf(RECEIVED5, id), ReceivedKey(id)})
  }

  function Hand(s: State, d: Delivery): State {
    s.(delivered := s.delivered + [d])
  }

  /** Persist a QoS 1 or 2 PUBLISH, then write it to the socket. */
  function SendPublish(s: State, p: P.Packet, io: SendResult): State
    requires p.Publish? && (p.qos == 1 || p.qos == 2) && p.msgid >= 0
  {
    Transmit(Put(s, SentKey(p.msgid), P.Serialized(p)), p, io)
  }

  function SendPubrel(s: State, id: int, io: SendResult): State
    requires id >= 0
  {
    var p := P.Ack(P.Pubrel, false, id);
    Transmit(Put(s, PubrelKey(id), P.Serialized(p)), p, io)
  }

  function SendAck(s: State, kind: P.AckKind, id: int, io: SendResult): State {
    Transmit(s, P.Ack(kind, false, id), io)
  }

  // ---------------------------------------------------------------- sending

  /** The publication a new message refers to: a fresh copy, or one it shares. */
  function RefOf(s: State, shared: Option<nat>): nat {
    if shared.None? then s.nextRef else shared.value
  }

  function Refer(s: State, topic: bytes, payload: bytes, shared: Option<nat>): State
    requires shared.Some? ==> shared.value in s.publications
  {
    if shared.None? then Alloc(s, topic, payload) else Share(s, shared.value)
  }

  /** MQTTProtocol_createMessage, and the message appended to the in-flight list. */
  function CreateMessage(s: State, id: int, qos: int, retain: bool, topic: bytes, payload: bytes,
                         shared: Option<nat>, clock: int): State
    requires shared.Some? ==> shared.value in s.publications
  {
    var m := Message(id, qos, retain, if qos == 2 then AwaitPubrec else Unset, clock, RefOf(s, shared));
    Refer(s, topic, payload, shared).(outbound := s.outbound + [m])
  }

  /** MQTTProtocol_startPublish for QoS 1 and 2. */
  function StartPublish(s: State, id: int, qos: int, retain: bool, topic: bytes, payload: bytes,
                        shared: Option<nat>, clock: int, io: SendResult): State
    requires (qos == 1 || qos == 2) && id >= 0
    requires shared.Some? ==> shared.value in s.publications
  {
    var s1 := CreateMessage(s, id, qos, retain, topic, payload, shared, clock);
    var pub := s1.publications[RefOf(s, shared)];
    SendPublish(s1, P.Publish(false, qos, retain, pub.topic, id, pub.payload), io)
  }

  /** A QoS 0 PUBLISH is copied only when its write was interrupted. */
  function StartPublish0(s: State, retain: bool, topic: bytes, payload: bytes, io: SendResult): State {
    var s1 := Transmit(s, P.Publish(false, 0, retain, topic, 0, payload), io);
    if io == Interrupted then
      var s2 := Alloc(s1, topic, payload);
      s2.(pending := s2.pending + [s1.nextRef])
    else s1
  }

  function OnPubackS(s: State, id: int): State
    requires id >= 0
  {
    var o := OnPuback(s.outbound, id);
    if o.Remove? then
      var s1 := Release(Forget(s, id), s.outbound[o.at].body);
      s1.(outbound := RemoveAt(s.outbound, o.at))
    else s
  }

  function OnPubrecS(s: State, id: int, clock: int, io: SendResult): State
    requires id >= 0
  {
    var o := OnPubrec(s.outbound, id, false);
    if o.Advance? then SendPubrel(s, id, io).(outbound := Settle(s.outbound, o, clock)) else s
  }

  function OnPubcompS(s: State, id: int): State
    requires id >= 0
  {
    var o := OnPubcomp(s.outbound, id);
    if o.Remove? then
      var s1 := Release(Forget(s, id), s.outbound[o.at].body);
      s1.(outbound := RemoveAt(s.outbound, o.at))
    else s
  }

  // ---------------------------------------------------------------- receiving

  /** MQTTPacket_Factory stores a QoS 2 PUBLISH before its handler runs. */
  function StoreReceived(s: State, p: P.Packet): State
    requires p.Publish? && 0 <= p.qos < 4 && p.msgid >= 0
  {
    if p.qos == 2 then Put(s, ReceivedKey(p.msgid), P.Serialized(p)) else s
  }

  /** MQTTProtocol_handlePublishes. */
  function OnPublishS(s: State, p: P.Packet, pending: bool, io: SendResult): State
    requires p.Publish? && 0 <= p.qos < 4 && p.msgid >= 0
  {
    if p.qos == 0 then Hand(s, Delivery(0, p.retain, p.msgid, p.topic, p.payload))
    else if pending then s
    else if p.qos == 1 then
      Hand(SendAck(s, P.Puback, p.msgid, io), Delivery(1, p.retain, p.msgid, p.topic, p.payload))
    else if p.qos == 2 then
      var s1 := Alloc(s, p.topic, p.payload);
      var m := Message(p.msgid, 2, p.retain, AwaitPubrel, 0, s.nextRef);
      var i := IndexOf(s.inbound, p.msgid);
      var s2 := if i < |s.inbound| then Release(s1, s.inbound[i].body) else s1;
      SendAck(s2.(inbound := OnPublish(s.inbound, m)), P.Pubrec, p.msgid, io)
    else s
  }

  /** What is handed on for an inbound entry. */
  function DeliveryOf(s: State, m: Message<nat>): Delivery {
    if m.body in s.publications
    then Delivery(m.qos, m.retain, m.msgid, s.publications[m.body].topic, s.publications[m.body].payload)
    else Delivery(m.qos, m.retain, m.msgid, [], [])
  }

  function Complete(s: State, i: nat, id: int, io: SendResult): State
    requires i < |s.inbound| && id >= 0
  {
    var m := s.inbound[i];
    var s1 := ForgetReceived(Hand(SendAck(s, P.Pubcomp, id, io), DeliveryOf(s, m)), id);
    s1.(publications := s1.publications - {m.body}, inbound := RemoveAt(s.inbound, i))
  }

  /** MQTTProtocol_handlePubrels: the publication leaves the list whatever its count. */
  function OnPubrelS(s: State, id: int, dup: bool, pending: bool, io: SendResult): State
    requires id >= 0
  {
    match OnPubrel(s.inbound, id, dup, pending)
    case Silent => s
    case Busy => s
    case AckOnly => SendAck(s, P.Pubcomp, id, io)
    case Deliver(i) => Complete(s, i, id, io)
  }

  // ---------------------------------------------------------------- retries and housekeeping

  /** The packet of an entry sent again; nothing is sent for a publication that is gone. */
  function Resend(s: State, m: Message<nat>, io: SendResult): State
    requires m.msgid >= 0
  {
    if ResendsPublish(m) then
      if m.body in s.publications then
        SendPublish(s, P.Publish(true, m.qos, m.retain, s.publications[m.body].topic, m.msgid,
                                 s.publications[m.body].payload), io)
      else s
    else SendPubrel(s, m.msgid, io)
  }

  ghost predicate IdsNonNegative(ms: seq<Message<nat>>) {
    forall i :: 0 <= i < |ms| ==> ms[i].msgid >= 0
  }

  /** MQTTProtocol_retries from entry k on. */
  function RetryS(s: State, k: nat, t: RetryTime, io: seq<RetryIo>): State
    requires k <= |s.outbound| && IdsNonNegative(s.outbound)
    decreases |s.outbound| - k
  {
    if k == |s.outbound| || k >= |io| || io[k].Stop? then s
    else
      var m := s.outbound[k];
      if !Due(m, t) || !(ResendsPublish(m) || ResendsPubrel(m)) then RetryS(s, k + 1, t, io)
      else
        var s1 := Resend(s, m, io[k].result);
        if io[k].result == Failed || (ResendsPubrel(m) && io[k].result != Sent) then s1
        else RetryS(s1.(outbound := s1.outbound[k := m.(lastTouch := t.clock)]), k + 1, t, io)
  }

  /** MQTTProtocol_checkPendingWrites: `done[i]` says that write i has been completed. */
  function CheckPending(s: State, i: nat, done: seq<bool>): State
    requires i <= |s.pending| && |s.pending| - i <= |done|
    decreases |s.pending| - i
  {
    if i == |s.pending| then s
    else if done[0] then
      CheckPending(Release(s, s.pending[i]).(pending := RemoveAt(s.pending, i)), i, done[1..])
    else CheckPending(s, i + 1, done[1..])
  }

  function BodiesOf(ms: seq<Message<nat>>): (r: seq<nat>)
    ensures |r| == |ms| && forall i :: 0 <= i < |r| ==> r[i] == ms[i].body
  {
    seq(|ms|, i requires 0 <= i < |ms| => ms[i].body)
  }

  /** MQTTAsync_cleanSession: the store is cleared and both lists are emptied. */
  function Clean(s: State): State {
    var s1 := ReleaseAll(s.(store := map[]), BodiesOf(s.inbound)).(inbound := []);
    ReleaseAll(s1, BodiesOf(s1.outbound)).(outbound := [], msgID := 0)
  }
}
