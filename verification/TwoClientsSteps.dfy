/** Every step of the two clients is a step of the two-endpoint system. */
module TwoClientsSteps {
  import opened Wrappers
  import opened Bytes
  import opened Exchange
  import opened Keys
  import opened ClientState
  import opened Ownership
  import opened Mirror
  import opened MirrorSteps
  import opened CrashRestore
  import opened Refinement
  import opened Qos2Flights
  import opened Qos2Invariant
  import opened Qos2Steps
  import opened Qos2Safety
  import opened TwoClients
  import P = Packets
  import C = ClientRun
  import Q = Qos2System

  // ---------------------------------------------------------------- numbers in use

  /** Every number that the system holds is one of a publish call. */
  ghost predicate Bounded(s: Q.System) {
    && (forall i :: 0 <= i < |s.outbound| ==> s.outbound[i].body < |s.qosOf|)
    && (forall i :: 0 <= i < |s.inbound| ==> s.inbound[i].body < |s.qosOf|)
    && (forall id :: id in s.records ==> s.records[id] < |s.qosOf|)
    && (forall t :: t in s.delivered ==> t < |s.qosOf|)
  }

  lemma HeldBounded(c: Core, x: int, tag: nat)
    requires Tags(c) && Holds(c, x, tag)
    ensures tag < |c.qosOf|
  {
    assert EntryOk(c, c.out[x]);
  }

  lemma InvBounded(s: Q.System)
    requires Inv(s) && !s.v5
    ensures Bounded(s)
  {
    var c := CoreOf(s);
    ListedFlights(s.outbound);
    ListedFlights(s.inbound);
    hide Waits, Forward, Backward, Deliveries, EntryOk;
    forall i | 0 <= i < |s.outbound| ensures s.outbound[i].body < |s.qosOf| {
      assert EntryOk(c, c.out[s.outbound[i].msgid]);
      EntryBounded(c, c.out[s.outbound[i].msgid]);
    }
    forall i | 0 <= i < |s.inbound| ensures s.inbound[i].body < |s.qosOf| {
      HeldBounded(c, s.inbound[i].msgid, s.inbound[i].body);
    }
    forall id | id in s.records ensures s.records[id] < |s.qosOf| { HeldBounded(c, id, s.records[id]); }
  }

  lemma EntryBounded(c: Core, e: Flight)
    requires EntryOk(c, e)
    ensures e.tag < |c.qosOf|
  {
  }

  // ---------------------------------------------------------------- what was written

  lemma WrittenIs(s: State, d: State, ps: seq<P.Packet>)
    requires d.sent == s.sent + ps
    ensures Emitted(s, d) == ps
  {
  }

  lemma BackGrows(b: State, d: State, s: Q.System, e: Q.System, back: seq<P.Packet>)
    requires SameAcks(b, d, s, e) && BackAgrees(back, s.toSender)
    ensures BackAgrees(back + Emitted(b, d), e.toSender)
  {
    if d.sent == b.sent && e.toSender == s.toSender {
      WrittenIs(b, d, []);
    } else {
      var q: Q.ToSender :| IsId(q.msgid) && d.sent == b.sent + [Reply(q)] && e.toSender == s.toSender + [q];
      WrittenIs(b, d, [Reply(q)]);
    }
  }

  lemma ForwardGrows(ps: seq<P.Packet>, qs: seq<Q.ToReceiver>, texts: seq<Text>, p: P.Packet, q: Q.ToReceiver)
    requires ForwardAgrees(ps, qs, texts) && PacketAgrees(p, q, texts)
    ensures ForwardAgrees(ps + [p], qs + [q], texts)
  {
    hide PacketAgrees;
  }

  lemma DeliveriesFrom(b: State, d: State, s: Q.System, e: Q.System, texts: seq<Text>,
                       tags: seq<nat>) returns (more: seq<nat>)
    requires SameDeliveries(b, d, s, e, texts) && From(b.delivered, tags, texts) && s.delivered == multiset(tags)
    requires forall t :: t in e.delivered ==> t < |texts|
    ensures From(d.delivered, more, texts) && e.delivered == multiset(more)
  {
    if d.delivered == b.delivered && e.delivered == s.delivered {
      more := tags;
    } else {
      var x: Delivery, tag: nat :|
        && d.delivered == b.delivered + [x] && e.delivered == s.delivered + multiset{tag}
        && Text(x.topic, x.payload) == Numbered(texts)(tag);
      assert tag in e.delivered;
      more := tags + [tag];
    }
  }

  // ---------------------------------------------------------------- at the receiver

  lemma RecordOfPacket(p: P.Packet, tag: nat, texts: seq<Text>)
    requires Receivable(p) && p.qos == 2 && tag < |texts| && texts[tag] == Text(p.topic, p.payload)
    ensures RecordAgrees(P.Serialized(p), p.msgid, tag, texts)
  {
    P.PublishRestored(p);
    hide P.Serialized, P.RestorePacket;
  }

  lemma RecordStored(b: State, p: P.Packet)
    requires Receivable(p)
    ensures LedgerOf(StoreReceived(b, p).store).received
         == if p.qos == 2 then LedgerOf(b.store).received[p.msgid := P.Serialized(p)] else LedgerOf(b.store).received
  {
    if p.qos == 2 { PutRecord(b.store, RECEIVED, p.msgid, P.Serialized(p)); }
    hide LedgerOf, P.Serialized;
  }

  lemma SystemRecordsPublish(s: Q.System, q: Q.ToReceiver, waiting: bool, sent: bool, clock: int)
    requires q.Publish?
    ensures Q.Receive(Q.Record(s, q), q, waiting, sent, clock).records
         == if q.qos == 2 then s.records[q.msgid := q.tag] else s.records
  {
    PublishKeepsRecords(Q.Record(s, q), q, waiting, sent, clock);
    hide Q.Receive;
  }

  lemma PublishKeepsRecords(s: Q.System, q: Q.ToReceiver, waiting: bool, sent: bool, clock: int)
    requires q.Publish?
    ensures Q.Receive(s, q, waiting, sent, clock).records == s.records
  {
    hide OnPublish, InUse, Q.Emit;
  }

  lemma SystemRecordsPubrel(s: Q.System, id: int, dup: bool, waiting: bool, sent: bool, clock: int)
    ensures Q.Receive(Q.Record(s, Q.Pubrel(id, dup)), Q.Pubrel(id, dup), waiting, sent, clock).records
         == if OnPubrel(s.inbound, id, dup, waiting).Deliver? then s.records - {id} else s.records
  {
    hide OnPubrel, RemoveAt;
  }

  lemma RecordAdded(received: map<int, bytes>, records: map<int, nat>, texts: seq<Text>, id: int, b: bytes, tag: nat)
    requires RecordsAgree(received, records, texts) && RecordAgrees(b, id, tag, texts)
    ensures RecordsAgree(received[id := b], records[id := tag], texts)
  {
    hide RecordAgrees;
  }

  lemma RecordDropped(received: map<int, bytes>, records: map<int, nat>, texts: seq<Text>, id: int)
    requires RecordsAgree(received, records, texts)
    ensures RecordsAgree(received - {id}, records - {id}, texts)
  {
    hide RecordAgrees;
  }

  /** One packet at the receiver: the same list, records, acknowledgement and delivery. */
  ghost predicate ArrivesAlike(b: State, d: State, s: Q.System, e: Q.System, texts: seq<Text>) {
    && SameInbound(d, e, texts) && SameAcks(b, d, s, e) && SameDeliveries(b, d, s, e, texts)
    && RecordsAgree(LedgerOf(d.store).received, e.records, texts)
  }

  lemma PublishArrives(b: State, s: Q.System, texts: seq<Text>, p: P.Packet, tag: nat, waiting: bool, io: SendResult,
                       clock: int)
    requires ReceiverAgrees(b, s, texts) && !s.v5 && Receivable(p) && tag < |texts| && texts[tag] == Text(p.topic, p.payload)
    ensures var q := Q.Publish(p.msgid, p.qos, p.dup, tag);
            ArrivesAlike(b, OnPublishS(StoreReceived(b, p), p, waiting, io),
                         s, Q.Receive(Q.Record(s, q), q, waiting, io != Failed, clock), texts)
  {
    var b1, q := StoreReceived(b, p), Q.Publish(p.msgid, p.qos, p.dup, tag);
    assert C.Sane(b) && Owned(b) && SameInbound(b, s, texts) && RecordsAgree(LedgerOf(b.store).received, s.records, texts);
    assert p.Publish? && 0 <= p.qos < 4 && p.msgid >= 0;
    hide *;
    PublishRefines(b, s, texts, p, tag, waiting, io, clock);
    OnPublishFrame(b1, p, waiting, io);
    RecordStored(b, p);
    SystemRecordsPublish(s, q, waiting, io != Failed, clock);
    if p.qos == 2 {
      RecordOfPacket(p, tag, texts);
      RecordAdded(LedgerOf(b.store).received, s.records, texts, p.msgid, P.Serialized(p), tag);
    }
    AgreedAlike(b, OnPublishS(b1, p, waiting, io), s, Q.Receive(Q.Record(s, q), q, waiting, io != Failed, clock), texts);
  }

  lemma AgreedAlike(b: State, d: State, s: Q.System, e: Q.System, texts: seq<Text>)
    requires Agree(b, d, s, e, texts) && RecordsAgree(LedgerOf(d.store).received, e.records, texts)
    ensures ArrivesAlike(b, d, s, e, texts)
  {
  }

  lemma PubrelArrives(b: State, s: Q.System, texts: seq<Text>, id: int, dup: bool, waiting: bool, io: SendResult, clock: int)
    requires ReceiverAgrees(b, s, texts) && !s.v5 && IsId(id)
    ensures var q := Q.Pubrel(id, dup);
            ArrivesAlike(b, OnPubrelS(b, id, dup, waiting, io),
                         s, Q.Receive(Q.Record(s, q), q, waiting, io != Failed, clock), texts)
  {
    var q := Q.Pubrel(id, dup);
    assert C.Sane(b) && Owned(b) && SameInbound(b, s, texts) && RecordsAgree(LedgerOf(b.store).received, s.records, texts);
    assert id >= 0;
    var o := OnPubrel(b.inbound, id, dup, waiting);
    hide *;
    PubrelRefines(b, s, texts, id, dup, waiting, io, clock);
    SameDecision(b, s, texts, id, dup, waiting);
    OnPubrelFrame(b, id, dup, waiting, io);
    SystemRecordsPubrel(s, id, dup, waiting, io != Failed, clock);
    if o.Deliver? {
      CompleteFrame(b, o.at, id, io);
      ForgetReceivedRecords(b, id);
      RecordDropped(LedgerOf(b.store).received, s.records, texts, id);
    }
    AgreedAlike(b, OnPubrelS(b, id, dup, waiting, io), s, Q.Receive(Q.Record(s, q), q, waiting, io != Failed, clock), texts);
  }

  lemma PublishHandled(b: State, p: P.Packet, waiting: bool, clock: int, io: SendResult)
    requires Receivable(p)
    ensures var ev := Handler(p, waiting, clock, io);
            C.Enabled(b, ev) && C.Next(b, ev) == OnPublishS(StoreReceived(b, p), p, waiting, io)
  {
    hide OnPublishS, StoreReceived;
  }

  lemma PubrelHandled(b: State, dup: bool, id: int, waiting: bool, clock: int, io: SendResult)
    requires IsId(id)
    ensures var ev := Handler(P.Ack(P.Pubrel, dup, id), waiting, clock, io);
            C.Enabled(b, ev) && C.Next(b, ev) == OnPubrelS(b, id, dup, waiting, io)
  {
    hide OnPubrelS;
  }

  lemma ReceiverAlike(b: State, s: Q.System, texts: seq<Text>, p: P.Packet, q: Q.ToReceiver, waiting: bool,
                      clock: int, io: SendResult)
    requires ReceiverAgrees(b, s, texts) && !s.v5 && PacketAgrees(p, q, texts)
    ensures var ev := Handler(p, waiting, clock, io);
            && C.Enabled(b, ev)
            && ArrivesAlike(b, C.Next(b, ev), s, Q.Receive(Q.Record(s, q), q, waiting, io != Failed, clock), texts)
  {
    if q.Publish? {
      assert q == Q.Publish(p.msgid, p.qos, p.dup, q.tag);
      assert Receivable(p) && q.tag < |texts| && texts[q.tag] == Text(p.topic, p.payload);
      hide *;
      PublishHandled(b, p, waiting, clock, io);
      PublishArrives(b, s, texts, p, q.tag, waiting, io, clock);
    } else {
      assert IsId(q.msgid) && p == P.Ack(P.Pubrel, q.dup, q.msgid);
      hide *;
      PubrelHandled(b, q.dup, q.msgid, waiting, clock, io);
      PubrelArrives(b, s, texts, q.msgid, q.dup, waiting, io, clock);
    }
  }

  /** The world and the system after a packet at the receiver. */
  lemma ReceiverSim(w: World, s: Q.System, tags: seq<nat>, d: State, e: Q.System) returns (more: seq<nat>)
    requires Sim(w, s, tags) && w.forward != []
    requires Inv(e) && Retained(e) && C.Sane(d)
         && ArrivesAlike(w.receiver, d, s.(toReceiver := s.toReceiver[1..]), e, w.texts)
    requires e.toReceiver == s.toReceiver[1..] && e.outbound == s.outbound && e.qosOf == s.qosOf && !e.v5
         && e.completed == s.completed
    ensures Sim(w.(receiver := d, forward := w.forward[1..], back := w.back + Emitted(w.receiver, d)), e, more)
  {
    hide *;
    SimFacts(w, s, tags);
    LaterForward(w.forward, s.toReceiver, w.texts);
    var s0 := s.(toReceiver := s.toReceiver[1..]);
    DeliveredBounded(e);
    AlikeParts(w.receiver, d, s0, e, w.texts);
    BackGrows(w.receiver, d, s0, e, w.back);
    more := DeliveriesFrom(w.receiver, d, s0, e, w.texts, tags);
    SimIf(w.(receiver := d, forward := w.forward[1..], back := w.back + Emitted(w.receiver, d)), e, e, more);
  }

  lemma AlikeParts(b: State, d: State, s: Q.System, e: Q.System, texts: seq<Text>)
    requires ArrivesAlike(b, d, s, e, texts) && C.Sane(d)
    ensures SameAcks(b, d, s, e) && SameDeliveries(b, d, s, e, texts) && ReceiverAgrees(d, e, texts)
  {
  }

  lemma LaterForward(ps: seq<P.Packet>, qs: seq<Q.ToReceiver>, texts: seq<Text>)
    requires ForwardAgrees(ps, qs, texts) && ps != []
    ensures qs != [] && ForwardAgrees(ps[1..], qs[1..], texts)
  {
    hide PacketAgrees;
  }

  lemma DeliveredBounded(s: Q.System)
    requires Inv(s)
    ensures forall t :: t in s.delivered ==> t < |s.qosOf|
  {
    assert Histories(CoreOf(s));
  }

  lemma ReceiverFacts(w: World, s: Q.System, tags: seq<nat>)
    requires Sim(w, s, tags) && w.forward != []
    ensures s.toReceiver != [] && Inv(s) && Retained(s) && !s.v5 && C.Sane(w.receiver)
         && PacketAgrees(w.forward[0], s.toReceiver[0], w.texts)
    ensures ReceiverAgrees(w.receiver, s.(toReceiver := s.toReceiver[1..]), w.texts)
  {
    hide Inv, Retained, C.Sane, PacketAgrees, RecordsAgree, LedgerOf, SenderAgrees, BackAgrees, From;
  }

  lemma SystemReceives(s: Q.System, waiting: bool, sent: bool, clock: int)
    requires s.toReceiver != []
    ensures var s0, q := s.(toReceiver := s.toReceiver[1..]), s.toReceiver[0];
            Q.Next(s, Q.ReceiverStep(waiting, sent, clock)) == Q.Receive(Q.Record(s0, q), q, waiting, sent, clock)
  {
    hide Q.Receive, Q.Record;
  }

  lemma WorldReceives(w: World, waiting: bool, clock: int, io: SendResult)
    requires w.forward != []
    ensures var d := C.Next(w.receiver, Handler(w.forward[0], waiting, clock, io));
            Next(w, AtReceiver(waiting, clock, io))
            == w.(receiver := d, forward := w.forward[1..], back := w.back + Emitted(w.receiver, d))
  {
    hide C.Next, Handler, Emitted;
  }

  lemma AtReceiverSim(w: World, s: Q.System, tags: seq<nat>, waiting: bool, clock: int,
                      io: SendResult) returns (more: seq<nat>)
    requires Sim(w, s, tags) && w.forward != []
    ensures Sim(Next(w, AtReceiver(waiting, clock, io)), Q.Next(s, Q.ReceiverStep(waiting, io != Failed, clock)), more)
  {
    hide *;
    ReceiverFacts(w, s, tags);
    var p, q := w.forward[0], s.toReceiver[0];
    var step, ev := Q.ReceiverStep(waiting, io != Failed, clock), Handler(p, waiting, clock, io);
    var s0 := s.(toReceiver := s.toReceiver[1..]);
    SystemReceives(s, waiting, io != Failed, clock);
    WorldReceives(w, waiting, clock, io);
    ReceiverAlike(w.receiver, s0, w.texts, p, q, waiting, clock, io);
    ReceiveFrame(s0, q, waiting, io != Failed, clock);
    StepKeepsInv(s, step);
    StepRetains(s, step);
    C.NextSane(w.receiver, ev);
    more := ReceiverSim(w, s, tags, C.Next(w.receiver, ev), Q.Next(s, step));
  }

  // ---------------------------------------------------------------- at the sender

  lemma AnswerHandled(a: State, q: Q.ToSender, clock: int, io: SendResult)
    requires IsId(q.msgid)
    ensures var ev := Handler(Reply(q), false, clock, io);
            && C.Enabled(a, ev)
            && C.Next(a, ev) == match q
                                case Puback(id) => OnPubackS(a, id)
                                case Pubrec(id) => OnPubrecS(a, id, clock, io)
                                case Pubcomp(id) => OnPubcompS(a, id)
  {
    hide OnPubackS, OnPubrecS, OnPubcompS;
  }

  lemma RemovedTwin(a: State, d: State, i: nat, outbound: seq<Message<nat>>, texts: seq<Text>)
    requires Owned(a) && Owned(d) && i < |a.outbound| && i < |outbound|
    requires d.outbound == RemoveAt(a.outbound, i) && d.publications == Release(a, a.outbound[i].body).publications
    requires Twin(a.outbound, TextsOf(a.publications), outbound, Numbered(texts))
    ensures Twin(d.outbound, TextsOf(d.publications), RemoveAt(outbound, i), Numbered(texts))
  {
    ReleaseKeepsTexts(a, a.outbound[i].body);
    hide *;
    RemovedTexts(a, d, i);
    TwinRemove(a.outbound, TextsOf(a.publications), outbound, Numbered(texts), i);
    TwinTexts(d.outbound, TextsOf(a.publications), TextsOf(d.publications), RemoveAt(outbound, i), Numbered(texts));
  }

  /** The entries that stay show the same texts. */
  lemma RemovedTexts(a: State, d: State, i: nat)
    requires Owned(a) && Owned(d) && i < |a.outbound| && d.outbound == RemoveAt(a.outbound, i)
    requires TextsKept(a.publications, d.publications, a.nextRef)
    ensures forall j :: 0 <= j < |d.outbound| ==>
              TextsOf(d.publications)(d.outbound[j].body) == TextsOf(a.publications)(d.outbound[j].body)
  {
    var ms := d.outbound;
    forall j | 0 <= j < |ms| ensures ms[j] in a.outbound { assert ms[j] == a.outbound[if j < i then j else j + 1]; }
    hide Owned, TextsKept, RemoveAt, TextOf;
    ViewsKept(a, d, ms);
    forall j | 0 <= j < |ms| ensures TextOf(d.publications, ms[j].body) == TextOf(a.publications, ms[j].body) {
      assert Views(d.publications, ms)[j] == Views(a.publications, ms)[j];
    }
  }

  lemma TwinTexts(ms: seq<Message<nat>>, f: Reading, h: Reading, b: seq<Message<nat>>, g: Reading)
    requires Twin(ms, f, b, g) && forall j :: 0 <= j < |ms| ==> h(ms[j].body) == f(ms[j].body)
    ensures Twin(ms, h, b, g)
  {
    ErasedSame(ms, h, f);
  }

  lemma NumbersRemoved(numbers: map<int, nat>, ms: seq<Message<nat>>, i: nat)
    requires NumbersAgree(numbers, ms) && i < |ms|
    ensures NumbersAgree(numbers, RemoveAt(ms, i))
  {
    forall j | 0 <= j < |ms| - 1
      ensures RemoveAt(ms, i)[j].msgid in numbers && numbers[RemoveAt(ms, i)[j].msgid] == RemoveAt(ms, i)[j].body
    {
      assert RemoveAt(ms, i)[j] == ms[if j < i then j else j + 1];
    }
  }

  /** The list after an acknowledgement that removes an entry, advances it or is ignored. */
  lemma SettledTwin(a: State, d: State, o: Outcome, clock: int, outbound: seq<Message<nat>>, numbers: map<int, nat>,
                    texts: seq<Text>)
    requires Owned(a) && Owned(d) && (o.Ignore? || (o.at < |a.outbound| && o.at < |outbound|))
    requires d.outbound == Settle(a.outbound, o, clock)
    requires d.publications == if o.Remove? then Release(a, a.outbound[o.at].body).publications else a.publications
    requires Twin(a.outbound, TextsOf(a.publications), outbound, Numbered(texts)) && NumbersAgree(numbers, outbound)
    ensures Twin(d.outbound, TextsOf(d.publications), Settle(outbound, o, clock), Numbered(texts))
    ensures NumbersAgree(numbers, Settle(outbound, o, clock))
  {
    match o
    case Ignore =>
    case Remove(i) =>
      RemovedTwin(a, d, i, outbound, texts);
      NumbersRemoved(numbers, outbound, i);
    case Advance(i) =>
      TwinUpdate(a.outbound, TextsOf(a.publications), outbound, Numbered(texts), i, AwaitPubcomp, clock);
  }

  /** What an acknowledgement does to the list, in the client and in the system. */
  ghost function AnswerOutcome(ms: seq<Message<nat>>, q: Q.ToSender): Outcome {
    match q
    case Puback(id) => OnPuback(ms, id)
    case Pubrec(id) => OnPubrec(ms, id, false)
    case Pubcomp(id) => OnPubcomp(ms, id)
  }

  lemma AnswerFrame(a: State, q: Q.ToSender, clock: int, io: SendResult)
    requires IsId(q.msgid)
    ensures var d, o := C.Next(a, Handler(Reply(q), false, clock, io)), AnswerOutcome(a.outbound, q);
            && (o.Ignore? || (o.at < |a.outbound| && a.outbound[o.at].msgid == q.msgid))
            && d.outbound == Settle(a.outbound, o, clock)
            && d.publications == (if o.Remove? then Release(a, a.outbound[o.at].body).publications else a.publications)
            && d.sent == a.sent + (if o.Advance? && io != Failed then [P.Ack(P.Pubrel, false, q.msgid)] else [])
  {
    AnswerHandled(a, q, clock, io);
    hide C.Next, Handler, Reply;
    C.AcknowledgedLists(a, q.msgid, clock, io);
    match q
    case Puback(id) => PubackFrame(a, id);
    case Pubrec(id) =>
    case Pubcomp(id) => PubcompFrame(a, id);
  }

  lemma SystemAnswered(s: Q.System, q: Q.ToSender, sent: bool, clock: int)
    ensures var e, o := Q.Acknowledge(s, q, sent, clock), AnswerOutcome(s.outbound, q);
            && (o.Ignore? || o.at < |s.outbound|)
            && e.outbound == Settle(s.outbound, o, clock)
            && e.toReceiver == s.toReceiver + (if o.Advance? && sent then [Q.Pubrel(q.msgid, false)] else [])
            && e.completed == s.completed + (if q.Pubcomp? && o.Remove? then {s.outbound[o.at].body} else {})
            && e == s.(outbound := e.outbound, toReceiver := e.toReceiver, released := e.released, completed := e.completed)
  {
    hide IndexOf, RemoveAt;
  }

  lemma ForwardAfterAnswer(a: State, d: State, o: Outcome, sent: bool, id: int, ps: seq<P.Packet>,
                           qs: seq<Q.ToReceiver>, texts: seq<Text>)
    requires IsId(id) && ForwardAgrees(ps, qs, texts)
    requires d.sent == a.sent + (if o.Advance? && sent then [P.Ack(P.Pubrel, false, id)] else [])
    ensures ForwardAgrees(ps + Emitted(a, d), qs + (if o.Advance? && sent then [Q.Pubrel(id, false)] else []), texts)
  {
    if o.Advance? && sent {
      WrittenIs(a, d, [P.Ack(P.Pubrel, false, id)]);
      ForwardGrows(ps, qs, texts, P.Ack(P.Pubrel, false, id), Q.Pubrel(id, false));
    } else {
      WrittenIs(a, d, []);
      assert ps + [] == ps && qs + [] == qs;
    }
  }

  lemma CompletedAlike(w: World, q: Q.ToSender, outbound: seq<Message<nat>>)
    requires NumbersAgree(w.numbers, outbound) && OnPubcomp(w.sender.outbound, q.msgid) == OnPubcomp(outbound, q.msgid)
    ensures var o := AnswerOutcome(outbound, q);
            Completes(w, Reply(q)) == if q.Pubcomp? && o.Remove? then {outbound[o.at].body} else {}
  {
  }

  lemma OutcomeAlike(a: seq<Message<nat>>, f: Reading, b: seq<Message<nat>>, g: Reading, q: Q.ToSender)
    requires Twin(a, f, b, g)
    ensures AnswerOutcome(a, q) == AnswerOutcome(b, q) && OnPubcomp(a, q.msgid) == OnPubcomp(b, q.msgid)
  {
    TwinOutcomes(a, f, b, g, q.msgid);
    hide OnPuback, OnPubrec, OnPubcomp, Twin;
  }

  /** One acknowledgement at the sender: the same list, packet and completion. */
  lemma SenderAlike(w: World, s: Q.System, q: Q.ToSender, clock: int, io: SendResult)
    requires SenderAgrees(w.sender, s.outbound, w.numbers, w.texts) && IsId(q.msgid)
         && ForwardAgrees(w.forward, s.toReceiver, w.texts)
    ensures var ev := Handler(Reply(q), false, clock, io);
            var d, e := C.Next(w.sender, ev), Q.Acknowledge(s, q, io != Failed, clock);
            && SenderAgrees(d, e.outbound, w.numbers, w.texts)
            && ForwardAgrees(w.forward + Emitted(w.sender, d), e.toReceiver, w.texts)
            && e.completed == s.completed + Completes(w, Reply(q))
  {
    var ev, o := Handler(Reply(q), false, clock, io), AnswerOutcome(s.outbound, q);
    var d := C.Next(w.sender, ev);
    assert C.Sane(w.sender) && Owned(w.sender);
    assert Twin(w.sender.outbound, TextsOf(w.sender.publications), s.outbound, Numbered(w.texts))
         && NumbersAgree(w.numbers, s.outbound);
    hide *;
    OutcomeAlike(w.sender.outbound, TextsOf(w.sender.publications), s.outbound, Numbered(w.texts), q);
    CompletedAlike(w, q, s.outbound);
    AnswerFrame(w.sender, q, clock, io);
    SystemAnswered(s, q, io != Failed, clock);
    C.NextSane(w.sender, ev);
    SaneOwned(d);
    SettledTwin(w.sender, d, o, clock, s.outbound, w.numbers, w.texts);
    ForwardAfterAnswer(w.sender, d, o, io != Failed, q.msgid, w.forward, s.toReceiver, w.texts);
    SenderAgreesIf(d, Q.Acknowledge(s, q, io != Failed, clock).outbound, w.numbers, w.texts);
  }

  lemma SaneOwned(s: State)
    requires C.Sane(s)
    ensures Owned(s) && Mirrored(s)
  {
  }

  lemma SenderAgreesIf(a: State, outbound: seq<Message<nat>>, numbers: map<int, nat>, texts: seq<Text>)
    requires C.Sane(a) && Twin(a.outbound, TextsOf(a.publications), outbound, Numbered(texts))
         && NumbersAgree(numbers, outbound)
    ensures SenderAgrees(a, outbound, numbers, texts)
  {
  }

  lemma SystemSends(s: Q.System, sent: bool, clock: int)
    requires s.toSender != []
    ensures Q.Next(s, Q.SenderStep(sent, clock)) == Q.Acknowledge(s.(toSender := s.toSender[1..]), s.toSender[0], sent, clock)
  {
    hide Q.Acknowledge;
  }

  lemma WorldSends(w: World, clock: int, io: SendResult)
    requires w.back != []
    ensures var d := C.Next(w.sender, Handler(w.back[0], false, clock, io));
            Next(w, AtSender(clock, io))
            == w.(sender := d, back := w.back[1..], forward := w.forward + Emitted(w.sender, d),
                  completed := w.completed + Completes(w, w.back[0]))
  {
    hide C.Next, Handler, Emitted, Completes;
  }

  lemma SenderFacts(w: World, s: Q.System, tags: seq<nat>)
    requires Sim(w, s, tags) && w.back != []
    ensures s.toSender != [] && Inv(s) && Retained(s) && w.back[0] == Reply(s.toSender[0]) && IsId(s.toSender[0].msgid)
    ensures SenderAgrees(w.sender, s.outbound, w.numbers, w.texts) && ForwardAgrees(w.forward, s.toReceiver, w.texts)
    ensures BackAgrees(w.back[1..], s.toSender[1..])
  {
    hide Inv, Retained, SenderAgrees, ReceiverAgrees, ForwardAgrees, From;
  }

  /** The receiver's half of the relation does not look at the sender's. */
  lemma SenderSim(w: World, s: Q.System, tags: seq<nat>, v: World, e: Q.System)
    requires Sim(w, s, tags) && Inv(e) && Retained(e) && SenderAgrees(v.sender, e.outbound, v.numbers, v.texts)
    requires v == w.(sender := v.sender, forward := v.forward, back := v.back, completed := v.completed)
    requires e.v5 == s.v5 && e.inbound == s.inbound && e.records == s.records && e.qosOf == s.qosOf
         && e.delivered == s.delivered
    requires ForwardAgrees(v.forward, e.toReceiver, v.texts) && BackAgrees(v.back, e.toSender) && v.completed == e.completed
    ensures Sim(v, e, tags)
  {
    hide Inv, Retained, C.Sane, SenderAgrees, ForwardAgrees, BackAgrees, From, RecordsAgree, LedgerOf;
  }

  lemma CompletedSame(w: World, s: Q.System, tags: seq<nat>)
    requires Sim(w, s, tags)
    ensures w.completed == s.completed
  {
    hide Inv, Retained, SenderAgrees, ReceiverAgrees, ForwardAgrees, BackAgrees, From;
  }

  lemma AtSenderSim(w: World, s: Q.System, tags: seq<nat>, clock: int, io: SendResult)
    requires Sim(w, s, tags) && w.back != []
    ensures Sim(Next(w, AtSender(clock, io)), Q.Next(s, Q.SenderStep(io != Failed, clock)), tags)
  {
    hide *;
    SenderFacts(w, s, tags);
    CompletedSame(w, s, tags);
    var q, s0 := s.toSender[0], s.(toSender := s.toSender[1..]);
    SystemSends(s, io != Failed, clock);
    WorldSends(w, clock, io);
    SenderAlike(w, s0, q, clock, io);
    SystemAnswered(s0, q, io != Failed, clock);
    StepKeepsInv(s, Q.SenderStep(io != Failed, clock));
    StepRetains(s, Q.SenderStep(io != Failed, clock));
    SenderSim(w, s, tags, Next(w, AtSender(clock, io)), Q.Next(s, Q.SenderStep(io != Failed, clock)));
  }

  // ---------------------------------------------------------------- retries

  lemma {:induction false} RetryFrame(a: State, k: nat, t: RetryTime, io: seq<RetryIo>)
    requires k <= |a.outbound| && IdsNonNegative(a.outbound)
    ensures RetryS(a, k, t, io).publications == a.publications
    decreases |a.outbound| - k
  {
    if k == |a.outbound| || k >= |io| || io[k].Stop? {
    } else {
      var m := a.outbound[k];
      if !Due(m, t) || !(ResendsPublish(m) || ResendsPubrel(m)) {
        RetryFrame(a, k + 1, t, io);
      } else {
        ResendFrame(a, m, io[k].result);
        var a1 := Resend(a, m, io[k].result);
        hide Resend;
        RetryFrame(a1.(outbound := a1.outbound[k := m.(lastTouch := t.clock)]), k + 1, t, io);
      }
    }
  }

  lemma AgainAgrees(a: State, m: Message<nat>, n: Message<nat>, texts: seq<Text>)
    requires Plain(m, TextOf(a.publications, m.body)) == Plain(n, Numbered(texts)(n.body)) && n.body < |texts|
    requires IsId(m.msgid) && 0 <= m.qos < 4 && |TextOf(a.publications, m.body).topic| < 0x1_0000
    ensures PacketAgrees(C.Again(a, m), Q.Resent(n), texts)
  {
  }

  lemma SaneEntry(a: State, i: nat)
    requires C.Sane(a) && i < |a.outbound|
    ensures var m := a.outbound[i];
            && m.body in a.publications && IsId(m.msgid) && (m.qos == 1 || m.qos == 2)
            && |TextOf(a.publications, m.body).topic| < 0x1_0000
  {
    OutboundBody(a, i);
    ViewNext(a, i);
    hide Owned, Mirrored, TextOf, IsRecord;
  }

  lemma ForwardAll(ps: seq<P.Packet>, qs: seq<Q.ToReceiver>, ps': seq<P.Packet>, qs': seq<Q.ToReceiver>, texts: seq<Text>)
    requires ForwardAgrees(ps, qs, texts) && ForwardAgrees(ps', qs', texts)
    ensures ForwardAgrees(ps + ps', qs + qs', texts)
  {
    hide PacketAgrees;
  }

  lemma AgainAllAgrees(a: State, outbound: seq<Message<nat>>, at: seq<nat>, texts: seq<Text>)
    requires C.Sane(a) && Twin(a.outbound, TextsOf(a.publications), outbound, Numbered(texts))
    requires forall i :: 0 <= i < |outbound| ==> outbound[i].body < |texts|
    requires forall j :: 0 <= j < |at| ==> at[j] < |a.outbound| && at[j] < |outbound|
    ensures ForwardAgrees(C.AgainAll(a, a.outbound, at), Q.ResentAll(outbound, at), texts)
  {
    var ps, qs := C.AgainAll(a, a.outbound, at), Q.ResentAll(outbound, at);
    hide C.Sane, Twin, PacketAgrees, Plain, TextOf, Numbered;
    forall j | 0 <= j < |ps| ensures PacketAgrees(ps[j], qs[j], texts) {
      SaneEntry(a, at[j]);
      TwinAt(a.outbound, TextsOf(a.publications), outbound, Numbered(texts), at[j]);
      AgainAgrees(a, a.outbound[at[j]], outbound[at[j]], texts);
    }
  }

  lemma SaneRetry(a: State)
    requires C.Sane(a)
    ensures IdsNonNegative(a.outbound) && C.BodiesStored(a)
  {
    hide C.Sane;
    forall i | 0 <= i < |a.outbound| ensures a.outbound[i].msgid >= 0 && a.outbound[i].body in a.publications {
      SaneEntry(a, i);
    }
  }

  lemma RetryEvent(a: State, t: RetryTime, tries: seq<RetryIo>)
    requires IdsNonNegative(a.outbound)
    ensures C.Next(a, C.Retry(t, tries)) == RetryS(a, 0, t, tries)
  {
    hide RetryS;
  }

  lemma NumbersTouched(numbers: map<int, nat>, a: seq<Message<nat>>, b: seq<Message<nat>>)
    requires NumbersAgree(numbers, b) && SameButTouch(a, b)
    ensures NumbersAgree(numbers, a)
  {
    forall i | 0 <= i < |a| ensures a[i].msgid in numbers && numbers[a[i].msgid] == a[i].body {
      assert a[i] == b[i].(lastTouch := a[i].lastTouch);
    }
  }

  lemma RetryAlike(w: World, s: Q.System, t: RetryTime, tries: seq<RetryIo>)
    requires SenderAgrees(w.sender, s.outbound, w.numbers, w.texts) && ForwardAgrees(w.forward, s.toReceiver, w.texts)
    requires forall i :: 0 <= i < |s.outbound| ==> s.outbound[i].body < |w.texts|
    ensures var d, r := C.Next(w.sender, C.Retry(t, tries)), RetryFrom(s.outbound, 0, t, tries);
            && IdsNonNegative(w.sender.outbound) && SenderAgrees(d, r.list, w.numbers, w.texts)
            && (forall j :: 0 <= j < |r.sent| ==> r.sent[j] < |s.outbound|)
            && ForwardAgrees(w.forward + Emitted(w.sender, d), s.toReceiver + Q.ResentAll(s.outbound, r.sent), w.texts)
  {
    var a, f, g := w.sender, TextsOf(w.sender.publications), Numbered(w.texts);
    assert C.Sane(a) && Twin(a.outbound, f, s.outbound, g) && NumbersAgree(w.numbers, s.outbound);
    TwinIndex(a.outbound, f, s.outbound, g, 0);
    SaneRetry(a);
    RetryEvent(a, t, tries);
    hide *;
    var d := C.Next(a, C.Retry(t, tries));
    var r := RetryFrom(s.outbound, 0, t, tries);
    TwinRetry(a.outbound, f, s.outbound, g, 0, t, tries);
    C.RetryAgrees(a, 0, t, tries);
    RetryFrame(a, 0, t, tries);
    RetriesInOrder(s.outbound, 0, t, tries);
    NumbersTouched(w.numbers, r.list, s.outbound);
    C.NextSane(a, C.Retry(t, tries));
    SenderAgreesIf(d, r.list, w.numbers, w.texts);
    AgainAllAgrees(a, s.outbound, r.sent, w.texts);
    WrittenIs(a, d, C.AgainAll(a, a.outbound, r.sent));
    ForwardAll(w.forward, s.toReceiver, C.AgainAll(a, a.outbound, r.sent), Q.ResentAll(s.outbound, r.sent), w.texts);
  }

  lemma SystemRetries(s: Q.System, t: RetryTime, io: seq<RetryIo>)
    requires var r := RetryFrom(s.outbound, 0, t, io); forall j :: 0 <= j < |r.sent| ==> r.sent[j] < |s.outbound|
    ensures var r := RetryFrom(s.outbound, 0, t, io);
            Q.Next(s, Q.RetryStep(t, io)) == s.(outbound := r.list, toReceiver := s.toReceiver + Q.ResentAll(s.outbound, r.sent))
  {
    hide RetryFrom, Q.ResentAll;
  }

  lemma WorldRetries(w: World, t: RetryTime, io: seq<RetryIo>)
    requires IdsNonNegative(w.sender.outbound)
    ensures var d := C.Next(w.sender, C.Retry(t, io));
            Next(w, Retry(t, io)) == w.(sender := d, forward := w.forward + Emitted(w.sender, d))
  {
    hide C.Next, Emitted;
  }

  lemma SimFacts(w: World, s: Q.System, tags: seq<nat>)
    requires Sim(w, s, tags)
    ensures Inv(s) && Retained(s) && !s.v5 && Bounded(s) && |w.texts| == |s.qosOf| && w.completed == s.completed
         && w.qosOf == s.qosOf
    ensures SenderAgrees(w.sender, s.outbound, w.numbers, w.texts) && ForwardAgrees(w.forward, s.toReceiver, w.texts)
    ensures BackAgrees(w.back, s.toSender) && ReceiverAgrees(w.receiver, s, w.texts)
    ensures From(w.receiver.delivered, tags, w.texts) && s.delivered == multiset(tags)
    ensures forall i :: 0 <= i < |s.outbound| ==> s.outbound[i].body < |w.texts|
  {
    InvBounded(s);
    hide Inv, Retained, SenderAgrees, ReceiverAgrees, ForwardAgrees, BackAgrees, From;
  }

  lemma RetrySim(w: World, s: Q.System, tags: seq<nat>, t: RetryTime, io: seq<RetryIo>)
    requires Sim(w, s, tags)
    ensures Sim(Next(w, Retry(t, io)), Q.Next(s, Q.RetryStep(t, io)), tags)
  {
    hide *;
    SimFacts(w, s, tags);
    RetryAlike(w, s, t, io);
    WorldRetries(w, t, io);
    SystemRetries(s, t, io);
    StepKeepsInv(s, Q.RetryStep(t, io));
    StepRetains(s, Q.RetryStep(t, io));
    SenderSim(w, s, tags, Next(w, Retry(t, io)), Q.Next(s, Q.RetryStep(t, io)));
  }

  // ---------------------------------------------------------------- publishing

  lemma PublishSent(a: State, id: int, qos: int, retain: bool, topic: bytes, payload: bytes,
                    shared: Option<nat>, clock: int, io: SendResult)
    requires Publishable(a, id, qos, topic, shared)
    ensures var d, text := StartPublish(a, id, qos, retain, topic, payload, shared, clock, io),
                           NewView(a, id, qos, retain, topic, payload, shared).body;
            && d.sent == a.sent + (if io == Failed then [] else [P.Publish(false, qos, retain, text.topic, id, text.payload)])
            && |text.topic| < 0x1_0000
  {
    hide KeyOf, P.Serialized;
  }

  /** What a publish call does to the lists and the channel. */
  lemma SenderPublished(a: State, ev: C.Event)
    requires C.Sane(a) && ev.Publish? && C.Enabled(a, ev)
    ensures var d, text := C.Next(a, ev), NewView(a, ev.id, ev.qos, ev.retain, ev.topic, ev.payload, ev.shared).body;
            var m := Message(ev.id, ev.qos, ev.retain, if ev.qos == 2 then AwaitPubrec else Unset, ev.clock, RefOf(a, ev.shared));
            && 1 <= ev.id <= MAX_MSG_ID && (ev.qos == 1 || ev.qos == 2) && !InUse(a.outbound, ev.id)
            && |text.topic| < 0x1_0000
            && d.outbound == a.outbound + [m] && TextOf(d.publications, m.body) == text
            && (forall i :: 0 <= i < |a.outbound| ==>
                  TextOf(d.publications, a.outbound[i].body) == TextOf(a.publications, a.outbound[i].body))
            && d.sent == a.sent + (if ev.io == Failed then [] else [P.Publish(false, ev.qos, ev.retain, text.topic, ev.id, text.payload)])
  {
    var a1 := a.(msgID := ev.id);
    C.PublishAllowed(a, ev);
    hide C.Sane, Owned, Mirrored, C.Next, StartPublish, Refer, TextOf, InUse;
    PublishLists(a1, ev.id, ev.qos, ev.retain, ev.topic, ev.payload, ev.shared, ev.clock, ev.io);
    PublishSent(a1, ev.id, ev.qos, ev.retain, ev.topic, ev.payload, ev.shared, ev.clock, ev.io);
    ReferTexts(a1, ev.topic, ev.payload, ev.shared);
    forall i | 0 <= i < |a.outbound| ensures a.outbound[i].body in a1.publications && a.outbound[i].body < a1.nextRef {
      OutboundBody(a1, i);
    }
  }

  /** Another text at the end changes none of the numbers in use. */
  lemma MoreTwin(ms: seq<Message<nat>>, f: Reading, b: seq<Message<nat>>, texts: seq<Text>, x: Text)
    requires Twin(ms, f, b, Numbered(texts)) && forall i :: 0 <= i < |b| ==> b[i].body < |texts|
    ensures Twin(ms, f, b, Numbered(texts + [x]))
  {
    ErasedSame(b, Numbered(texts + [x]), Numbered(texts));
  }

  lemma MoreRecords(received: map<int, bytes>, records: map<int, nat>, texts: seq<Text>, x: Text)
    requires RecordsAgree(received, records, texts) && forall id :: id in records ==> records[id] < |texts|
    ensures RecordsAgree(received, records, texts + [x])
  {
    hide Recalled;
    forall id | id in records ensures RecordAgrees(received[id], id, records[id], texts + [x]) {
      assert RecordAgrees(received[id], id, records[id], texts);
      assert Numbered(texts + [x])(records[id]) == Numbered(texts)(records[id]);
    }
  }

  lemma MoreReceiver(b: State, s: Q.System, texts: seq<Text>, x: Text)
    requires ReceiverAgrees(b, s, texts) && Bounded(s) && |texts| == |s.qosOf|
    ensures ReceiverAgrees(b, s, texts + [x])
  {
    ErasedSame(s.inbound, Numbered(texts + [x]), Numbered(texts));
    MoreRecords(LedgerOf(b.store).received, s.records, texts, x);
    hide C.Sane, RecordsAgree, LedgerOf, Erased;
  }

  lemma MoreForward(ps: seq<P.Packet>, qs: seq<Q.ToReceiver>, texts: seq<Text>, x: Text)
    requires ForwardAgrees(ps, qs, texts)
    ensures ForwardAgrees(ps, qs, texts + [x])
  {
    forall i | 0 <= i < |ps| ensures PacketAgrees(ps[i], qs[i], texts + [x]) {
      assert PacketAgrees(ps[i], qs[i], texts);
    }
  }

  lemma MoreFrom(ds: seq<Delivery>, tags: seq<nat>, texts: seq<Text>, x: Text)
    requires From(ds, tags, texts)
    ensures From(ds, tags, texts + [x])
  {
  }

  lemma NumbersAdded(numbers: map<int, nat>, ms: seq<Message<nat>>, m: Message<nat>)
    requires NumbersAgree(numbers, ms) && !InUse(ms, m.msgid)
    ensures NumbersAgree(numbers[m.msgid := m.body], ms + [m])
  {
    NotInUse(ms, m.msgid);
  }

  lemma PublishAlike(w: World, s: Q.System, ev: C.Event)
    requires SenderAgrees(w.sender, s.outbound, w.numbers, w.texts) && ForwardAgrees(w.forward, s.toReceiver, w.texts)
    requires ev.Publish? && C.Enabled(w.sender, ev)
    requires forall i :: 0 <= i < |s.outbound| ==> s.outbound[i].body < |w.texts|
    ensures var d, tag := C.Next(w.sender, ev), |w.texts|;
            var texts := w.texts + [NewView(w.sender, ev.id, ev.qos, ev.retain, ev.topic, ev.payload, ev.shared).body];
            var n := Message(ev.id, ev.qos, false, if ev.qos == 2 then AwaitPubrec else Unset, ev.clock, tag);
            && (ev.qos == 1 || ev.qos == 2) && 1 <= ev.id <= MAX_MSG_ID && !InUse(s.outbound, ev.id)
            && SenderAgrees(d, s.outbound + [n], w.numbers[ev.id := tag], texts)
            && ForwardAgrees(w.forward + Emitted(w.sender, d),
                             Q.Emit(s.toReceiver, Q.Publish(ev.id, ev.qos, false, tag), ev.io != Failed), texts)
  {
    var a, d, tag := w.sender, C.Next(w.sender, ev), |w.texts|;
    var text := NewView(a, ev.id, ev.qos, ev.retain, ev.topic, ev.payload, ev.shared).body;
    var texts := w.texts + [text];
    var n: Message<nat> := Message(ev.id, ev.qos, false, if ev.qos == 2 then AwaitPubrec else Unset, ev.clock, tag);
    assert C.Sane(a) && Twin(a.outbound, TextsOf(a.publications), s.outbound, Numbered(w.texts))
         && NumbersAgree(w.numbers, s.outbound);
    SenderPublished(a, ev);
    C.NextSane(a, ev);
    hide C.Sane, C.Next, C.Enabled, NewView, Twin, TextOf, NumbersAgree, ForwardAgrees, InUse, SenderAgrees, Emitted;
    TwinOutcomes(a.outbound, TextsOf(a.publications), s.outbound, Numbered(w.texts), ev.id);
    TwinTexts(a.outbound, TextsOf(a.publications), TextsOf(d.publications), s.outbound, Numbered(w.texts));
    MoreTwin(a.outbound, TextsOf(d.publications), s.outbound, w.texts, text);
    TwinAppend(a.outbound, TextsOf(d.publications), s.outbound, Numbered(texts), d.outbound[|a.outbound|], n);
    NumbersAdded(w.numbers, s.outbound, n);
    SenderAgreesIf(d, s.outbound + [n], w.numbers[ev.id := tag], texts);
    MoreForward(w.forward, s.toReceiver, w.texts, text);
    PublishForward(a, d, ev, text, w.forward, s.toReceiver, texts);
  }

  lemma PublishForward(a: State, d: State, ev: C.Event, text: Text, ps: seq<P.Packet>, qs: seq<Q.ToReceiver>,
                       texts: seq<Text>)
    requires ForwardAgrees(ps, qs, texts) && texts != [] && texts[|texts| - 1] == text && |text.topic| < 0x1_0000
    requires ev.Publish? && (ev.qos == 1 || ev.qos == 2) && 1 <= ev.id <= MAX_MSG_ID
    requires d.sent == a.sent + (if ev.io == Failed then [] else [P.Publish(false, ev.qos, ev.retain, text.topic, ev.id, text.payload)])
    ensures ForwardAgrees(ps + Emitted(a, d), Q.Emit(qs, Q.Publish(ev.id, ev.qos, false, |texts| - 1), ev.io != Failed), texts)
  {
    if ev.io == Failed {
      WrittenIs(a, d, []);
      assert ps + [] == ps;
    } else {
      var p := P.Publish(false, ev.qos, ev.retain, text.topic, ev.id, text.payload);
      WrittenIs(a, d, [p]);
      ForwardGrows(ps, qs, texts, p, Q.Publish(ev.id, ev.qos, false, |texts| - 1));
    }
  }

  function EventOf(step: Step): C.Event
    requires step.Publish?
  {
    C.Publish(step.id, step.qos, step.retain, step.topic, step.payload, step.shared, step.clock, step.io)
  }

  function TextPublished(a: State, step: Step): Text
    requires step.Publish?
  {
    if step.shared.None? then Text(step.topic, step.payload) else TextOf(a.publications, step.shared.value)
  }

  lemma WorldPublishes(w: World, step: Step)
    requires step.Publish? && Enabled(w, step)
    ensures var d := C.Next(w.sender, EventOf(step));
            C.Enabled(w.sender, EventOf(step)) &&
            Next(w, step) == w.(sender := d, forward := w.forward + Emitted(w.sender, d), texts := w.texts + [TextPublished(w.sender, step)],
                                qosOf := w.qosOf + [step.qos], numbers := w.numbers[step.id := |w.texts|])
  {
    hide C.Next, Emitted, C.Enabled, TextOf;
  }

  lemma SystemPublishes(s: Q.System, step: Step)
    requires step.Publish? && (step.qos == 1 || step.qos == 2) && 1 <= step.id <= MAX_MSG_ID && !InUse(s.outbound, step.id)
    ensures var tag, sent := |s.qosOf|, step.io != Failed;
            var n := Message(step.id, step.qos, false, if step.qos == 2 then AwaitPubrec else Unset, step.clock, tag);
            Q.Next(s, Q.PublishStep(step.id, step.qos, sent, step.clock))
            == s.(outbound := s.outbound + [n], msgID := step.id, qosOf := s.qosOf + [step.qos],
                  toReceiver := Q.Emit(s.toReceiver, Q.Publish(step.id, step.qos, false, tag), sent))
  {
    hide InUse, Q.Emit;
  }

  lemma PublishSim(w: World, s: Q.System, tags: seq<nat>, step: Step)
    requires Sim(w, s, tags) && step.Publish? && Enabled(w, step)
    ensures Sim(Next(w, step), Q.Next(s, Q.PublishStep(step.id, step.qos, step.io != Failed, step.clock)), tags)
  {
    hide *;
    var text := TextPublished(w.sender, step);
    SimFacts(w, s, tags);
    WorldPublishes(w, step);
    PublishStepAlike(w, s, step);
    SystemPublishes(s, step);
    var qstep := Q.PublishStep(step.id, step.qos, step.io != Failed, step.clock);
    StepKeepsInv(s, qstep);
    StepRetains(s, qstep);
    MoreReceiver(w.receiver, s, w.texts, text);
    MoreFrom(w.receiver.delivered, tags, w.texts, text);
    SimIf(Next(w, step), Q.Next(s, qstep), s, tags);
  }

  lemma EventParts(a: State, step: Step)
    requires step.Publish?
    ensures var ev := EventOf(step);
            && ev.Publish? && ev.id == step.id && ev.qos == step.qos && ev.clock == step.clock && ev.io == step.io
            && NewView(a, ev.id, ev.qos, ev.retain, ev.topic, ev.payload, ev.shared).body == TextPublished(a, step)
  {
    hide TextOf;
  }

  lemma PublishStepAlike(w: World, s: Q.System, step: Step)
    requires SenderAgrees(w.sender, s.outbound, w.numbers, w.texts) && ForwardAgrees(w.forward, s.toReceiver, w.texts)
    requires step.Publish? && C.Enabled(w.sender, EventOf(step))
    requires forall i :: 0 <= i < |s.outbound| ==> s.outbound[i].body < |w.texts|
    ensures var d, tag, texts := C.Next(w.sender, EventOf(step)), |w.texts|, w.texts + [TextPublished(w.sender, step)];
            var n := Message(step.id, step.qos, false, if step.qos == 2 then AwaitPubrec else Unset, step.clock, tag);
            && (step.qos == 1 || step.qos == 2) && 1 <= step.id <= MAX_MSG_ID && !InUse(s.outbound, step.id)
            && SenderAgrees(d, s.outbound + [n], w.numbers[step.id := tag], texts)
            && ForwardAgrees(w.forward + Emitted(w.sender, d),
                             Q.Emit(s.toReceiver, Q.Publish(step.id, step.qos, false, tag), step.io != Failed), texts)
  {
    hide *;
    EventParts(w.sender, step);
    PublishAlike(w, s, EventOf(step));
  }

  /** The relation from its parts; the receiver's half was shown for a system with the same receiver. */
  lemma SimIf(w: World, s: Q.System, s0: Q.System, tags: seq<nat>)
    requires !s.v5 && Inv(s) && Retained(s) && SenderAgrees(w.sender, s.outbound, w.numbers, w.texts)
    requires ReceiverAgrees(w.receiver, s0, w.texts) && s.inbound == s0.inbound && s.records == s0.records
    requires ForwardAgrees(w.forward, s.toReceiver, w.texts) && BackAgrees(w.back, s.toSender)
    requires From(w.receiver.delivered, tags, w.texts) && s.delivered == multiset(tags)
    requires |w.texts| == |s.qosOf| && w.qosOf == s.qosOf && w.completed == s.completed
    ensures Sim(w, s, tags)
  {
    hide Inv, Retained, C.Sane, SenderAgrees, ForwardAgrees, BackAgrees, From, RecordsAgree, LedgerOf;
  }

  lemma FewerForward(ps: seq<P.Packet>, qs: seq<Q.ToReceiver>, texts: seq<Text>, k: nat)
    requires ForwardAgrees(ps, qs, texts) && k <= |ps|
    ensures k <= |qs| && ForwardAgrees(ps[..k], qs[..k], texts)
  {
    hide PacketAgrees;
  }

  lemma FewerBack(ps: seq<P.Packet>, qs: seq<Q.ToSender>, l: nat)
    requires BackAgrees(ps, qs) && l <= |ps|
    ensures l <= |qs| && BackAgrees(ps[..l], qs[..l])
  {
    hide Reply;
  }

  lemma SystemLoses(s: Q.System, k: nat, l: nat)
    requires k <= |s.toReceiver| && l <= |s.toSender|
    ensures Q.Next(s, Q.LoseStep(k, l)) == s.(toReceiver := s.toReceiver[..k], toSender := s.toSender[..l])
  {
  }

  lemma WorldLoses(w: World, k: nat, l: nat)
    requires k <= |w.forward| && l <= |w.back|
    ensures Next(w, Lose(k, l)) == w.(forward := w.forward[..k], back := w.back[..l])
  {
  }

  lemma LoseSim(w: World, s: Q.System, tags: seq<nat>, k: nat, l: nat)
    requires Sim(w, s, tags) && k <= |w.forward| && l <= |w.back|
    ensures Sim(Next(w, Lose(k, l)), Q.Next(s, Q.LoseStep(k, l)), tags)
  {
    hide *;
    SimFacts(w, s, tags);
    FewerForward(w.forward, s.toReceiver, w.texts, k);
    FewerBack(w.back, s.toSender, l);
    SystemLoses(s, k, l);
    WorldLoses(w, k, l);
    StepKeepsInv(s, Q.LoseStep(k, l));
    StepRetains(s, Q.LoseStep(k, l));
    SimIf(Next(w, Lose(k, l)), Q.Next(s, Q.LoseStep(k, l)), s, tags);
  }
}
