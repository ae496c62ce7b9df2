/** Every step of the two-endpoint system keeps the invariant. */
module Qos2Steps {
  import opened Exchange
  import opened Qos2System
  import opened Qos2Flights
  import opened Qos2Invariant

  lemma PublishStepKeeps(s: System, step: Step)
    requires Inv(s) && step.PublishStep? && Enabled(s, step)
    ensures Inv(Next(s, step))
  {
    hide CoreInv;
    var tag := |s.qosOf|;
    var m := Message(step.id, step.qos, false, if step.qos == 2 then AwaitPubrec else Unset, step.clock, tag);
    FlightsAppend(s.outbound, m);
    PublishCore(CoreOf(s), step.id, step.qos, step.sent);
    hide DistinctIds, IdsInRange;
    assert CoreOf(Next(s, step)) == WithNewEntry(CoreOf(s), step.id, step.qos).(
      toReceiver := Emit(s.toReceiver, Publish(step.id, step.qos, false, tag), step.sent));
  }

  lemma PublishCore(c: Core, id: int, qos: int, sent: bool)
    requires CoreInv(c) && id !in c.out && (qos == 1 || qos == 2)
    ensures CoreInv(WithNewEntry(c, id, qos).(
                      toReceiver := Emit(c.toReceiver, Publish(id, qos, false, |c.qosOf|), sent)))
  {
    hide CoreInv;
    var d := WithNewEntry(c, id, qos);
    NewEntryKeeps(c, id, qos);
    var p := Publish(id, qos, false, |c.qosOf|);
    assert forall i :: 0 <= i < |d.toReceiver| ==> PairOk(d, d.toReceiver[i], p);
    SendKeeps(d, p);
  }

  lemma EntryAt(ms: seq<Message<nat>>, id: int)
    requires DistinctIds(ms) && IdsInRange(ms)
    ensures var i := IndexOf(ms, id);
            if i < |ms| then id in Flights(ms) && Flights(ms)[id] == FlightOf(ms[i]) else id !in Flights(ms)
  {
    ListedFlights(ms);
  }

  lemma SenderStepKeeps(s: System, step: Step)
    requires Inv(s) && step.SenderStep? && Enabled(s, step)
    ensures Inv(Next(s, step))
  {
    hide CoreInv;
    var p := s.toSender[0];
    TakeReply(CoreOf(s));
    var s0 := s.(toSender := s.toSender[1..]);
    assert CoreOf(s0) == CoreOf(s).(toSender := s.toSender[1..]);
    hide ReplyOk, NoReply;
    AcknowledgeShape(s0, p, step.sent, step.clock);
    AcknowledgeCore(s0, p, step);
  }

  lemma AcknowledgeShape(s: System, p: ToSender, sent: bool, clock: int)
    requires DistinctIds(s.outbound) && IdsInRange(s.outbound)
    ensures var r := Acknowledge(s, p, sent, clock);
            && DistinctIds(r.outbound) && IdsInRange(r.outbound)
            && r.inbound == s.inbound && r.msgID == s.msgID
  {
    hide DistinctIds, IdsInRange, RemoveAt, EntryFacts;
    var i := IndexOf(s.outbound, p.msgid);
    if i < |s.outbound| { EntryFactsHold(s, i, clock); }
  }

  lemma AcknowledgeCore(s: System, p: ToSender, step: Step)
    requires step.SenderStep? && DistinctIds(s.outbound) && IdsInRange(s.outbound) && CoreInv(CoreOf(s))
    requires ReplyOk(CoreOf(s), p) && (p.Pubcomp? ==> NoReply(CoreOf(s), p.msgid))
    ensures CoreInv(CoreOf(Acknowledge(s, p, step.sent, step.clock)))
  {
    hide CoreInv, ReplyOk, NoReply;
    var i := IndexOf(s.outbound, p.msgid);
    if i == |s.outbound| {
      assert Acknowledge(s, p, step.sent, step.clock) == s;
    } else {
      EntryFactsHold(s, i, step.clock);
      hide EntryFacts, CoreOf, Acknowledge;
      match p
      case Puback(x) => PubackArrives(s, i, step);
      case Pubrec(x) => PubrecArrives(s, i, step);
      case Pubcomp(x) => PubcompArrives(s, i, step);
    }
  }

  lemma EntryFactsHold(s: System, i: nat, clock: int)
    requires DistinctIds(s.outbound) && IdsInRange(s.outbound)
    requires i < |s.outbound|
    ensures EntryFacts(s, i, clock)
    ensures DistinctIds(RemoveAt(s.outbound, i)) && IdsInRange(RemoveAt(s.outbound, i))
    ensures var r := s.outbound[i := s.outbound[i].(next := AwaitPubcomp, lastTouch := clock)];
            DistinctIds(r) && IdsInRange(r)
  {
    IndexOfUnique(s.outbound, i);
    EntryAt(s.outbound, s.outbound[i].msgid);
    FlightsRemove(s.outbound, i);
    FlightsUpdate(s.outbound, i, s.outbound[i].(next := AwaitPubcomp, lastTouch := clock));
  }

  /** The map entry of the outbound message at index i, and what removing or advancing it does. */
  ghost predicate EntryFacts(s: System, i: nat, clock: int)
    requires i < |s.outbound|
  {
    var f, m := Flights(s.outbound), s.outbound[i];
    && IndexOf(s.outbound, m.msgid) == i
    && m.msgid in f && f[m.msgid] == FlightOf(m)
    && Flights(RemoveAt(s.outbound, i)) == f - {m.msgid}
    && Flights(s.outbound[i := m.(next := AwaitPubcomp, lastTouch := clock)])
       == f[m.msgid := Flight(m.qos, AwaitPubcomp, m.body)]
  }

  lemma PubackArrives(s: System, i: nat, step: Step)
    requires step.SenderStep? && i < |s.outbound| && EntryFacts(s, i, step.clock) && CoreInv(CoreOf(s))
    ensures CoreInv(CoreOf(Acknowledge(s, Puback(s.outbound[i].msgid), step.sent, step.clock)))
  {
    hide CoreInv;
    var c, x := CoreOf(s), s.outbound[i].msgid;
    if s.outbound[i].qos == 1 {
      PubackKeeps(c, x);
      assert CoreOf(Acknowledge(s, Puback(x), step.sent, step.clock)) == WithPuback(c, x);
    } else {
      assert Acknowledge(s, Puback(x), step.sent, step.clock) == s;
    }
  }

  lemma PubrecArrives(s: System, i: nat, step: Step)
    requires step.SenderStep? && i < |s.outbound| && EntryFacts(s, i, step.clock) && CoreInv(CoreOf(s))
    requires ReplyOk(CoreOf(s), Pubrec(s.outbound[i].msgid))
    ensures CoreInv(CoreOf(Acknowledge(s, Pubrec(s.outbound[i].msgid), step.sent, step.clock)))
  {
    hide CoreInv;
    var c, x := CoreOf(s), s.outbound[i].msgid;
    if Waits(c, x, AwaitPubrec) {
      PubrecKeeps(c, x);
      var d := WithPubrec(c, x);
      SendPubrel(c, x);
      assert CoreOf(Acknowledge(s, Pubrec(x), step.sent, step.clock))
          == d.(toReceiver := Emit(d.toReceiver, Pubrel(x, false), step.sent));
    } else {
      assert Acknowledge(s, Pubrec(x), step.sent, step.clock) == s;
    }
  }

  lemma PubcompArrives(s: System, i: nat, step: Step)
    requires step.SenderStep? && i < |s.outbound| && EntryFacts(s, i, step.clock) && CoreInv(CoreOf(s))
    requires ReplyOk(CoreOf(s), Pubcomp(s.outbound[i].msgid)) && NoReply(CoreOf(s), s.outbound[i].msgid)
    ensures CoreInv(CoreOf(Acknowledge(s, Pubcomp(s.outbound[i].msgid), step.sent, step.clock)))
  {
    hide CoreInv;
    var c, x := CoreOf(s), s.outbound[i].msgid;
    PubcompKeeps(c, x);
    assert CoreOf(Acknowledge(s, Pubcomp(x), step.sent, step.clock)) == WithPubcomp(c, x);
  }

  lemma SendPubrel(c: Core, x: int)
    requires CoreInv(c) && Waits(c, x, AwaitPubrec) && x in c.inn && CoreInv(WithPubrec(c, x))
    ensures var d := WithPubrec(c, x); CoreInv(d.(toReceiver := d.toReceiver + [Pubrel(x, false)]))
  {
    var d := WithPubrec(c, x);
    assert Waits(d, x, AwaitPubcomp);
    SendKeeps(d, Pubrel(x, false));
  }

  lemma {:induction false} RetryStepKeeps(c: Core, ms: seq<Message<nat>>, sent: seq<nat>)
    requires CoreInv(c) && DistinctIds(ms) && IdsInRange(ms) && c.out == Flights(ms)
    requires forall j :: 0 <= j < |sent| ==> sent[j] < |ms|
    requires forall j :: 0 <= j < |sent| ==> ResendsPublish(ms[sent[j]]) || ResendsPubrel(ms[sent[j]])
    ensures CoreInv(c.(toReceiver := c.toReceiver + ResentAll(ms, sent)))
    decreases |sent|
  {
    hide CoreInv;
    if sent == [] {
      assert c.toReceiver + ResentAll(ms, sent) == c.toReceiver;
    } else {
      var n := |sent| - 1;
      RetryStepKeeps(c, ms, sent[..n]);
      var d := c.(toReceiver := c.toReceiver + ResentAll(ms, sent[..n]));
      var m := ms[sent[n]];
      ResendEntry(d, ms, sent[n]);
      assert c.toReceiver + ResentAll(ms, sent) == d.toReceiver + [Resent(m)];
    }
  }

  lemma ResendEntry(c: Core, ms: seq<Message<nat>>, i: nat)
    requires CoreInv(c) && DistinctIds(ms) && IdsInRange(ms) && c.out == Flights(ms)
    requires i < |ms| && (ResendsPublish(ms[i]) || ResendsPubrel(ms[i]))
    ensures CoreInv(c.(toReceiver := c.toReceiver + [Resent(ms[i])]))
  {
    EntryIsOk(c, ms, i);
    hide CoreInv;
    ResendKeeps(c, ms[i].msgid, Resent(ms[i]));
  }

  lemma EntryIsOk(c: Core, ms: seq<Message<nat>>, i: nat)
    requires CoreInv(c) && DistinctIds(ms) && IdsInRange(ms) && c.out == Flights(ms) && i < |ms|
    ensures ms[i].msgid in c.out && c.out[ms[i].msgid] == FlightOf(ms[i]) && EntryOk(c, FlightOf(ms[i]))
  {
    hide Forward, InboundOk, Backward, Deliveries, RecordsOk;
    ListedFlights(ms);
  }

  lemma ReceiverStepKeeps(s: System, step: Step)
    requires Inv(s) && step.ReceiverStep? && Enabled(s, step)
    ensures Inv(Next(s, step))
  {
    hide CoreInv;
    var p := s.toReceiver[0];
    TakePacket(CoreOf(s));
    HeadOfChannel(CoreOf(s));
    var s0 := s.(toReceiver := s.toReceiver[1..]);
    assert CoreOf(s0) == CoreOf(s).(toReceiver := s.toReceiver[1..]);
    if p.Pubrel? {
      PubrelArrives(s0, p, step);
    } else if p.qos == 1 {
      Publish1Arrives(s0, p, step);
    } else {
      Publish2Arrives(s0, p, step);
    }
  }

  lemma Publish1Arrives(s: System, p: ToReceiver, step: Step)
    requires Inv(s) && step.ReceiverStep? && p.Publish? && p.qos == 1 && HeadFacts(CoreOf(s), p)
    ensures Inv(Receive(s, p, step.pending, step.sent, step.clock))
  {
    hide CoreInv;
    var c := CoreOf(s);
    if !step.pending {
      ReplyKeeps(c, Puback(p.msgid));
      var d := c.(toSender := Emit(c.toSender, Puback(p.msgid), step.sent));
      Deliver1Keeps(d, p.tag);
      assert CoreOf(Receive(s, p, false, step.sent, step.clock)) == d.(delivered := d.delivered + multiset{p.tag});
    }
  }

  lemma Publish2Arrives(s: System, p: ToReceiver, step: Step)
    requires Inv(s) && step.ReceiverStep? && p.Publish? && p.qos == 2 && HeadFacts(CoreOf(s), p)
    ensures Inv(Receive(Record(s, p), p, step.pending, step.sent, step.clock))
  {
    hide CoreInv;
    var x := p.msgid;
    RecordKeeps(CoreOf(s), x, p.tag);
    var r := Record(s, p);
    assert CoreOf(r) == CoreOf(s).(records := s.records[x := p.tag]);
    RecordHead(CoreOf(s), p);
    hide HeadFacts, CoreOf;
    if !step.pending {
      InboundStored(s.inbound, Message(x, 2, false, AwaitPubrel, step.clock, p.tag));
      Publish2Stored(r, p, step);
    }
  }

  lemma RecordHead(c: Core, p: ToReceiver)
    requires p.Publish? && p.qos == 2 && HeadFacts(c, p)
    ensures HeadFacts(c.(records := c.records[p.msgid := p.tag]), p)
    ensures 1 <= p.msgid <= MAX_MSG_ID || p.msgid in c.out
  {
  }

  lemma InboundStored(inn: seq<Message<nat>>, m: Message<nat>)
    requires DistinctIds(inn) && IdsInRange(inn) && 1 <= m.msgid <= MAX_MSG_ID
    ensures DistinctIds(OnPublish(inn, m)) && IdsInRange(OnPublish(inn, m))
    ensures Flights(OnPublish(inn, m)) == Flights(inn)[m.msgid := FlightOf(m)]
  {
    if InUse(inn, m.msgid) {
      FlightsUpdate(inn, IndexOf(inn, m.msgid), m);
    } else {
      FlightsAppend(inn, m);
    }
  }

  lemma Publish2Stored(r: System, p: ToReceiver, step: Step)
    requires CoreInv(CoreOf(r)) && step.ReceiverStep? && p.Publish? && p.qos == 2 && HeadFacts(CoreOf(r), p)
    requires p.msgid in r.records && r.records[p.msgid] == p.tag
    requires Flights(OnPublish(r.inbound, Message(p.msgid, 2, false, AwaitPubrel, step.clock, p.tag)))
             == Flights(r.inbound)[p.msgid := Flight(2, AwaitPubrel, p.tag)]
    ensures CoreInv(CoreOf(Receive(r, p, false, step.sent, step.clock)))
  {
    hide CoreInv;
    var c, x := CoreOf(r), p.msgid;
    StoreKeeps(c, x, p.tag);
    var d := WithStored(c, x, p.tag);
    StoredReply(c, x, p.tag);
    ReplyKeeps(d, Pubrec(x));
    assert CoreOf(Receive(r, p, false, step.sent, step.clock)) == d.(toSender := Emit(d.toSender, Pubrec(x), step.sent));
  }

  /** A PUBREC may be sent for a message that is stored: no PUBCOMP with its id is in flight. */
  lemma StoredReply(c: Core, x: int, t: nat)
    requires CoreInv(c) && Holds(c, x, t) && EntryOk(c, c.out[x])
    requires Waits(c, x, AwaitPubcomp) ==> x in c.inn
    ensures ReplyOk(WithStored(c, x, t), Pubrec(x))
    ensures forall j :: 0 <= j < |c.toSender| && c.toSender[j].Pubcomp? ==> c.toSender[j].msgid != x
  {
    assert forall j :: 0 <= j < |c.toSender| ==> ReplyOk(c, c.toSender[j]);
  }

  lemma PubrelArrives(s: System, p: ToReceiver, step: Step)
    requires Inv(s) && step.ReceiverStep? && p.Pubrel? && HeadFacts(CoreOf(s), p)
    ensures Inv(Receive(s, p, step.pending, step.sent, step.clock))
  {
    hide CoreInv;
    var c, x := CoreOf(s), p.msgid;
    EntryAt(s.inbound, x);
    var i := IndexOf(s.inbound, x);
    if i < |s.inbound| {
      StoredIsQos2(c, x);
      if !step.pending {
        FlightsRemove(s.inbound, i);
        PubrelReleases(s, i, p, step);
      }
    }
  }

  lemma PubrelReleases(s: System, i: nat, p: ToReceiver, step: Step)
    requires CoreInv(CoreOf(s)) && step.ReceiverStep? && p.Pubrel? && HeadFacts(CoreOf(s), p)
    requires i < |s.inbound| && OnPubrel(s.inbound, p.msgid, p.dup, false) == RelOutcome.Deliver(i)
    requires p.msgid in Flights(s.inbound) && Flights(s.inbound)[p.msgid] == FlightOf(s.inbound[i])
    requires Flights(RemoveAt(s.inbound, i)) == Flights(s.inbound) - {p.msgid}
    ensures CoreInv(CoreOf(Receive(s, p, false, step.sent, step.clock)))
  {
    hide CoreInv;
    var c, x := CoreOf(s), p.msgid;
    PubrelKeeps(c, x);
    var d := WithoutStored(c, x);
    ReplyKeeps(d, Pubcomp(x));
    assert CoreOf(Receive(s, p, false, step.sent, step.clock)) == d.(toSender := Emit(d.toSender, Pubcomp(x), step.sent));
  }

  lemma StoredIsQos2(c: Core, x: int)
    requires CoreInv(c) && x in c.inn
    ensures c.inn[x].qos == 2 && c.inn[x].next == AwaitPubrel
  {
  }

  lemma RetryKeeps(s: System, step: Step)
    requires Inv(s) && step.RetryStep? && Enabled(s, step)
    ensures Inv(Next(s, step))
  {
    hide CoreInv;
    var r := RetryFrom(s.outbound, 0, step.t, step.io);
    RetriesInOrder(s.outbound, 0, step.t, step.io);
    FlightsTouched(r.list, s.outbound);
    RetryStepKeeps(CoreOf(s), s.outbound, r.sent);
    assert CoreOf(Next(s, step)) == CoreOf(s).(toReceiver := s.toReceiver + ResentAll(s.outbound, r.sent));
  }

  lemma CleanKeeps(s: System)
    requires Inv(s)
    ensures Inv(Next(s, CleanStep))
  {
    var none: seq<Message<nat>> := [];
    assert Flights(none) == map[];
  }

  lemma SenderRestartKeeps(s: System, step: Step)
    requires Inv(s) && step.SenderRestart? && Enabled(s, step)
    ensures Inv(Next(s, step))
  {
    hide CoreInv;
    FlightsReordered(step.order, s.outbound);
    LoseKeeps(CoreOf(s), 0, 0);
    assert CoreOf(Next(s, step)) == CoreOf(s).(toReceiver := s.toReceiver[..0], toSender := s.toSender[..0]);
  }

  /** What a restart from the records gives: one stored message per record. */
  lemma RestoredFlights(order: seq<Message<nat>>, records: map<int, nat>)
    requires Restored(order, records) && (forall x :: x in records ==> 1 <= x <= MAX_MSG_ID)
    ensures DistinctIds(order) && IdsInRange(order)
    ensures Flights(order) == map x | x in records :: Flight(2, AwaitPubrel, records[x])
  {
    ListedUnique(order, map x | x in records :: Flight(2, AwaitPubrel, records[x]));
  }

  lemma ReceiverRestartCore(c: Core)
    requires CoreInv(c) && !c.v5
    ensures CoreInv(c.(toReceiver := [], toSender := [],
                       inn := map x | x in c.records :: Flight(2, AwaitPubrel, c.records[x])))
  {
    var d := c.(toReceiver := [], toSender := [],
                inn := map x | x in c.records :: Flight(2, AwaitPubrel, c.records[x]));
    assert forall y :: y in c.out ==> EntryOk(c, c.out[y]) && EntryOk(d, d.out[y]);
    assert forall y, n :: Waits(d, y, n) == Waits(c, y, n);
    assert forall y, t :: Holds(d, y, t) == Holds(c, y, t);
    forall x | Waits(d, x, AwaitPubcomp)
      ensures d.delivered[d.out[x].tag] == if x in d.inn then 0 else 1
    {
      assert Waits(c, x, AwaitPubcomp);
    }
    forall x | Waits(d, x, AwaitPubrec)
      ensures d.delivered[d.out[x].tag] == 0
    {
      assert Waits(c, x, AwaitPubrec);
    }
  }

  lemma ReceiverRestartKeeps(s: System, step: Step)
    requires Inv(s) && step.ReceiverRestart? && Enabled(s, step)
    ensures Inv(Next(s, step))
  {
    forall x | x in s.records ensures 1 <= x <= MAX_MSG_ID {
      assert Holds(CoreOf(s), x, s.records[x]);
    }
    hide CoreInv;
    RestoredFlights(step.order, s.records);
    ReceiverRestartCore(CoreOf(s));
    hide DistinctIds, IdsInRange, Flights, Restored;
  }

  lemma StepKeepsInv(s: System, step: Step)
    requires Inv(s)
    ensures Inv(Next(s, step))
  {
    hide Inv;
    if Enabled(s, step) {
      match step
      case PublishStep(_, _, _, _) => PublishStepKeeps(s, step);
      case ReceiverStep(_, _, _) => ReceiverStepKeeps(s, step);
      case SenderStep(_, _) => SenderStepKeeps(s, step);
      case RetryStep(_, _) => RetryKeeps(s, step);
      case LoseStep(k, l) =>
        LoseStepKeeps(s, k, l);
      case CleanStep => CleanKeeps(s);
      case SenderRestart(_) => SenderRestartKeeps(s, step);
      case ReceiverRestart(_) => ReceiverRestartKeeps(s, step);
    }
  }

  lemma LoseStepKeeps(s: System, k: nat, l: nat)
    requires Inv(s) && Enabled(s, LoseStep(k, l))
    ensures Inv(Next(s, LoseStep(k, l)))
  {
    hide CoreInv;
    LoseKeeps(CoreOf(s), k, l);
    assert CoreOf(Next(s, LoseStep(k, l))) == CoreOf(s).(toReceiver := s.toReceiver[..k], toSender := s.toSender[..l]);
  }

  lemma {:induction false} RunKeepsInv(s: System, steps: seq<Step>)
    requires Inv(s)
    ensures Inv(Run(s, steps))
    decreases |steps|
  {
    hide Inv;
    if steps != [] {
      StepKeepsInv(s, steps[0]);
      RunKeepsInv(Next(s, steps[0]), steps[1..]);
    }
  }

  lemma InitInv(v5: bool)
    ensures Inv(Init(v5))
  {
    var none: seq<Message<nat>> := [];
    assert Flights(none) == map[];
  }
}
