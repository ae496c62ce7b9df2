/** What every run of the two-endpoint system guarantees. */
module Qos2Safety {
  import opened Exchange
  import opened Qos2System
  import opened Qos2Flights
  import opened Qos2Invariant
  import opened Qos2Steps

  /**
   QoS 2 over every run (section 4.3.3 of MQTT 3.1.1): with retries, losses, reconnects,
   restarts from the store and reuse of ids, a published message reaches the application at
   most once, exactly once if the sender removed it on PUBCOMP, and nothing else arrives.
   */
  lemma ExactlyOnce(v5: bool, steps: seq<Step>)
    ensures var s := Run(Init(v5), steps);
            && (forall t: nat :: t < |s.qosOf| && s.qosOf[t] == 2 ==> s.delivered[t] <= 1)
            && (forall t :: t in s.completed ==> s.delivered[t] == 1)
            && (forall t :: t in s.delivered ==> t < |s.qosOf|)
  {
    InitInv(v5);
    RunKeepsInv(Init(v5), steps);
  }

  /**
   No message is lost or handed over early: once its PUBREC is handled, an in-flight message
   either is stored at the receiver with the same tag, undelivered below version 5, or has
   been delivered once and is stored no longer.
   */
  lemma StoredOrDelivered(v5: bool, steps: seq<Step>, i: nat)
    requires i < |Run(Init(v5), steps).outbound|
    requires Run(Init(v5), steps).outbound[i].next == AwaitPubcomp
    ensures var s := Run(Init(v5), steps);
            var m := s.outbound[i];
            var k := IndexOf(s.inbound, m.msgid);
            if k < |s.inbound|
            then s.inbound[k].body == m.body && s.delivered[m.body] == (if v5 then 1 else 0)
            else s.delivered[m.body] == 1
  {
    InitInv(v5);
    RunKeepsInv(Init(v5), steps);
    var s := Run(Init(v5), steps);
    RunKeepsVersion(Init(v5), steps);
    ListedFlights(s.outbound);
    var m := s.outbound[i];
    assert EntryOk(CoreOf(s), FlightOf(m));
    assert Waits(CoreOf(s), m.msgid, AwaitPubcomp);
    EntryAt(s.inbound, m.msgid);
  }

  lemma {:induction false} RunKeepsVersion(s: System, steps: seq<Step>)
    ensures Run(s, steps).v5 == s.v5
    decreases |steps|
  {
    if steps != [] { RunKeepsVersion(Next(s, steps[0]), steps[1..]); }
  }

  // ---------------------------------------------------------------- no PUBLISH after PUBREC

  /** How many QoS 2 PUBLISH packets of publication t are in flight. */
  function Copies(ps: seq<ToReceiver>, t: nat): nat {
    if ps == [] then 0
    else Copies(ps[..|ps| - 1], t) + (if ps[|ps| - 1].Publish? && ps[|ps| - 1].qos == 2 && ps[|ps| - 1].tag == t then 1 else 0)
  }

  lemma {:induction false} CopiesConcat(a: seq<ToReceiver>, b: seq<ToReceiver>, t: nat)
    ensures Copies(a + b, t) == Copies(a, t) + Copies(b, t)
    decreases |b|
  {
    if b == [] {
      assert a + b == a;
    } else {
      assert (a + b)[..|a + b| - 1] == a + b[..|b| - 1];
      CopiesConcat(a, b[..|b| - 1], t);
    }
  }

  lemma {:induction false} CopiesNone(ps: seq<ToReceiver>, t: nat)
    requires forall i :: 0 <= i < |ps| ==> ps[i].Pubrel? || ps[i].qos != 2 || ps[i].tag != t
    ensures Copies(ps, t) == 0
    decreases |ps|
  {
    if ps != [] { CopiesNone(ps[..|ps| - 1], t); }
  }

  lemma CopiesKept(a: seq<ToReceiver>, k: nat, l: nat, t: nat)
    requires k <= l <= |a|
    ensures Copies(a[k..l], t) <= Copies(a, t)
  {
    assert a == a[..k] + a[k..l] + a[l..];
    CopiesConcat(a[..k] + a[k..l], a[l..], t);
    CopiesConcat(a[..k], a[k..l], t);
  }

  /** A retry never resends a message whose PUBREC was handled. */
  lemma RetrySpares(s: System, step: Step, t: nat)
    requires Inv(s) && step.RetryStep? && t in s.released
    ensures var sent := RetryFrom(s.outbound, 0, step.t, step.io).sent;
            && (forall j :: 0 <= j < |sent| ==> sent[j] < |s.outbound|)
            && Copies(ResentAll(s.outbound, sent), t) == 0
  {
    var r := RetryFrom(s.outbound, 0, step.t, step.io);
    RetriesInOrder(s.outbound, 0, step.t, step.io);
    var ps := ResentAll(s.outbound, r.sent);
    ListedFlights(s.outbound);
    forall i | 0 <= i < |ps| ensures ps[i].Pubrel? || ps[i].qos != 2 || ps[i].tag != t {
      var m := s.outbound[r.sent[i]];
      assert EntryOk(CoreOf(s), FlightOf(m)) by { assert Tags(CoreOf(s)); assert m.msgid in CoreOf(s).out; }
    }
    CopiesNone(ps, t);
  }

  /**
   Once PUBREC has been handled the PUBLISH is never sent again (MQTT-4.3.3-1): in every
   reachable state no step adds a copy of it to the channel, and the fact is never forgotten.
   */
  lemma NeverResentAfterPubrec(v5: bool, steps: seq<Step>, step: Step, t: nat)
    requires t in Run(Init(v5), steps).released
    ensures var s := Run(Init(v5), steps);
            && Copies(Next(s, step).toReceiver, t) <= Copies(s.toReceiver, t)
            && t in Next(s, step).released
  {
    InitInv(v5);
    RunKeepsInv(Init(v5), steps);
    var s := Run(Init(v5), steps);
    StepAddsNoCopy(s, step, t);
  }

  /** The receiver's handlers leave the sender alone. */
  lemma ReceiveFrame(s: System, p: ToReceiver, pending: bool, sent: bool, clock: int)
    ensures var r := Receive(Record(s, p), p, pending, sent, clock);
            r == s.(inbound := r.inbound, records := r.records, toSender := r.toSender, delivered := r.delivered)
  {
    hide OnPublish, OnPubrel, InUse, RemoveAt, Emit;
  }

  lemma AcknowledgeFrame(s: System, p: ToSender, sent: bool, clock: int)
    ensures var r := Acknowledge(s, p, sent, clock);
            && (r.toReceiver == s.toReceiver || r.toReceiver == s.toReceiver + [Pubrel(p.msgid, false)])
            && s.released <= r.released && r.qosOf == s.qosOf && r.shuffled == s.shuffled
            && (|| r.outbound == s.outbound
                || (exists i :: 0 <= i < |s.outbound| && r.outbound == RemoveAt(s.outbound, i))
                || SameBodies(r.outbound, s.outbound))
  {
    hide IndexOf, RemoveAt;
  }

  ghost predicate SameBodies(a: seq<Message<nat>>, b: seq<Message<nat>>) {
    |a| == |b| && forall i :: 0 <= i < |a| ==> a[i].body == b[i].body
  }

  lemma ReceiverAddsNoCopy(s: System, step: Step, t: nat)
    requires step.ReceiverStep? && Enabled(s, step)
    ensures Copies(Next(s, step).toReceiver, t) <= Copies(s.toReceiver, t) && Next(s, step).released == s.released
  {
    hide Receive, Record;
    var ps := s.toReceiver;
    CopiesKept(ps, 1, |ps|, t);
    ReceiveFrame(s.(toReceiver := ps[1..]), ps[0], step.pending, step.sent, step.clock);
    assert ps[1..|ps|] == ps[1..];
  }

  lemma SenderAddsNoCopy(s: System, step: Step, t: nat)
    requires step.SenderStep? && Enabled(s, step)
    ensures Copies(Next(s, step).toReceiver, t) <= Copies(s.toReceiver, t) && s.released <= Next(s, step).released
  {
    hide Acknowledge;
    AcknowledgeFrame(s.(toSender := s.toSender[1..]), s.toSender[0], step.sent, step.clock);
    CopiesConcat(s.toReceiver, [Pubrel(s.toSender[0].msgid, false)], t);
    CopiesNone([Pubrel(s.toSender[0].msgid, false)], t);
  }

  lemma PublishAddsNoCopy(s: System, step: Step, t: nat)
    requires step.PublishStep? && Enabled(s, step) && t < |s.qosOf|
    ensures Copies(Next(s, step).toReceiver, t) <= Copies(s.toReceiver, t) && Next(s, step).released == s.released
  {
    var p := Publish(step.id, step.qos, false, |s.qosOf|);
    CopiesConcat(s.toReceiver, [p], t);
    CopiesNone([p], t);
  }

  lemma StepAddsNoCopy(s: System, step: Step, t: nat)
    requires Inv(s) && t in s.released
    ensures Copies(Next(s, step).toReceiver, t) <= Copies(s.toReceiver, t) && t in Next(s, step).released
  {
    assert t < |s.qosOf| by { assert Histories(CoreOf(s)); }
    if Enabled(s, step) {
      match step
      case PublishStep(_, _, _, _) => PublishAddsNoCopy(s, step, t);
      case ReceiverStep(_, _, _) => ReceiverAddsNoCopy(s, step, t);
      case SenderStep(_, _) => SenderAddsNoCopy(s, step, t);
      case RetryStep(rt, io) =>
        RetrySpares(s, step, t);
        hide Inv;
        CopiesConcat(s.toReceiver, ResentAll(s.outbound, RetryFrom(s.outbound, 0, rt, io).sent), t);
      case LoseStep(k, l) =>
        hide Inv;
        CopiesKept(s.toReceiver, 0, k, t);
        assert s.toReceiver[0..k] == s.toReceiver[..k];
      case CleanStep =>
      case SenderRestart(_) =>
      case ReceiverRestart(_) =>
    }
  }

  // ---------------------------------------------------------------- order of retries

  /** Until a restart loses the order, the outbound list is in order of publication. */
  ghost predicate InOrder(s: System) {
    && (forall i :: 0 <= i < |s.outbound| ==> s.outbound[i].body < |s.qosOf|)
    && (!s.shuffled ==> forall i, j :: 0 <= i < j < |s.outbound| ==> s.outbound[i].body < s.outbound[j].body)
  }

  lemma SenderKeepsOrder(s: System, step: Step)
    requires InOrder(s) && step.SenderStep? && Enabled(s, step)
    ensures InOrder(Next(s, step))
  {
    hide Acknowledge;
    AcknowledgeFrame(s.(toSender := s.toSender[1..]), s.toSender[0], step.sent, step.clock);
  }

  lemma RetryKeepsOrder(s: System, step: Step)
    requires InOrder(s) && step.RetryStep? && Enabled(s, step)
    ensures InOrder(Next(s, step))
  {
    hide RetryFrom;
    RetriesInOrder(s.outbound, 0, step.t, step.io);
  }

  lemma RestartKeepsOrder(s: System, step: Step)
    requires InOrder(s) && step.SenderRestart? && Enabled(s, step)
    ensures InOrder(Next(s, step))
  {
    forall i | 0 <= i < |step.order| ensures step.order[i].body < |s.qosOf| {
      assert step.order[i].body == s.outbound[IndexOf(s.outbound, step.order[i].msgid)].body;
    }
  }

  lemma StepKeepsOrder(s: System, step: Step)
    requires InOrder(s)
    ensures InOrder(Next(s, step))
  {
    hide Receive, Record;
    if Enabled(s, step) {
      match step
      case ReceiverStep(pending, sent, clock) =>
        ReceiveFrame(s.(toReceiver := s.toReceiver[1..]), s.toReceiver[0], pending, sent, clock);
      case SenderStep(_, _) => SenderKeepsOrder(s, step);
      case RetryStep(_, _) => RetryKeepsOrder(s, step);
      case SenderRestart(_) => RestartKeepsOrder(s, step);
      case _ =>
    }
  }

  lemma {:induction false} RunKeepsOrder(s: System, steps: seq<Step>)
    requires InOrder(s)
    ensures InOrder(Run(s, steps))
    decreases |steps|
  {
    if steps != [] {
      StepKeepsOrder(s, steps[0]);
      RunKeepsOrder(Next(s, steps[0]), steps[1..]);
    }
  }

  /** Resent packets go out in the order of the original PUBLISH packets (section 4.6 of MQTT 3.1.1). */
  lemma RetryInOriginalOrder(v5: bool, steps: seq<Step>, t: RetryTime, io: seq<RetryIo>, i: nat, j: nat)
    requires !Run(Init(v5), steps).shuffled
    requires i < j < |RetryFrom(Run(Init(v5), steps).outbound, 0, t, io).sent|
    ensures var s := Run(Init(v5), steps);
            var sent := RetryFrom(s.outbound, 0, t, io).sent;
            && sent[i] < |s.outbound| && sent[j] < |s.outbound|
            && s.outbound[sent[i]].body < s.outbound[sent[j]].body
  {
    RunKeepsOrder(Init(v5), steps);
    RetriesInOrder(Run(Init(v5), steps).outbound, 0, t, io);
  }

  // ---------------------------------------------------------------- nothing is lost

  ghost predicate Carries(ms: seq<Message<nat>>, t: nat) {
    exists i :: 0 <= i < |ms| && ms[i].body == t
  }

  /** Every QoS 2 message is completed or still with the sender. */
  ghost predicate Retained(s: System) {
    forall t: nat :: t < |s.qosOf| && s.qosOf[t] == 2 ==> t in s.completed || Carries(s.outbound, t)
  }

  lemma RemovedCarries(ms: seq<Message<nat>>, i: nat, t: nat)
    requires i < |ms| && Carries(ms, t) && ms[i].body != t
    ensures Carries(RemoveAt(ms, i), t)
  {
    var j :| 0 <= j < |ms| && ms[j].body == t;
    assert RemoveAt(ms, i)[if j < i then j else j - 1] == ms[j];
  }

  lemma TouchedCarries(a: seq<Message<nat>>, b: seq<Message<nat>>, t: nat)
    requires SameBodies(a, b) && Carries(b, t)
    ensures Carries(a, t)
  {
    var j :| 0 <= j < |b| && b[j].body == t;
    assert a[j].body == t;
  }

  lemma ReorderedCarries(a: seq<Message<nat>>, b: seq<Message<nat>>, t: nat)
    requires Reordered(a, b) && DistinctIds(b) && Carries(b, t)
    ensures Carries(a, t)
  {
    var j :| 0 <= j < |b| && b[j].body == t;
    IndexOfUnique(b, j);
    var i := IndexOf(a, b[j].msgid);
    assert a[i] == b[IndexOf(b, a[i].msgid)].(lastTouch := a[i].lastTouch);
  }

  /** An acknowledgement takes an entry away only for QoS 1, or as completed. */
  lemma AcknowledgeTakes(s: System, p: ToSender, sent: bool, clock: int)
    ensures var r := Acknowledge(s, p, sent, clock);
            && r.qosOf == s.qosOf && s.completed <= r.completed
            && (|| SameBodies(r.outbound, s.outbound)
                || exists i :: 0 <= i < |s.outbound| && r.outbound == RemoveAt(s.outbound, i)
                               && (s.outbound[i].qos == 1 || s.outbound[i].body in r.completed))
  {
    hide RemoveAt;
  }

  lemma SenderRetains(s: System, step: Step)
    requires Inv(s) && Retained(s) && step.SenderStep? && Enabled(s, step)
    ensures Retained(Next(s, step))
  {
    var s0 := s.(toSender := s.toSender[1..]);
    var r := Acknowledge(s0, s.toSender[0], step.sent, step.clock);
    AcknowledgeTakes(s0, s.toSender[0], step.sent, step.clock);
    EntriesQos(s);
    hide Inv, Acknowledge, RemoveAt, Carries, SameBodies;
    forall t: nat | t < |r.qosOf| && r.qosOf[t] == 2 ensures t in r.completed || Carries(r.outbound, t) {
      if t !in s.completed {
        if SameBodies(r.outbound, s.outbound) {
          TouchedCarries(r.outbound, s.outbound, t);
        } else {
          var i :| 0 <= i < |s.outbound| && r.outbound == RemoveAt(s.outbound, i)
                   && (s.outbound[i].qos == 1 || s.outbound[i].body in r.completed);
          if s.outbound[i].body != t { RemovedCarries(s.outbound, i, t); }
        }
      }
    }
  }

  lemma EntriesQos(s: System)
    requires Inv(s)
    ensures forall i :: 0 <= i < |s.outbound| ==> s.outbound[i].body < |s.qosOf| && s.outbound[i].qos == s.qosOf[s.outbound[i].body]
  {
    ListedFlights(s.outbound);
    var c := CoreOf(s);
    hide Waits, Holds, Forward, Backward, Deliveries, InboundOk, RecordsOk, Histories;
    forall i | 0 <= i < |s.outbound| ensures s.outbound[i].body < |s.qosOf| && s.outbound[i].qos == s.qosOf[s.outbound[i].body] {
      assert EntryOk(c, c.out[s.outbound[i].msgid]);
    }
  }

  lemma PublishRetains(s: System, step: Step)
    requires Retained(s) && step.PublishStep? && Enabled(s, step)
    ensures Retained(Next(s, step))
  {
    var r := Next(s, step);
    forall t: nat | t < |r.qosOf| && r.qosOf[t] == 2 ensures t in r.completed || Carries(r.outbound, t) {
      if t == |s.qosOf| {
        assert r.outbound[|s.outbound|].body == t;
      } else if t !in s.completed {
        var j :| 0 <= j < |s.outbound| && s.outbound[j].body == t;
        assert r.outbound[j].body == t;
      }
    }
  }

  lemma SameListRetains(s: System, r: System)
    requires Retained(s) && r.qosOf == s.qosOf && r.completed == s.completed
    requires forall t: nat :: Carries(s.outbound, t) ==> Carries(r.outbound, t)
    ensures Retained(r)
  {
    hide Carries;
  }

  /** Until the session is cleaned, no step loses a QoS 2 message. */
  lemma StepRetains(s: System, step: Step)
    requires Inv(s) && Retained(s) && !step.CleanStep?
    ensures Retained(Next(s, step))
  {
    if Enabled(s, step) {
      match step
      case PublishStep(_, _, _, _) => PublishRetains(s, step);
      case SenderStep(_, _) => SenderRetains(s, step);
      case _ => OtherRetains(s, step);
    }
  }

  lemma OtherRetains(s: System, step: Step)
    requires Inv(s) && Retained(s) && Enabled(s, step) && !step.CleanStep? && !step.PublishStep? && !step.SenderStep?
    ensures Retained(Next(s, step))
  {
    var r := Next(s, step);
    match step
    case ReceiverStep(pending, sent, clock) =>
      ReceiveFrame(s.(toReceiver := s.toReceiver[1..]), s.toReceiver[0], pending, sent, clock);
      hide Receive, Record, Inv;
      SameListRetains(s, r);
    case RetryStep(t, io) =>
      RetriesInOrder(s.outbound, 0, t, io);
      hide RetryFrom, Inv, Carries;
      forall n: nat | Carries(s.outbound, n) ensures Carries(r.outbound, n) { TouchedCarries(r.outbound, s.outbound, n); }
      SameListRetains(s, r);
    case LoseStep(_, _) =>
      hide Inv;
      SameListRetains(s, r);
    case SenderRestart(order) =>
      hide Carries;
      forall n: nat | Carries(s.outbound, n) ensures Carries(r.outbound, n) { ReorderedCarries(order, s.outbound, n); }
      SameListRetains(s, r);
    case ReceiverRestart(_) =>
      hide Inv;
      SameListRetains(s, r);
  }

  ghost predicate NeverCleaned(steps: seq<Step>) {
    forall i :: 0 <= i < |steps| ==> !steps[i].CleanStep?
  }

  lemma {:induction false} RunRetains(s: System, steps: seq<Step>)
    requires Inv(s) && Retained(s) && NeverCleaned(steps)
    ensures Retained(Run(s, steps))
    decreases |steps|
  {
    hide Inv, Retained, Next;
    if steps != [] {
      StepKeepsInv(s, steps[0]);
      StepRetains(s, steps[0]);
      RunRetains(Next(s, steps[0]), steps[1..]);
    }
  }

  /** In a session that is never cleaned, every QoS 2 message is with the sender or was handed on once. */
  lemma NothingLost(v5: bool, steps: seq<Step>, t: nat)
    requires NeverCleaned(steps) && t < |Run(Init(v5), steps).qosOf| && Run(Init(v5), steps).qosOf[t] == 2
    ensures var s := Run(Init(v5), steps); Carries(s.outbound, t) || s.delivered[t] == 1
  {
    InitInv(v5);
    RunRetains(Init(v5), steps);
    ExactlyOnce(v5, steps);
    hide Run, Carries;
  }

  // ---------------------------------------------------------------- the exchange can be completed

  /** The states of one undisturbed exchange, from a state without packets in flight. */
  function Undisturbed(s: System, id: int, clock: int, k: nat): System
    requires k <= 5
  {
    var tag := |s.qosOf|;
    var waiting := Message(id, 2, false, AwaitPubrec, clock, tag);
    var stored := Message(id, 2, false, AwaitPubrel, clock, tag);
    var handedOn := s.delivered + multiset{tag};
    var b := s.(msgID := id, qosOf := s.qosOf + [2]);
    if k == 0 then s
    else if k == 1 then b.(outbound := s.outbound + [waiting], toReceiver := [Publish(id, 2, false, tag)])
    else if k == 2 then
      b.(outbound := s.outbound + [waiting], toSender := [Pubrec(id)], inbound := s.inbound + [stored],
         records := s.records[id := tag], delivered := if s.v5 then handedOn else s.delivered)
    else if k == 3 then
      b.(outbound := s.outbound + [waiting.(next := AwaitPubcomp)], toReceiver := [Pubrel(id, false)],
         released := s.released + {tag}, inbound := s.inbound + [stored], records := s.records[id := tag],
         delivered := if s.v5 then handedOn else s.delivered)
    else if k == 4 then
      b.(outbound := s.outbound + [waiting.(next := AwaitPubcomp)], toSender := [Pubcomp(id)],
         released := s.released + {tag}, records := s.records[id := tag] - {id}, delivered := handedOn)
    else
      b.(released := s.released + {tag}, completed := s.completed + {tag},
         records := s.records[id := tag] - {id}, delivered := handedOn)
  }

  function ExchangeSteps(id: int, clock: int): seq<Step> {
    [PublishStep(id, 2, true, clock), ReceiverStep(false, true, clock), SenderStep(true, clock),
     ReceiverStep(false, true, clock), SenderStep(true, clock)]
  }

  /** No packet is in flight and the id is free at both ends. */
  ghost predicate Quiet(s: System, id: int) {
    s.toReceiver == [] && s.toSender == [] && 1 <= id <= MAX_MSG_ID && !InUse(s.outbound, id) && !InUse(s.inbound, id)
  }

  lemma LastEntry<B>(ms: seq<Message<B>>, m: Message<B>)
    requires !InUse(ms, m.msgid)
    ensures IndexOf(ms + [m], m.msgid) == |ms| && RemoveAt(ms + [m], |ms|) == ms
  {
    assert (ms + [m])[|ms|] == m;
    NotInUse(ms, m.msgid);
  }

  lemma {:induction false} NotInUse<B>(ms: seq<Message<B>>, id: int)
    requires !InUse(ms, id)
    ensures forall i :: 0 <= i < |ms| ==> ms[i].msgid != id
  {
  }

  lemma PublishedAndStored(s: System, id: int, clock: int)
    requires Quiet(s, id)
    ensures Next(Undisturbed(s, id, clock, 0), ExchangeSteps(id, clock)[0]) == Undisturbed(s, id, clock, 1)
    ensures Next(Undisturbed(s, id, clock, 1), ExchangeSteps(id, clock)[1]) == Undisturbed(s, id, clock, 2)
  {
  }

  lemma ReleasedState(s: System, id: int, clock: int)
    requires Quiet(s, id)
    ensures Acknowledge(Undisturbed(s, id, clock, 2).(toSender := []), Pubrec(id), true, clock)
         == Undisturbed(s, id, clock, 3)
  {
    var m: Message<nat> := Message(id, 2, false, AwaitPubrec, clock, |s.qosOf|);
    LastEntry(s.outbound, m);
    var n: Message<nat> := m.(next := AwaitPubcomp);
    assert (s.outbound + [m])[|s.outbound| := n] == s.outbound + [n];
    assert OnPubrec(s.outbound + [m], id, false) == Advance(|s.outbound|);
    hide IndexOf, OnPubrec, Quiet;
  }

  lemma Released(s: System, id: int, clock: int)
    requires Quiet(s, id)
    ensures Next(Undisturbed(s, id, clock, 2), ExchangeSteps(id, clock)[2]) == Undisturbed(s, id, clock, 3)
  {
    ReleasedState(s, id, clock);
    hide Acknowledge, Quiet;
  }

  lemma DeliveredState(s: System, id: int, clock: int)
    requires Quiet(s, id)
    ensures Receive(Undisturbed(s, id, clock, 3).(toReceiver := []), Pubrel(id, false), false, true, clock)
         == Undisturbed(s, id, clock, 4)
  {
    var m: Message<nat> := Message(id, 2, false, AwaitPubrel, clock, |s.qosOf|);
    LastEntry(s.inbound, m);
    assert OnPubrel(s.inbound + [m], id, false, false) == RelOutcome.Deliver(|s.inbound|);
    hide IndexOf, RemoveAt, OnPubrel, Quiet;
  }

  lemma Delivered(s: System, id: int, clock: int)
    requires Quiet(s, id)
    ensures Next(Undisturbed(s, id, clock, 3), ExchangeSteps(id, clock)[3]) == Undisturbed(s, id, clock, 4)
  {
    DeliveredState(s, id, clock);
    hide Receive, Quiet;
  }

  lemma Completed(s: System, id: int, clock: int)
    requires Quiet(s, id)
    ensures Next(Undisturbed(s, id, clock, 4), ExchangeSteps(id, clock)[4]) == Undisturbed(s, id, clock, 5)
  {
    LastEntry(s.outbound, Message(id, 2, false, AwaitPubcomp, clock, |s.qosOf|));
    hide IndexOf, RemoveAt;
  }

  lemma QuietExchange(s: System, id: int, clock: int)
    requires Quiet(s, id)
    ensures Run(s, ExchangeSteps(id, clock)) == Undisturbed(s, id, clock, 5)
  {
    PublishedAndStored(s, id, clock);
    Released(s, id, clock);
    Delivered(s, id, clock);
    Completed(s, id, clock);
    hide Next, Quiet;
    var steps := ExchangeSteps(id, clock);
    RunStep(Undisturbed(s, id, clock, 0), steps);
    RunStep(Undisturbed(s, id, clock, 1), steps[1..]);
    RunStep(Undisturbed(s, id, clock, 2), steps[2..]);
    RunStep(Undisturbed(s, id, clock, 3), steps[3..]);
    RunStep(Undisturbed(s, id, clock, 4), steps[4..]);
  }

  lemma RunStep(s: System, steps: seq<Step>)
    requires steps != []
    ensures Run(s, steps) == Run(Next(s, steps[0]), steps[1..])
  {
  }

  /** An id that the sender has free is free at the receiver too. */
  lemma FreeAtBothEnds(s: System, id: int)
    requires Inv(s) && 1 <= id <= MAX_MSG_ID && !InUse(s.outbound, id)
    ensures !InUse(s.inbound, id)
  {
    EntryAt(s.inbound, id);
    EntryAt(s.outbound, id);
    assert InboundOk(CoreOf(s));
  }

  /**
   From every reachable state, once the connection is made anew and no further packet is lost,
   the next message with any unused id is delivered once and completed, and both in-flight
   lists are as before.
   */
  lemma ExchangeCompletes(v5: bool, steps: seq<Step>, id: int, clock: int)
    requires 1 <= id <= MAX_MSG_ID && !InUse(Run(Init(v5), steps).outbound, id)
    ensures var s := Run(Init(v5), steps);
            var r := Run(Next(s, LoseStep(0, 0)), ExchangeSteps(id, clock));
            && r.completed == s.completed + {|s.qosOf|} && r.delivered == s.delivered + multiset{|s.qosOf|}
            && r.outbound == s.outbound && r.inbound == s.inbound
  {
    InitInv(v5);
    RunKeepsInv(Init(v5), steps);
    FreeAtBothEnds(Run(Init(v5), steps), id);
    hide Run, Inv, InUse;
    AfterReconnect(Run(Init(v5), steps), id, clock);
  }

  lemma AfterReconnect(s: System, id: int, clock: int)
    requires 1 <= id <= MAX_MSG_ID && !InUse(s.outbound, id) && !InUse(s.inbound, id)
    ensures var r := Run(Next(s, LoseStep(0, 0)), ExchangeSteps(id, clock));
            && r.completed == s.completed + {|s.qosOf|} && r.delivered == s.delivered + multiset{|s.qosOf|}
            && r.outbound == s.outbound && r.inbound == s.inbound
  {
    hide Run, InUse;
    assert Next(s, LoseStep(0, 0)) == s.(toReceiver := [], toSender := []);
    hide Next;
    QuietExchange(Next(s, LoseStep(0, 0)), id, clock);
  }
}
