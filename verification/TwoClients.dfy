/** Two clients below version 5 with bytes and stores, joined by two channels. */
module TwoClients {
  // One publishes, the other receives. Each run of them is a run of the two-endpoint system, so what that system
  // promises about numbered messages holds of the bytes handed on.

  import opened Wrappers
  import opened Bytes
  import opened Exchange
  import opened ClientState
  import opened Mirror
  import opened MirrorSteps
  import opened CrashRestore
  import opened Refinement
  import opened Client
  import opened Qos2Invariant
  import opened Qos2Safety
  import P = Packets
  import C = ClientRun
  import Q = Qos2System

  /** History: what was published and with which QoS, the publish call of each id, what PUBCOMP completed. */
  datatype World = World(
    sender: State, receiver: State, forward: seq<P.Packet>, back: seq<P.Packet>,
    texts: seq<Text>, qosOf: seq<int>, numbers: map<int, nat>, completed: set<nat>)

  datatype Step =
    | Publish(id: int, qos: int, retain: bool, topic: bytes, payload: bytes, shared: Option<nat>, clock: int, io: SendResult)
    | Retry(t: RetryTime, tries: seq<RetryIo>)
    | AtReceiver(waiting: bool, clock: int, io: SendResult)
    | AtSender(clock: int, io: SendResult)
    | Lose(keepForward: nat, keepBack: nat)
    | SenderCrash(keys: seq<string>, clock: int)
    | ReceiverCrash(keys: seq<string>, clock: int)

  function Start(): World {
    World(Fresh(), Fresh(), [], [], [], [], map[], {})
  }

  /** What a handler wrote to the socket. */
  function Emitted(s: State, d: State): seq<P.Packet> {
    if |s.sent| <= |d.sent| then d.sent[|s.sent|..] else []
  }

  /** The handler of an arriving packet. */
  function Handler(p: P.Packet, waiting: bool, clock: int, io: SendResult): C.Event {
    match p
    case Publish(_, _, _, _, _, _) => C.Arrival(p, waiting, io)
    case Ack(Puback, _, id) => C.Puback(id)
    case Ack(Pubrec, _, id) => C.Pubrec(id, clock, io)
    case Ack(Pubrel, dup, id) => C.Pubrel(id, dup, waiting, io)
    case Ack(Pubcomp, _, id) => C.Pubcomp(id)
  }

  ghost predicate Enabled(w: World, step: Step) {
    match step
    case Publish(id, qos, retain, topic, payload, shared, clock, io) =>
      C.Enabled(w.sender, C.Publish(id, qos, retain, topic, payload, shared, clock, io))
    case Retry(_, _) => IdsNonNegative(w.sender.outbound)
    case AtReceiver(_, _, _) => w.forward != []
    case AtSender(_, _) => w.back != []
    case Lose(k, l) => k <= |w.forward| && l <= |w.back|
    case SenderCrash(keys, clock) => C.Enabled(w.sender, C.Crash(keys, clock))
    case ReceiverCrash(keys, clock) => C.Enabled(w.receiver, C.Crash(keys, clock))
  }

  /** The publish call whose message a PUBCOMP completes. */
  function Completes(w: World, p: P.Packet): set<nat> {
    if p.Ack? && p.kind == P.Pubcomp && OnPubcomp(w.sender.outbound, p.msgid).Remove? && p.msgid in w.numbers
    then {w.numbers[p.msgid]} else {}
  }

  ghost function Next(w: World, step: Step): World {
    if !Enabled(w, step) then w
    else
      match step
      case Publish(id, qos, retain, topic, payload, shared, clock, io) =>
        var d := C.Next(w.sender, C.Publish(id, qos, retain, topic, payload, shared, clock, io));
        var text := NewView(w.sender, id, qos, retain, topic, payload, shared).body;
        w.(sender := d, forward := w.forward + Emitted(w.sender, d),
           texts := w.texts + [text], qosOf := w.qosOf + [qos], numbers := w.numbers[id := |w.texts|])
      case Retry(t, tries) =>
        var d := C.Next(w.sender, C.Retry(t, tries));
        w.(sender := d, forward := w.forward + Emitted(w.sender, d))
      case AtReceiver(waiting, clock, io) =>
        var d := C.Next(w.receiver, Handler(w.forward[0], waiting, clock, io));
        w.(receiver := d, forward := w.forward[1..], back := w.back + Emitted(w.receiver, d))
      case AtSender(clock, io) =>
        var d := C.Next(w.sender, Handler(w.back[0], false, clock, io));
        w.(sender := d, back := w.back[1..], forward := w.forward + Emitted(w.sender, d),
           completed := w.completed + Completes(w, w.back[0]))
      case Lose(k, l) => w.(forward := w.forward[..k], back := w.back[..l])
      case SenderCrash(keys, clock) =>
        w.(sender := C.Next(w.sender, C.Crash(keys, clock)), forward := [], back := [])
      case ReceiverCrash(keys, clock) =>
        w.(receiver := C.Next(w.receiver, C.Crash(keys, clock)), forward := [], back := [])
  }

  ghost function Run(w: World, steps: seq<Step>): World
    decreases |steps|
  {
    if steps == [] then w else Run(Next(w, steps[0]), steps[1..])
  }

  // ---------------------------------------------------------------- the same lists

  ghost predicate SameTimes(a: seq<Message<nat>>, b: seq<Message<nat>>) {
    |a| == |b| && forall i :: 0 <= i < |a| ==> a[i].lastTouch == b[i].lastTouch
  }

  /** Two lists whose bodies stand for the same texts. */
  ghost predicate Twin(a: seq<Message<nat>>, f: Reading, b: seq<Message<nat>>, g: Reading) {
    Erased(a, f) == Erased(b, g) && SameTimes(a, b)
  }

  lemma TwinAt(a: seq<Message<nat>>, f: Reading, b: seq<Message<nat>>, g: Reading, i: nat)
    requires Twin(a, f, b, g) && i < |a|
    ensures |a| == |b| && Plain(a[i], f(a[i].body)) == Plain(b[i], g(b[i].body)) && a[i].lastTouch == b[i].lastTouch
  {
    assert Erased(a, f)[i] == Erased(b, g)[i];
  }

  lemma TwinFrom(a: seq<Message<nat>>, f: Reading, b: seq<Message<nat>>, g: Reading)
    requires |a| == |b|
    requires forall i :: 0 <= i < |a| ==> Plain(a[i], f(a[i].body)) == Plain(b[i], g(b[i].body)) && a[i].lastTouch == b[i].lastTouch
    ensures Twin(a, f, b, g)
  {
    assert Erased(a, f) == Erased(b, g);
  }

  lemma TwinIndex(a: seq<Message<nat>>, f: Reading, b: seq<Message<nat>>, g: Reading, id: int)
    requires Twin(a, f, b, g)
    ensures IndexOf(a, id) == IndexOf(b, id) && |a| == |b|
  {
    ErasedIndex(a, f, id);
    ErasedIndex(b, g, id);
  }

  lemma TwinOutcomes(a: seq<Message<nat>>, f: Reading, b: seq<Message<nat>>, g: Reading, id: int)
    requires Twin(a, f, b, g)
    ensures OnPuback(a, id) == OnPuback(b, id) && OnPubrec(a, id, false) == OnPubrec(b, id, false)
    ensures OnPubcomp(a, id) == OnPubcomp(b, id) && InUse(a, id) == InUse(b, id)
  {
    TwinIndex(a, f, b, g, id);
    var i := IndexOf(a, id);
    if i < |a| { TwinAt(a, f, b, g, i); }
    hide IndexOf, Twin;
  }

  lemma TwinAppend(a: seq<Message<nat>>, f: Reading, b: seq<Message<nat>>, g: Reading, m: Message<nat>,
                   n: Message<nat>)
    requires Twin(a, f, b, g) && Plain(m, f(m.body)) == Plain(n, g(n.body)) && m.lastTouch == n.lastTouch
    ensures Twin(a + [m], f, b + [n], g)
  {
    assert Erased(a + [m], f) == Erased(a, f) + [Plain(m, f(m.body))];
    assert Erased(b + [n], g) == Erased(b, g) + [Plain(n, g(n.body))];
  }

  lemma TwinRemove(a: seq<Message<nat>>, f: Reading, b: seq<Message<nat>>, g: Reading, i: nat)
    requires Twin(a, f, b, g) && i < |a| && i < |b|
    ensures Twin(RemoveAt(a, i), f, RemoveAt(b, i), g)
  {
    ErasedRemove(a, i, f);
    ErasedRemove(b, i, g);
  }

  /** The same change to what both entries have in common. */
  lemma TwinUpdate(a: seq<Message<nat>>, f: Reading, b: seq<Message<nat>>, g: Reading, i: nat, next: Awaited,
                   clock: int)
    requires Twin(a, f, b, g) && i < |a| && i < |b|
    ensures Twin(a[i := a[i].(next := next, lastTouch := clock)], f, b[i := b[i].(next := next, lastTouch := clock)], g)
  {
    TwinAt(a, f, b, g, i);
    var m: Message<nat> := a[i].(next := next, lastTouch := clock);
    var n: Message<nat> := b[i].(next := next, lastTouch := clock);
    assert Erased(a[i := m], f) == Erased(a, f)[i := Plain(m, f(m.body))];
    assert Erased(b[i := n], g) == Erased(b, g)[i := Plain(n, g(n.body))];
  }

  lemma TwinTouch(a: seq<Message<nat>>, f: Reading, b: seq<Message<nat>>, g: Reading, k: nat, clock: int)
    requires Twin(a, f, b, g) && k < |a| && k < |b|
    ensures Twin(a[k := a[k].(lastTouch := clock)], f, b[k := b[k].(lastTouch := clock)], g)
  {
    TwinAt(a, f, b, g, k);
    TwinUpdate(a, f, b, g, k, a[k].next, clock);
    assert a[k].(next := a[k].next, lastTouch := clock) == a[k].(lastTouch := clock);
    assert b[k].(next := b[k].next, lastTouch := clock) == b[k].(lastTouch := clock);
  }

  /** The retry loop sends the same entries of twin lists. */
  lemma {:induction false} TwinRetry(a: seq<Message<nat>>, f: Reading, b: seq<Message<nat>>, g: Reading,
                                     k: nat, t: RetryTime, io: seq<RetryIo>)
    requires Twin(a, f, b, g) && k <= |a| && k <= |b|
    ensures var x, y := RetryFrom(a, k, t, io), RetryFrom(b, k, t, io);
            x.sent == y.sent && Twin(x.list, f, y.list, g)
    decreases |a| - k
  {
    assert |a| == |b|;
    if k == |a| || k >= |io| || io[k].Stop? {
    } else {
      TwinAt(a, f, b, g, k);
      assert Due(a[k], t) == Due(b[k], t) && ResendsPublish(a[k]) == ResendsPublish(b[k])
           && ResendsPubrel(a[k]) == ResendsPubrel(b[k]);
      TwinTouch(a, f, b, g, k, t.clock);
      hide Due, ResendsPublish, ResendsPubrel, Twin, Plain;
      if !Due(a[k], t) || !(ResendsPublish(a[k]) || ResendsPubrel(a[k])) {
        TwinRetry(a, f, b, g, k + 1, t, io);
      } else if io[k].result == Failed || (ResendsPubrel(a[k]) && io[k].result != Sent) {
      } else {
        TwinRetry(a[k := a[k].(lastTouch := t.clock)], f, b[k := b[k].(lastTouch := t.clock)], g, k + 1, t, io);
      }
    }
  }

  // ---------------------------------------------------------------- the relation

  ghost predicate PacketAgrees(p: P.Packet, q: Q.ToReceiver, texts: seq<Text>) {
    match q
    case Publish(id, qos, dup, tag) =>
      && Receivable(p) && p.msgid == id && p.qos == qos && p.dup == dup
      && tag < |texts| && Text(p.topic, p.payload) == texts[tag]
    case Pubrel(id, dup) => IsId(id) && p == P.Ack(P.Pubrel, dup, id)
  }

  ghost predicate ForwardAgrees(ps: seq<P.Packet>, qs: seq<Q.ToReceiver>, texts: seq<Text>) {
    |ps| == |qs| && forall i :: 0 <= i < |ps| ==> PacketAgrees(ps[i], qs[i], texts)
  }

  ghost predicate BackAgrees(ps: seq<P.Packet>, qs: seq<Q.ToSender>) {
    |ps| == |qs| && forall i :: 0 <= i < |ps| ==> IsId(qs[i].msgid) && ps[i] == Reply(qs[i])
  }

  /** A record received holds the text of the number that the system recorded. */
  ghost predicate RecordAgrees(b: bytes, id: int, tag: nat, texts: seq<Text>) {
    Recalled(b).(retain := false) == Message(id, 2, false, AwaitPubrel, 0, Numbered(texts)(tag))
  }

  ghost predicate RecordsAgree(received: map<int, bytes>, records: map<int, nat>, texts: seq<Text>) {
    received.Keys == records.Keys && forall id :: id in records ==> RecordAgrees(received[id], id, records[id], texts)
  }

  ghost predicate SenderAgrees(a: State, outbound: seq<Message<nat>>, numbers: map<int, nat>, texts: seq<Text>) {
    && C.Sane(a) && Twin(a.outbound, TextsOf(a.publications), outbound, Numbered(texts))
    && NumbersAgree(numbers, outbound)
  }

  ghost predicate ReceiverAgrees(b: State, s: Q.System, texts: seq<Text>) {
    && C.Sane(b) && SameInbound(b, s, texts)
    && RecordsAgree(LedgerOf(b.store).received, s.records, texts)
  }

  ghost predicate NumbersAgree(numbers: map<int, nat>, ms: seq<Message<nat>>) {
    forall i :: 0 <= i < |ms| ==> ms[i].msgid in numbers && numbers[ms[i].msgid] == ms[i].body
  }

  /** `tags[i]` is the publish call that delivery i comes from. */
  ghost predicate From(ds: seq<Delivery>, tags: seq<nat>, texts: seq<Text>) {
    |ds| == |tags| && forall i :: 0 <= i < |ds| ==> tags[i] < |texts| && Text(ds[i].topic, ds[i].payload) == texts[tags[i]]
  }

  /** The sender still holds the message of publish call t, with its text. */
  ghost predicate StillHeld(w: World, t: nat)
    requires t < |w.texts|
  {
    exists i :: 0 <= i < |w.sender.outbound| && HeldAt(w, i, t)
  }

  ghost predicate HeldAt(w: World, i: nat, t: nat)
    requires t < |w.texts| && i < |w.sender.outbound|
  {
    var m := w.sender.outbound[i];
    && m.msgid in w.numbers && w.numbers[m.msgid] == t
    && m.body in w.sender.publications && TextOf(w.sender.publications, m.body) == w.texts[t]
  }

  ghost predicate Sim(w: World, s: Q.System, tags: seq<nat>) {
    && !s.v5 && Inv(s) && Retained(s)
    && SenderAgrees(w.sender, s.outbound, w.numbers, w.texts)
    && ReceiverAgrees(w.receiver, s, w.texts)
    && ForwardAgrees(w.forward, s.toReceiver, w.texts) && BackAgrees(w.back, s.toSender)
    && From(w.receiver.delivered, tags, w.texts) && s.delivered == multiset(tags)
    && |w.texts| == |s.qosOf| && w.qosOf == s.qosOf && w.completed == s.completed
  }
}
