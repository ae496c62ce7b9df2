/** The invariant of the two-endpoint system. */
module Qos2Invariant {
  // It ties the endpoints, the channels and the stored records together, on the maps of the in-flight lists, and
  // every change that a handler makes preserves it.

  import opened Exchange
  import opened Qos2System
  import opened Qos2Flights

  /** What the invariant speaks of: the in-flight lists as maps, the channels and the history. */
  datatype Core = Core(
    v5: bool, out: map<int, Flight>, inn: map<int, Flight>, records: map<int, nat>,
    toReceiver: seq<ToReceiver>, toSender: seq<ToSender>,
    qosOf: seq<int>, delivered: multiset<nat>, released: set<nat>, completed: set<nat>)

  function CoreOf(s: System): Core {
    Core(s.v5, Flights(s.outbound), Flights(s.inbound), s.records, s.toReceiver, s.toSender,
         s.qosOf, s.delivered, s.released, s.completed)
  }

  predicate IsPublish2(p: ToReceiver, id: int) {
    p.Publish? && p.qos == 2 && p.msgid == id
  }

  predicate IsPubrel(p: ToReceiver, id: int) {
    p.Pubrel? && p.msgid == id
  }

  ghost predicate NoPublish2(ps: seq<ToReceiver>, id: int) {
    forall i :: 0 <= i < |ps| ==> !IsPublish2(ps[i], id)
  }

  ghost predicate NoPubrel(ps: seq<ToReceiver>, id: int) {
    forall i :: 0 <= i < |ps| ==> !IsPubrel(ps[i], id)
  }

  /** The outbound entry with id x carries QoS 2 and waits for `next`. */
  predicate Waits(c: Core, x: int, next: Awaited) {
    x in c.out && c.out[x].qos == 2 && c.out[x].next == next
  }

  predicate Holds(c: Core, x: int, tag: nat) {
    x in c.out && c.out[x].qos == 2 && c.out[x].tag == tag
  }

  ghost predicate Histories(c: Core) {
    && (forall t :: t in c.released ==> t < |c.qosOf|)
    && (forall t :: t in c.completed ==> t in c.released && c.qosOf[t] == 2 && c.delivered[t] == 1)
    && (forall t :: t in c.delivered ==> t < |c.qosOf|)
    && (forall t: nat :: t < |c.qosOf| && c.qosOf[t] == 2 ==> c.delivered[t] <= 1)
  }

  /** An outbound entry carries a live tag of its own. */
  predicate EntryOk(c: Core, e: Flight) {
    && e.tag < |c.qosOf| && e.qos == c.qosOf[e.tag] && (e.qos == 1 || e.qos == 2)
    && e.tag !in c.completed
    && (e.next == AwaitPubcomp <==> e.tag in c.released)
    && (e.qos == 2 ==> e.next == AwaitPubrec || e.next == AwaitPubcomp)
    && (e.qos == 1 ==> e.next == Unset)
  }

  ghost predicate Tags(c: Core) {
    && (forall x :: x in c.out ==> EntryOk(c, c.out[x]))
    && (forall x, y :: x in c.out && y in c.out && x != y ==> c.out[x].tag != c.out[y].tag)
  }

  /** A QoS 2 PUBLISH in flight belongs to the entry now holding its id. */
  predicate PacketOk(c: Core, p: ToReceiver) {
    if p.Publish? then
      && p.tag < |c.qosOf| && c.qosOf[p.tag] == p.qos && (p.qos == 1 || p.qos == 2)
      && (p.qos == 2 ==> Holds(c, p.msgid, p.tag))
    else !p.dup
  }

  /** Until PUBREC is handled only stale PUBRELs precede a PUBLISH; afterwards no PUBLISH follows a PUBREL. */
  predicate PairOk(c: Core, p: ToReceiver, q: ToReceiver) {
    p.msgid == q.msgid ==>
      && (IsPublish2(p, p.msgid) && q.Pubrel? ==> Waits(c, p.msgid, AwaitPubcomp))
      && (IsPublish2(q, q.msgid) && p.Pubrel? ==> Waits(c, p.msgid, AwaitPubrec))
  }

  ghost predicate Forward(c: Core) {
    && (forall i :: 0 <= i < |c.toReceiver| ==> PacketOk(c, c.toReceiver[i]))
    && (forall i, j :: 0 <= i < j < |c.toReceiver| ==> PairOk(c, c.toReceiver[i], c.toReceiver[j]))
  }

  ghost predicate InboundOk(c: Core) {
    forall x :: x in c.inn ==>
      && c.inn[x].qos == 2 && c.inn[x].next == AwaitPubrel
      && Holds(c, x, c.inn[x].tag)
      && (Waits(c, x, AwaitPubrec) ==> NoPubrel(c.toReceiver, x))
  }

  predicate ReplyOk(c: Core, p: ToSender) {
    match p
    case Puback(_) => true
    case Pubrec(x) => Waits(c, x, AwaitPubcomp) || (Waits(c, x, AwaitPubrec) && x in c.inn)
    case Pubcomp(x) => Waits(c, x, AwaitPubcomp) && x !in c.inn
  }

  ghost predicate Backward(c: Core) {
    && (forall j :: 0 <= j < |c.toSender| ==> ReplyOk(c, c.toSender[j]))
    && (forall j, k :: 0 <= j < k < |c.toSender| && c.toSender[j].Pubcomp? ==>
          c.toSender[k].msgid == c.toSender[j].msgid ==> c.toSender[k].Puback?)
  }

  /** How often a QoS 2 entry has reached the application. */
  ghost predicate Deliveries(c: Core) {
    && (forall x :: Waits(c, x, AwaitPubrec) ==>
          c.delivered[c.out[x].tag] == if c.v5 && x in c.inn then 1 else 0)
    && (forall x :: Waits(c, x, AwaitPubcomp) ==>
          && c.delivered[c.out[x].tag] == (if !c.v5 && x in c.inn then 0 else 1)
          && (x !in c.inn ==> NoPublish2(c.toReceiver, x)))
  }

  /** Below version 5 the records cover the inbound list and name only undelivered messages. */
  ghost predicate RecordsOk(c: Core) {
    !c.v5 ==>
      && (forall x :: x in c.records ==> Holds(c, x, c.records[x]) && c.delivered[c.records[x]] == 0)
      && (forall x :: x in c.inn ==> x in c.records && c.records[x] == c.inn[x].tag)
  }

  ghost predicate CoreInv(c: Core) {
    && Histories(c) && Tags(c) && Forward(c) && InboundOk(c)
    && Backward(c) && Deliveries(c) && RecordsOk(c)
  }

  ghost predicate Inv(s: System) {
    && 0 <= s.msgID <= MAX_MSG_ID
    && DistinctIds(s.outbound) && IdsInRange(s.outbound)
    && DistinctIds(s.inbound) && IdsInRange(s.inbound)
    && CoreInv(CoreOf(s))
  }

  // ---------------------------------------------------------------- the invariant is kept: packets

  /** Whatever prefix of the flight survives, the invariant survives. */
  lemma LoseKeeps(c: Core, k: nat, l: nat)
    requires CoreInv(c) && k <= |c.toReceiver| && l <= |c.toSender|
    ensures CoreInv(c.(toReceiver := c.toReceiver[..k], toSender := c.toSender[..l]))
  {
    LoseChannels(c, k, l);
    hide Forward, Backward, InboundOk;
    var d := c.(toReceiver := c.toReceiver[..k], toSender := c.toSender[..l]);
    assert forall y :: y in d.out ==> EntryOk(c, c.out[y]) && EntryOk(d, d.out[y]);
    assert forall y, n :: Waits(d, y, n) == Waits(c, y, n);
    assert forall y, u :: Holds(d, y, u) == Holds(c, y, u);
  }

  lemma LoseChannels(c: Core, k: nat, l: nat)
    requires Forward(c) && Backward(c) && InboundOk(c) && k <= |c.toReceiver| && l <= |c.toSender|
    ensures var d := c.(toReceiver := c.toReceiver[..k], toSender := c.toSender[..l]);
            Forward(d) && Backward(d) && InboundOk(d)
  {
  }

  lemma TakeReply(c: Core)
    requires CoreInv(c) && c.toSender != []
    ensures var d := c.(toSender := c.toSender[1..]);
            && CoreInv(d) && ReplyOk(d, c.toSender[0])
            && (c.toSender[0].Pubcomp? ==> NoReply(d, c.toSender[0].msgid))
  {
    var d := c.(toSender := c.toSender[1..]);
    assert forall j :: 0 <= j < |d.toSender| ==> d.toSender[j] == c.toSender[j + 1];
    assert ReplyOk(c, c.toSender[0]);
  }

  /** No PUBREC or PUBCOMP with id x is in flight. */
  ghost predicate NoReply(c: Core, x: int) {
    forall j :: 0 <= j < |c.toSender| && !c.toSender[j].Puback? ==> c.toSender[j].msgid != x
  }

  lemma TakePacket(c: Core)
    requires CoreInv(c) && c.toReceiver != []
    ensures CoreInv(c.(toReceiver := c.toReceiver[1..]))
  {
    assert forall j :: 0 <= j < |c.toReceiver| - 1 ==> c.toReceiver[1..][j] == c.toReceiver[j + 1];
  }

  /** What the packet at the head of the channel says about the rest. */
  ghost predicate HeadFacts(c: Core, p: ToReceiver) {
    && PacketOk(c, p)
    && (p.Publish? && p.qos == 2 && Waits(c, p.msgid, AwaitPubrec) ==> NoPubrel(c.toReceiver, p.msgid))
    && (p.Publish? && p.qos == 2 && Waits(c, p.msgid, AwaitPubcomp) ==> p.msgid in c.inn)
    && (p.Publish? && p.qos == 2 ==> EntryOk(c, c.out[p.msgid]))
    && (p.Publish? && p.qos == 2 && !c.v5 ==> c.delivered[p.tag] == 0)
    && (p.Pubrel? && p.msgid in c.inn ==> Waits(c, p.msgid, AwaitPubcomp) && NoPublish2(c.toReceiver, p.msgid))
  }

  lemma HeadOfChannel(c: Core)
    requires CoreInv(c) && c.toReceiver != []
    ensures HeadFacts(c.(toReceiver := c.toReceiver[1..]), c.toReceiver[0])
  {
    var p, rest := c.toReceiver[0], c.toReceiver[1..];
    var x := p.msgid;
    assert PacketOk(c, p);
    assert forall j :: 0 <= j < |rest| ==> rest[j] == c.toReceiver[j + 1] && PairOk(c, p, rest[j]);
    if p.Publish? && p.qos == 2 {
      assert EntryOk(c, c.out[x]) && IsPublish2(c.toReceiver[0], x);
      assert Waits(c, x, AwaitPubcomp) ==> !(x !in c.inn && NoPublish2(c.toReceiver, x));
    }
    if p.Pubrel? && x in c.inn {
      assert EntryOk(c, c.out[x]) && IsPubrel(c.toReceiver[0], x);
      assert !NoPubrel(c.toReceiver, x);
    }
  }

  /** Sending a packet that fits. */
  lemma SendKeeps(c: Core, p: ToReceiver)
    requires CoreInv(c) && PacketOk(c, p)
    requires forall i :: 0 <= i < |c.toReceiver| ==> PairOk(c, c.toReceiver[i], p)
    requires p.Pubrel? ==> Waits(c, p.msgid, AwaitPubcomp)
    requires p.Publish? && p.qos == 2 ==> Waits(c, p.msgid, AwaitPubrec)
    ensures CoreInv(c.(toReceiver := c.toReceiver + [p]))
  {
    var d := c.(toReceiver := c.toReceiver + [p]);
    forall x | x in d.inn && Waits(d, x, AwaitPubrec) ensures NoPubrel(d.toReceiver, x) {
      assert Waits(c, x, AwaitPubrec) && NoPubrel(c.toReceiver, x);
    }
    forall x | Waits(d, x, AwaitPubcomp) && x !in d.inn ensures NoPublish2(d.toReceiver, x) {
      assert Waits(c, x, AwaitPubcomp) && NoPublish2(c.toReceiver, x);
    }
    forall i, j | 0 <= i < j < |d.toReceiver| ensures PairOk(d, d.toReceiver[i], d.toReceiver[j]) {
      assert PairOk(c, d.toReceiver[i], d.toReceiver[j]);
    }
    forall i | 0 <= i < |d.toReceiver| ensures PacketOk(d, d.toReceiver[i]) {
      assert PacketOk(c, d.toReceiver[i]);
    }
    assert forall j :: 0 <= j < |d.toSender| ==> ReplyOk(c, d.toSender[j]) ==> ReplyOk(d, d.toSender[j]);
  }

  /** A retry may always resend the packet of an entry. */
  lemma ResendKeeps(c: Core, x: int, p: ToReceiver)
    requires CoreInv(c) && x in c.out
    requires p == if c.out[x].qos == 1 || c.out[x].next == AwaitPubrec
                  then Publish(x, c.out[x].qos, true, c.out[x].tag) else Pubrel(x, false)
    ensures CoreInv(c.(toReceiver := c.toReceiver + [p]))
  {
    assert EntryOk(c, c.out[x]);
    SendKeeps(c, p);
  }

  lemma ReplyKeeps(c: Core, p: ToSender)
    requires CoreInv(c) && ReplyOk(c, p)
    requires !p.Puback? ==> forall j :: 0 <= j < |c.toSender| && c.toSender[j].Pubcomp? ==> c.toSender[j].msgid != p.msgid
    ensures CoreInv(c.(toSender := c.toSender + [p]))
  {
    var d := c.(toSender := c.toSender + [p]);
    assert forall j :: 0 <= j < |d.toSender| ==> ReplyOk(c, d.toSender[j]) && ReplyOk(d, d.toSender[j]);
    assert forall i :: 0 <= i < |d.toReceiver| ==> PacketOk(c, d.toReceiver[i]) ==> PacketOk(d, d.toReceiver[i]);
    assert forall i, j :: 0 <= i < j < |d.toReceiver| ==>
      PairOk(c, d.toReceiver[i], d.toReceiver[j]) ==> PairOk(d, d.toReceiver[i], d.toReceiver[j]);
  }

  // ---------------------------------------------------------------- the invariant is kept: the sender

  function WithNewEntry(c: Core, x: int, qos: int): Core {
    c.(qosOf := c.qosOf + [qos], out := c.out[x := Flight(qos, if qos == 2 then AwaitPubrec else Unset, |c.qosOf|)])
  }

  lemma NewEntryTags(c: Core, x: int, qos: int)
    requires Histories(c) && Tags(c) && x !in c.out && (qos == 1 || qos == 2)
    ensures Histories(WithNewEntry(c, x, qos)) && Tags(WithNewEntry(c, x, qos))
  {
    var d := WithNewEntry(c, x, qos);
    forall y | y in d.out ensures EntryOk(d, d.out[y]) {
      if y != x { assert EntryOk(c, c.out[y]); }
    }
    forall y, z | y in d.out && z in d.out && y != z ensures d.out[y].tag != d.out[z].tag {
      if y != x { assert EntryOk(c, c.out[y]); }
      if z != x { assert EntryOk(c, c.out[z]); }
    }
    assert c.delivered[|c.qosOf|] == 0;
  }

  lemma NewEntryChannels(c: Core, x: int, qos: int)
    requires Forward(c) && InboundOk(c) && Backward(c) && x !in c.out
    ensures var d := WithNewEntry(c, x, qos); Forward(d) && InboundOk(d) && Backward(d)
  {
    var d := WithNewEntry(c, x, qos);
    forall i | 0 <= i < |d.toReceiver| ensures PacketOk(d, d.toReceiver[i]) {
      assert PacketOk(c, c.toReceiver[i]);
    }
    forall i, j | 0 <= i < j < |d.toReceiver| ensures PairOk(d, d.toReceiver[i], d.toReceiver[j]) {
      assert PairOk(c, c.toReceiver[i], c.toReceiver[j]);
      assert PacketOk(c, c.toReceiver[i]) && PacketOk(c, c.toReceiver[j]);
    }
    forall j | 0 <= j < |d.toSender| ensures ReplyOk(d, d.toSender[j]) {
      assert ReplyOk(c, c.toSender[j]);
    }
    forall y | y in d.inn && Waits(d, y, AwaitPubrec) ensures NoPubrel(d.toReceiver, y) {
      assert Waits(c, y, AwaitPubrec);
    }
  }

  lemma NewEntryKeeps(c: Core, x: int, qos: int)
    requires CoreInv(c) && x !in c.out && (qos == 1 || qos == 2)
    ensures CoreInv(WithNewEntry(c, x, qos))
  {
    NewEntryTags(c, x, qos);
    NewEntryChannels(c, x, qos);
    NewEntryDeliveries(c, x, qos);
  }

  lemma NewEntryDeliveries(c: Core, x: int, qos: int)
    requires Histories(c) && InboundOk(c) && Deliveries(c) && RecordsOk(c) && x !in c.out && (qos == 1 || qos == 2)
    ensures Deliveries(WithNewEntry(c, x, qos)) && RecordsOk(WithNewEntry(c, x, qos))
  {
    var d := WithNewEntry(c, x, qos);
    assert x !in c.inn && c.delivered[|c.qosOf|] == 0;
    assert forall y, n :: y != x ==> Waits(d, y, n) == Waits(c, y, n);
  }

  function WithPuback(c: Core, x: int): Core {
    c.(out := c.out - {x})
  }

  lemma PubackChannels(c: Core, x: int)
    requires Forward(c) && InboundOk(c) && Backward(c) && x in c.out && c.out[x].qos == 1
    ensures var d := WithPuback(c, x); Forward(d) && InboundOk(d) && Backward(d)
  {
    var d := WithPuback(c, x);
    forall i | 0 <= i < |d.toReceiver| ensures PacketOk(d, d.toReceiver[i]) {
      assert PacketOk(c, c.toReceiver[i]);
    }
    forall i, j | 0 <= i < j < |d.toReceiver| ensures PairOk(d, d.toReceiver[i], d.toReceiver[j]) {
      assert PairOk(c, c.toReceiver[i], c.toReceiver[j]);
      assert PacketOk(c, c.toReceiver[i]) && PacketOk(c, c.toReceiver[j]);
    }
    forall j | 0 <= j < |d.toSender| ensures ReplyOk(d, d.toSender[j]) {
      assert ReplyOk(c, c.toSender[j]);
    }
    forall y | y in d.inn && Waits(d, y, AwaitPubrec) ensures NoPubrel(d.toReceiver, y) {
      assert Waits(c, y, AwaitPubrec);
    }
  }

  lemma PubackKeeps(c: Core, x: int)
    requires CoreInv(c) && x in c.out && c.out[x].qos == 1
    ensures CoreInv(WithPuback(c, x))
  {
    var d := WithPuback(c, x);
    PubackChannels(c, x);
    assert Tags(d) by {
      forall y | y in d.out ensures EntryOk(d, d.out[y]) { assert EntryOk(c, c.out[y]); }
    }
    assert Deliveries(d) && RecordsOk(d) by {
      assert forall y, n :: Waits(d, y, n) ==> Waits(c, y, n);
    }
  }

  function WithPubrec(c: Core, x: int): Core
    requires x in c.out
  {
    c.(out := c.out[x := c.out[x].(next := AwaitPubcomp)], released := c.released + {c.out[x].tag})
  }

  lemma PubrecTags(c: Core, x: int)
    requires Histories(c) && Tags(c) && Waits(c, x, AwaitPubrec)
    ensures Histories(WithPubrec(c, x)) && Tags(WithPubrec(c, x))
  {
    var d := WithPubrec(c, x);
    assert EntryOk(c, c.out[x]);
    forall y | y in d.out ensures EntryOk(d, d.out[y]) {
      assert EntryOk(c, c.out[y]);
    }
  }

  lemma PubrecChannels(c: Core, x: int)
    requires Forward(c) && InboundOk(c) && Backward(c) && Waits(c, x, AwaitPubrec) && x in c.inn
    ensures var d := WithPubrec(c, x); Forward(d) && InboundOk(d) && Backward(d)
  {
    var d := WithPubrec(c, x);
    assert NoPubrel(c.toReceiver, x);
    forall i | 0 <= i < |d.toReceiver| ensures PacketOk(d, d.toReceiver[i]) {
      assert PacketOk(c, c.toReceiver[i]);
    }
    forall i, j | 0 <= i < j < |d.toReceiver| ensures PairOk(d, d.toReceiver[i], d.toReceiver[j]) {
      assert PairOk(c, c.toReceiver[i], c.toReceiver[j]);
      assert !IsPubrel(c.toReceiver[i], x) && !IsPubrel(c.toReceiver[j], x);
    }
    forall j | 0 <= j < |d.toSender| ensures ReplyOk(d, d.toSender[j]) {
      assert ReplyOk(c, c.toSender[j]);
    }
    forall y | y in d.inn && Waits(d, y, AwaitPubrec) ensures NoPubrel(d.toReceiver, y) {
      assert Waits(c, y, AwaitPubrec);
    }
  }

  lemma PubrecDeliveries(c: Core, x: int)
    requires Deliveries(c) && RecordsOk(c) && Waits(c, x, AwaitPubrec) && x in c.inn
    ensures Deliveries(WithPubrec(c, x)) && RecordsOk(WithPubrec(c, x))
  {
    var d := WithPubrec(c, x);
    assert forall y, n :: y != x ==> Waits(d, y, n) == Waits(c, y, n);
    assert forall y, t :: Holds(d, y, t) == Holds(c, y, t);
  }

  lemma PubrecKeeps(c: Core, x: int)
    requires CoreInv(c) && Waits(c, x, AwaitPubrec) && x in c.inn
    ensures CoreInv(WithPubrec(c, x))
  {
    PubrecTags(c, x);
    PubrecChannels(c, x);
    PubrecDeliveries(c, x);
  }

  function WithPubcomp(c: Core, x: int): Core
    requires x in c.out
  {
    c.(out := c.out - {x}, completed := c.completed + {c.out[x].tag})
  }

  lemma PubcompTags(c: Core, x: int)
    requires Histories(c) && Tags(c) && Deliveries(c) && Waits(c, x, AwaitPubcomp) && x !in c.inn
    ensures Histories(WithPubcomp(c, x)) && Tags(WithPubcomp(c, x))
  {
    var d := WithPubcomp(c, x);
    assert EntryOk(c, c.out[x]);
    forall y | y in d.out ensures EntryOk(d, d.out[y]) {
      assert EntryOk(c, c.out[y]);
    }
  }

  lemma PubcompChannels(c: Core, x: int)
    requires Forward(c) && InboundOk(c) && Backward(c) && x in c.out && x !in c.inn && NoPublish2(c.toReceiver, x)
    requires NoReply(c, x)
    ensures var d := WithPubcomp(c, x); Forward(d) && InboundOk(d) && Backward(d)
  {
    var d := WithPubcomp(c, x);
    forall i | 0 <= i < |d.toReceiver| ensures PacketOk(d, d.toReceiver[i]) {
      assert PacketOk(c, c.toReceiver[i]) && !IsPublish2(c.toReceiver[i], x);
    }
    forall i, j | 0 <= i < j < |d.toReceiver| ensures PairOk(d, d.toReceiver[i], d.toReceiver[j]) {
      assert PairOk(c, c.toReceiver[i], c.toReceiver[j]);
      assert !IsPublish2(c.toReceiver[i], x) && !IsPublish2(c.toReceiver[j], x);
    }
    forall j | 0 <= j < |d.toSender| ensures ReplyOk(d, d.toSender[j]) {
      assert ReplyOk(c, c.toSender[j]);
    }
    forall y | y in d.inn && Waits(d, y, AwaitPubrec) ensures NoPubrel(d.toReceiver, y) {
      assert Waits(c, y, AwaitPubrec);
    }
  }

  lemma PubcompDeliveries(c: Core, x: int)
    requires Deliveries(c) && RecordsOk(c) && Waits(c, x, AwaitPubcomp) && x !in c.inn
    ensures Deliveries(WithPubcomp(c, x)) && RecordsOk(WithPubcomp(c, x))
  {
    var d := WithPubcomp(c, x);
    assert forall y, n :: y != x ==> Waits(d, y, n) == Waits(c, y, n);
    assert !c.v5 ==> x !in c.records;
  }

  lemma PubcompKeeps(c: Core, x: int)
    requires CoreInv(c) && Waits(c, x, AwaitPubcomp) && x !in c.inn
    requires NoReply(c, x)
    ensures CoreInv(WithPubcomp(c, x))
  {
    PubcompTags(c, x);
    PubcompChannels(c, x);
    PubcompDeliveries(c, x);
  }

  // ---------------------------------------------------------------- the invariant is kept: the receiver

  /** Nothing but the history changes: the channels and lists fit as before. */
  lemma SameLists(c: Core, d: Core)
    requires Tags(c) && Forward(c) && InboundOk(c) && Backward(c)
    requires d == c.(delivered := d.delivered, records := d.records)
    ensures Tags(d) && Forward(d) && InboundOk(d) && Backward(d)
  {
    forall y | y in d.out ensures EntryOk(d, d.out[y]) {
      assert EntryOk(c, c.out[y]);
    }
    forall i | 0 <= i < |d.toReceiver| ensures PacketOk(d, d.toReceiver[i]) {
      assert PacketOk(c, c.toReceiver[i]);
    }
    forall i, j | 0 <= i < j < |d.toReceiver| ensures PairOk(d, d.toReceiver[i], d.toReceiver[j]) {
      assert PairOk(c, c.toReceiver[i], c.toReceiver[j]);
    }
    forall j | 0 <= j < |d.toSender| ensures ReplyOk(d, d.toSender[j]) {
      assert ReplyOk(c, c.toSender[j]);
    }
    forall y | y in d.inn && Waits(d, y, AwaitPubrec) ensures NoPubrel(d.toReceiver, y) {
      assert Waits(c, y, AwaitPubrec);
    }
  }

  lemma Deliver1Keeps(c: Core, t: nat)
    requires CoreInv(c) && t < |c.qosOf| && c.qosOf[t] == 1
    ensures CoreInv(c.(delivered := c.delivered + multiset{t}))
  {
    var d := c.(delivered := c.delivered + multiset{t});
    SameLists(c, d);
    Deliver1History(c, t);
  }

  lemma Deliver1History(c: Core, t: nat)
    requires Histories(c) && Tags(c) && Deliveries(c) && RecordsOk(c) && t < |c.qosOf| && c.qosOf[t] == 1
    ensures var d := c.(delivered := c.delivered + multiset{t}); Histories(d) && Deliveries(d) && RecordsOk(d)
  {
    var d := c.(delivered := c.delivered + multiset{t});
    assert forall y :: y in c.out && c.out[y].qos == 2 ==> EntryOk(c, c.out[y]) && c.out[y].tag != t;
    assert forall y, n :: Waits(d, y, n) == Waits(c, y, n);
    assert forall y, u :: Holds(d, y, u) == Holds(c, y, u);
  }

  /** A QoS 2 PUBLISH whose handler was refused still leaves its record. */
  lemma RecordKeeps(c: Core, x: int, t: nat)
    requires CoreInv(c) && Holds(c, x, t) && (!c.v5 ==> c.delivered[t] == 0)
    ensures CoreInv(c.(records := c.records[x := t]))
  {
    var d := c.(records := c.records[x := t]);
    SameLists(c, d);
    hide Tags, Forward, Backward;
    assert forall y, n :: Waits(d, y, n) == Waits(c, y, n);
    assert forall y, u :: Holds(d, y, u) == Holds(c, y, u);
  }

  /** Storing an arriving QoS 2 publication; version 5 hands it over on first sight. */
  function WithStored(c: Core, x: int, t: nat): Core {
    var d := c.(inn := c.inn[x := Flight(2, AwaitPubrel, t)]);
    if c.v5 && x !in c.inn then d.(delivered := c.delivered + multiset{t}) else d
  }

  lemma StoreTags(c: Core, x: int, t: nat)
    requires Histories(c) && Tags(c) && Deliveries(c) && Holds(c, x, t)
    requires Waits(c, x, AwaitPubcomp) ==> x in c.inn
    ensures Histories(WithStored(c, x, t)) && Tags(WithStored(c, x, t))
  {
    var d := WithStored(c, x, t);
    assert EntryOk(c, c.out[x]);
    forall y | y in d.out ensures EntryOk(d, d.out[y]) {
      assert EntryOk(c, c.out[y]);
    }
  }

  lemma StoreChannels(c: Core, x: int, t: nat)
    requires Forward(c) && InboundOk(c) && Backward(c) && Holds(c, x, t)
    requires Waits(c, x, AwaitPubrec) ==> NoPubrel(c.toReceiver, x)
    requires Waits(c, x, AwaitPubcomp) ==> x in c.inn
    ensures var d := WithStored(c, x, t); Forward(d) && InboundOk(d) && Backward(d)
  {
    var d := WithStored(c, x, t);
    forall i | 0 <= i < |d.toReceiver| ensures PacketOk(d, d.toReceiver[i]) {
      assert PacketOk(c, c.toReceiver[i]);
    }
    forall i, j | 0 <= i < j < |d.toReceiver| ensures PairOk(d, d.toReceiver[i], d.toReceiver[j]) {
      assert PairOk(c, c.toReceiver[i], c.toReceiver[j]);
    }
    forall j | 0 <= j < |d.toSender| ensures ReplyOk(d, d.toSender[j]) {
      assert ReplyOk(c, c.toSender[j]);
    }
    forall y | y in d.inn && Waits(d, y, AwaitPubrec) ensures NoPubrel(d.toReceiver, y) {
      assert Waits(c, y, AwaitPubrec);
    }
  }

  lemma StoreDeliveries(c: Core, x: int, t: nat)
    requires Tags(c) && Deliveries(c) && RecordsOk(c) && Holds(c, x, t)
    requires !c.v5 ==> x in c.records && c.records[x] == t
    requires Waits(c, x, AwaitPubcomp) ==> x in c.inn
    ensures Deliveries(WithStored(c, x, t)) && RecordsOk(WithStored(c, x, t))
  {
    var d := WithStored(c, x, t);
    assert EntryOk(c, c.out[x]);
    assert forall y, n :: Waits(d, y, n) == Waits(c, y, n);
    assert forall y :: y in c.out && y != x ==> c.out[y].tag != t;
  }

  /** Storing an arriving QoS 2 publication; version 5 hands it over on first sight. */
  lemma StoreKeeps(c: Core, x: int, t: nat)
    requires CoreInv(c) && Holds(c, x, t) && (!c.v5 ==> x in c.records && c.records[x] == t)
    requires Waits(c, x, AwaitPubrec) ==> NoPubrel(c.toReceiver, x)
    requires Waits(c, x, AwaitPubcomp) ==> x in c.inn
    ensures CoreInv(WithStored(c, x, t))
  {
    StoreTags(c, x, t);
    StoreChannels(c, x, t);
    StoreDeliveries(c, x, t);
  }

  /** PUBREL hands a stored message over below version 5, and forgets it. */
  function WithoutStored(c: Core, x: int): Core
    requires x in c.inn
  {
    var d := c.(inn := c.inn - {x}, records := c.records - {x});
    if c.v5 then d else d.(delivered := c.delivered + multiset{c.inn[x].tag})
  }

  lemma PubrelTags(c: Core, x: int)
    requires Histories(c) && Tags(c) && InboundOk(c) && Deliveries(c) && x in c.inn && Waits(c, x, AwaitPubcomp)
    ensures Histories(WithoutStored(c, x)) && Tags(WithoutStored(c, x))
  {
    var d := WithoutStored(c, x);
    assert EntryOk(c, c.out[x]) && c.out[x].tag == c.inn[x].tag;
    forall y | y in d.out ensures EntryOk(d, d.out[y]) {
      assert EntryOk(c, c.out[y]);
    }
  }

  lemma PubrelChannels(c: Core, x: int)
    requires Forward(c) && InboundOk(c) && Backward(c) && x in c.inn && Waits(c, x, AwaitPubcomp)
    ensures var d := WithoutStored(c, x); Forward(d) && InboundOk(d) && Backward(d)
  {
    var d := WithoutStored(c, x);
    forall i | 0 <= i < |d.toReceiver| ensures PacketOk(d, d.toReceiver[i]) {
      assert PacketOk(c, c.toReceiver[i]);
    }
    forall i, j | 0 <= i < j < |d.toReceiver| ensures PairOk(d, d.toReceiver[i], d.toReceiver[j]) {
      assert PairOk(c, c.toReceiver[i], c.toReceiver[j]);
    }
    forall j | 0 <= j < |d.toSender| ensures ReplyOk(d, d.toSender[j]) {
      assert ReplyOk(c, c.toSender[j]);
    }
    forall y | y in d.inn && Waits(d, y, AwaitPubrec) ensures NoPubrel(d.toReceiver, y) {
      assert Waits(c, y, AwaitPubrec);
    }
  }

  lemma PubrelDeliveries(c: Core, x: int)
    requires Tags(c) && InboundOk(c) && Deliveries(c) && RecordsOk(c) && x in c.inn && Waits(c, x, AwaitPubcomp)
    requires NoPublish2(c.toReceiver, x)
    ensures Deliveries(WithoutStored(c, x)) && RecordsOk(WithoutStored(c, x))
  {
    var d := WithoutStored(c, x);
    assert c.out[x].tag == c.inn[x].tag;
    assert forall y, n :: Waits(d, y, n) == Waits(c, y, n);
    assert forall y :: y in c.out && y != x ==> c.out[y].tag != c.inn[x].tag;
    assert forall y, t :: Holds(d, y, t) == Holds(c, y, t);
  }

  /** PUBREL hands a stored message over below version 5, and forgets it. */
  lemma PubrelKeeps(c: Core, x: int)
    requires CoreInv(c) && x in c.inn && Waits(c, x, AwaitPubcomp) && NoPublish2(c.toReceiver, x)
    ensures CoreInv(WithoutStored(c, x))
    ensures forall j :: 0 <= j < |c.toSender| && c.toSender[j].Pubcomp? ==> c.toSender[j].msgid != x
  {
    PubrelTags(c, x);
    PubrelChannels(c, x);
    PubrelDeliveries(c, x);
    assert forall j :: 0 <= j < |c.toSender| ==> ReplyOk(c, c.toSender[j]);
  }
}
