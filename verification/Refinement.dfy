/** The receiving handlers with bytes do what the two-endpoint system does with numbers. */
module Refinement {
  // Same list, same acknowledgements, same deliveries: a stored publication stands for the text of a numbered message.

  import opened Wrappers
  import opened Bytes
  import opened Exchange
  import opened Keys
  import opened ClientState
  import opened Ownership
  import opened Mirror
  import opened MirrorSteps
  import P = Packets
  import Q = Qos2System

  /** What the bodies of a list stand for. */
  type Reading = nat -> Text

  /** An entry with its text in place of a reference or a number. */
  function Plain(m: Message<nat>, t: Text): Message<Text> {
    Message(m.msgid, m.qos, false, m.next, 0, t)
  }

  function Erased(ms: seq<Message<nat>>, text: Reading): (es: seq<Message<Text>>)
    ensures |es| == |ms| && forall i :: 0 <= i < |ms| ==> es[i] == Plain(ms[i], text(ms[i].body))
  {
    seq(|ms|, i requires 0 <= i < |ms| => Plain(ms[i], text(ms[i].body)))
  }

  function TextsOf(pubs: map<nat, Publication>): Reading {
    (r: nat) => TextOf(pubs, r)
  }

  /** The texts of the numbered application messages. */
  function Numbered(texts: seq<Text>): Reading {
    (t: nat) => if t < |texts| then texts[t] else Text([], [])
  }

  /** The two inbound lists hold the same messages. */
  ghost predicate SameInbound(s: State, sys: Q.System, texts: seq<Text>) {
    Erased(s.inbound, TextsOf(s.publications)) == Erased(sys.inbound, Numbered(texts))
  }

  /** The packet of an acknowledgement. */
  function Reply(q: Q.ToSender): P.Packet {
    match q
    case Puback(id) => P.Ack(P.Puback, false, id)
    case Pubrec(id) => P.Ack(P.Pubrec, false, id)
    case Pubcomp(id) => P.Ack(P.Pubcomp, false, id)
  }

  /** The same acknowledgement goes out, or none. */
  ghost predicate SameAcks(s: State, d: State, sys: Q.System, e: Q.System) {
    || (d.sent == s.sent && e.toSender == sys.toSender)
    || exists q: Q.ToSender :: IsId(q.msgid) && d.sent == s.sent + [Reply(q)] && e.toSender == sys.toSender + [q]
  }

  /** The same message is handed on, or none. */
  ghost predicate SameDeliveries(s: State, d: State, sys: Q.System, e: Q.System, texts: seq<Text>) {
    || (d.delivered == s.delivered && e.delivered == sys.delivered)
    || exists x: Delivery, tag: nat ::
         && d.delivered == s.delivered + [x] && e.delivered == sys.delivered + multiset{tag}
         && Text(x.topic, x.payload) == Numbered(texts)(tag)
  }

  ghost predicate Agree(s: State, d: State, sys: Q.System, e: Q.System, texts: seq<Text>) {
    SameInbound(d, e, texts) && SameAcks(s, d, sys, e) && SameDeliveries(s, d, sys, e, texts)
  }

  // ---------------------------------------------------------------- erasing and the decisions

  lemma ErasedIndex(ms: seq<Message<nat>>, text: Reading, id: int)
    ensures IndexOf(Erased(ms, text), id) == IndexOf(ms, id)
  {
    var es := Erased(ms, text);
    var i, j := IndexOf(es, id), IndexOf(ms, id);
    assert i < |es| ==> ms[i].msgid == id;
    assert j < |ms| ==> es[j].msgid == id;
    assert forall k :: 0 <= k < i ==> es[k].msgid == ms[k].msgid && ms[k].msgid != id;
    assert forall k :: 0 <= k < j ==> ms[k].msgid == es[k].msgid && es[k].msgid != id;
  }

  lemma ErasedOnPublish(ms: seq<Message<nat>>, m: Message<nat>, text: Reading)
    ensures Erased(OnPublish(ms, m), text) == OnPublish(Erased(ms, text), Plain(m, text(m.body)))
  {
    ErasedIndex(ms, text, m.msgid);
  }

  lemma ErasedRemove(ms: seq<Message<nat>>, i: nat, text: Reading)
    requires i < |ms|
    ensures Erased(RemoveAt(ms, i), text) == RemoveAt(Erased(ms, text), i)
  {
  }

  lemma ErasedOnPubrel(ms: seq<Message<nat>>, text: Reading, id: int, dup: bool, pending: bool)
    ensures OnPubrel(Erased(ms, text), id, dup, pending) == OnPubrel(ms, id, dup, pending)
  {
    ErasedIndex(ms, text, id);
  }

  lemma ErasedSame(ms: seq<Message<nat>>, f: Reading, g: Reading)
    requires forall i :: 0 <= i < |ms| ==> f(ms[i].body) == g(ms[i].body)
    ensures Erased(ms, f) == Erased(ms, g)
  {
  }

  // ---------------------------------------------------------------- texts of what stays

  /** A message on the list before and after denotes the same text. */
  lemma TextStays(s: State, d: State, m: Message<nat>)
    requires Owned(s) && Owned(d) && TextsKept(s.publications, d.publications, s.nextRef)
    requires m in s.inbound && m in d.inbound
    ensures TextOf(d.publications, m.body) == TextOf(s.publications, m.body)
  {
    var i: nat :| i < |s.inbound| && s.inbound[i] == m;
    var j: nat :| j < |d.inbound| && d.inbound[j] == m;
    InboundBody(s, i);
    InboundBody(d, j);
  }

  // ---------------------------------------------------------------- PUBLISH

  /** The inbound list after a queued PUBLISH, in terms of texts. */
  lemma QueuedView(s: State, d: State, p: P.Packet)
    requires Owned(s) && Owned(d) && p.Publish? && TextsKept(s.publications, d.publications, s.nextRef)
    requires d.inbound == OnPublish(s.inbound, Arrived(s, p)) && TextOf(d.publications, s.nextRef) == Text(p.topic, p.payload)
    ensures Erased(d.inbound, TextsOf(d.publications))
         == OnPublish(Erased(s.inbound, TextsOf(s.publications)), Plain(Arrived(s, p), Text(p.topic, p.payload)))
  {
    var k := IndexOf(s.inbound, p.msgid);
    ErasedIndex(s.inbound, TextsOf(s.publications), p.msgid);
    hide Owned, TextsKept, TextOf;
    var e := Erased(d.inbound, TextsOf(d.publications));
    forall i | 0 <= i < |s.inbound| && i != k
      ensures e[i] == Erased(s.inbound, TextsOf(s.publications))[i]
    {
      assert d.inbound[i] == s.inbound[i];
      TextStays(s, d, s.inbound[i]);
    }
  }

  /** The new publication has the text of the packet. */
  lemma QueuedText(s: State, p: P.Packet, io: SendResult)
    requires Receivable(p) && p.qos == 2 && Owned(s)
    ensures TextOf(OnPublishS(s, p, false, io).publications, s.nextRef) == Text(p.topic, p.payload)
  {
    var i := IndexOf(s.inbound, p.msgid);
    QueuedPublications(s, p, io);
    if i < |s.inbound| { InboundBody(s, i); }
    hide OnPublishS, Owned, IndexOf;
  }

  lemma QueuedPublications(s: State, p: P.Packet, io: SendResult)
    requires Receivable(p) && p.qos == 2
    ensures var i, s1 := IndexOf(s.inbound, p.msgid), Alloc(s, p.topic, p.payload);
            OnPublishS(s, p, false, io).publications
            == (if i < |s.inbound| then Release(s1, s.inbound[i].body) else s1).publications
  {
    hide Release, Alloc, OnPublish, IndexOf;
  }

  lemma PublishSends(s: State, p: P.Packet, pending: bool, io: SendResult)
    requires Receivable(p)
    ensures var d := OnPublishS(s, p, pending, io);
            && d.sent == (if p.qos == 0 || p.qos == 3 || pending || io == Failed then s.sent
                          else s.sent + [P.Ack(if p.qos == 1 then P.Puback else P.Pubrec, false, p.msgid)])
            && d.delivered == (if p.qos == 0 || (p.qos == 1 && !pending)
                               then s.delivered + [Delivery(p.qos, p.retain, p.msgid, p.topic, p.payload)]
                               else s.delivered)
  {
    ReleaseFrame(Alloc(s, p.topic, p.payload), if IndexOf(s.inbound, p.msgid) < |s.inbound| then s.inbound[IndexOf(s.inbound, p.msgid)].body else 0);
    hide OnPublish, IndexOf, Release;
  }

  lemma SystemPublish(sys: Q.System, p: P.Packet, tag: nat, pending: bool, sent: bool, clock: int)
    requires Receivable(p) && !sys.v5
    ensures var q := Q.Publish(p.msgid, p.qos, p.dup, tag);
            var e := Q.Receive(Q.Record(sys, q), q, pending, sent, clock);
            && e.toSender == (if p.qos == 0 || p.qos == 3 || pending || !sent then sys.toSender
                              else sys.toSender + [if p.qos == 1 then Q.Puback(p.msgid) else Q.Pubrec(p.msgid)])
            && e.delivered == (if p.qos == 0 || (p.qos == 1 && !pending) then sys.delivered + multiset{tag} else sys.delivered)
            && e.inbound == (if p.qos == 2 && !pending then OnPublish(sys.inbound, Message(p.msgid, 2, false, AwaitPubrel, clock, tag))
                             else sys.inbound)
  {
    hide OnPublish, InUse;
  }

  /** An arriving PUBLISH, recorded and handled. */
  lemma PublishRefines(s: State, sys: Q.System, texts: seq<Text>, p: P.Packet, tag: nat, pending: bool, io: SendResult, clock: int)
    requires Owned(s) && !sys.v5 && Receivable(p) && SameInbound(s, sys, texts)
    requires tag < |texts| && texts[tag] == Text(p.topic, p.payload)
    ensures var s1, q := StoreReceived(s, p), Q.Publish(p.msgid, p.qos, p.dup, tag);
            Agree(s, OnPublishS(s1, p, pending, io), sys, Q.Receive(Q.Record(sys, q), q, pending, io != Failed, clock), texts)
  {
    var s1, q := StoreReceived(s, p), Q.Publish(p.msgid, p.qos, p.dup, tag);
    StoreReceivedFrame(s, p);
    var d, e := OnPublishS(s1, p, pending, io), Q.Receive(Q.Record(sys, q), q, pending, io != Failed, clock);
    SameOwners(s, s1);
    OnPublishOwned(s1, p, pending, io);
    PublishSends(s1, p, pending, io);
    SystemPublish(sys, p, tag, pending, io != Failed, clock);
    OnPublishFrame(s1, p, pending, io);
    OnPublishTexts(s1, p, pending, io);
    if p.qos == 2 && !pending { QueuedText(s1, p, io); }
    hide Owned, OnPublishS, StoreReceived, Q.Receive, Q.Record, TextsKept, OnPublish, Erased, TextOf;
    PublishReports(s, d, sys, e, texts, p, tag, pending, io);
    assert SameInbound(d, e, texts) by {
      if p.qos == 2 && !pending { QueuedAgrees(s1, d, sys, p, tag, clock, texts); }
    }
    hide SameInbound, SameDeliveries, SameAcks;
  }

  lemma PublishReports(s: State, d: State, sys: Q.System, e: Q.System, texts: seq<Text>, p: P.Packet, tag: nat, pending: bool, io: SendResult)
    requires Receivable(p) && tag < |texts| && texts[tag] == Text(p.topic, p.payload)
    requires d.sent == (if p.qos == 0 || p.qos == 3 || pending || io == Failed then s.sent
                        else s.sent + [P.Ack(if p.qos == 1 then P.Puback else P.Pubrec, false, p.msgid)])
    requires d.delivered == (if p.qos == 0 || (p.qos == 1 && !pending)
                             then s.delivered + [Delivery(p.qos, p.retain, p.msgid, p.topic, p.payload)] else s.delivered)
    requires e.toSender == (if p.qos == 0 || p.qos == 3 || pending || io == Failed then sys.toSender
                            else sys.toSender + [if p.qos == 1 then Q.Puback(p.msgid) else Q.Pubrec(p.msgid)])
    requires e.delivered == (if p.qos == 0 || (p.qos == 1 && !pending) then sys.delivered + multiset{tag} else sys.delivered)
    ensures SameDeliveries(s, d, sys, e, texts) && SameAcks(s, d, sys, e)
  {
    var q := if p.qos == 1 then Q.Puback(p.msgid) else Q.Pubrec(p.msgid);
    RepliesAgree(s, d, sys, e, q, !(p.qos == 0 || p.qos == 3 || pending || io == Failed));
    hide SameAcks;
    var x := Delivery(p.qos, p.retain, p.msgid, p.topic, p.payload);
    assert Text(x.topic, x.payload) == Numbered(texts)(tag);
  }

  lemma StoreReceivedFrame(s: State, p: P.Packet)
    requires Receivable(p)
    ensures StoreReceived(s, p) == s.(store := StoreReceived(s, p).store)
  {
  }

  lemma QueuedAgrees(s: State, d: State, sys: Q.System, p: P.Packet, tag: nat, clock: int, texts: seq<Text>)
    requires Owned(s) && Owned(d) && p.Publish? && TextsKept(s.publications, d.publications, s.nextRef)
    requires d.inbound == OnPublish(s.inbound, Arrived(s, p)) && TextOf(d.publications, s.nextRef) == Text(p.topic, p.payload)
    requires SameInbound(s, sys, texts) && tag < |texts| && texts[tag] == Text(p.topic, p.payload)
    ensures Erased(d.inbound, TextsOf(d.publications))
         == Erased(OnPublish(sys.inbound, Message(p.msgid, 2, false, AwaitPubrel, clock, tag)), Numbered(texts))
  {
    var m := Message(p.msgid, 2, false, AwaitPubrel, clock, tag);
    hide Owned, TextsKept, OnPublish, Erased, TextOf;
    QueuedView(s, d, p);
    ErasedOnPublish(sys.inbound, m, Numbered(texts));
    assert Plain(m, Numbered(texts)(tag)) == Plain(Arrived(s, p), Text(p.topic, p.payload));
  }

  // ---------------------------------------------------------------- PUBREL

  /** An arriving PUBREL: the message handed on has the text of the number handed on. */
  lemma PubrelRefines(s: State, sys: Q.System, texts: seq<Text>, id: int, dup: bool, pending: bool, io: SendResult, clock: int)
    requires Owned(s) && !sys.v5 && IsId(id) && SameInbound(s, sys, texts)
    ensures var q := Q.Pubrel(id, dup);
            Agree(s, OnPubrelS(s, id, dup, pending, io), sys, Q.Receive(Q.Record(sys, q), q, pending, io != Failed, clock), texts)
  {
    var q := Q.Pubrel(id, dup);
    var d, e := OnPubrelS(s, id, dup, pending, io), Q.Receive(Q.Record(sys, q), q, pending, io != Failed, clock);
    SameDecision(s, sys, texts, id, dup, pending);
    var o := OnPubrel(s.inbound, id, dup, pending);
    OnPubrelOwned(s, id, dup, pending, io);
    OnPubrelFrame(s, id, dup, pending, io);
    PubrelSends(s, id, dup, pending, io);
    SystemPubrel(sys, id, dup, pending, io != Failed, clock);
    hide Owned, Erased, OnPubrel, OnPubrelS, Complete, Q.Receive, Q.Record;
    if o.Deliver? {
      hide SameInbound;
      DeliverRefines(s, sys, texts, o.at, id, io, d, e);
    } else {
      assert SameInbound(d, e, texts);
      hide SameInbound;
      assert SameDeliveries(s, d, sys, e, texts);
      RepliesAgree(s, d, sys, e, Q.Pubcomp(id), o.AckOnly? && io != Failed);
      hide SameAcks, SameDeliveries;
    }
  }

  lemma SameDecision(s: State, sys: Q.System, texts: seq<Text>, id: int, dup: bool, pending: bool)
    requires SameInbound(s, sys, texts)
    ensures OnPubrel(s.inbound, id, dup, pending) == OnPubrel(sys.inbound, id, dup, pending)
    ensures var o := OnPubrel(s.inbound, id, dup, pending); o.Deliver? ==> o.at < |s.inbound| && o.at < |sys.inbound|
  {
    ErasedOnPubrel(s.inbound, TextsOf(s.publications), id, dup, pending);
    ErasedOnPubrel(sys.inbound, Numbered(texts), id, dup, pending);
    hide Erased;
  }

  /** Without a delivery, only an unknown id with DUP set is answered. */
  lemma PubrelSends(s: State, id: nat, dup: bool, pending: bool, io: SendResult)
    ensures var o, d := OnPubrel(s.inbound, id, dup, pending), OnPubrelS(s, id, dup, pending, io);
            !o.Deliver? ==>
              d.sent == if o.AckOnly? && io != Failed then s.sent + [P.Ack(P.Pubcomp, false, id)] else s.sent
  {
    hide OnPubrel, Complete;
  }

  lemma SystemPubrel(sys: Q.System, id: nat, dup: bool, pending: bool, sent: bool, clock: int)
    requires !sys.v5
    ensures var o, q := OnPubrel(sys.inbound, id, dup, pending), Q.Pubrel(id, dup);
            var e := Q.Receive(Q.Record(sys, q), q, pending, sent, clock);
            if o.Deliver? then
              && o.at < |sys.inbound| && e.inbound == RemoveAt(sys.inbound, o.at)
              && e.toSender == Q.Emit(sys.toSender, Q.Pubcomp(id), sent)
              && e.delivered == sys.delivered + multiset{sys.inbound[o.at].body}
            else
              && e.inbound == sys.inbound && e.delivered == sys.delivered
              && e.toSender == if o.AckOnly? then Q.Emit(sys.toSender, Q.Pubcomp(id), sent) else sys.toSender
  {
    hide RemoveAt;
  }

  lemma CompleteSends(s: State, i: nat, id: nat, io: SendResult)
    requires i < |s.inbound|
    ensures var d := Complete(s, i, id, io);
            && d.sent == (if io == Failed then s.sent else s.sent + [P.Ack(P.Pubcomp, false, id)])
            && d.delivered == s.delivered + [DeliveryOf(s, s.inbound[i])]
  {
    hide KeyOf, RemoveAt, DeliveryOf;
  }

  lemma DeliveredText(s: State, m: Message<nat>)
    ensures Text(DeliveryOf(s, m).topic, DeliveryOf(s, m).payload) == TextOf(s.publications, m.body)
  {
  }

  lemma DeliverRefines(s: State, sys: Q.System, texts: seq<Text>, i: nat, id: nat, io: SendResult, d: State, e: Q.System)
    requires Owned(s) && Owned(d) && SameInbound(s, sys, texts) && i < |s.inbound| && i < |sys.inbound| && IsId(id)
    requires d == Complete(s, i, id, io) && e.inbound == RemoveAt(sys.inbound, i)
    requires e.toSender == Q.Emit(sys.toSender, Q.Pubcomp(id), io != Failed)
    requires e.delivered == sys.delivered + multiset{sys.inbound[i].body}
    ensures Agree(s, d, sys, e, texts)
  {
    CompleteFrame(s, i, id, io);
    CompleteSends(s, i, id, io);
    DeliveredText(s, s.inbound[i]);
    hide Complete, Owned, TextsKept, RemoveAt, DeliveryOf, TextOf;
    assert Text(DeliveryOf(s, s.inbound[i]).topic, DeliveryOf(s, s.inbound[i]).payload) == Numbered(texts)(sys.inbound[i].body) by {
      assert Erased(s.inbound, TextsOf(s.publications))[i] == Erased(sys.inbound, Numbered(texts))[i];
    }
    assert SameInbound(d, e, texts) by { RemovedAgrees(s, d, sys, i, texts); }
    hide SameInbound;
    assert SameDeliveries(s, d, sys, e, texts);
    RepliesAgree(s, d, sys, e, Q.Pubcomp(id), io != Failed);
    hide SameAcks;
  }

  lemma RepliesAgree(s: State, d: State, sys: Q.System, e: Q.System, q: Q.ToSender, sent: bool)
    requires IsId(q.msgid) && d.sent == (if sent then s.sent + [Reply(q)] else s.sent)
    requires e.toSender == Q.Emit(sys.toSender, q, sent)
    ensures SameAcks(s, d, sys, e)
  {
  }

  lemma RemovedAgrees(s: State, d: State, sys: Q.System, i: nat, texts: seq<Text>)
    requires Owned(s) && Owned(d) && TextsKept(s.publications, d.publications, s.nextRef)
    requires SameInbound(s, sys, texts) && i < |s.inbound| && i < |sys.inbound| && d.inbound == RemoveAt(s.inbound, i)
    ensures Erased(d.inbound, TextsOf(d.publications)) == Erased(RemoveAt(sys.inbound, i), Numbered(texts))
  {
    var f := TextsOf(s.publications);
    hide Owned, TextsKept, TextOf;
    ErasedRemove(s.inbound, i, f);
    ErasedRemove(sys.inbound, i, Numbered(texts));
    forall j | 0 <= j < |d.inbound|
      ensures TextsOf(d.publications)(d.inbound[j].body) == f(d.inbound[j].body)
    {
      assert d.inbound[j] == s.inbound[if j < i then j else j + 1];
      TextStays(s, d, d.inbound[j]);
    }
    ErasedSame(d.inbound, TextsOf(d.publications), f);
  }
}
