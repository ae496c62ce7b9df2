/** Each handler keeps the store a mirror of the in-flight lists. */
module MirrorSteps {
  import opened Wrappers
  import opened Bytes
  import opened Exchange
  import opened Keys
  import opened ClientState
  import opened Ownership
  import opened Mirror
  import P = Packets

  // ---------------------------------------------------------------- texts of publications

  ghost predicate TextsKept(a: map<nat, Publication>, b: map<nat, Publication>, next: nat) {
    forall r :: r in b && r < next ==> r in a && TextOf(a, r) == TextOf(b, r)
  }

  lemma ReleaseKeepsTexts(s: State, r: nat)
    ensures TextsKept(s.publications, Release(s, r).publications, s.nextRef)
  {
  }

  lemma {:induction false} ReleaseAllKeepsTexts(s: State, rs: seq<nat>)
    ensures TextsKept(s.publications, ReleaseAll(s, rs).publications, s.nextRef) && ReleaseAll(s, rs).nextRef == s.nextRef
    decreases |rs|
  {
    if rs != [] {
      ReleaseKeepsTexts(s, rs[0]);
      ReleaseAllKeepsTexts(Release(s, rs[0]), rs[1..]);
    }
  }

  lemma OutboundBody(s: State, i: nat)
    requires Owned(s) && i < |s.outbound|
    ensures s.outbound[i].body in s.publications && s.outbound[i].body < s.nextRef
  {
    assert BodiesOf(s.outbound)[i] in multiset(BodiesOf(s.outbound));
    assert s.outbound[i].body in Owners(s);
  }

  lemma InboundBody(s: State, i: nat)
    requires Owned(s) && i < |s.inbound|
    ensures s.inbound[i].body in s.publications && s.inbound[i].body < s.nextRef
  {
    assert BodiesOf(s.inbound)[i] in multiset(BodiesOf(s.inbound));
    assert s.inbound[i].body in Owners(s);
  }

  /** A list owned before and after denotes the same messages. */
  lemma ViewsKept(s: State, d: State, ms: seq<Message<nat>>)
    requires Owned(s) && Owned(d) && TextsKept(s.publications, d.publications, s.nextRef)
    requires forall i :: 0 <= i < |ms| ==> ms[i] in s.outbound && ms[i] in d.outbound
    ensures Views(d.publications, ms) == Views(s.publications, ms)
  {
    forall i | 0 <= i < |ms| ensures ViewOf(d.publications, ms[i]) == ViewOf(s.publications, ms[i]) {
      var j :| 0 <= j < |s.outbound| && s.outbound[j] == ms[i];
      var k :| 0 <= k < |d.outbound| && d.outbound[k] == ms[i];
      OutboundBody(s, j);
      OutboundBody(d, k);
    }
  }

  lemma SameIds(pubs: map<nat, Publication>, ms: seq<Message<nat>>, id: int)
    ensures InUse(Views(pubs, ms), id) <==> InUse(ms, id)
  {
    var fs := Views(pubs, ms);
    var i, j := IndexOf(fs, id), IndexOf(ms, id);
    assert i < |fs| ==> ms[i].msgid == id;
    assert j < |ms| ==> fs[j].msgid == id;
  }

  // ---------------------------------------------------------------- frames

  lemma MirrorFrame(s: State, d: State)
    requires Mirrored(s) && d.publications == s.publications && d.outbound == s.outbound
    requires d.inbound == s.inbound && d.store == s.store
    ensures Mirrored(d)
  {
  }

  /** Only stored publications changed, and none of those in flight. */
  lemma TextsOnly(s: State, d: State)
    requires Owned(s) && Owned(d) && Mirrored(s) && TextsKept(s.publications, d.publications, s.nextRef)
    requires d.outbound == s.outbound && d.inbound == s.inbound && d.store == s.store
    ensures Mirrored(d)
  {
    hide OutboundStored, InboundStored, KnownKeys, TextsKept, Owned;
    ViewsKept(s, d, s.outbound);
  }

  lemma InboundFrame(inbound: seq<Message<nat>>, l: Ledger, d: Ledger)
    requires InboundStored(inbound, l) && d.received == l.received
    ensures InboundStored(inbound, d)
  {
    hide ReceivedRecord;
  }

  lemma OutboundFrame(fs: seq<View>, l: Ledger, d: Ledger)
    requires OutboundStored(fs, l) && d.sent == l.sent && d.rel == l.rel
    ensures OutboundStored(fs, d)
  {
    hide IsRecord, ViewOk, PubrelRecord;
    forall i | 0 <= i < |fs| ensures Kept(fs[i], d) { assert Kept(fs[i], l); }
  }

  // ---------------------------------------------------------------- publishing

  /** The message that a publish adds. */
  ghost function NewView(s: State, id: int, qos: int, retain: bool, topic: bytes, payload: bytes,
                           shared: Option<nat>): View
  {
    Message(id, qos, retain, if qos == 2 then AwaitPubrec else Unset, 0,
            if shared.None? then Text(topic, payload) else TextOf(s.publications, shared.value))
  }

  ghost predicate Publishable(s: State, id: int, qos: int, topic: bytes, shared: Option<nat>) {
    && 1 <= id <= MAX_MSG_ID && !InUse(s.outbound, id) && (qos == 1 || qos == 2) && |topic| < 0x1_0000
    && (shared.Some? ==> shared.value in BodiesOf(s.outbound) && shared.value in s.publications
                         && |s.publications[shared.value].topic| < 0x1_0000)
  }

  lemma PublishLists(s: State, id: int, qos: int, retain: bool, topic: bytes, payload: bytes,
                     shared: Option<nat>, clock: int, io: SendResult)
    requires Publishable(s, id, qos, topic, shared)
    ensures var d, f := StartPublish(s, id, qos, retain, topic, payload, shared, clock, io),
                        NewView(s, id, qos, retain, topic, payload, shared);
            && d.publications == Refer(s, topic, payload, shared).publications
            && d.outbound == s.outbound + [Message(id, qos, retain, f.next, clock, RefOf(s, shared))]
  {
    hide P.Serialized, Refer, KeyOf, InUse;
  }

  lemma ReferTexts(s: State, topic: bytes, payload: bytes, shared: Option<nat>)
    requires shared.Some? ==> shared.value in s.publications
    ensures var d := Refer(s, topic, payload, shared).publications;
            && TextOf(d, RefOf(s, shared)) == (if shared.None? then Text(topic, payload) else TextOf(s.publications, shared.value))
            && forall r :: r in s.publications && r < s.nextRef ==> TextOf(d, r) == TextOf(s.publications, r)
  {
  }

  lemma PublishViews(s: State, id: int, qos: int, retain: bool, topic: bytes, payload: bytes,
                       shared: Option<nat>, clock: int, io: SendResult)
    requires Owned(s) && Publishable(s, id, qos, topic, shared)
    ensures var d := StartPublish(s, id, qos, retain, topic, payload, shared, clock, io);
            Views(d.publications, d.outbound) ==
            Views(s.publications, s.outbound) + [NewView(s, id, qos, retain, topic, payload, shared)]
  {
    PublishLists(s, id, qos, retain, topic, payload, shared, clock, io);
    ReferTexts(s, topic, payload, shared);
    hide Refer, RefOf, Owned, StartPublish, TextOf;
    var d := StartPublish(s, id, qos, retain, topic, payload, shared, clock, io);
    forall i | 0 <= i < |s.outbound|
      ensures ViewOf(d.publications, s.outbound[i]) == ViewOf(s.publications, s.outbound[i])
    {
      OutboundBody(s, i);
    }
  }

  lemma PublishStore(s: State, id: int, qos: int, retain: bool, topic: bytes, payload: bytes,
                     shared: Option<nat>, clock: int, io: SendResult)
    requires Publishable(s, id, qos, topic, shared)
    ensures var d, f := StartPublish(s, id, qos, retain, topic, payload, shared, clock, io),
                        NewView(s, id, qos, retain, topic, payload, shared);
            && d.inbound == s.inbound && d.store == s.store[SentKey(id) := P.Serialized(RecordOf(f, false))]
            && ViewOk(f) && f.next != AwaitPubcomp && f.msgid == id && !InUse(s.outbound, id)
  {
    hide P.Serialized, InUse, KeyOf;
  }

  lemma StartPublishMirrored(s: State, id: int, qos: int, retain: bool, topic: bytes, payload: bytes,
                             shared: Option<nat>, clock: int, io: SendResult)
    requires Owned(s) && Mirrored(s) && Publishable(s, id, qos, topic, shared)
    ensures Mirrored(StartPublish(s, id, qos, retain, topic, payload, shared, clock, io))
  {
    assert (qos == 1 || qos == 2) && id >= 0;
    hide *;
    var d := StartPublish(s, id, qos, retain, topic, payload, shared, clock, io);
    var f := NewView(s, id, qos, retain, topic, payload, shared);
    PublishViews(s, id, qos, retain, topic, payload, shared, clock, io);
    PublishStore(s, id, qos, retain, topic, payload, shared, clock, io);
    SameIds(s.publications, s.outbound, id);
    AddedMirrored(s, f, d);
  }

  lemma AddedMirrored(s: State, f: View, d: State)
    requires Mirrored(s) && ViewOk(f) && f.next != AwaitPubcomp
    requires !InUse(Views(s.publications, s.outbound), f.msgid)
    requires Views(d.publications, d.outbound) == Views(s.publications, s.outbound) + [f]
    requires d.inbound == s.inbound && d.store == s.store[SentKey(f.msgid) := P.Serialized(RecordOf(f, false))]
    ensures Mirrored(d)
  {
    var b := P.Serialized(RecordOf(f, false));
    hide Views, OutboundStored, InboundStored, KnownKeys, P.Serialized;
    assert IsRecord(b, f);
    PutRecord(s.store, SENT, f.msgid, b);
    hide IsRecord, LedgerOf;
    AddView(Views(s.publications, s.outbound), f, LedgerOf(s.store), b);
    InboundFrame(s.inbound, LedgerOf(s.store), LedgerOf(d.store));
  }

  lemma StartPublish0Frame(s: State, retain: bool, topic: bytes, payload: bytes, io: SendResult)
    ensures var d := StartPublish0(s, retain, topic, payload, io);
            && TextsKept(s.publications, d.publications, s.nextRef)
            && d.outbound == s.outbound && d.inbound == s.inbound && d.store == s.store
  {
  }

  lemma StartPublish0Mirrored(s: State, retain: bool, topic: bytes, payload: bytes, io: SendResult)
    requires Owned(s) && Mirrored(s)
    ensures Mirrored(StartPublish0(s, retain, topic, payload, io))
  {
    hide *;
    StartPublish0Owned(s, retain, topic, payload, io);
    StartPublish0Frame(s, retain, topic, payload, io);
    TextsOnly(s, StartPublish0(s, retain, topic, payload, io));
  }

  // ---------------------------------------------------------------- acknowledgements

  lemma RemovedMirrored(s: State, i: nat, d: State)
    requires Owned(s) && Owned(d) && Mirrored(s) && i < |s.outbound|
    requires d.outbound == RemoveAt(s.outbound, i) && d.inbound == s.inbound && IsId(s.outbound[i].msgid)
    requires d.store == Forget(s, s.outbound[i].msgid).store
    requires d.publications == Release(s, s.outbound[i].body).publications
    ensures Mirrored(d)
  {
    var id := s.outbound[i].msgid;
    ReleaseKeepsTexts(s, s.outbound[i].body);
    hide Owned, Mirrored, Release;
    RemovedViews(s, i, d);
    RemovedStored(s, i, d);
  }

  lemma RemovedViews(s: State, i: nat, d: State)
    requires Owned(s) && Owned(d) && i < |s.outbound| && d.outbound == RemoveAt(s.outbound, i)
    requires TextsKept(s.publications, d.publications, s.nextRef)
    ensures Views(d.publications, d.outbound) == RemoveAt(Views(s.publications, s.outbound), i)
  {
    hide Owned, TextsKept, ViewOf;
    ViewsKept(s, d, d.outbound);
  }

  lemma RemovedStored(s: State, i: nat, d: State)
    requires Mirrored(s) && i < |s.outbound| && IsId(s.outbound[i].msgid)
    requires Views(d.publications, d.outbound) == RemoveAt(Views(s.publications, s.outbound), i)
    requires d.store == Forget(s, s.outbound[i].msgid).store && d.inbound == s.inbound
    ensures Mirrored(d)
  {
    var id := s.outbound[i].msgid;
    KnownSubset(s.store, {KeyOf(SENT5, id), KeyOf(PUBREL5, id), SentKey(id), PubrelKey(id)});
    assert KnownKeys(d.store);
    hide KnownKeys, OutboundStored, InboundStored, Forget;
    ForgetRecords(s, id);
    RemoveView(Views(s.publications, s.outbound), i, LedgerOf(s.store));
    InboundFrame(s.inbound, LedgerOf(s.store), LedgerOf(d.store));
  }

  ghost predicate CompletesAt(s: State, o: Outcome, id: int, d: State) {
    if o.Remove? then
      && o.at < |s.outbound| && s.outbound[o.at].msgid == id && id >= 0
      && d.outbound == RemoveAt(s.outbound, o.at) && d.inbound == s.inbound
      && d.store == Forget(s, id).store && d.publications == Release(s, s.outbound[o.at].body).publications
    else d == s
  }

  lemma PubackFrame(s: State, id: nat)
    ensures CompletesAt(s, OnPuback(s.outbound, id), id, OnPubackS(s, id))
  {
  }

  lemma PubcompFrame(s: State, id: nat)
    ensures CompletesAt(s, OnPubcomp(s.outbound, id), id, OnPubcompS(s, id))
  {
  }

  lemma CompletedAtMirrored(s: State, o: Outcome, id: int, d: State)
    requires Owned(s) && Owned(d) && Mirrored(s) && IsId(id) && CompletesAt(s, o, id, d)
    ensures Mirrored(d)
  {
    hide Owned, Mirrored, Forget, Release;
    if o.Remove? { RemovedMirrored(s, o.at, d); }
  }

  lemma OnPubackMirrored(s: State, id: int)
    requires Owned(s) && Mirrored(s) && IsId(id)
    ensures Mirrored(OnPubackS(s, id))
  {
    assert id >= 0;
    hide *;
    OnPubackOwned(s, id);
    PubackFrame(s, id);
    CompletedAtMirrored(s, OnPuback(s.outbound, id), id, OnPubackS(s, id));
  }

  lemma OnPubcompMirrored(s: State, id: int)
    requires Owned(s) && Mirrored(s) && IsId(id)
    ensures Mirrored(OnPubcompS(s, id))
  {
    assert id >= 0;
    hide *;
    OnPubcompOwned(s, id);
    PubcompFrame(s, id);
    CompletedAtMirrored(s, OnPubcomp(s.outbound, id), id, OnPubcompS(s, id));
  }

  lemma AdvancedViews(s: State, id: int, clock: int, io: SendResult)
    requires id >= 0 && OnPubrec(s.outbound, id, false).Advance?
    ensures var d, fs, i := OnPubrecS(s, id, clock, io), Views(s.publications, s.outbound), OnPubrec(s.outbound, id, false).at;
            && i < |fs| && fs[i].msgid == id && fs[i].qos == 2
            && Views(d.publications, d.outbound) == fs[i := fs[i].(next := AwaitPubcomp)]
            && d.store == s.store[PubrelKey(id) := PubrelRecord(id)] && d.inbound == s.inbound
  {
    hide P.Serialized, KeyOf, IndexOf, TextOf;
  }

  lemma OnPubrecMirrored(s: State, id: int, clock: int, io: SendResult)
    requires Mirrored(s) && IsId(id)
    ensures Mirrored(OnPubrecS(s, id, clock, io))
  {
    var o := OnPubrec(s.outbound, id, false);
    if o.Advance? {
      var d := OnPubrecS(s, id, clock, io);
      var fs := Views(s.publications, s.outbound);
      AdvancedViews(s, id, clock, io);
      hide KnownKeys, OutboundStored, InboundStored, PubrelRecord, OnPubrecS;
      PutRecord(s.store, PUBREL, id, PubrelRecord(id));
      AdvanceView(fs, o.at, LedgerOf(s.store));
      InboundFrame(s.inbound, LedgerOf(s.store), LedgerOf(d.store));
    }
  }

  // ---------------------------------------------------------------- receiving

  ghost predicate Receivable(p: P.Packet) {
    p.Publish? && 0 <= p.qos < 4 && IsId(p.msgid) && |p.topic| < 0x1_0000
  }

  /** The record is written whatever the handler then does. */
  lemma StoreReceivedMirrored(s: State, p: P.Packet)
    requires Mirrored(s) && Receivable(p)
    ensures var d := StoreReceived(s, p);
            Mirrored(d) && (p.qos == 2 ==> p.msgid in LedgerOf(d.store).received)
  {
    if p.qos == 2 { ReceivedMirrored(s, p); }
  }

  lemma ReceivedMirrored(s: State, p: P.Packet)
    requires Mirrored(s) && Receivable(p) && p.qos == 2
    ensures var d := Put(s, ReceivedKey(p.msgid), P.Serialized(p));
            Mirrored(d) && p.msgid in LedgerOf(d.store).received
  {
    hide P.Serialized, Mirrored, KeyOf, LedgerOf, Records;
    var b := P.Serialized(p);
    assert ReceivedRecord(b, p.msgid);
    PutRecord(s.store, RECEIVED, p.msgid, b);
    assert ReceivedKey(p.msgid) == KeyOf(RECEIVED, p.msgid);
    hide ReceivedKey;
    RecordedMirrored(s, p.msgid, b, Put(s, ReceivedKey(p.msgid), b));
  }

  lemma RecordedMirrored(s: State, id: int, b: bytes, d: State)
    requires Mirrored(s) && ReceivedRecord(b, id) && d == s.(store := d.store)
    requires var l := LedgerOf(s.store); LedgerOf(d.store) == l.(received := l.received[id := b])
    requires KnownKeys(s.store) ==> KnownKeys(d.store)
    ensures Mirrored(d)
  {
    hide KnownKeys, OutboundStored, ReceivedRecord, LedgerOf, Views;
    OutboundFrame(Views(s.publications, s.outbound), LedgerOf(s.store), LedgerOf(d.store));
  }

  lemma OnPublishTexts(s: State, p: P.Packet, pending: bool, io: SendResult)
    requires Receivable(p)
    ensures TextsKept(s.publications, OnPublishS(s, p, pending, io).publications, s.nextRef)
  {
    var d := OnPublishS(s, p, pending, io);
    if p.qos == 2 && !pending {
      var s1 := Alloc(s, p.topic, p.payload);
      var i := IndexOf(s.inbound, p.msgid);
      assert d.publications == (if i < |s.inbound| then Release(s1, s.inbound[i].body) else s1).publications by {
        hide Release, Alloc, OnPublish, IndexOf;
      }
      if i < |s.inbound| { ReleaseKeepsTexts(s1, s.inbound[i].body); }
      hide OnPublishS, Release, IndexOf;
    }
  }

  lemma OnPublishFrame(s: State, p: P.Packet, pending: bool, io: SendResult)
    requires Receivable(p)
    ensures var d := OnPublishS(s, p, pending, io);
            && d.outbound == s.outbound && d.store == s.store
            && d.inbound == if p.qos != 2 || pending then s.inbound else OnPublish(s.inbound, Arrived(s, p))
    ensures p.qos != 2 || pending ==> OnPublishS(s, p, pending, io).publications == s.publications
  {
    hide OnPublish;
  }

  lemma OnPublishMirrored(s: State, p: P.Packet, pending: bool, io: SendResult)
    requires Owned(s) && Mirrored(s) && Receivable(p) && (p.qos == 2 ==> p.msgid in LedgerOf(s.store).received)
    ensures Mirrored(OnPublishS(s, p, pending, io))
  {
    assert p.Publish? && 0 <= p.qos < 4 && p.msgid >= 0;
    hide *;
    OnPublishOwned(s, p, pending, io);
    OnPublishFrame(s, p, pending, io);
    OnPublishTexts(s, p, pending, io);
    var d := OnPublishS(s, p, pending, io);
    if p.qos != 2 || pending { MirrorFrame(s, d); } else { ArrivedMirrored(s, p, d); }
  }

  lemma ArrivedMirrored(s: State, p: P.Packet, d: State)
    requires Owned(s) && Owned(d) && Mirrored(s) && p.Publish? && p.msgid in LedgerOf(s.store).received
    requires TextsKept(s.publications, d.publications, s.nextRef)
    requires d.outbound == s.outbound && d.store == s.store && d.inbound == OnPublish(s.inbound, Arrived(s, p))
    ensures Mirrored(d)
  {
    hide Owned, OutboundStored, InboundStored, KnownKeys, LedgerOf, TextsKept, OnPublish;
    ViewsKept(s, d, s.outbound);
    ArrivalStored(s, p, d.inbound, LedgerOf(s.store));
  }

  lemma ArrivalStored(s: State, p: P.Packet, inbound: seq<Message<nat>>, l: Ledger)
    requires InboundStored(s.inbound, l) && p.Publish? && p.msgid in l.received
    requires inbound == OnPublish(s.inbound, Arrived(s, p))
    ensures InboundStored(inbound, l)
  {
    hide ReceivedRecord;
  }

  lemma CompleteFrame(s: State, i: nat, id: nat, io: SendResult)
    requires i < |s.inbound|
    ensures var d := Complete(s, i, id, io);
            && d.outbound == s.outbound && TextsKept(s.publications, d.publications, s.nextRef)
            && d.store == ForgetReceived(s, id).store && d.inbound == RemoveAt(s.inbound, i)
  {
    hide KeyOf, RemoveAt, DeliveryOf;
  }

  lemma OnPubrelFrame(s: State, id: nat, dup: bool, pending: bool, io: SendResult)
    ensures var o, d := OnPubrel(s.inbound, id, dup, pending), OnPubrelS(s, id, dup, pending, io);
            && (o.Deliver? ==> o.at < |s.inbound| && s.inbound[o.at].msgid == id && d == Complete(s, o.at, id, io))
            && (!o.Deliver? ==> d == s.(sent := d.sent))
  {
    hide KeyOf, Complete;
  }

  lemma OnPubrelMirrored(s: State, id: int, dup: bool, pending: bool, io: SendResult)
    requires Owned(s) && Mirrored(s) && IsId(id) && DistinctIds(s.inbound)
    ensures Mirrored(OnPubrelS(s, id, dup, pending, io))
  {
    assert id >= 0;
    hide *;
    OnPubrelOwned(s, id, dup, pending, io);
    OnPubrelFrame(s, id, dup, pending, io);
    var o, d := OnPubrel(s.inbound, id, dup, pending), OnPubrelS(s, id, dup, pending, io);
    if o.Deliver? {
      CompleteFrame(s, o.at, id, io);
      CompletedMirrored(s, o.at, d);
    } else {
      MirrorFrame(s, d);
    }
  }

  lemma CompletedMirrored(s: State, i: nat, d: State)
    requires Owned(s) && Owned(d) && Mirrored(s) && i < |s.inbound| && IsId(s.inbound[i].msgid) && DistinctIds(s.inbound)
    requires TextsKept(s.publications, d.publications, s.nextRef)
    requires d.outbound == s.outbound && d.store == ForgetReceived(s, s.inbound[i].msgid).store
    requires d.inbound == RemoveAt(s.inbound, i)
    ensures Mirrored(d)
  {
    var id := s.inbound[i].msgid;
    ViewsKept(s, d, s.outbound);
    KnownSubset(s.store, {KeyOf(RECEIVED5, id), ReceivedKey(id)});
    assert KnownKeys(d.store);
    ForgetReceivedRecords(s, id);
    hide Owned, OutboundStored, InboundStored, KnownKeys, LedgerOf, ForgetReceived, TextsKept, Views, DistinctIds;
    OutboundFrame(Views(s.publications, s.outbound), LedgerOf(s.store), LedgerOf(d.store));
    CompletedStored(s.inbound, i, LedgerOf(s.store), LedgerOf(d.store));
  }

  lemma CompletedStored(inbound: seq<Message<nat>>, i: nat, l: Ledger, d: Ledger)
    requires InboundStored(inbound, l) && DistinctIds(inbound) && i < |inbound|
    requires d.received == l.received - {inbound[i].msgid}
    ensures InboundStored(RemoveAt(inbound, i), d)
  {
    hide ReceivedRecord;
    var r := RemoveAt(inbound, i);
    forall j | 0 <= j < |r| ensures r[j].msgid in d.received {
      assert r[j] == inbound[if j < i then j else j + 1];
    }
  }

  // ---------------------------------------------------------------- retries and housekeeping

  lemma ViewNext(s: State, k: nat)
    requires Mirrored(s) && k < |s.outbound|
    ensures Kept(ViewOf(s.publications, s.outbound[k]), LedgerOf(s.store))
    ensures IsId(s.outbound[k].msgid)
  {
    hide IsRecord, LedgerOf;
    assert Kept(Views(s.publications, s.outbound)[k], LedgerOf(s.store));
  }

  lemma ResendPublishMirrored(s: State, k: nat, io: SendResult)
    requires Mirrored(s) && k < |s.outbound| && ResendsPublish(s.outbound[k]) && s.outbound[k].msgid >= 0
    ensures Mirrored(Resend(s, s.outbound[k], io))
  {
    var m := s.outbound[k];
    var d := Resend(s, m, io);
    ViewNext(s, k);
    if m.body in s.publications {
      var f := ViewOf(s.publications, m);
      var b := P.Serialized(RecordOf(f, true));
      assert IsRecord(b, f) && Views(s.publications, s.outbound)[k] == f;
      assert d.store == s.store[SentKey(m.msgid) := b];
      hide KnownKeys, OutboundStored, InboundStored, IsRecord, Resend, P.Serialized;
      PutRecord(s.store, SENT, m.msgid, b);
      RewriteSent(Views(s.publications, s.outbound), k, LedgerOf(s.store), b);
      InboundFrame(s.inbound, LedgerOf(s.store), LedgerOf(d.store));
    }
  }

  lemma ResendPubrelMirrored(s: State, k: nat, io: SendResult)
    requires Mirrored(s) && k < |s.outbound| && ResendsPubrel(s.outbound[k]) && s.outbound[k].msgid >= 0
    ensures Mirrored(Resend(s, s.outbound[k], io))
  {
    var m := s.outbound[k];
    var d := Resend(s, m, io);
    ViewNext(s, k);
    assert d.store == s.store[PubrelKey(m.msgid) := PubrelRecord(m.msgid)];
    hide KnownKeys, OutboundStored, InboundStored, Resend, PubrelRecord;
    PutRecord(s.store, PUBREL, m.msgid, PubrelRecord(m.msgid));
    RewritePubrel(Views(s.publications, s.outbound), k, LedgerOf(s.store));
    InboundFrame(s.inbound, LedgerOf(s.store), LedgerOf(d.store));
  }

  /** Times are no part of what is mirrored. */
  lemma TouchMirrored(s: State, k: nat, clock: int)
    requires Mirrored(s) && k < |s.outbound|
    ensures Mirrored(s.(outbound := s.outbound[k := s.outbound[k].(lastTouch := clock)]))
  {
    hide OutboundStored, InboundStored, KnownKeys;
    TouchedViews(s.publications, s.outbound, k, clock);
  }

  lemma TouchedViews(pubs: map<nat, Publication>, ms: seq<Message<nat>>, k: nat, clock: int)
    requires k < |ms|
    ensures Views(pubs, ms[k := ms[k].(lastTouch := clock)]) == Views(pubs, ms)
  {
    var touched := ms[k := ms[k].(lastTouch := clock)];
    hide TextOf;
    forall i | 0 <= i < |ms| ensures Views(pubs, touched)[i] == Views(pubs, ms)[i] {
      assert ViewOf(pubs, touched[i]) == ViewOf(pubs, ms[i]);
    }
  }

  lemma MirroredIds(s: State)
    requires Mirrored(s)
    ensures IdsNonNegative(s.outbound)
  {
    forall i | 0 <= i < |s.outbound| ensures s.outbound[i].msgid >= 0 { ViewNext(s, i); }
  }

  lemma {:induction false} RetryMirrored(s: State, k: nat, t: RetryTime, io: seq<RetryIo>)
    requires Mirrored(s) && k <= |s.outbound| && IdsNonNegative(s.outbound)
    ensures Mirrored(RetryS(s, k, t, io))
    decreases |s.outbound| - k
  {
    hide Mirrored;
    if k == |s.outbound| || k >= |io| || io[k].Stop? {
    } else {
      var m := s.outbound[k];
      if !Due(m, t) || !(ResendsPublish(m) || ResendsPubrel(m)) {
        RetryMirrored(s, k + 1, t, io);
      } else {
        var s1 := Resend(s, m, io[k].result);
        ResendFrame(s, m, io[k].result);
        if ResendsPublish(m) { ResendPublishMirrored(s, k, io[k].result); } else { ResendPubrelMirrored(s, k, io[k].result); }
        hide Due, ResendsPublish, ResendsPubrel, Resend;
        TouchMirrored(s1, k, t.clock);
        var s2 := s1.(outbound := s1.outbound[k := m.(lastTouch := t.clock)]);
        MirroredIds(s2);
        RetryMirrored(s2, k + 1, t, io);
      }
    }
  }

  lemma {:induction false} CheckPendingMirrored(s: State, i: nat, done: seq<bool>)
    requires Owned(s) && Mirrored(s) && i <= |s.pending| && |s.pending| - i <= |done|
    ensures Mirrored(CheckPending(s, i, done))
    decreases |s.pending| - i
  {
    if i == |s.pending| {
    } else if done[0] {
      var d := Release(s, s.pending[i]).(pending := RemoveAt(s.pending, i));
      PendingDone(s, i);
      PendingMirrored(s, i);
      hide Owned, Mirrored;
      CheckPendingMirrored(d, i, done[1..]);
    } else {
      CheckPendingMirrored(s, i + 1, done[1..]);
    }
  }

  lemma PendingMirrored(s: State, i: nat)
    requires Owned(s) && Mirrored(s) && i < |s.pending|
    ensures Mirrored(Release(s, s.pending[i]).(pending := RemoveAt(s.pending, i)))
  {
    PendingDone(s, i);
    ReleaseKeepsTexts(s, s.pending[i]);
    ReleaseFrame(s, s.pending[i]);
    hide *;
    TextsOnly(s, Release(s, s.pending[i]).(pending := RemoveAt(s.pending, i)));
  }

  lemma ReleaseFrame(s: State, r: nat)
    ensures Release(s, r) == s.(publications := Release(s, r).publications)
  {
  }

  lemma EmptyMirrored(d: State)
    requires d.outbound == [] && d.inbound == [] && d.store == map[]
    ensures Mirrored(d)
  {
  }
}
