/** The store mirrors the in-flight lists at every handler boundary. */
module Mirror {
  // There is a PUBLISH record for every outbound message and no other, a PUBREL record for exactly those that await
  // PUBCOMP, and a record for every inbound message.

  import opened Wrappers
  import opened Bytes
  import opened Exchange
  import opened Keys
  import opened ClientState
  import opened Ownership
  import P = Packets

  // ---------------------------------------------------------------- what is in flight

  datatype Text = Text(topic: bytes, payload: bytes)

  /** An in-flight message with its publication in place of the reference, and no time. */
  type View = Message<Text>

  function TextOf(pubs: map<nat, Publication>, r: nat): Text {
    if r in pubs then Text(pubs[r].topic, pubs[r].payload) else Text([], [])
  }

  function ViewOf(pubs: map<nat, Publication>, m: Message<nat>): View {
    Message(m.msgid, m.qos, m.retain, m.next, 0, TextOf(pubs, m.body))
  }

  function Views(pubs: map<nat, Publication>, ms: seq<Message<nat>>): (fs: seq<View>)
    ensures |fs| == |ms| && forall i :: 0 <= i < |ms| ==> fs[i] == ViewOf(pubs, ms[i])
  {
    seq(|ms|, i requires 0 <= i < |ms| => ViewOf(pubs, ms[i]))
  }

  predicate ViewOk(f: View) {
    && 1 <= f.msgid <= MAX_MSG_ID
    && (f.qos == 1 || f.qos == 2)
    && (if f.qos == 1 then f.next == Unset else f.next == AwaitPubrec || f.next == AwaitPubcomp)
    && |f.body.topic| < 0x1_0000
  }

  function RecordOf(f: View, dup: bool): P.Packet {
    P.Publish(dup, f.qos, f.retain, f.body.topic, f.msgid, f.body.payload)
  }

  ghost predicate IsRecord(b: bytes, f: View) {
    f.qos in {1, 2} && exists dup :: b == P.Serialized(RecordOf(f, dup))
  }

  function PubrelRecord(id: int): bytes {
    P.Serialized(P.Ack(P.Pubrel, false, id))
  }

  // ---------------------------------------------------------------- what is in the store

  predicate IsId(id: int) {
    0 <= id <= MAX_MSG_ID
  }

  /** The records under a stem, by message id. */
  ghost function Records(store: map<string, bytes>, stem: string): map<int, bytes> {
    map id | 0 <= id <= MAX_MSG_ID && KeyOf(stem, id) in store :: store[KeyOf(stem, id)]
  }

  datatype Ledger = Ledger(sent: map<int, bytes>, rel: map<int, bytes>, received: map<int, bytes>)

  ghost function LedgerOf(store: map<string, bytes>): Ledger {
    Ledger(Records(store, SENT), Records(store, PUBREL), Records(store, RECEIVED))
  }

  ghost predicate KnownKey(key: string) {
    || BranchOf(key) == Skipped
    || exists id: nat :: IsId(id) && (key == SentKey(id) || key == PubrelKey(id) || key == ReceivedKey(id))
  }

  ghost predicate KnownKeys(store: map<string, bytes>) {
    forall key :: key in store ==> KnownKey(key)
  }

  /** One outbound message and its records. */
  ghost predicate Kept(f: View, l: Ledger) {
    && ViewOk(f)
    && f.msgid in l.sent && IsRecord(l.sent[f.msgid], f)
    && (f.msgid in l.rel <==> f.next == AwaitPubcomp)
  }

  ghost predicate OutboundStored(fs: seq<View>, l: Ledger) {
    && DistinctIds(fs)
    && (forall i :: 0 <= i < |fs| ==> Kept(fs[i], l))
    && (forall id :: id in l.sent ==> InUse(fs, id))
    && (forall id :: id in l.rel ==> InUse(fs, id) && l.rel[id] == PubrelRecord(id))
  }

  ghost predicate ReceivedRecord(b: bytes, id: int) {
    exists p: P.Packet :: P.Storable(p) && p.qos == 2 && p.msgid == id && b == P.Serialized(p)
  }

  ghost predicate InboundStored(inbound: seq<Message<nat>>, l: Ledger) {
    && (forall i :: 0 <= i < |inbound| ==> inbound[i].msgid in l.received)
    && (forall id :: id in l.received ==> ReceivedRecord(l.received[id], id))
  }

  ghost predicate Mirrored(s: State) {
    && OutboundStored(Views(s.publications, s.outbound), LedgerOf(s.store))
    && InboundStored(s.inbound, LedgerOf(s.store))
    && KnownKeys(s.store)
  }

  // ---------------------------------------------------------------- the records after a put or a remove

  lemma RecordsPut(store: map<string, bytes>, stem: string, id: int, b: bytes, other: string)
    requires IsId(id) && stem in STEMS && other in STEMS
    ensures var d := Records(store[KeyOf(stem, id) := b], other);
            d == if stem == other then Records(store, other)[id := b] else Records(store, other)
  {
    var d := Records(store[KeyOf(stem, id) := b], other);
    var want := if stem == other then Records(store, other)[id := b] else Records(store, other);
    forall k: int
      ensures k in d <==> k in want
      ensures k in d && k in want ==> d[k] == want[k]
    {
      if IsId(k) && KeyOf(stem, id) == KeyOf(other, k) { KeysDiffer(stem, other, id, k); }
    }
    assert d.Keys == want.Keys;
  }

  lemma RecordsDropped(store: map<string, bytes>, stem: string, id: int, other: string)
    requires IsId(id) && stem in STEMS && other in STEMS
    ensures var d := Records(store - {KeyOf(stem, id)}, other);
            d == if stem == other then Records(store, other) - {id} else Records(store, other)
  {
    var d := Records(store - {KeyOf(stem, id)}, other);
    var want := if stem == other then Records(store, other) - {id} else Records(store, other);
    forall k: int
      ensures k in d <==> k in want
      ensures k in d && k in want ==> d[k] == want[k]
    {
      if IsId(k) && KeyOf(stem, id) == KeyOf(other, k) { KeysDiffer(stem, other, id, k); }
    }
    assert d.Keys == want.Keys;
  }

  lemma PutRecord(store: map<string, bytes>, stem: string, id: int, b: bytes)
    requires IsId(id) && stem in {SENT, PUBREL, RECEIVED}
    ensures var l, d := LedgerOf(store), LedgerOf(store[KeyOf(stem, id) := b]);
            d == if stem == SENT then l.(sent := l.sent[id := b])
                 else if stem == PUBREL then l.(rel := l.rel[id := b])
                 else l.(received := l.received[id := b])
    ensures KnownKeys(store) ==> KnownKeys(store[KeyOf(stem, id) := b])
  {
    hide Records, KeyOf, BranchOf;
    RecordsPut(store, stem, id, b, SENT);
    RecordsPut(store, stem, id, b, PUBREL);
    RecordsPut(store, stem, id, b, RECEIVED);
    assert KeyOf(stem, id) == SentKey(id) || KeyOf(stem, id) == PubrelKey(id) || KeyOf(stem, id) == ReceivedKey(id);
  }

  lemma KnownSubset(store: map<string, bytes>, keys: set<string>)
    requires KnownKeys(store)
    ensures KnownKeys(store - keys)
  {
    hide KnownKey;
  }

  /** The four removals of MQTTPersistence_remove, as seen under one stem. */
  lemma RecordsForgotten(s: State, id: int, other: string)
    requires IsId(id) && other in {SENT, PUBREL, RECEIVED}
    ensures Records(Forget(s, id).store, other)
         == if other == RECEIVED then Records(s.store, other) else Records(s.store, other) - {id}
  {
    hide Records, KeyOf;
    var s1 := s.store - {KeyOf(SENT5, id)};
    var s2 := s1 - {KeyOf(PUBREL5, id)};
    var s3 := s2 - {SentKey(id)};
    RecordsDropped(s.store, SENT5, id, other);
    RecordsDropped(s1, PUBREL5, id, other);
    RecordsDropped(s2, SENT, id, other);
    RecordsDropped(s3, PUBREL, id, other);
    assert Forget(s, id).store == s3 - {PubrelKey(id)};
  }

  lemma ForgetRecords(s: State, id: int)
    requires IsId(id)
    ensures var l := LedgerOf(s.store);
            LedgerOf(Forget(s, id).store) == l.(sent := l.sent - {id}, rel := l.rel - {id})
  {
    hide Records, Forget;
    RecordsForgotten(s, id, SENT);
    RecordsForgotten(s, id, PUBREL);
    RecordsForgotten(s, id, RECEIVED);
  }

  lemma ReceivedForgotten(s: State, id: int, other: string)
    requires IsId(id) && other in {SENT, PUBREL, RECEIVED}
    ensures Records(ForgetReceived(s, id).store, other)
         == if other == RECEIVED then Records(s.store, other) - {id} else Records(s.store, other)
  {
    hide Records, KeyOf;
    var s1 := s.store - {KeyOf(RECEIVED5, id)};
    RecordsDropped(s.store, RECEIVED5, id, other);
    RecordsDropped(s1, RECEIVED, id, other);
    assert ForgetReceived(s, id).store == s1 - {ReceivedKey(id)};
  }

  lemma ForgetReceivedRecords(s: State, id: int)
    requires IsId(id)
    ensures var l := LedgerOf(s.store);
            LedgerOf(ForgetReceived(s, id).store) == l.(received := l.received - {id})
  {
    hide Records, ForgetReceived;
    ReceivedForgotten(s, id, SENT);
    ReceivedForgotten(s, id, PUBREL);
    ReceivedForgotten(s, id, RECEIVED);
  }

  // ---------------------------------------------------------------- flights and ledger together

  lemma AddView(fs: seq<View>, f: View, l: Ledger, b: bytes)
    requires OutboundStored(fs, l) && ViewOk(f) && !InUse(fs, f.msgid) && IsRecord(b, f) && f.next != AwaitPubcomp
    ensures OutboundStored(fs + [f], l.(sent := l.sent[f.msgid := b]))
  {
    hide IsRecord, ViewOk, PubrelRecord;
    var gs, d := fs + [f], l.(sent := l.sent[f.msgid := b]);
    forall i | 0 <= i < |gs| ensures Kept(gs[i], d) {
      if i < |fs| { assert Kept(fs[i], l); UsedAt(fs, i); }
    }
    assert DistinctIds(gs) by {
      forall i | 0 <= i < |fs| ensures fs[i].msgid != f.msgid { UsedAt(fs, i); }
    }
    forall id | InUse(fs, id) ensures InUse(gs, id) {
      var i := IndexOf(fs, id);
      assert gs[i].msgid == id;
      UsedAt(gs, i);
    }
    UsedAt(gs, |fs|);
  }

  lemma UsedAt<B>(ms: seq<Message<B>>, i: nat)
    requires i < |ms|
    ensures InUse(ms, ms[i].msgid)
  {
    var j := IndexOf(ms, ms[i].msgid);
  }

  lemma RemoveView(fs: seq<View>, i: nat, l: Ledger)
    requires OutboundStored(fs, l) && i < |fs|
    ensures var id := fs[i].msgid;
            OutboundStored(RemoveAt(fs, i), l.(sent := l.sent - {id}, rel := l.rel - {id}))
  {
    hide IsRecord, ViewOk, PubrelRecord;
    var gs, id := RemoveAt(fs, i), fs[i].msgid;
    var d := l.(sent := l.sent - {id}, rel := l.rel - {id});
    forall j | 0 <= j < |gs| ensures Kept(gs[j], d) {
      assert Kept(fs[if j < i then j else j + 1], l);
    }
    forall k | InUse(fs, k) && k != id ensures InUse(gs, k) {
      var j := IndexOf(fs, k);
      UsedAt(gs, if j < i then j else j - 1);
    }
  }

  lemma AdvanceView(fs: seq<View>, i: nat, l: Ledger)
    requires OutboundStored(fs, l) && i < |fs| && fs[i].qos == 2
    ensures var id := fs[i].msgid;
            OutboundStored(fs[i := fs[i].(next := AwaitPubcomp)], l.(rel := l.rel[id := PubrelRecord(id)]))
  {
    var id := fs[i].msgid;
    var gs, d := fs[i := fs[i].(next := AwaitPubcomp)], l.(rel := l.rel[id := PubrelRecord(id)]);
    assert Kept(gs[i], d) by { assert Kept(fs[i], l); RecordAfterAdvance(l.sent[id], fs[i]); }
    hide IsRecord, ViewOk, PubrelRecord;
    forall j | 0 <= j < |gs| ensures Kept(gs[j], d) {
      assert Kept(fs[j], l);
    }
    forall k | InUse(fs, k) ensures InUse(gs, k) { UsedAt(gs, IndexOf(fs, k)); }
    UsedAt(fs, i);
  }

  lemma RecordAfterAdvance(b: bytes, f: View)
    requires IsRecord(b, f)
    ensures IsRecord(b, f.(next := AwaitPubcomp))
  {
    var dup :| b == P.Serialized(RecordOf(f, dup));
    assert RecordOf(f, dup) == RecordOf(f.(next := AwaitPubcomp), dup);
  }

  /** A retry writes a record again, with the DUP flag set in a PUBLISH. */
  lemma RewriteSent(fs: seq<View>, i: nat, l: Ledger, b: bytes)
    requires OutboundStored(fs, l) && i < |fs| && IsRecord(b, fs[i])
    ensures OutboundStored(fs, l.(sent := l.sent[fs[i].msgid := b]))
  {
    hide IsRecord, ViewOk, PubrelRecord;
    var d := l.(sent := l.sent[fs[i].msgid := b]);
    forall j | 0 <= j < |fs| ensures Kept(fs[j], d) { assert Kept(fs[j], l); }
    UsedAt(fs, i);
  }

  lemma RewritePubrel(fs: seq<View>, i: nat, l: Ledger)
    requires OutboundStored(fs, l) && i < |fs| && fs[i].next == AwaitPubcomp
    ensures OutboundStored(fs, l.(rel := l.rel[fs[i].msgid := PubrelRecord(fs[i].msgid)]))
  {
    hide IsRecord, ViewOk, PubrelRecord;
    var id := fs[i].msgid;
    assert Kept(fs[i], l);
    assert l.rel[id] == PubrelRecord(id);
    assert l.rel[id := PubrelRecord(id)] == l.rel;
  }
}
