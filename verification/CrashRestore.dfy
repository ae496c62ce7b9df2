/** A crash between two handlers loses nothing that was in flight. */
module CrashRestore {
  import opened Wrappers
  import opened Sequences
  import opened Bytes
  import opened Exchange
  import opened Keys
  import opened ClientState
  import opened Ownership
  import opened SendOrder
  import opened Restore
  import opened Mirror
  import opened MirrorSteps
  import P = Packets

  /** The store enumerates its keys in any order, each once. */
  ghost predicate Enumerates(keys: seq<string>, store: map<string, bytes>) {
    && (forall i, j :: 0 <= i < j < |keys| ==> keys[i] != keys[j])
    && (forall key :: key in keys <==> key in store)
  }

  // ---------------------------------------------------------------- records and keys

  lemma RecordParsed(b: bytes, f: View)
    requires IsRecord(b, f) && ViewOk(f)
    ensures exists dup :: P.RestorePacket(b) == P.Good(RecordOf(f, dup))
  {
    var dup :| b == P.Serialized(RecordOf(f, dup));
    hide P.RestorePacket, P.Serialized;
    P.PublishRestored(RecordOf(f, dup));
  }

  /** The in-flight message whose PUBLISH record a key holds. */
  ghost predicate HoldsView(key: string, f: View) {
    f.msgid >= 0 && key == SentKey(f.msgid)
  }

  ghost function PickedAt(fs: seq<View>, key: string): (r: seq<View>)
    ensures r == [] || (|r| == 1 && r[0] in fs && HoldsView(key, r[0]))
    ensures (exists f :: f in fs && HoldsView(key, f)) ==> r != []
  {
    if f :| f in fs && HoldsView(key, f) then [f] else []
  }

  /** The in-flight messages in the order of the keys of their records. */
  ghost function Picked(fs: seq<View>, keys: seq<string>): seq<View> {
    if keys == [] then [] else PickedAt(fs, keys[0]) + Picked(fs, keys[1..])
  }

  lemma {:induction false} PickedCount(fs: seq<View>, keys: seq<string>, f: View)
    requires DistinctIds(fs) && (f in fs ==> f.msgid >= 0)
    ensures multiset(Picked(fs, keys))[f] == if f in fs then multiset(keys)[SentKey(f.msgid)] else 0
    decreases |keys|
  {
    if keys != [] {
      PickedCount(fs, keys[1..], f);
      assert keys == [keys[0]] + keys[1..];
      PickedOne(fs, keys[0], f);
    }
  }

  lemma PickedOne(fs: seq<View>, key: string, f: View)
    requires DistinctIds(fs) && (f in fs ==> f.msgid >= 0)
    ensures multiset(PickedAt(fs, key))[f] == if f in fs && key == SentKey(f.msgid) then 1 else 0
  {
    var r := PickedAt(fs, key);
    hide SentKey;
    if f in fs && HoldsView(key, f) {
      assert SentKey(f.msgid) == SentKey(r[0].msgid);
      assert f.msgid == r[0].msgid by { SentKeyIds(f.msgid, r[0].msgid); }
      assert f == r[0];
    }
  }

  lemma SentKeyIds(a: nat, b: nat)
    requires SentKey(a) == SentKey(b)
    ensures a == b
  {
    KeysDiffer(SENT, SENT, a, b);
  }

  lemma {:induction false} DistinctCount<T>(s: seq<T>, x: T)
    requires forall i, j :: 0 <= i < j < |s| ==> s[i] != s[j]
    ensures multiset(s)[x] == if x in s then 1 else 0
  {
    if s != [] {
      assert s == [s[0]] + s[1..];
      DistinctCount(s[1..], x);
      assert s[0] !in s[1..];
    }
  }

  lemma ViewsDiffer(fs: seq<View>)
    requires DistinctIds(fs)
    ensures forall i, j :: 0 <= i < j < |fs| ==> fs[i] != fs[j]
  {
  }

  lemma ViewStored(fs: seq<View>, store: map<string, bytes>, f: View)
    requires OutboundStored(fs, LedgerOf(store)) && f in fs
    ensures Kept(f, LedgerOf(store)) && IsId(f.msgid) && SentKey(f.msgid) in store
  {
    hide IsRecord;
    assert Kept(f, LedgerOf(store));
  }

  lemma PickedPermutes(fs: seq<View>, keys: seq<string>, store: map<string, bytes>)
    requires DistinctIds(fs) && (forall f :: f in fs ==> f.msgid >= 0 && SentKey(f.msgid) in store)
    requires Enumerates(keys, store)
    ensures multiset(Picked(fs, keys)) == multiset(fs)
  {
    hide SentKey, Picked;
    forall f: View ensures multiset(Picked(fs, keys))[f] == multiset(fs)[f] {
      ViewsDiffer(fs);
      DistinctCount(fs, f);
      if f in fs { DistinctCount(keys, SentKey(f.msgid)); }
      PickedCount(fs, keys, f);
    }
  }

  // ---------------------------------------------------------------- lists changed

  lemma SameInsertPoint(pubs: map<nat, Publication>, ms: seq<Message<nat>>, id: int)
    ensures InsertPoint(Views(pubs, ms), id) == InsertPoint(ms, id)
  {
    var fs := Views(pubs, ms);
    var i, j := InsertPoint(fs, id), InsertPoint(ms, id);
    assert forall k :: 0 <= k < i ==> ms[k].msgid == fs[k].msgid && ms[k].msgid <= id;
    assert forall k :: 0 <= k < j ==> fs[k].msgid == ms[k].msgid && fs[k].msgid <= id;
    assert i < |fs| ==> id < ms[i].msgid;
    assert j < |ms| ==> id < fs[j].msgid;
  }

  lemma InsertViews(pubs: map<nat, Publication>, ms: seq<Message<nat>>, m: Message<nat>)
    ensures Views(pubs, InsertById(ms, m)) == InsertById(Views(pubs, ms), ViewOf(pubs, m))
  {
    SameInsertPoint(pubs, ms, m.msgid);
  }

  lemma InsertBodies(ms: seq<Message<nat>>, m: Message<nat>)
    ensures multiset(BodiesOf(InsertById(ms, m))) == multiset(BodiesOf(ms)) + multiset{m.body}
  {
    var k := InsertPoint(ms, m.msgid);
    assert BodiesOf(InsertById(ms, m)) == BodiesOf(ms)[..k] + [m.body] + BodiesOf(ms)[k..];
    assert BodiesOf(ms) == BodiesOf(ms)[..k] + BodiesOf(ms)[k..];
  }

  lemma {:induction false} SameScan(pubs: map<nat, Publication>, ms: seq<Message<nat>>, n: nat)
    requires 1 <= n <= |ms|
    ensures WidestScan(Views(pubs, ms), n) == WidestScan(ms, n)
    decreases n
  {
    if n > 1 {
      SameScan(pubs, ms, n - 1);
      SameGap(pubs, ms, n - 1);
      SameGap(pubs, ms, WidestScan(ms, n - 1));
      hide ScanGap, Views;
    }
  }

  lemma SameGap(pubs: map<nat, Publication>, ms: seq<Message<nat>>, i: nat)
    requires i < |ms|
    ensures ScanGap(Views(pubs, ms), i) == ScanGap(ms, i)
  {
  }

  lemma WrappedViews(pubs: map<nat, Publication>, ms: seq<Message<nat>>)
    ensures Views(pubs, Wrapped(ms)) == Wrapped(Views(pubs, ms))
  {
    if ms != [] { SameScan(pubs, ms, |ms|); }
  }

  lemma WrappedPermutes<B>(ms: seq<Message<B>>)
    ensures multiset(Wrapped(ms)) == multiset(ms)
  {
    if ms != [] { RotationPermutes(ms, WidestScan(ms, |ms|)); }
  }

  lemma WrappedBodies(ms: seq<Message<nat>>)
    ensures multiset(BodiesOf(Wrapped(ms))) == multiset(BodiesOf(ms))
  {
    if ms != [] {
      var k := WidestScan(ms, |ms|);
      assert BodiesOf(Rotate(ms, k)) == Rotate(BodiesOf(ms), k);
      RotationPermutes(BodiesOf(ms), k);
    }
  }

  lemma {:induction false} InsertAllPermutes<B>(ms: seq<Message<B>>, order: seq<Message<B>>)
    ensures multiset(InsertAll(ms, order)) == multiset(ms) + multiset(order)
    decreases |order|
  {
    if order != [] {
      InsertByIdMembers(ms, order[0]);
      InsertAllPermutes(InsertById(ms, order[0]), order[1..]);
      assert order == [order[0]] + order[1..];
    }
  }

  lemma InsertAllStep<B>(ms: seq<Message<B>>, a: seq<Message<B>>, b: seq<Message<B>>)
    requires |a| <= 1
    ensures InsertAll(ms, a + b) == InsertAll(if a == [] then ms else InsertById(ms, a[0]), b)
  {
    if a == [] { assert a + b == b; } else { assert (a + b)[1..] == b; }
  }

  /** Ownership looks at the bodies of the lists only. */
  lemma SameBodiesOwned(s: State, d: State)
    requires Owned(s) && d.publications == s.publications && d.nextRef == s.nextRef && d.pending == s.pending
    requires multiset(BodiesOf(d.outbound)) == multiset(BodiesOf(s.outbound))
    requires BodiesOf(d.inbound) == BodiesOf(s.inbound)
    ensures Owned(d)
  {
    assert Owners(d) == Owners(s);
    forall i | 0 <= i < |d.inbound| ensures Owners(d)[d.inbound[i].body] == 1 {
      assert BodiesOf(d.inbound)[i] == BodiesOf(s.inbound)[i];
    }
  }

  lemma SameMembersDistinct(fs: seq<View>, gs: seq<View>)
    requires DistinctIds(fs) && multiset(gs) == multiset(fs)
    ensures DistinctIds(gs)
  {
    forall i, j | 0 <= i < j < |gs| ensures gs[i].msgid != gs[j].msgid {
      assert gs[i] in multiset(gs) && gs[j] in multiset(gs);
      ViewsDiffer(fs);
      DistinctCount(fs, gs[i]);
      if gs[i] == gs[j] { CountedTwice(gs, i, j); }
    }
  }

  lemma SameMembersStored(fs: seq<View>, gs: seq<View>, l: Ledger)
    requires OutboundStored(fs, l) && multiset(gs) == multiset(fs)
    ensures OutboundStored(gs, l)
  {
    hide IsRecord, ViewOk, PubrelRecord, IndexOf;
    SameMembersDistinct(fs, gs);
    hide DistinctIds;
    forall i | 0 <= i < |gs| ensures Kept(gs[i], l) {
      assert gs[i] in multiset(gs);
      assert gs[i] in fs;
    }
    forall id | InUse(fs, id) ensures InUse(gs, id) {
      var f := fs[IndexOf(fs, id)];
      assert f in multiset(fs);
      assert f in gs;
      var j :| 0 <= j < |gs| && gs[j] == f;
      UsedAt(gs, j);
    }
  }

  // ---------------------------------------------------------------- one key

  /** What is known of the store throughout: nothing in it is bad, so nothing is dropped. */
  ghost predicate Sound(fs: seq<View>, store: map<string, bytes>) {
    && OutboundStored(fs, LedgerOf(store)) && KnownKeys(store) && (forall i :: 0 <= i < |fs| ==> fs[i].lastTouch == 0)
    && forall id :: id in LedgerOf(store).received ==> ReceivedRecord(LedgerOf(store).received[id], id)
  }

  ghost predicate Untouched(t: State, d: State) {
    d == t.(publications := d.publications, nextRef := d.nextRef, outbound := d.outbound, inbound := d.inbound)
  }

  lemma ViewTouch(fs: seq<View>, store: map<string, bytes>, f: View)
    requires Sound(fs, store) && f in fs
    ensures f.lastTouch == 0 && Kept(f, LedgerOf(store)) && IsId(f.msgid)
    ensures ViewOk(f) && SentKey(f.msgid) in store && IsRecord(store[SentKey(f.msgid)], f)
    ensures PubrelKey(f.msgid) in store <==> f.next == AwaitPubcomp
  {
    hide IsRecord;
    ViewStored(fs, store, f);
  }

  /** The record of an in-flight message is read as that message. */
  lemma SentKeyRead(fs: seq<View>, t: State, key: string, f: View, clock: int)
    requires Sound(fs, t.store) && f in fs && HoldsView(key, f)
    ensures exists dup :: RestoreKey(t, key, clock) == Going(ReviveSent(t, RecordOf(f, dup)))
  {
    ViewTouch(fs, t.store, f);
    RecordParsed(t.store[key], f);
    BranchOfKeys(f.msgid);
    hide Sound, Kept, ViewOk, IsRecord, P.RestorePacket, SentKey, BranchOf, ReviveSent;
    var dup :| P.RestorePacket(t.store[key]) == P.Good(RecordOf(f, dup));
    assert RestoreKey(t, key, clock) == RestorePacketAt(t, key, RecordOf(f, dup), clock);
  }

  lemma NextRead(fs: seq<View>, t: State, f: View, dup: bool)
    requires Sound(fs, t.store) && f in fs
    ensures f.msgid >= 0 && NextOfSent(t, RecordOf(f, dup)) == f.next && f.lastTouch == 0
  {
    ViewTouch(fs, t.store, f);
    hide Sound, Kept, IsRecord, PubrelKey;
  }

  lemma ReviveSentOwned(t: State, p: P.Packet)
    requires Owned(t) && p.Publish? && p.msgid >= 0
    ensures Owned(ReviveSent(t, p))
  {
    var d := ReviveSent(t, p);
    var m := Revive(p, NextOfSent(t, p), 0, t.nextRef);
    var d0 := Alloc(t, p.topic, p.payload).(outbound := t.outbound + [m]);
    ReferenceAdded(t, p.topic, p.payload, None);
    hide Owned, Counted;
    OutboundAdded(t, m, d0);
    InsertBodies(t.outbound, m);
    BodiesAppend(t.outbound, m);
    hide InsertById, NextOfSent;
    SameBodiesOwned(d0, d);
  }

  lemma ReviveSentViews(t: State, f: View, dup: bool)
    requires Owned(t) && f.msgid >= 0 && NextOfSent(t, RecordOf(f, dup)) == f.next && f.lastTouch == 0
    ensures var d := ReviveSent(t, RecordOf(f, dup));
            Views(d.publications, d.outbound) == InsertById(Views(t.publications, t.outbound), f)
  {
    var d := ReviveSent(t, RecordOf(f, dup));
    var m := Revive(RecordOf(f, dup), f.next, 0, t.nextRef);
    assert d.outbound == InsertById(t.outbound, m) && ViewOf(d.publications, m) == f;
    InsertViews(d.publications, t.outbound, m);
    assert Views(d.publications, t.outbound) == Views(t.publications, t.outbound) by {
      forall i | 0 <= i < |t.outbound|
        ensures ViewOf(d.publications, t.outbound[i]) == ViewOf(t.publications, t.outbound[i])
      {
        OutboundBody(t, i);
      }
    }
  }

  lemma ReviveReceivedOwned(t: State, p: P.Packet, clock: int)
    requires Owned(t) && p.Publish?
    ensures Owned(ReviveReceived(t, p, clock))
  {
    var d := ReviveReceived(t, p, clock);
    var d0 := d.(inbound := t.inbound + [Arrived(t, p)]);
    hide Owned;
    StoredOwned(t, p, d0);
    assert BodiesOf(d.inbound) == BodiesOf(d0.inbound);
    SameBodiesOwned(d0, d);
  }

  lemma ReviveReceivedViews(t: State, p: P.Packet, clock: int)
    requires Owned(t) && p.Publish?
    ensures var d := ReviveReceived(t, p, clock);
            Views(d.publications, d.outbound) == Views(t.publications, t.outbound)
  {
    var d := ReviveReceived(t, p, clock);
    forall i | 0 <= i < |t.outbound|
      ensures ViewOf(d.publications, t.outbound[i]) == ViewOf(t.publications, t.outbound[i])
    {
      OutboundBody(t, i);
    }
  }

  lemma PubrelKeyRead(fs: seq<View>, t: State, id: int, clock: int)
    requires Sound(fs, t.store) && IsId(id) && PubrelKey(id) in t.store
    ensures RestoreKey(t, PubrelKey(id), clock) == Going(t)
  {
    var l := LedgerOf(t.store);
    assert id in l.rel && l.rel[id] == t.store[PubrelKey(id)];
    assert InUse(fs, id) && l.rel[id] == PubrelRecord(id);
    var f := fs[IndexOf(fs, id)];
    ViewTouch(fs, t.store, f);
    P.AckRestored(P.Ack(P.Pubrel, false, id));
    BranchOfKeys(id);
    hide Sound, Kept, ViewOk, IsRecord, P.RestorePacket, SentKey, PubrelKey, BranchOf;
    assert RestoreKey(t, PubrelKey(id), clock) == RestorePacketAt(t, PubrelKey(id), P.Ack(P.Pubrel, false, id), clock);
  }

  /** An inbound message as a PUBLISH packet describes it, and as its record does. */
  function InboundView(p: P.Packet): View
    requires p.Publish?
  {
    Message(p.msgid, p.qos, p.retain, AwaitPubrel, 0, Text(p.topic, p.payload))
  }

  function Recalled(b: bytes): View {
    var r := P.RestorePacket(b);
    if r.Good? && r.packet.Publish? then InboundView(r.packet) else Message(0, 0, false, Unset, 0, Text([], []))
  }

  lemma InboundKept(t: State, topic: bytes, payload: bytes)
    requires Owned(t)
    ensures Views(Alloc(t, topic, payload).publications, t.inbound) == Views(t.publications, t.inbound)
  {
    var pubs := Alloc(t, topic, payload).publications;
    forall i | 0 <= i < |t.inbound| ensures ViewOf(pubs, t.inbound[i]) == ViewOf(t.publications, t.inbound[i]) {
      InboundBody(t, i);
    }
  }

  lemma RevivedView(t: State, p: P.Packet, clock: int)
    requires Owned(t) && p.Publish?
    ensures var d := ReviveReceived(t, p, clock);
            Views(d.publications, d.inbound) == Views(t.publications, t.inbound) + [InboundView(p)]
  {
    var d := ReviveReceived(t, p, clock);
    InboundKept(t, p.topic, p.payload);
    hide Owned;
    assert ViewOf(d.publications, d.inbound[|t.inbound|]) == InboundView(p);
  }

  lemma ReceivedKeyRead(fs: seq<View>, t: State, id: int, clock: int)
    requires Sound(fs, t.store) && IsId(id) && ReceivedKey(id) in t.store
    ensures exists p: P.Packet ::
              && p.Publish? && RestoreKey(t, ReceivedKey(id), clock) == Going(ReviveReceived(t, p, clock))
              && Recalled(t.store[ReceivedKey(id)]) == InboundView(p) && p.msgid == id
  {
    var l := LedgerOf(t.store);
    assert id in l.received && l.received[id] == t.store[ReceivedKey(id)];
    assert ReceivedRecord(l.received[id], id);
    var p: P.Packet :| P.Storable(p) && p.qos == 2 && p.msgid == id && l.received[id] == P.Serialized(p);
    P.PublishRestored(p);
    BranchOfKeys(id);
    hide Sound, P.RestorePacket, ReceivedKey, BranchOf, ReviveReceived;
    assert RestoreKey(t, ReceivedKey(id), clock) == RestorePacketAt(t, ReceivedKey(id), p, clock);
  }

  // ---------------------------------------------------------------- one key after the other

  /** A record received adds the message that it holds. */
  ghost predicate InboundStep(store: map<string, bytes>, a: seq<View>, key: string, b: seq<View>) {
    || (b == a && forall id: nat :: IsId(id) ==> key != ReceivedKey(id))
    || (key in store && b == a + [Recalled(store[key])]
        && IsId(Recalled(store[key]).msgid) && key == ReceivedKey(Recalled(store[key]).msgid))
  }

  ghost predicate Steps(fs: seq<View>, t: State, key: string, d: State) {
    && Untouched(t, d) && Owned(d)
    && Views(d.publications, d.outbound) == InsertAll(Views(t.publications, t.outbound), PickedAt(fs, key))
    && InboundStep(t.store, Views(t.publications, t.inbound), key, Views(d.publications, d.inbound))
  }

  lemma NotReceived(stem: string, id: nat)
    requires stem == SENT || stem == PUBREL
    ensures forall k: nat :: KeyOf(stem, id) != ReceivedKey(k)
  {
    forall k: nat ensures KeyOf(stem, id) != ReceivedKey(k) {
      if KeyOf(stem, id) == ReceivedKey(k) { KeysDiffer(stem, RECEIVED, id, k); }
    }
  }

  lemma SentKeyStep(fs: seq<View>, t: State, key: string, clock: int)
    requires Sound(fs, t.store) && Owned(t) && PickedAt(fs, key) != []
    ensures RestoreKey(t, key, clock).Going? && Steps(fs, t, key, RestoreKey(t, key, clock).state)
  {
    var f := PickedAt(fs, key)[0];
    assert key == SentKey(f.msgid);
    NotReceived(SENT, f.msgid);
    SentKeyRead(fs, t, key, f, clock);
    hide Sound, Owned, RestoreKey, PickedAt, SentKey, ReceivedKey, KeyOf;
    var dup :| RestoreKey(t, key, clock) == Going(ReviveSent(t, RecordOf(f, dup)));
    NextRead(fs, t, f, dup);
    ReviveSentOwned(t, RecordOf(f, dup));
    ReviveSentViews(t, f, dup);
    var d := ReviveSent(t, RecordOf(f, dup));
    InboundKept(t, f.body.topic, f.body.payload);
    assert Untouched(t, d) && d.inbound == t.inbound;
    assert d.publications == Alloc(t, f.body.topic, f.body.payload).publications;
    hide ReviveSent, InsertById, Untouched, Views;
    assert InsertAll(Views(t.publications, t.outbound), PickedAt(fs, key))
        == InsertById(Views(t.publications, t.outbound), f) by { OneInserted(Views(t.publications, t.outbound), PickedAt(fs, key)); }
  }

  lemma OneInserted<B>(ms: seq<Message<B>>, one: seq<Message<B>>)
    requires |one| == 1
    ensures InsertAll(ms, one) == InsertById(ms, one[0])
  {
  }

  lemma RevivedFrame(fs: seq<View>, t: State, p: P.Packet, key: string, clock: int)
    requires Owned(t) && p.Publish? && IsId(p.msgid) && key == ReceivedKey(p.msgid) && PickedAt(fs, key) == []
    requires key in t.store && Recalled(t.store[key]) == InboundView(p)
    ensures Steps(fs, t, key, ReviveReceived(t, p, clock))
  {
    ReviveReceivedOwned(t, p, clock);
    ReviveReceivedViews(t, p, clock);
    RevivedView(t, p, clock);
    hide Owned, Views, PickedAt, ReceivedKey, Recalled;
  }

  lemma ReceivedKeyStep(fs: seq<View>, t: State, id: int, clock: int)
    requires Sound(fs, t.store) && Owned(t) && IsId(id) && ReceivedKey(id) in t.store && PickedAt(fs, ReceivedKey(id)) == []
    ensures var r := RestoreKey(t, ReceivedKey(id), clock); r.Going? && Steps(fs, t, ReceivedKey(id), r.state)
  {
    ReceivedKeyRead(fs, t, id, clock);
    assert IsId(id) && id >= 0;
    hide *;
    var p: P.Packet :|
      && p.Publish? && RestoreKey(t, ReceivedKey(id), clock) == Going(ReviveReceived(t, p, clock))
      && Recalled(t.store[ReceivedKey(id)]) == InboundView(p) && p.msgid == id;
    RevivedFrame(fs, t, p, ReceivedKey(id), clock);
  }

  lemma SkippedKey(key: string, id: nat)
    requires BranchOf(key) == Skipped
    ensures key != ReceivedKey(id) && key != SentKey(id) && key != PubrelKey(id)
  {
    BranchOfKeys(id);
  }

  lemma OtherKeyStep(fs: seq<View>, t: State, key: string, clock: int)
    requires Owned(t) && PickedAt(fs, key) == [] && RestoreKey(t, key, clock) == Going(t)
    requires forall id: nat :: IsId(id) ==> key != ReceivedKey(id)
    ensures RestoreKey(t, key, clock).Going? && Steps(fs, t, key, RestoreKey(t, key, clock).state)
  {
  }

  /** A PUBLISH record belongs to an in-flight message. */
  lemma SentKeyPicked(fs: seq<View>, store: map<string, bytes>, id: int)
    requires OutboundStored(fs, LedgerOf(store)) && IsId(id) && SentKey(id) in store
    ensures PickedAt(fs, SentKey(id)) != []
  {
    assert id in LedgerOf(store).sent;
    var f := fs[IndexOf(fs, id)];
    assert f in fs && HoldsView(SentKey(id), f);
  }

  lemma KeyStep(fs: seq<View>, t: State, key: string, clock: int)
    requires Sound(fs, t.store) && Owned(t) && key in t.store
    ensures RestoreKey(t, key, clock).Going? && Steps(fs, t, key, RestoreKey(t, key, clock).state)
  {
    if PickedAt(fs, key) != [] {
      SentKeyStep(fs, t, key, clock);
    } else if BranchOf(key) == Skipped {
      forall id: nat | IsId(id) ensures key != ReceivedKey(id) { SkippedKey(key, id); }
      hide Owned, Sound, Steps;
      OtherKeyStep(fs, t, key, clock);
    } else {
      assert KnownKey(key);
      var id: nat :| IsId(id) && (key == SentKey(id) || key == PubrelKey(id) || key == ReceivedKey(id));
      assert OutboundStored(fs, LedgerOf(t.store));
      OtherKindStep(fs, t, key, id, clock);
    }
  }

  lemma OtherKindStep(fs: seq<View>, t: State, key: string, id: nat, clock: int)
    requires Sound(fs, t.store) && Owned(t) && key in t.store && PickedAt(fs, key) == []
    requires IsId(id) && (key == SentKey(id) || key == PubrelKey(id) || key == ReceivedKey(id))
    ensures RestoreKey(t, key, clock).Going? && Steps(fs, t, key, RestoreKey(t, key, clock).state)
  {
    assert OutboundStored(fs, LedgerOf(t.store));
    if key == SentKey(id) { SentKeyPicked(fs, t.store, id); }
    NotReceived(PUBREL, id);
    assert PubrelKey(id) == KeyOf(PUBREL, id);
    hide *;
    if key == ReceivedKey(id) {
      ReceivedKeyStep(fs, t, id, clock);
    } else {
      PubrelKeyRead(fs, t, id, clock);
      OtherKeyStep(fs, t, key, clock);
    }
  }

  /** The outbound list after all keys. */
  lemma {:induction false} KeysRestored(fs: seq<View>, t: State, keys: seq<string>, clock: int)
    requires Sound(fs, t.store) && Owned(t) && forall key :: key in keys ==> key in t.store
    ensures var r := RestoreKeys(t, keys, clock);
            && r.Going? && Untouched(t, r.state) && Owned(r.state)
            && Views(r.state.publications, r.state.outbound) == InsertAll(Views(t.publications, t.outbound), Picked(fs, keys))
    decreases |keys|
  {
    hide Sound, Owned, RestoreKey, PickedAt;
    if keys != [] {
      KeyStep(fs, t, keys[0], clock);
      var d := RestoreKey(t, keys[0], clock).state;
      KeysRestored(fs, d, keys[1..], clock);
      var ms := Views(t.publications, t.outbound);
      var a, b := PickedAt(fs, keys[0]), Picked(fs, keys[1..]);
      hide Views, InboundStep;
      InsertAllStep(ms, a, b);
      assert InsertAll(ms, a) == if a == [] then ms else InsertById(ms, a[0]) by { if a != [] { OneInserted(ms, a); } }
    }
  }

  /** The inbound list after all keys: for every record received the message that it holds. */
  lemma {:induction false} InboundRestored(fs: seq<View>, t: State, keys: seq<string>, clock: int)
    requires Sound(fs, t.store) && Owned(t) && forall key :: key in keys ==> key in t.store
    requires forall i, j :: 0 <= i < j < |keys| ==> keys[i] != keys[j]
    requires InboundSoFar(t, keys)
    ensures var r, a := RestoreKeys(t, keys, clock), Views(t.publications, t.inbound);
            && r.Going? && r.state.store == t.store && InboundSoFar(r.state, [])
            && forall id ::
                 InUse(Views(r.state.publications, r.state.inbound), id) <==> InUse(a, id) || (IsId(id) && ReceivedKey(id) in keys)
    decreases |keys|
  {
    hide Sound, Owned, RestoreKey, PickedAt, ReceivedKey;
    if keys != [] {
      KeyStep(fs, t, keys[0], clock);
      var d := RestoreKey(t, keys[0], clock).state;
      InboundStepIds(t.store, Views(t.publications, t.inbound), keys[0], Views(d.publications, d.inbound), keys[1..]);
      hide Views, InUse;
      InboundRestored(fs, d, keys[1..], clock);
    }
  }

  /** Every message restored so far is the one that its record holds, and its key is not to come. */
  ghost predicate InboundSoFar(t: State, rest: seq<string>) {
    FromRecords(t.store, Views(t.publications, t.inbound), rest)
  }

  ghost predicate FromRecords(store: map<string, bytes>, vs: seq<View>, rest: seq<string>) {
    && DistinctIds(vs)
    && forall i :: 0 <= i < |vs| ==> IsId(vs[i].msgid) && FromRecord(store, vs[i]) && ReceivedKey(vs[i].msgid) !in rest
  }

  predicate FromRecord(store: map<string, bytes>, v: View) {
    v.msgid >= 0 && ReceivedKey(v.msgid) in store && v == Recalled(store[ReceivedKey(v.msgid)])
  }

  lemma InboundStepIds(store: map<string, bytes>, a: seq<View>, key: string, b: seq<View>, rest: seq<string>)
    requires InboundStep(store, a, key, b) && key !in rest && FromRecords(store, a, [key] + rest)
    ensures FromRecords(store, b, rest)
    ensures forall id :: InUse(b, id) <==> InUse(a, id) || (IsId(id) && ReceivedKey(id) == key)
  {
    hide ReceivedKey, Recalled;
    if b != a {
      var m := Recalled(store[key]);
      assert key in [key] + rest;
      forall id ensures InUse(b, id) <==> InUse(a, id) || (IsId(id) && ReceivedKey(id) == key) {
        AppendedIds(a, m, id);
        if IsId(id) && ReceivedKey(id) == key { ReceivedIds(id, m.msgid); }
      }
    }
  }

  lemma ReceivedIds(a: nat, b: nat)
    requires ReceivedKey(a) == ReceivedKey(b)
    ensures a == b
  {
    KeysDiffer(RECEIVED, RECEIVED, a, b);
  }

  lemma AppendedIds<B>(a: seq<Message<B>>, m: Message<B>, id: int)
    ensures InUse(a + [m], id) <==> InUse(a, id) || id == m.msgid
  {
    var b := a + [m];
    UsedAt(b, |a|);
    if InUse(a, id) { assert b[IndexOf(a, id)].msgid == id; UsedAt(b, IndexOf(a, id)); }
    if InUse(b, id) && id != m.msgid { assert a[IndexOf(b, id)].msgid == id; UsedAt(a, IndexOf(b, id)); }
  }

  // ---------------------------------------------------------------- the whole restoration

  lemma MirroredSound(s: State)
    requires Mirrored(s)
    ensures Sound(Views(s.publications, s.outbound), s.store)
  {
    hide OutboundStored, LedgerOf, ReceivedRecord, KnownKeys;
  }

  lemma SoundMirrored(fs: seq<View>, d: State)
    requires Sound(fs, d.store) && multiset(Views(d.publications, d.outbound)) == multiset(fs)
    requires forall id :: InUse(d.inbound, id) ==> id in LedgerOf(d.store).received
    ensures Mirrored(d)
  {
    hide OutboundStored, LedgerOf, ReceivedRecord, KnownKeys, Views, InUse;
    SameMembersStored(fs, Views(d.publications, d.outbound), LedgerOf(d.store));
    forall i | 0 <= i < |d.inbound| ensures d.inbound[i].msgid in LedgerOf(d.store).received {
      UsedAt(d.inbound, i);
    }
  }

  lemma RestartedOwned(s: State)
    ensures Owned(Restarted(s))
  {
    assert Owners(Restarted(s)) == multiset{};
  }

  lemma ViewIds(fs: seq<View>, store: map<string, bytes>)
    requires Sound(fs, store)
    ensures DistinctIds(fs) && forall f :: f in fs ==> f.msgid >= 0 && SentKey(f.msgid) in store
  {
    assert OutboundStored(fs, LedgerOf(store));
    hide SentKey, Sound, Kept, LedgerOf;
    forall f | f in fs ensures f.msgid >= 0 && SentKey(f.msgid) in store { ViewTouch(fs, store, f); }
  }

  /** The records give the in-flight messages back, in the order of their keys. */
  lemma OutboundRestored(s: State, keys: seq<string>, clock: int)
    requires Mirrored(s) && Enumerates(keys, s.store)
    ensures var fs, r := Views(s.publications, s.outbound), RestoreAll(Restarted(s), keys, clock);
            && r.Going? && Untouched(Restarted(s), r.state) && Owned(r.state)
            && multiset(Picked(fs, keys)) == multiset(fs)
            && Views(r.state.publications, r.state.outbound) == RestoredOrder(Picked(fs, keys))
  {
    var fs, t := Views(s.publications, s.outbound), Restarted(s);
    MirroredSound(s);
    RestartedOwned(s);
    ViewIds(fs, s.store);
    assert Views(t.publications, t.outbound) == [];
    hide Mirrored, Sound, Owned, SentKey, RestoreKeys, Picked, Views;
    PickedPermutes(fs, keys, s.store);
    KeysRestored(fs, t, keys, clock);
    var d := RestoreKeys(t, keys, clock).state;
    WrappedViews(d.publications, d.outbound);
    WrappedBodies(d.outbound);
    hide Wrapped, InsertAll;
    SameBodiesOwned(d, d.(outbound := Wrapped(d.outbound)));
  }

  lemma InboundAll(s: State, keys: seq<string>, clock: int)
    requires Mirrored(s) && Enumerates(keys, s.store)
    ensures var r := RestoreAll(Restarted(s), keys, clock);
            && r.Going? && FromRecords(s.store, Views(r.state.publications, r.state.inbound), [])
            && DistinctIds(r.state.inbound)
            && forall id :: InUse(r.state.inbound, id) <==> IsId(id) && ReceivedKey(id) in s.store
  {
    var fs, t := Views(s.publications, s.outbound), Restarted(s);
    MirroredSound(s);
    RestartedOwned(s);
    assert Views(t.publications, t.inbound) == [];
    assert t.store == s.store;
    hide Mirrored, Sound, Owned, RestoreKeys, ReceivedKey, Views, Wrapped, Recalled;
    InboundRestored(fs, t, keys, clock);
    var d := RestoreKeys(t, keys, clock).state;
    ViewIdsDistinct(d.publications, d.inbound);
    forall id ensures InUse(d.inbound, id) <==> IsId(id) && ReceivedKey(id) in s.store {
      SameIds(d.publications, d.inbound, id);
    }
  }

  lemma ViewIdsDistinct(pubs: map<nat, Publication>, ms: seq<Message<nat>>)
    requires DistinctIds(Views(pubs, ms))
    ensures DistinctIds(ms)
  {
    var vs := Views(pubs, ms);
    forall i, j | 0 <= i < j < |ms| ensures ms[i].msgid != ms[j].msgid {
      assert vs[i].msgid != vs[j].msgid;
    }
  }

  lemma ReceivedIdsStored(store: map<string, bytes>)
    ensures forall id :: id in LedgerOf(store).received <==> IsId(id) && ReceivedKey(id) in store
  {
  }

  /**
   For every order in which the store enumerates its keys, a client that crashed between two
   handlers gets back the in-flight messages, with everything but their times, and for every
   record received the message that it holds; the state is again well formed.
   */
  lemma CrashRestored(s: State, keys: seq<string>, clock: int)
    requires Mirrored(s) && Enumerates(keys, s.store)
    ensures var fs, r := Views(s.publications, s.outbound), RestoreAll(Restarted(s), keys, clock);
            && r.Going? && r.state.store == s.store && Owned(r.state) && Mirrored(r.state) && DistinctIds(r.state.inbound)
            && multiset(Views(r.state.publications, r.state.outbound)) == multiset(fs)
            && (forall id :: InUse(s.inbound, id) ==> InUse(r.state.inbound, id))
            && (forall id :: InUse(r.state.inbound, id) <==> id in LedgerOf(s.store).received)
            && FromRecords(s.store, Views(r.state.publications, r.state.inbound), [])
  {
    OutboundRestored(s, keys, clock);
    InboundAll(s, keys, clock);
    var fs, d := Views(s.publications, s.outbound), RestoreAll(Restarted(s), keys, clock).state;
    MirroredSound(s);
    ReceivedIdsStored(s.store);
    InboundHasRecords(s);
    UntouchedParts(s, d);
    hide *;
    var order := Picked(fs, keys);
    InsertAllPermutes([], order);
    WrappedPermutes(InsertAll([], order));
    RestoredOrderIs(order);
    SoundMirrored(fs, d);
  }

  lemma RestoredOrderIs<B>(order: seq<Message<B>>)
    ensures RestoredOrder(order) == Wrapped(InsertAll([], order))
  {
  }

  lemma UntouchedParts(a: State, d: State)
    requires Untouched(Restarted(a), d)
    ensures d.store == a.store && d.delivered == a.delivered
  {
  }

  lemma InboundHasRecords(s: State)
    requires Mirrored(s)
    ensures forall id :: InUse(s.inbound, id) ==> id in LedgerOf(s.store).received
  {
    hide LedgerOf, OutboundStored, KnownKeys, ReceivedRecord;
    forall id | InUse(s.inbound, id) ensures id in LedgerOf(s.store).received {
      assert s.inbound[IndexOf(s.inbound, id)].msgid == id;
    }
  }

  /** The order of sending comes back exactly when the gap before the first message is the widest. */
  lemma CrashKeepsOrder(s: State, keys: seq<string>, clock: int, r: nat)
    requires Mirrored(s) && Enumerates(keys, s.store) && SentInOrder(Views(s.publications, s.outbound), r)
    ensures var fs, restored := Views(s.publications, s.outbound), RestoreAll(Restarted(s), keys, clock);
            && restored.Going?
            && (Views(restored.state.publications, restored.state.outbound) == fs <==> CutIsWidest(fs))
  {
    var fs := Views(s.publications, s.outbound);
    OutboundRestored(s, keys, clock);
    hide Mirrored, RestoreAll, Picked, Views, Owned, RestoredOrder;
    SendOrderRestored(fs, r, Picked(fs, keys));
  }
}
