/** A crash of either client is a restart of the two-endpoint system. */
module TwoClientsCrash {
  import opened Bytes
  import opened Exchange
  import opened Keys
  import opened ClientState
  import opened Ownership
  import opened Restore
  import opened Mirror
  import opened CrashRestore
  import opened Refinement
  import opened Qos2Flights
  import opened Qos2Invariant
  import opened Qos2Steps
  import opened Qos2Safety
  import opened TwoClients
  import opened TwoClientsSteps
  import P = Packets
  import C = ClientRun
  import Q = Qos2System

  // ---------------------------------------------------------------- a crash of the sender

  /** The system's entry for a restored one, with the time of that one. */
  function EntryFor(outbound: seq<Message<nat>>, m: Message<nat>): (r: Message<nat>)
    requires InUse(outbound, m.msgid)
    ensures r.msgid == m.msgid && r.lastTouch == m.lastTouch
  {
    outbound[IndexOf(outbound, m.msgid)].(lastTouch := m.lastTouch)
  }

  /** The entries of the system in the order of the restored list. */
  function Arranged(restored: seq<Message<nat>>, outbound: seq<Message<nat>>): (r: seq<Message<nat>>)
    requires forall i :: 0 <= i < |restored| ==> InUse(outbound, restored[i].msgid)
    ensures |r| == |restored| && forall i :: 0 <= i < |r| ==> r[i] == EntryFor(outbound, restored[i])
  {
    seq(|restored|, i requires 0 <= i < |restored| => EntryFor(outbound, restored[i]))
  }

  /** The restored lists show the same messages. */
  ghost predicate SameViews(a: State, d: State) {
    multiset(Views(d.publications, d.outbound)) == multiset(Views(a.publications, a.outbound))
  }

  lemma ViewFound(a: State, d: State, i: nat) returns (k: nat)
    requires SameViews(a, d) && i < |d.outbound|
    ensures k < |a.outbound| && ViewOf(a.publications, a.outbound[k]) == ViewOf(d.publications, d.outbound[i])
  {
    var v := Views(d.publications, d.outbound)[i];
    assert v in multiset(Views(d.publications, d.outbound));
    assert v in Views(a.publications, a.outbound);
    k :| 0 <= k < |a.outbound| && Views(a.publications, a.outbound)[k] == v;
  }

  lemma RestoredEntry(a: State, d: State, outbound: seq<Message<nat>>, texts: seq<Text>, i: nat)
    requires SameViews(a, d) && i < |d.outbound| && DistinctIds(outbound)
    requires Twin(a.outbound, TextsOf(a.publications), outbound, Numbered(texts))
    ensures var m := d.outbound[i];
            && InUse(outbound, m.msgid)
            && Plain(m, TextOf(d.publications, m.body))
               == Plain(EntryFor(outbound, m), Numbered(texts)(EntryFor(outbound, m).body))
  {
    var k := ViewFound(a, d, i);
    hide SameViews;
    TwinAt(a.outbound, TextsOf(a.publications), outbound, Numbered(texts), k);
    assert outbound[k].msgid == d.outbound[i].msgid;
    IndexOfUnique(outbound, k);
    hide IndexOf, Twin, TextOf, Numbered;
  }

  lemma SaneDistinct(a: State)
    requires C.Sane(a)
    ensures DistinctIds(a.outbound)
  {
    hide Owned, Kept;
    ViewIdsDistinct(a.publications, a.outbound);
  }

  lemma AllInUse(a: State, d: State, outbound: seq<Message<nat>>, texts: seq<Text>)
    requires SameViews(a, d) && DistinctIds(outbound) && Twin(a.outbound, TextsOf(a.publications), outbound, Numbered(texts))
    ensures forall i :: 0 <= i < |d.outbound| ==> InUse(outbound, d.outbound[i].msgid)
  {
    hide *;
    forall i | 0 <= i < |d.outbound| ensures InUse(outbound, d.outbound[i].msgid) { RestoredEntry(a, d, outbound, texts, i); }
  }

  lemma ArrangedTwin(a: State, d: State, outbound: seq<Message<nat>>, texts: seq<Text>)
    requires SameViews(a, d) && DistinctIds(outbound) && Twin(a.outbound, TextsOf(a.publications), outbound, Numbered(texts))
    requires forall i :: 0 <= i < |d.outbound| ==> InUse(outbound, d.outbound[i].msgid)
    ensures Twin(d.outbound, TextsOf(d.publications), Arranged(d.outbound, outbound), Numbered(texts))
  {
    hide *;
    var f, g, order := TextsOf(d.publications), Numbered(texts), Arranged(d.outbound, outbound);
    forall i | 0 <= i < |order|
      ensures Plain(d.outbound[i], f(d.outbound[i].body)) == Plain(order[i], g(order[i].body))
    {
      RestoredEntry(a, d, outbound, texts, i);
      TextsOfIs(d.publications, d.outbound[i].body);
    }
    TwinFrom(d.outbound, f, order, g);
  }

  lemma SenderRestored(a: State, d: State, outbound: seq<Message<nat>>, numbers: map<int, nat>,
                       texts: seq<Text>) returns (order: seq<Message<nat>>)
    requires SameViews(a, d) && SenderAgrees(a, outbound, numbers, texts) && C.Sane(d) && DistinctIds(outbound)
    ensures Q.Reordered(order, outbound) && SenderAgrees(d, order, numbers, texts)
  {
    assert Twin(a.outbound, TextsOf(a.publications), outbound, Numbered(texts)) && NumbersAgree(numbers, outbound);
    SaneDistinct(d);
    hide *;
    AllInUse(a, d, outbound, texts);
    order := Arranged(d.outbound, outbound);
    ArrangedTwin(a, d, outbound, texts);
    NumbersArranged(numbers, d.outbound, outbound);
    ArrangedIds(d.outbound, outbound);
    AllRestored(a, d, outbound, order, texts);
    ArrangedReordered(d.outbound, outbound);
    SenderAgreesIf(d, order, numbers, texts);
  }

  lemma ArrangedIds(restored: seq<Message<nat>>, outbound: seq<Message<nat>>)
    requires forall i :: 0 <= i < |restored| ==> InUse(outbound, restored[i].msgid)
    ensures |Arranged(restored, outbound)| == |restored|
    ensures forall i :: 0 <= i < |restored| ==> Arranged(restored, outbound)[i].msgid == restored[i].msgid
  {
    hide IndexOf;
  }

  lemma TextsOfIs(pubs: map<nat, Publication>, r: nat)
    ensures TextsOf(pubs)(r) == TextOf(pubs, r)
  {
  }

  lemma ArrangedReordered(restored: seq<Message<nat>>, outbound: seq<Message<nat>>)
    requires DistinctIds(restored) && forall i :: 0 <= i < |restored| ==> InUse(outbound, restored[i].msgid)
    requires forall k :: 0 <= k < |outbound| ==> InUse(Arranged(restored, outbound), outbound[k].msgid)
    ensures Q.Reordered(Arranged(restored, outbound), outbound)
  {
    hide IndexOf;
  }

  lemma NumbersArranged(numbers: map<int, nat>, restored: seq<Message<nat>>, outbound: seq<Message<nat>>)
    requires NumbersAgree(numbers, outbound) && forall i :: 0 <= i < |restored| ==> InUse(outbound, restored[i].msgid)
    ensures NumbersAgree(numbers, Arranged(restored, outbound))
  {
    hide Arranged;
  }

  lemma AllRestored(a: State, d: State, outbound: seq<Message<nat>>, order: seq<Message<nat>>, texts: seq<Text>)
    requires SameViews(a, d) && Twin(a.outbound, TextsOf(a.publications), outbound, Numbered(texts))
    requires |order| == |d.outbound| && forall i :: 0 <= i < |order| ==> order[i].msgid == d.outbound[i].msgid
    ensures forall k :: 0 <= k < |outbound| ==> InUse(order, outbound[k].msgid)
  {
    TwinIndex(a.outbound, TextsOf(a.publications), outbound, Numbered(texts), 0);
    hide Twin, Numbered, IndexOf, TextOf;
    forall k | 0 <= k < |outbound| ensures InUse(order, outbound[k].msgid) {
      TwinAt(a.outbound, TextsOf(a.publications), outbound, Numbered(texts), k);
      var i := ViewFound(d, a, k);
      UsedAt(order, i);
    }
  }

  lemma CrashEvent(a: State, keys: seq<string>, clock: int)
    requires C.Sane(a) && C.Enabled(a, C.Crash(keys, clock))
    ensures Mirrored(a) && Enumerates(keys, a.store)
    ensures var r := RestoreAll(Restarted(a), keys, clock); r.Going? && C.Next(a, C.Crash(keys, clock)) == r.state
  {
    hide Owned, Mirrored, DistinctIds, RestoreAll, Enumerates, Restarted, StartPublish, StartPublish0, OnPubackS, OnPubrecS,
      OnPubcompS, OnPublishS, StoreReceived, OnPubrelS, RetryS, CheckPending, Clean;
  }

  lemma SameViewsIf(a: State, d: State)
    requires multiset(Views(d.publications, d.outbound)) == multiset(Views(a.publications, a.outbound))
    ensures SameViews(a, d)
  {
  }

  lemma CrashViews(a: State, keys: seq<string>, clock: int)
    requires C.Sane(a) && C.Enabled(a, C.Crash(keys, clock))
    ensures var d := C.Next(a, C.Crash(keys, clock));
            && SameViews(a, d) && C.Sane(d) && d.store == a.store && d.delivered == a.delivered
            && FromRecords(a.store, Views(d.publications, d.inbound), [])
            && (forall id :: InUse(d.inbound, id) <==> id in LedgerOf(a.store).received)
  {
    hide *;
    C.NextSane(a, C.Crash(keys, clock));
    CrashEvent(a, keys, clock);
    CrashRestored(a, keys, clock);
    OutboundRestored(a, keys, clock);
    UntouchedParts(a, C.Next(a, C.Crash(keys, clock)));
    SameViewsIf(a, C.Next(a, C.Crash(keys, clock)));
  }

  lemma WorldSenderCrash(w: World, keys: seq<string>, clock: int)
    requires Enabled(w, SenderCrash(keys, clock))
    ensures C.Enabled(w.sender, C.Crash(keys, clock))
    ensures Next(w, SenderCrash(keys, clock)) == w.(sender := C.Next(w.sender, C.Crash(keys, clock)), forward := [], back := [])
  {
    hide C.Next, C.Enabled;
  }

  lemma SystemSenderRestart(s: Q.System, order: seq<Message<nat>>)
    requires !s.v5 && Q.Reordered(order, s.outbound)
    ensures var e := Q.Next(s, Q.SenderRestart(order));
            e == s.(toReceiver := [], toSender := [], outbound := order, msgID := 0, shuffled := e.shuffled)
  {
    hide Q.Reordered;
  }

  lemma NothingAgrees(texts: seq<Text>)
    ensures ForwardAgrees([], [], texts) && BackAgrees([], [])
  {
  }

  lemma InvDistinct(s: Q.System)
    requires Inv(s)
    ensures DistinctIds(s.outbound)
  {
  }

  lemma SenderCrashSim(w: World, s: Q.System, tags: seq<nat>, keys: seq<string>, clock: int) returns (step: Q.Step)
    requires Sim(w, s, tags) && Enabled(w, SenderCrash(keys, clock))
    ensures Sim(Next(w, SenderCrash(keys, clock)), Q.Next(s, step), tags)
  {
    hide *;
    SimFacts(w, s, tags);
    WorldSenderCrash(w, keys, clock);
    SenderAgreesParts(w.sender, s.outbound, w.numbers, w.texts);
    CrashViews(w.sender, keys, clock);
    InvDistinct(s);
    var d := C.Next(w.sender, C.Crash(keys, clock));
    var order := SenderRestored(w.sender, d, s.outbound, w.numbers, w.texts);
    step := Q.SenderRestart(order);
    SystemSenderRestart(s, order);
    StepKeepsInv(s, step);
    StepRetains(s, step);
    NothingAgrees(w.texts);
    SimIf(Next(w, SenderCrash(keys, clock)), Q.Next(s, step), s, tags);
  }

  lemma SenderAgreesParts(a: State, outbound: seq<Message<nat>>, numbers: map<int, nat>, texts: seq<Text>)
    requires SenderAgrees(a, outbound, numbers, texts)
    ensures C.Sane(a)
  {
  }

  // ---------------------------------------------------------------- a crash of the receiver

  /** The messages that the system restores, in the order of the restored list. */
  function Recorded(restored: seq<Message<nat>>, records: map<int, nat>): (r: seq<Message<nat>>)
    requires forall i :: 0 <= i < |restored| ==> restored[i].msgid in records
    ensures |r| == |restored|
    ensures forall i :: 0 <= i < |r| ==> r[i] == Message(restored[i].msgid, 2, false, AwaitPubrel, 0, records[restored[i].msgid])
  {
    seq(|restored|, i requires 0 <= i < |restored| =>
      Message(restored[i].msgid, 2, false, AwaitPubrel, 0, records[restored[i].msgid]))
  }

  /** A message restored from its record shows the text that the system recorded. */
  lemma RecordedEntry(store: map<string, bytes>, v: View, records: map<int, nat>, texts: seq<Text>)
    requires FromRecord(store, v) && IsId(v.msgid) && RecordsAgree(LedgerOf(store).received, records, texts)
    ensures v.msgid in records
    ensures v.(retain := false) == Message(v.msgid, 2, false, AwaitPubrel, 0, Numbered(texts)(records[v.msgid]))
  {
    assert LedgerOf(store).received[v.msgid] == store[ReceivedKey(v.msgid)];
    assert RecordAgrees(LedgerOf(store).received[v.msgid], v.msgid, records[v.msgid], texts);
    hide LedgerOf, ReceivedKey, Recalled;
  }

  lemma PlainView(pubs: map<nat, Publication>, m: Message<nat>)
    ensures ViewOf(pubs, m).(retain := false) == Plain(m, TextOf(pubs, m.body))
  {
  }

  lemma RecordedInbound(d: State, records: map<int, nat>, texts: seq<Text>)
    requires RecordsAgree(LedgerOf(d.store).received, records, texts)
    requires FromRecords(d.store, Views(d.publications, d.inbound), [])
    ensures forall i :: 0 <= i < |d.inbound| ==> d.inbound[i].msgid in records
    ensures Erased(d.inbound, TextsOf(d.publications)) == Erased(Recorded(d.inbound, records), Numbered(texts))
  {
    var vs := Views(d.publications, d.inbound);
    assert |vs| == |d.inbound|;
    hide LedgerOf, RecordsAgree, FromRecord, TextOf, Numbered;
    forall i | 0 <= i < |d.inbound| ensures d.inbound[i].msgid in records { RecordedEntry(d.store, vs[i], records, texts); }
    var a, b := Erased(d.inbound, TextsOf(d.publications)), Erased(Recorded(d.inbound, records), Numbered(texts));
    forall i | 0 <= i < |d.inbound| ensures a[i] == b[i] {
      RecordedEntry(d.store, vs[i], records, texts);
      PlainView(d.publications, d.inbound[i]);
    }
    assert a == b;
  }

  lemma ReceiverRestored(b: State, d: State, s: Q.System, texts: seq<Text>) returns (order: seq<Message<nat>>)
    requires ReceiverAgrees(b, s, texts) && C.Sane(d) && d.store == b.store
    requires FromRecords(b.store, Views(d.publications, d.inbound), [])
    requires forall id :: InUse(d.inbound, id) <==> id in LedgerOf(b.store).received
    ensures Q.Restored(order, s.records) && ReceiverAgrees(d, s.(inbound := order), texts)
  {
    assert DistinctIds(Views(d.publications, d.inbound)) && RecordsAgree(LedgerOf(b.store).received, s.records, texts);
    ViewIdsDistinct(d.publications, d.inbound);
    RecordedInbound(d, s.records, texts);
    assert LedgerOf(b.store).received.Keys == s.records.Keys;
    hide C.Sane, LedgerOf, FromRecords, RecordsAgree, Erased, DistinctIds, InUse, Recorded, Q.Restored;
    order := Recorded(d.inbound, s.records);
    RecordedRestored(d.inbound, s.records);
  }

  lemma RecordedRestored(restored: seq<Message<nat>>, records: map<int, nat>)
    requires DistinctIds(restored) && (forall i :: 0 <= i < |restored| ==> restored[i].msgid in records)
    requires forall id :: id in records ==> InUse(restored, id)
    ensures Q.Restored(Recorded(restored, records), records)
  {
    var order := Recorded(restored, records);
    forall id | id in records ensures InUse(order, id) {
      assert order[IndexOf(restored, id)].msgid == id;
      UsedAt(order, IndexOf(restored, id));
    }
  }

  lemma WorldReceiverCrash(w: World, keys: seq<string>, clock: int)
    requires Enabled(w, ReceiverCrash(keys, clock))
    ensures C.Enabled(w.receiver, C.Crash(keys, clock))
    ensures Next(w, ReceiverCrash(keys, clock)) == w.(receiver := C.Next(w.receiver, C.Crash(keys, clock)), forward := [], back := [])
  {
    hide C.Next, C.Enabled;
  }

  lemma SystemReceiverRestart(s: Q.System, order: seq<Message<nat>>)
    requires !s.v5 && Q.Restored(order, s.records)
    ensures Q.Next(s, Q.ReceiverRestart(order)) == s.(toReceiver := [], toSender := [], inbound := order)
  {
    hide Q.Restored;
  }

  lemma ReceiverAgreesParts(b: State, s: Q.System, texts: seq<Text>)
    requires ReceiverAgrees(b, s, texts)
    ensures C.Sane(b)
  {
  }

  lemma ReceiverCrashSim(w: World, s: Q.System, tags: seq<nat>, keys: seq<string>, clock: int) returns (step: Q.Step)
    requires Sim(w, s, tags) && Enabled(w, ReceiverCrash(keys, clock))
    ensures Sim(Next(w, ReceiverCrash(keys, clock)), Q.Next(s, step), tags)
  {
    hide *;
    SimFacts(w, s, tags);
    WorldReceiverCrash(w, keys, clock);
    ReceiverAgreesParts(w.receiver, s, w.texts);
    CrashViews(w.receiver, keys, clock);
    var d := C.Next(w.receiver, C.Crash(keys, clock));
    var order := ReceiverRestored(w.receiver, d, s, w.texts);
    step := Q.ReceiverRestart(order);
    SystemReceiverRestart(s, order);
    StepKeepsInv(s, step);
    StepRetains(s, step);
    NothingAgrees(w.texts);
    SimIf(Next(w, ReceiverCrash(keys, clock)), Q.Next(s, step), s.(inbound := order), tags);
  }
}
