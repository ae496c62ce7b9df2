/** One client below version 5: every handler, step by step, against what it makes of the state. */
module Client {
  import opened Wrappers
  import opened Bytes
  import opened Exchange
  import opened Keys
  import opened ClientState
  import opened SendOrder
  import opened Restore
  import P = Packets

  class Client {
    var msgID: int
    var outbound: seq<Message<nat>>
    var inbound: seq<Message<nat>>
    var publications: map<nat, Publication>
    var nextRef: nat
    var pending: seq<nat>
    var store: map<string, bytes>
    var sent: seq<P.Packet>
    var delivered: seq<Delivery>

    ghost function Now(): State
      reads this
    {
      State(msgID, outbound, inbound, publications, nextRef, pending, store, sent, delivered)
    }

    constructor ()
      ensures Now() == Fresh()
    {
      msgID, outbound, inbound, publications, nextRef := 0, [], [], map[], 0;
      pending, store, sent, delivered := [], map[], [], [];
    }

    // -------------------------------------------------------------- message ids

    /** MQTTProtocol_assignMsgId: never ends when no id was assigned before and none is free. */
    method AssignMsgId() returns (id: int)
      requires 0 <= msgID <= MAX_MSG_ID
      requires msgID != 0 || !OthersInUse(outbound, 0)
      modifies this`msgID
      ensures id == 0 <==> old(msgID) != 0 && OthersInUse(outbound, old(msgID))
      ensures id != 0 ==> FirstFree(outbound, old(msgID), id) && id != old(msgID)
      ensures msgID == if id != 0 then id else old(msgID)
    {
      var start := msgID;
      id := NextId(start);
      ghost var n := 1;
      CyclicSteps(start, 1);
      while InUse(outbound, id)
        invariant 1 <= n <= MAX_MSG_ID && id == Cyclic(start, n) && id != start
        invariant msgID == start && forall m :: 1 <= m < n ==> InUse(outbound, Cyclic(start, m))
        decreases MAX_MSG_ID - n
      {
        CyclicSteps(start, n);
        if n == MAX_MSG_ID { AllTried(outbound, start); }
        id := NextId(id);
        n := n + 1;
        CyclicSteps(start, n);
        if id == start {
          AllTried(outbound, start);
          id := 0;
          break;
        }
      }
      if id != 0 {
        DistanceOfCyclic(start, n);
        assert FirstFree(outbound, start, id);
        msgID := id;
      }
    }

    // -------------------------------------------------------------- stored publications

    method StorePublication(topic: bytes, payload: bytes) returns (r: nat)
      modifies this
      ensures Now() == Alloc(old(Now()), topic, payload) && r == old(nextRef)
    {
      r := nextRef;
      publications := publications[r := Publication(topic, payload, 1)];
      nextRef := nextRef + 1;
    }

    method RemovePublication(r: nat)
      modifies this
      ensures Now() == Release(old(Now()), r)
    {
      if r in publications {
        publications := publications[r := publications[r].(refcount := publications[r].refcount - 1)];
        if publications[r].refcount == 0 {
          publications := publications - {r};
        }
      }
    }

    // -------------------------------------------------------------- socket and store

    method Write(p: P.Packet, io: SendResult)
      modifies this
      ensures Now() == Transmit(old(Now()), p, io)
    {
      if io != Failed { sent := sent + [p]; }
    }

    method Persist(key: string, record: bytes)
      modifies this
      ensures Now() == Put(old(Now()), key, record)
    {
      store := store[key := record];
    }

    /** MQTTPersistence_remove: four keys one after the other for a message sent. */
    method Unpersist(id: int)
      requires id >= 0
      modifies this
      ensures Now() == Forget(old(Now()), id)
    {
      store := store - {KeyOf(SENT5, id)};
      store := store - {KeyOf(PUBREL5, id)};
      store := store - {SentKey(id)};
      store := store - {PubrelKey(id)};
      assert store == old(store) - {KeyOf(SENT5, id), KeyOf(PUBREL5, id), SentKey(id), PubrelKey(id)};
    }

    method UnpersistReceived(id: int)
      requires id >= 0
      modifies this
      ensures Now() == ForgetReceived(old(Now()), id)
    {
      store := store - {KeyOf(RECEIVED5, id)};
      store := store - {ReceivedKey(id)};
      assert store == old(store) - {KeyOf(RECEIVED5, id), ReceivedKey(id)};
    }

    method ProcessPublication(d: Delivery)
      modifies this
      ensures Now() == Hand(old(Now()), d)
    {
      delivered := delivered + [d];
    }

    /** MQTTPacket_send_publish: the record is put before the bytes go out. */
    method SendPublish(p: P.Packet, io: SendResult)
      requires p.Publish? && (p.qos == 1 || p.qos == 2) && p.msgid >= 0
      modifies this
      ensures Now() == ClientState.SendPublish(old(Now()), p, io)
    {
      var record := P.SendPublish(p);
      Persist(SentKey(p.msgid), record);
      Write(p, io);
    }

    method SendPubrel(id: int, io: SendResult)
      requires id >= 0
      modifies this
      ensures Now() == ClientState.SendPubrel(old(Now()), id, io)
    {
      var p := P.Ack(P.Pubrel, false, id);
      Persist(PubrelKey(id), P.Serialized(p));
      Write(p, io);
    }

    // -------------------------------------------------------------- sending

    method CreateMessage(id: int, qos: int, retain: bool, topic: bytes, payload: bytes,
                         shared: Option<nat>, clock: int) returns (m: Message<nat>)
      requires shared.Some? ==> shared.value in publications
      modifies this
      ensures Now() == Refer(old(Now()), topic, payload, shared)
      ensures m == Message(id, qos, retain, if qos == 2 then AwaitPubrec else Unset, clock, RefOf(old(Now()), shared))
    {
      var r;
      if shared.None? {
        r := StorePublication(topic, payload);
      } else {
        r := shared.value;
        publications := publications[r := publications[r].(refcount := publications[r].refcount + 1)];
      }
      m := Message(id, qos, retain, Unset, clock, r);
      if qos == 2 { m := m.(next := AwaitPubrec); }
    }

    method StartPublish(id: int, qos: int, retain: bool, topic: bytes, payload: bytes,
                        shared: Option<nat>, clock: int, io: SendResult)
      requires 0 <= qos <= 2 && id >= 0
      requires shared.Some? ==> shared.value in publications
      modifies this
      ensures Now() == if qos == 0 then StartPublish0(old(Now()), retain, topic, payload, io)
                       else ClientState.StartPublish(old(Now()), id, qos, retain, topic, payload, shared, clock, io)
    {
      if qos > 0 {
        var m := CreateMessage(id, qos, retain, topic, payload, shared, clock);
        outbound := outbound + [m];
        var pub := publications[m.body];
        SendPublish(P.Publish(false, qos, retain, pub.topic, id, pub.payload), io);
      } else {
        Write(P.Publish(false, 0, retain, topic, 0, payload), io);
        if io == Interrupted {
          var r := StorePublication(topic, payload);
          pending := pending + [r];
        }
      }
    }

    method HandlePubacks(id: int)
      requires id >= 0
      modifies this
      ensures Now() == OnPubackS(old(Now()), id)
    {
      var i := IndexOf(outbound, id);
      if i < |outbound| && outbound[i].qos == 1 {
        Unpersist(id);
        RemovePublication(outbound[i].body);
        outbound := RemoveAt(outbound, i);
      }
    }

    method HandlePubrecs(id: int, clock: int, io: SendResult)
      requires id >= 0
      modifies this
      ensures Now() == OnPubrecS(old(Now()), id, clock, io)
    {
      var i := IndexOf(outbound, id);
      if i < |outbound| && outbound[i].qos == 2 && outbound[i].next == AwaitPubrec {
        SendPubrel(id, io);
        var m := outbound[i];
        outbound := outbound[i := m.(next := AwaitPubcomp)];
        m := outbound[i];
        outbound := outbound[i := m.(lastTouch := clock)];
      }
    }

    method HandlePubcomps(id: int)
      requires id >= 0
      modifies this
      ensures Now() == OnPubcompS(old(Now()), id)
    {
      var i := IndexOf(outbound, id);
      if i < |outbound| && outbound[i].qos == 2 && outbound[i].next == AwaitPubcomp {
        Unpersist(id);
        RemovePublication(outbound[i].body);
        outbound := RemoveAt(outbound, i);
      }
    }

    // -------------------------------------------------------------- receiving

    /** MQTTPacket_Factory puts the record of a QoS 2 PUBLISH before the handler runs. */
    method Receive(p: P.Packet)
      requires p.Publish? && 0 <= p.qos < 4 && p.msgid >= 0
      modifies this
      ensures Now() == StoreReceived(old(Now()), p)
    {
      if p.qos == 2 {
        var record := P.SendPublish(p);
        Persist(ReceivedKey(p.msgid), record);
      }
    }

    /** The new entry is inserted before the one it replaces, which then goes. */
    method HandlePublishes(p: P.Packet, waiting: bool, io: SendResult)
      requires p.Publish? && 0 <= p.qos < 4 && p.msgid >= 0
      modifies this
      ensures Now() == OnPublishS(old(Now()), p, waiting, io)
    {
      var d := Delivery(p.qos, p.retain, p.msgid, p.topic, p.payload);
      if p.qos == 0 {
        ProcessPublication(d);
      } else if waiting {
      } else if p.qos == 1 {
        Write(P.Ack(P.Puback, false, p.msgid), io);
        ProcessPublication(d);
      } else if p.qos == 2 {
        var r := StorePublication(p.topic, p.payload);
        var m := Message(p.msgid, 2, p.retain, AwaitPubrel, 0, r);
        var i := IndexOf(inbound, p.msgid);
        if i < |inbound| {
          RemovePublication(inbound[i].body);
          Replace(i, m);
        } else {
          inbound := inbound + [m];
        }
        Write(P.Ack(P.Pubrec, false, p.msgid), io);
      }
    }

    /** ListInsert in front of the old entry, then ListRemove of it. */
    method Replace(i: nat, m: Message<nat>)
      requires i < |inbound|
      modifies this
      ensures Now() == old(Now()).(inbound := old(inbound)[i := m])
    {
      inbound := inbound[..i] + [m] + inbound[i..];
      inbound := RemoveAt(inbound, i + 1);
      assert inbound == old(inbound)[i := m];
    }

    method HandlePubrels(id: int, dup: bool, waiting: bool, io: SendResult)
      requires id >= 0
      modifies this
      ensures Now() == OnPubrelS(old(Now()), id, dup, waiting, io)
    {
      var i := IndexOf(inbound, id);
      if i == |inbound| {
        if dup && !waiting { Write(P.Ack(P.Pubcomp, false, id), io); }
      } else {
        var m := inbound[i];
        if m.qos == 2 && m.next == AwaitPubrel && !waiting { CompleteReceipt(i, id, io); }
      }
    }

    /** PUBCOMP goes out, the message is handed on, its record and its publication are dropped. */
    method CompleteReceipt(i: nat, id: int, io: SendResult)
      requires i < |inbound| && id >= 0
      modifies this
      ensures Now() == Complete(old(Now()), i, id, io)
    {
      var m := inbound[i];
      Write(P.Ack(P.Pubcomp, false, id), io);
      var d := Delivery(m.qos, m.retain, m.msgid, [], []);
      if m.body in publications {
        d := d.(topic := publications[m.body].topic, payload := publications[m.body].payload);
      }
      ProcessPublication(d);
      UnpersistReceived(id);
      publications := publications - {m.body};
      inbound := RemoveAt(inbound, i);
    }

    // -------------------------------------------------------------- retries and housekeeping

    /** MQTTProtocol_retries; `io[k]` is what the socket does at entry k. */
    method Retries(t: RetryTime, io: seq<RetryIo>)
      requires IdsNonNegative(outbound)
      modifies this
      ensures Now() == if !t.regardless && t.interval <= 0 then old(Now()) else RetryS(old(Now()), 0, t, io)
    {
      if !t.regardless && t.interval <= 0 { return; }
      var k, good := 0, true;
      ghost var goal := RetryS(Now(), 0, t, io);
      while k < |outbound| && k < |io| && good && !io[k].Stop?
        invariant 0 <= k <= |outbound| && IdsNonNegative(outbound)
        invariant goal == if good then RetryS(Now(), k, t, io) else Now()
        decreases |outbound| - k, if good then 1 else 0
      {
        var m := outbound[k];
        if Due(m, t) && ResendsPublish(m) {
          if m.body in publications {
            var pub := publications[m.body];
            SendPublish(P.Publish(true, m.qos, m.retain, pub.topic, m.msgid, pub.payload), io[k].result);
          }
          if io[k].result == Failed { good := false; }
          else { outbound := outbound[k := m.(lastTouch := t.clock)]; }
        } else if Due(m, t) && ResendsPubrel(m) {
          SendPubrel(m.msgid, io[k].result);
          if io[k].result != Sent { good := false; }
          else { outbound := outbound[k := m.(lastTouch := t.clock)]; }
        }
        if good { k := k + 1; }
      }
    }

    /** MQTTProtocol_checkPendingWrites: `done` says in turn whether a write has been completed. */
    method CheckPendingWrites(done: seq<bool>)
      requires |pending| <= |done|
      modifies this
      ensures Now() == CheckPending(old(Now()), 0, done)
    {
      var i, j := 0, 0;
      ghost var goal := CheckPending(Now(), 0, done);
      assert done[0..] == done;
      while i < |pending|
        invariant 0 <= i <= |pending| && 0 <= j <= |done| && |pending| - i <= |done| - j
        invariant goal == CheckPending(Now(), i, done[j..])
        decreases |pending| - i
      {
        assert done[j..][1..] == done[j + 1..];
        if done[j] {
          RemovePublication(pending[i]);
          pending := RemoveAt(pending, i);
        } else {
          i := i + 1;
        }
        j := j + 1;
      }
    }

    /** The publications of a list, released in turn. */
    method ReleaseList(bodies: seq<nat>)
      modifies this
      ensures Now() == ReleaseAll(old(Now()), bodies)
    {
      var i := 0;
      ghost var goal := ReleaseAll(Now(), bodies);
      assert bodies[0..] == bodies;
      while i < |bodies|
        invariant 0 <= i <= |bodies| && goal == ReleaseAll(Now(), bodies[i..])
      {
        assert bodies[i..][1..] == bodies[i + 1..];
        RemovePublication(bodies[i]);
        i := i + 1;
      }
    }

    method CleanSession()
      modifies this
      ensures Now() == Clean(old(Now()))
    {
      store := map[];
      ReleaseList(BodiesOf(inbound));
      inbound := [];
      ReleaseList(BodiesOf(outbound));
      outbound := [];
      msgID := 0;
    }

    // -------------------------------------------------------------- restart

    /** One key of the store, as MQTTPersistence_restore treats it. */
    method RestoreKey(key: string, clock: int) returns (r: RestoreResult)
      modifies this
      ensures Fits(r, Restore.RestoreKey(old(Now()), key, clock), Now())
    {
      var branch := BranchOf(key);
      if branch == Skipped { return Restored; }
      if key !in store { return GetFailed; }
      if branch == Version5 { return VersionFailed; }
      var pack := P.RestorePacket(store[key]);
      if pack.Bad? {
        store := store - {key};
        return Restored;
      }
      if pack.Good? && pack.packet.msgid >= 0 {
        r := RestorePack(key, pack.packet, clock);
      } else {
        r := if pack.Foreign? && branch == Unknown then Restored else Unmodelled;
      }
    }

    method RestorePack(key: string, p: P.Packet, clock: int) returns (r: RestoreResult)
      requires p.msgid >= 0
      modifies this
      ensures Fits(r, RestorePacketAt(old(Now()), key, p, clock), Now())
    {
      var branch := BranchOf(key);
      r := Restored;
      if branch == ForReceived && p.Publish? {
        var m := CreateMessage(p.msgid, p.qos, p.retain, p.topic, p.payload, None, clock);
        m := m.(next := AwaitPubrel);
        inbound := inbound + [m];
      } else if branch == ForSent && p.Publish? {
        var m := CreateMessage(p.msgid, p.qos, p.retain, p.topic, p.payload, None, clock);
        if PubrelKey(p.msgid) in store { m := m.(next := AwaitPubcomp); }
        m := m.(lastTouch := 0);
        outbound := InsertById(outbound, m);
      } else if branch == ForPubrel && p.Ack? {
        if SentKey(p.msgid) !in store { store := store - {key}; }
      } else if branch == ForReceived || branch == ForSent || branch == ForPubrel {
        r := Unmodelled;
      }
    }

    /** MQTTPersistence_restore over the keys that the store lists. */
    method RestoreAll(keys: seq<string>, clock: int) returns (r: RestoreResult)
      modifies this
      ensures Fits(r, Restore.RestoreAll(old(Now()), keys, clock), Now())
    {
      r := Restored;
      var i := 0;
      ghost var goal := RestoreKeys(Now(), keys, clock);
      assert keys[0..] == keys;
      while r == Restored && i < |keys|
        invariant 0 <= i <= |keys|
        invariant r == Restored ==> goal == RestoreKeys(Now(), keys[i..], clock)
        invariant r != Restored ==> Fits(r, goal, Now())
        decreases |keys| - i, if r == Restored then 1 else 0
      {
        assert keys[i..][1..] == keys[i + 1..];
        r := RestoreKey(keys[i], clock);
        i := i + 1;
      }
      if r == Restored || r == GetFailed { outbound := Wrapped(outbound); }
    }
  }

  datatype RestoreResult = Restored | GetFailed | VersionFailed | Unmodelled

  /** A result and a new state that fit what the specification says. */
  ghost predicate Fits(r: RestoreResult, spec: Restoring, now: State) {
    match spec
    case Going(d) => r == Restored && now == d
    case NoRecord(d) => r == GetFailed && now == d
    case NewerVersion(d) => r == VersionFailed && now == d
    case Undefined => r == Unmodelled
  }

  function Fresh(): State {
    State(0, [], [], map[], 0, [], map[], [], [])
  }

  /** Every id but the start lies within one round. */
  lemma AllTried(ms: seq<Message<nat>>, start: int)
    requires 0 <= start <= MAX_MSG_ID
    requires forall m :: 1 <= m < MAX_MSG_ID ==> InUse(ms, Cyclic(start, m))
    requires start == 0 ==> InUse(ms, Cyclic(start, MAX_MSG_ID))
    ensures OthersInUse(ms, start)
  {
    forall id | 1 <= id <= MAX_MSG_ID && id != start ensures InUse(ms, id) {
      assert Cyclic(start, Distance(start, id)) == id;
    }
  }

  lemma DistanceOfCyclic(start: int, n: int)
    requires 0 <= start <= MAX_MSG_ID && 1 <= n <= MAX_MSG_ID
    ensures Distance(start, Cyclic(start, n)) == n
  {
  }
}
