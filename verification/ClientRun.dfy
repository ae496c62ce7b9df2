/** Every run of one client: its calls, the packets that arrive, and crashes between handlers. */
module ClientRun {
  import opened Wrappers
  import opened Sequences
  import opened Bytes
  import opened Exchange
  import opened Keys
  import opened ClientState
  import opened Ownership
  import opened Restore
  import opened Mirror
  import opened MirrorSteps
  import opened CrashRestore
  import opened Client
  import P = Packets

  datatype Event =
    | Publish(id: int, qos: int, retain: bool, topic: bytes, payload: bytes, shared: Option<nat>, clock: int, io: SendResult)
    | Publish0(retain: bool, topic: bytes, payload: bytes, io: SendResult)
    | Puback(id: int)
    | Pubrec(id: int, clock: int, io: SendResult)
    | Pubcomp(id: int)
    | Arrival(p: P.Packet, waiting: bool, io: SendResult)
    | Pubrel(id: int, dup: bool, waiting: bool, io: SendResult)
    | Retry(t: RetryTime, tries: seq<RetryIo>)
    | WritesChecked(done: seq<bool>)
    | CleanStart
    | Crash(keys: seq<string>, clock: int)

  /** A publish takes an id that no message in flight holds; ids on the wire have two bytes. */
  ghost predicate Enabled(s: State, e: Event) {
    match e
    case Publish(id, qos, _, topic, _, shared, _, _) =>
      && 1 <= id <= MAX_MSG_ID && !InUse(s.outbound, id)
      && (qos == 1 || qos == 2) && |topic| < 0x1_0000
      && (shared.Some? ==> shared.value in BodiesOf(s.outbound))
    case Publish0(_, _, _, _) => true
    case Puback(id) => IsId(id)
    case Pubrec(id, _, _) => IsId(id)
    case Pubcomp(id) => IsId(id)
    case Arrival(p, _, _) => Receivable(p)
    case Pubrel(id, _, _, _) => IsId(id)
    case Retry(_, _) => IdsNonNegative(s.outbound)
    case WritesChecked(done) => |s.pending| <= |done|
    case CleanStart => true
    case Crash(keys, clock) => Enumerates(keys, s.store) && RestoreAll(Restarted(s), keys, clock).Going?
  }

  ghost function Next(s: State, e: Event): State {
    if !Enabled(s, e) then s
    else
      match e
      case Publish(id, qos, retain, topic, payload, shared, clock, io) =>
        if shared.Some? && shared.value !in s.publications then s
        else StartPublish(s.(msgID := id), id, qos, retain, topic, payload, shared, clock, io)
      case Publish0(retain, topic, payload, io) => StartPublish0(s, retain, topic, payload, io)
      case Puback(id) => OnPubackS(s, id)
      case Pubrec(id, clock, io) => OnPubrecS(s, id, clock, io)
      case Pubcomp(id) => OnPubcompS(s, id)
      case Arrival(p, waiting, io) => OnPublishS(StoreReceived(s, p), p, waiting, io)
      case Pubrel(id, dup, waiting, io) => OnPubrelS(s, id, dup, waiting, io)
      case Retry(t, tries) => RetryS(s, 0, t, tries)
      case WritesChecked(done) => CheckPending(s, 0, done)
      case CleanStart => Clean(s)
      case Crash(keys, clock) => RestoreAll(Restarted(s), keys, clock).state
  }

  ghost function Run(s: State, es: seq<Event>): State
    decreases |es|
  {
    if es == [] then s else Run(Next(s, es[0]), es[1..])
  }

  /** References and publications agree, the store mirrors the lists, ids are distinct. */
  ghost predicate Sane(s: State) {
    Owned(s) && Mirrored(s) && DistinctIds(s.inbound)
  }

  lemma FreshSane()
    ensures Sane(Fresh())
  {
    assert Owners(Fresh()) == multiset{};
    EmptyMirrored(Fresh());
  }

  /** Every shared publication of an outbound message has a topic that fits. */
  lemma SharedText(s: State, shared: nat)
    requires Owned(s) && Mirrored(s) && shared in BodiesOf(s.outbound)
    ensures shared in s.publications && |s.publications[shared].topic| < 0x1_0000
  {
    var i :| 0 <= i < |s.outbound| && BodiesOf(s.outbound)[i] == shared;
    OutboundBody(s, i);
    ViewNext(s, i);
  }

  lemma PublishAllowed(s: State, e: Event)
    requires Owned(s) && Mirrored(s) && e.Publish? && Enabled(s, e)
    ensures var s1 := s.(msgID := e.id);
            && Publishable(s1, e.id, e.qos, e.topic, e.shared) && Owned(s1) && Mirrored(s1)
            && Next(s, e) == StartPublish(s1, e.id, e.qos, e.retain, e.topic, e.payload, e.shared, e.clock, e.io)
  {
    var s1 := s.(msgID := e.id);
    hide Owned, Mirrored, StartPublish, InUse;
    if e.shared.Some? { SharedText(s, e.shared.value); }
    SameOwners(s, s1);
    MirrorFrame(s, s1);
  }

  lemma PublishKeeps(s: State, e: Event)
    requires Sane(s) && e.Publish? && Enabled(s, e)
    ensures Sane(Next(s, e))
  {
    var s1 := s.(msgID := e.id);
    PublishAllowed(s, e);
    assert (e.qos == 1 || e.qos == 2) && e.id >= 0 && DistinctIds(s1.inbound);
    assert e.shared.Some? ==> e.shared.value in BodiesOf(s1.outbound) && e.shared.value in s1.publications;
    hide Owned, Mirrored, StartPublish, Publishable, Enabled, Next, DistinctIds;
    StartPublishOwned(s1, e.id, e.qos, e.retain, e.topic, e.payload, e.shared, e.clock, e.io);
    StartPublishMirrored(s1, e.id, e.qos, e.retain, e.topic, e.payload, e.shared, e.clock, e.io);
    PublishStore(s1, e.id, e.qos, e.retain, e.topic, e.payload, e.shared, e.clock, e.io);
  }

  lemma ArrivalKeeps(s: State, e: Event)
    requires Sane(s) && e.Arrival? && Receivable(e.p)
    ensures Sane(Next(s, e))
  {
    var s1, p := StoreReceived(s, e.p), e.p;
    assert Next(s, e) == OnPublishS(s1, p, e.waiting, e.io) by { hide StoreReceived, OnPublishS; }
    hide Owned, Mirrored, StoreReceived, LedgerOf, Next, DistinctIds, OnPublishS, OnPublish, Arrived;
    StoreReceivedMirrored(s, p);
    StoreFrame(s, p);
    SameOwners(s, s1);
    OnPublishOwned(s1, p, e.waiting, e.io);
    OnPublishMirrored(s1, p, e.waiting, e.io);
    OnPublishFrame(s1, p, e.waiting, e.io);
    ArrivedDistinct(s1.inbound, Arrived(s1, p));
  }

  lemma StoreFrame(s: State, p: P.Packet)
    requires Receivable(p)
    ensures StoreReceived(s, p) == s.(store := StoreReceived(s, p).store)
  {
  }

  lemma ArrivedDistinct(inbound: seq<Message<nat>>, m: Message<nat>)
    requires DistinctIds(inbound)
    ensures DistinctIds(OnPublish(inbound, m))
  {
  }

  lemma PubrelKeeps(s: State, e: Event)
    requires Sane(s) && e.Pubrel? && IsId(e.id)
    ensures Sane(Next(s, e))
  {
    hide Owned, Mirrored;
    OnPubrelOwned(s, e.id, e.dup, e.waiting, e.io);
    OnPubrelMirrored(s, e.id, e.dup, e.waiting, e.io);
    OnPubrelFrame(s, e.id, e.dup, e.waiting, e.io);
    var o := OnPubrel(s.inbound, e.id, e.dup, e.waiting);
    hide OnPubrelS, OnPubrel;
    if o.Deliver? { CompleteFrame(s, o.at, e.id, e.io); }
    hide Complete;
  }

  lemma AckKeeps(s: State, e: Event)
    requires Sane(s) && (e.Puback? || e.Pubrec? || e.Pubcomp?) && IsId(e.id)
    ensures Sane(Next(s, e))
  {
    hide Owned, Mirrored, DistinctIds;
    match e
    case Puback(id) =>
      OnPubackOwned(s, id);
      OnPubackMirrored(s, id);
      PubackFrame(s, id);
    case Pubrec(id, clock, io) =>
      OnPubrecOwned(s, id, clock, io);
      OnPubrecMirrored(s, id, clock, io);
    case Pubcomp(id) =>
      OnPubcompOwned(s, id);
      OnPubcompMirrored(s, id);
      PubcompFrame(s, id);
  }

  lemma {:induction false} RetryInbound(s: State, k: nat, t: RetryTime, io: seq<RetryIo>)
    requires k <= |s.outbound| && IdsNonNegative(s.outbound)
    ensures RetryS(s, k, t, io).inbound == s.inbound
    decreases |s.outbound| - k
  {
    if k == |s.outbound| || k >= |io| || io[k].Stop? {
    } else {
      var m := s.outbound[k];
      if !Due(m, t) || !(ResendsPublish(m) || ResendsPubrel(m)) {
        RetryInbound(s, k + 1, t, io);
      } else {
        ResendFrame(s, m, io[k].result);
        var s1 := Resend(s, m, io[k].result);
        hide Resend;
        RetryInbound(s1.(outbound := s1.outbound[k := m.(lastTouch := t.clock)]), k + 1, t, io);
      }
    }
  }

  lemma {:induction false} PendingInbound(s: State, i: nat, done: seq<bool>)
    requires i <= |s.pending| && |s.pending| - i <= |done|
    ensures CheckPending(s, i, done).inbound == s.inbound
    decreases |s.pending| - i
  {
    if i == |s.pending| {
    } else if done[0] {
      ReleaseFrame(s, s.pending[i]);
      PendingInbound(Release(s, s.pending[i]).(pending := RemoveAt(s.pending, i)), i, done[1..]);
    } else {
      PendingInbound(s, i + 1, done[1..]);
    }
  }

  lemma HousekeepingKeeps(s: State, e: Event)
    requires Sane(s) && Enabled(s, e) && (e.Publish0? || e.Retry? || e.WritesChecked?)
    ensures Sane(Next(s, e))
  {
    hide Owned, Mirrored, DistinctIds, RetryS, CheckPending;
    match e
    case Publish0(retain, topic, payload, io) =>
      StartPublish0Owned(s, retain, topic, payload, io);
      StartPublish0Mirrored(s, retain, topic, payload, io);
      StartPublish0Frame(s, retain, topic, payload, io);
    case Retry(t, tries) =>
      RetryOwned(s, 0, t, tries);
      RetryMirrored(s, 0, t, tries);
      RetryInbound(s, 0, t, tries);
    case WritesChecked(done) =>
      CheckPendingOwned(s, 0, done);
      CheckPendingMirrored(s, 0, done);
      PendingInbound(s, 0, done);
  }

  lemma CleanKeeps(s: State)
    requires Sane(s)
    ensures Sane(Clean(s))
  {
    CleanOwned(s);
    ReleaseAllFrame(s.(store := map[]), BodiesOf(s.inbound));
    var s1 := ReleaseAll(s.(store := map[]), BodiesOf(s.inbound)).(inbound := []);
    ReleaseAllFrame(s1, BodiesOf(s1.outbound));
    hide Owned, Mirrored;
    EmptyMirrored(Clean(s));
  }

  lemma CrashKeeps(s: State, e: Event)
    requires Sane(s) && e.Crash? && Enumerates(e.keys, s.store)
    ensures Enabled(s, e) && Sane(Next(s, e))
  {
    hide Owned, Mirrored, DistinctIds, RestoreAll;
    CrashRestored(s, e.keys, e.clock);
  }

  lemma NextSane(s: State, e: Event)
    requires Sane(s)
    ensures Sane(Next(s, e))
  {
    hide Sane;
    if Enabled(s, e) {
      if e.Publish? { PublishKeeps(s, e); }
      else if e.Arrival? { ArrivalKeeps(s, e); }
      else if e.Pubrel? { PubrelKeeps(s, e); }
      else if e.Puback? || e.Pubrec? || e.Pubcomp? { AckKeeps(s, e); }
      else if e.CleanStart? { CleanKeeps(s); }
      else if e.Crash? { CrashKeeps(s, e); }
      else { HousekeepingKeeps(s, e); }
    }
  }

  /** In every reachable state, over any number of crashes and restarts. */
  lemma {:induction false} RunSane(s: State, es: seq<Event>)
    requires Sane(s)
    ensures Sane(Run(s, es))
    decreases |es|
  {
    hide Sane;
    if es != [] {
      NextSane(s, es[0]);
      RunSane(Next(s, es[0]), es[1..]);
    }
  }

  /** What one run does, a crash at its end does not undo. */
  lemma RunSurvivesCrash(es: seq<Event>, keys: seq<string>, clock: int)
    requires Enumerates(keys, Run(Fresh(), es).store)
    ensures var s := Run(Fresh(), es);
            var r := RestoreAll(Restarted(s), keys, clock);
            && r.Going? && Sane(r.state) && r.state.store == s.store
            && multiset(Views(r.state.publications, r.state.outbound)) == multiset(Views(s.publications, s.outbound))
            && (forall id :: InUse(s.inbound, id) ==> InUse(r.state.inbound, id))
            && FromRecords(s.store, Views(r.state.publications, r.state.inbound), [])
  {
    FreshSane();
    RunSane(Fresh(), es);
    var s := Run(Fresh(), es);
    hide Owned, Mirrored, DistinctIds, RestoreAll, InUse, Run;
    CrashRestored(s, keys, clock);
  }

  // ---------------------------------------------------------------- the lists of the two-endpoint system

  /** The list changes as in the system of two endpoints, which keeps a tag for the body; a PUBREL answers a PUBREC that counts. */
  lemma AcknowledgedLists(s: State, id: nat, clock: int, io: SendResult)
    ensures OnPubackS(s, id).outbound == Settle(s.outbound, OnPuback(s.outbound, id), clock)
    ensures OnPubrecS(s, id, clock, io).outbound == Settle(s.outbound, OnPubrec(s.outbound, id, false), clock)
    ensures OnPubcompS(s, id).outbound == Settle(s.outbound, OnPubcomp(s.outbound, id), clock)
    ensures OnPubackS(s, id).sent == s.sent && OnPubcompS(s, id).sent == s.sent
    ensures OnPubrecS(s, id, clock, io).sent
         == if OnPubrec(s.outbound, id, false).Advance? && io != Failed then s.sent + [P.Ack(P.Pubrel, false, id)] else s.sent
  {
    var a, c := OnPuback(s.outbound, id), OnPubcomp(s.outbound, id);
    if a.Remove? { ReleaseFrame(Forget(s, id), s.outbound[a.at].body); }
    if c.Remove? { ReleaseFrame(Forget(s, id), s.outbound[c.at].body); }
    hide KeyOf, P.Serialized, Release, IndexOf, RemoveAt;
  }

  /** The packet that a retry sends for an entry. */
  function Again(s: State, m: Message<nat>): P.Packet {
    if ResendsPublish(m) then
      var text := TextOf(s.publications, m.body);
      P.Publish(true, m.qos, m.retain, text.topic, m.msgid, text.payload)
    else P.Ack(P.Pubrel, false, m.msgid)
  }

  function AgainAll(s: State, ms: seq<Message<nat>>, at: seq<nat>): (ps: seq<P.Packet>)
    requires forall j :: 0 <= j < |at| ==> at[j] < |ms|
    ensures |ps| == |at| && forall j :: 0 <= j < |at| ==> ps[j] == Again(s, ms[at[j]])
  {
    seq(|at|, j requires 0 <= j < |at| => Again(s, ms[at[j]]))
  }

  ghost predicate BodiesStored(s: State) {
    forall i :: 0 <= i < |s.outbound| ==> s.outbound[i].body in s.publications
  }

  lemma ResendSends(s: State, m: Message<nat>, io: SendResult)
    requires m.msgid >= 0 && m.body in s.publications && (ResendsPublish(m) || ResendsPubrel(m))
    ensures var d := Resend(s, m, io);
            && d == s.(sent := d.sent, store := d.store)
            && d.sent == if io == Failed then s.sent else s.sent + [Again(s, m)]
  {
    hide KeyOf, P.Serialized;
  }

  /** What is sent again, with one more entry in front, and after that entry was touched. */
  lemma AgainGoesOn(s: State, d: State, k: nat, clock: int, at: seq<nat>)
    requires k < |s.outbound| && (forall j :: 0 <= j < |at| ==> at[j] < |s.outbound|)
    requires d.publications == s.publications && d.outbound == s.outbound[k := s.outbound[k].(lastTouch := clock)]
    ensures AgainAll(s, s.outbound, [k] + at) == [Again(s, s.outbound[k])] + AgainAll(d, d.outbound, at)
  {
    var a, b := AgainAll(s, s.outbound, [k] + at), [Again(s, s.outbound[k])] + AgainAll(d, d.outbound, at);
    hide AgainAll, ResendsPublish;
    forall j | 0 <= j < |a| ensures a[j] == b[j] {
      if j > 0 {
        assert ([k] + at)[j] == at[j - 1];
        SameAgain(s, d, k, clock, at[j - 1]);
      }
    }
  }

  lemma SameAgain(s: State, d: State, k: nat, clock: int, i: nat)
    requires k < |s.outbound| && i < |s.outbound|
    requires d.publications == s.publications && d.outbound == s.outbound[k := s.outbound[k].(lastTouch := clock)]
    ensures Again(d, d.outbound[i]) == Again(s, s.outbound[i])
  {
  }

  /** A retry touches and sends what the decision of the shared retry loop says, entry for entry. */
  lemma {:induction false} RetryAgrees(s: State, k: nat, t: RetryTime, io: seq<RetryIo>)
    requires k <= |s.outbound| && IdsNonNegative(s.outbound) && BodiesStored(s)
    ensures var d, r := RetryS(s, k, t, io), RetryFrom(s.outbound, k, t, io);
            && d.outbound == r.list && (forall j :: 0 <= j < |r.sent| ==> r.sent[j] < |s.outbound|)
            && d.sent == s.sent + AgainAll(s, s.outbound, r.sent)
    decreases |s.outbound| - k
  {
    if k == |s.outbound| || k >= |io| || io[k].Stop? {
    } else {
      var m := s.outbound[k];
      hide Due, ResendsPublish, ResendsPubrel, Resend, P.Serialized;
      if !Due(m, t) || !(ResendsPublish(m) || ResendsPubrel(m)) {
        RetryAgrees(s, k + 1, t, io);
      } else {
        ResendSends(s, m, io[k].result);
        var s1 := Resend(s, m, io[k].result);
        if io[k].result == Failed || (ResendsPubrel(m) && io[k].result != Sent) {
          RetryStopsAgree(s, k, t, io);
        } else {
          var s2 := s1.(outbound := s1.outbound[k := m.(lastTouch := t.clock)]);
          assert GoesOn(s, k, t, io, s2) && IdsNonNegative(s2.outbound) && BodiesStored(s2);
          hide GoesOn, IdsNonNegative, BodiesStored, RetryS, RetryFrom;
          RetryAgrees(s2, k + 1, t, io);
          RetryGoesOn(s, k, t, io, s2);
        }
      }
    }
  }

  lemma RetryStopsAgree(s: State, k: nat, t: RetryTime, io: seq<RetryIo>)
    requires k < |s.outbound| && k < |io| && io[k].Io? && IdsNonNegative(s.outbound) && BodiesStored(s)
    requires var m := s.outbound[k];
             && Due(m, t) && (ResendsPublish(m) || ResendsPubrel(m))
             && (io[k].result == Failed || (ResendsPubrel(m) && io[k].result != Sent))
    ensures var d, r := RetryS(s, k, t, io), RetryFrom(s.outbound, k, t, io);
            && d.outbound == r.list && (forall j :: 0 <= j < |r.sent| ==> r.sent[j] < |s.outbound|)
            && d.sent == s.sent + AgainAll(s, s.outbound, r.sent)
  {
    var m := s.outbound[k];
    ResendSends(s, m, io[k].result);
    hide Due, ResendsPublish, ResendsPubrel, Resend, P.Serialized;
    assert AgainAll(s, s.outbound, [k]) == [Again(s, m)];
  }

  /** One entry is sent again and touched. */
  ghost predicate GoesOn(s: State, k: nat, t: RetryTime, io: seq<RetryIo>, s2: State) {
    && k < |s.outbound| && k < |io| && io[k].Io? && IdsNonNegative(s.outbound) && BodiesStored(s)
    && var m := s.outbound[k];
    && Due(m, t) && (ResendsPublish(m) || ResendsPubrel(m))
    && !(io[k].result == Failed || (ResendsPubrel(m) && io[k].result != Sent))
    && s2 == Resend(s, m, io[k].result).(outbound := s.outbound[k := m.(lastTouch := t.clock)])
  }

  lemma RetryUnfolds(s: State, k: nat, t: RetryTime, io: seq<RetryIo>, s2: State)
    requires GoesOn(s, k, t, io, s2)
    ensures IdsNonNegative(s2.outbound) && RetryS(s, k, t, io) == RetryS(s2, k + 1, t, io)
    ensures var rest := RetryFrom(s2.outbound, k + 1, t, io);
            RetryFrom(s.outbound, k, t, io) == Retried(rest.list, [k] + rest.sent)
  {
    ResendSends(s, s.outbound[k], io[k].result);
    hide Due, ResendsPublish, ResendsPubrel, Resend;
  }

  lemma RetryGoesOn(s: State, k: nat, t: RetryTime, io: seq<RetryIo>, s2: State)
    requires GoesOn(s, k, t, io, s2) && IdsNonNegative(s2.outbound)
    requires var d, r := RetryS(s2, k + 1, t, io), RetryFrom(s2.outbound, k + 1, t, io);
             && d.outbound == r.list && (forall j :: 0 <= j < |r.sent| ==> r.sent[j] < |s2.outbound|)
             && d.sent == s2.sent + AgainAll(s2, s2.outbound, r.sent)
    ensures var d, r := RetryS(s, k, t, io), RetryFrom(s.outbound, k, t, io);
            && d.outbound == r.list && (forall j :: 0 <= j < |r.sent| ==> r.sent[j] < |s.outbound|)
            && d.sent == s.sent + AgainAll(s, s.outbound, r.sent)
  {
    var m, rest := s.outbound[k], RetryFrom(s2.outbound, k + 1, t, io);
    RetryUnfolds(s, k, t, io, s2);
    ResendSends(s, m, io[k].result);
    assert s2.outbound == s.outbound[k := m.(lastTouch := t.clock)] && s2.sent == s.sent + [Again(s, m)];
    assert s2.publications == s.publications;
    AgainGoesOn(s, s2, k, t.clock, rest.sent);
    hide *;
    Associative(s.sent, [Again(s, m)], AgainAll(s2, s2.outbound, rest.sent));
  }
}
