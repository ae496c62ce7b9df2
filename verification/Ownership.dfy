/** Every stored publication is counted exactly as often as it is owned. */
module Ownership {
  import opened Wrappers
  import opened Bytes
  import opened Exchange
  import opened ClientState
  import P = Packets

  function Owners(s: State): multiset<nat> {
    multiset(BodiesOf(s.outbound)) + multiset(BodiesOf(s.inbound)) + multiset(s.pending)
  }

  /** The counts match the owners, nothing dangles, nothing leaks; inbound messages share with nobody. */
  ghost predicate Counted(pubs: map<nat, Publication>, owners: multiset<nat>, next: nat) {
    && (forall r :: r in pubs ==> r < next && pubs[r].refcount == owners[r] && owners[r] > 0)
    && (forall r :: r in owners ==> r in pubs)
  }

  ghost predicate Owned(s: State) {
    && Counted(s.publications, Owners(s), s.nextRef)
    && forall i :: 0 <= i < |s.inbound| ==> Owners(s)[s.inbound[i].body] == 1
  }

  // ---------------------------------------------------------------- bodies of changed lists

  lemma BodiesAppend(ms: seq<Message<nat>>, m: Message<nat>)
    ensures multiset(BodiesOf(ms + [m])) == multiset(BodiesOf(ms)) + multiset{m.body}
  {
    assert BodiesOf(ms + [m]) == BodiesOf(ms) + [m.body];
  }

  lemma BodiesRemove(ms: seq<Message<nat>>, i: nat)
    requires i < |ms|
    ensures multiset(BodiesOf(RemoveAt(ms, i))) == multiset(BodiesOf(ms)) - multiset{ms[i].body}
    ensures ms[i].body in multiset(BodiesOf(ms))
  {
    var b := BodiesOf(ms);
    assert BodiesOf(RemoveAt(ms, i)) == b[..i] + b[i + 1..];
    assert b == b[..i] + [b[i]] + b[i + 1..];
  }

  lemma BodiesReplace(ms: seq<Message<nat>>, i: nat, m: Message<nat>)
    requires i < |ms|
    ensures multiset(BodiesOf(ms[i := m])) == multiset(BodiesOf(ms)) - multiset{ms[i].body} + multiset{m.body}
  {
    var b := BodiesOf(ms);
    assert BodiesOf(ms[i := m]) == b[i := m.body];
  }

  lemma BodiesSame(a: seq<Message<nat>>, b: seq<Message<nat>>)
    requires |a| == |b| && forall i :: 0 <= i < |a| ==> a[i].body == b[i].body
    ensures BodiesOf(a) == BodiesOf(b)
  {
  }

  lemma SeqRemove(s: seq<nat>, i: nat)
    requires i < |s|
    ensures multiset(RemoveAt(s, i)) == multiset(s) - multiset{s[i]} && s[i] in multiset(s)
  {
    assert s == s[..i] + [s[i]] + s[i + 1..];
  }

  // ---------------------------------------------------------------- the count is kept

  lemma AllocCounted(s: State, topic: bytes, payload: bytes, owners: multiset<nat>)
    requires Counted(s.publications, owners, s.nextRef)
    ensures var d := Alloc(s, topic, payload);
            Counted(d.publications, owners + multiset{s.nextRef}, d.nextRef) && owners[s.nextRef] == 0
  {
    assert s.nextRef !in owners;
  }

  lemma ShareCounted(s: State, r: nat, owners: multiset<nat>)
    requires Counted(s.publications, owners, s.nextRef) && r in s.publications
    ensures var d := Share(s, r); Counted(d.publications, owners + multiset{r}, d.nextRef)
  {
  }

  lemma ReleaseCounted(s: State, r: nat, owners: multiset<nat>)
    requires Counted(s.publications, owners, s.nextRef) && r in owners
    ensures var d := Release(s, r);
            Counted(d.publications, owners - multiset{r}, d.nextRef) && d.nextRef == s.nextRef
  {
  }

  lemma {:induction false} ReleaseAllCounted(s: State, rs: seq<nat>, owners: multiset<nat>)
    requires Counted(s.publications, owners, s.nextRef) && multiset(rs) <= owners
    ensures var d := ReleaseAll(s, rs);
            Counted(d.publications, owners - multiset(rs), d.nextRef) && d.nextRef == s.nextRef
    decreases |rs|
  {
    if rs == [] {
      assert owners - multiset(rs) == owners;
    } else {
      assert rs == [rs[0]] + rs[1..];
      assert multiset(rs) == multiset{rs[0]} + multiset(rs[1..]);
      assert rs[0] in multiset(rs);
      ReleaseCounted(s, rs[0], owners);
      ReleaseAllCounted(Release(s, rs[0]), rs[1..], owners - multiset{rs[0]});
      assert owners - multiset{rs[0]} - multiset(rs[1..]) == owners - multiset(rs);
    }
  }

  /** An inbound message shares its publication with no outbound message and no pending write. */
  lemma InboundSole(s: State, r: nat)
    requires Owned(s) && (r in BodiesOf(s.outbound) || r in s.pending)
    ensures forall j :: 0 <= j < |s.inbound| ==> s.inbound[j].body != r
  {
    assert r in multiset(BodiesOf(s.outbound)) || r in multiset(s.pending);
    forall j | 0 <= j < |s.inbound| ensures s.inbound[j].body != r {
      assert BodiesOf(s.inbound)[j] in multiset(BodiesOf(s.inbound));
      assert Owners(s)[s.inbound[j].body] == 1;
    }
  }

  lemma StartPublishOwned(s: State, id: int, qos: int, retain: bool, topic: bytes, payload: bytes,
                          shared: Option<nat>, clock: int, io: SendResult)
    requires Owned(s) && (qos == 1 || qos == 2) && id >= 0
    requires shared.Some? ==> shared.value in BodiesOf(s.outbound) && shared.value in s.publications
    ensures Owned(StartPublish(s, id, qos, retain, topic, payload, shared, clock, io))
  {
    var s1 := CreateMessage(s, id, qos, retain, topic, payload, shared, clock);
    ReferenceAdded(s, topic, payload, shared);
    hide Owned, Counted;
    OutboundAdded(s, s1.outbound[|s.outbound|], s1);
    SendFrame(s1, P.Publish(false, qos, retain, s1.publications[RefOf(s, shared)].topic, id,
                            s1.publications[RefOf(s, shared)].payload), io);
  }

  lemma SendFrame(s: State, p: P.Packet, io: SendResult)
    requires Owned(s) && p.Publish? && (p.qos == 1 || p.qos == 2) && p.msgid >= 0
    ensures Owned(SendPublish(s, p, io))
  {
    hide Owned;
    SameOwners(s, SendPublish(s, p, io));
  }

  lemma ReferenceAdded(s: State, topic: bytes, payload: bytes, shared: Option<nat>)
    requires Owned(s)
    requires shared.Some? ==> shared.value in BodiesOf(s.outbound) && shared.value in s.publications
    ensures var s1 := Refer(s, topic, payload, shared);
            && Counted(s1.publications, Owners(s) + multiset{RefOf(s, shared)}, s1.nextRef)
            && forall j :: 0 <= j < |s.inbound| ==> s.inbound[j].body != RefOf(s, shared)
  {
    if shared.None? {
      AllocCounted(s, topic, payload, Owners(s));
      assert forall j :: 0 <= j < |s.inbound| ==> Owners(s)[s.inbound[j].body] == 1;
    } else {
      ShareCounted(s, shared.value, Owners(s));
      InboundSole(s, shared.value);
    }
  }

  lemma OutboundAdded(s: State, m: Message<nat>, d: State)
    requires Owned(s) && Counted(d.publications, Owners(s) + multiset{m.body}, d.nextRef)
    requires forall j :: 0 <= j < |s.inbound| ==> s.inbound[j].body != m.body
    requires d.outbound == s.outbound + [m] && d.inbound == s.inbound && d.pending == s.pending
    ensures Owned(d)
  {
    hide Counted;
    BodiesAppend(s.outbound, m);
    assert Owners(d) == Owners(s) + multiset{m.body};
    assert forall i :: 0 <= i < |s.inbound| ==> Owners(s)[s.inbound[i].body] == 1;
  }

  lemma StartPublish0Owned(s: State, retain: bool, topic: bytes, payload: bytes, io: SendResult)
    requires Owned(s)
    ensures Owned(StartPublish0(s, retain, topic, payload, io))
  {
    var d := StartPublish0(s, retain, topic, payload, io);
    if io == Interrupted {
      PendingOwned(s, topic, payload, d);
    } else {
      SameOwners(s, d);
    }
  }

  lemma PendingOwned(s: State, topic: bytes, payload: bytes, d: State)
    requires Owned(s)
    requires d.publications == Alloc(s, topic, payload).publications && d.nextRef == s.nextRef + 1
    requires d.outbound == s.outbound && d.inbound == s.inbound && d.pending == s.pending + [s.nextRef]
    ensures Owned(d)
  {
    AllocCounted(s, topic, payload, Owners(s));
    assert Owners(d) == Owners(s) + multiset{s.nextRef};
    assert forall i :: 0 <= i < |s.inbound| ==> Owners(s)[s.inbound[i].body] == 1;
  }

  /** An outbound entry goes and gives its reference back. */
  lemma RemoveOutboundOwned(s: State, i: nat, d: State)
    requires Owned(s) && i < |s.outbound|
    requires d.publications == Release(s, s.outbound[i].body).publications && d.nextRef == s.nextRef
    requires d.outbound == RemoveAt(s.outbound, i) && d.inbound == s.inbound && d.pending == s.pending
    ensures Owned(d)
  {
    var r := s.outbound[i].body;
    BodiesRemove(s.outbound, i);
    ReleaseCounted(s, r, Owners(s));
    assert Owners(d) == Owners(s) - multiset{r};
    assert BodiesOf(s.outbound)[i] == r;
    InboundSole(s, r);
  }

  lemma OnPubackOwned(s: State, id: int)
    requires Owned(s) && id >= 0
    ensures Owned(OnPubackS(s, id))
  {
    var o := OnPuback(s.outbound, id);
    if o.Remove? { RemoveOutboundOwned(s, o.at, OnPubackS(s, id)); }
  }

  lemma OnPubcompOwned(s: State, id: int)
    requires Owned(s) && id >= 0
    ensures Owned(OnPubcompS(s, id))
  {
    var o := OnPubcomp(s.outbound, id);
    if o.Remove? { RemoveOutboundOwned(s, o.at, OnPubcompS(s, id)); }
  }

  lemma SameOwners(s: State, d: State)
    requires Owned(s) && d.publications == s.publications && d.nextRef == s.nextRef
    requires BodiesOf(d.outbound) == BodiesOf(s.outbound) && d.inbound == s.inbound && d.pending == s.pending
    ensures Owned(d)
  {
    assert Owners(d) == Owners(s);
  }

  lemma OnPubrecOwned(s: State, id: int, clock: int, io: SendResult)
    requires Owned(s) && id >= 0
    ensures Owned(OnPubrecS(s, id, clock, io))
  {
    var d := OnPubrecS(s, id, clock, io);
    BodiesSame(d.outbound, s.outbound);
    SameOwners(s, d);
  }

  lemma OnPublishOwned(s: State, p: P.Packet, pending: bool, io: SendResult)
    requires Owned(s) && p.Publish? && 0 <= p.qos < 4 && p.msgid >= 0
    ensures Owned(OnPublishS(s, p, pending, io))
  {
    hide Owned;
    var d := OnPublishS(s, p, pending, io);
    var i := IndexOf(s.inbound, p.msgid);
    if p.qos != 2 || pending {
      SameOwners(s, d);
    } else if i < |s.inbound| {
      ReplacedOwned(s, p, i, d);
    } else {
      StoredOwned(s, p, d);
    }
  }

  function Arrived(s: State, p: P.Packet): Message<nat>
    requires p.Publish?
  {
    Message(p.msgid, 2, p.retain, AwaitPubrel, 0, s.nextRef)
  }

  lemma StoredOwned(s: State, p: P.Packet, d: State)
    requires Owned(s) && p.Publish?
    requires d.publications == Alloc(s, p.topic, p.payload).publications && d.nextRef == s.nextRef + 1
    requires d.outbound == s.outbound && d.inbound == s.inbound + [Arrived(s, p)] && d.pending == s.pending
    ensures Owned(d)
  {
    BodiesAppend(s.inbound, Arrived(s, p));
    AllocCounted(s, p.topic, p.payload, Owners(s));
    assert Owners(d) == Owners(s) + multiset{s.nextRef};
    assert forall j :: 0 <= j < |s.inbound| ==> Owners(s)[s.inbound[j].body] == 1;
  }

  lemma ReplacedOwned(s: State, p: P.Packet, i: nat, d: State)
    requires Owned(s) && p.Publish? && i < |s.inbound|
    requires d.publications == Release(Alloc(s, p.topic, p.payload), s.inbound[i].body).publications
    requires d.nextRef == s.nextRef + 1 && d.pending == s.pending
    requires d.outbound == s.outbound && d.inbound == s.inbound[i := Arrived(s, p)]
    ensures Owned(d)
  {
    var r := s.inbound[i].body;
    var all := Owners(s) + multiset{s.nextRef};
    BodiesReplace(s.inbound, i, Arrived(s, p));
    AllocCounted(s, p.topic, p.payload, Owners(s));
    assert Owners(s)[r] == 1;
    ReleaseCounted(Alloc(s, p.topic, p.payload), r, all);
    assert Owners(d) == all - multiset{r};
    ReplacedInbound(s, i, Arrived(s, p), d);
  }

  lemma ReplacedInbound(s: State, i: nat, m: Message<nat>, d: State)
    requires Owned(s) && i < |s.inbound| && m.body == s.nextRef && d.inbound == s.inbound[i := m]
    requires Owners(d) == Owners(s) + multiset{s.nextRef} - multiset{s.inbound[i].body}
    ensures forall j :: 0 <= j < |d.inbound| ==> Owners(d)[d.inbound[j].body] == 1
  {
    var r := s.inbound[i].body;
    assert Owners(s)[r] == 1 && Owners(s)[s.nextRef] == 0;
    forall j | 0 <= j < |d.inbound| && j != i ensures Owners(d)[d.inbound[j].body] == 1 {
      SoleInbound(s, i, j);
    }
  }

  /** No two inbound messages share a publication. */
  lemma SoleInbound(s: State, i: nat, j: nat)
    requires Owned(s) && i < |s.inbound| && j < |s.inbound| && i != j
    ensures s.inbound[i].body != s.inbound[j].body && Owners(s)[s.inbound[j].body] == 1
    ensures s.inbound[j].body < s.nextRef
  {
    assert Owners(s)[s.inbound[j].body] == 1;
    TwiceIn(BodiesOf(s.inbound), i, j);
  }

  lemma TwiceIn(b: seq<nat>, i: nat, j: nat)
    requires i < |b| && j < |b| && i != j
    ensures b[i] == b[j] ==> multiset(b)[b[i]] >= 2
  {
    var lo, hi := if i < j then i else j, if i < j then j else i;
    assert b == b[..lo] + [b[lo]] + b[lo + 1..hi] + [b[hi]] + b[hi + 1..];
  }

  /** PUBREL drops the publication outright: right, because an inbound message is its only owner. */
  lemma OnPubrelOwned(s: State, id: int, dup: bool, pending: bool, io: SendResult)
    requires Owned(s) && id >= 0
    ensures Owned(OnPubrelS(s, id, dup, pending, io))
  {
    hide Owned;
    var d := OnPubrelS(s, id, dup, pending, io);
    var o := OnPubrel(s.inbound, id, dup, pending);
    if o.Deliver? {
      DroppedOwned(s, o.at, d);
    } else {
      SameOwners(s, d);
    }
  }

  lemma DropCounted(pubs: map<nat, Publication>, owners: multiset<nat>, next: nat, r: nat)
    requires Counted(pubs, owners, next) && owners[r] == 1
    ensures Counted(pubs - {r}, owners - multiset{r}, next)
  {
  }

  lemma DroppedOwned(s: State, i: nat, d: State)
    requires Owned(s) && i < |s.inbound|
    requires d.publications == s.publications - {s.inbound[i].body} && d.nextRef == s.nextRef
    requires d.outbound == s.outbound && d.inbound == RemoveAt(s.inbound, i) && d.pending == s.pending
    ensures Owned(d)
  {
    var r := s.inbound[i].body;
    assert Owners(s)[r] == 1;
    BodiesRemove(s.inbound, i);
    assert Owners(d) == Owners(s) - multiset{r};
    DroppedInbound(s, i, d);
    DropCounted(s.publications, Owners(s), s.nextRef, r);
    hide RemoveAt, Counted;
  }

  lemma DroppedInbound(s: State, i: nat, d: State)
    requires Owned(s) && i < |s.inbound| && d.inbound == RemoveAt(s.inbound, i)
    requires Owners(d) == Owners(s) - multiset{s.inbound[i].body}
    ensures forall j :: 0 <= j < |d.inbound| ==> Owners(d)[d.inbound[j].body] == 1
  {
    hide Counted;
    forall j | 0 <= j < |d.inbound| ensures Owners(d)[d.inbound[j].body] == 1 {
      var k := if j < i then j else j + 1;
      assert d.inbound[j] == s.inbound[k];
      SoleInbound(s, i, k);
    }
  }

  lemma ResendFrame(s: State, m: Message<nat>, io: SendResult)
    requires m.msgid >= 0
    ensures var d := Resend(s, m, io); d == s.(sent := d.sent, store := d.store)
  {
  }

  lemma TouchOwned(s: State, k: nat, clock: int)
    requires Owned(s) && k < |s.outbound|
    ensures Owned(s.(outbound := s.outbound[k := s.outbound[k].(lastTouch := clock)]))
  {
    var d := s.(outbound := s.outbound[k := s.outbound[k].(lastTouch := clock)]);
    BodiesSame(d.outbound, s.outbound);
    SameOwners(s, d);
  }

  lemma {:induction false} RetryOwned(s: State, k: nat, t: RetryTime, io: seq<RetryIo>)
    requires Owned(s) && k <= |s.outbound| && IdsNonNegative(s.outbound)
    ensures Owned(RetryS(s, k, t, io))
    decreases |s.outbound| - k
  {
    hide Owned;
    if k < |s.outbound| && k < |io| && io[k].Io? {
      var m := s.outbound[k];
      if !Due(m, t) || !(ResendsPublish(m) || ResendsPubrel(m)) {
        RetryOwned(s, k + 1, t, io);
      } else {
        var s1 := Resend(s, m, io[k].result);
        ResendFrame(s, m, io[k].result);
        SameOwners(s, s1);
        hide Resend;
        if io[k].result != Failed && (!ResendsPubrel(m) || io[k].result == Sent) {
          TouchOwned(s1, k, t.clock);
          RetryOwned(s1.(outbound := s1.outbound[k := m.(lastTouch := t.clock)]), k + 1, t, io);
        }
      }
    }
  }

  lemma {:induction false} CheckPendingOwned(s: State, i: nat, done: seq<bool>)
    requires Owned(s) && i <= |s.pending| && |s.pending| - i <= |done|
    ensures Owned(CheckPending(s, i, done))
    decreases |s.pending| - i
  {
    if i == |s.pending| {
    } else if done[0] {
      PendingDone(s, i);
      hide Owned;
      CheckPendingOwned(Release(s, s.pending[i]).(pending := RemoveAt(s.pending, i)), i, done[1..]);
    } else {
      hide Owned;
      CheckPendingOwned(s, i + 1, done[1..]);
    }
  }

  lemma PendingDone(s: State, i: nat)
    requires Owned(s) && i < |s.pending|
    ensures Owned(Release(s, s.pending[i]).(pending := RemoveAt(s.pending, i)))
  {
    var r := s.pending[i];
    var d := Release(s, r).(pending := RemoveAt(s.pending, i));
    SeqRemove(s.pending, i);
    ReleaseCounted(s, r, Owners(s));
    InboundSole(s, r);
    hide Counted;
    assert Owners(d) == Owners(s) - multiset{r};
  }

  lemma {:induction false} ReleaseAllFrame(s: State, rs: seq<nat>)
    ensures var d := ReleaseAll(s, rs);
            d == s.(publications := d.publications)
    decreases |rs|
  {
    if rs != [] { ReleaseAllFrame(Release(s, rs[0]), rs[1..]); }
  }

  lemma CleanOwned(s: State)
    requires Owned(s)
    ensures Owned(Clean(s))
  {
    var s0 := s.(store := map[]);
    var s1 := ReleaseAll(s0, BodiesOf(s.inbound)).(inbound := []);
    assert Counted(s1.publications, Owners(s1), s1.nextRef) by { InboundReleased(s0, s1); }
    ReleaseAllCounted(s1, BodiesOf(s1.outbound), Owners(s1));
    ReleaseAllFrame(s1, BodiesOf(s1.outbound));
    hide Counted, Owned;
    assert Owners(Clean(s)) == Owners(s1) - multiset(BodiesOf(s1.outbound));
    assert Owned(Clean(s)) by { NoInboundOwned(Clean(s)); }
  }

  lemma InboundReleased(s: State, s1: State)
    requires Owned(s) && s1 == ReleaseAll(s, BodiesOf(s.inbound)).(inbound := [])
    ensures Counted(s1.publications, Owners(s1), s1.nextRef)
    ensures s1.outbound == s.outbound && s1.pending == s.pending
  {
    ReleaseAllCounted(s, BodiesOf(s.inbound), Owners(s));
    ReleaseAllFrame(s, BodiesOf(s.inbound));
    assert Owners(s1) == Owners(s) - multiset(BodiesOf(s.inbound));
  }

  lemma NoInboundOwned(s: State)
    requires s.inbound == [] && Counted(s.publications, Owners(s), s.nextRef)
    ensures Owned(s)
  {
  }
}
