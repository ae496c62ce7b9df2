/** The decisions of the QoS 1/2 handlers. */
module Exchange {
  // Which entry of an in-flight list a packet concerns and what happens to it. The lists are generic in the
  // body of a message, because the client keeps a reference to a stored publication there while the two-
  // endpoint system keeps the number of the application message.

  const MAX_MSG_ID := 65535

  /** The packet an in-flight entry waits for; malloc leaves it unset for QoS 1. */
  datatype Awaited = Unset | AwaitPubrec | AwaitPubrel | AwaitPubcomp

  datatype Message<B> = Message(msgid: int, qos: int, retain: bool, next: Awaited, lastTouch: int, body: B)

  // ---------------------------------------------------------------- lists of messages

  /** The first entry with the given id, or the length of the list. */
  function IndexOf<B>(ms: seq<Message<B>>, id: int): (i: nat)
    ensures i <= |ms|
    ensures i < |ms| ==> ms[i].msgid == id
    ensures forall j :: 0 <= j < i ==> ms[j].msgid != id
  {
    if ms == [] then 0 else if ms[0].msgid == id then 0 else 1 + IndexOf(ms[1..], id)
  }

  function RemoveAt<T>(s: seq<T>, i: nat): (r: seq<T>)
    requires i < |s|
    ensures |r| == |s| - 1
  {
    s[..i] + s[i + 1..]
  }

  predicate InUse<B>(ms: seq<Message<B>>, id: int) {
    IndexOf(ms, id) < |ms|
  }

  ghost predicate DistinctIds<B>(ms: seq<Message<B>>) {
    forall i, j :: 0 <= i < j < |ms| ==> ms[i].msgid != ms[j].msgid
  }

  ghost predicate IdsInRange<B>(ms: seq<Message<B>>) {
    forall i :: 0 <= i < |ms| ==> 1 <= ms[i].msgid <= MAX_MSG_ID
  }

  // ---------------------------------------------------------------- handler decisions

  datatype Outcome = Ignore | Remove(at: nat) | Advance(at: nat)

  /** PUBACK completes a QoS 1 entry and nothing else. */
  function OnPuback<B>(out: seq<Message<B>>, id: int): Outcome {
    var i := IndexOf(out, id);
    if i == |out| || out[i].qos != 1 then Ignore else Remove(i)
  }

  /** PUBREC moves a QoS 2 entry on unless it has moved already; a version 5 error code ends it. */
  function OnPubrec<B>(out: seq<Message<B>>, id: int, refused: bool): Outcome {
    var i := IndexOf(out, id);
    if i == |out| || out[i].qos != 2 || out[i].next != AwaitPubrec then Ignore
    else if refused then Remove(i)
    else Advance(i)
  }

  /** PUBCOMP completes a QoS 2 entry whose PUBREC has been handled. */
  function OnPubcomp<B>(out: seq<Message<B>>, id: int): Outcome {
    var i := IndexOf(out, id);
    if i == |out| || out[i].qos != 2 || out[i].next != AwaitPubcomp then Ignore else Remove(i)
  }

  /** The outbound list after an acknowledgement; an entry that advances is touched. */
  function Settle<B>(out: seq<Message<B>>, o: Outcome, clock: int): (r: seq<Message<B>>)
    requires o.Ignore? || o.at < |out|
  {
    match o
    case Ignore => out
    case Remove(i) => RemoveAt(out, i)
    case Advance(i) => out[i := out[i].(next := AwaitPubcomp, lastTouch := clock)]
  }

  /** An arriving QoS 2 PUBLISH replaces a queued one with the same id, in place. */
  function OnPublish<B>(inn: seq<Message<B>>, m: Message<B>): (r: seq<Message<B>>)
    ensures |inn| <= |r| <= |inn| + 1
  {
    var i := IndexOf(inn, m.msgid);
    if i == |inn| then inn + [m] else inn[i := m]
  }

  datatype RelOutcome = Silent | Busy | AckOnly | Deliver(at: nat)

  /** PUBREL: `pending` says that a write is outstanding on the socket. */
  function OnPubrel<B>(inn: seq<Message<B>>, id: int, dup: bool, pending: bool): RelOutcome {
    var i := IndexOf(inn, id);
    if i == |inn| then
      if !dup then Silent else if pending then Busy else AckOnly
    else if inn[i].qos != 2 || inn[i].next != AwaitPubrel then Silent
    else if pending then Busy
    else Deliver(i)
  }

  // ---------------------------------------------------------------- retries

  datatype SendResult = Sent | Interrupted | Failed

  /** What the loop finds at one entry: the connection unusable, or the result of a send. */
  datatype RetryIo = Stop | Io(result: SendResult)

  /** `now` is the argument of the retry, `clock` the time when an entry is touched. */
  datatype RetryTime = RetryTime(now: int, clock: int, interval: int, regardless: bool)

  predicate Due<B>(m: Message<B>, t: RetryTime) {
    t.regardless || t.now - m.lastTouch > (if t.interval > 10 then t.interval else 10)
  }

  predicate ResendsPublish<B>(m: Message<B>) {
    m.qos == 1 || (m.qos == 2 && m.next == AwaitPubrec)
  }

  predicate ResendsPubrel<B>(m: Message<B>) {
    !ResendsPublish(m) && m.qos != 0 && m.next == AwaitPubcomp
  }

  datatype Retried<B> = Retried(list: seq<Message<B>>, sent: seq<nat>)

  /** The retry loop from entry k on: the touched list and the entries whose packet went out. */
  function RetryFrom<B>(ms: seq<Message<B>>, k: nat, t: RetryTime, io: seq<RetryIo>): (r: Retried<B>)
    requires k <= |ms|
    decreases |ms| - k
  {
    if k == |ms| || k >= |io| || io[k].Stop? then Retried(ms, [])
    else if !Due(ms[k], t) || !(ResendsPublish(ms[k]) || ResendsPubrel(ms[k])) then RetryFrom(ms, k + 1, t, io)
    else if io[k].result == Failed then Retried(ms, [])
    else if ResendsPubrel(ms[k]) && io[k].result != Sent then Retried(ms, [k])
    else
      var rest := RetryFrom(ms[k := ms[k].(lastTouch := t.clock)], k + 1, t, io);
      Retried(rest.list, [k] + rest.sent)
  }

  ghost predicate SameButTouch<B>(a: seq<Message<B>>, b: seq<Message<B>>) {
    |a| == |b| && forall i :: 0 <= i < |a| ==> a[i] == b[i].(lastTouch := a[i].lastTouch)
  }

  ghost predicate Increasing(s: seq<nat>) {
    forall i, j :: 0 <= i < j < |s| ==> s[i] < s[j]
  }

  /** A retry changes nothing but times, and sends each entry at most once, in list order. */
  lemma {:induction false} RetriesInOrder<B>(ms: seq<Message<B>>, k: nat, t: RetryTime, io: seq<RetryIo>)
    requires k <= |ms|
    ensures var r := RetryFrom(ms, k, t, io);
            && SameButTouch(r.list, ms)
            && Increasing(r.sent)
            && (forall j :: 0 <= j < |r.sent| ==>
                  && k <= r.sent[j] < |ms|
                  && (ResendsPublish(ms[r.sent[j]]) || ResendsPubrel(ms[r.sent[j]])))
    decreases |ms| - k
  {
    if k == |ms| || k >= |io| || io[k].Stop? {
    } else if !Due(ms[k], t) || !(ResendsPublish(ms[k]) || ResendsPubrel(ms[k])) {
      RetriesInOrder(ms, k + 1, t, io);
    } else if io[k].result == Failed {
    } else if ResendsPubrel(ms[k]) && io[k].result != Sent {
    } else {
      var touched := ms[k := ms[k].(lastTouch := t.clock)];
      RetriesInOrder(touched, k + 1, t, io);
      var rest := RetryFrom(touched, k + 1, t, io);
      var r := RetryFrom(ms, k, t, io);
      assert r.sent == [k] + rest.sent;
      forall j | 0 <= j < |r.sent|
        ensures k <= r.sent[j] < |ms| && (ResendsPublish(ms[r.sent[j]]) || ResendsPubrel(ms[r.sent[j]]))
      {
        if j > 0 { assert r.sent[j] == rest.sent[j - 1]; }
      }
    }
  }

  /** On reconnect (`regardless`, every send succeeding) every in-flight entry goes out again. */
  lemma {:induction false} ReconnectResendsAll<B>(ms: seq<Message<B>>, k: nat, t: RetryTime, io: seq<RetryIo>)
    requires k <= |ms| <= |io| && t.regardless
    requires forall j :: 0 <= j < |io| ==> io[j] == Io(Sent)
    requires forall j :: 0 <= j < |ms| ==> ResendsPublish(ms[j]) || ResendsPubrel(ms[j])
    ensures RetryFrom(ms, k, t, io).sent == seq(|ms| - k, i => k + i)
    decreases |ms| - k
  {
    if k < |ms| {
      var touched := ms[k := ms[k].(lastTouch := t.clock)];
      forall j | 0 <= j < |touched|
        ensures ResendsPublish(touched[j]) || ResendsPubrel(touched[j])
      {
        assert ResendsPublish(ms[j]) || ResendsPubrel(ms[j]);
      }
      ReconnectResendsAll(touched, k + 1, t, io);
      assert io[k] == Io(Sent);
      assert ResendsPublish(ms[k]) || ResendsPubrel(ms[k]);
      assert RetryFrom(ms, k, t, io).sent == [k] + seq(|ms| - (k + 1), i => k + 1 + i);
    }
  }

  // ---------------------------------------------------------------- message ids

  /** The n-th id after `start`, running 1..65535 round and round; 0 only ever is a start. */
  function Cyclic(start: int, n: int): (id: int)
    requires 0 <= start <= MAX_MSG_ID && 1 <= n
    ensures 1 <= id <= MAX_MSG_ID
  {
    (start - 1 + n) % MAX_MSG_ID + 1
  }

  function NextId(id: int): int {
    if id == MAX_MSG_ID then 1 else id + 1
  }

  lemma CyclicSteps(start: int, n: int)
    requires 0 <= start <= MAX_MSG_ID && 1 <= n
    ensures Cyclic(start, 1) == NextId(start)
    ensures Cyclic(start, n + 1) == NextId(Cyclic(start, n))
    ensures n <= MAX_MSG_ID && start != 0 ==> (Cyclic(start, n) == start <==> n == MAX_MSG_ID)
    ensures n <= MAX_MSG_ID && start == 0 ==> Cyclic(start, n) == n
  {
  }

  /** How far `id` lies after `start` on the circle of ids. */
  function Distance(start: int, id: int): (n: int)
    requires 0 <= start <= MAX_MSG_ID && 1 <= id <= MAX_MSG_ID
    ensures 1 <= n <= MAX_MSG_ID && Cyclic(start, n) == id
  {
    if start < id then id - start else id - start + MAX_MSG_ID
  }

  ghost predicate FirstFree<B>(ms: seq<Message<B>>, start: int, id: int)
    requires 0 <= start <= MAX_MSG_ID
  {
    && 1 <= id <= MAX_MSG_ID
    && !InUse(ms, id)
    && forall m :: 1 <= m < Distance(start, id) ==> InUse(ms, Cyclic(start, m))
  }

  ghost predicate OthersInUse<B>(ms: seq<Message<B>>, start: int) {
    forall id :: 1 <= id <= MAX_MSG_ID && id != start ==> InUse(ms, id)
  }

  /** A list with fewer than 65535 entries leaves an id free, so the search always ends. */
  lemma FreeIdExists<B>(ms: seq<Message<B>>)
    requires |ms| < MAX_MSG_ID
    ensures exists id :: 1 <= id <= MAX_MSG_ID && !InUse(ms, id)
  {
    var used := set i | 0 <= i < |ms| :: ms[i].msgid;
    IdsUpToSize(MAX_MSG_ID);
    UsedSize(ms, |ms|);
    if IdsUpTo(MAX_MSG_ID) <= used {
      SubsetSize(IdsUpTo(MAX_MSG_ID), used);
    }
    var id :| id in IdsUpTo(MAX_MSG_ID) && id !in used;
    assert !InUse(ms, id);
  }

  ghost function IdsUpTo(n: nat): (s: set<int>)
    ensures forall id :: id in s <==> 1 <= id <= n
  {
    if n == 0 then {} else IdsUpTo(n - 1) + {n}
  }

  lemma {:induction false} IdsUpToSize(n: nat)
    ensures |IdsUpTo(n)| == n
  {
    if n > 0 { IdsUpToSize(n - 1); }
  }

  lemma {:induction false} UsedSize<B>(ms: seq<Message<B>>, n: nat)
    requires n <= |ms|
    ensures |set i | 0 <= i < n :: ms[i].msgid| <= n
  {
    if n > 0 {
      UsedSize(ms, n - 1);
      assert (set i | 0 <= i < n :: ms[i].msgid) == (set i | 0 <= i < n - 1 :: ms[i].msgid) + {ms[n - 1].msgid};
    }
  }

  lemma {:induction false} SubsetSize<T>(a: set<T>, b: set<T>)
    requires a <= b
    ensures |a| <= |b|
    decreases |a|
  {
    if a != {} {
      var x :| x in a;
      SubsetSize(a - {x}, b - {x});
    }
  }
}
