/** In-flight lists with distinct ids, read as maps from id to entry. */
module Qos2Flights {
  import opened Exchange
  import opened Qos2System

  datatype Flight = Flight(qos: int, next: Awaited, tag: nat)

  function Flights(ms: seq<Message<nat>>): (f: map<int, Flight>)
    ensures forall id :: id in f <==> 1 <= id <= MAX_MSG_ID && InUse(ms, id)
  {
    map id | 1 <= id <= MAX_MSG_ID && InUse(ms, id) ::
      var m := ms[IndexOf(ms, id)]; Flight(m.qos, m.next, m.body)
  }

  function FlightOf(m: Message<nat>): Flight {
    Flight(m.qos, m.next, m.body)
  }

  lemma IndexOfUnique<B>(ms: seq<Message<B>>, i: nat)
    requires i < |ms| && DistinctIds(ms)
    ensures IndexOf(ms, ms[i].msgid) == i
  {
    assert IndexOf(ms, ms[i].msgid) <= i;
  }

  /** A list of distinct ids in range is described by its map. */
  ghost predicate Listed(ms: seq<Message<nat>>, f: map<int, Flight>) {
    && DistinctIds(ms) && IdsInRange(ms)
    && (forall i :: 0 <= i < |ms| ==> ms[i].msgid in f && f[ms[i].msgid] == FlightOf(ms[i]))
    && (forall id :: id in f ==> InUse(ms, id))
  }

  lemma ListedFlights(ms: seq<Message<nat>>)
    requires DistinctIds(ms) && IdsInRange(ms)
    ensures Listed(ms, Flights(ms))
  {
    forall i | 0 <= i < |ms|
      ensures ms[i].msgid in Flights(ms) && Flights(ms)[ms[i].msgid] == FlightOf(ms[i])
    {
      IndexOfUnique(ms, i);
    }
  }

  lemma ListedUnique(ms: seq<Message<nat>>, f: map<int, Flight>)
    requires Listed(ms, f)
    ensures f == Flights(ms)
  {
    ListedFlights(ms);
    forall id | id in f
      ensures id in Flights(ms) && f[id] == Flights(ms)[id]
    {
      var i := IndexOf(ms, id);
      assert ms[i].msgid == id;
    }
    forall id | id in Flights(ms) ensures id in f {
      assert ms[IndexOf(ms, id)].msgid == id;
    }
    assert f.Keys == Flights(ms).Keys;
  }

  lemma AppendDistinct(ms: seq<Message<nat>>, m: Message<nat>)
    requires DistinctIds(ms) && !InUse(ms, m.msgid)
    ensures DistinctIds(ms + [m])
  {
    forall i | 0 <= i < |ms| ensures ms[i].msgid != m.msgid { assert IndexOf(ms, ms[i].msgid) <= i; }
  }

  lemma FlightsAppend(ms: seq<Message<nat>>, m: Message<nat>)
    requires DistinctIds(ms) && IdsInRange(ms)
    requires 1 <= m.msgid <= MAX_MSG_ID && !InUse(ms, m.msgid)
    ensures DistinctIds(ms + [m]) && IdsInRange(ms + [m])
    ensures Flights(ms + [m]) == Flights(ms)[m.msgid := FlightOf(m)]
  {
    ListedFlights(ms);
    AppendDistinct(ms, m);
    hide DistinctIds;
    var r := ms + [m];
    var f := Flights(ms)[m.msgid := FlightOf(m)];
    assert r[|ms|] == m;
    forall id | id in f ensures InUse(r, id) {
      if id != m.msgid { assert r[IndexOf(ms, id)].msgid == id; }
    }
    forall i | 0 <= i < |r| ensures r[i].msgid in f && f[r[i].msgid] == FlightOf(r[i]) {
      if i < |ms| { assert r[i] == ms[i]; }
    }
    ListedUnique(r, f);
  }

  lemma RemoveKeepsDistinct(ms: seq<Message<nat>>, i: nat)
    requires DistinctIds(ms) && IdsInRange(ms) && i < |ms|
    ensures DistinctIds(RemoveAt(ms, i)) && IdsInRange(RemoveAt(ms, i))
    ensures forall j :: 0 <= j < |ms| - 1 ==>
              RemoveAt(ms, i)[j] == ms[if j < i then j else j + 1] && RemoveAt(ms, i)[j].msgid != ms[i].msgid
  {
    var r := RemoveAt(ms, i);
    assert forall j :: 0 <= j < |r| ==> r[j] == ms[if j < i then j else j + 1];
  }

  lemma FlightsRemove(ms: seq<Message<nat>>, i: nat)
    requires DistinctIds(ms) && IdsInRange(ms) && i < |ms|
    ensures DistinctIds(RemoveAt(ms, i)) && IdsInRange(RemoveAt(ms, i))
    ensures Flights(RemoveAt(ms, i)) == Flights(ms) - {ms[i].msgid}
  {
    ListedFlights(ms);
    RemoveKeepsDistinct(ms, i);
    var r := RemoveAt(ms, i);
    var f := Flights(ms) - {ms[i].msgid};
    forall j | 0 <= j < |r| ensures r[j].msgid in f && f[r[j].msgid] == FlightOf(r[j]) {
      assert r[j] == ms[if j < i then j else j + 1];
    }
    forall id | id in f ensures InUse(r, id) {
      var k := IndexOf(ms, id);
      assert r[if k < i then k else k - 1] == ms[k];
    }
    ListedUnique(r, f);
  }

  lemma FlightsUpdate(ms: seq<Message<nat>>, i: nat, m: Message<nat>)
    requires DistinctIds(ms) && IdsInRange(ms) && i < |ms| && m.msgid == ms[i].msgid
    ensures DistinctIds(ms[i := m]) && IdsInRange(ms[i := m])
    ensures Flights(ms[i := m]) == Flights(ms)[m.msgid := FlightOf(m)]
  {
    ListedFlights(ms);
    var r := ms[i := m];
    var f := Flights(ms)[m.msgid := FlightOf(m)];
    forall id | id in f ensures InUse(r, id) {
      if id == m.msgid { assert r[i].msgid == id; } else { assert r[IndexOf(ms, id)].msgid == id; }
    }
    ListedUnique(r, f);
  }

  lemma FlightsTouched(a: seq<Message<nat>>, b: seq<Message<nat>>)
    requires DistinctIds(b) && IdsInRange(b) && SameButTouch(a, b)
    ensures DistinctIds(a) && IdsInRange(a) && Flights(a) == Flights(b)
  {
    ListedFlights(b);
    assert forall i :: 0 <= i < |a| ==> a[i].msgid == b[i].msgid && FlightOf(a[i]) == FlightOf(b[i]);
    forall id | id in Flights(b) ensures InUse(a, id) {
      assert a[IndexOf(b, id)].msgid == id;
    }
    ListedUnique(a, Flights(b));
  }

  lemma FlightsReordered(a: seq<Message<nat>>, b: seq<Message<nat>>)
    requires DistinctIds(b) && IdsInRange(b) && Reordered(a, b)
    ensures DistinctIds(a) && IdsInRange(a) && Flights(a) == Flights(b)
  {
    ListedFlights(b);
    forall i | 0 <= i < |a|
      ensures 1 <= a[i].msgid <= MAX_MSG_ID
      ensures a[i].msgid in Flights(b) && Flights(b)[a[i].msgid] == FlightOf(a[i])
    {
      var k := IndexOf(b, a[i].msgid);
      assert FlightOf(b[k]) == FlightOf(a[i]);
    }
    forall id | id in Flights(b) ensures InUse(a, id) {
      assert b[IndexOf(b, id)].msgid == id;
    }
    ListedUnique(a, Flights(b));
  }
}
