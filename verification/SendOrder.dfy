/** Recovering the order in which messages were sent. */
module SendOrder {
  // The store gives the records in any order: the outbound list is rebuilt in order of message id and then
  // cut at the largest gap between cyclically consecutive ids.

  import opened Exchange
  import opened LinkedList

  // ---------------------------------------------------------------- specification

  ghost predicate SortedById<B>(ms: seq<Message<B>>) {
    forall i, j :: 0 <= i < j < |ms| ==> ms[i].msgid < ms[j].msgid
  }

  /** Before the first entry with a larger id, or at the end. */
  function InsertPoint<B>(ms: seq<Message<B>>, id: int): (k: nat)
    ensures k <= |ms|
    ensures forall j :: 0 <= j < k ==> ms[j].msgid <= id
    ensures k < |ms| ==> id < ms[k].msgid
  {
    if ms == [] then 0 else if id < ms[0].msgid then 0 else 1 + InsertPoint(ms[1..], id)
  }

  function InsertById<B>(ms: seq<Message<B>>, m: Message<B>): seq<Message<B>> {
    var k := InsertPoint(ms, m.msgid); ms[..k] + [m] + ms[k..]
  }

  /** Inserting the messages one after the other. */
  function InsertAll<B>(ms: seq<Message<B>>, order: seq<Message<B>>): seq<Message<B>>
    decreases |order|
  {
    if order == [] then ms else InsertAll(InsertById(ms, order[0]), order[1..])
  }

  /** The gap between entry i and its cyclic predecessor. */
  function GapInto<B>(ms: seq<Message<B>>, i: nat): (g: int)
    requires i < |ms| && IdsInRange(ms)
    ensures 1 <= g <= MAX_MSG_ID
  {
    Distance(ms[if i == 0 then |ms| - 1 else i - 1].msgid, ms[i].msgid)
  }

  /** The first of the widest gaps among the first n entries. */
  function WidestGap<B>(ms: seq<Message<B>>, n: nat): (w: nat)
    requires 1 <= n <= |ms| && IdsInRange(ms)
    ensures w < n
    ensures forall i :: 0 <= i < w ==> GapInto(ms, i) < GapInto(ms, w)
    ensures forall i :: w < i < n ==> GapInto(ms, i) <= GapInto(ms, w)
  {
    if n == 1 then 0
    else
      var w := WidestGap(ms, n - 1);
      if GapInto(ms, n - 1) > GapInto(ms, w) then n - 1 else w
  }

  function Rotate<T>(s: seq<T>, k: nat): (r: seq<T>)
    requires k <= |s|
    ensures |r| == |s|
    ensures forall i :: 0 <= i < |s| ==> r[i] == s[if i < |s| - k then i + k else i + k - |s|]
  {
    s[k..] + s[..k]
  }

  /** The gap as the code computes it, whatever the ids are. */
  function ScanGap<B>(ms: seq<Message<B>>, i: nat): int
    requires i < |ms|
  {
    if i == 0 then MAX_MSG_ID - ms[|ms| - 1].msgid + ms[0].msgid else ms[i].msgid - ms[i - 1].msgid
  }

  /** The first of the widest of the first n computed gaps. */
  function WidestScan<B>(ms: seq<Message<B>>, n: nat): (w: nat)
    requires 1 <= n <= |ms|
    ensures w < n
    ensures forall i :: 0 <= i < w ==> ScanGap(ms, i) < ScanGap(ms, w)
    ensures forall i :: w < i < n ==> ScanGap(ms, i) <= ScanGap(ms, w)
  {
    if n == 1 then 0
    else
      var w := WidestScan(ms, n - 1);
      if ScanGap(ms, n - 1) > ScanGap(ms, w) then n - 1 else w
  }

  function Wrapped<B>(ms: seq<Message<B>>): seq<Message<B>> {
    if ms == [] then [] else Rotate(ms, WidestScan(ms, |ms|))
  }

  /** The outbound list that a restart builds from the stored messages in some order. */
  function RestoredOrder<B>(order: seq<Message<B>>): seq<Message<B>> {
    Wrapped(InsertAll([], order))
  }

  /** On a sorted list the computed gaps are the distances round the circle of ids. */
  lemma {:induction false} ScanIsCyclic<B>(s: seq<Message<B>>, n: nat)
    requires 1 <= n <= |s| && IdsInRange(s) && SortedById(s)
    ensures forall i :: 0 <= i < n ==> ScanGap(s, i) == GapInto(s, i)
    ensures WidestScan(s, n) == WidestGap(s, n)
  {
    if n > 1 { ScanIsCyclic(s, n - 1); }
  }

  // ---------------------------------------------------------------- the two operations on the linked list

  /** MQTTPersistence_insertInOrder. */
  method InsertInOrder<B(==)>(list: List<Message<B>>, m: Message<B>)
    requires list.Valid()
    modifies list, list.Nodes
    ensures list.Valid() && fresh(set n | n in list.Nodes && n !in old(list.Nodes))
    ensures list.Contents() == InsertById(old(list.Contents()), m)
    ensures list.current == old(list.current)
  {
    ghost var s := list.Contents();
    ghost var k := InsertPoint(s, m.msgid);
    var current := list.first;
    var index: Node?<Message<B>> := null;
    ghost var i := 0;
    while current != null && index == null
      invariant 0 <= i <= k
      invariant index == null ==> current == if i < |s| then list.Nodes[i] else null
      invariant index != null ==> i == k < |s| && index == list.Nodes[k]
      decreases |s| - i, if index == null then 1 else 0
    {
      assert s[i] == list.Nodes[i].content;
      if m.msgid < current.content.msgid {
        index := current;
      } else {
        current := current.next;
        i := i + 1;
      }
    }
    var newel := list.Insert(m, index, k);
  }

  /** MQTTPersistence_wrapMsgID: relinks the list so that it starts after the widest gap. */
  method WrapMsgId<B(==)>(list: List<Message<B>>)
    requires list.Valid()
    modifies list, list.Nodes
    ensures list.Valid() && list.Contents() == Wrapped(old(list.Contents()))
    ensures list.current == old(list.current)
  {
    hide WidestScan;
    if list.count > 0 {
      var wrapel, w := FindWrap(list);
      if wrapel != null {
        RotateTo(list, wrapel, w);
      } else {
        assert Rotate(list.Contents(), 0) == list.Contents();
      }
    }
  }

  /** The scan for the widest gap; null when it is the one between the last and the first id. */
  method FindWrap<B(==)>(list: List<Message<B>>) returns (wrapel: Node?<Message<B>>, ghost w: nat)
    requires list.Valid() && list.Nodes != []
    ensures w == WidestScan(list.Contents(), |list.Nodes|)
    ensures wrapel == if w == 0 then null else list.Nodes[w]
  {
    hide ScanGap, WidestScan;
    ghost var s := list.Contents();
    wrapel, w := null, 0;
    assert s[0] == list.first.content && s[|s| - 1] == list.last.content;
    var gap := MAX_MSG_ID - list.last.content.msgid + list.first.content.msgid;
    FirstGap(s);
    WidestOfOne(s);
    var current := list.first.next;
    ghost var i := 1;
    while current != null
      invariant 1 <= i <= |s|
      invariant current == if i < |s| then list.Nodes[i] else null
      invariant w == WidestScan(s, i) && gap == ScanGap(s, w)
      invariant wrapel == if w == 0 then null else list.Nodes[w]
      decreases |s| - i
    {
      assert s[i] == list.Nodes[i].content && s[i - 1] == list.Nodes[i - 1].content;
      var curgap := current.content.msgid - current.prev.content.msgid;
      InnerGap(s, i);
      WidestStep(s, i);
      if curgap > gap {
        gap, wrapel, w := curgap, current, i;
      }
      current := current.next;
      i := i + 1;
    }
  }

  lemma WidestOfOne<B>(s: seq<Message<B>>)
    requires s != []
    ensures WidestScan(s, 1) == 0
  {
  }

  lemma WidestStep<B>(s: seq<Message<B>>, i: nat)
    requires 1 <= i < |s|
    ensures WidestScan(s, i + 1) == if ScanGap(s, i) > ScanGap(s, WidestScan(s, i)) then i else WidestScan(s, i)
  {
  }

  lemma FirstGap<B>(s: seq<Message<B>>)
    requires s != []
    ensures ScanGap(s, 0) == MAX_MSG_ID - s[|s| - 1].msgid + s[0].msgid
  {
  }

  lemma InnerGap<B>(s: seq<Message<B>>, i: nat)
    requires 1 <= i < |s|
    ensures ScanGap(s, i) == s[i].msgid - s[i - 1].msgid
  {
  }

  /** The six pointer assignments that put `wrapel` at the head. */
  method RotateTo<T(==)>(list: List<T>, wrapel: Node<T>, ghost w: nat)
    requires list.Valid() && 0 < w < |list.Nodes| && list.Nodes[w] == wrapel
    modifies list, list.Nodes
    ensures list.Valid() && list.Nodes == Rotate(old(list.Nodes), w)
    ensures list.Contents() == Rotate(old(list.Contents()), w)
    ensures list.current == old(list.current)
  {
    ghost var contents := list.Contents();
    Relink(list, wrapel, w);
    hide Relinked, Rotate;
    Renumber(list, contents, w);
  }

  /** The ghost half: the relinked chains are the rotated sequence of nodes. */
  ghost method Renumber<T>(list: List<T>, contents: seq<T>, w: nat)
    requires 0 < w < |list.Nodes| == |contents| && Relinked(list, list.Nodes, w) && list.count == |list.Nodes|
    requires list.current != null ==> list.current in list.Nodes
    requires forall i, j :: 0 <= i < j < |list.Nodes| ==> list.Nodes[i] != list.Nodes[j]
    requires forall i :: 0 <= i < |contents| ==> list.Nodes[i].content == contents[i]
    modifies list`Nodes
    ensures list.Valid() && list.Nodes == Rotate(old(list.Nodes), w) && list.Contents() == Rotate(contents, w)
  {
    var before := list.Nodes;
    list.Nodes := Rotate(before, w);
    RotatedMember(before, w, list.current);
    RotatedLinked(list, before, w);
    RotatedContents(list, before, contents, w);
  }

  /** The chains run from index w to the end and on from the start up to w. */
  ghost predicate Relinked<T>(list: List<T>, ns: seq<Node<T>>, w: nat)
    requires 0 < w < |ns|
    reads list, ns
  {
    && list.first == ns[w] && list.last == ns[w - 1]
    && (forall i {:trigger ns[i].next} :: 0 <= i < |ns| ==>
          ns[i].next == if i + 1 == w then null else if i + 1 < |ns| then ns[i + 1] else ns[0])
    && (forall i {:trigger ns[i].prev} :: 0 <= i < |ns| ==>
          ns[i].prev == if i == w then null else if i > 0 then ns[i - 1] else ns[|ns| - 1])
  }

  method Relink<T(==)>(list: List<T>, wrapel: Node<T>, ghost w: nat)
    requires list.Linked(list.Nodes) && 0 < w < |list.Nodes| && list.Nodes[w] == wrapel
    modifies list`first, list`last, list.Nodes
    ensures Relinked(list, list.Nodes, w)
    ensures var ns := list.Nodes; forall i {:trigger ns[i].content} :: 0 <= i < |ns| ==>
      ns[i].content == old(ns[i].content)
  {
    list.first.prev := list.last;
    list.last.next := list.first;
    list.first := wrapel;
    list.last := wrapel.prev;
    list.first.prev := null;
    list.last.next := null;
  }

  lemma RotatedLinked<T>(list: List<T>, before: seq<Node<T>>, w: nat)
    requires 0 < w < |before| && list.Nodes == Rotate(before, w) && Relinked(list, before, w)
    requires forall i, j :: 0 <= i < j < |before| ==> before[i] != before[j]
    ensures list.Linked(list.Nodes)
  {
    var ns := list.Nodes;
    forall i | 0 <= i < |ns|
      ensures ns[i].next == if i + 1 < |ns| then ns[i + 1] else null
      ensures ns[i].prev == if i > 0 then ns[i - 1] else null
    {
      assert ns[i] == before[if i < |before| - w then i + w else i + w - |before|];
    }
    assert ns[0] == before[w] && ns[|ns| - 1] == before[w - 1];
  }

  lemma RotatedContents<T>(list: List<T>, before: seq<Node<T>>, contents: seq<T>, w: nat)
    requires w <= |before| == |contents| && list.Nodes == Rotate(before, w)
    requires forall i :: 0 <= i < |before| ==> before[i].content == contents[i]
    ensures list.Contents() == Rotate(contents, w)
  {
    list.ContentsAre(Rotate(contents, w));
  }

  lemma RotatedMember<T>(before: seq<Node<T>>, w: nat, cursor: Node?<T>)
    requires w <= |before| && (cursor != null ==> cursor in before)
    ensures cursor != null ==> cursor in Rotate(before, w)
  {
    if cursor != null {
      var k :| 0 <= k < |before| && before[k] == cursor;
      assert Rotate(before, w)[if k >= w then k - w else k + |before| - w] == cursor;
    }
  }

  // ---------------------------------------------------------------- insertion sorts

  ghost predicate NoSharedId<B>(a: seq<Message<B>>, b: seq<Message<B>>) {
    forall i, j :: 0 <= i < |a| && 0 <= j < |b| ==> a[i].msgid != b[j].msgid
  }

  lemma InsertByIdAt<B>(ms: seq<Message<B>>, m: Message<B>)
    ensures var k, r := InsertPoint(ms, m.msgid), InsertById(ms, m);
            && |r| == |ms| + 1
            && forall i :: 0 <= i < |r| ==> r[i] == if i < k then ms[i] else if i == k then m else ms[i - 1]
  {
  }

  lemma InsertByIdMembers<B>(ms: seq<Message<B>>, m: Message<B>)
    ensures multiset(InsertById(ms, m)) == multiset(ms) + multiset{m}
  {
    var k := InsertPoint(ms, m.msgid);
    hide InsertPoint;
    assert ms == ms[..k] + ms[k..];
  }

  lemma InsertKeepsSorted<B>(ms: seq<Message<B>>, m: Message<B>)
    requires SortedById(ms) && NoSharedId(ms, [m])
    ensures SortedById(InsertById(ms, m))
  {
    var k, r := InsertPoint(ms, m.msgid), InsertById(ms, m);
    InsertByIdAt(ms, m);
    assert [m][0] == m;
    forall i, j | 0 <= i < j < |r| ensures r[i].msgid < r[j].msgid {
      if i < k == j { assert ms[i].msgid != [m][0].msgid; }
      if i == k && k + 1 < j { assert ms[k].msgid < ms[j - 1].msgid; }
      if i < k < j { assert ms[i].msgid < ms[j - 1].msgid; }
    }
  }

  lemma {:induction false} InsertAllSorts<B>(ms: seq<Message<B>>, order: seq<Message<B>>)
    requires SortedById(ms) && IdsInRange(ms) && DistinctIds(order) && IdsInRange(order) && NoSharedId(ms, order)
    ensures SortedById(InsertAll(ms, order)) && IdsInRange(InsertAll(ms, order))
    ensures multiset(InsertAll(ms, order)) == multiset(ms) + multiset(order)
    decreases |order|
  {
    if order != [] {
      var m, rest := order[0], order[1..];
      assert [m][0] == m && order == [m] + rest;
      assert forall j :: 0 <= j < |rest| ==> rest[j] == order[j + 1];
      InsertKeepsSorted(ms, m);
      InsertKeepsRange(ms, m, rest);
      hide InsertPoint, InsertById, SortedById;
      InsertAllSorts(InsertById(ms, m), rest);
    }
  }

  lemma InsertKeepsRange<B>(ms: seq<Message<B>>, m: Message<B>, rest: seq<Message<B>>)
    requires IdsInRange(ms) && 1 <= m.msgid <= MAX_MSG_ID
    requires NoSharedId(ms, rest) && forall j :: 0 <= j < |rest| ==> rest[j].msgid != m.msgid
    ensures IdsInRange(InsertById(ms, m)) && NoSharedId(InsertById(ms, m), rest)
    ensures multiset(InsertById(ms, m)) == multiset(ms) + multiset{m}
  {
    InsertByIdMembers(ms, m);
    var r := InsertById(ms, m);
    hide InsertById, InsertPoint;
    forall i | 0 <= i < |r| ensures r[i] == m || r[i] in ms { assert r[i] in multiset(r); }
  }

  lemma SortedHead<B>(a: seq<Message<B>>, b: seq<Message<B>>)
    requires a != [] && b != [] && SortedById(a) && SortedById(b) && a[0] in b && b[0] in a
    ensures a[0] == b[0]
  {
  }

  lemma SameMembers<T>(a: seq<T>, b: seq<T>)
    requires multiset(a) == multiset(b)
    ensures |a| == |b| && (a != [] ==> a[0] in b && b[0] in a)
  {
    assert |multiset(a)| == |multiset(b)|;
    if a != [] { assert a[0] in multiset(b) && b[0] in multiset(a); }
  }

  lemma SameTails<T>(a: seq<T>, b: seq<T>)
    requires multiset(a) == multiset(b) && a != [] && b != [] && a[0] == b[0]
    ensures multiset(a[1..]) == multiset(b[1..])
  {
    assert a == [a[0]] + a[1..] && b == [b[0]] + b[1..];
    assert multiset(a[1..]) == multiset(a) - multiset{a[0]};
    assert multiset(b[1..]) == multiset(b) - multiset{b[0]};
  }

  lemma {:induction false} SortedUnique<B>(a: seq<Message<B>>, b: seq<Message<B>>)
    requires SortedById(a) && SortedById(b) && multiset(a) == multiset(b)
    ensures a == b
    decreases |a|
  {
    SameMembers(a, b);
    if a != [] {
      SortedHead(a, b);
      SameTails(a, b);
      SortedUnique(a[1..], b[1..]);
      assert a == [a[0]] + a[1..] && b == [b[0]] + b[1..];
    }
  }

  // ---------------------------------------------------------------- when the order survives

  /** Sent in order x: ascending ids, wrapping from 65535 to 1 before position r at most once. */
  ghost predicate SentInOrder<B>(x: seq<Message<B>>, r: nat) {
    r < |x| && IdsInRange(x) && SortedById(Rotate(x, r))
  }

  /**
   The gap before the first message is the widest; a gap as wide is harmless only in front
   of an id larger than the first.
   */
  ghost predicate CutIsWidest<B>(x: seq<Message<B>>)
    requires x != [] && IdsInRange(x)
  {
    forall j :: 1 <= j < |x| ==>
      GapInto(x, j) < GapInto(x, 0) || (GapInto(x, j) == GapInto(x, 0) && x[j].msgid > x[0].msgid)
  }

  lemma RotatedGap<B>(x: seq<Message<B>>, r: nat, j: nat)
    requires SentInOrder(x, r) && j < |x|
    ensures IdsInRange(Rotate(x, r))
    ensures var q := if j >= r then j - r else j + |x| - r;
            GapInto(Rotate(x, r), q) == GapInto(x, j) && Rotate(x, r)[q] == x[j]
  {
    var s := Rotate(x, r);
    assert forall i :: 0 <= i < |s| ==> s[i] == x[if i < |x| - r then i + r else i + r - |x|];
  }

  /** Restoring sorts, then cuts. */
  lemma RestoredIsRotated<B>(x: seq<Message<B>>, r: nat, order: seq<Message<B>>)
    requires SentInOrder(x, r) && multiset(order) == multiset(x)
    ensures InsertAll([], order) == Rotate(x, r) && IdsInRange(Rotate(x, r))
  {
    var s := Rotate(x, r);
    RotationPermutes(x, r);
    assert IdsInRange(s);
    OrderDistinct(order, s);
    InsertAllSorts([], order);
    SortedUnique(InsertAll([], order), s);
  }

  lemma RestoredIsCut<B>(x: seq<Message<B>>, r: nat, order: seq<Message<B>>)
    requires SentInOrder(x, r) && multiset(order) == multiset(x)
    ensures var s := Rotate(x, r);
            && IdsInRange(s) && SortedById(s)
            && RestoredOrder(order) == Rotate(s, WidestGap(s, |x|))
  {
    RestoredIsRotated(x, r, order);
    ScanIsCyclic(Rotate(x, r), |x|);
    hide InsertAll, WidestGap, WidestScan, IdsInRange;
  }

  /** For any order in which the store lists the messages, exactly when does a restart rebuild x? */
  lemma SendOrderRestored<B>(x: seq<Message<B>>, r: nat, order: seq<Message<B>>)
    requires SentInOrder(x, r) && multiset(order) == multiset(x)
    ensures RestoredOrder(order) == x <==> CutIsWidest(x)
  {
    RestoredIsCut(x, r, order);
    hide SortedById, IdsInRange, WidestGap, GapInto, CutIsWidest, RestoredOrder;
    var s, n := Rotate(x, r), |x|;
    var p := if r == 0 then 0 else n - r;
    var w := WidestGap(s, n);
    RotateBack(x, r);
    hide Rotate;
    if w == p {
      WidestMeansCut(x, r, s);
    } else {
      OtherCut(x, r, s, w);
      SortedEntriesDiffer(s, w, p);
      assert Rotate(s, w)[0] == s[w];
    }
  }

  lemma RotateBack<T>(x: seq<T>, r: nat)
    requires r < |x|
    ensures var s := Rotate(x, r);
            var p := if r == 0 then 0 else |x| - r;
            Rotate(s, p) == x && s[p] == x[0]
  {
  }

  lemma SortedEntriesDiffer<B>(s: seq<Message<B>>, w: nat, p: nat)
    requires SortedById(s) && w < |s| && p < |s| && w != p
    ensures s[w] != s[p]
  {
  }

  lemma CutRefuted<B>(x: seq<Message<B>>, j: nat)
    requires 1 <= j < |x| && IdsInRange(x)
    requires GapInto(x, j) > GapInto(x, 0) || (GapInto(x, j) == GapInto(x, 0) && x[j].msgid < x[0].msgid)
    ensures !CutIsWidest(x)
  {
  }

  lemma RotatedGapAt<B>(x: seq<Message<B>>, r: nat, q: nat, j: nat)
    requires SentInOrder(x, r) && q < |x| && j == if q < |x| - r then q + r else q + r - |x|
    ensures IdsInRange(Rotate(x, r)) && j < |x|
    ensures GapInto(Rotate(x, r), q) == GapInto(x, j) && Rotate(x, r)[q] == x[j]
  {
    RotatedGap(x, r, j);
  }

  lemma OtherCut<B>(x: seq<Message<B>>, r: nat, s: seq<Message<B>>, w: nat)
    requires SentInOrder(x, r) && s == Rotate(x, r) && IdsInRange(s)
    requires w == WidestGap(s, |s|) && w != (if r == 0 then 0 else |x| - r)
    ensures !CutIsWidest(x)
  {
    hide WidestGap, GapInto, Rotate, SortedById, CutIsWidest;
    var p := if r == 0 then 0 else |x| - r;
    var j := if w < |x| - r then w + r else w + r - |x|;
    assert |s| == |x|;
    RotatedGapAt(x, r, w, j);
    RotatedGapAt(x, r, p, 0);
    OtherCutAt(x, j, s, w, p);
  }

  lemma OtherCutAt<B>(x: seq<Message<B>>, j: nat, s: seq<Message<B>>, w: nat, p: nat)
    requires IdsInRange(x) && IdsInRange(s) && SortedById(s) && 1 <= j < |x| && w < |s| && p < |s| && w != p
    requires GapInto(s, w) == GapInto(x, j) && GapInto(s, p) == GapInto(x, 0) && s[w] == x[j] && s[p] == x[0]
    requires w == WidestGap(s, |s|)
    ensures !CutIsWidest(x)
  {
    hide GapInto;
    CutRefuted(x, j);
  }

  lemma WidestMeansCut<B>(x: seq<Message<B>>, r: nat, s: seq<Message<B>>)
    requires SentInOrder(x, r) && s == Rotate(x, r) && IdsInRange(s)
    requires WidestGap(s, |s|) == if r == 0 then 0 else |x| - r
    ensures CutIsWidest(x)
  {
    RotatedGap(x, r, 0);
    forall j | 1 <= j < |x|
      ensures GapInto(x, j) < GapInto(x, 0) || (GapInto(x, j) == GapInto(x, 0) && x[j].msgid > x[0].msgid)
    {
      RotatedGap(x, r, j);
    }
  }

  lemma RotationPermutes<T>(s: seq<T>, k: nat)
    requires k <= |s|
    ensures multiset(Rotate(s, k)) == multiset(s)
  {
    assert s == s[..k] + s[k..];
  }

  lemma {:induction false} OrderDistinct<B>(order: seq<Message<B>>, s: seq<Message<B>>)
    requires SortedById(s) && IdsInRange(s) && multiset(order) == multiset(s)
    ensures DistinctIds(order) && IdsInRange(order)
  {
    forall i | 0 <= i < |order| ensures 1 <= order[i].msgid <= MAX_MSG_ID && order[i] in s {
      assert order[i] in multiset(s);
    }
    forall i, j | 0 <= i < j < |order| && order[i].msgid == order[j].msgid ensures false {
      assert order[i] in multiset(s) && order[j] in multiset(s);
      assert order[i] == order[j];
      assert order == order[..i] + [order[i]] + order[i + 1..j] + [order[j]] + order[j + 1..];
      assert multiset(order)[order[i]] >= 2;
      SortedCount(s, order[i]);
    }
  }

  lemma {:induction false} SortedCount<B>(s: seq<Message<B>>, m: Message<B>)
    requires SortedById(s)
    ensures multiset(s)[m] <= 1
    decreases |s|
  {
    if s != [] {
      assert s == [s[0]] + s[1..];
      SortedCount(s[1..], m);
      assert s[0] !in s[1..];
    }
  }

  /** The sufficient condition in the words of the design: the cut is strictly wider than every other gap. */
  lemma StrictlyWidestCutRestores<B>(x: seq<Message<B>>, r: nat, order: seq<Message<B>>)
    requires SentInOrder(x, r) && multiset(order) == multiset(x)
    requires forall j :: 1 <= j < |x| ==> GapInto(x, j) < GapInto(x, 0)
    ensures RestoredOrder(order) == x
  {
    SendOrderRestored(x, r, order);
  }

  /** Two messages in flight far apart come back in the wrong order. */
  lemma OrderLost(body: int)
    ensures var x := [Message(1, 1, false, Unset, 0, body), Message(40000, 1, false, Unset, 0, body)];
            SentInOrder(x, 0) && RestoredOrder(x) == [x[1], x[0]]
  {
    var x := [Message(1, 1, false, Unset, 0, body), Message(40000, 1, false, Unset, 0, body)];
    assert Rotate(x, 0) == x;
    FarApart(x);
  }

  lemma FarApart<B>(x: seq<Message<B>>)
    requires |x| == 2 && x[0].msgid == 1 && x[1].msgid == 40000 && SentInOrder(x, 0)
    ensures RestoredOrder(x) == [x[1], x[0]]
  {
    RestoredIsRotated(x, 0, x);
    RotateTwo(x);
    assert WidestScan(x, 2) == 1 by { WideGap(x); }
    hide SentInOrder, WidestGap, WidestScan, ScanGap, InsertAll, IdsInRange, Rotate;
  }

  lemma RotateTwo<T>(x: seq<T>)
    requires |x| == 2
    ensures Rotate(x, 0) == x && Rotate(x, 1) == [x[1], x[0]]
  {
  }

  lemma WideGap<B>(x: seq<Message<B>>)
    requires |x| == 2 && x[0].msgid == 1 && x[1].msgid == 40000
    ensures WidestScan(x, 2) == 1
  {
    assert ScanGap(x, 1) == 39999 && ScanGap(x, 0) == 25536;
  }
}
