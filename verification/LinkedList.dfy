/** The doubly linked list with a cached cursor. */
module LinkedList {
  // `Nodes` is the list as a sequence; `Valid` ties both pointer chains, both ends, the count and the cursor to it.

  import opened Wrappers

  class Node<T> {
    var prev: Node?<T>
    var next: Node?<T>
    var content: T

    constructor (content: T)
      ensures this.content == content && prev == null && next == null
    {
      this.content := content;
      prev, next := null, null;
    }
  }

  /** The first index whose element satisfies p, or the length. */
  function FirstMatch<T>(s: seq<T>, p: T -> bool): (k: nat)
    ensures k <= |s|
    ensures k < |s| ==> p(s[k])
    ensures forall j :: 0 <= j < k ==> !p(s[j])
  {
    if s == [] then 0 else if p(s[0]) then 0 else 1 + FirstMatch(s[1..], p)
  }

  function Without<T>(s: seq<T>, k: nat): (r: seq<T>)
    requires k < |s|
    ensures |r| == |s| - 1
    ensures forall i :: 0 <= i < k ==> r[i] == s[i]
    ensures forall i :: k <= i < |r| ==> r[i] == s[i + 1]
  {
    s[..k] + s[k + 1..]
  }

  function Reversed<T>(s: seq<T>): (r: seq<T>)
    ensures |r| == |s|
  {
    if s == [] then [] else Reversed(s[1..]) + [s[0]]
  }

  lemma {:induction false} ReversedAt<T>(s: seq<T>, k: nat)
    requires k < |s|
    ensures Reversed(s)[k] == s[|s| - 1 - k]
  {
    if k < |s| - 1 { ReversedAt(s[1..], k); }
  }

  class List<T(==)> {
    var first: Node?<T>
    var last: Node?<T>
    var current: Node?<T>
    var count: int
    ghost var Nodes: seq<Node<T>>

    /** Both chains run through exactly these nodes, in this order. */
    ghost predicate Linked(ns: seq<Node<T>>)
      reads this, ns
    {
      && (forall i, j :: 0 <= i < j < |ns| ==> ns[i] != ns[j])
      && (ns == [] ==> first == null && last == null)
      && (ns != [] ==> first == ns[0] && last == ns[|ns| - 1])
      && (forall i {:trigger ns[i].next} :: 0 <= i < |ns| ==> ns[i].next == if i + 1 < |ns| then ns[i + 1] else null)
      && (forall i {:trigger ns[i].prev} :: 0 <= i < |ns| ==> ns[i].prev == if i > 0 then ns[i - 1] else null)
    }

    ghost predicate Valid()
      reads this, Nodes
    {
      && Linked(Nodes)
      && count == |Nodes|
      && (current != null ==> current in Nodes)
    }

    ghost function Contents(): (s: seq<T>)
      reads this, Nodes
      ensures |s| == |Nodes| && forall i :: 0 <= i < |s| ==> s[i] == Nodes[i].content
    {
      seq(|Nodes|, i requires 0 <= i < |Nodes| reads this, Nodes => Nodes[i].content)
    }

    lemma ContentsAre(s: seq<T>)
      requires |s| == |Nodes| && forall i :: 0 <= i < |s| ==> Nodes[i].content == s[i]
      ensures Contents() == s
    {
    }

    constructor ()
      ensures Valid() && Nodes == [] && current == null
    {
      first, last, current, count, Nodes := null, null, null, 0, [];
    }

    method Append(content: T) returns (newel: Node<T>)
      requires Valid()
      modifies this, Nodes
      ensures Valid() && fresh(newel) && Nodes == old(Nodes) + [newel]
      ensures Contents() == old(Contents()) + [content]
      ensures current == old(current)
    {
      ghost var before := Nodes;
      newel := new Node(content);
      newel.prev := last;
      if first == null {
        first := newel;
      } else {
        last.next := newel;
      }
      last := newel;
      count := count + 1;
      Nodes := Nodes + [newel];
      forall i | 0 <= i < |Nodes|
        ensures Nodes[i].next == if i + 1 < |Nodes| then Nodes[i + 1] else null
        ensures Nodes[i].prev == if i > 0 then Nodes[i - 1] else null
      {
        if i < |before| { assert Nodes[i] == before[i]; }
      }
    }

    /** Inserts before `index`, or at the end when `index` is null. */
    method Insert(content: T, index: Node?<T>, ghost at: nat) returns (newel: Node<T>)
      requires Valid() && at <= |Nodes|
      requires if index == null then at == |Nodes| else at < |Nodes| && Nodes[at] == index
      modifies this, Nodes
      ensures Valid() && fresh(newel) && Nodes == old(Nodes)[..at] + [newel] + old(Nodes)[at..]
      ensures Contents() == old(Contents())[..at] + [content] + old(Contents())[at..]
      ensures current == old(current)
    {
      if index == null {
        newel := Append(content);
      } else {
        newel := InsertBefore(content, index, at);
      }
    }

    method InsertBefore(content: T, index: Node<T>, ghost at: nat) returns (newel: Node<T>)
      requires Valid() && at < |Nodes| && Nodes[at] == index
      modifies this, Nodes
      ensures Valid() && fresh(newel) && Nodes == old(Nodes)[..at] + [newel] + old(Nodes)[at..]
      ensures Contents() == old(Contents())[..at] + [content] + old(Contents())[at..]
      ensures current == old(current)
    {
      ghost var before, contents := Nodes, Contents();
      newel := new Node(content);
      Splice(newel, index, at);
      count := count + 1;
      Nodes := Nodes[..at] + [newel] + Nodes[at..];
      InsertValid(before, at, newel);
      CursorStays(before, at, newel, current);
      SplicedContents(before, at, newel, contents);
    }

    lemma SplicedContents(before: seq<Node<T>>, at: nat, newel: Node<T>, contents: seq<T>)
      requires at < |before| == |contents| && Nodes == before[..at] + [newel] + before[at..]
      requires forall i :: 0 <= i < |before| ==> before[i].content == contents[i]
      ensures Contents() == contents[..at] + [newel.content] + contents[at..]
    {
      forall i | 0 <= i < |Nodes| ensures Contents()[i] == (contents[..at] + [newel.content] + contents[at..])[i] {
        assert Nodes[i] == if i < at then before[i] else if i == at then newel else before[i - 1];
      }
    }

    static lemma CursorStays(before: seq<Node<T>>, at: nat, newel: Node<T>, cursor: Node?<T>)
      requires at <= |before| && (cursor != null ==> cursor in before)
      ensures cursor != null ==> cursor in before[..at] + [newel] + before[at..]
    {
      if cursor != null {
        var k :| 0 <= k < |before| && before[k] == cursor;
        assert (before[..at] + [newel] + before[at..])[if k < at then k else k + 1] == cursor;
      }
    }

    /** Hooks a fresh node in before `index`. */
    method Splice(newel: Node<T>, index: Node<T>, ghost at: nat)
      requires Linked(Nodes) && at < |Nodes| && Nodes[at] == index && newel !in Nodes
      modifies this`first, Nodes, newel
      ensures newel.next == index && newel.prev == (if at > 0 then Nodes[at - 1] else null)
      ensures newel.content == old(newel.content)
      ensures first == if at == 0 then newel else Nodes[0]
      ensures forall i {:trigger Nodes[i].next} :: 0 <= i < |Nodes| ==>
        Nodes[i].next == if i + 1 == at then newel else if i + 1 < |Nodes| then Nodes[i + 1] else null
      ensures forall i {:trigger Nodes[i].prev} :: 0 <= i < |Nodes| ==>
        Nodes[i].prev == if i == at then newel else if i > 0 then Nodes[i - 1] else null
      ensures forall i {:trigger Nodes[i].content} :: 0 <= i < |Nodes| ==> Nodes[i].content == old(Nodes[i].content)
    {
      newel.next := index;
      newel.prev := index.prev;
      index.prev := newel;
      if newel.prev != null {
        newel.prev.next := newel;
      } else {
        first := newel;
      }
    }

    lemma InsertValid(before: seq<Node<T>>, at: nat, newel: Node<T>)
      requires at < |before| && Nodes == before[..at] + [newel] + before[at..]
      requires newel !in before && forall i, j :: 0 <= i < j < |before| ==> before[i] != before[j]
      requires newel.next == before[at] && newel.prev == if at > 0 then before[at - 1] else null
      requires first == (if at == 0 then newel else before[0]) && last == before[|before| - 1]
      requires forall i {:trigger before[i].next} :: 0 <= i < |before| ==>
        before[i].next == if i + 1 == at then newel else if i + 1 < |before| then before[i + 1] else null
      requires forall i {:trigger before[i].prev} :: 0 <= i < |before| ==>
        before[i].prev == if i == at then newel else if i > 0 then before[i - 1] else null
      ensures Linked(Nodes)
    {
      forall i | 0 <= i < |Nodes|
        ensures Nodes[i].next == if i + 1 < |Nodes| then Nodes[i + 1] else null
        ensures Nodes[i].prev == if i > 0 then Nodes[i - 1] else null
      {
        assert Nodes[i] == if i < at then before[i] else if i == at then newel else before[i - 1];
      }
    }

    /**
     Search through the cached cursor, then from the head.  The result is the node a plain
     scan finds unless the cursor sits on a later match; so with one match they agree.
     */
    method FindItem(p: T -> bool) returns (rc: Node?<T>)
      requires Valid()
      modifies this`current
      ensures Valid() && Nodes == old(Nodes) && Contents() == old(Contents())
      ensures rc != null ==> rc in Nodes && p(rc.content) && current == rc
      ensures rc == null <==> forall i :: 0 <= i < |Nodes| ==> !p(Nodes[i].content)
      ensures rc == null ==> current == old(current)
      ensures old(current) != null && p(old(current).content) ==> rc == old(current)
      ensures var k := FirstMatch(Contents(), p);
              (if k < |Nodes| then rc == Nodes[k] else rc == null)
              <==> !(k < |Nodes| && old(current) != null && p(old(current).content) && old(current) != Nodes[k])
    {
      ghost var k := FirstMatch(Contents(), p);
      if current != null && p(current.content) {
        rc := current;
        ghost var j :| 0 <= j < |Nodes| && Nodes[j] == current;
        assert p(Contents()[j]);
      } else {
        rc := Scan(p);
        if rc != null { current := rc; }
      }
    }

    /** The head-to-tail scan. */
    method Scan(p: T -> bool) returns (rc: Node?<T>)
      requires Valid()
      ensures var k := FirstMatch(Contents(), p); rc == if k < |Nodes| then Nodes[k] else null
    {
      var cur := first;
      ghost var i, k := 0, FirstMatch(Contents(), p);
      while cur != null
        invariant 0 <= i <= k <= |Nodes|
        invariant cur == if i < |Nodes| then Nodes[i] else null
        decreases |Nodes| - i
      {
        assert Contents()[i] == cur.content;
        if p(cur.content) { return cur; }
        cur := cur.next;
        i := i + 1;
      }
      return null;
    }

    /** Removes the element that FindItem finds; the cursor stays, or moves to its successor. */
    method Unlink(p: T -> bool) returns (removed: bool, ghost at: nat)
      requires Valid()
      modifies this, Nodes
      ensures Valid()
      ensures removed <==> exists i :: 0 <= i < |old(Nodes)| && p(old(Contents())[i])
      ensures !removed ==> Nodes == old(Nodes) && Contents() == old(Contents()) && current == old(current)
      ensures removed ==> at < |old(Nodes)| && p(old(Contents())[at])
                          && Nodes == Without(old(Nodes), at) && Contents() == Without(old(Contents()), at)
      ensures removed ==> at == FirstMatch(old(Contents()), p) || old(Nodes)[at] == old(current)
      ensures removed && old(current) != old(Nodes)[at] ==> current == old(current)
      ensures removed && old(current) == old(Nodes)[at] ==>
                current == if at + 1 < |old(Nodes)| then old(Nodes)[at + 1] else null
    {
      var saved := current;
      var found := FindItem(p);
      if found == null {
        removed, at := false, 0;
        return;
      }
      at :| 0 <= at < |Nodes| && Nodes[at] == found;
      assert p(Contents()[at]);
      ghost var k := FirstMatch(Contents(), p);
      assert found != saved ==> found == Nodes[k] && at == k;
      UnlinkNode(found, saved, at);
      removed := true;
    }

    /** Routes both chains round the node at index `at`. */
    method Bypass(found: Node<T>, ghost at: nat)
      requires Linked(Nodes) && at < |Nodes| && Nodes[at] == found
      modifies this`first, this`last, Nodes
      ensures first == if at == 0 then (if |Nodes| > 1 then Nodes[1] else null) else Nodes[0]
      ensures last == if at == |Nodes| - 1 then (if at > 0 then Nodes[at - 1] else null) else Nodes[|Nodes| - 1]
      ensures forall i {:trigger Nodes[i].next} :: 0 <= i < |Nodes| && i != at ==>
        Nodes[i].next == if i + 1 == at then (if at + 1 < |Nodes| then Nodes[at + 1] else null)
                         else if i + 1 < |Nodes| then Nodes[i + 1] else null
      ensures forall i {:trigger Nodes[i].prev} :: 0 <= i < |Nodes| && i != at ==>
        Nodes[i].prev == if i == at + 1 then (if at > 0 then Nodes[at - 1] else null)
                         else if i > 0 then Nodes[i - 1] else null
      ensures found.next == old(found.next)
      ensures forall i {:trigger Nodes[i].content} :: 0 <= i < |Nodes| ==> Nodes[i].content == old(Nodes[i].content)
    {
      if found.prev == null {
        first := found.next;
      } else {
        found.prev.next := found.next;
      }
      if found.next == null {
        last := found.prev;
      } else {
        found.next.prev := found.prev;
      }
    }

    /** The relinking half of Unlink, for the node that was found at index `at`. */
    method UnlinkNode(found: Node<T>, saved: Node?<T>, ghost at: nat)
      requires Valid() && at < |Nodes| && Nodes[at] == found && (saved != null ==> saved in Nodes)
      modifies this, Nodes
      ensures Valid() && Nodes == Without(old(Nodes), at) && Contents() == Without(old(Contents()), at)
      ensures current == if saved != found then saved
                         else if at + 1 < |old(Nodes)| then old(Nodes)[at + 1] else null
    {
      ghost var before, contents := Nodes, Contents();
      Bypass(found, at);
      current := if saved == found then found.next else saved;
      count := count - 1;
      Nodes := Without(Nodes, at);
      UnlinkValid(before, at);
      CursorKept(before, at, current);
      ContentsUnlinked(before, at, contents);
    }

    lemma ContentsUnlinked(before: seq<Node<T>>, at: nat, contents: seq<T>)
      requires at < |before| == |contents| && Nodes == Without(before, at)
      requires forall i :: 0 <= i < |before| && i != at ==> before[i].content == contents[i]
      ensures Contents() == Without(contents, at)
    {
      forall i | 0 <= i < |Nodes| ensures Nodes[i].content == Without(contents, at)[i] {
        assert Nodes[i] == before[if i < at then i else i + 1];
      }
      ContentsAre(Without(contents, at));
    }

    static lemma CursorKept(before: seq<Node<T>>, at: nat, cursor: Node?<T>)
      requires at < |before| && (cursor != null ==> cursor in before && cursor != before[at])
      ensures cursor != null ==> cursor in Without(before, at)
    {
      if cursor != null {
        var k :| 0 <= k < |before| && before[k] == cursor;
        assert cursor == Without(before, at)[if k < at then k else k - 1];
      }
    }

    lemma UnlinkValid(before: seq<Node<T>>, at: nat)
      requires at < |before| && Nodes == Without(before, at)
      requires forall i, j :: 0 <= i < j < |before| ==> before[i] != before[j]
      requires first == if at == 0 then (if |before| > 1 then before[1] else null) else before[0]
      requires last == if at == |before| - 1 then (if at > 0 then before[at - 1] else null) else before[|before| - 1]
      requires forall i {:trigger before[i].next} :: 0 <= i < |before| && i != at ==>
        before[i].next == if i + 1 == at then (if at + 1 < |before| then before[at + 1] else null)
                          else if i + 1 < |before| then before[i + 1] else null
      requires forall i {:trigger before[i].prev} :: 0 <= i < |before| && i != at ==>
        before[i].prev == if i == at + 1 then (if at > 0 then before[at - 1] else null)
                          else if i > 0 then before[i - 1] else null
      ensures Linked(Nodes)
    {
      forall i | 0 <= i < |Nodes|
        ensures Nodes[i].next == if i + 1 < |Nodes| then Nodes[i + 1] else null
        ensures Nodes[i].prev == if i > 0 then Nodes[i - 1] else null
      {
        assert Nodes[i] == before[if i < at then i else i + 1];
      }
    }

    method DetachHead() returns (content: Option<T>)
      requires Valid()
      modifies this, Nodes
      ensures Valid()
      ensures old(Nodes) == [] ==> content == None && Nodes == [] && current == old(current)
      ensures old(Nodes) != [] ==> content == Some(old(Contents())[0])
                                   && Nodes == old(Nodes)[1..] && Contents() == old(Contents())[1..]
      ensures old(Nodes) != [] && old(current) != old(Nodes)[0] ==> current == old(current)
    {
      content := None;
      if count > 0 {
        var head := first;
        if current == head { current := head.next; }
        if last == head { last := null; }
        content := Some(head.content);
        first := first.next;
        if first != null { first.prev := null; }
        count := count - 1;
        ghost var contents := old(Contents());
        Nodes := Nodes[1..];
        ContentsAre(contents[1..]);
      }
    }

    method PopTail() returns (content: Option<T>)
      requires Valid()
      modifies this, Nodes
      ensures Valid()
      ensures old(Nodes) == [] ==> content == None && Nodes == [] && current == old(current)
      ensures old(Nodes) != [] ==> var n := |old(Nodes)| - 1;
                content == Some(old(Contents())[n]) && Nodes == old(Nodes)[..n] && Contents() == old(Contents())[..n]
      ensures old(Nodes) != [] && old(current) != old(Nodes)[|old(Nodes)| - 1] ==> current == old(current)
    {
      content := None;
      if count > 0 {
        var tail := last;
        if current == tail { current := tail.prev; }
        if first == tail { first := null; }
        content := Some(tail.content);
        last := last.prev;
        if last != null { last.next := null; }
        count := count - 1;
        ghost var contents := old(Contents());
        Nodes := Nodes[..|Nodes| - 1];
        ContentsAre(contents[..|Nodes|]);
      }
    }

    method Empty()
      requires Valid()
      modifies this
      ensures Valid() && Nodes == [] && current == null
    {
      ghost var k := 0;
      ghost var ns := Nodes;
      while first != null
        invariant 0 <= k <= |ns|
        invariant first == if k < |ns| then ns[k] else null
        invariant forall i {:trigger ns[i].next} :: 0 <= i < |ns| ==> ns[i].next == if i + 1 < |ns| then ns[i + 1] else null
        decreases |ns| - k
      {
        first := first.next;
        k := k + 1;
      }
      count := 0;
      current, first, last := null, null, null;
      Nodes := [];
    }

    /** Following `next` from `first` visits the contents in order. */
    method WalkForward() returns (s: seq<T>)
      requires Valid()
      ensures s == Contents()
    {
      s := [];
      var pos := first;
      while pos != null
        invariant |s| <= |Nodes| && s == Contents()[..|s|]
        invariant pos == if |s| < |Nodes| then Nodes[|s|] else null
        decreases |Nodes| - |s|
      {
        s := s + [pos.content];
        pos := pos.next;
      }
    }

    /** Following `prev` from `last` visits them in reverse. */
    method WalkBackward() returns (s: seq<T>)
      requires Valid()
      ensures s == Reversed(Contents())
    {
      s := [];
      var pos := last;
      while pos != null
        invariant |s| <= |Nodes| && forall i :: 0 <= i < |s| ==> s[i] == Contents()[|Nodes| - 1 - i]
        invariant pos == if |s| < |Nodes| then Nodes[|Nodes| - 1 - |s|] else null
        decreases |Nodes| - |s|
      {
        s := s + [pos.content];
        pos := pos.prev;
      }
      forall i | 0 <= i < |s| ensures s[i] == Reversed(Contents())[i] {
        ReversedAt(Contents(), i);
      }
    }
  }
}
