/** A sequence that stands at a place of another one. */
module Sequences {
  ghost predicate At<T>(s: seq<T>, p: nat, t: seq<T>) {
    p + |t| <= |s| && forall i :: 0 <= i < |t| ==> t[i] == s[p + i]
  }

  lemma AtParts<T>(s: seq<T>, p: nat, a: seq<T>, b: seq<T>)
    requires At(s, p, a + b)
    ensures At(s, p, a) && At(s, p + |a|, b)
  {
    assert forall i :: 0 <= i < |a| ==> a[i] == (a + b)[i];
    assert forall i :: 0 <= i < |b| ==> b[i] == (a + b)[|a| + i];
  }

  lemma Associative<T>(a: seq<T>, b: seq<T>, c: seq<T>)
    ensures a + (b + c) == a + b + c
  {
  }

  lemma CountedTwice<T>(s: seq<T>, i: nat, j: nat)
    requires i < j < |s| && s[i] == s[j]
    ensures multiset(s)[s[i]] >= 2
  {
    assert s == s[..i] + [s[i]] + s[i + 1..j] + [s[j]] + s[j + 1..];
  }

  lemma AtSlice<T>(s: seq<T>, p: nat, t: seq<T>, at: nat, n: nat)
    requires At(s, p, t) && at + n <= |t|
    ensures At(s, p + at, t[at..at + n])
  {
    assert t == t[..at] + (t[at..at + n] + t[at + n..]);
    AtParts(s, p, t[..at], t[at..at + n] + t[at + n..]);
    AtParts(s, p + at, t[at..at + n], t[at + n..]);
  }
}
