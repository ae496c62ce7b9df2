/** When minifying the formatted print of a tree gives its unformatted print. */
module JsonMinifyPrint {
  import opened JsonTree
  import opened JsonParse
  import opened JsonMinify

  /** A string that the minifier does not see the end of. */
  predicate Trap(s: string) {
    s != "" && s[|s| - 1] == BACKSLASH
  }

  predicate NoTrap(j: Json) {
    match j
    case String(text) => !Trap(text)
    case Array(child) => NoTrapElements(child)
    case Object(members) => NoTrapMembers(members)
    case _ => true
  }

  predicate NoTrapElements(e: Elements) {
    e.Element? ==> NoTrap(e.value) && NoTrapElements(e.next)
  }

  predicate NoTrapMembers(m: Members) {
    m.Member? ==> !Trap(m.key) && NoTrap(m.value) && NoTrapMembers(m.next)
  }

  /** A string that ends in a backslash does no harm when nothing but brackets follows it. */
  predicate MinifyOk(j: Json) {
    match j
    case Array(child) => MinifyOkElements(child)
    case Object(members) => NoTrapMembers(members)
    case _ => true
  }

  predicate MinifyOkElements(e: Elements) {
    if e.NoElements? then true
    else if e.next.NoElements? then MinifyOk(e.value)
    else NoTrap(e.value) && MinifyOkElements(e.next)
  }

  // ---------------------------------------------------------------- pieces of text

  /** A character that the minifier keeps as it is. */
  predicate Plain(c: char) {
    !Blank(c) && c != '/' && c != QUOTE
  }

  lemma {:induction false} PlainMinified(w: string, rest: string)
    requires forall i :: 0 <= i < |w| ==> Plain(w[i])
    ensures Minified(w + rest) == w + Minified(rest)
  {
    if w == "" {
      assert w + rest == rest;
    } else {
      assert (w + rest)[0] == w[0] && (w + rest)[1..] == w[1..] + rest;
      PlainMinified(w[1..], rest);
      assert [w[0]] + (w[1..] + Minified(rest)) == w + Minified(rest);
    }
  }

  lemma {:induction false} BlankMinified(w: string, rest: string)
    requires forall i :: 0 <= i < |w| ==> Blank(w[i])
    ensures Minified(w + rest) == Minified(rest)
  {
    if w == "" {
      assert w + rest == rest;
    } else {
      assert (w + rest)[0] == w[0] && (w + rest)[1..] == w[1..] + rest;
      BlankMinified(w[1..], rest);
    }
  }

  /** One character of a string that is not a quote and not a backslash before a quote. */
  lemma StringCharKept(c: char, rest: string)
    requires c != QUOTE && (c == BACKSLASH ==> rest == "" || rest[0] != QUOTE)
    ensures InString([c] + rest) == [c] + InString(rest)
  {
    assert ([c] + rest)[1..] == rest;
    StringStep([c] + rest);
  }

  lemma {:induction false} StringCharsKept(w: string, rest: string)
    requires forall i :: 0 <= i < |w| ==> w[i] != QUOTE
    requires w != "" ==> w[|w| - 1] != BACKSLASH
    ensures InString(w + rest) == w + InString(rest)
  {
    if w == "" {
      assert w + rest == rest;
    } else {
      assert w + rest == [w[0]] + (w[1..] + rest);
      StringCharsKept(w[1..], rest);
      hide InString;
      if |w| > 1 { assert (w[1..] + rest)[0] == w[1]; }
      StringCharKept(w[0], w[1..] + rest);
      assert [w[0]] + (w[1..] + InString(rest)) == w + InString(rest);
    }
  }

  lemma EscapedQuoteKept(rest: string)
    ensures InString([BACKSLASH, QUOTE] + rest) == [BACKSLASH, QUOTE] + InString(rest)
  {
    assert ([BACKSLASH, QUOTE] + rest)[2..] == rest;
    StringStep([BACKSLASH, QUOTE] + rest);
  }

  lemma EscapedBackslashKept(rest: string)
    requires rest == "" || rest[0] != QUOTE
    ensures InString([BACKSLASH, BACKSLASH] + rest) == [BACKSLASH, BACKSLASH] + InString(rest)
  {
    hide InString;
    assert [BACKSLASH, BACKSLASH] + rest == [BACKSLASH] + ([BACKSLASH] + rest);
    StringCharKept(BACKSLASH, [BACKSLASH] + rest);
    StringCharKept(BACKSLASH, rest);
    assert [BACKSLASH] + ([BACKSLASH] + InString(rest)) == [BACKSLASH, BACKSLASH] + InString(rest);
  }

  lemma EscapeKept(c: char, rest: string)
    requires c == BACKSLASH ==> rest == "" || rest[0] != QUOTE
    ensures InString(EscapedChar(c) + rest) == EscapedChar(c) + InString(rest)
  {
    if c == QUOTE {
      EscapedQuoteKept(rest);
    } else if c == BACKSLASH {
      EscapedBackslashKept(rest);
    } else {
      EscapeChars(c);
      hide InString, EscapedChar;
      StringCharsKept(EscapedChar(c), rest);
    }
  }

  lemma EscapeChars(c: char)
    requires c != QUOTE && c != BACKSLASH
    ensures var e := EscapedChar(c);
            e != "" && e[|e| - 1] != BACKSLASH && forall i :: 0 <= i < |e| ==> e[i] != QUOTE
  {
  }

  lemma EscapedStart(s: string, rest: string)
    requires s != ""
    ensures Escaped(s) + rest != "" && (Escaped(s) + rest)[0] != QUOTE
  {
  }

  /** What the minifier makes of the text behind a string: it may still believe to be inside. */
  function Behind(s: string, rest: string): string {
    if Trap(s) then InString(rest) else Minified(rest)
  }

  lemma BehindIs(s: string, rest: string)
    ensures Trap(s) ==> Behind(s, rest) == InString(rest)
    ensures !Trap(s) ==> Behind(s, rest) == Minified(rest)
  {
  }

  lemma TrapTail(s: string)
    requires s != ""
    ensures |s| > 1 || s[0] != BACKSLASH ==> Trap(s) == Trap(s[1..])
    ensures |s| == 1 ==> Trap(s) == (s[0] == BACKSLASH)
    ensures Escaped(s) == EscapedChar(s[0]) + Escaped(s[1..])
  {
  }

  lemma EmptyKept(rest: string)
    ensures InString(Escaped("") + ([QUOTE] + rest)) == Escaped("") + ([QUOTE] + Behind("", rest))
  {
    var tail := [QUOTE] + rest;
    assert Escaped("") + tail == tail && tail[1..] == rest;
    StringStep(tail);
  }

  /** The text of a string, up to its closing quote or, from a last backslash on, through it. */
  lemma {:induction false} EscapedKept(s: string, rest: string)
    ensures InString(Escaped(s) + ([QUOTE] + rest)) == Escaped(s) + ([QUOTE] + Behind(s, rest))
    decreases |s|
  {
    hide *;
    var tail := [QUOTE] + rest;
    if s == "" {
      EmptyKept(rest);
    } else if |s| == 1 && s[0] == BACKSLASH {
      TrapKept(rest);
      assert s == [BACKSLASH];
    } else {
      var e, r := EscapedChar(s[0]), Escaped(s[1..]);
      TrapTail(s);
      EscapedKept(s[1..], rest);
      if s[0] == BACKSLASH { EscapedStart(s[1..], tail); }
      EscapeKept(s[0], r + tail);
      Assoc(e, r, tail);
      BehindIs(s, rest);
      BehindIs(s[1..], rest);
      Assoc(e, r, [QUOTE] + Behind(s, rest));
    }
  }

  lemma TrapKept(rest: string)
    ensures InString(Escaped([BACKSLASH]) + ([QUOTE] + rest)) == Escaped([BACKSLASH]) + ([QUOTE] + Behind([BACKSLASH], rest))
  {
    BehindIs([BACKSLASH], rest);
    assert Escaped([BACKSLASH]) == [BACKSLASH, BACKSLASH] by { assert Escaped([BACKSLASH][1..]) == ""; }
    var t := [BACKSLASH, BACKSLASH] + ([QUOTE] + rest);
    assert t == [BACKSLASH] + ([BACKSLASH, QUOTE] + rest);
    hide Escaped, InString;
    StringCharKept(BACKSLASH, [BACKSLASH, QUOTE] + rest);
    var u := [BACKSLASH, QUOTE] + rest;
    assert u[2..] == rest;
    StringStep(u);
    assert [BACKSLASH] + ([BACKSLASH, QUOTE] + InString(rest)) == [BACKSLASH, BACKSLASH] + ([QUOTE] + InString(rest));
  }

  lemma QuotedSplit(s: string, rest: string)
    ensures Quoted(s) + rest == [QUOTE] + (Escaped(s) + ([QUOTE] + rest))
  {
    hide Escaped;
  }

  lemma QuotedKept(s: string, rest: string)
    ensures Minified(Quoted(s) + rest) == Quoted(s) + Behind(s, rest)
  {
    hide *;
    var body := Escaped(s) + ([QUOTE] + rest);
    QuotedSplit(s, rest);
    QuotedSplit(s, Behind(s, rest));
    assert ([QUOTE] + body)[1..] == body;
    MinifyStep([QUOTE] + body);
    EscapedKept(s, rest);
  }

  // ---------------------------------------------------------------- the pieces of a print

  lemma Piece(kept: string, dropped: string, rest: string)
    requires forall i :: 0 <= i < |kept| ==> Plain(kept[i])
    requires forall i :: 0 <= i < |dropped| ==> Blank(dropped[i])
    ensures Minified(kept + dropped + rest) == kept + Minified(rest)
  {
    hide Minified;
    Assoc(kept, dropped, rest);
    PlainMinified(kept, dropped + rest);
    BlankMinified(dropped, rest);
  }

  lemma CommaKept(rest: string)
    ensures Minified(Comma(true) + rest) == Comma(false) + Minified(rest)
  {
    hide Minified;
    assert Comma(true) == "," + " ";
    Piece(",", " ", rest);
  }

  lemma ColonKept(rest: string)
    ensures Minified(Colon(true) + rest) == Colon(false) + Minified(rest)
  {
    hide Minified;
    assert Colon(true) == ":" + "\t";
    Piece(":", "\t", rest);
  }

  lemma EndKept(more: bool, rest: string)
    ensures Minified(MemberEnd(more, true) + rest) == MemberEnd(more, false) + Minified(rest)
  {
    hide Minified;
    var kept := if more then "," else "";
    assert MemberEnd(more, true) == kept + "\n" && MemberEnd(more, false) == kept;
    Piece(kept, "\n", rest);
  }

  lemma OpenKept(rest: string)
    ensures Minified(Open(true) + rest) == Open(false) + Minified(rest)
  {
    hide Minified;
    assert Open(true) == "{" + "\n";
    Piece("{", "\n", rest);
  }

  lemma CloseKept(depth: nat, rest: string)
    ensures Minified(Close(true, depth) + rest) == Close(false, depth) + Minified(rest)
  {
    hide Minified;
    assert forall i :: 0 <= i < depth ==> Blank(Tabs(depth)[i]);
    Assoc(Tabs(depth), "}", rest);
    BlankMinified(Tabs(depth), "}" + rest);
    PlainMinified("}", rest);
  }

  lemma IndentKept(depth: nat, rest: string)
    ensures Minified(Indent(true, depth) + rest) == Minified(rest) && Indent(false, depth) + Minified(rest) == Minified(rest)
  {
    hide Minified;
    assert forall i :: 0 <= i < depth ==> Blank(Tabs(depth)[i]);
    BlankMinified(Tabs(depth), rest);
    assert "" + Minified(rest) == Minified(rest);
  }

  lemma ArrayParts(child: Elements, format: bool, depth: nat, rest: string)
    ensures Render(Array(child), format, depth) + rest == "[" + (RenderElements(child, format, depth + 1) + ("]" + rest))
  {
    hide RenderElements;
  }

  lemma ObjectParts(members: Members, format: bool, depth: nat, rest: string)
    ensures Render(Object(members), format, depth) + rest
         == Open(format) + (RenderMembers(members, format, depth + 1) + (Close(format, depth) + rest))
  {
    hide RenderMembers, Open, Close;
  }

  lemma LastElement(e: Elements, format: bool, depth: nat)
    requires e.Element? && e.next.NoElements?
    ensures RenderElements(e, format, depth) == Render(e.value, format, depth)
  {
    hide Render;
    assert RenderElements(e.next, format, depth) == "";
  }

  lemma MoreElements(e: Elements, format: bool, depth: nat, rest: string)
    requires e.Element? && e.next.Element?
    ensures RenderElements(e, format, depth) + rest
         == Render(e.value, format, depth) + (Comma(format) + (RenderElements(e.next, format, depth) + rest))
  {
    hide Render, Comma;
    var v, c, r := Render(e.value, format, depth), Comma(format), RenderElements(e.next, format, depth);
    assert RenderElements(e, format, depth) == v + c + r;
    hide RenderElements;
    assert v + c + r + rest == v + (c + (r + rest));
  }

  lemma MemberTexts(m: Members, format: bool, depth: nat, rest: string)
    requires m.Member?
    ensures RenderMembers(m, format, depth) + rest
         == Indent(format, depth) + (Quoted(m.key) + (Colon(format) + (Render(m.value, format, depth)
            + (MemberEnd(m.next.Member?, format) + (RenderMembers(m.next, format, depth) + rest)))))
  {
    hide Render, Quoted, Colon, MemberEnd;
    var a, b, c := Indent(format, depth), Quoted(m.key), Colon(format);
    var v, e, r := Render(m.value, format, depth), MemberEnd(m.next.Member?, format), RenderMembers(m.next, format, depth);
    assert RenderMembers(m, format, depth) == a + b + c + v + e + r;
    hide *;
    Assoc6(a, b, c, v, e, r, rest);
  }

  lemma Assoc6(a: string, b: string, c: string, d: string, e: string, f: string, g: string)
    ensures a + b + c + d + e + f + g == a + (b + (c + (d + (e + (f + g)))))
  {
  }

  // ---------------------------------------------------------------- no string ends in a backslash

  lemma {:induction false} Kept(j: Json, depth: nat, rest: string)
    requires Readable(j) && NoTrap(j)
    ensures Minified(Render(j, true, depth) + rest) == Render(j, false, depth) + Minified(rest)
    decreases j, 1
  {
    match j
    case Array(child) =>
      hide Minified, Render, RenderElements;
      ArrayParts(child, true, depth, rest);
      ArrayParts(child, false, depth, Minified(rest));
      PlainMinified("[", RenderElements(child, true, depth + 1) + ("]" + rest));
      KeptElements(child, depth + 1, "]" + rest);
      PlainMinified("]", rest);
    case Object(members) =>
      hide Minified, Render, RenderMembers, Open, Close;
      ObjectParts(members, true, depth, rest);
      ObjectParts(members, false, depth, Minified(rest));
      OpenKept(RenderMembers(members, true, depth + 1) + (Close(true, depth) + rest));
      KeptMembers(members, depth + 1, Close(true, depth) + rest);
      CloseKept(depth, rest);
    case String(text) =>
      hide Minified, Quoted;
      QuotedKept(text, rest);
      BehindIs(text, rest);
    case _ =>
      PlainScalar(j, depth);
      hide Minified, Render, Plain;
      PlainMinified(Render(j, true, depth), rest);
  }

  lemma PlainScalar(j: Json, depth: nat)
    requires Readable(j) && !j.Array? && !j.Object? && !j.String?
    ensures Render(j, true, depth) == Render(j, false, depth)
    ensures forall i :: 0 <= i < |Render(j, true, depth)| ==> Plain(Render(j, true, depth)[i])
  {
    if j.Number? {
      forall i | 0 <= i < |j.token| ensures Plain(j.token[i]) { assert NumberChar(j.token[i]); }
    }
  }

  lemma {:induction false} KeptElements(e: Elements, depth: nat, rest: string)
    requires ReadableElements(e) && NoTrapElements(e)
    ensures Minified(RenderElements(e, true, depth) + rest) == RenderElements(e, false, depth) + Minified(rest)
    decreases e, 1
  {
    if e.NoElements? {
      NoElementsText(true, depth, rest);
      NoElementsText(false, depth, Minified(rest));
    } else {
      Kept(e.value, depth, if e.next.NoElements? then rest else Comma(true) + (RenderElements(e.next, true, depth) + rest));
      KeptElements(e.next, depth, rest);
      hide Minified, Render, RenderElements, Comma;
      if e.next.NoElements? {
        LastElement(e, true, depth);
        LastElement(e, false, depth);
      } else {
        MoreElements(e, true, depth, rest);
        MoreElements(e, false, depth, Minified(rest));
        CommaKept(RenderElements(e.next, true, depth) + rest);
      }
    }
  }

  lemma NoElementsText(format: bool, depth: nat, rest: string)
    ensures RenderElements(NoElements, format, depth) + rest == rest
  {
  }

  lemma NoMembersText(format: bool, depth: nat, rest: string)
    ensures RenderMembers(NoMembers, format, depth) + rest == rest
  {
  }

  lemma {:induction false} KeptMembers(m: Members, depth: nat, rest: string)
    requires ReadableMembers(m) && NoTrapMembers(m)
    ensures Minified(RenderMembers(m, true, depth) + rest) == RenderMembers(m, false, depth) + Minified(rest)
    decreases m, 1
  {
    if m.NoMembers? {
      NoMembersText(true, depth, rest);
      NoMembersText(false, depth, Minified(rest));
    } else {
      var tail := RenderMembers(m.next, true, depth) + rest;
      var ended := MemberEnd(m.next.Member?, true) + tail;
      var valued := Render(m.value, true, depth) + ended;
      KeptMembers(m.next, depth, rest);
      Kept(m.value, depth, ended);
      assert !Trap(m.key);
      hide *;
      MemberTexts(m, true, depth, rest);
      MemberTexts(m, false, depth, Minified(rest));
      EndKept(m.next.Member?, tail);
      ColonKept(valued);
      QuotedKept(m.key, Colon(true) + valued);
      BehindIs(m.key, Colon(true) + valued);
      IndentKept(depth, Quoted(m.key) + (Colon(true) + valued));
      NoIndent(depth, Quoted(m.key) + Minified(Colon(true) + valued));
    }
  }

  lemma NoIndent(depth: nat, rest: string)
    ensures Indent(false, depth) + rest == rest
  {
  }

  // ---------------------------------------------------------------- where a lost string shows

  /**
   Two continuations, formatted and not, that agree up to a blank which only the formatted
   one has, with no quote and no backslash before it.
   */
  ghost predicate ForksAt(f: string, u: string, k: nat) {
    && k < |f| && k <= |u| && f[..k] == u[..k]
    && (forall i :: 0 <= i < k ==> f[i] != QUOTE && f[i] != BACKSLASH)
    && Blank(f[k]) && (k == |u| || !Blank(u[k]))
  }

  ghost predicate Forks(f: string, u: string) {
    exists k: nat :: ForksAt(f, u, k)
  }

  lemma {:induction false} VerbatimPrefix(f: string, n: nat)
    requires n <= |f| && forall i :: 0 <= i < n ==> f[i] != QUOTE && f[i] != BACKSLASH
    ensures n <= |InString(f)| && InString(f)[..n] == f[..n]
  {
    if n > 0 {
      StringStep(f);
      VerbatimPrefix(f[1..], n - 1);
      hide InString;
      assert f[..n] == [f[0]] + f[1..][..n - 1];
    }
  }

  /** Still inside the string, the minifier keeps the blank. */
  lemma ForkShows(f: string, u: string)
    requires Forks(f, u)
    ensures InString(f) != u
  {
    var k: nat :| ForksAt(f, u, k);
    VerbatimPrefix(f, k + 1);
    assert InString(f)[k] == InString(f)[..k + 1][k] == f[..k + 1][k];
  }

  lemma ForkBehind(w: string, f: string, u: string)
    requires Forks(f, u) && forall i :: 0 <= i < |w| ==> w[i] != QUOTE && w[i] != BACKSLASH
    ensures Forks(w + f, w + u)
  {
    var k: nat :| ForksAt(f, u, k);
    assert (w + f)[..|w| + k] == w + f[..k] && (w + u)[..|w| + k] == w + u[..k];
    assert ForksAt(w + f, w + u, |w| + k);
  }

  lemma ForkHere(f: string, u: string)
    requires f != "" && Blank(f[0]) && (u == "" || !Blank(u[0]))
    ensures Forks(f, u)
  {
    assert ForksAt(f, u, 0);
  }

  lemma SamePrefix(p: string, a: string, b: string)
    ensures p + a == p + b ==> a == b
  {
    assert (p + a)[|p|..] == a && (p + b)[|p|..] == b;
  }

  lemma StartsSolid(j: Json, depth: nat, rest: string)
    requires Readable(j)
    ensures var t := Render(j, false, depth) + rest; t != "" && !Blank(t[0])
  {
    FirstChar(j, false, depth);
    hide Render;
  }

  lemma ElementsSolid(e: Elements, depth: nat, rest: string)
    requires e.Element? && ReadableElements(e)
    ensures var t := RenderElements(e, false, depth) + rest; t != "" && !Blank(t[0])
  {
    ElementsStart(e, false, depth);
    hide RenderElements;
  }

  /** Behind an element that is not the last: a comma, and a blank only if formatted. */
  lemma CommaForks(e: Elements, depth: nat, f: string, u: string)
    requires e.Element? && ReadableElements(e)
    ensures Forks(Comma(true) + (RenderElements(e, true, depth) + f), Comma(false) + (RenderElements(e, false, depth) + u))
  {
    ElementsSolid(e, depth, u);
    hide RenderElements;
    var a, b := RenderElements(e, true, depth) + f, RenderElements(e, false, depth) + u;
    ForkHere(" " + a, b);
    ForkBehind(",", " " + a, b);
    assert Comma(true) + a == "," + (" " + a);
  }

  lemma ColonForks(j: Json, depth: nat, f: string, u: string)
    requires Readable(j)
    ensures Forks(Colon(true) + f, Colon(false) + (Render(j, false, depth) + u))
  {
    StartsSolid(j, depth, u);
    hide Render;
    var b := Render(j, false, depth) + u;
    ForkHere("\t" + f, b);
    ForkBehind(":", "\t" + f, b);
    assert Colon(true) + f == ":" + ("\t" + f);
  }

  lemma EndForks(next: Members, depth: nat, f: string, u: string)
    requires u != "" && !Blank(u[0])
    ensures Forks(MemberEnd(next.Member?, true) + f, MemberEnd(next.Member?, false) + (RenderMembers(next, false, depth) + u))
  {
    MembersSolid(next, depth, u);
    var b := RenderMembers(next, false, depth) + u;
    hide RenderMembers;
    EndTexts(f, b);
    ForkHere("\n" + f, b);
    hide Forks, MemberEnd;
    if next.Member? { ForkBehind(",", "\n" + f, b); }
  }

  lemma EndTexts(f: string, u: string)
    ensures MemberEnd(true, true) + f == "," + ("\n" + f) && MemberEnd(true, false) + u == "," + u
    ensures MemberEnd(false, true) + f == "\n" + f && MemberEnd(false, false) + u == u
  {
  }

  lemma MembersSolid(m: Members, depth: nat, u: string)
    requires u != "" && !Blank(u[0])
    ensures var t := RenderMembers(m, false, depth) + u; t != "" && !Blank(t[0])
  {
    if m.Member? {
      MemberTexts(m, false, depth, u);
      hide RenderMembers;
    } else {
      NoMembersText(false, depth, u);
    }
  }

  // ---------------------------------------------------------------- a trap before a fork

  lemma {:induction false} Breaks(j: Json, depth: nat, f: string, u: string)
    requires Readable(j) && !NoTrap(j) && Forks(f, u)
    ensures Minified(Render(j, true, depth) + f) != Render(j, false, depth) + u
    decreases j, 1
  {
    match j
    case Array(child) =>
      hide Minified, Render, RenderElements, Forks;
      ArrayParts(child, true, depth, f);
      ArrayParts(child, false, depth, u);
      PlainMinified("[", RenderElements(child, true, depth + 1) + ("]" + f));
      ForkBehind("]", f, u);
      BreaksElements(child, depth + 1, "]" + f, "]" + u);
      SamePrefix("[", Minified(RenderElements(child, true, depth + 1) + ("]" + f)), RenderElements(child, false, depth + 1) + ("]" + u));
    case Object(members) => BreaksObject(members, depth, f, u);
    case String(text) =>
      hide Minified, Quoted, Forks;
      QuotedKept(text, f);
      BehindIs(text, f);
      ForkShows(f, u);
      SamePrefix(Quoted(text), InString(f), u);
  }

  lemma {:induction false} BreaksObject(members: Members, depth: nat, f: string, u: string)
    requires ReadableMembers(members) && !NoTrapMembers(members) && Forks(f, u)
    ensures Minified(Render(Object(members), true, depth) + f) != Render(Object(members), false, depth) + u
    decreases members, 2
  {
    hide Minified, Render, RenderMembers, Open, Close, Forks;
    ObjectParts(members, true, depth, f);
    ObjectParts(members, false, depth, u);
    OpenKept(RenderMembers(members, true, depth + 1) + (Close(true, depth) + f));
    CloseSolid(depth, u);
    BreaksMembers(members, depth + 1, Close(true, depth) + f, Close(false, depth) + u);
    SamePrefix(Open(false), Minified(RenderMembers(members, true, depth + 1) + (Close(true, depth) + f)),
               RenderMembers(members, false, depth + 1) + (Close(false, depth) + u));
  }

  lemma CloseSolid(depth: nat, u: string)
    ensures Close(false, depth) + u != "" && !Blank((Close(false, depth) + u)[0])
  {
  }

  lemma {:induction false} BreaksElements(e: Elements, depth: nat, f: string, u: string)
    requires ReadableElements(e) && !NoTrapElements(e) && Forks(f, u)
    ensures Minified(RenderElements(e, true, depth) + f) != RenderElements(e, false, depth) + u
    decreases e, 1
  {
    hide Minified, Render, RenderElements, Comma, Forks;
    if e.next.NoElements? {
      LastElement(e, true, depth);
      LastElement(e, false, depth);
      Breaks(e.value, depth, f, u);
    } else {
      var a, b := RenderElements(e.next, true, depth) + f, RenderElements(e.next, false, depth) + u;
      MoreElements(e, true, depth, f);
      MoreElements(e, false, depth, u);
      if NoTrap(e.value) {
        Kept(e.value, depth, Comma(true) + a);
        CommaKept(a);
        BreaksElements(e.next, depth, f, u);
        SamePrefix(Comma(false), Minified(a), b);
        SamePrefix(Render(e.value, false, depth), Comma(false) + Minified(a), Comma(false) + b);
      } else {
        CommaForks(e.next, depth, f, u);
        Breaks(e.value, depth, Comma(true) + a, Comma(false) + b);
      }
    }
  }

  /** An object puts a blank behind every key and every value, whatever follows it. */
  lemma {:induction false} BreaksMembers(m: Members, depth: nat, f: string, u: string)
    requires ReadableMembers(m) && !NoTrapMembers(m) && u != "" && !Blank(u[0])
    ensures Minified(RenderMembers(m, true, depth) + f) != RenderMembers(m, false, depth) + u
    decreases m, 1
  {
    hide Minified, Render, RenderMembers, Colon, MemberEnd, Quoted, Indent, Forks, Trap;
    var a, b := RenderMembers(m.next, true, depth) + f, RenderMembers(m.next, false, depth) + u;
    var more := m.next.Member?;
    var ended, ended' := MemberEnd(more, true) + a, MemberEnd(more, false) + b;
    var valued, valued' := Render(m.value, true, depth) + ended, Render(m.value, false, depth) + ended';
    var keyed, keyed' := Colon(true) + valued, Colon(false) + valued';
    MemberTexts(m, true, depth, f);
    MemberTexts(m, false, depth, u);
    IndentKept(depth, Quoted(m.key) + keyed);
    NoIndent(depth, Quoted(m.key) + keyed');
    QuotedKept(m.key, keyed);
    BehindIs(m.key, keyed);
    if Trap(m.key) {
      ColonForks(m.value, depth, valued, ended');
      ForkShows(keyed, keyed');
      SamePrefix(Quoted(m.key), InString(keyed), keyed');
    } else {
      ColonKept(valued);
      if NoTrap(m.value) {
        Kept(m.value, depth, ended);
        EndKept(more, a);
        BreaksMembers(m.next, depth, f, u);
        SamePrefix(MemberEnd(more, false), Minified(a), b);
        SamePrefix(Render(m.value, false, depth), Minified(ended), ended');
      } else {
        EndForks(m.next, depth, a, u);
        Breaks(m.value, depth, ended, ended');
      }
      SamePrefix(Colon(false), Minified(valued), valued');
      SamePrefix(Quoted(m.key), Minified(keyed), keyed');
    }
  }

  // ---------------------------------------------------------------- exactly when

  /** The brackets that close the arrays around a value. */
  function Brackets(n: nat): string {
    seq(n, _ => ']')
  }

  lemma MoreBrackets(n: nat)
    ensures "]" + Brackets(n) == Brackets(n + 1)
  {
  }

  lemma BracketsKept(n: nat)
    ensures Minified(Brackets(n)) == Brackets(n) && InString(Brackets(n)) == Brackets(n)
  {
    var b := Brackets(n);
    assert b + "" == b;
    PlainMinified(b, "");
    StringCharsKept(b, "");
  }

  lemma {:induction false} OkKept(j: Json, depth: nat, n: nat)
    requires Readable(j) && MinifyOk(j)
    ensures Minified(Render(j, true, depth) + Brackets(n)) == Render(j, false, depth) + Brackets(n)
    decreases j, 1
  {
    BracketsKept(n);
    match j
    case Array(child) =>
      hide Minified, Render, RenderElements, Brackets;
      ArrayParts(child, true, depth, Brackets(n));
      ArrayParts(child, false, depth, Brackets(n));
      MoreBrackets(n);
      PlainMinified("[", RenderElements(child, true, depth + 1) + Brackets(n + 1));
      OkKeptElements(child, depth + 1, n + 1);
    case String(text) =>
      hide Minified, Quoted, Brackets;
      QuotedKept(text, Brackets(n));
      BehindIs(text, Brackets(n));
    case _ =>
      hide Minified, Render, Brackets;
      Kept(j, depth, Brackets(n));
  }

  lemma {:induction false} OkKeptElements(e: Elements, depth: nat, n: nat)
    requires ReadableElements(e) && MinifyOkElements(e)
    ensures Minified(RenderElements(e, true, depth) + Brackets(n)) == RenderElements(e, false, depth) + Brackets(n)
    decreases e, 1
  {
    if e.NoElements? {
      BracketsKept(n);
      NoElementsText(true, depth, Brackets(n));
      NoElementsText(false, depth, Brackets(n));
    } else {
      hide Minified, Render, RenderElements, Brackets, Comma;
      if e.next.NoElements? {
        LastElement(e, true, depth);
        LastElement(e, false, depth);
        OkKept(e.value, depth, n);
      } else {
        MoreElements(e, true, depth, Brackets(n));
        MoreElements(e, false, depth, Brackets(n));
        Kept(e.value, depth, Comma(true) + (RenderElements(e.next, true, depth) + Brackets(n)));
        CommaKept(RenderElements(e.next, true, depth) + Brackets(n));
        OkKeptElements(e.next, depth, n);
      }
    }
  }

  lemma {:induction false} NotOkLost(j: Json, depth: nat, n: nat)
    requires Readable(j) && !MinifyOk(j)
    ensures Minified(Render(j, true, depth) + Brackets(n)) != Render(j, false, depth) + Brackets(n)
    decreases j, 1
  {
    match j
    case Array(child) =>
      hide Minified, Render, RenderElements, Brackets;
      var a, b := RenderElements(child, true, depth + 1), RenderElements(child, false, depth + 1);
      ArrayParts(child, true, depth, Brackets(n));
      ArrayParts(child, false, depth, Brackets(n));
      MoreBrackets(n);
      PlainMinified("[", a + Brackets(n + 1));
      NotOkLostElements(child, depth + 1, n + 1);
      SamePrefix("[", Minified(a + Brackets(n + 1)), b + Brackets(n + 1));
    case Object(members) => ObjectLost(members, depth, Brackets(n));
  }

  lemma ObjectLost(members: Members, depth: nat, rest: string)
    requires ReadableMembers(members) && !NoTrapMembers(members)
    ensures Minified(Render(Object(members), true, depth) + rest) != Render(Object(members), false, depth) + rest
  {
    hide Minified, Render, RenderMembers, Open, Close, Forks;
    var a, b := Close(true, depth) + rest, Close(false, depth) + rest;
    ObjectParts(members, true, depth, rest);
    ObjectParts(members, false, depth, rest);
    OpenKept(RenderMembers(members, true, depth + 1) + a);
    CloseSolid(depth, rest);
    BreaksMembers(members, depth + 1, a, b);
    SamePrefix(Open(false), Minified(RenderMembers(members, true, depth + 1) + a), RenderMembers(members, false, depth + 1) + b);
  }

  lemma {:induction false} NotOkLostElements(e: Elements, depth: nat, n: nat)
    requires ReadableElements(e) && !MinifyOkElements(e)
    ensures Minified(RenderElements(e, true, depth) + Brackets(n)) != RenderElements(e, false, depth) + Brackets(n)
    decreases e, 1
  {
    hide Minified, Render, RenderElements, Brackets, Comma, Forks;
    if e.next.NoElements? {
      LastElement(e, true, depth);
      LastElement(e, false, depth);
      NotOkLost(e.value, depth, n);
    } else {
      var a, b := RenderElements(e.next, true, depth) + Brackets(n), RenderElements(e.next, false, depth) + Brackets(n);
      MoreElements(e, true, depth, Brackets(n));
      MoreElements(e, false, depth, Brackets(n));
      if NoTrap(e.value) {
        Kept(e.value, depth, Comma(true) + a);
        CommaKept(a);
        NotOkLostElements(e.next, depth, n);
        SamePrefix(Comma(false), Minified(a), b);
        SamePrefix(Render(e.value, false, depth), Comma(false) + Minified(a), Comma(false) + b);
      } else {
        CommaForks(e.next, depth, Brackets(n), Brackets(n));
        Breaks(e.value, depth, Comma(true) + a, Comma(false) + b);
      }
    }
  }

  /** Minifying the formatted print gives the unformatted one exactly for these trees. */
  lemma MinifyMeetsPrinter(j: Json)
    requires Readable(j)
    ensures Minified(Render(j, true, 0)) == Render(j, false, 0) <==> MinifyOk(j)
  {
    hide Minified, Render, MinifyOk;
    assert Render(j, true, 0) + Brackets(0) == Render(j, true, 0);
    assert Render(j, false, 0) + Brackets(0) == Render(j, false, 0);
    if MinifyOk(j) { OkKept(j, 0, 0); } else { NotOkLost(j, 0, 0); }
  }

  /** In particular for every tree in which no string and no key ends in a backslash. */
  lemma {:induction false} NoTrapIsOk(j: Json)
    requires NoTrap(j)
    ensures MinifyOk(j)
    decreases j, 1
  {
    match j
    case Array(child) => NoTrapElementsOk(child);
    case _ =>
  }

  lemma {:induction false} NoTrapElementsOk(e: Elements)
    requires NoTrapElements(e)
    ensures MinifyOkElements(e)
    decreases e, 1
  {
    if e.Element? {
      NoTrapIsOk(e.value);
      NoTrapElementsOk(e.next);
    }
  }
}
