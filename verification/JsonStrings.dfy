/** Reading a string literal. */
module JsonStrings {
  // One pass finds its end and estimates the size, a second pass decodes it. The passes can disagree about
  // where an escape starts, because the second one takes four characters after `\u` without looking at them.

  import opened Wrappers
  import opened Sequences
  import opened JsonTree

  lemma CharAt(s: string, p: nat, t: string, i: nat)
    requires At(s, p, t) && i < |t|
    ensures p + i < |s| && s[p + i] == t[i]
  {
  }

  // ---------------------------------------------------------------- UTF-8

  function Byte(n: int): char
    requires 0 <= n < 256
  {
    n as char
  }

  /** Section 3 of RFC 3629. */
  function Utf8(cp: int): (bs: string)
    requires 0 <= cp <= 0x10FFFF
    ensures |bs| == if cp < 0x80 then 1 else if cp < 0x800 then 2 else if cp < 0x1_0000 then 3 else 4
  {
    if cp < 0x80 then [Byte(cp)]
    else if cp < 0x800 then [Byte(0xC0 + cp / 64), Byte(0x80 + cp % 64)]
    else if cp < 0x1_0000 then [Byte(0xE0 + cp / 4096), Byte(0x80 + cp / 64 % 64), Byte(0x80 + cp % 64)]
    else [Byte(0xF0 + cp / 262144), Byte(0x80 + cp / 4096 % 64), Byte(0x80 + cp / 64 % 64), Byte(0x80 + cp % 64)]
  }

  predicate Continues(c: char) {
    0x80 <= c as int < 0xC0
  }

  /** A decoder: the code point, provided that the form is well formed and the shortest one. */
  function CodePoint(bs: string): Option<int> {
    if |bs| == 1 && bs[0] as int < 0x80 then Some(bs[0] as int)
    else if |bs| == 2 && 0xC0 <= bs[0] as int < 0xE0 && Continues(bs[1]) then
      var cp := (bs[0] as int - 0xC0) * 64 + (bs[1] as int - 0x80);
      if cp < 0x80 then None else Some(cp)
    else if |bs| == 3 && 0xE0 <= bs[0] as int < 0xF0 && Continues(bs[1]) && Continues(bs[2]) then
      var cp := (bs[0] as int - 0xE0) * 4096 + (bs[1] as int - 0x80) * 64 + (bs[2] as int - 0x80);
      if cp < 0x800 then None else Some(cp)
    else if |bs| == 4 && 0xF0 <= bs[0] as int < 0xF8 && Continues(bs[1]) && Continues(bs[2]) && Continues(bs[3]) then
      var cp := (bs[0] as int - 0xF0) * 262144 + (bs[1] as int - 0x80) * 4096 + (bs[2] as int - 0x80) * 64 + (bs[3] as int - 0x80);
      if cp < 0x1_0000 || cp > 0x10FFFF then None else Some(cp)
    else None
  }

  lemma TwoGroups(cp: int)
    ensures cp == cp / 64 * 64 + cp % 64 && 0 <= cp % 64 < 64
  {
  }

  lemma ThreeGroups(cp: int)
    ensures cp == cp / 4096 * 4096 + cp / 64 % 64 * 64 + cp % 64
  {
    TwoGroups(cp);
    TwoGroups(cp / 64);
    assert cp / 64 / 64 == cp / 4096;
  }

  lemma FourGroups(cp: int)
    ensures cp == cp / 262144 * 262144 + cp / 4096 % 64 * 4096 + cp / 64 % 64 * 64 + cp % 64
  {
    ThreeGroups(cp);
    TwoGroups(cp / 4096);
    assert cp / 4096 / 64 == cp / 262144;
  }

  lemma Utf8Decodes(cp: int)
    requires 0 <= cp <= 0x10FFFF
    ensures CodePoint(Utf8(cp)) == Some(cp)
  {
    if cp < 0x80 { Utf8Decodes1(cp); }
    else if cp < 0x800 { Utf8Decodes2(cp); }
    else if cp < 0x1_0000 { Utf8Decodes3(cp); }
    else { Utf8Decodes4(cp); }
  }

  lemma Utf8Decodes1(cp: int)
    requires 0 <= cp < 0x80
    ensures CodePoint(Utf8(cp)) == Some(cp)
  {
  }

  lemma Utf8Decodes2(cp: int)
    requires 0x80 <= cp < 0x800
    ensures CodePoint(Utf8(cp)) == Some(cp)
  {
    TwoGroups(cp);
    var a, b := cp / 64, cp % 64;
    assert Utf8(cp) == [Byte(0xC0 + a), Byte(0x80 + b)];
  }

  lemma Utf8Decodes3(cp: int)
    requires 0x800 <= cp < 0x1_0000
    ensures CodePoint(Utf8(cp)) == Some(cp)
  {
    ThreeGroups(cp);
    var a, b, c := cp / 4096, cp / 64 % 64, cp % 64;
    assert Utf8(cp) == [Byte(0xE0 + a), Byte(0x80 + b), Byte(0x80 + c)];
    hide Utf8;
    Bytes3(a, b, c, cp);
  }

  lemma Bytes3(a: int, b: int, c: int, cp: int)
    requires 0 <= a < 16 && 0 <= b < 64 && 0 <= c < 64 && cp == a * 4096 + b * 64 + c && cp >= 0x800
    ensures CodePoint([Byte(0xE0 + a), Byte(0x80 + b), Byte(0x80 + c)]) == Some(cp)
  {
  }

  lemma Utf8Decodes4(cp: int)
    requires 0x1_0000 <= cp <= 0x10FFFF
    ensures CodePoint(Utf8(cp)) == Some(cp)
  {
    FourGroups(cp);
    var a, b, c, d := cp / 262144, cp / 4096 % 64, cp / 64 % 64, cp % 64;
    assert Utf8(cp) == [Byte(0xF0 + a), Byte(0x80 + b), Byte(0x80 + c), Byte(0x80 + d)];
    hide Utf8;
    Bytes4(a, b, c, d, cp);
  }

  lemma Bytes4(a: int, b: int, c: int, d: int, cp: int)
    requires 0 <= a < 8 && 0 <= b < 64 && 0 <= c < 64 && 0 <= d < 64 && cp == a * 262144 + b * 4096 + c * 64 + d
    requires 0x1_0000 <= cp <= 0x10FFFF
    ensures CodePoint([Byte(0xF0 + a), Byte(0x80 + b), Byte(0x80 + c), Byte(0x80 + d)]) == Some(cp)
  {
  }

  // ---------------------------------------------------------------- \uXXXX

  function HexValue(c: char): Option<int> {
    if '0' <= c <= '9' then Some(c as int - '0' as int)
    else if 'A' <= c <= 'F' then Some(10 + c as int - 'A' as int)
    else if 'a' <= c <= 'f' then Some(10 + c as int - 'a' as int)
    else None
  }

  /** The first n digits from p on; any other character makes it 0. */
  function HexFrom(s: string, p: nat, n: nat): Option<int>
    requires p + n <= |s|
  {
    if n == 0 then Some(0)
    else
      var h, d := HexFrom(s, p, n - 1), HexValue(s[p + n - 1]);
      if h.Some? && d.Some? then Some(16 * h.value + d.value) else None
  }

  lemma HexRange(s: string, p: nat, n: nat)
    requires p + n <= |s| && n <= 4
    ensures var h := HexFrom(s, p, n);
            h.Some? ==> 0 <= h.value < (if n == 0 then 1 else if n == 1 then 16 else if n == 2 then 256 else if n == 3 then 4096 else 65536)
  {
    if n > 0 { HexRange(s, p, n - 1); }
  }

  function Hex4(s: string, p: nat): (h: int)
    requires p + 4 <= |s|
    ensures 0 <= h < 65536
  {
    HexRange(s, p, 4);
    var h := HexFrom(s, p, 4);
    if h.Some? then h.value else 0
  }

  /** The code point of a literal and its length, 0 for a failure. */
  datatype Literal = Literal(length: nat, codepoint: int)

  const NoLiteral := Literal(0, 0)

  function ReadLiteral(s: string, p: nat, end: nat): (l: Literal)
    requires p < end <= |s|
    ensures l.length == 0 || l.length == 6 || l.length == 12
    ensures l.length > 0 ==> p + l.length <= end && 0 <= l.codepoint <= 0x10FFFF
    ensures l.length == 6 ==> l.codepoint < 0x1_0000
  {
    if end - p < 6 then NoLiteral
    else
      var first := Hex4(s, p + 2);
      if 0xDC00 <= first <= 0xDFFF then NoLiteral
      else if 0xD800 <= first <= 0xDBFF then
        if end - (p + 6) < 6 then NoLiteral
        else if s[p + 6] != BACKSLASH || s[p + 7] != 'u' then NoLiteral
        else
          var second := Hex4(s, p + 8);
          if second < 0xDC00 || second > 0xDFFF then NoLiteral
          else Literal(12, 0x1_0000 + first % 0x400 * 0x400 + second % 0x400)
      else Literal(6, first)
  }

  // the escapes that a writer uses for a code point (section 7 of RFC 8259)

  function HexText(v: int): (t: string)
    requires 0 <= v < 65536
    ensures |t| == 4
  {
    [HexDigit(v / 4096), HexDigit(v / 256 % 16), HexDigit(v / 16 % 16), HexDigit(v % 16)]
  }

  function EscapeOf(cp: int): (t: string)
    requires 0 <= cp <= 0x10FFFF
    ensures |t| == if cp < 0x1_0000 then 6 else 12
  {
    if cp < 0x1_0000 then [BACKSLASH, 'u'] + HexText(cp)
    else
      [BACKSLASH, 'u'] + HexText(0xD800 + (cp - 0x1_0000) / 0x400)
      + [BACKSLASH, 'u'] + HexText(0xDC00 + (cp - 0x1_0000) % 0x400)
  }

  lemma HexDigitValue(d: int)
    requires 0 <= d < 16
    ensures HexValue(HexDigit(d)) == Some(d)
  {
  }

  lemma HexTextRead(s: string, p: nat, v: int)
    requires 0 <= v < 65536 && At(s, p, HexText(v))
    ensures p + 4 <= |s| && Hex4(s, p) == v
  {
    var a, b, c, d := v / 4096, v / 256 % 16, v / 16 % 16, v % 16;
    CharAt(s, p, HexText(v), 0);
    CharAt(s, p, HexText(v), 1);
    CharAt(s, p, HexText(v), 2);
    CharAt(s, p, HexText(v), 3);
    Nibbles(v);
    HexDigitValue(a);
    HexDigitValue(b);
    HexDigitValue(c);
    HexDigitValue(d);
    assert s[p] == HexDigit(a) && s[p + 1] == HexDigit(b) && s[p + 2] == HexDigit(c) && s[p + 3] == HexDigit(d);
    hide HexText, HexDigit, HexValue;
    HexSteps(s, p, a, b, c, d);
  }

  lemma Nibbles(v: int)
    requires 0 <= v < 65536
    ensures v == 16 * (16 * (16 * (v / 4096) + v / 256 % 16) + v / 16 % 16) + v % 16
    ensures 0 <= v / 4096 < 16
  {
  }

  lemma HexSteps(s: string, p: nat, a: int, b: int, c: int, d: int)
    requires p + 4 <= |s| && HexValue(s[p]) == Some(a) && HexValue(s[p + 1]) == Some(b)
    requires HexValue(s[p + 2]) == Some(c) && HexValue(s[p + 3]) == Some(d)
    ensures HexFrom(s, p, 4) == Some(16 * (16 * (16 * a + b) + c) + d)
  {
    hide HexValue;
    assert HexFrom(s, p, 1) == Some(a);
    assert HexFrom(s, p, 2) == Some(16 * a + b);
    assert HexFrom(s, p, 3) == Some(16 * (16 * a + b) + c);
  }

  /** Every code point but a surrogate is read back from its escape. */
  lemma EscapeRead(s: string, p: nat, end: nat, cp: int)
    requires 0 <= cp <= 0x10FFFF && !(0xD800 <= cp <= 0xDFFF)
    requires p + |EscapeOf(cp)| <= end <= |s| && At(s, p, EscapeOf(cp))
    ensures ReadLiteral(s, p, end) == Literal(|EscapeOf(cp)|, cp)
    ensures CodePoint(Utf8(ReadLiteral(s, p, end).codepoint)) == Some(cp)
  {
    Utf8Decodes(cp);
    hide CodePoint, Utf8;
    if cp < 0x1_0000 { ShortEscapeOfRead(s, p, end, cp); } else { PairRead(s, p, end, cp); }
  }

  lemma ShortEscapeOfRead(s: string, p: nat, end: nat, cp: int)
    requires 0 <= cp < 0x1_0000 && !(0xD800 <= cp <= 0xDFFF)
    requires p + 6 <= end <= |s| && At(s, p, EscapeOf(cp))
    ensures ReadLiteral(s, p, end) == Literal(6, cp)
  {
    assert EscapeOf(cp)[0..6] == EscapeOf(cp);
    PartRead(s, p, EscapeOf(cp), 0, cp);
    hide HexText, Hex4, EscapeOf;
  }

  lemma Surrogates(cp: int)
    requires 0x1_0000 <= cp <= 0x10FFFF
    ensures var hi, lo := 0xD800 + (cp - 0x1_0000) / 0x400, 0xDC00 + (cp - 0x1_0000) % 0x400;
            && 0xD800 <= hi <= 0xDBFF && 0xDC00 <= lo <= 0xDFFF
            && 0x1_0000 + hi % 0x400 * 0x400 + lo % 0x400 == cp
  {
  }

  lemma PairRead(s: string, p: nat, end: nat, cp: int)
    requires 0x1_0000 <= cp <= 0x10FFFF
    requires p + 12 <= end <= |s| && At(s, p, EscapeOf(cp))
    ensures ReadLiteral(s, p, end) == Literal(12, cp)
  {
    Surrogates(cp);
    var t, hi, lo := EscapeOf(cp), 0xD800 + (cp - 0x1_0000) / 0x400, 0xDC00 + (cp - 0x1_0000) % 0x400;
    assert t[0..6] == [BACKSLASH, 'u'] + HexText(hi);
    assert t[6..12] == [BACKSLASH, 'u'] + HexText(lo);
    hide HexText, Hex4, EscapeOf;
    PartRead(s, p, t, 0, hi);
    PartRead(s, p, t, 6, lo);
  }

  lemma PartRead(s: string, p: nat, t: string, at: nat, v: int)
    requires 0 <= v < 65536 && at + 6 <= |t| && At(s, p, t)
    requires t[at..at + 6] == [BACKSLASH, 'u'] + HexText(v)
    ensures p + at + 6 <= |s| && s[p + at] == BACKSLASH && s[p + at + 1] == 'u' && Hex4(s, p + at + 2) == v
  {
    hide HexText, Hex4, At;
    AtSlice(s, p, t, at, 6);
    AtParts(s, p + at, [BACKSLASH, 'u'], HexText(v));
    CharAt(s, p + at, [BACKSLASH, 'u'], 0);
    CharAt(s, p + at, [BACKSLASH, 'u'], 1);
    HexTextRead(s, p + at + 2, v);
  }

  // ---------------------------------------------------------------- the first pass

  /** The closing quote: a backslash takes the next character with it. */
  function ScanEnd(s: string, j: nat): (e: Option<nat>)
    ensures e.Some? ==> j <= e.value < |s| && s[e.value] == QUOTE
    decreases |s| - j
  {
    if j >= |s| then None
    else if s[j] == QUOTE then Some(j)
    else if s[j] == BACKSLASH then (if j + 1 >= |s| then None else ScanEnd(s, j + 2))
    else ScanEnd(s, j + 1)
  }

  /** For the first pass, is the character at p the second one of an escape? */
  predicate Inside(s: string, start: nat, p: nat)
    requires start <= p <= |s|
    decreases p
  {
    p > start && s[p - 1] == BACKSLASH && !Inside(s, start, p - 1)
  }

  /** How many escapes the first pass sees begin before p. */
  function Skips(s: string, start: nat, p: nat): (n: nat)
    requires start <= p <= |s|
    ensures n <= p - start
    decreases p
  {
    if p == start then 0 else Skips(s, start, p - 1) + (if s[p - 1] == BACKSLASH && !Inside(s, start, p - 1) then 1 else 0)
  }

  /** Characters before p less the escapes seen: what the estimate allows for them. */
  function Budget(s: string, start: nat, p: nat): int
    requires start <= p <= |s|
  {
    p - start - Skips(s, start, p)
  }

  lemma TwoChars(s: string, start: nat, p: nat)
    requires start <= p && p + 2 <= |s|
    ensures Budget(s, start, p) + 1 <= Budget(s, start, p + 2)
  {
    assert Skips(s, start, p + 2) == Skips(s, start, p + 1) + (if s[p + 1] == BACKSLASH && !Inside(s, start, p + 1) then 1 else 0);
  }

  lemma SixChars(s: string, start: nat, p: nat)
    requires start <= p && p + 6 <= |s|
    ensures Budget(s, start, p) + 3 <= Budget(s, start, p + 6)
  {
    TwoChars(s, start, p);
    TwoChars(s, start, p + 2);
    TwoChars(s, start, p + 4);
  }

  /** However the passes are out of step, one plain character costs one. */
  lemma OneChar(s: string, start: nat, p: nat)
    requires start <= p < |s| && (s[p] != BACKSLASH || Inside(s, start, p))
    ensures Budget(s, start, p) + 1 == Budget(s, start, p + 1)
  {
  }

  /** The budget never shrinks. */
  lemma BudgetGrows(s: string, start: nat, p: nat, q: nat)
    requires start <= p <= q <= |s|
    ensures Budget(s, start, p) <= Budget(s, start, q)
    decreases q
  {
    if p < q { BudgetGrows(s, start, p, q - 1); }
  }

  // ---------------------------------------------------------------- the second pass

  function Unshort(c: char): Option<char> {
    if c == 'b' then Some(BS)
    else if c == 'f' then Some(FF)
    else if c == 'n' then Some('\n')
    else if c == 'r' then Some('\r')
    else if c == 't' then Some('\t')
    else if c == QUOTE || c == BACKSLASH || c == '/' then Some(c)
    else None
  }

  /** The decoded bytes; the last escape may reach one character past `end`, to the closing quote. */
  function Decode(s: string, p: nat, end: nat): Option<string>
    requires end < |s|
    decreases if p < end then end - p else 0
  {
    if p >= end then Some("")
    else if s[p] != BACKSLASH then
      var rest := Decode(s, p + 1, end);
      if rest.None? then None else Some([s[p]] + rest.value)
    else if s[p + 1] == 'u' then
      var l := ReadLiteral(s, p, end);
      if l.length == 0 then None
      else
        var rest := Decode(s, p + l.length, end);
        if rest.None? then None else Some(Utf8(l.codepoint) + rest.value)
    else
      var c := Unshort(s[p + 1]);
      if c.None? then None
      else
        var rest := Decode(s, p + 2, end);
        if rest.None? then None else Some([c.value] + rest.value)
  }

  /** What is left up to the first NUL. */
  function CStringOf(s: string): (c: string)
    ensures |c| <= |s| && c == s[..|c|] && (forall i :: 0 <= i < |c| ==> c[i] != '\0')
    ensures |c| < |s| ==> s[|c|] == '\0'
  {
    if s == "" || s[0] == '\0' then "" else [s[0]] + CStringOf(s[1..])
  }

  ghost predicate IsText(s: string) {
    forall i :: 0 <= i < |s| ==> s[i] < '\U{100}'
  }

  /** The decoding of a whole literal, from its opening quote on: text and the offset behind it. */
  datatype Read<T> = Success(value: T, next: nat) | Failure

  function ReadString(s: string, i: nat): (r: Read<CString>)
    requires IsText(s)
    ensures r.Success? ==> i + 2 <= r.next <= |s| && s[r.next - 1] == QUOTE
  {
    if i >= |s| || s[i] != QUOTE then Failure
    else
      var end := ScanEnd(s, i + 1);
      if end.None? then Failure
      else
        var d := Decode(s, i + 1, end.value);
        if d.None? then Failure else Success(AsCString(s, i + 1, end.value), end.value + 1)
  }

  function AsCString(s: string, p: nat, end: nat): (c: CString)
    requires IsText(s) && end < |s| && Decode(s, p, end).Some?
    ensures c == CStringOf(Decode(s, p, end).value)
  {
    DecodedText(s, p, end);
    CStringOf(Decode(s, p, end).value)
  }

  lemma DecodedText(s: string, p: nat, end: nat)
    requires IsText(s) && end < |s|
    ensures Decode(s, p, end).Some? ==> IsText(Decode(s, p, end).value)
    decreases if p < end then end - p else 0
  {
    if p >= end {
    } else if s[p] != BACKSLASH {
      DecodedText(s, p + 1, end);
    } else if s[p + 1] == 'u' {
      var l := ReadLiteral(s, p, end);
      if l.length > 0 { DecodedText(s, p + l.length, end); Utf8Text(l.codepoint); }
    } else {
      DecodedText(s, p + 2, end);
    }
  }

  lemma Utf8Text(cp: int)
    requires 0 <= cp <= 0x10FFFF
    ensures IsText(Utf8(cp))
  {
  }

  // ---------------------------------------------------------------- a printed string is read back

  lemma ShortEscapeRead(c: char)
    ensures ShortEscape(c) != '\0' ==> Unshort(ShortEscape(c)) == Some(c) && ShortEscape(c) != 'u'
  {
  }

  /** The first pass runs over an escaped character as over any other. */
  lemma ScanEscaped(s: string, p: nat, c: char)
    requires At(s, p, EscapedChar(c))
    ensures ScanEnd(s, p) == ScanEnd(s, p + |EscapedChar(c)|)
  {
    var e := EscapedChar(c);
    CharAt(s, p, e, 0);
    if |e| == 2 { CharAt(s, p, e, 1); }
    if |e| == 6 {
      CharAt(s, p, e, 1);
      CharAt(s, p, e, 2);
      CharAt(s, p, e, 3);
      CharAt(s, p, e, 4);
      CharAt(s, p, e, 5);
      assert ScanEnd(s, p) == ScanEnd(s, p + 2);
      HexPlain(c as int / 16);
      HexPlain(c as int % 16);
      ScanPlain(s, p + 2);
      ScanPlain(s, p + 3);
      ScanPlain(s, p + 4);
      ScanPlain(s, p + 5);
    }
  }

  lemma HexPlain(d: int)
    requires 0 <= d < 16
    ensures HexDigit(d) != QUOTE && HexDigit(d) != BACKSLASH
  {
  }

  lemma ScanPlain(s: string, p: nat)
    requires p < |s| && s[p] != QUOTE && s[p] != BACKSLASH
    ensures ScanEnd(s, p) == ScanEnd(s, p + 1)
  {
  }

  lemma DecodeEscaped(s: string, p: nat, end: nat, c: char)
    requires p + |EscapedChar(c)| <= end < |s| && At(s, p, EscapedChar(c))
    ensures var rest := Decode(s, p + |EscapedChar(c)|, end);
            Decode(s, p, end) == if rest.Some? then Some([c] + rest.value) else None
  {
    var e := EscapedChar(c);
    CharAt(s, p, e, 0);
    hide At;
    if |e| == 6 {
      hide EscapedChar;
      DecodeControl(s, p, end, c);
    } else if |e| == 2 {
      CharAt(s, p, e, 1);
      ShortEscapeRead(c);
      hide ShortEscape, Unshort, ReadLiteral;
    }
  }

  lemma DecodeControl(s: string, p: nat, end: nat, c: char)
    requires |EscapedChar(c)| == 6 && p + 6 <= end < |s| && At(s, p, EscapedChar(c))
    ensures var rest := Decode(s, p + 6, end);
            Decode(s, p, end) == if rest.Some? then Some([c] + rest.value) else None
  {
    var e := EscapedChar(c);
    CharAt(s, p, e, 0);
    CharAt(s, p, e, 1);
    ControlEscape(c);
    hide EscapedChar, EscapeOf;
    EscapeRead(s, p, end, c as int);
    hide ReadLiteral, At;
  }

  lemma ControlEscape(c: char)
    requires |EscapedChar(c)| == 6
    ensures EscapeOf(c as int) == EscapedChar(c) && c < ' ' && Utf8(c as int) == [c]
    ensures EscapedChar(c)[0] == BACKSLASH && EscapedChar(c)[1] == 'u'
  {
    assert c < ' ' && EscapedChar(c) == [BACKSLASH, 'u', '0', '0', HexDigit(c as int / 16), HexDigit(c as int % 16)];
    ControlValue(c);
    hide EscapedChar, HexDigit, Utf8, EscapeOf;
  }

  lemma ControlValue(c: char)
    requires c < ' '
    ensures Utf8(c as int) == [c]
    ensures EscapeOf(c as int) == [BACKSLASH, 'u', '0', '0', HexDigit(c as int / 16), HexDigit(c as int % 16)]
  {
  }

  lemma {:induction false} EscapedScans(s: string, p: nat, t: CString)
    requires At(s, p, Escaped(t) + [QUOTE])
    ensures ScanEnd(s, p) == Some(p + |Escaped(t)|)
    decreases |t|
  {
    hide EscapedChar, At;
    if t == "" {
      assert Escaped(t) + [QUOTE] == [QUOTE];
      CharAt(s, p, [QUOTE], 0);
    } else {
      var e := EscapedChar(t[0]);
      assert Escaped(t) + [QUOTE] == e + (Escaped(t[1..]) + [QUOTE]);
      hide Escaped;
      AtParts(s, p, e, Escaped(t[1..]) + [QUOTE]);
      ScanEscaped(s, p, t[0]);
      hide ScanEnd;
      EscapedScans(s, p + |e|, t[1..]);
    }
  }

  lemma {:induction false} EscapedDecodes(s: string, p: nat, t: CString)
    requires At(s, p, Escaped(t)) && p + |Escaped(t)| < |s|
    ensures Decode(s, p, p + |Escaped(t)|) == Some(t)
    decreases |t|
  {
    hide EscapedChar, At;
    var end := p + |Escaped(t)|;
    if t != "" {
      var e := EscapedChar(t[0]);
      assert Escaped(t) == e + Escaped(t[1..]);
      hide Escaped;
      AtParts(s, p, e, Escaped(t[1..]));
      DecodeEscaped(s, p, end, t[0]);
      hide Decode;
      EscapedDecodes(s, p + |e|, t[1..]);
      assert [t[0]] + t[1..] == t;
    }
  }

  /** Printing a string and reading it gives the string back, whatever follows. */
  lemma QuotedRead(s: string, i: nat, t: CString)
    requires IsText(s) && At(s, i, Quoted(t))
    ensures ReadString(s, i) == Success(t, i + |Quoted(t)|)
  {
    hide *;
    var e := Escaped(t);
    QuotedParts(t);
    AtParts(s, i, [QUOTE], e + [QUOTE]);
    CharAt(s, i, [QUOTE], 0);
    EscapedScans(s, i + 1, t);
    AtParts(s, i + 1, e, [QUOTE]);
    EscapedDecodes(s, i + 1, t);
    WholeCString(t);
    ReadStep(s, i, i + 1 + |e|, t);
  }

  lemma QuotedParts(t: string)
    ensures Quoted(t) == [QUOTE] + (Escaped(t) + [QUOTE])
  {
  }

  lemma ReadStep(s: string, i: nat, end: nat, t: CString)
    requires IsText(s) && i < |s| && s[i] == QUOTE && ScanEnd(s, i + 1) == Some(end) && end < |s|
    requires Decode(s, i + 1, end) == Some(t) && CStringOf(t) == t
    ensures ReadString(s, i) == Success(t, end + 1)
  {
    hide IsText, ScanEnd, Decode, CStringOf;
  }

  lemma WholeCString(t: CString)
    ensures CStringOf(t) == t
  {
  }
}
