/** What the parser makes of a text, and why it reads prints back. */
module JsonParse {
  import opened Wrappers
  import opened Sequences
  import opened JsonTree
  import opened JsonStrings

  const NESTING_LIMIT := 1000

  ghost predicate Terminated(s: string) {
    IsText(s) && |s| >= 1 && s[|s| - 1] == '\0'
  }

  // ---------------------------------------------------------------- whitespace and numbers

  /** The first character above the space character, at or behind i. */
  function Solid(s: string, i: nat): (k: nat)
    requires i <= |s|
    ensures i <= k <= |s| && (k < |s| ==> s[k] > ' ')
    ensures forall j :: i <= j < k ==> s[j] <= ' '
    decreases |s| - i
  {
    if i < |s| && s[i] <= ' ' then Solid(s, i + 1) else i
  }

  /** The skip runs over the final NUL and then steps back to it. */
  function Skip(s: string, i: nat): (k: nat)
    requires i <= |s| && |s| >= 1
    ensures k < |s| && (i < |s| ==> i <= k)
  {
    var k := Solid(s, i);
    if k == |s| then k - 1 else k
  }

  predicate Digit(c: char) {
    '0' <= c <= '9'
  }

  predicate NumberChar(c: char) {
    Digit(c) || c == '+' || c == '-' || c == 'e' || c == 'E' || c == '.'
  }

  /** The characters copied for `strtod`: at most 63. */
  function NumberSpan(s: string, i: nat, n: nat): (e: nat)
    requires i + n <= |s| && n <= 63
    ensures n <= e <= 63 && i + e <= |s|
    ensures forall j :: i + n <= j < i + e ==> NumberChar(s[j])
    ensures e < 63 && i + e < |s| ==> !NumberChar(s[i + e])
    decreases 63 - n
  {
    if n < 63 && i + n < |s| && NumberChar(s[i + n]) then NumberSpan(s, i, n + 1) else n
  }

  function Digits(t: string, i: nat): (n: nat)
    requires i <= |t|
    ensures i + n <= |t|
    decreases |t| - i
  {
    if i < |t| && Digit(t[i]) then 1 + Digits(t, i + 1) else 0
  }

  function SignLength(t: string): (n: nat)
    ensures n <= |t|
  {
    if t != "" && (t[0] == '+' || t[0] == '-') then 1 else 0
  }

  /** Where the integer part of a number ends. */
  function IntegerEnd(t: string): (j: nat)
    ensures SignLength(t) <= j <= |t|
  {
    SignLength(t) + Digits(t, SignLength(t))
  }

  /** The digits behind the decimal point. */
  function FractionLength(t: string): (n: nat)
    ensures n > 0 ==> IntegerEnd(t) + 1 + n <= |t|
  {
    var j := IntegerEnd(t);
    if j < |t| && t[j] == '.' then Digits(t, j + 1) else 0
  }

  function MantissaEnd(t: string): (k: nat)
    ensures IntegerEnd(t) <= k <= |t|
  {
    var j := IntegerEnd(t);
    if j < |t| && t[j] == '.' then j + 1 + FractionLength(t) else j
  }

  /** How much `strtod` takes of a text made of these characters; 0 if it is no number. */
  function NumberLength(t: string): (n: nat)
    ensures n <= |t|
    ensures n > MantissaEnd(t) ==> n > MantissaEnd(t) + 1
  {
    var k := MantissaEnd(t);
    if IntegerEnd(t) == SignLength(t) && FractionLength(t) == 0 then 0
    else if k < |t| && (t[k] == 'e' || t[k] == 'E') then
      var m := if k + 1 < |t| && (t[k + 1] == '+' || t[k + 1] == '-') then k + 2 else k + 1;
      if Digits(t, m) == 0 then k else m + Digits(t, m)
    else k
  }

  /** The digits of a text read as one number. */
  function Natural(t: string): int {
    if t == "" then 0
    else
      var c, front := t[|t| - 1], t[..|t| - 1];
      if Digit(c) then 10 * Natural(front) + (c - '0') as int else Natural(front)
  }

  function Power10(e: nat): (p: nat)
    ensures p > 0
  {
    if e == 0 then 1 else 10 * Power10(e - 1)
  }

  function Scaled(mantissa: int, exponent: int): real {
    if exponent >= 0 then (mantissa * Power10(exponent)) as real
    else mantissa as real / Power10(-exponent) as real
  }

  function Mantissa(t: string): int {
    var digits := Natural(t[SignLength(t)..MantissaEnd(t)]);
    if t != "" && t[0] == '-' then -digits else digits
  }

  function Exponent(t: string): int {
    var k, n := MantissaEnd(t), NumberLength(t);
    if n <= k then 0
    else
      var digits := Natural(t[k + 1..n]);
      if t[k + 1] == '-' then -digits else digits
  }

  /** The decimal number at the front of a text, which `strtod` rounds to a double. */
  function Decimal(t: string): real {
    Scaled(Mantissa(t), Exponent(t) - FractionLength(t))
  }

  lemma {:induction false} DigitsTaken(t: string, n: nat, i: nat)
    requires i <= n <= |t|
    ensures i + Digits(t, i) <= n ==> Digits(t[..n], i) == Digits(t, i)
    decreases n - i
  {
    if i < n && Digit(t[i]) { DigitsTaken(t, n, i + 1); }
  }

  lemma MantissaTaken(t: string, n: nat)
    requires MantissaEnd(t) <= n <= |t|
    ensures var kept := t[..n];
            && SignLength(kept) == SignLength(t) && IntegerEnd(kept) == IntegerEnd(t)
            && FractionLength(kept) == FractionLength(t) && MantissaEnd(kept) == MantissaEnd(t)
  {
    var j := IntegerEnd(t);
    DigitsTaken(t, n, SignLength(t));
    if j < |t| && t[j] == '.' { DigitsTaken(t, n, j + 1); }
    hide Digits;
  }

  lemma LengthTaken(t: string)
    ensures var n := NumberLength(t); n > 0 ==> MantissaEnd(t) <= n && NumberLength(t[..n]) == n
  {
    var k, n := MantissaEnd(t), NumberLength(t);
    if n > 0 {
      MantissaTaken(t, n);
      if n > k { DigitsTaken(t, n, k + 1); }
      if n > k + 1 { DigitsTaken(t, n, k + 2); }
      hide Digits, MantissaEnd, FractionLength, IntegerEnd;
    }
  }

  /** The text that the parser keeps has the length and the value of the text that `strtod` was given. */
  lemma ValueOfTaken(t: string)
    requires NumberLength(t) > 0
    ensures var kept := t[..NumberLength(t)];
            NumberLength(kept) == |kept| && Decimal(kept) == Decimal(t)
  {
    var k, n := MantissaEnd(t), NumberLength(t);
    LengthTaken(t);
    MantissaTaken(t, n);
    assert t[..n][SignLength(t)..k] == t[SignLength(t)..k];
    if n > k { assert t[..n][k + 1..n] == t[k + 1..n]; }
    hide Digits, MantissaEnd, FractionLength, IntegerEnd, SignLength, NumberLength, Natural, Scaled;
  }

  /** One number, two texts. */
  lemma PointExample()
    ensures Decimal("1.0") == Decimal("1") == 1.0
  {
    assert "1.0"[0..3] == "1.0" && "1.0"[..2] == "1." && "1."[..1] == "1" && "1"[..0] == "" && "1"[0..1] == "1";
    assert Natural("1") == 1 && Natural("1.") == 1 && Natural("1.0") == 10;
    assert Power10(0) == 1 && Power10(1) == 10;
    hide Natural, Power10;
    assert MantissaEnd("1.0") == 3 && FractionLength("1.0") == 1 && NumberLength("1.0") == 3;
    assert MantissaEnd("1") == 1 && NumberLength("1") == 1;
  }

  lemma ExponentExample()
    ensures Decimal("1e2") == Decimal("100") == 100.0
  {
    assert "1e2"[0..1] == "1" && "1e2"[2..3] == "2" && "1"[..0] == "" && "2"[..0] == "" && "1e2"[2..] == "2";
    assert "100"[0..3] == "100" && "100"[..2] == "10" && "10"[..1] == "1";
    assert Natural("1") == 1 && Natural("2") == 2 && Natural("10") == 10 && Natural("100") == 100;
    assert Power10(0) == 1 && Power10(1) == 10 && Power10(2) == 100;
    hide Natural, Power10;
    assert MantissaEnd("100") == 3 && NumberLength("100") == 3;
    assert MantissaEnd("1e2") == 1 && NumberLength("1e2") == 3;
  }

  // ---------------------------------------------------------------- values

  function Starts(s: string, i: nat, word: string): bool {
    i + |word| <= |s| && s[i..i + |word|] == word
  }

  function ParseNumber(s: string, i: nat): (r: Read<Json>)
    requires Terminated(s) && i < |s|
    ensures r.Success? ==> i < r.next < |s|
  {
    var n := NumberSpan(s, i, 0);
    var k := NumberLength(s[i..i + n]);
    if k == 0 then Failure else Success(Number(Token(s, i, k)), i + k)
  }

  function Token(s: string, i: nat, k: nat): (t: CString)
    requires Terminated(s) && i < |s| && k <= NumberSpan(s, i, 0)
    ensures t == s[i..i + k] && i + k < |s|
  {
    SpanText(s, i, NumberSpan(s, i, 0), k);
    s[i..i + k]
  }

  lemma SpanText(s: string, i: nat, n: nat, k: nat)
    requires Terminated(s) && i + n <= |s| && k <= n && i < |s| && forall j :: i <= j < i + n ==> NumberChar(s[j])
    ensures IsCString(s[i..i + k]) && i + k < |s|
  {
  }

  function ParseValue(s: string, i: nat, depth: nat): (r: Read<Json>)
    requires Terminated(s) && i < |s|
    ensures r.Success? ==> i < r.next < |s|
    decreases |s| - i, 2
  {
    if Starts(s, i, "null") then Success(Null, i + 4)
    else if Starts(s, i, "false") then Success(False, i + 5)
    else if Starts(s, i, "true") then Success(True, i + 4)
    else if s[i] == QUOTE then
      match ReadString(s, i) {
        case Success(text, next) => Success(String(text), next)
        case Failure => Failure
      }
    else if s[i] == '-' || Digit(s[i]) then ParseNumber(s, i)
    else if s[i] == '[' then ParseArray(s, i, depth)
    else if s[i] == '{' then ParseObject(s, i, depth)
    else Failure
  }

  function ParseArray(s: string, i: nat, depth: nat): (r: Read<Json>)
    requires Terminated(s) && i < |s| && s[i] == '['
    ensures r.Success? ==> i < r.next < |s|
    decreases |s| - i, 1
  {
    if depth >= NESTING_LIMIT then Failure
    else
      var k := Skip(s, i + 1);
      if s[k] == ']' then Success(Array(NoElements), k + 1)
      else
        match ParseElements(s, k, depth + 1) {
          case Success(child, next) => Success(Array(child), next)
          case Failure => Failure
        }
  }

  /** From in front of an element to behind the closing bracket. */
  function ParseElements(s: string, k: nat, depth: nat): (r: Read<Elements>)
    requires Terminated(s) && k < |s|
    ensures r.Success? ==> k < r.next < |s|
    decreases |s| - k, 3
  {
    match ParseValue(s, Skip(s, k), depth)
    case Failure => Failure
    case Success(value, next) =>
      var e := Skip(s, next);
      if s[e] == ']' then Success(Element(value, NoElements), e + 1)
      else if s[e] == ',' then
        match ParseElements(s, e + 1, depth) {
          case Success(rest, after) => Success(Element(value, rest), after)
          case Failure => Failure
        }
      else Failure
  }

  function ParseObject(s: string, i: nat, depth: nat): (r: Read<Json>)
    requires Terminated(s) && i < |s| && s[i] == '{'
    ensures r.Success? ==> i < r.next < |s|
    decreases |s| - i, 1
  {
    if depth >= NESTING_LIMIT then Failure
    else
      var k := Skip(s, i + 1);
      if s[k] == '}' then Success(Object(NoMembers), k + 1)
      else
        match ParseMembers(s, k, depth + 1) {
          case Success(members, next) => Success(Object(members), next)
          case Failure => Failure
        }
  }

  /** Key, colon, value. */
  datatype Pair = Pair(key: CString, value: Json)

  function ParseMember(s: string, k: nat, depth: nat): (r: Read<Pair>)
    requires Terminated(s) && k < |s|
    ensures r.Success? ==> k < r.next < |s|
    decreases |s| - k, 3
  {
    match ReadString(s, Skip(s, k))
    case Failure => Failure
    case Success(key, colon) =>
      var c := Skip(s, colon);
      if s[c] != ':' then Failure
      else
        match ParseValue(s, Skip(s, c + 1), depth)
        case Failure => Failure
        case Success(value, next) => Success(Pair(key, value), next)
  }

  function ParseMembers(s: string, k: nat, depth: nat): (r: Read<Members>)
    requires Terminated(s) && k < |s|
    ensures r.Success? ==> k < r.next < |s|
    decreases |s| - k, 4
  {
    match ParseMember(s, k, depth)
    case Failure => Failure
    case Success(pair, next) =>
      var e := Skip(s, next);
      if s[e] == '}' then Success(Member(pair.key, pair.value, NoMembers), e + 1)
      else if s[e] == ',' then
        match ParseMembers(s, e + 1, depth) {
          case Success(rest, after) => Success(Member(pair.key, pair.value, rest), after)
          case Failure => Failure
        }
      else Failure
  }

  predicate HasBom(s: string) {
    |s| > 4 && s[0] == '\U{EF}' && s[1] == '\U{BB}' && s[2] == '\U{BF}'
  }

  /** cJSON_ParseWithOpts on a C string. */
  function Parse(text: CString, requireEnd: bool): Option<Json> {
    var s := text + ['\0'];
    match ParseValue(s, Skip(s, if HasBom(s) then 3 else 0), 0)
    case Failure => None
    case Success(item, next) => if requireEnd && s[Skip(s, next)] != '\0' then None else Some(item)
  }

  // ---------------------------------------------------------------- what can be read back

  /** A number as `%1.15g` or `%1.17g` prints it. */
  predicate NumberToken(t: string) {
    && 1 <= |t| <= 25 && (t[0] == '-' || Digit(t[0])) && NumberLength(t) == |t|
    && forall j :: 0 <= j < |t| ==> NumberChar(t[j])
  }

  predicate Readable(j: Json) {
    match j
    case Invalid => false
    case Raw(_) => false
    case NonFinite(_) => false
    case Number(token) => NumberToken(token)
    case Array(child) => ReadableElements(child)
    case Object(members) => ReadableMembers(members)
    case _ => true
  }

  predicate ReadableElements(e: Elements) {
    e.Element? ==> Readable(e.value) && ReadableElements(e.next)
  }

  predicate ReadableMembers(m: Members) {
    m.Member? ==> Readable(m.value) && ReadableMembers(m.next)
  }

  function Max(a: nat, b: nat): nat {
    if a < b then b else a
  }

  /** How deeply arrays and objects are nested. */
  function Depth(j: Json): nat {
    match j
    case Array(child) => 1 + DepthElements(child)
    case Object(members) => 1 + DepthMembers(members)
    case _ => 0
  }

  function DepthElements(e: Elements): nat {
    if e.NoElements? then 0 else Max(Depth(e.value), DepthElements(e.next))
  }

  function DepthMembers(m: Members): nat {
    if m.NoMembers? then 0 else Max(Depth(m.value), DepthMembers(m.next))
  }

  /** The printer puts one of these behind a value. */
  predicate Delimits(c: char) {
    c == ',' || c == ']' || c == '}' || c == '\n' || c == '\0'
  }

  /** What the parser owes for a value printed at i: the value itself, if not nested too deeply. */
  function Owed<T>(value: T, fits: bool, next: nat): Read<T> {
    if fits then Success(value, next) else Failure
  }

  // ---------------------------------------------------------------- reading single pieces

  lemma SkipSpaces(s: string, p: nat, w: string)
    requires At(s, p, w) && p + |w| < |s| && s[p + |w|] > ' ' && forall i :: 0 <= i < |w| ==> w[i] <= ' '
    ensures Skip(s, p) == p + |w|
  {
    var k := Solid(s, p);
    forall j | p <= j < p + |w| ensures s[j] <= ' ' { assert w[j - p] == s[p + (j - p)]; }
  }

  lemma SkipNothing(s: string, p: nat)
    requires p < |s| && s[p] > ' '
    ensures Skip(s, p) == p
  {
  }

  lemma SpanOfToken(s: string, i: nat, t: string, n: nat)
    requires At(s, i, t) && n <= |t| <= 25 && i + |t| < |s| && !NumberChar(s[i + |t|])
    requires forall j :: 0 <= j < |t| ==> NumberChar(t[j])
    ensures NumberSpan(s, i, n) == |t|
    decreases |t| - n
  {
    if n < |t| {
      assert s[i + n] == t[n];
      SpanOfToken(s, i, t, n + 1);
    }
  }

  lemma DelimiterEnds(c: char)
    requires Delimits(c)
    ensures !NumberChar(c)
  {
  }

  lemma SliceAt(s: string, i: nat, t: string)
    requires At(s, i, t)
    ensures s[i..i + |t|] == t
  {
  }

  lemma NumberStep(s: string, i: nat)
    requires Terminated(s) && i < |s|
    ensures var n := NumberSpan(s, i, 0);
            var k := NumberLength(s[i..i + n]);
            k > 0 ==> ParseNumber(s, i) == Success(Number(Token(s, i, k)), i + k) && Token(s, i, k) == s[i..i + k]
  {
    hide NumberLength, NumberSpan, Terminated;
  }

  lemma TokenFacts(t: string)
    requires NumberToken(t)
    ensures 1 <= |t| <= 25 && NumberLength(t) == |t| && (forall j :: 0 <= j < |t| ==> NumberChar(t[j]))
    ensures t[0] == '-' || Digit(t[0])
  {
  }

  lemma NumberRead(s: string, i: nat, t: CString)
    requires Terminated(s) && At(s, i, t) && NumberToken(t) && i + |t| < |s| && Delimits(s[i + |t|])
    ensures ParseNumber(s, i) == Success(Number(t), i + |t|)
  {
    hide *;
    DelimiterEnds(s[i + |t|]);
    TokenFacts(t);
    SpanOfToken(s, i, t, 0);
    SliceAt(s, i, t);
    NumberStep(s, i);
  }

  /** Every printed value begins with a character above space. */
  lemma FirstChar(j: Json, format: bool, depth: nat)
    requires Readable(j)
    ensures Render(j, format, depth) != "" && Render(j, format, depth)[0] > ' ' && Render(j, format, depth)[0] !in {']', '}', ',', ':'}
  {
    match j
    case Array(child) => assert Render(j, format, depth) == "[" + (RenderElements(child, format, depth + 1) + "]");
    case Object(members) =>
    case _ =>
  }

  lemma WordAt(s: string, i: nat, word: string, other: string)
    requires At(s, i, word) && word != "" && other != ""
    ensures Starts(s, i, word)
    ensures word[0] != other[0] ==> !Starts(s, i, other)
  {
    assert s[i..i + |word|] == word;
    assert s[i] == word[0];
    assert i + |other| <= |s| ==> s[i..i + |other|][0] == s[i];
  }

  lemma NoWord(s: string, i: nat, word: string)
    requires i < |s| && word != "" && s[i] != word[0]
    ensures !Starts(s, i, word)
  {
    assert i + |word| <= |s| ==> s[i..i + |word|][0] == s[i];
  }

  lemma WordsRead(s: string, i: nat, depth: nat)
    requires Terminated(s) && i < |s|
    ensures At(s, i, "null") ==> ParseValue(s, i, depth) == Success(Null, i + 4)
    ensures At(s, i, "false") ==> ParseValue(s, i, depth) == Success(False, i + 5)
    ensures At(s, i, "true") ==> ParseValue(s, i, depth) == Success(True, i + 4)
  {
    hide ReadString, ParseNumber, ParseArray, ParseObject;
    if At(s, i, "null") { WordAt(s, i, "null", "false"); }
    if At(s, i, "false") { WordAt(s, i, "false", "null"); }
    if At(s, i, "true") { WordAt(s, i, "true", "null"); WordAt(s, i, "true", "false"); }
  }

  /** A value that is not a word goes by its first character. */
  lemma Dispatch(s: string, i: nat, depth: nat)
    requires Terminated(s) && i < |s| && s[i] !in {'n', 'f', 't'}
    ensures s[i] == QUOTE && ReadString(s, i).Success? ==>
              ParseValue(s, i, depth) == Success(String(ReadString(s, i).value), ReadString(s, i).next)
    ensures s[i] == '-' || Digit(s[i]) ==> ParseValue(s, i, depth) == ParseNumber(s, i)
    ensures s[i] == '[' ==> ParseValue(s, i, depth) == ParseArray(s, i, depth)
    ensures s[i] == '{' ==> ParseValue(s, i, depth) == ParseObject(s, i, depth)
  {
    hide ReadString, ParseNumber, ParseArray, ParseObject;
    NoWord(s, i, "null");
    NoWord(s, i, "false");
    NoWord(s, i, "true");
  }

  // ---------------------------------------------------------------- the texts of arrays and objects, piece by piece

  lemma ElementsText(e: Elements, format: bool, depth: nat)
    requires e.Element?
    ensures RenderElements(e, format, depth) + "]"
         == Render(e.value, format, depth)
            + (if e.next.NoElements? then "]" else Comma(format) + (RenderElements(e.next, format, depth) + "]"))
  {
    hide Render, Comma;
    if e.next.NoElements? { assert RenderElements(e.next, format, depth) == ""; }
  }

  lemma ElementsStart(e: Elements, format: bool, depth: nat)
    requires e.Element? && ReadableElements(e)
    ensures var t := RenderElements(e, format, depth); t != "" && t[0] > ' ' && t[0] != ']'
  {
    FirstChar(e.value, format, depth);
    hide Render;
    assert RenderElements(e, format, depth)[0] == Render(e.value, format, depth)[0];
  }

  function Indent(format: bool, depth: nat): string {
    if format then Tabs(depth) else ""
  }

  /** Key, colon and value, and all that follows up to the closing brace. */
  function FromKey(m: Members, format: bool, depth: nat): string
    requires m.Member?
  {
    Quoted(m.key) + (Colon(format) + (Render(m.value, format, depth + 1) + AfterValue(m.next, format, depth)))
  }

  function AfterValue(next: Members, format: bool, depth: nat): string {
    MemberEnd(next.Member?, format) + (RenderMembers(next, format, depth + 1) + Close(format, depth))
  }

  lemma MembersText(m: Members, format: bool, depth: nat)
    requires m.Member?
    ensures RenderMembers(m, format, depth + 1) + Close(format, depth) == Indent(format, depth + 1) + FromKey(m, format, depth)
  {
    hide Render, Close, MemberEnd, Quoted, Colon, Tabs;
  }

  function Newline(format: bool): string {
    if format then "\n" else ""
  }

  lemma AfterValueText(next: Members, format: bool, depth: nat)
    ensures AfterValue(next, format, depth)
         == if next.Member? then "," + ((Newline(format) + Indent(format, depth + 1)) + FromKey(next, format, depth))
            else (Newline(format) + Indent(format, depth)) + "}"
  {
    var inner := RenderMembers(next, format, depth + 1) + Close(format, depth);
    assert AfterValue(next, format, depth) == MemberEnd(next.Member?, format) + inner;
    EndText(next.Member?, format);
    if next.Member? {
      MembersText(next, format, depth);
      hide *;
      JoinComma(Newline(format), inner, Indent(format, depth + 1), FromKey(next, format, depth));
    } else {
      EmptyInner(next, format, depth);
      hide *;
      Assoc(Newline(format), Indent(format, depth), "}");
    }
  }

  lemma EndText(more: bool, format: bool)
    ensures MemberEnd(more, format) == if more then "," + Newline(format) else Newline(format)
  {
  }

  lemma JoinComma(n: string, inner: string, x: string, y: string)
    requires inner == x + y
    ensures "," + n + inner == "," + ((n + x) + y)
  {
  }

  lemma Assoc(a: string, b: string, c: string)
    ensures a + (b + c) == (a + b) + c
  {
  }

  lemma IndentBlank(format: bool, depth: nat)
    ensures forall c :: c in Newline(format) + Indent(format, depth) ==> c <= ' '
    ensures forall c :: c in Colon(format)[1..] ==> c <= ' '
    ensures Colon(format) == ":" + Colon(format)[1..]
  {
  }

  lemma AfterValueStart(next: Members, format: bool, depth: nat)
    ensures AfterValue(next, format, depth) != "" && Delimits(AfterValue(next, format, depth)[0])
  {
    AfterValueText(next, format, depth);
    hide FromKey, AfterValue;
  }

  lemma KeyStart(m: Members, format: bool, depth: nat)
    requires m.Member?
    ensures var t := FromKey(m, format, depth); t != "" && t[0] > ' ' && t[0] != '}'
  {
    hide Escaped, Colon, AfterValue, Render;
  }

  lemma SkipTo(s: string, p: nat, w: string, rest: string)
    requires At(s, p, w + rest) && rest != "" && rest[0] > ' ' && forall c :: c in w ==> c <= ' '
    ensures Skip(s, p) == p + |w| && At(s, p + |w|, rest) && s[p + |w|] == rest[0]
  {
    AtParts(s, p, w, rest);
    CharAt(s, p + |w|, rest, 0);
    assert forall i :: 0 <= i < |w| ==> w[i] in w;
    SkipSpaces(s, p, w);
  }

  // ---------------------------------------------------------------- the parser, one step each

  lemma ArrayStep(s: string, i: nat, depth: nat)
    requires Terminated(s) && i < |s| && s[i] == '['
    ensures var r, k := ParseValue(s, i, depth), Skip(s, i + 1);
            && i + 1 < |s|
            && (depth >= NESTING_LIMIT ==> r == Failure)
            && (depth < NESTING_LIMIT && s[k] == ']' ==> r == Success(Array(NoElements), k + 1))
            && (depth < NESTING_LIMIT && s[k] != ']' && ParseElements(s, k, depth + 1).Failure? ==> r == Failure)
            && (depth < NESTING_LIMIT && s[k] != ']' && ParseElements(s, k, depth + 1).Success? ==>
                  r == Success(Array(ParseElements(s, k, depth + 1).value), ParseElements(s, k, depth + 1).next))
  {
    Dispatch(s, i, depth);
    hide ParseValue, ParseElements, Skip;
  }

  lemma ObjectStep(s: string, i: nat, depth: nat)
    requires Terminated(s) && i < |s| && s[i] == '{'
    ensures var r, k := ParseValue(s, i, depth), Skip(s, i + 1);
            && i + 1 < |s|
            && (depth >= NESTING_LIMIT ==> r == Failure)
            && (depth < NESTING_LIMIT && s[k] == '}' ==> r == Success(Object(NoMembers), k + 1))
            && (depth < NESTING_LIMIT && s[k] != '}' && ParseMembers(s, k, depth + 1).Failure? ==> r == Failure)
            && (depth < NESTING_LIMIT && s[k] != '}' && ParseMembers(s, k, depth + 1).Success? ==>
                  r == Success(Object(ParseMembers(s, k, depth + 1).value), ParseMembers(s, k, depth + 1).next))
  {
    Dispatch(s, i, depth);
    hide ParseValue, ParseMembers, Skip;
  }

  lemma ElementsStep(s: string, k: nat, depth: nat)
    requires Terminated(s) && k < |s|
    ensures var r, v := ParseElements(s, k, depth), ParseValue(s, Skip(s, k), depth);
            if v.Failure? then r == Failure
            else
              var e := Skip(s, v.next);
              && (s[e] == ']' ==> r == Success(Element(v.value, NoElements), e + 1))
              && (s[e] == ',' ==>
                    && e + 1 < |s|
                    && (ParseElements(s, e + 1, depth).Failure? ==> r == Failure)
                    && (ParseElements(s, e + 1, depth).Success? ==>
                          r == Success(Element(v.value, ParseElements(s, e + 1, depth).value), ParseElements(s, e + 1, depth).next)))
  {
    hide ParseValue, Skip;
  }

  lemma MemberStep(s: string, k: nat, depth: nat)
    requires Terminated(s) && k < |s|
    ensures var r, key := ParseMember(s, k, depth), ReadString(s, Skip(s, k));
            key.Success? ==>
              var c := Skip(s, key.next);
              s[c] == ':' ==>
                && c + 1 < |s|
                && (ParseValue(s, Skip(s, c + 1), depth).Failure? ==> r == Failure)
                && (ParseValue(s, Skip(s, c + 1), depth).Success? ==>
                      r == Success(Pair(key.value, ParseValue(s, Skip(s, c + 1), depth).value), ParseValue(s, Skip(s, c + 1), depth).next))
  {
    hide ParseValue, Skip, ReadString;
  }

  lemma MembersStep(s: string, k: nat, depth: nat)
    requires Terminated(s) && k < |s|
    ensures var r, v := ParseMembers(s, k, depth), ParseMember(s, k, depth);
            if v.Failure? then r == Failure
            else
              var e := Skip(s, v.next);
              && (s[e] == '}' ==> r == Success(Member(v.value.key, v.value.value, NoMembers), e + 1))
              && (s[e] == ',' ==>
                    && e + 1 < |s|
                    && (ParseMembers(s, e + 1, depth).Failure? ==> r == Failure)
                    && (ParseMembers(s, e + 1, depth).Success? ==>
                          r == Success(Member(v.value.key, v.value.value, ParseMembers(s, e + 1, depth).value),
                                       ParseMembers(s, e + 1, depth).next)))
  {
    hide ParseMember, Skip;
  }

  // ---------------------------------------------------------------- the round trip

  lemma {:induction false} ValueRead(j: Json, s: string, i: nat, format: bool, depth: nat, nesting: nat)
    requires Terminated(s) && Readable(j) && At(s, i, Render(j, format, depth)) && nesting <= NESTING_LIMIT
    requires i + |Render(j, format, depth)| < |s| && Delimits(s[i + |Render(j, format, depth)|])
    ensures ParseValue(s, i, nesting) == Owed(j, nesting + Depth(j) <= NESTING_LIMIT, i + |Render(j, format, depth)|)
    decreases j, 2
  {
    hide At, Render, ParseValue, Terminated, Delimits, Depth, Owed;
    match j
    case Null => WordRead(j, s, i, format, depth, nesting);
    case False => WordRead(j, s, i, format, depth, nesting);
    case True => WordRead(j, s, i, format, depth, nesting);
    case Number(token) => TokenRead(token, s, i, format, depth, nesting);
    case String(text) => TextRead(text, s, i, format, depth, nesting);
    case Array(child) => ArrayRead(child, s, i, format, depth, nesting);
    case Object(members) => ObjectRead(members, s, i, format, depth, nesting);
  }

  lemma WordRead(j: Json, s: string, i: nat, format: bool, depth: nat, nesting: nat)
    requires Terminated(s) && At(s, i, Render(j, format, depth)) && nesting <= NESTING_LIMIT && (j.Null? || j.False? || j.True?)
    ensures i < |s|
    ensures ParseValue(s, i, nesting) == Owed(j, nesting + Depth(j) <= NESTING_LIMIT, i + |Render(j, format, depth)|)
  {
    CharAt(s, i, Render(j, format, depth), 0);
    WordsRead(s, i, nesting);
    hide At, ParseValue, Terminated;
  }

  lemma TokenRead(token: CString, s: string, i: nat, format: bool, depth: nat, nesting: nat)
    requires Terminated(s) && At(s, i, Render(Number(token), format, depth)) && NumberToken(token)
    requires i + |Render(Number(token), format, depth)| < |s| && Delimits(s[i + |Render(Number(token), format, depth)|])
    requires nesting <= NESTING_LIMIT
    ensures var j := Number(token);
            ParseValue(s, i, nesting) == Owed(j, nesting + Depth(j) <= NESTING_LIMIT, i + |Render(j, format, depth)|)
  {
    hide At, ParseValue, Terminated, NumberToken, Delimits, ParseNumber;
    TokenFacts(token);
    CharAt(s, i, token, 0);
    NumberRead(s, i, token);
    Dispatch(s, i, nesting);
  }

  lemma TextRead(text: CString, s: string, i: nat, format: bool, depth: nat, nesting: nat)
    requires Terminated(s) && At(s, i, Render(String(text), format, depth)) && nesting <= NESTING_LIMIT
    ensures i < |s|
    ensures var j := String(text);
            ParseValue(s, i, nesting) == Owed(j, nesting + Depth(j) <= NESTING_LIMIT, i + |Render(j, format, depth)|)
  {
    assert Quoted(text)[0] == QUOTE;
    assert IsText(s);
    hide At, ParseValue, Terminated, Quoted, ReadString, IsText;
    CharAt(s, i, Quoted(text), 0);
    QuotedRead(s, i, text);
    Dispatch(s, i, nesting);
  }

  lemma ArrayText(child: Elements, format: bool, depth: nat)
    ensures var inner := RenderElements(child, format, depth + 1);
            && Render(Array(child), format, depth) == "[" + (inner + "]")
            && Depth(Array(child)) == 1 + DepthElements(child)
            && (child.NoElements? ==> inner + "]" == "]" && DepthElements(child) == 0)
  {
    hide Render;
    assert Render(Array(child), format, depth) == "[" + (RenderElements(child, format, depth + 1) + "]") by { ArrayJoin(child, format, depth); }
  }

  lemma ArrayJoin(child: Elements, format: bool, depth: nat)
    ensures Render(Array(child), format, depth) == "[" + (RenderElements(child, format, depth + 1) + "]")
  {
    hide RenderElements;
  }

  lemma {:induction false} ArrayRead(child: Elements, s: string, i: nat, format: bool, depth: nat, nesting: nat)
    requires Terminated(s) && ReadableElements(child) && At(s, i, Render(Array(child), format, depth)) && nesting <= NESTING_LIMIT
    ensures i < |s| && ParseValue(s, i, nesting)
         == Owed(Array(child), nesting + Depth(Array(child)) <= NESTING_LIMIT, i + |Render(Array(child), format, depth)|)
    decreases child, 5
  {
    hide Terminated, ReadableElements, At, Render, RenderElements, ParseValue, ParseElements, Depth, DepthElements, Skip;
    var inner := RenderElements(child, format, depth + 1);
    ArrayText(child, format, depth);
    AtParts(s, i, "[", inner + "]");
    CharAt(s, i, "[", 0);
    ArrayStep(s, i, nesting);
    if child.NoElements? {
      CharAt(s, i + 1, "]", 0);
      SkipNothing(s, i + 1);
    } else {
      ElementsStart(child, format, depth + 1);
      CharAt(s, i + 1, inner + "]", 0);
      SkipNothing(s, i + 1);
      if nesting < NESTING_LIMIT { ElementsRead(child, s, i + 1, i + 1, format, depth + 1, nesting + 1); }
    }
  }

  lemma ElementsParts(e: Elements, format: bool, depth: nat)
    requires e.Element? && ReadableElements(e)
    ensures Readable(e.value) && ReadableElements(e.next)
    ensures DepthElements(e) == Max(Depth(e.value), DepthElements(e.next))
    ensures e.next.NoElements? ==> DepthElements(e.next) == 0 && e == Element(e.value, NoElements)
    ensures var v, more := Render(e.value, format, depth), RenderElements(e.next, format, depth) + "]";
            RenderElements(e, format, depth) + "]" == v + (if e.next.NoElements? then "]" else "," + (Comma(format)[1..] + more))
    ensures Comma(format) != "" && forall c :: c in Comma(format)[1..] ==> c <= ' '
  {
    ElementsText(e, format, depth);
    CommaText(format, RenderElements(e.next, format, depth) + "]");
    hide Render, RenderElements, Readable, Depth, Comma;
  }

  lemma CommaText(format: bool, more: string)
    ensures Comma(format) != "" && Comma(format) + more == "," + (Comma(format)[1..] + more)
    ensures forall c :: c in Comma(format)[1..] ==> c <= ' '
  {
    assert Comma(format) == "," + Comma(format)[1..];
  }

  lemma {:induction false} ElementsRead(e: Elements, s: string, k: nat, p: nat, format: bool, depth: nat, nesting: nat)
    requires Terminated(s) && e.Element? && ReadableElements(e) && k < |s| && Skip(s, k) == p && nesting <= NESTING_LIMIT
    requires At(s, p, RenderElements(e, format, depth) + "]")
    ensures ParseElements(s, k, nesting)
         == Owed(e, nesting + DepthElements(e) <= NESTING_LIMIT, p + |RenderElements(e, format, depth)| + 1)
    decreases e, 4
  {
    hide Terminated, ReadableElements, Readable, At, Render, RenderElements, ParseValue, ParseElements, Depth, DepthElements, Skip;
    var v, more := Render(e.value, format, depth), RenderElements(e.next, format, depth) + "]";
    var rest := if e.next.NoElements? then "]" else "," + (Comma(format)[1..] + more);
    ElementsParts(e, format, depth);
    AtParts(s, p, v, rest);
    CharAt(s, p + |v|, rest, 0);
    ValueRead(e.value, s, p, format, depth, nesting);
    SkipNothing(s, p + |v|);
    ElementsStep(s, k, nesting);
    if e.next.Element? {
      ElementsStart(e.next, format, depth);
      AtParts(s, p + |v|, ",", Comma(format)[1..] + more);
      hide Comma;
      SkipTo(s, p + |v| + 1, Comma(format)[1..], more);
      ElementsRead(e.next, s, p + |v| + 1, p + |v| + 1 + |Comma(format)[1..]|, format, depth, nesting);
    }
  }

  lemma ObjectText(members: Members, format: bool, depth: nat)
    ensures var text := Render(Object(members), format, depth);
            && text == "{" + (if members.NoMembers? then (Newline(format) + Indent(format, depth)) + "}"
                              else (Newline(format) + Indent(format, depth + 1)) + FromKey(members, format, depth))
            && Depth(Object(members)) == 1 + DepthMembers(members)
            && (members.NoMembers? ==> DepthMembers(members) == 0)
  {
    ObjectJoin(members, format, depth);
    var inner := RenderMembers(members, format, depth + 1) + Close(format, depth);
    assert Depth(Object(members)) == 1 + DepthMembers(members);
    assert members.NoMembers? ==> DepthMembers(members) == 0;
    hide *;
    if members.Member? {
      MembersText(members, format, depth);
      JoinBrace(Newline(format), inner, Indent(format, depth + 1), FromKey(members, format, depth));
    } else {
      EmptyInner(members, format, depth);
      JoinBrace(Newline(format), inner, Indent(format, depth), "}");
    }
  }

  lemma JoinBrace(n: string, inner: string, x: string, y: string)
    requires inner == x + y
    ensures "{" + n + inner == "{" + ((n + x) + y)
  {
  }

  lemma EmptyInner(members: Members, format: bool, depth: nat)
    requires members.NoMembers?
    ensures RenderMembers(members, format, depth + 1) + Close(format, depth) == Indent(format, depth) + "}"
  {
    assert RenderMembers(members, format, depth + 1) == "";
  }

  lemma ObjectJoin(members: Members, format: bool, depth: nat)
    ensures Render(Object(members), format, depth)
         == "{" + Newline(format) + (RenderMembers(members, format, depth + 1) + Close(format, depth))
  {
    hide RenderMembers, Close;
    assert Open(format) == "{" + Newline(format);
  }

  lemma {:induction false} ObjectRead(members: Members, s: string, i: nat, format: bool, depth: nat, nesting: nat)
    requires Terminated(s) && ReadableMembers(members) && At(s, i, Render(Object(members), format, depth)) && nesting <= NESTING_LIMIT
    ensures i < |s| && ParseValue(s, i, nesting)
         == Owed(Object(members), nesting + Depth(Object(members)) <= NESTING_LIMIT, i + |Render(Object(members), format, depth)|)
    decreases members, 5
  {
    hide *;
    ObjectText(members, format, depth);
    var w := Newline(format) + Indent(format, if members.NoMembers? then depth else depth + 1);
    var rest := if members.NoMembers? then "}" else FromKey(members, format, depth);
    AtParts(s, i, "{", w + rest);
    CharAt(s, i, "{", 0);
    ObjectStep(s, i, nesting);
    IndentBlank(format, if members.NoMembers? then depth else depth + 1);
    if members.Member? { KeyStart(members, format, depth); }
    SkipTo(s, i + 1, w, rest);
    OwedBy(Object(members), nesting + Depth(Object(members)) <= NESTING_LIMIT, i + |Render(Object(members), format, depth)|);
    OwedBy(members, nesting + 1 + DepthMembers(members) <= NESTING_LIMIT, i + 1 + |w| + |rest|);
    if members.Member? {
      SkipNothing(s, i + 1 + |w|);
      if nesting < NESTING_LIMIT { MembersRead(members, s, i + 1 + |w|, i + 1 + |w|, format, depth, nesting + 1); }
    }
  }

  lemma MemberParts(m: Members, format: bool, depth: nat)
    requires m.Member?
    ensures var q, text, after := Quoted(m.key), Render(m.value, format, depth + 1), AfterValue(m.next, format, depth);
            FromKey(m, format, depth) == q + (":" + (Colon(format)[1..] + (text + after)))
  {
    IndentBlank(format, depth);
    hide Quoted, Render, AfterValue, Colon;
    var text, after := Render(m.value, format, depth + 1), AfterValue(m.next, format, depth);
    assert Colon(format) + (text + after) == ":" + (Colon(format)[1..] + (text + after));
  }

  /** Where the value of a member begins, and where it ends. */
  function ValueAt(m: Members, p: nat, format: bool): nat
    requires m.Member?
  {
    p + |Quoted(m.key)| + 1 + |Colon(format)[1..]|
  }

  lemma ValueStart(j: Json, format: bool, depth: nat, after: string)
    requires Readable(j)
    ensures var t := Render(j, format, depth) + after; t != "" && t[0] > ' '
  {
    FirstChar(j, format, depth);
    hide Render;
  }

  lemma KeyRead(m: Members, s: string, k: nat, p: nat, format: bool, depth: nat)
    requires Terminated(s) && m.Member? && Readable(m.value) && k < |s| && Skip(s, k) == p
    requires At(s, p, FromKey(m, format, depth))
    ensures var key, i := ReadString(s, Skip(s, k)), ValueAt(m, p, format);
            && key.Success? && key.value == m.key
            && s[Skip(s, key.next)] == ':' && Skip(s, key.next) + 1 < |s| && Skip(s, Skip(s, key.next) + 1) == i
            && At(s, i, Render(m.value, format, depth + 1) + AfterValue(m.next, format, depth))
  {
    hide *;
    var q, rest := Quoted(m.key), Render(m.value, format, depth + 1) + AfterValue(m.next, format, depth);
    var c := p + |q|;
    TerminatedText(s);
    IndentBlank(format, depth);
    MemberParts(m, format, depth);
    ValueAtIs(m, p, format);
    ValueStart(m.value, format, depth + 1, AfterValue(m.next, format, depth));
    AtParts(s, p, q, ":" + (Colon(format)[1..] + rest));
    QuotedRead(s, p, m.key);
    ColonRead(s, c, format, rest);
  }

  lemma TerminatedText(s: string)
    requires Terminated(s)
    ensures IsText(s) && |s| >= 1 && s[|s| - 1] == '\0'
  {
  }

  lemma ValueAtIs(m: Members, p: nat, format: bool)
    requires m.Member?
    ensures ValueAt(m, p, format) == p + |Quoted(m.key)| + 1 + |Colon(format)[1..]|
  {
  }

  lemma ColonRead(s: string, c: nat, format: bool, rest: string)
    requires Colon(format) != "" && At(s, c, ":" + (Colon(format)[1..] + rest)) && rest != "" && rest[0] > ' '
    ensures c + 1 < |s| && Skip(s, c) == c && s[c] == ':'
    ensures var i := c + 1 + |Colon(format)[1..]|; Skip(s, c + 1) == i && At(s, i, rest)
  {
    hide *;
    IndentBlank(format, 0);
    AtParts(s, c, ":", Colon(format)[1..] + rest);
    CharAt(s, c, ":", 0);
    SkipNothing(s, c);
    SkipTo(s, c + 1, Colon(format)[1..], rest);
  }

  lemma {:induction false} MemberRead(m: Members, s: string, k: nat, p: nat, format: bool, depth: nat, nesting: nat)
    requires Terminated(s) && m.Member? && Readable(m.value) && k < |s| && Skip(s, k) == p && nesting <= NESTING_LIMIT
    requires At(s, p, FromKey(m, format, depth))
    ensures var v := ValueAt(m, p, format) + |Render(m.value, format, depth + 1)|;
            && At(s, v, AfterValue(m.next, format, depth))
            && ParseMember(s, k, nesting) == Owed(Pair(m.key, m.value), nesting + Depth(m.value) <= NESTING_LIMIT, v)
    decreases m, 3
  {
    hide *;
    var i, text, after := ValueAt(m, p, format), Render(m.value, format, depth + 1), AfterValue(m.next, format, depth);
    KeyRead(m, s, k, p, format, depth);
    MemberStep(s, k, nesting);
    AfterValueStart(m.next, format, depth);
    AtParts(s, i, text, after);
    CharAt(s, i + |text|, after, 0);
    ValueRead(m.value, s, i, format, depth + 1, nesting);
    OwedBy(m.value, nesting + Depth(m.value) <= NESTING_LIMIT, i + |text|);
    OwedBy(Pair(m.key, m.value), nesting + Depth(m.value) <= NESTING_LIMIT, i + |text|);
  }

  lemma OwedBy<T>(value: T, fits: bool, next: nat)
    ensures Owed(value, fits, next) == if fits then Success(value, next) else Failure
  {
  }

  lemma MembersParts(m: Members, p: nat, format: bool, depth: nat)
    requires m.Member? && ReadableMembers(m)
    ensures Readable(m.value) && ReadableMembers(m.next)
    ensures DepthMembers(m) == if Depth(m.value) < DepthMembers(m.next) then DepthMembers(m.next) else Depth(m.value)
    ensures m.next.NoMembers? ==> DepthMembers(m.next) == 0
    ensures p + |FromKey(m, format, depth)|
         == ValueAt(m, p, format) + |Render(m.value, format, depth + 1)| + |AfterValue(m.next, format, depth)|
  {
    MemberParts(m, format, depth);
    hide FromKey, Render, AfterValue, Readable, Depth;
  }

  lemma {:induction false} MembersRead(m: Members, s: string, k: nat, p: nat, format: bool, depth: nat, nesting: nat)
    requires Terminated(s) && m.Member? && ReadableMembers(m) && k < |s| && Skip(s, k) == p && nesting <= NESTING_LIMIT
    requires At(s, p, FromKey(m, format, depth))
    ensures ParseMembers(s, k, nesting)
         == Owed(m, nesting + DepthMembers(m) <= NESTING_LIMIT, p + |FromKey(m, format, depth)|)
    decreases m, 4
  {
    hide *;
    var v := ValueAt(m, p, format) + |Render(m.value, format, depth + 1)|;
    var fits, end := nesting + Depth(m.value) <= NESTING_LIMIT, p + |FromKey(m, format, depth)|;
    MembersParts(m, p, format, depth);
    MemberRead(m, s, k, p, format, depth, nesting);
    OwedBy(Pair(m.key, m.value), fits, v);
    OwedBy(m, nesting + DepthMembers(m) <= NESTING_LIMIT, end);
    AfterValueText(m.next, format, depth);
    if !fits {
      MembersStep(s, k, nesting);
    } else if m.next.Member? {
      var w := Newline(format) + Indent(format, depth + 1);
      NextKey(m.next, s, v, w, format, depth);
      MembersRead(m.next, s, v + 1, v + 1 + |w|, format, depth, nesting);
      assert end == v + 1 + |w| + |FromKey(m.next, format, depth)|;
      OwedBy(m.next, nesting + DepthMembers(m.next) <= NESTING_LIMIT, end);
      MembersStep(s, k, nesting);
    } else {
      var w := Newline(format) + Indent(format, depth);
      IndentBlank(format, depth);
      SkipTo(s, v, w, "}");
      assert end == v + |w| + 1;
      MembersStep(s, k, nesting);
    }
  }

  lemma NextKey(next: Members, s: string, v: nat, w: string, format: bool, depth: nat)
    requires next.Member? && At(s, v, "," + (w + FromKey(next, format, depth))) && w == Newline(format) + Indent(format, depth + 1)
    ensures v + 1 < |s| && Skip(s, v) == v && s[v] == ','
    ensures Skip(s, v + 1) == v + 1 + |w| && At(s, v + 1 + |w|, FromKey(next, format, depth))
  {
    hide *;
    AtParts(s, v, ",", w + FromKey(next, format, depth));
    CharAt(s, v, ",", 0);
    SkipNothing(s, v);
    KeyStart(next, format, depth);
    IndentBlank(format, depth + 1);
    SkipTo(s, v + 1, w, FromKey(next, format, depth));
  }

  lemma TextTerminated(text: CString)
    ensures var s := text + ['\0']; Terminated(s) && At(s, 0, text) && Skip(s, |text|) == |text|
  {
    assert Terminated(text + ['\0']);
  }

  lemma ParseStep(text: CString, requireEnd: bool)
    requires text != "" && text[0] > ' ' && text[0] != '\U{EF}' && Terminated(text + ['\0'])
    ensures var v := ParseValue(text + ['\0'], 0, 0);
            && (v.Failure? ==> Parse(text, requireEnd) == None)
            && (v.Success? && v.next == |text| ==> Parse(text, requireEnd) == Some(v.value))
  {
    var s := text + ['\0'];
    assert Skip(s, |text|) == |text| by { TextTerminated(text); }
    SkipNothing(s, 0);
    hide ParseValue, Terminated, Skip;
  }

  /** Printing and parsing: the same tree comes back exactly when it is nested at most 1000 deep. */
  lemma PrintedIsRead(j: Json, format: bool, requireEnd: bool)
    requires Readable(j)
    ensures IsCString(Render(j, format, 0))
    ensures Parse(Render(j, format, 0), requireEnd) == if Depth(j) <= NESTING_LIMIT then Some(j) else None
  {
    RenderText(j, format, 0);
    FirstChar(j, format, 0);
    NoBom(j, format);
    assert Delimits('\0') && 0 <= NESTING_LIMIT;
    var text: CString := Render(j, format, 0);
    hide *;
    TextTerminated(text);
    ValueRead(j, text + ['\0'], 0, format, 0, 0);
    OwedBy(j, 0 + Depth(j) <= NESTING_LIMIT, |text|);
    ParseStep(text, requireEnd);
  }

  lemma NoBom(j: Json, format: bool)
    requires Readable(j)
    ensures Render(j, format, 0) != "" && Render(j, format, 0)[0] != '\U{EF}'
  {
  }
}
