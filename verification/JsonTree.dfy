/** JSON values as cJSON keeps them, and the text that stands for them. */
module JsonTree {

  /** What C reads at a `char*`: bytes up to the first NUL. */
  ghost predicate IsCString(s: string) {
    forall i :: 0 <= i < |s| ==> '\0' < s[i] < '\U{100}'
  }

  type CString = s: string | IsCString(s)

  /** The children of an array or object are linked by `next`. */
  datatype Elements = NoElements | Element(value: Json, next: Elements)
  datatype Members = NoMembers | Member(key: CString, value: Json, next: Members)

  /** The doubles that no number text stands for. */
  datatype Special = NaN | PlusInfinity | MinusInfinity

  /**
   * A finite number is kept as a text that `strtod` turns into its `valuedouble`: the parser keeps the text it
   * took, and a number about to be printed is the text that `sprintf` gives for it.
   */
  datatype Json =
    | Invalid
    | Null
    | False
    | True
    | Number(token: CString)
    | NonFinite(special: Special)
    | String(text: CString)
    | Raw(text: CString)
    | Array(child: Elements)
    | Object(members: Members)

  const QUOTE: char := '\"'
  const BACKSLASH: char := '\\'
  const BS: char := '\U{8}'
  const FF: char := '\U{C}'

  // ---------------------------------------------------------------- strings

  function HexDigit(d: int): char
    requires 0 <= d < 16
  {
    "0123456789abcdef"[d]
  }

  /** The letter after the backslash in a two-character escape. */
  function ShortEscape(c: char): char {
    if c == QUOTE || c == BACKSLASH then c
    else if c == BS then 'b'
    else if c == FF then 'f'
    else if c == '\n' then 'n'
    else if c == '\r' then 'r'
    else if c == '\t' then 't'
    else '\0'
  }

  function EscapedChar(c: char): (e: string)
    ensures 1 <= |e| <= 6
  {
    if ShortEscape(c) != '\0' then [BACKSLASH, ShortEscape(c)]
    else if c < ' ' then [BACKSLASH, 'u', '0', '0', HexDigit(c as int / 16), HexDigit(c as int % 16)]
    else [c]
  }

  function Escaped(s: string): (e: string)
    ensures |e| >= |s|
  {
    if s == "" then "" else EscapedChar(s[0]) + Escaped(s[1..])
  }

  function Quoted(s: string): string {
    [QUOTE] + Escaped(s) + [QUOTE]
  }

  lemma {:induction false} EscapedAppend(s: string, c: char)
    ensures Escaped(s + [c]) == Escaped(s) + EscapedChar(c)
  {
    if s == "" {
      assert s + [c] == [c];
      assert Escaped([c]) == EscapedChar(c) + Escaped([c][1..]);
    } else {
      assert (s + [c])[1..] == s[1..] + [c];
      EscapedAppend(s[1..], c);
    }
  }

  lemma EscapedCharText(c: char)
    requires '\0' < c < '\U{100}'
    ensures IsCString(EscapedChar(c))
  {
  }

  lemma {:induction false} EscapedText(s: CString)
    ensures IsCString(Escaped(s))
  {
    if s != "" {
      EscapedCharText(s[0]);
      EscapedText(s[1..]);
    }
  }

  // ---------------------------------------------------------------- rendering

  function Tabs(n: nat): (t: string)
    ensures |t| == n
  {
    seq(n, _ => '\t')
  }

  /** Between two elements of an array. */
  function Comma(format: bool): string {
    if format then ", " else ","
  }

  function Open(format: bool): string {
    if format then "{\n" else "{"
  }

  /** The indentation in front of a closing brace, and the brace. */
  function Close(format: bool, depth: nat): string {
    if format then Tabs(depth) + "}" else "}"
  }

  function Colon(format: bool): string {
    if format then ":\t" else ":"
  }

  function MemberEnd(more: bool, format: bool): string {
    (if more then "," else "") + (if format then "\n" else "")
  }

  /** What stands in front of the value of a member. */
  function KeyText(key: string, format: bool, depth: nat): string {
    (if format then Tabs(depth) else "") + Quoted(key) + Colon(format)
  }

  /** The text of a value printed at a nesting depth. */
  function Render(j: Json, format: bool, depth: nat): string
    decreases j, 1
  {
    match j
    case Invalid => ""
    case Null => "null"
    case False => "false"
    case True => "true"
    case Number(token) => token
    case NonFinite(_) => "null"
    case String(text) => Quoted(text)
    case Raw(text) => text
    case Array(child) => "[" + RenderElements(child, format, depth + 1) + "]"
    case Object(members) => Open(format) + RenderMembers(members, format, depth + 1) + Close(format, depth)
  }

  function RenderElements(e: Elements, format: bool, depth: nat): string
    decreases e, 1
  {
    match e
    case NoElements => ""
    case Element(value, next) =>
      Render(value, format, depth) + (if next.NoElements? then "" else Comma(format)) + RenderElements(next, format, depth)
  }

  /** Key, colon, value, comma unless last. */
  function RenderMember(m: Members, format: bool, depth: nat): string
    requires m.Member?
    decreases m, 0
  {
    KeyText(m.key, format, depth) + Render(m.value, format, depth) + MemberEnd(m.next.Member?, format)
  }

  function RenderMembers(m: Members, format: bool, depth: nat): string
    decreases m, 1
  {
    if m.NoMembers? then "" else RenderMember(m, format, depth) + RenderMembers(m.next, format, depth)
  }

  /** What can be printed: no invalid value, no number of more than 25 characters. */
  predicate Printable(j: Json) {
    match j
    case Invalid => false
    case Number(token) => |token| <= 25
    case Array(child) => PrintableElements(child)
    case Object(members) => PrintableMembers(members)
    case _ => true
  }

  predicate PrintableElements(e: Elements) {
    e.Element? ==> Printable(e.value) && PrintableElements(e.next)
  }

  predicate PrintableMembers(m: Members) {
    m.Member? ==> Printable(m.value) && PrintableMembers(m.next)
  }

  lemma CStringConcat(a: string, b: string)
    requires IsCString(a) && IsCString(b)
    ensures IsCString(a + b)
  {
  }

  lemma QuotedText(s: CString)
    ensures IsCString(Quoted(s))
  {
    EscapedText(s);
  }

  lemma BracesText(format: bool, depth: nat)
    ensures IsCString(Open(format)) && IsCString(Close(format, depth))
  {
  }

  /** Rendered text holds no NUL. */
  lemma {:induction false} RenderText(j: Json, format: bool, depth: nat)
    ensures IsCString(Render(j, format, depth))
    decreases j, 1
  {
    match j
    case Array(child) =>
      ElementsText(child, format, depth + 1);
    case Object(members) =>
      var inner := RenderMembers(members, format, depth + 1);
      MembersText(members, format, depth + 1);
      BracesText(format, depth);
      hide RenderMembers, Open, Close;
      CStringConcat(Open(format), inner);
      CStringConcat(Open(format) + inner, Close(format, depth));
    case String(text) => QuotedText(text);
    case _ =>
  }

  lemma {:induction false} ElementsText(e: Elements, format: bool, depth: nat)
    ensures IsCString(RenderElements(e, format, depth))
    decreases e, 1
  {
    if e.Element? {
      RenderText(e.value, format, depth);
      ElementsText(e.next, format, depth);
    }
  }

  lemma {:induction false} MembersText(m: Members, format: bool, depth: nat)
    ensures IsCString(RenderMembers(m, format, depth))
    decreases m, 1
  {
    if m.Member? {
      MemberText(m, format, depth);
      MembersText(m.next, format, depth);
      CStringConcat(RenderMember(m, format, depth), RenderMembers(m.next, format, depth));
    }
  }

  lemma {:induction false} MemberText(m: Members, format: bool, depth: nat)
    requires m.Member?
    ensures IsCString(RenderMember(m, format, depth))
    decreases m, 0
  {
    KeyTextIsText(m.key, format, depth);
    RenderText(m.value, format, depth);
    hide KeyText, Render;
    CStringConcat(KeyText(m.key, format, depth), Render(m.value, format, depth));
  }

  lemma KeyTextIsText(key: CString, format: bool, depth: nat)
    ensures IsCString(KeyText(key, format, depth))
  {
    QuotedText(key);
  }
}
