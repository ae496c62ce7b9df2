/** The parser: an offset moves over the text, a depth counts open arrays and objects. */
module JsonParser {
  import opened Wrappers
  import opened JsonTree
  import opened JsonStrings
  import opened JsonParse

  /** The elements read so far, in front of the ones to come. */
  function Link(items: seq<Json>, rest: Elements): Elements {
    if items == [] then rest else Element(items[0], Link(items[1..], rest))
  }

  lemma {:induction false} LinkLast(items: seq<Json>, value: Json, rest: Elements)
    ensures Link(items + [value], rest) == Link(items, Element(value, rest))
  {
    if items == [] {
      assert items + [value] == [value];
      assert Link([value], rest) == Element(value, Link([value][1..], rest));
    } else {
      assert (items + [value])[1..] == items[1..] + [value];
      LinkLast(items[1..], value, rest);
    }
  }

  function LinkPairs(pairs: seq<Pair>, rest: Members): Members {
    if pairs == [] then rest else Member(pairs[0].key, pairs[0].value, LinkPairs(pairs[1..], rest))
  }

  lemma {:induction false} LinkPairsLast(pairs: seq<Pair>, pair: Pair, rest: Members)
    ensures LinkPairs(pairs + [pair], rest) == LinkPairs(pairs, Member(pair.key, pair.value, rest))
  {
    if pairs == [] {
      assert pairs + [pair] == [pair];
      assert LinkPairs([pair], rest) == Member(pair.key, pair.value, LinkPairs([pair][1..], rest));
    } else {
      assert (pairs + [pair])[1..] == pairs[1..] + [pair];
      LinkPairsLast(pairs[1..], pair, rest);
    }
  }

  function Linked(items: seq<Json>, r: Read<Elements>): Read<Elements> {
    match r
    case Failure => Failure
    case Success(rest, next) => Success(Link(items, rest), next)
  }

  function LinkedPairs(pairs: seq<Pair>, r: Read<Members>): Read<Members> {
    match r
    case Failure => Failure
    case Success(rest, next) => Success(LinkPairs(pairs, rest), next)
  }

  class ParseBuffer {
    const content: string
    var offset: nat
    var depth: nat

    constructor (text: CString)
      ensures content == text + ['\0'] && offset == 0 && depth == 0 && Terminated(content)
    {
      content := text + ['\0'];
      offset, depth := 0, 0;
      assert Terminated(text + ['\0']);
    }

    /** buffer_skip_whitespace. */
    method SkipWhitespace()
      requires offset <= |content| && |content| >= 1
      modifies this`offset
      ensures offset == Skip(content, old(offset))
    {
      while offset < |content| && content[offset] <= ' '
        invariant old(offset) <= offset <= |content| && Solid(content, offset) == Solid(content, old(offset))
      {
        offset := offset + 1;
      }
      if offset == |content| { offset := offset - 1; }
    }

    /** The characters of a number go to a buffer of 64 bytes, as many as fit. */
    method CopyNumber() returns (copy: array<char>, n: nat)
      requires offset < |content|
      ensures n < copy.Length && copy[..n] == NumberText(content, offset)
    {
      hide NumberSpan, NumberChar;
      copy := new char[64];
      n := 0;
      while n < 63 && offset + n < |content| && NumberChar(content[offset + n])
        invariant 0 <= n <= 63 && offset + n <= |content|
        invariant NumberSpan(content, offset, n) == NumberSpan(content, offset, 0)
        invariant forall i :: 0 <= i < n ==> copy[i] == content[offset + i]
      {
        SpanStep(content, offset, n);
        copy[n] := content[offset + n];
        n := n + 1;
      }
      SpanStep(content, offset, n);
      copy[n] := '\0';
    }

    method ParseNumber() returns (ok: bool, item: Json)
      requires Terminated(content) && offset < |content|
      modifies this`offset
      ensures JsonParse.ParseNumber(content, old(offset)) == if ok then Success(item, offset) else Failure
      ensures ok ==> depth == old(depth)
      ensures ok ==> item.Number? && Decimal(item.token) == Decimal(NumberText(content, old(offset)))
    {
      hide *;
      var copy, n := CopyNumber();
      var taken := NumberLength(copy[..n]);
      NumberIs(content, offset, copy[..n], taken);
      if taken == 0 { return false, Null; }
      item := Number(copy[..n][..taken]);
      offset := offset + taken;
      ok := true;
    }

    // -------------------------------------------------------------- strings

    /** The first pass: where the literal ends, and how many backslashes begin an escape. */
    method FindEnd() returns (ok: bool, end: nat, skipped: nat)
      requires offset < |content| && content[offset] == QUOTE
      ensures ok == ScanEnd(content, offset + 1).Some?
      ensures ok ==> Some(end) == ScanEnd(content, offset + 1) && !Inside(content, offset + 1, end)
                     && skipped == Skips(content, offset + 1, end)
    {
      end, skipped := offset + 1, 0;
      while end < |content| && content[end] != QUOTE
        invariant offset + 1 <= end <= |content| && !Inside(content, offset + 1, end)
        invariant skipped == Skips(content, offset + 1, end) && ScanEnd(content, end) == ScanEnd(content, offset + 1)
        decreases |content| - end
      {
        if content[end] == BACKSLASH {
          if end + 1 >= |content| { return false, end, skipped; }
          skipped := skipped + 1;
          end := end + 1;
        }
        end := end + 1;
      }
      ok := end < |content|;
    }

    /** utf16_literal_to_utf8: the bytes go to the output from the last to the first. */
    method WriteUtf8(output: array<char>, at: nat, codepoint: int)
      requires 0 <= codepoint <= 0x10FFFF && at + |Utf8(codepoint)| <= output.Length
      modifies output
      ensures output[..at + |Utf8(codepoint)|] == old(output[..at]) + Utf8(codepoint)
    {
      var length, mark := 1, 0;
      if codepoint < 0x80 {
      } else if codepoint < 0x800 {
        length, mark := 2, 0xC0;
      } else if codepoint < 0x1_0000 {
        length, mark := 3, 0xE0;
      } else {
        length, mark := 4, 0xF0;
      }
      ghost var head := output[..at];
      assert length == |Utf8(codepoint)|;
      Leading(codepoint, length);
      hide Utf8, Shifted, Byte;
      var rest := WriteContinuations(output, at, codepoint, length);
      output[at] := Byte(rest + mark);
      Assembled(output[..at + length], head, Utf8(codepoint));
    }

    /** The loop over all bytes but the first: six bits each, and what is left of the code point. */
    method WriteContinuations(output: array<char>, at: nat, codepoint: int, length: nat) returns (rest: int)
      requires 0 <= codepoint <= 0x10FFFF && 1 <= length == |Utf8(codepoint)| && at + length <= output.Length
      modifies output
      ensures rest == Shifted(codepoint, length - 1) && output[..at] == old(output[..at])
      ensures forall i :: 0 < i < length ==> output[at + i] == Utf8(codepoint)[i]
    {
      hide Utf8, Byte;
      var position := length - 1;
      rest := codepoint;
      while position > 0
        invariant 0 <= position < length && 0 <= rest && output[..at] == old(output[..at])
        invariant rest == Shifted(codepoint, length - 1 - position)
        invariant forall i :: position < i < length ==> output[at + i] == Utf8(codepoint)[i]
      {
        Continuation(codepoint, length, position);
        output[at + position] := Byte(0x80 + rest % 64);
        rest := rest / 64;
        position := position - 1;
      }
    }

    /** One escape of the second pass; 0 bytes read mean a failure. */
    method ReadEscape(p: nat, end: nat, output: array<char>, out: nat) returns (length: nat, out': nat)
      requires offset < p < end < |content| && content[p] == BACKSLASH
      requires out <= output.Length && out + Budget(content, offset + 1, end) - Budget(content, offset + 1, p) < output.Length
      modifies output
      ensures length == EscapeLength(content, p, end)
      ensures length > 0 ==> out' == out + |Bytes(content, p, end)| <= output.Length
      ensures length > 0 ==> output[..out'] == old(output[..out]) + Bytes(content, p, end)
    {
      length, out' := 2, out + 1;
      BudgetGrows(content, offset + 1, p, end);
      if content[p + 1] == 'u' {
        var l := ReadLiteral(content, p, end);
        length := l.length;
        if length > 0 {
          RoomForLiteral(content, offset + 1, p, l, end);
          BudgetGrows(content, offset + 1, p + length, end);
          WriteUtf8(output, out, l.codepoint);
          out' := out + |Utf8(l.codepoint)|;
        }
      } else {
        var c := Unshort(content[p + 1]);
        if c.None? { return 0, out; }
        output[out] := c.value;
      }
    }

    /**
     Both passes.  The output has one byte for every character of the literal that the first
     pass did not skip, and one for the NUL; the second pass stays inside whatever the text is.
     */
    method ParseString() returns (ok: bool, text: CString)
      requires Terminated(content) && offset < |content|
      modifies this`offset
      ensures ReadString(content, old(offset)) == if ok then Success(text, offset) else Failure
      ensures ok ==> depth == old(depth)
    {
      text := "";
      TerminatedText(content);
      ReadFails(content, offset);
      hide *;
      if content[offset] != QUOTE { return false, ""; }
      var found, end, skipped := FindEnd();
      if !found { return false, ""; }
      EstimateIs(content, offset + 1, end);
      var room := end - offset - skipped;
      var output := new char[room + 1];
      var decoded, out := DecodeInto(end, output);
      if !decoded { return false, ""; }
      ReadSucceeds(content, offset, end);
      text := CStringOf(output[..out]);
      offset := end + 1;
      ok := true;
    }

    /** The second pass, and the NUL behind the bytes. */
    method DecodeInto(end: nat, output: array<char>) returns (ok: bool, out: nat)
      requires offset < end < |content| && !Inside(content, offset + 1, end)
      requires output.Length == Budget(content, offset + 1, end) + 2
      modifies output
      ensures ok == Decode(content, offset + 1, end).Some? && out < output.Length
      ensures ok ==> output[..out] == Decode(content, offset + 1, end).value
    {
      hide *;
      var p := offset + 1;
      out := 0;
      ghost var goal := Decode(content, offset + 1, end);
      EstimateIs(content, offset + 1, p);
      BudgetGrows(content, offset + 1, p, end);
      BehindNothing(goal);
      assert output[..0] == "";
      while p < end
        invariant offset + 1 <= p <= end + 1
        invariant out <= Budget(content, offset + 1, if p <= end then p else end) < output.Length
        invariant goal == Behind(output[..out], Decode(content, p, end))
        decreases end + 1 - p
      {
        BudgetGrows(content, offset + 1, p, end);
        DecodeStep(content, p, end);
        ghost var done := output[..out];
        if content[p] != BACKSLASH {
          OneChar(content, offset + 1, p);
          BudgetGrows(content, offset + 1, p + 1, end);
          BehindTwice(done, [content[p]], Decode(content, p + 1, end));
          output[out] := content[p];
          out := out + 1;
          p := p + 1;
          assert output[..out] == done + [content[p - 1]];
        } else {
          var length, next := ReadEscape(p, end, output, out);
          BehindFails(done);
          if length == 0 { return false, 0; }
          RoomForEscape(content, offset + 1, p, end);
          BudgetGrows(content, offset + 1, if p + length <= end then p + length else end, end);
          BehindTwice(done, Bytes(content, p, end), Decode(content, p + length, end));
          out := next;
          p := p + length;
        }
      }
      BehindAll(output[..out], content, p, end);
      output[out] := '\0';
      ok := true;
    }

    // -------------------------------------------------------------- values, arrays, objects

    method Word(word: string) returns (here: bool)
      ensures here == Starts(content, offset, word)
    {
      here := offset + |word| <= |content| && content[offset..offset + |word|] == word;
    }

    method ParseValue() returns (ok: bool, item: Json)
      requires Terminated(content) && offset < |content|
      modifies this
      ensures JsonParse.ParseValue(content, old(offset), old(depth)) == if ok then Success(item, offset) else Failure
      ensures ok ==> depth == old(depth)
      decreases |content| - offset, 2
    {
      hide NumberLength, NumberSpan, JsonParse.ParseNumber, ReadString, ParseElements, ParseMembers, Skip;
      var here := Word("null");
      if here {
        offset := offset + 4;
        return true, Null;
      }
      here := Word("false");
      if here {
        offset := offset + 5;
        return true, False;
      }
      here := Word("true");
      if here {
        offset := offset + 4;
        return true, True;
      }
      if content[offset] == QUOTE {
        var text;
        ok, text := ParseString();
        item := String(text);
      } else if content[offset] == '-' || Digit(content[offset]) {
        ok, item := ParseNumber();
      } else if content[offset] == '[' {
        ok, item := ParseArray();
      } else if content[offset] == '{' {
        ok, item := ParseObject();
      } else {
        ok, item := false, Null;
      }
    }

    /** Past an opening bracket, unless too many are open. */
    method Enter() returns (ok: bool)
      requires Terminated(content) && offset < |content| && content[offset] != '\0'
      modifies this
      ensures ok == (old(depth) < NESTING_LIMIT)
      ensures ok ==> depth == old(depth) + 1 && old(offset) + 1 < |content|
      ensures ok ==> offset == Skip(content, old(offset) + 1) && old(offset) < offset < |content|
    {
      if depth >= NESTING_LIMIT { return false; }
      BracketInside(content, offset);
      depth := depth + 1;
      offset := offset + 1;
      SkipWhitespace();
      ok := true;
    }

    method ParseArray() returns (ok: bool, item: Json)
      requires Terminated(content) && offset < |content| && content[offset] == '['
      modifies this
      ensures JsonParse.ParseArray(content, old(offset), old(depth)) == if ok then Success(item, offset) else Failure
      ensures ok ==> depth == old(depth)
      decreases |content| - offset, 1
    {
      hide *;
      item := Null;
      ok := Enter();
      ArrayFails(content, old(offset), old(depth));
      if !ok { return; }
      ArrayIs(content, old(offset), old(depth), offset);
      if content[offset] == ']' {
        depth := depth - 1;
        offset := offset + 1;
        return true, Array(NoElements);
      }
      var child;
      ok, child := ParseItems();
      if !ok { return false, Null; }
      depth := depth - 1;
      item := Array(child);
    }

    /** The loop over the elements, up to and past the closing bracket. */
    method ParseItems() returns (ok: bool, child: Elements)
      requires Terminated(content) && offset < |content|
      modifies this
      ensures ParseElements(content, old(offset), old(depth)) == if ok then Success(child, offset) else Failure
      ensures ok ==> depth == old(depth)
      decreases |content| - offset, 3
    {
      hide Skip, ParseElements, Terminated, JsonParse.ParseValue;
      child := NoElements;
      var items := [];
      ghost var goal, nesting := ParseElements(content, offset, depth), depth;
      LinkedNothing(goal);
      while true
        invariant offset < |content| && depth == nesting
        invariant old(offset) <= offset
        invariant goal == Linked(items, ParseElements(content, offset, nesting))
        decreases |content| - offset
      {
        ghost var start := offset;
        ElementsStep(content, start, nesting);
        SkipWhitespace();
        var value;
        ok, value := ParseValue();
        if !ok { return false, NoElements; }
        SkipWhitespace();
        if content[offset] == ',' {
          LinkedNext(items, value, ParseElements(content, offset + 1, nesting));
          items := items + [value];
          offset := offset + 1;
        } else {
          OtherDelimiter(content, start, nesting);
          if content[offset] != ']' { return false, NoElements; }
          offset := offset + 1;
          child := Link(items, Element(value, NoElements));
          return true, child;
        }
      }
    }

    method ParseObject() returns (ok: bool, item: Json)
      requires Terminated(content) && offset < |content| && content[offset] == '{'
      modifies this
      ensures JsonParse.ParseObject(content, old(offset), old(depth)) == if ok then Success(item, offset) else Failure
      ensures ok ==> depth == old(depth)
      decreases |content| - offset, 1
    {
      hide *;
      item := Null;
      ok := Enter();
      ObjectFails(content, old(offset), old(depth));
      if !ok { return; }
      ObjectIs(content, old(offset), old(depth), offset);
      if content[offset] == '}' {
        depth := depth - 1;
        offset := offset + 1;
        return true, Object(NoMembers);
      }
      var members;
      ok, members := ParsePairs();
      if !ok { return false, Null; }
      depth := depth - 1;
      item := Object(members);
    }

    /** Name, colon and value of one member. */
    method ParsePair() returns (ok: bool, pair: Pair)
      requires Terminated(content) && offset < |content|
      modifies this
      ensures ParseMember(content, old(offset), old(depth)) == if ok then Success(pair, offset) else Failure
      ensures ok ==> depth == old(depth)
      decreases |content| - offset, 3
    {
      hide Skip, JsonParse.ParseValue, ReadString;
      pair := Pair("", Null);
      SkipWhitespace();
      var key;
      ok, key := ParseString();
      if !ok { return; }
      SkipWhitespace();
      if content[offset] != ':' { return false, pair; }
      BracketInside(content, offset);
      offset := offset + 1;
      SkipWhitespace();
      var value;
      ok, value := ParseValue();
      pair := Pair(key, value);
    }

    method ParsePairs() returns (ok: bool, members: Members)
      requires Terminated(content) && offset < |content|
      modifies this
      ensures ParseMembers(content, old(offset), old(depth)) == if ok then Success(members, offset) else Failure
      ensures ok ==> depth == old(depth)
      decreases |content| - offset, 4
    {
      hide Skip, ParseMembers, Terminated, ParseMember;
      members := NoMembers;
      var pairs := [];
      ghost var goal, nesting := ParseMembers(content, offset, depth), depth;
      LinkedNoPairs(goal);
      while true
        invariant offset < |content| && depth == nesting
        invariant old(offset) <= offset
        invariant goal == LinkedPairs(pairs, ParseMembers(content, offset, nesting))
        decreases |content| - offset
      {
        ghost var start := offset;
        MembersStep(content, start, nesting);
        var pair;
        ok, pair := ParsePair();
        if !ok { return false, NoMembers; }
        SkipWhitespace();
        if content[offset] == ',' {
          LinkedNextPair(pairs, pair, ParseMembers(content, offset + 1, nesting));
          pairs := pairs + [pair];
          offset := offset + 1;
        } else {
          OtherEnd(content, start, nesting);
          if content[offset] != '}' { return false, NoMembers; }
          offset := offset + 1;
          members := LinkPairs(pairs, Member(pair.key, pair.value, NoMembers));
          return true, members;
        }
      }
    }
  }

  /** cJSON_ParseWithOpts. */
  method ParseWithOpts(text: CString, requireEnd: bool) returns (item: Option<Json>)
    ensures item == Parse(text, requireEnd)
  {
    var buffer := new ParseBuffer(text);
    hide JsonParse.ParseValue, Skip;
    if HasBom(buffer.content) { buffer.offset := buffer.offset + 3; }
    buffer.SkipWhitespace();
    var ok, value := buffer.ParseValue();
    if !ok { return None; }
    if requireEnd {
      buffer.SkipWhitespace();
      if buffer.content[buffer.offset] != '\0' { return None; }
    }
    item := Some(value);
  }

  lemma BracketInside(s: string, i: nat)
    requires Terminated(s) && i < |s| && s[i] != '\0'
    ensures i + 1 < |s|
  {
  }

  lemma ArrayFails(s: string, i: nat, depth: nat)
    requires Terminated(s) && i < |s| && s[i] == '['
    ensures depth >= NESTING_LIMIT ==> JsonParse.ParseArray(s, i, depth) == Failure
  {
  }

  lemma ArrayIs(s: string, i: nat, depth: nat, k: nat)
    requires Terminated(s) && i + 1 < |s| && s[i] == '[' && depth < NESTING_LIMIT && k == Skip(s, i + 1)
    ensures s[k] == ']' ==> JsonParse.ParseArray(s, i, depth) == Success(Array(NoElements), k + 1)
    ensures s[k] != ']' && ParseElements(s, k, depth + 1).Failure? ==> JsonParse.ParseArray(s, i, depth) == Failure
    ensures s[k] != ']' && ParseElements(s, k, depth + 1).Success? ==>
              var r := ParseElements(s, k, depth + 1);
              JsonParse.ParseArray(s, i, depth) == Success(Array(r.value), r.next)
  {
    hide ParseElements, Skip;
  }

  lemma ObjectFails(s: string, i: nat, depth: nat)
    requires Terminated(s) && i < |s| && s[i] == '{'
    ensures depth >= NESTING_LIMIT ==> JsonParse.ParseObject(s, i, depth) == Failure
  {
  }

  lemma ObjectIs(s: string, i: nat, depth: nat, k: nat)
    requires Terminated(s) && i + 1 < |s| && s[i] == '{' && depth < NESTING_LIMIT && k == Skip(s, i + 1)
    ensures s[k] == '}' ==> JsonParse.ParseObject(s, i, depth) == Success(Object(NoMembers), k + 1)
    ensures s[k] != '}' && ParseMembers(s, k, depth + 1).Failure? ==> JsonParse.ParseObject(s, i, depth) == Failure
    ensures s[k] != '}' && ParseMembers(s, k, depth + 1).Success? ==>
              var r := ParseMembers(s, k, depth + 1);
              JsonParse.ParseObject(s, i, depth) == Success(Object(r.value), r.next)
  {
    hide ParseMembers, Skip;
  }

  lemma LinkedNothing(r: Read<Elements>)
    ensures Linked([], r) == r
  {
  }

  lemma LinkedNext(items: seq<Json>, value: Json, r: Read<Elements>)
    ensures r.Failure? ==> Linked(items + [value], r) == Failure
    ensures r.Success? ==> Linked(items + [value], r) == Linked(items, Success(Element(value, r.value), r.next))
  {
    if r.Success? { LinkLast(items, value, r.value); }
  }

  lemma LinkedNoPairs(r: Read<Members>)
    ensures LinkedPairs([], r) == r
  {
  }

  lemma LinkedNextPair(pairs: seq<Pair>, pair: Pair, r: Read<Members>)
    ensures r.Failure? ==> LinkedPairs(pairs + [pair], r) == Failure
    ensures r.Success? ==> LinkedPairs(pairs + [pair], r) == LinkedPairs(pairs, Success(Member(pair.key, pair.value, r.value), r.next))
  {
    if r.Success? { LinkPairsLast(pairs, pair, r.value); }
  }

  lemma OtherDelimiter(s: string, k: nat, depth: nat)
    requires Terminated(s) && k < |s|
    ensures var v := JsonParse.ParseValue(s, Skip(s, k), depth);
            v.Success? && s[Skip(s, v.next)] != ',' && s[Skip(s, v.next)] != ']' ==> ParseElements(s, k, depth) == Failure
  {
    hide JsonParse.ParseValue, Skip;
  }

  lemma OtherEnd(s: string, k: nat, depth: nat)
    requires Terminated(s) && k < |s|
    ensures var v := ParseMember(s, k, depth);
            v.Success? && s[Skip(s, v.next)] != ',' && s[Skip(s, v.next)] != '}' ==> ParseMembers(s, k, depth) == Failure
  {
    hide ParseMember, Skip;
  }

  // ---------------------------------------------------------------- specification of one step of the second pass

  function EscapeLength(s: string, p: nat, end: nat): nat
    requires p < end < |s|
  {
    if s[p + 1] == 'u' then ReadLiteral(s, p, end).length else if Unshort(s[p + 1]).Some? then 2 else 0
  }

  function Bytes(s: string, p: nat, end: nat): string
    requires p < end < |s| && EscapeLength(s, p, end) > 0
  {
    if s[p + 1] == 'u' then Utf8(ReadLiteral(s, p, end).codepoint) else [Unshort(s[p + 1]).value]
  }

  /** A literal needs no more bytes than the estimate allows for its characters. */
  lemma RoomForLiteral(s: string, start: nat, p: nat, l: Literal, end: nat)
    requires start <= p < end < |s| && l == ReadLiteral(s, p, end) && l.length > 0
    ensures Budget(s, start, p) + |Utf8(l.codepoint)| <= Budget(s, start, p + l.length)
  {
    SixChars(s, start, p);
    if l.length == 12 { SixChars(s, start, p + 6); }
    hide Budget, ReadLiteral;
  }

  /** So does any escape; the last one may take the closing quote. */
  lemma RoomForEscape(s: string, start: nat, p: nat, end: nat)
    requires start <= p < end < |s| && s[p] == BACKSLASH && EscapeLength(s, p, end) > 0 && !Inside(s, start, end)
    ensures var q := p + EscapeLength(s, p, end);
            q <= end + 1 && Budget(s, start, p) + |Bytes(s, p, end)| <= Budget(s, start, if q <= end then q else end)
  {
    if s[p + 1] == 'u' {
      RoomForLiteral(s, start, p, ReadLiteral(s, p, end), end);
    } else if p + 2 <= end {
      TwoChars(s, start, p);
      hide Budget, ReadLiteral;
    } else {
      OneChar(s, start, p);
    }
  }

  /** For every text, however the passes fall out of step: the bytes stay within the estimate. */
  lemma {:induction false} DecodedFits(s: string, start: nat, p: nat, end: nat)
    requires start <= end < |s| && start <= p <= end + 1 && !Inside(s, start, end)
    ensures var d := Decode(s, p, end);
            d.Some? ==> |d.value| <= Budget(s, start, end) - Budget(s, start, if p <= end then p else end)
    decreases end + 1 - p
  {
    hide Budget, Decode, Inside, EscapeLength, Bytes;
    if p < end {
      DecodeStep(s, p, end);
      if s[p] != BACKSLASH {
        OneChar(s, start, p);
        DecodedFits(s, start, p + 1, end);
        BehindLength([s[p]], Decode(s, p + 1, end));
      } else if EscapeLength(s, p, end) > 0 {
        var q := p + EscapeLength(s, p, end);
        RoomForEscape(s, start, p, end);
        DecodedFits(s, start, q, end);
        BehindLength(Bytes(s, p, end), Decode(s, q, end));
      }
    } else {
      BehindAll("", s, p, end);
      BehindNothing(Decode(s, p, end));
    }
  }

  lemma BehindLength(done: string, rest: Option<string>)
    ensures rest.Some? ==> Behind(done, rest).Some? && |Behind(done, rest).value| == |done| + |rest.value|
    ensures rest.None? ==> Behind(done, rest) == None
  {
  }

  /** One round of the second pass. */
  lemma DecodeStep(s: string, p: nat, end: nat)
    requires p < end < |s|
    ensures s[p] != BACKSLASH ==> Decode(s, p, end) == Behind([s[p]], Decode(s, p + 1, end))
    ensures s[p] == BACKSLASH && EscapeLength(s, p, end) == 0 ==> Decode(s, p, end) == None
    ensures s[p] == BACKSLASH && EscapeLength(s, p, end) > 0 ==>
              Decode(s, p, end) == Behind(Bytes(s, p, end), Decode(s, p + EscapeLength(s, p, end), end))
  {
    hide ReadLiteral, Unshort, Utf8;
  }

  /** What has been decoded, in front of what is still to come. */
  function Behind(done: string, rest: Option<string>): Option<string> {
    if rest.None? then None else Some(done + rest.value)
  }

  lemma BehindFails(done: string)
    ensures Behind(done, None) == None
  {
  }

  lemma BehindAll(done: string, s: string, p: nat, end: nat)
    requires end <= p && end < |s|
    ensures Behind(done, Decode(s, p, end)) == Some(done)
  {
    assert done + "" == done;
  }

  lemma EstimateIs(s: string, start: nat, p: nat)
    requires start <= p <= |s|
    ensures Budget(s, start, p) == p - start - Skips(s, start, p) && Budget(s, start, start) == 0
  {
  }

  lemma SpanStep(s: string, i: nat, n: nat)
    requires i + n <= |s| && n <= 63
    ensures n < 63 && i + n < |s| && NumberChar(s[i + n]) ==> NumberSpan(s, i, n) == NumberSpan(s, i, n + 1)
    ensures !(n < 63 && i + n < |s| && NumberChar(s[i + n])) ==> NumberSpan(s, i, n) == n
  {
  }

  lemma ReadFails(s: string, i: nat)
    requires IsText(s) && i < |s|
    ensures s[i] != QUOTE || ScanEnd(s, i + 1) == None ==> ReadString(s, i) == Failure
    ensures forall end :: s[i] == QUOTE && ScanEnd(s, i + 1) == Some(end) && Decode(s, i + 1, end) == None ==> ReadString(s, i) == Failure
  {
  }

  lemma ReadSucceeds(s: string, i: nat, end: nat)
    requires IsText(s) && i < |s| && s[i] == QUOTE && ScanEnd(s, i + 1) == Some(end) && Decode(s, i + 1, end).Some?
    ensures var t := CStringOf(Decode(s, i + 1, end).value);
            IsCString(t) && ReadString(s, i).Success? && ReadString(s, i).value == t && ReadString(s, i).next == end + 1
  {
    hide Decode, ScanEnd;
    assert IsCString(AsCString(s, i + 1, end));
    hide IsCString, CStringOf;
  }

  lemma BehindNothing(rest: Option<string>)
    ensures Behind("", rest) == rest
  {
    if rest.Some? { assert "" + rest.value == rest.value; }
  }

  lemma BehindTwice(a: string, b: string, rest: Option<string>)
    ensures Behind(a, Behind(b, rest)) == Behind(a + b, rest)
  {
    if rest.Some? { assert a + (b + rest.value) == a + b + rest.value; }
  }

  /** What `strtod` is given. */
  function NumberText(s: string, i: nat): string
    requires i <= |s|
  {
    s[i..i + NumberSpan(s, i, 0)]
  }

  lemma NumberIs(s: string, i: nat, t: string, k: nat)
    requires Terminated(s) && i < |s| && t == NumberText(s, i) && k == NumberLength(t)
    ensures k == 0 ==> JsonParse.ParseNumber(s, i) == Failure
    ensures k > 0 ==> IsCString(t[..k]) && JsonParse.ParseNumber(s, i) == Success(Number(t[..k]), i + k)
    ensures k > 0 ==> Decimal(t[..k]) == Decimal(t)
  {
    hide NumberLength, NumberSpan, Terminated, Decimal;
    if k > 0 {
      ValueOfTaken(t);
      assert t[..k] == s[i..i + k];
      assert IsCString(Token(s, i, k));
    }
  }

  lemma Assembled(s: string, head: string, tail: string)
    requires |s| == |head| + |tail| && s[..|head|] == head
    requires forall i :: 0 <= i < |tail| ==> s[|head| + i] == tail[i]
    ensures s == head + tail
  {
  }

  function Shifted(cp: int, n: nat): int {
    if n == 0 then cp else Shifted(cp, n - 1) / 64
  }

  lemma Continuation(cp: int, length: nat, position: nat)
    requires 0 <= cp <= 0x10FFFF && length == |Utf8(cp)| && 0 < position < length
    ensures Utf8(cp)[position] == Byte(0x80 + Shifted(cp, length - 1 - position) % 64)
    ensures Shifted(cp, length - position) == Shifted(cp, length - 1 - position) / 64 >= 0
  {
    Shifts(cp);
  }

  lemma Shifts(cp: int)
    requires cp >= 0
    ensures Shifted(cp, 0) == cp && Shifted(cp, 1) == cp / 64 && Shifted(cp, 2) == cp / 4096 && Shifted(cp, 3) == cp / 262144
  {
    assert Shifted(cp, 1) == cp / 64;
    assert Shifted(cp, 2) == cp / 64 / 64;
    assert Shifted(cp, 3) == cp / 64 / 64 / 64;
  }

  lemma Leading(cp: int, length: nat)
    requires 0 <= cp <= 0x10FFFF && length == |Utf8(cp)|
    ensures var mark := if length == 1 then 0 else if length == 2 then 0xC0 else if length == 3 then 0xE0 else 0xF0;
            0 <= Shifted(cp, length - 1) + mark < 256 && Utf8(cp)[0] == Byte(Shifted(cp, length - 1) + mark)
  {
    Shifts(cp);
  }
}
