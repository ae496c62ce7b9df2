/** The printer: text is written into a buffer that grows, with room reserved before every write. */
module JsonPrint {
  import opened JsonTree

  const INT_MAX := 0x7fff_ffff

  class PrintBuffer {
    var buffer: array<char>
    var length: nat
    var offset: nat
    var depth: nat
    const noalloc: bool
    const format: bool
    const reallocates: bool
    /** Writes are allowed below this index only. */
    ghost var reserved: nat

    ghost predicate Valid()
      reads this
    {
      && length == buffer.Length <= INT_MAX && reserved <= length
      && (if length > 0 then offset < length else offset == 0)
    }

    ghost function Limit(): nat
      reads this
    {
      if noalloc then length else INT_MAX
    }

    /** n characters, the final NUL and one spare byte. */
    ghost predicate Fits(n: nat)
      reads this
    {
      n + 2 <= Limit()
    }

    /** The buffer holds exactly this C string; `offset` may lag behind its end. */
    ghost predicate Printed(text: string)
      reads this, buffer
    {
      && length == buffer.Length && |text| < length && offset <= |text|
      && buffer[..|text| + 1] == text + ['\0'] && IsCString(text[offset..])
    }

    /** The buffer of `print`, `cJSON_PrintBuffered` or, with `given`, `cJSON_PrintPreallocated`. */
    constructor (initial: array<char>, given: bool, formatted: bool, reallocating: bool)
      requires initial.Length <= INT_MAX
      ensures Valid() && buffer == initial && length == initial.Length && offset == 0 && depth == 0
      ensures noalloc == given && format == formatted
    {
      buffer, length, offset, depth, reserved := initial, initial.Length, 0, 0, 0;
      noalloc, format, reallocates := given, formatted, reallocating;
    }

    /** Room for `needed` bytes and one more, by growing the buffer if that is allowed. */
    method Ensure(needed: nat) returns (ok: bool)
      requires Valid()
      modifies this`buffer, this`length, this`reserved
      ensures Valid() && (buffer == old(buffer) || fresh(buffer)) && (noalloc ==> buffer == old(buffer))
      ensures buffer[..offset] == old(buffer[..offset])
      ensures ok <==> offset + needed + 1 <= Limit()
      ensures ok ==> offset + needed < length && reserved == offset + needed
    {
      if length > 0 && offset >= length { return false; }
      if needed > INT_MAX { return false; }
      var need := needed + offset + 1;
      if need <= length {
        reserved := offset + needed;
        return true;
      }
      if noalloc { return false; }
      var newsize := need * 2;
      if need > INT_MAX / 2 {
        if need > INT_MAX { return false; }
        newsize := INT_MAX;
      }
      var kept := if reallocates || offset + 1 > length then length else offset + 1;
      var newbuffer := new char[newsize];
      forall i | 0 <= i < kept { newbuffer[i] := buffer[i]; }
      buffer, length := newbuffer, newsize;
      reserved := offset + needed;
      return true;
    }

    /** `*output++ = c`, inside the span that was reserved. */
    method Push(out: nat, c: char)
      requires Valid() && offset <= out < reserved
      modifies buffer
      ensures buffer[..out + 1] == old(buffer[..out]) + [c] && buffer[..out] == old(buffer[..out])
    {
      buffer[out] := c;
    }

    /** `strcpy`, `memcpy`. */
    method Copy(start: nat, text: string) returns (out: nat)
      requires Valid() && offset <= start && start + |text| <= reserved
      modifies buffer
      ensures out == start + |text| && buffer[..out] == old(buffer[..start]) + text
    {
      out := start;
      for i := 0 to |text|
        invariant out == start + i && buffer[..out] == old(buffer[..start]) + text[..i]
      {
        Push(out, text[i]);
        out := out + 1;
        assert text[..i + 1] == text[..i] + [text[i]];
      }
      assert text[..|text|] == text;
    }

    /** The offset moves to the end of the string that was printed. */
    method UpdateOffset(ghost text: string)
      requires Valid() && Printed(text)
      modifies this`offset
      ensures Valid() && offset == |text| && buffer[..offset] == text
    {
      var n := 0;
      ghost var all := text + ['\0'];
      assert forall i :: 0 <= i < |all| ==> buffer[..|text| + 1][i] == all[i] == buffer[i];
      while buffer[offset + n] != '\0'
        invariant offset + n <= |text|
        decreases |text| - (offset + n)
      {
        assert text[offset + n] != '\0' by { assert text[offset..][n] != '\0'; }
        assert offset + n < |text|;
        n := n + 1;
      }
      offset := offset + n;
      assert buffer[..|text|] == all[..|text|];
    }

    method PrintLiteral(text: CString) returns (ok: bool)
      requires Valid()
      modifies this`buffer, this`length, this`reserved, buffer
      ensures Valid() && (buffer == old(buffer) || fresh(buffer)) && (noalloc ==> buffer == old(buffer))
      ensures ok <==> Fits(offset + |text|)
      ensures ok ==> Printed(old(buffer[..offset]) + text)
    {
      ghost var done := buffer[..offset];
      ok := Ensure(|text| + 1);
      if ok {
        var out := Copy(offset, text);
        Push(out, '\0');
        assert (done + text)[offset..] == text;
      }
    }

    /** A number longer than 25 characters does not fit the local buffer. */
    method PrintNumber(token: CString) returns (ok: bool)
      requires Valid()
      modifies this`buffer, this`length, this`reserved, this`offset, buffer
      ensures Valid() && (buffer == old(buffer) || fresh(buffer)) && (noalloc ==> buffer == old(buffer))
      ensures ok <==> |token| <= 25 && Fits(old(offset) + |token|)
      ensures ok ==> Printed(old(buffer[..offset]) + token) && offset == old(offset) + |token|
    {
      if |token| > 25 { return false; }
      ghost var text := buffer[..offset] + token;
      ok := PrintLiteral(token);
      if ok {
        offset := offset + |token|;
        assert text[offset..] == "";
      }
    }

    /** The first pass over a string: how many characters the escapes add. */
    method CountEscapes(s: CString) returns (extra: nat)
      ensures |Escaped(s)| == |s| + extra
      ensures extra == 0 ==> Escaped(s) == s
    {
      extra := 0;
      for i := 0 to |s|
        invariant |Escaped(s[..i])| == i + extra
        invariant extra == 0 ==> Escaped(s[..i]) == s[..i]
      {
        assert s[..i + 1] == s[..i] + [s[i]];
        EscapedAppend(s[..i], s[i]);
        if s[i] in {QUOTE, BACKSLASH, BS, FF, '\n', '\r', '\t'} {
          extra := extra + 1;
        } else if s[i] < ' ' {
          extra := extra + 5;
        }
      }
      assert s[..|s|] == s;
    }

    /** One character that is not written as it is. */
    method WriteEscape(start: nat, c: char) returns (out: nat)
      requires Valid() && offset <= start && start + |EscapedChar(c)| <= reserved
      requires c < ' ' || c == QUOTE || c == BACKSLASH
      modifies buffer
      ensures out == start + |EscapedChar(c)| && buffer[..out] == old(buffer[..start]) + EscapedChar(c)
    {
      Push(start, BACKSLASH);
      if ShortEscape(c) != '\0' {
        Push(start + 1, ShortEscape(c));
        out := start + 2;
      } else {
        out := Copy(start + 1, ['u', '0', '0', HexDigit(c as int / 16), HexDigit(c as int % 16)]);
      }
    }

    /** The second pass: the escapes are written out. */
    method WriteEscaped(start: nat, s: CString) returns (out: nat)
      requires Valid() && offset <= start && start + |Escaped(s)| <= reserved
      modifies buffer
      ensures out == start + |Escaped(s)| && buffer[..out] == old(buffer[..start]) + Escaped(s)
    {
      hide EscapedChar, Escaped;
      out := start;
      EscapedPrefix(s, 0);
      assert s[..0] == "" && Escaped("") == "" by { EscapedNothing(); }
      for i := 0 to |s|
        invariant out == start + |Escaped(s[..i])| <= reserved
        invariant buffer[..out] == old(buffer[..start]) + Escaped(s[..i])
      {
        assert s[..i + 1] == s[..i] + [s[i]];
        EscapedAppend(s[..i], s[i]);
        EscapedPrefix(s, i + 1);
        if s[i] >= ' ' && s[i] != QUOTE && s[i] != BACKSLASH {
          EscapedPlain(s[i]);
          Push(out, s[i]);
          out := out + 1;
        } else {
          out := WriteEscape(out, s[i]);
        }
      }
      assert s[..|s|] == s;
    }

    method PrintString(s: CString) returns (ok: bool)
      requires Valid()
      modifies this`buffer, this`length, this`reserved, buffer
      ensures Valid() && (buffer == old(buffer) || fresh(buffer)) && (noalloc ==> buffer == old(buffer))
      ensures ok <==> Fits(offset + |Quoted(s)|)
      ensures ok ==> Printed(old(buffer[..offset]) + Quoted(s))
    {
      ghost var done := buffer[..offset];
      var extra := CountEscapes(s);
      var outputLength := |s| + extra;
      ok := Ensure(outputLength + 3);
      if !ok { return; }
      var out := Enquote(s, outputLength, extra == 0);
      QuotedText(s);
      hide Quoted;
      assert (done + Quoted(s))[offset..] == Quoted(s);
    }

    /** Quote, text, quote, NUL; the last two at places computed from the length. */
    method Enquote(s: CString, outputLength: nat, plain: bool) returns (out: nat)
      requires Valid() && offset + outputLength + 3 <= reserved
      requires outputLength == |Escaped(s)| && (plain ==> Escaped(s) == s)
      modifies buffer
      ensures out == offset + outputLength + 3
      ensures buffer[..out] == old(buffer[..offset]) + Quoted(s) + ['\0']
    {
      hide Escaped;
      ghost var begun := buffer[..offset] + [QUOTE];
      ghost var filled := begun + Escaped(s);
      assert buffer[..offset] + Quoted(s) == filled + [QUOTE];
      hide Quoted;
      Push(offset, QUOTE);
      assert buffer[..offset + 1] == begun;
      if plain {
        out := Copy(offset + 1, s);
      } else {
        out := WriteEscaped(offset + 1, s);
      }
      assert buffer[..out] == filled;
      Push(offset + outputLength + 1, QUOTE);
      Push(offset + outputLength + 2, '\0');
      out := offset + outputLength + 3;
    }

    // -------------------------------------------------------------- values, arrays, objects

    method PrintValue(item: Json) returns (ok: bool)
      requires Valid()
      modifies this, buffer
      ensures Valid() && (buffer == old(buffer) || fresh(buffer)) && (noalloc ==> buffer == old(buffer))
      ensures ok <==> Printable(item) && Fits(old(offset) + |Render(item, format, old(depth))|)
      ensures ok ==> depth == old(depth) && offset >= old(offset)
      ensures ok ==> Printed(old(buffer[..offset]) + Render(item, format, old(depth)))
      decreases item, 1
    {
      hide Quoted, RenderElements, RenderMembers, Open, Close;
      match item
      case Null => ok := PrintLiteral("null");
      case False => ok := PrintLiteral("false");
      case True => ok := PrintLiteral("true");
      case Number(token) => ok := PrintNumber(token);
      case NonFinite(_) => ok := PrintNumber("null");
      case Raw(text) => ok := PrintLiteral(text);
      case String(text) => ok := PrintString(text);
      case Invalid => ok := false;
      case _ => ok := PrintContainer(item);
    }

    method PrintContainer(item: Json) returns (ok: bool)
      requires Valid() && (item.Array? || item.Object?)
      modifies this, buffer
      ensures Valid() && (buffer == old(buffer) || fresh(buffer)) && (noalloc ==> buffer == old(buffer))
      ensures ok <==> Printable(item) && Fits(old(offset) + |Render(item, format, old(depth))|)
      ensures ok ==> depth == old(depth) && offset >= old(offset)
      ensures ok ==> Printed(old(buffer[..offset]) + Render(item, format, old(depth)))
      decreases item, 0
    {
      ghost var whole := buffer[..offset] + Render(item, format, depth);
      if item.Array? {
        ArraySplit(item.child, format, depth, buffer[..offset]);
        hide Render;
        ok := PrintArray(whole, item.child);
      } else {
        ObjectSplit(item.members, format, depth, buffer[..offset]);
        hide Render;
        ok := PrintObject(whole, item.members);
      }
    }

    /** What is still to come makes up the rest of the whole text. */
    ghost predicate Pending(whole: string, rest: string)
      requires Valid()
      reads this, buffer
    {
      buffer[..offset] + rest == whole
    }

    /** A value and the move behind it, as array and object make them. */
    method PrintNested(item: Json) returns (ok: bool)
      requires Valid()
      modifies this, buffer
      ensures Valid() && (buffer == old(buffer) || fresh(buffer)) && (noalloc ==> buffer == old(buffer))
      ensures ok <==> Printable(item) && Fits(old(offset) + |Render(item, format, old(depth))|)
      ensures ok ==> depth == old(depth) && offset == old(offset) + |Render(item, format, depth)|
      ensures ok ==> buffer[..offset] == old(buffer[..offset]) + Render(item, format, depth)
      decreases item, 2
    {
      hide Render, Printable;
      ghost var text := buffer[..offset] + Render(item, format, depth);
      ok := PrintValue(item);
      if ok { UpdateOffset(text); }
    }

    method PrintName(key: CString) returns (ok: bool)
      requires Valid()
      modifies this`buffer, this`length, this`reserved, this`offset, buffer
      ensures Valid() && (buffer == old(buffer) || fresh(buffer)) && (noalloc ==> buffer == old(buffer))
      ensures ok <==> Fits(old(offset) + |Quoted(key)|)
      ensures ok ==> offset == old(offset) + |Quoted(key)| && buffer[..offset] == old(buffer[..offset]) + Quoted(key)
    {
      hide Quoted;
      ghost var text := buffer[..offset] + Quoted(key);
      ok := PrintString(key);
      if ok { UpdateOffset(text); }
    }

    method OpenArray() returns (ok: bool)
      requires Valid()
      modifies this`buffer, this`length, this`reserved, this`offset, this`depth, buffer
      ensures Valid() && (buffer == old(buffer) || fresh(buffer)) && (noalloc ==> buffer == old(buffer))
      ensures ok <==> old(offset) + 2 <= Limit()
      ensures ok ==> offset == old(offset) + 1 && depth == old(depth) + 1 && buffer[..offset] == old(buffer[..offset]) + "["
    {
      ok := Ensure(1);
      if !ok { return; }
      Push(offset, '[');
      offset := offset + 1;
      depth := depth + 1;
    }

    /** The offset stays in front of the bracket. */
    method CloseArray() returns (ok: bool)
      requires Valid() && depth >= 1
      modifies this`buffer, this`length, this`reserved, this`depth, buffer
      ensures Valid() && (buffer == old(buffer) || fresh(buffer)) && (noalloc ==> buffer == old(buffer))
      ensures ok <==> Fits(offset + 1)
      ensures ok ==> depth == old(depth) - 1 && Printed(old(buffer[..offset]) + "]")
    {
      ghost var done := buffer[..offset];
      ok := Ensure(2);
      if !ok { return; }
      Push(offset, ']');
      Push(offset + 1, '\0');
      depth := depth - 1;
      assert (done + "]")[offset..] == "]";
    }

    method PrintArray(ghost whole: string, child: Elements) returns (ok: bool)
      requires Valid() && Pending(whole, "[" + (RenderElements(child, format, depth + 1) + "]"))
      modifies this, buffer
      ensures Valid() && (buffer == old(buffer) || fresh(buffer)) && (noalloc ==> buffer == old(buffer))
      ensures ok <==> PrintableElements(child) && Fits(|whole|)
      ensures ok ==> depth == old(depth) && offset >= old(offset) && Printed(whole)
      decreases child, 5
    {
      hide RenderElements, PrintableElements;
      ghost var rest := RenderElements(child, format, depth + 1) + "]";
      assert |rest| >= 1 && buffer[..offset] + "[" + rest == whole;
      ok := OpenArray();
      if !ok { return; }
      ok := PrintElements(whole, child);
      if !ok { return; }
      ok := CloseArray();
    }

    /** The loop over the elements. */
    method PrintElements(ghost whole: string, child: Elements) returns (ok: bool)
      requires Valid() && Pending(whole, RenderElements(child, format, depth) + "]")
      modifies this, buffer
      ensures Valid() && (buffer == old(buffer) || fresh(buffer)) && (noalloc ==> buffer == old(buffer))
      ensures !ok ==> !PrintableElements(child) || !Fits(|whole|)
      ensures ok ==> depth == old(depth) && offset >= old(offset) && PrintableElements(child) && Pending(whole, "]")
      decreases child, 4
    {
      NoElementsLeft(format, depth);
      hide RenderElements, PrintableElements;
      ok := true;
      var current := child;
      while current.Element?
        invariant Valid() && (buffer == old(buffer) || fresh(buffer)) && (noalloc ==> buffer == old(buffer))
        invariant depth == old(depth) && offset >= old(offset) && Limit() == old(Limit())
        invariant ok && PrintableElements(current) == PrintableElements(child)
        invariant current == child || current < child
        invariant Pending(whole, RenderElements(current, format, depth) + "]")
        decreases current
      {
        ok := PrintElement(whole, current);
        if !ok { return; }
        current := current.next;
      }
    }

    /** One element of an array and, unless it is the last, a comma. */
    method PrintElement(ghost whole: string, current: Elements) returns (ok: bool)
      requires Valid() && current.Element? && Pending(whole, RenderElements(current, format, depth) + "]")
      modifies this, buffer
      ensures Valid() && (buffer == old(buffer) || fresh(buffer)) && (noalloc ==> buffer == old(buffer))
      ensures !ok ==> !PrintableElements(current) || !Fits(|whole|)
      ensures ok ==> depth == old(depth) && offset >= old(offset)
      ensures ok ==> PrintableElements(current.next) == PrintableElements(current)
      ensures ok ==> Pending(whole, RenderElements(current.next, format, depth) + "]")
      decreases current, 3
    {
      ghost var done, text := buffer[..offset], Render(current.value, format, depth);
      ghost var comma := if current.next.NoElements? then "" else Comma(format);
      ghost var rest := RenderElements(current.next, format, depth) + "]";
      assert whole == done + text + comma + rest;
      assert PrintableElements(current) == (Printable(current.value) && PrintableElements(current.next));
      hide Render, RenderElements, Printable, PrintableElements, Comma;
      ok := PrintNested(current.value);
      if !ok { return; }
      if current.next.Element? {
        ok := PrintComma();
        if !ok { return; }
      }
      assert buffer[..offset] == done + text + comma;
    }

    method PrintComma() returns (ok: bool)
      requires Valid()
      modifies this`buffer, this`length, this`reserved, this`offset, buffer
      ensures Valid() && (buffer == old(buffer) || fresh(buffer)) && (noalloc ==> buffer == old(buffer))
      ensures ok <==> old(offset) + |Comma(format)| + 2 <= Limit()
      ensures ok ==> offset == old(offset) + |Comma(format)| && buffer[..offset] == old(buffer[..offset]) + Comma(format)
    {
      var n := if format then 2 else 1;
      ok := Ensure(n + 1);
      if !ok { return; }
      ghost var done := buffer[..offset];
      Push(offset, ',');
      if format { Push(offset + 1, ' '); }
      assert buffer[..offset + n] == done + Comma(format);
      Push(offset + n, '\0');
      offset := offset + n;
    }

    method PrintObject(ghost whole: string, members: Members) returns (ok: bool)
      requires Valid()
      requires Pending(whole, Open(format) + (RenderMembers(members, format, depth + 1) + Close(format, depth)))
      modifies this, buffer
      ensures Valid() && (buffer == old(buffer) || fresh(buffer)) && (noalloc ==> buffer == old(buffer))
      ensures ok <==> PrintableMembers(members) && Fits(|whole|)
      ensures ok ==> depth == old(depth) && offset >= old(offset) && Printed(whole)
      decreases members, 5
    {
      BraceLengths(format, depth);
      hide RenderMembers, PrintableMembers, Open, Close;
      ghost var close := Close(format, depth);
      ghost var rest := RenderMembers(members, format, depth + 1) + close;
      assert |rest| >= 1 && buffer[..offset] + Open(format) + rest == whole;
      ok := PrintOpen();
      if !ok { return; }
      depth := depth + 1;
      ok := PrintMembers(whole, members, close);
      if !ok { return; }
      ok := PrintClose();
      if ok { depth := depth - 1; }
    }

    /** The loop over the members. */
    method PrintMembers(ghost whole: string, members: Members, ghost close: string) returns (ok: bool)
      requires Valid() && Pending(whole, RenderMembers(members, format, depth) + close) && close != ""
      modifies this, buffer
      ensures Valid() && (buffer == old(buffer) || fresh(buffer)) && (noalloc ==> buffer == old(buffer))
      ensures !ok ==> !PrintableMembers(members) || !Fits(|whole|)
      ensures ok ==> depth == old(depth) && offset >= old(offset) && PrintableMembers(members) && Pending(whole, close)
      decreases members, 4
    {
      NoMembersLeft(format, depth);
      hide RenderMembers, RenderMember, Printable;
      ok := true;
      var current := members;
      while current.Member?
        invariant Valid() && (buffer == old(buffer) || fresh(buffer)) && (noalloc ==> buffer == old(buffer))
        invariant depth == old(depth) && offset >= old(offset) && Limit() == old(Limit())
        invariant ok && PrintableMembers(current) == PrintableMembers(members)
        invariant current == members || current < members
        invariant Pending(whole, RenderMembers(current, format, depth) + close)
        decreases current
      {
        assert PrintableMembers(current) == (Printable(current.value) && PrintableMembers(current.next));
        MemberSplit(current, format, depth, buffer[..offset], close);
        ok := PrintMember(current);
        if !ok { return; }
        current := current.next;
      }
    }

    method PrintOpen() returns (ok: bool)
      requires Valid()
      modifies this`buffer, this`length, this`reserved, this`offset, buffer
      ensures Valid() && (buffer == old(buffer) || fresh(buffer)) && (noalloc ==> buffer == old(buffer))
      ensures ok <==> old(offset) + |Open(format)| + 2 <= Limit()
      ensures ok ==> offset == old(offset) + |Open(format)| && buffer[..offset] == old(buffer[..offset]) + Open(format)
    {
      var n := if format then 2 else 1;
      ok := Ensure(n + 1);
      if !ok { return; }
      Push(offset, '{');
      if format { Push(offset + 1, '\n'); }
      offset := offset + n;
    }

    method WriteTabs(n: nat) returns (out: nat)
      requires Valid() && offset + n <= reserved
      modifies buffer
      ensures out == offset + n && buffer[..out] == old(buffer[..offset]) + Tabs(n)
    {
      out := offset;
      for i := 0 to n
        invariant out == offset + i && buffer[..out] == old(buffer[..offset]) + Tabs(i)
      {
        Push(out, '\t');
        out := out + 1;
        assert Tabs(i + 1) == Tabs(i) + ['\t'];
      }
    }

    /** The closing brace with its indentation; the offset stays in front of it. */
    method PrintClose() returns (ok: bool)
      requires Valid() && depth >= 1
      modifies this`buffer, this`length, this`reserved, buffer
      ensures Valid() && (buffer == old(buffer) || fresh(buffer)) && (noalloc ==> buffer == old(buffer))
      ensures ok <==> Fits(offset + |Close(format, depth - 1)|)
      ensures ok ==> Printed(old(buffer[..offset]) + Close(format, depth - 1))
    {
      ghost var done, close := buffer[..offset], Close(format, depth - 1);
      ok := Ensure(if format then depth + 1 else 2);
      if !ok { return; }
      var out := offset;
      if format { out := WriteTabs(depth - 1); }
      Push(out, '}');
      ghost var closed := done + close;
      assert buffer[..out + 1] == closed;
      BracesText(format, depth - 1);
      hide Close;
      Push(out + 1, '\0');
      assert closed[offset..] == close;
    }

    method PrintIndent() returns (ok: bool)
      requires Valid()
      modifies this`buffer, this`length, this`reserved, this`offset, buffer
      ensures Valid() && (buffer == old(buffer) || fresh(buffer)) && (noalloc ==> buffer == old(buffer))
      ensures ok <==> old(offset) + depth + 1 <= Limit()
      ensures ok ==> offset == old(offset) + depth && buffer[..offset] == old(buffer[..offset]) + Tabs(depth)
    {
      ok := Ensure(depth);
      if !ok { return; }
      var out := WriteTabs(depth);
      offset := offset + depth;
    }

    method PrintColon() returns (ok: bool)
      requires Valid()
      modifies this`buffer, this`length, this`reserved, this`offset, buffer
      ensures Valid() && (buffer == old(buffer) || fresh(buffer)) && (noalloc ==> buffer == old(buffer))
      ensures ok <==> old(offset) + |Colon(format)| + 1 <= Limit()
      ensures ok ==> offset == old(offset) + |Colon(format)| && buffer[..offset] == old(buffer[..offset]) + Colon(format)
    {
      var n := if format then 2 else 1;
      ok := Ensure(n);
      if !ok { return; }
      Push(offset, ':');
      if format { Push(offset + 1, '\t'); }
      offset := offset + n;
    }

    method PrintMemberEnd(more: bool) returns (ok: bool)
      requires Valid()
      modifies this`buffer, this`length, this`reserved, this`offset, buffer
      ensures Valid() && (buffer == old(buffer) || fresh(buffer)) && (noalloc ==> buffer == old(buffer))
      ensures ok <==> old(offset) + |MemberEnd(more, format)| + 2 <= Limit()
      ensures ok ==> offset == old(offset) + |MemberEnd(more, format)|
      ensures ok ==> buffer[..offset] == old(buffer[..offset]) + MemberEnd(more, format)
    {
      var n := (if format then 1 else 0) + if more then 1 else 0;
      ok := Ensure(n + 1);
      if !ok { return; }
      var out := offset;
      ghost var done := buffer[..offset];
      if more {
        Push(out, ',');
        out := out + 1;
      }
      if format {
        Push(out, '\n');
        out := out + 1;
      }
      assert buffer[..out] == done + MemberEnd(more, format);
      hide MemberEnd;
      Push(out, '\0');
      offset := offset + n;
    }

    /** Indentation, key and colon. */
    method PrintKey(key: CString) returns (ok: bool)
      requires Valid()
      modifies this`buffer, this`length, this`reserved, this`offset, buffer
      ensures Valid() && (buffer == old(buffer) || fresh(buffer)) && (noalloc ==> buffer == old(buffer))
      ensures !ok ==> old(offset) + |KeyText(key, format, depth)| + 2 > Limit()
      ensures ok ==> offset == old(offset) + |KeyText(key, format, depth)|
      ensures ok ==> buffer[..offset] == old(buffer[..offset]) + KeyText(key, format, depth)
    {
      ghost var indent := if format then Tabs(depth) else "";
      ghost var indented := buffer[..offset] + indent;
      ghost var named := indented + Quoted(key);
      assert buffer[..offset] + KeyText(key, format, depth) == named + Colon(format) by { hide Quoted, Colon; }
      assert |Colon(format)| >= 1;
      hide Quoted, Colon, KeyText;
      if format {
        ok := PrintIndent();
        if !ok { return; }
      }
      assert buffer[..offset] == indented;
      ok := PrintName(key);
      if !ok { return; }
      assert buffer[..offset] == named;
      ok := PrintColon();
    }

    /** Key and value of a member. */
    method PrintPair(current: Members) returns (ok: bool)
      requires Valid() && current.Member?
      modifies this, buffer
      ensures Valid() && (buffer == old(buffer) || fresh(buffer)) && (noalloc ==> buffer == old(buffer))
      ensures !ok ==> !Printable(current.value) || !Fits(old(offset) + |PairText(current, format, old(depth))|)
      ensures ok ==> depth == old(depth) && offset == old(offset) + |PairText(current, format, depth)|
      ensures ok ==> Printable(current.value) && buffer[..offset] == old(buffer[..offset]) + PairText(current, format, depth)
      decreases current, 2
    {
      ghost var key, text := KeyText(current.key, format, depth), Render(current.value, format, depth);
      ghost var before := buffer[..offset];
      assert before + (key + text) == before + key + text;
      hide Render, Printable, KeyText;
      ok := PrintKey(current.key);
      if !ok { return; }
      assert buffer[..offset] == before + key;
      ok := PrintNested(current.value);
    }

    method PrintMember(current: Members) returns (ok: bool)
      requires Valid() && current.Member?
      modifies this, buffer
      ensures Valid() && (buffer == old(buffer) || fresh(buffer)) && (noalloc ==> buffer == old(buffer))
      ensures !ok ==> !Printable(current.value) || !Fits(old(offset) + |RenderMember(current, format, old(depth))|)
      ensures ok ==> depth == old(depth) && offset == old(offset) + |RenderMember(current, format, depth)|
      ensures ok ==> Printable(current.value) && buffer[..offset] == old(buffer[..offset]) + RenderMember(current, format, depth)
      decreases current, 3
    {
      ghost var pair, end := PairText(current, format, depth), MemberEnd(current.next.Member?, format);
      ghost var before := buffer[..offset];
      PairThenEnd(current, format, depth);
      assert before + (pair + end) == before + pair + end;
      hide RenderMember, PairText, Printable, MemberEnd;
      ok := PrintPair(current);
      if !ok { return; }
      assert buffer[..offset] == before + pair;
      ok := PrintMemberEnd(current.next.Member?);
    }
  }

  function PairText(m: Members, format: bool, depth: nat): string
    requires m.Member?
  {
    KeyText(m.key, format, depth) + Render(m.value, format, depth)
  }

  lemma PairThenEnd(m: Members, format: bool, depth: nat)
    requires m.Member?
    ensures RenderMember(m, format, depth) == PairText(m, format, depth) + MemberEnd(m.next.Member?, format)
  {
    hide KeyText, Render, MemberEnd;
  }

  lemma NoElementsLeft(format: bool, depth: nat)
    ensures PrintableElements(NoElements) && RenderElements(NoElements, format, depth) == ""
  {
  }

  lemma NoMembersLeft(format: bool, depth: nat)
    ensures PrintableMembers(NoMembers) && RenderMembers(NoMembers, format, depth) == ""
  {
  }

  lemma MemberSplit(m: Members, format: bool, depth: nat, done: string, close: string)
    requires m.Member?
    ensures done + (RenderMembers(m, format, depth) + close)
         == done + RenderMember(m, format, depth) + (RenderMembers(m.next, format, depth) + close)
  {
    hide RenderMember;
  }

  lemma ArraySplit(child: Elements, format: bool, depth: nat, done: string)
    ensures done + Render(Array(child), format, depth) == done + ("[" + (RenderElements(child, format, depth + 1) + "]"))
  {
    hide RenderElements;
  }

  lemma ObjectSplit(members: Members, format: bool, depth: nat, done: string)
    ensures done + Render(Object(members), format, depth)
         == done + (Open(format) + (RenderMembers(members, format, depth + 1) + Close(format, depth)))
  {
    hide RenderMembers, Open, Close;
  }

  lemma BraceLengths(format: bool, depth: nat)
    ensures |Open(format)| >= 1 && |Close(format, depth)| >= 1
  {
  }

  lemma EscapedNothing()
    ensures Escaped("") == ""
  {
  }

  lemma EscapedPlain(c: char)
    requires c >= ' ' && c != QUOTE && c != BACKSLASH
    ensures EscapedChar(c) == [c]
  {
  }

  lemma EscapedPrefix(s: string, i: nat)
    requires i <= |s|
    ensures |Escaped(s[..i])| <= |Escaped(s)|
    decreases |s| - i
  {
    if i < |s| {
      assert s[..i + 1] == s[..i] + [s[i]];
      EscapedAppend(s[..i], s[i]);
      EscapedPrefix(s, i + 1);
    } else {
      assert s[..i] == s;
    }
  }

  // ---------------------------------------------------------------- entry points

  /** cJSON_PrintPreallocated with a buffer of `len` bytes: two more than the text are needed, not one. */
  method PrintPreallocated(item: Json, buf: array<char>, format: bool) returns (ok: bool)
    requires buf.Length <= INT_MAX
    modifies buf
    ensures ok <==> Printable(item) && |Render(item, format, 0)| + 2 <= buf.Length
    ensures ok ==> buf[..|Render(item, format, 0)| + 1] == Render(item, format, 0) + ['\0']
  {
    var p := new PrintBuffer(buf, true, format, true);
    assert buf[..0] == "";
    hide Render, Printable;
    ok := p.PrintValue(item);
  }

  /** cJSON_PrintBuffered: the text with whatever room is left behind it. */
  method PrintBuffered(item: Json, prebuffer: int, format: bool, reallocating: bool)
    returns (ok: bool, printed: array<char>)
    requires prebuffer <= INT_MAX
    ensures ok <==> prebuffer >= 0 && Printable(item) && |Render(item, format, 0)| + 2 <= INT_MAX
    ensures ok ==> |Render(item, format, 0)| < printed.Length
                   && printed[..|Render(item, format, 0)| + 1] == Render(item, format, 0) + ['\0']
  {
    if prebuffer < 0 { return false, new char[0]; }
    var initial := new char[prebuffer];
    var p := new PrintBuffer(initial, false, format, reallocating);
    assert initial[..0] == "";
    ghost var text := Render(item, format, 0);
    hide Render, Printable;
    ok := p.PrintValue(item);
    if ok {
      assert initial[..0] + text == text;
      assert p.Printed(text);
    }
    printed := p.buffer;
  }

  /** `print`, behind cJSON_Print and cJSON_PrintUnformatted: the text and its NUL, nothing else. */
  method Print(item: Json, format: bool, reallocating: bool) returns (ok: bool, printed: array<char>)
    ensures ok <==> Printable(item) && |Render(item, format, 0)| + 2 <= INT_MAX
    ensures ok ==> printed[..] == Render(item, format, 0) + ['\0']
  {
    var initial := new char[256];
    var p := new PrintBuffer(initial, false, format, reallocating);
    assert initial[..0] == "";
    ghost var text := Render(item, format, 0);
    hide Render, Printable;
    printed := initial;
    ok := p.PrintValue(item);
    if !ok { return; }
    assert initial[..0] + text == text;
    assert p.Printed(text);
    p.UpdateOffset(text);
    printed := Trim(p.buffer, p.offset);
  }

  /** The text in a block of its own size. */
  method Trim(buffer: array<char>, n: nat) returns (printed: array<char>)
    requires n < buffer.Length
    ensures printed[..] == buffer[..n] + ['\0']
  {
    printed := new char[n + 1];
    forall i | 0 <= i <= n { printed[i] := buffer[i]; }
    printed[n] := '\0';
  }
}
