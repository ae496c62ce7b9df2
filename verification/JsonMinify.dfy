/** cJSON_Minify: whitespace and comments go, strings stay. */
module JsonMinify {
  // It takes `\"` for an escaped quote whatever stands before the backslash, so a string that ends in a
  // backslash leaves it inside a string for the rest of the text.

  import opened JsonTree
  import opened JsonParse

  // ---------------------------------------------------------------- specification

  predicate Blank(c: char) {
    c == ' ' || c == '\t' || c == '\r' || c == '\n'
  }

  /** Behind the end of a line comment. */
  function AfterLine(s: string): (r: string)
    ensures |r| <= |s|
  {
    if s == "" then "" else if s[0] == '\n' then s[1..] else AfterLine(s[1..])
  }

  function AfterBlock(s: string): (r: string)
    ensures |r| <= |s|
  {
    if s == "" then "" else if s[0] == '*' && |s| > 1 && s[1] == '/' then s[2..] else AfterBlock(s[1..])
  }

  function Minified(s: string): (r: string)
    ensures |r| <= |s|
    decreases |s|
  {
    if s == "" then ""
    else if Blank(s[0]) then Minified(s[1..])
    else if s[0] == '/' then
      if |s| > 1 && s[1] == '/' then Minified(AfterLine(s[2..]))
      else if |s| > 1 && s[1] == '*' then Minified(AfterBlock(s[2..]))
      else Minified(s[1..])
    else if s[0] == QUOTE then [QUOTE] + InString(s[1..])
    else [s[0]] + Minified(s[1..])
  }

  /** Inside a string. */
  function InString(s: string): (r: string)
    ensures |r| <= |s|
    decreases |s|
  {
    if s == "" then ""
    else if s[0] == QUOTE then [QUOTE] + Minified(s[1..])
    else if s[0] == BACKSLASH && |s| > 1 && s[1] == QUOTE then [BACKSLASH, QUOTE] + InString(s[2..])
    else [s[0]] + InString(s[1..])
  }

  // ---------------------------------------------------------------- in place

  class Text {
    const json: array<char>
    /** Where the text is read and where it is written. */
    var input: nat
    var output: nat

    constructor (text: array<char>)
      ensures json == text && input == 0 && output == 0
    {
      json := text;
      input, output := 0, 0;
    }

    /** The writing never passes the reading, so what is unread is what was there. */
    ghost predicate Reading(full: string)
      reads this, json
    {
      && output <= input < |full| <= json.Length && full[|full| - 1] == '\0'
      && (forall i :: 0 <= i < |full| - 1 ==> full[i] != '\0')
      && forall i :: input <= i < json.Length && i < |full| ==> json[i] == full[i]
    }

    /** What is still unread. */
    ghost function Rest(full: string): string
      requires input < |full|
      reads this
    {
      full[input..|full| - 1]
    }

    method SkipLine(ghost full: string)
      requires Reading(full) && input + 2 < |full|
      modifies this`input
      ensures Reading(full) && input > old(input) && Rest(full) == AfterLine(full[old(input) + 2..|full| - 1])
    {
      input := input + 2;
      ghost var start := Rest(full);
      while json[input] != '\0'
        invariant Reading(full) && old(input) + 2 <= input && AfterLine(Rest(full)) == AfterLine(start)
        decreases |full| - input
      {
        AfterLineStep(Rest(full));
        if json[input] == '\n' {
          input := input + 1;
          return;
        }
        input := input + 1;
      }
    }

    method SkipBlock(ghost full: string)
      requires Reading(full) && input + 2 < |full|
      modifies this`input
      ensures Reading(full) && input > old(input) && Rest(full) == AfterBlock(full[old(input) + 2..|full| - 1])
    {
      NothingAfter();
      hide AfterBlock;
      input := input + 2;
      ghost var start := Rest(full);
      while json[input] != '\0'
        invariant Reading(full) && old(input) + 2 <= input && AfterBlock(Rest(full)) == AfterBlock(start)
        decreases |full| - input
      {
        AfterBlockStep(Rest(full));
        if json[input] == '*' && json[input + 1] == '/' {
          input := input + 2;
          return;
        }
        input := input + 1;
      }
    }

    /** A comment, or a stray slash. */
    method SkipSlash(ghost full: string)
      requires Reading(full) && input + 1 < |full| && json[input] == '/'
      modifies this`input
      ensures Reading(full) && input > old(input) && Minified(Rest(full)) == old(Minified(Rest(full)))
    {
      MinifyStep(Rest(full));
      hide Minified, InString, AfterLine, AfterBlock;
      if json[input + 1] == '/' {
        SkipLine(full);
      } else if json[input + 1] == '*' {
        SkipBlock(full);
      } else {
        input := input + 1;
      }
    }

    /** `into[0] = json[0]`, and both move on. */
    method Keep(ghost full: string)
      requires Reading(full) && input + 1 < |full|
      modifies this`input, this`output, json
      ensures Reading(full) && input == old(input) + 1 && output == old(output) + 1
      ensures json[..output] == old(json[..output]) + [full[old(input)]]
      ensures Rest(full) == old(Rest(full))[1..]
      ensures forall i :: input <= i < json.Length ==> json[i] == old(json[i])
    {
      json[output] := json[input];
      input := input + 1;
      output := output + 1;
    }

    /** One round of the loop over a string. */
    method StringChar(ghost full: string) returns (closed: bool)
      requires Reading(full) && input + 1 < |full|
      modifies this`input, this`output, json
      ensures Reading(full) && input > old(input)
      ensures old(json[..output] + InString(Rest(full))) ==
              json[..output] + if closed then Minified(Rest(full)) else InString(Rest(full))
      ensures forall i :: input <= i < json.Length ==> json[i] == old(json[i])
    {
      ghost var done, rest := json[..output], Rest(full);
      StringStep(rest);
      hide Minified, InString;
      closed := json[input] == QUOTE;
      if closed {
        Assoc(done, [QUOTE], Minified(rest[1..]));
        Keep(full);
      } else if json[input] == BACKSLASH && json[input + 1] == QUOTE {
        Assoc(done, [BACKSLASH, QUOTE], InString(rest[2..]));
        Keep(full);
        Keep(full);
        assert json[..output] == done + [BACKSLASH, QUOTE];
      } else {
        Assoc(done, [rest[0]], InString(rest[1..]));
        Keep(full);
      }
    }

    /** minify_string, from the opening quote to behind the closing one. */
    method MinifyString(ghost full: string)
      requires Reading(full) && json[input] == QUOTE && input + 1 < |full|
      modifies this`input, this`output, json
      ensures Reading(full) && input > old(input)
      ensures json[..output] + Minified(Rest(full)) == old(json[..output] + Minified(Rest(full)))
      ensures forall i :: input <= i < json.Length ==> json[i] == old(json[i])
    {
      ghost var goal := json[..output] + Minified(Rest(full));
      hide Minified, InString;
      MinifyStep(Rest(full));
      Assoc(json[..output], [QUOTE], InString(Rest(full)[1..]));
      Keep(full);
      while json[input] != '\0'
        invariant Reading(full) && input > old(input)
        invariant json[..output] + InString(Rest(full)) == goal
        invariant forall i :: input <= i < json.Length ==> json[i] == old(json[i])
        decreases |full| - input
      {
        var closed := StringChar(full);
        if closed { return; }
      }
    }
  }

  lemma AfterLineStep(s: string)
    requires s != ""
    ensures AfterLine(s) == if s[0] == '\n' then s[1..] else AfterLine(s[1..])
  {
  }

  lemma NothingAfter()
    ensures AfterBlock("") == ""
  {
  }

  lemma AfterBlockStep(s: string)
    requires s != ""
    ensures AfterBlock(s) == if s[0] == '*' && |s| > 1 && s[1] == '/' then s[2..] else AfterBlock(s[1..])
  {
  }

  lemma StringStep(s: string)
    requires s != ""
    ensures s[0] == QUOTE ==> InString(s) == [QUOTE] + Minified(s[1..])
    ensures s[0] == BACKSLASH && |s| > 1 && s[1] == QUOTE ==> InString(s) == [BACKSLASH, QUOTE] + InString(s[2..]) && s[1..][1..] == s[2..]
    ensures s[0] != QUOTE && !(s[0] == BACKSLASH && |s| > 1 && s[1] == QUOTE) ==> InString(s) == [s[0]] + InString(s[1..])
  {
  }

  lemma MinifyStep(s: string)
    requires s != ""
    ensures s[0] == QUOTE ==> Minified(s) == [QUOTE] + InString(s[1..])
    ensures Blank(s[0]) || (s[0] == '/' && !(|s| > 1 && (s[1] == '/' || s[1] == '*'))) ==> Minified(s) == Minified(s[1..])
    ensures s[0] == '/' && |s| > 1 && s[1] == '/' ==> Minified(s) == Minified(AfterLine(s[2..]))
    ensures s[0] == '/' && |s| > 1 && s[1] == '*' ==> Minified(s) == Minified(AfterBlock(s[2..]))
    ensures s[0] != QUOTE && !Blank(s[0]) && s[0] != '/' ==> Minified(s) == [s[0]] + Minified(s[1..])
  {
  }

  /** The text before the NUL is minified in place; nothing behind the NUL is touched. */
  method Minify(json: array<char>, ghost text: string)
    requires |text| < json.Length && json[..|text| + 1] == text + ['\0']
    requires forall i :: 0 <= i < |text| ==> text[i] != '\0'
    modifies json
    ensures json[..|Minified(text)| + 1] == Minified(text) + ['\0']
    ensures forall i :: |text| < i < json.Length ==> json[i] == old(json[i])
  {
    var t := new Text(json);
    ghost var full := text + ['\0'];
    assert forall i :: 0 <= i < |full| ==> json[..|text| + 1][i] == full[i];
    assert t.Rest(full) == text && json[..0] == "";
    assert json[..t.output] + Minified(t.Rest(full)) == Minified(text);
    hide Minified, InString, AfterLine, AfterBlock;
    while json[t.input] != '\0'
      invariant t.Reading(full) && json[..t.output] + Minified(t.Rest(full)) == Minified(text)
      invariant forall i :: t.input <= i < json.Length ==> json[i] == old(json[i])
      decreases |full| - t.input
    {
      Advance(t, full);
    }
    assert Minified("") == "" by { NothingLeft(); }
    json[t.output] := '\0';
  }

  lemma NothingLeft()
    ensures Minified("") == ""
  {
  }

  /** One round of the loop: the switch on the character that is read. */
  method Advance(t: Text, ghost full: string)
    requires t.Reading(full) && t.input + 1 < |full|
    modifies t`input, t`output, t.json
    ensures t.Reading(full) && t.input > old(t.input)
    ensures t.json[..t.output] + Minified(t.Rest(full)) == old(t.json[..t.output] + Minified(t.Rest(full)))
    ensures forall i :: t.input <= i < t.json.Length ==> t.json[i] == old(t.json[i])
  {
    ghost var done, rest := t.json[..t.output], t.Rest(full);
    hide Minified, InString, AfterLine, AfterBlock;
    if t.json[t.input] == QUOTE {
      t.MinifyString(full);
    } else {
      MinifyStep(rest);
      if Blank(t.json[t.input]) {
        t.input := t.input + 1;
      } else if t.json[t.input] == '/' {
        t.SkipSlash(full);
      } else {
        Assoc(done, [rest[0]], Minified(rest[1..]));
        t.Keep(full);
      }
    }
  }

  // ---------------------------------------------------------------- minifying twice

  lemma {:induction false} Idempotent(s: string)
    ensures Minified(Minified(s)) == Minified(s)
    decreases |s|
  {
    if s == "" {
    } else if Blank(s[0]) {
      Idempotent(s[1..]);
    } else if s[0] == '/' {
      if |s| > 1 && s[1] == '/' { Idempotent(AfterLine(s[2..])); }
      else if |s| > 1 && s[1] == '*' { Idempotent(AfterBlock(s[2..])); }
      else { Idempotent(s[1..]); }
    } else if s[0] == QUOTE {
      InStringIdempotent(s[1..]);
      assert Minified(s)[1..] == InString(s[1..]);
    } else {
      Idempotent(s[1..]);
      assert Minified(s)[1..] == Minified(s[1..]);
    }
  }

  lemma {:induction false} InStringIdempotent(s: string)
    ensures InString(InString(s)) == InString(s)
    decreases |s|
  {
    if s == "" {
    } else if s[0] == QUOTE {
      Idempotent(s[1..]);
      assert InString(s)[1..] == Minified(s[1..]);
    } else if s[0] == BACKSLASH && |s| > 1 && s[1] == QUOTE {
      InStringIdempotent(s[2..]);
      assert InString(s)[2..] == InString(s[2..]);
    } else {
      InStringIdempotent(s[1..]);
      assert InString(s)[1..] == InString(s[1..]);
      if |s| > 1 { InStringStart(s[1..]); }
    }
  }

  /** A string begins with the character it began with. */
  lemma InStringStart(s: string)
    requires s != ""
    ensures InString(s) != "" && InString(s)[0] == s[0]
  {
  }
}
