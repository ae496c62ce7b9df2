/** Base64 as the websocket handshake uses it, against section 4 of RFC 4648. */
module Base64 {

  type byte = b: int | 0 <= b < 256
  type octets = seq<byte>

  const NV := 64

  /** Six bits, or 64 for the padding character. */
  type sextet = c: int | 0 <= c <= 64

  /** BASE64_ENCODE_TABLE. */
  function Character(c: sextet): char {
    if c < 26 then 'A' + c as char
    else if c < 52 then 'a' + (c - 26) as char
    else if c < 62 then '0' + (c - 52) as char
    else if c == 62 then '+'
    else if c == 63 then '/'
    else '='
  }

  /** BASE64_DECODE_TABLE: 64 for every character outside the alphabet. */
  function SextetOf(ch: char): sextet {
    if 'A' <= ch <= 'Z' then ch as int - 'A' as int
    else if 'a' <= ch <= 'z' then ch as int - 'a' as int + 26
    else if '0' <= ch <= '9' then ch as int - '0' as int + 52
    else if ch == '+' then 62
    else if ch == '/' then 63
    else NV
  }

  lemma CharacterRead(c: sextet)
    ensures SextetOf(Character(c)) == c
  {
  }

  // ---------------------------------------------------------------- the standard

  /** The 24-bit group of three bytes, cut into four. */
  function Group(a: byte, b: byte, c: byte): int {
    65536 * a + 256 * b + c
  }

  function Sextet(v: int, i: nat): sextet
    requires 0 <= v < 0x100_0000 && i < 4
  {
    if i == 0 then v / 262144 else if i == 1 then v / 4096 % 64 else if i == 2 then v / 64 % 64 else v % 64
  }

  /** Section 4 of RFC 4648: missing bytes count as zero, missing characters are padding. */
  function Encoded(x: octets): string
    decreases |x|
  {
    if x == [] then ""
    else
      var v := Group(x[0], if |x| > 1 then x[1] else 0, if |x| > 2 then x[2] else 0);
      [Character(Sextet(v, 0)), Character(Sextet(v, 1)),
       if |x| > 1 then Character(Sextet(v, 2)) else '=', if |x| > 2 then Character(Sextet(v, 3)) else '=']
      + (if |x| > 3 then Encoded(x[3..]) else "")
  }

  // ---------------------------------------------------------------- the code's groups

  /** The sextets as masks and shifts give them; `n` bytes are left. */
  function CodeSextets(a: byte, b: byte, c: byte, n: nat): (r: seq<sextet>)
    requires n >= 1
    ensures |r| == 4
  {
    if n == 1 then [a / 4, a % 4 * 16, 64, 64]
    else if n == 2 then [a / 4, a % 4 * 16 + b / 16, b % 16 * 4, 64]
    else [a / 4, a % 4 * 16 + b / 16, b % 16 * 4 + c / 64, c % 64]
  }

  /** Shifting sextet by sextet gives the group's four parts. */
  lemma CodeIsGroup(a: byte, b: byte, c: byte)
    ensures var v := Group(a, b, c);
            && Sextet(v, 0) == a / 4 && Sextet(v, 1) == a % 4 * 16 + b / 16
            && Sextet(v, 2) == b % 16 * 4 + c / 64 && Sextet(v, 3) == c % 64
  {
    var v := Group(a, b, c);
    assert v == 262144 * (a / 4) + 4096 * (a % 4 * 16 + b / 16) + 64 * (b % 16 * 4 + c / 64) + c % 64;
    Parts(a / 4, a % 4 * 16 + b / 16, b % 16 * 4 + c / 64, c % 64);
  }

  lemma Parts(p: int, q: int, r: int, s: int)
    requires 0 <= p < 64 && 0 <= q < 64 && 0 <= r < 64 && 0 <= s < 64
    ensures var v := 262144 * p + 4096 * q + 64 * r + s;
            Sextet(v, 0) == p && Sextet(v, 1) == q && Sextet(v, 2) == r && Sextet(v, 3) == s
  {
    Cut(64 * (64 * (64 * p + q) + r), s, 64 * (64 * p + q) + r);
    Cut(64 * (64 * p + q), r, 64 * p + q);
    Cut(64 * p, q, p);
    var v := 262144 * p + 4096 * q + 64 * r + s;
    assert v / 64 == 64 * (64 * p + q) + r && v % 64 == s;
    assert v / 4096 == v / 64 / 64 && v / 262144 == v / 64 / 64 / 64;
  }

  lemma Cut(high: int, low: int, q: int)
    requires high == 64 * q && 0 <= low < 64
    ensures (high + low) / 64 == q && (high + low) % 64 == low
  {
  }

  // ---------------------------------------------------------------- decoding

  /** `c[0] << 2 | c[1] >> 4` in a byte; only an invalid second character makes the parts overlap. */
  function FirstByte(c0: sextet, c1: sextet): byte {
    var x := c0 * 4 % 256;
    if c1 < NV then x + c1 / 16 else if x / 4 % 2 == 1 then x else x + 4
  }

  function SecondByte(c1: sextet, c2: sextet): byte
    requires c2 < NV
  {
    c1 % 16 * 16 + c2 / 4
  }

  function ThirdByte(c2: sextet, c3: sextet): byte
    requires c3 < NV
  {
    c2 % 4 * 64 + c3
  }

  /** What decoding gives with enough room: an invalid third or fourth character ends it. */
  function Decoded(s: string): octets
    decreases |s|
  {
    if |s| < 4 then []
    else
      var c0, c1, c2, c3 := SextetOf(s[0]), SextetOf(s[1]), SextetOf(s[2]), SextetOf(s[3]);
      if c2 >= NV then [FirstByte(c0, c1)]
      else if c3 >= NV then [FirstByte(c0, c1), SecondByte(c1, c2)]
      else [FirstByte(c0, c1), SecondByte(c1, c2), ThirdByte(c2, c3)] + Decoded(s[4..])
  }

  lemma GroupBack(a: byte, b: byte, c: byte)
    ensures FirstByte(a / 4, a % 4 * 16 + b / 16) == a
    ensures SecondByte(a % 4 * 16 + b / 16, b % 16 * 4 + c / 64) == b
    ensures ThirdByte(b % 16 * 4 + c / 64, c % 64) == c
  {
    assert (a % 4 * 16 + b / 16) / 16 == a % 4 && (a % 4 * 16 + b / 16) % 16 == b / 16;
    assert (b % 16 * 4 + c / 64) / 4 == b % 16 && (b % 16 * 4 + c / 64) % 4 == c / 64;
  }

  /** The second and third byte of a group, 0 if missing. */
  function Second(x: octets): byte {
    if |x| > 1 then x[1] else 0
  }

  function Third(x: octets): byte {
    if |x| > 2 then x[2] else 0
  }

  function Rest(x: octets): (r: octets)
    ensures x != [] ==> |r| < |x| && (|x| > 3 ==> |r| == |x| - 3) && (|x| <= 3 ==> r == [])
  {
    if |x| > 3 then x[3..] else []
  }

  /** One group of the encoding, in the code's terms. */
  lemma EncodedStep(x: octets)
    requires x != []
    ensures var s := Encoded(x);
            && |s| >= 4 && s[4..] == Encoded(Rest(x)) && |s| == 4 + |Encoded(Rest(x))|
            && s[0] == Character(x[0] / 4) && s[1] == Character(x[0] % 4 * 16 + Second(x) / 16)
            && s[2] == (if |x| > 1 then Character(Second(x) % 16 * 4 + Third(x) / 64) else '=')
            && s[3] == (if |x| > 2 then Character(Third(x) % 64) else '=')
  {
    CodeIsGroup(x[0], Second(x), Third(x));
    hide Sextet, Group, Character;
  }

  /** Which characters of a group are read as which sextets. */
  lemma GroupRead(x: octets)
    requires x != []
    ensures var s := Encoded(x);
            && |s| >= 4
            && SextetOf(s[0]) == x[0] / 4 && SextetOf(s[1]) == x[0] % 4 * 16 + Second(x) / 16
            && SextetOf(s[2]) == (if |x| > 1 then Second(x) % 16 * 4 + Third(x) / 64 else NV)
            && SextetOf(s[3]) == (if |x| > 2 then Third(x) % 64 else NV)
  {
    EncodedStep(x);
    CharacterRead(x[0] / 4);
    CharacterRead(x[0] % 4 * 16 + Second(x) / 16);
    CharacterRead(Second(x) % 16 * 4 + Third(x) / 64);
    CharacterRead(Third(x) % 64);
    assert SextetOf('=') == NV;
    hide Encoded, Character, SextetOf;
  }

  lemma DecodedStep(s: string)
    requires |s| >= 4
    ensures var c0, c1, c2, c3 := SextetOf(s[0]), SextetOf(s[1]), SextetOf(s[2]), SextetOf(s[3]);
            && (c2 >= NV ==> Decoded(s) == [FirstByte(c0, c1)])
            && (c2 < NV && c3 >= NV ==> Decoded(s) == [FirstByte(c0, c1), SecondByte(c1, c2)])
            && (c2 < NV && c3 < NV ==>
                  Decoded(s) == [FirstByte(c0, c1), SecondByte(c1, c2), ThirdByte(c2, c3)] + Decoded(s[4..]))
  {
    hide SextetOf, FirstByte, SecondByte, ThirdByte;
  }

  lemma Regroup(x: octets)
    requires x != []
    ensures |x| == 1 ==> x == [x[0]]
    ensures |x| == 2 ==> x == [x[0], Second(x)]
    ensures |x| >= 3 ==> x == [x[0], Second(x), Third(x)] + Rest(x)
  {
  }

  /** Decoding what was encoded gives the bytes back. */
  lemma {:induction false} RoundTrip(x: octets)
    ensures Decoded(Encoded(x)) == x
    decreases |x|
  {
    if x != [] {
      hide Encoded, Decoded, Character, SextetOf, FirstByte, SecondByte, ThirdByte, Second, Third, Rest;
      EncodedStep(x);
      GroupRead(x);
      GroupBack(x[0], Second(x), Third(x));
      DecodedStep(Encoded(x));
      Regroup(x);
      RoundTrip(Rest(x));
      Missing(x);
    }
  }

  lemma Missing(x: octets)
    ensures |x| <= 1 ==> Second(x) == 0
    ensures |x| <= 2 ==> Third(x) == 0
  {
  }

  // ---------------------------------------------------------------- lengths

  const WORD := 0x1_0000_0000

  /** Base64_encodeLength in unsigned ints. */
  function EncodeLength(n: nat): nat {
    var v := (4 * n % WORD / 3 + 3) % WORD; v - v % 4
  }

  function Ceil3(n: nat): nat {
    (n + 2) / 3
  }

  lemma {:induction false} EncodedLength(x: octets)
    ensures |Encoded(x)| == 4 * Ceil3(|x|)
    decreases |x|
  {
    if x != [] {
      EncodedStep(x);
      EncodedLength(Rest(x));
      hide Encoded, Rest;
      assert |x| > 3 ==> Ceil3(|x|) == 1 + Ceil3(|x| - 3);
    }
  }

  /** The computed length is right exactly below 2^30, where 4n still fits an unsigned int. */
  lemma EncodeLengthExact(n: nat)
    requires n < WORD
    ensures EncodeLength(n) == 4 * Ceil3(n) <==> n < 0x4000_0000
  {
    if n < 0x4000_0000 {
      var q, r := n / 3, n % 3;
      assert 4 * n % WORD == 4 * n && n == 3 * q + r;
      ThirdOf4(q, r);
      Floor4(q, r);
    } else {
      TooLong(n);
    }
  }

  lemma ThirdOf4(q: nat, r: nat)
    requires r < 3
    ensures 4 * (3 * q + r) / 3 == 4 * q + r
  {
  }

  lemma TooLong(n: nat)
    requires 0x4000_0000 <= n < WORD
    ensures EncodeLength(n) < 4 * Ceil3(n)
  {
    var w := 4 * n % WORD;
    assert w <= 4 * n - WORD;
    assert w / 3 + 3 < WORD;
    assert EncodeLength(n) <= w / 3 + 3;
  }

  lemma Floor4(q: nat, r: nat)
    requires r < 3
    ensures var v := 4 * q + r + 3; v - v % 4 == 4 * (q + if r == 0 then 0 else 1)
    ensures (3 * q + r + 2) / 3 == q + if r == 0 then 0 else 1
  {
  }

  /** How many of the last two characters are padding. */
  function PadCount(s: string): nat {
    (if |s| > 1 && s[|s| - 2] == '=' then 1 else 0) + (if |s| > 0 && s[|s| - 1] == '=' then 1 else 0)
  }

  /** The subtraction is unsigned. */
  function Estimate(length: nat, pad: nat): nat {
    (length / 4 * 3 - pad) % WORD
  }

  /** Base64_decodeLength. */
  function DecodeLength(s: string): nat {
    Estimate(|s|, PadCount(s))
  }

  lemma {:induction false} Paddings(x: octets)
    requires x != []
    ensures var s := Encoded(x);
            && |s| >= 4 && (s[|s| - 1] == '=' <==> |x| % 3 != 0) && (s[|s| - 2] == '=' <==> |x| % 3 == 1)
    decreases |x|
  {
    hide *;
    EncodedStep(x);
    Mod3(|x|);
    NoPadding(Second(x) % 16 * 4 + Third(x) / 64);
    NoPadding(Third(x) % 64);
    if |x| > 3 {
      Paddings(Rest(x));
      LastTwo(Encoded(x), Encoded(Rest(x)));
    } else {
      EmptyEncoded();
    }
  }

  lemma Mod3(n: nat)
    requires n > 0
    ensures n > 3 ==> n % 3 == (n - 3) % 3
    ensures n == 1 ==> n % 3 == 1
    ensures n == 2 ==> n % 3 == 2
    ensures n == 3 ==> n % 3 == 0
  {
  }

  lemma EmptyEncoded()
    ensures Encoded([]) == ""
  {
  }

  lemma LastTwo(s: string, t: string)
    requires |s| >= 4 && t == s[4..] && |t| >= 4
    ensures s[|s| - 1] == t[|t| - 1] && s[|s| - 2] == t[|t| - 2]
  {
  }

  lemma NoPadding(c: sextet)
    requires c < 64
    ensures Character(c) != '='
  {
  }

  function PadOf(n: nat): nat {
    if n % 3 == 0 then 0 else if n % 3 == 1 then 2 else 1
  }

  lemma PadCounted(x: octets)
    ensures PadCount(Encoded(x)) == PadOf(|x|)
  {
    if x == [] { EmptyEncoded(); } else { Paddings(x); }
    hide Encoded;
  }

  /** The length computed from an encoding is the number of bytes encoded. */
  lemma DecodeLengthExact(x: octets)
    requires |x| < 0x4000_0000
    ensures DecodeLength(Encoded(x)) == |x|
  {
    EncodedLength(x);
    PadCounted(x);
    Thirds(|x|, |Encoded(x)|);
    hide Encoded, Ceil3, PadCount, PadOf, Estimate;
  }

  lemma Thirds(n: nat, length: nat)
    requires n < 0x4000_0000 && length == 4 * Ceil3(n)
    ensures Estimate(length, PadOf(n)) == n
  {
    var k := Ceil3(n);
    assert length / 4 == k;
    assert 3 * k - n == PadOf(n);
  }

  // ---------------------------------------------------------------- the loops

  /** Base64_encode: one group at a time, as long as there is room for the next one to begin. */
  method Encode(out: array<char>, x: octets) returns (ret: nat)
    modifies out
    ensures ret == if |Encoded(x)| <= out.Length then |Encoded(x)| else if out.Length % 4 == 0 then out.Length else 0
    ensures ret > 0 ==> out[..ret] == Encoded(x)[..ret]
    ensures ret == |Encoded(x)| < out.Length ==> out[ret] == '\0'
  {
    var rest, outCount, outLen := x, 0, out.Length;
    ghost var e, groups := Encoded(x), 0;
    assert out[..0] + e == e;
    while rest != [] && outCount < outLen
      invariant outCount == 4 * groups
      invariant outCount <= outLen ==> out[..outCount] + Encoded(rest) == e
      invariant outCount > outLen ==> outLen > outCount - 4 && outCount <= |e|
      decreases |rest|
    {
      EncodedStep(rest);
      ghost var done := out[..outCount];
      outCount, groups := outCount + 4, groups + 1;
      if outCount <= outLen {
        PutGroup(out, outCount - 4, rest);
        FourMore(done, Encoded(rest), Encoded(Rest(rest)), out[..outCount]);
      }
      hide Encoded;
      rest := Rest(rest);
    }
    FourRound(groups, outLen);
    ret := 0;
    if outCount <= outLen {
      assert rest == [] ==> Encoded(rest) == "" by { EmptyEncoded(); }
      hide Encoded;
      assert out[..outCount] == e[..outCount];
      if outCount < outLen { out[outCount] := '\0'; }
      ret := outCount;
    }
  }

  lemma FourRound(g: nat, n: nat)
    ensures 4 * g % 4 == 0
    ensures 4 * g - 4 < n < 4 * g ==> n % 4 != 0
  {
  }

  lemma FourMore(done: string, s: string, t: string, now: string)
    requires |s| >= 4 && t == s[4..] && now == done + s[..4]
    ensures now + t == done + s
  {
    assert s == s[..4] + t;
  }

  /** The four characters of the next group. */
  method PutGroup(out: array<char>, at: nat, x: octets)
    requires x != [] && at + 4 <= out.Length
    modifies out
    ensures |Encoded(x)| >= 4 && out[..at + 4] == old(out[..at]) + Encoded(x)[..4]
  {
    var c := Sextets(x);
    GroupCharacters(x, c);
    hide Encoded, Character;
    ghost var before := out[..at];
    out[at] := Character(c[0]);
    out[at + 1] := Character(c[1]);
    out[at + 2] := Character(c[2]);
    out[at + 3] := Character(c[3]);
    assert Encoded(x)[..4] == [Character(c[0]), Character(c[1]), Character(c[2]), Character(c[3])];
    assert out[..at + 4] == before + Encoded(x)[..4];
  }

  /** The array `c`, sextet by sextet as bytes are taken from the input. */
  method Sextets(x: octets) returns (c: seq<sextet>)
    requires x != []
    ensures c == CodeSextets(x[0], Second(x), Third(x), |x|)
  {
    c := [x[0] / 4, x[0] % 4 * 16, 64, 64];
    if |x| > 1 {
      c := c[1 := c[1] + x[1] / 16];
      c := c[2 := x[1] % 16 * 4];
      if |x| > 2 {
        c := c[2 := c[2] + x[2] / 64];
        c := c[3 := x[2] % 64];
      }
    }
  }

  lemma GroupCharacters(x: octets, c: seq<sextet>)
    requires x != [] && c == CodeSextets(x[0], Second(x), Third(x), |x|)
    ensures |Encoded(x)| >= 4
    ensures Encoded(x)[0] == Character(c[0]) && Encoded(x)[1] == Character(c[1])
    ensures Encoded(x)[2] == Character(c[2]) && Encoded(x)[3] == Character(c[3])
  {
    EncodedStep(x);
    PaddingCharacter();
    CodeParts(x[0], Second(x), Third(x), |x|);
    assert |x| <= 2 ==> Third(x) == 0;
    assert |x| == 1 ==> Second(x) == 0;
    hide *;
  }

  lemma PaddingCharacter()
    ensures Character(64) == '='
  {
  }

  lemma CodeParts(a: byte, b: byte, c: byte, n: nat)
    requires n >= 1 && (n == 1 ==> b == 0) && (n <= 2 ==> c == 0)
    ensures var r := CodeSextets(a, b, c, n);
            && r[0] == a / 4 && r[1] == a % 4 * 16 + b / 16
            && r[2] == (if n > 1 then b % 16 * 4 + c / 64 else 64) && r[3] == (if n > 2 then c % 64 else 64)
  {
  }

  /** Base64_decode: as much as there is room for. */
  method Decode(out: array<byte>, s: string) returns (ret: nat)
    modifies out
    ensures ret == if |Decoded(s)| <= out.Length then |Decoded(s)| else out.Length
    ensures out[..ret] == Decoded(s)[..ret]
  {
    var rest, outLen := s, out.Length;
    var outCount: nat := 0;
    ghost var d := Decoded(s);
    assert d[0..] == d;
    ShortDecoded(rest);
    NothingDecoded();
    hide Decoded, SextetOf, FirstByte, SecondByte, ThirdByte;
    while |rest| > 3 && outCount < outLen
      invariant outCount <= outLen && outCount <= |d| && out[..outCount] == d[..outCount]
      invariant outCount < outLen ==> Decoded(rest) == d[outCount..]
      decreases |rest|
    {
      DecodedStep(rest);
      var stop;
      outCount, stop := DecodeGroup(out, outCount, SextetOf(rest[0]), SextetOf(rest[1]), SextetOf(rest[2]), SextetOf(rest[3]), d, rest);
      rest := if stop then "" else rest[4..];
    }
    if |rest| <= 3 { ShortDecoded(rest); }
    if outCount < outLen { out[outCount] := 0; }
    ret := outCount;
  }

  /** Up to three bytes; an invalid third or fourth character stops the decoding. */
  method DecodeGroup(out: array<byte>, at: nat, c0: sextet, c1: sextet, c2: sextet, c3: sextet, ghost d: octets, ghost s: string)
    returns (outCount: nat, stop: bool)
    requires at < out.Length && at < |d| && out[..at] == d[..at] && |s| >= 4
    requires c2 >= NV ==> d[at..] == [FirstByte(c0, c1)]
    requires c2 < NV && c3 >= NV ==> d[at..] == [FirstByte(c0, c1), SecondByte(c1, c2)]
    requires c2 < NV && c3 < NV ==>
               d[at..] == [FirstByte(c0, c1), SecondByte(c1, c2), ThirdByte(c2, c3)] + Decoded(s[4..])
    modifies out
    ensures outCount <= out.Length && outCount <= |d| && out[..outCount] == d[..outCount]
    ensures outCount < out.Length ==> d[outCount..] == if stop then [] else Decoded(s[4..])
  {
    hide Decoded, FirstByte, SecondByte, ThirdByte;
    stop := false;
    assert d[at] == d[at..][0];
    outCount := PutByte(out, at, FirstByte(c0, c1), d);
    if outCount >= out.Length { return; }
    out[outCount] := c1 % 16 * 16;
    stop := true;
    if c2 >= NV { return; }
    assert d[at + 1] == d[at..][1];
    outCount := PutByte(out, outCount, SecondByte(c1, c2), d);
    if outCount >= out.Length { return; }
    out[outCount] := c2 % 4 * 64;
    if c3 >= NV { return; }
    assert d[at + 2] == d[at..][2];
    outCount := PutByte(out, outCount, ThirdByte(c2, c3), d);
    stop := false;
    assert d[at + 3..] == d[at..][3..];
  }

  /** One more byte of the result. */
  method PutByte(out: array<byte>, at: nat, b: byte, ghost d: octets) returns (next: nat)
    requires at < out.Length && at < |d| && d[at] == b && out[..at] == d[..at]
    modifies out
    ensures next == at + 1 && out[..next] == d[..next]
  {
    out[at] := b;
    next := at + 1;
  }

  lemma ShortDecoded(s: string)
    ensures |s| <= 3 ==> Decoded(s) == []
  {
  }

  lemma NothingDecoded()
    ensures Decoded("") == []
  {
  }

  /** With sufficient buffers the two calls give the bytes back. */
  method EncodeThenDecode(x: octets) returns (y: octets)
    requires |x| < 0x4000_0000
    ensures y == x
  {
    EncodeLengthExact(|x|);
    EncodedLength(x);
    RoundTrip(x);
    DecodeLengthExact(x);
    hide Encoded, Decoded, EncodeLength, DecodeLength, Ceil3;
    var text := new char[EncodeLength(|x|)];
    var n := Encode(text, x);
    assert Encoded(x)[..n] == Encoded(x);
    var length := DecodeLength(text[..n]);
    var bytes := new byte[length];
    var m := Decode(bytes, text[..n]);
    y := bytes[..m];
  }
}
