/** Bytes, and the helpers of MQTTPacket.c that move a pointer over them. */
module Bytes {

  type byte = b: int | 0 <= b < 256
  type bytes = seq<byte>

  /** C division and remainder truncate toward zero. */
  function TruncDiv(a: int, b: int): int
    requires b > 0
  {
    if a >= 0 then a / b else -((-a) / b)
  }

  function TruncMod(a: int, b: int): int
    requires b > 0
  {
    if a >= 0 then a % b else -((-a) % b)
  }

  /** The cast `(char)`. */
  function Low8(a: int): byte { a % 256 }

  /** A 16-bit `short` and a 32-bit `int` read back from an unsigned value. */
  function AsShort(v: int): (r: int)
    requires 0 <= v < 0x1_0000
    ensures -0x8000 <= r < 0x8000
  {
    if v < 0x8000 then v else v - 0x1_0000
  }

  function AsInt(v: int): (r: int)
    requires 0 <= v < 0x1_0000_0000
    ensures -0x8000_0000 <= r < 0x8000_0000
  {
    if v < 0x8000_0000 then v else v - 0x1_0000_0000
  }

  // ---------------------------------------------------------------- two- and four-byte integers

  /** writeInt: quotient and remainder by 256, each cast to a char. */
  function IntBytes(v: int): (r: bytes)
    ensures |r| == 2
  {
    [Low8(TruncDiv(v, 256)), Low8(TruncMod(v, 256))]
  }

  /** readInt. */
  function ReadInt(a: byte, b: byte): (v: int)
    ensures 0 <= v < 0x1_0000
  {
    256 * a + b
  }

  /** writeInt4. */
  function Int4Bytes(v: int): (r: bytes)
    ensures |r| == 4
  {
    var v2 := TruncMod(v, 16777216);
    var v1 := TruncMod(v2, 65536);
    [Low8(TruncDiv(v, 16777216)), Low8(TruncDiv(v2, 65536)), Low8(TruncDiv(v1, 256)), Low8(TruncMod(v1, 256))]
  }

  function ReadInt4(a: byte, b: byte, c: byte, d: byte): (v: int)
    ensures 0 <= v < 0x1_0000_0000
  {
    16777216 * a + 65536 * b + 256 * c + d
  }

  /** An unsigned 16-bit value survives. */
  lemma IntRoundTrip(v: int)
    requires 0 <= v < 0x1_0000
    ensures ReadInt(IntBytes(v)[0], IntBytes(v)[1]) == v
  {
    var q, r := v / 256, v % 256;
    assert 0 <= q < 256 && v == 256 * q + r;
  }

  lemma TruncParts(u: int, m: int)
    requires u >= 0 && m > 0
    ensures TruncDiv(-u, m) == -(u / m) && TruncMod(-u, m) == -(u % m)
  {
  }

  /** What casting a negated digit to a char gives. */
  function Borrowed(q: int): int {
    if q == 0 then 0 else 256 - q
  }

  lemma NegLow8(q: int)
    requires 0 <= q < 256
    ensures Low8(-q) == Borrowed(q)
  {
  }

  /** A short survives exactly when it is not negative or is a multiple of 256. */
  lemma ShortRoundTrip(v: int)
    requires -0x8000 <= v < 0x8000
    ensures AsShort(ReadInt(IntBytes(v)[0], IntBytes(v)[1])) == v <==> v >= 0 || v % 256 == 0
  {
    if v >= 0 {
      IntRoundTrip(v);
    } else {
      var q, r := (-v) / 256, (-v) % 256;
      TruncParts(-v, 256);
      NegLow8(q);
      NegLow8(r);
      hide Low8, TruncDiv, TruncMod;
      assert IntBytes(v) == [Borrowed(q), Borrowed(r)];
      assert v == -(256 * q + r);
      assert v % 256 == 0 <==> r == 0;
    }
  }

  lemma Digits256(c: int, d: int)
    requires 0 <= d < 256
    ensures (256 * c + d) / 256 == c && (256 * c + d) % 256 == d
  {
  }

  lemma Digits65536(b: int, w: int)
    requires 0 <= w < 65536
    ensures (65536 * b + w) / 65536 == b && (65536 * b + w) % 65536 == w
  {
  }

  lemma Digits16777216(a: int, w: int)
    requires 0 <= w < 16777216
    ensures (16777216 * a + w) / 16777216 == a && (16777216 * a + w) % 16777216 == w
  {
  }

  /** What writeInt4 writes for a magnitude with the given digits, and for its negation. */
  lemma Int4BytesOf(a: int, b: int, c: int, d: int)
    requires 0 <= a && 0 <= b < 256 && 0 <= c < 256 && 0 <= d < 256
    ensures Int4Bytes(16777216 * a + (65536 * b + (256 * c + d))) == [Low8(a), Low8(b), Low8(c), Low8(d)]
    ensures Int4Bytes(-(16777216 * a + (65536 * b + (256 * c + d)))) == [Low8(-a), Low8(-b), Low8(-c), Low8(-d)]
  {
    var u1 := 256 * c + d;
    var u2 := 65536 * b + u1;
    var u := 16777216 * a + u2;
    Digits16777216(a, u2);
    Digits65536(b, u1);
    Digits256(c, d);
    TruncParts(u, 16777216);
    TruncParts(u2, 65536);
    TruncParts(u1, 256);
    assert TruncDiv(u, 16777216) == a && TruncMod(u, 16777216) == u2;
    assert TruncDiv(u2, 65536) == b && TruncMod(u2, 65536) == u1;
    assert TruncDiv(u1, 256) == c && TruncMod(u1, 256) == d;
    hide TruncDiv, TruncMod, Low8;
  }

  /** A 32-bit int survives exactly when it is not negative or is a multiple of 2^24. */
  lemma Int4RoundTrip(v: int)
    requires -0x8000_0000 <= v < 0x8000_0000
    ensures var b := Int4Bytes(v);
            AsInt(ReadInt4(b[0], b[1], b[2], b[3])) == v <==> v >= 0 || v % 16777216 == 0
  {
    var u := if v < 0 then -v else v;
    var a, u2 := u / 16777216, u % 16777216;
    var b, u1 := u2 / 65536, u2 % 65536;
    var c, d := u1 / 256, u1 % 256;
    Int4BytesOf(a, b, c, d);
    Multiple(v);
    hide Int4Bytes, Low8, ReadInt4, AsInt;
    if v < 0 {
      NegLow8(a); NegLow8(b); NegLow8(c); NegLow8(d);
      NegativeDigits(a, b, c, d);
    } else {
      PositiveDigits(a, b, c, d);
    }
  }

  lemma PositiveDigits(a: int, b: int, c: int, d: int)
    requires 0 <= a < 128 && 0 <= b < 256 && 0 <= c < 256 && 0 <= d < 256
    ensures AsInt(ReadInt4(Low8(a), Low8(b), Low8(c), Low8(d))) == 16777216 * a + (65536 * b + (256 * c + d))
  {
    PosLow8(a); PosLow8(b); PosLow8(c); PosLow8(d);
    hide Low8;
  }

  lemma PosLow8(q: int)
    requires 0 <= q < 256
    ensures Low8(q) == q
  {
  }

  lemma Multiple(v: int)
    ensures v % 16777216 == 0 <==> (-v) % 16777216 == 0
  {
  }

  lemma NegativeDigits(a: int, b: int, c: int, d: int)
    requires 0 <= a <= 128 && 0 <= b < 256 && 0 <= c < 256 && 0 <= d < 256
    requires 0 < 16777216 * a + (65536 * b + (256 * c + d)) <= 0x8000_0000
    ensures AsInt(ReadInt4(Borrowed(a), Borrowed(b), Borrowed(c), Borrowed(d)))
            == -(16777216 * a + (65536 * b + (256 * c + d)))
            <==> 65536 * b + (256 * c + d) == 0
  {
  }

  // ---------------------------------------------------------------- variable byte integers

  /** MQTTPacket_encode: seven bits a byte, low bits first, the top bit marking a continuation. */
  function EncodeVbi(n: nat): (r: bytes)
    ensures |r| >= 1
  {
    if n < 128 then [n] else [n % 128 + 128] + EncodeVbi(n / 128)
  }

  function VbiLen(n: int): int {
    if n < 128 then 1 else if n < 16384 then 2 else if n < 2097152 then 3 else 4
  }

  /** MQTTPacket_VBIlen is the encoded length exactly up to 268435455. */
  lemma VbiLenExact(n: nat)
    ensures VbiLen(n) == |EncodeVbi(n)| <==> n < 268435456
  {
    EncodedLength(n);
  }

  lemma EncodedLength(n: nat)
    ensures n < 268435456 ==> |EncodeVbi(n)| == VbiLen(n)
    ensures n >= 268435456 ==> |EncodeVbi(n)| >= 5
  {
    assert n < 128 ==> |EncodeVbi(n)| == 1;
    assert n >= 128 ==> |EncodeVbi(n)| == 1 + |EncodeVbi(n / 128)|;
    assert n >= 16384 ==> |EncodeVbi(n / 128)| == 1 + |EncodeVbi(n / 128 / 128)|;
    assert n >= 2097152 ==> |EncodeVbi(n / 128 / 128)| == 1 + |EncodeVbi(n / 128 / 128 / 128)|;
    assert n >= 268435456 ==> |EncodeVbi(n / 128 / 128 / 128)| == 1 + |EncodeVbi(n / 128 / 128 / 128 / 128)|;
  }

  /** A decoded value and the bytes it is said to take, or a read past the end of the data. */
  datatype Vbi = Vbi(len: nat, value: int) | Overrun

  /** The decoding loop; `limit` is 4 in MQTTPacket_VBIdecode, which then reports a fifth byte. */
  function DecodeVbiFrom(s: bytes, len: nat, limit: nat, multiplier: int, value: int): Vbi
    decreases |s| - len
  {
    if len + 1 > limit then Vbi(len + 1, value)
    else if len >= |s| then Overrun
    else
      var v := value + s[len] % 128 * multiplier;
      if s[len] >= 128 then DecodeVbiFrom(s, len + 1, limit, multiplier * 128, v) else Vbi(len + 1, v)
  }

  function DecodeVbi(s: bytes): Vbi {
    DecodeVbiFrom(s, 0, 4, 1, 0)
  }

  lemma MulSplit(q: int, r: int, m: int)
    ensures (128 * q + r) * m == q * (m * 128) + r * m
  {
  }

  /** The shape of the encoding of a value that needs more than one byte. */
  lemma EncodedStep(s: bytes, len: nat, n: nat)
    requires len <= |s| && EncodeVbi(n) <= s[len..]
    ensures len < |s|
    ensures n < 128 ==> s[len] == n && |EncodeVbi(n)| == 1
    ensures n >= 128 ==> s[len] == n % 128 + 128 && EncodeVbi(n / 128) <= s[len + 1..]
                         && |EncodeVbi(n)| == 1 + |EncodeVbi(n / 128)|
  {
    assert s[len] == EncodeVbi(n)[0];
    if n >= 128 {
      assert EncodeVbi(n)[1..] == EncodeVbi(n / 128);
      assert s[len..][1..] == s[len + 1..];
    }
  }

  lemma {:induction false} DecodeEncoded(s: bytes, len: nat, limit: nat, multiplier: int, value: int, n: nat)
    requires len <= |s| && EncodeVbi(n) <= s[len..] && len + |EncodeVbi(n)| <= limit
    ensures DecodeVbiFrom(s, len, limit, multiplier, value) == Vbi(len + |EncodeVbi(n)|, value + n * multiplier)
    decreases n
  {
    EncodedStep(s, len, n);
    hide EncodeVbi;
    var q, r := n / 128, n % 128;
    if n >= 128 {
      assert s[len] % 128 == r;
      var v := value + s[len] % 128 * multiplier;
      DecodeEncoded(s, len + 1, limit, multiplier * 128, v, q);
      MulSplit(q, r, multiplier);
      assert n * multiplier == q * (multiplier * 128) + r * multiplier;
    } else {
      assert s[len] % 128 == n;
    }
  }

  lemma {:induction false} LongCut(s: bytes, len: nat, multiplier: int, value: int, n: nat)
    requires len <= 4 && len <= |s| && EncodeVbi(n) <= s[len..] && len + |EncodeVbi(n)| > 4
    requires multiplier >= 1 && (len < 4 || n > 0)
    ensures var d := DecodeVbiFrom(s, len, 4, multiplier, value); d.Vbi? && d.value < value + n * multiplier
    decreases n
  {
    if len < 4 {
      EncodedStep(s, len, n);
      hide EncodeVbi;
      var q, r := n / 128, n % 128;
      assert n >= 128 && s[len] % 128 == r;
      var v := value + s[len] % 128 * multiplier;
      LongCut(s, len + 1, multiplier * 128, v, q);
      MulSplit(q, r, multiplier);
      assert n * multiplier == q * (multiplier * 128) + r * multiplier;
    } else {
      assert n * multiplier >= 1;
    }
  }

  /** Encoding and decoding agree exactly on the values of section 1.5.5 of MQTT 5.0. */
  lemma VbiRoundTrip(n: nat, rest: bytes)
    ensures DecodeVbi(EncodeVbi(n) + rest) == Vbi(|EncodeVbi(n)|, n) <==> n < 268435456
  {
    var s := EncodeVbi(n) + rest;
    EncodedLength(n);
    assert s[0..] == s;
    if n < 268435456 {
      DecodeEncoded(s, 0, 4, 1, 0, n);
    } else {
      LongCut(s, 0, 1, 0, n);
    }
  }

  // ---------------------------------------------------------------- writing through a pointer

  /** The buffer after writing s at position p. */
  function Written(b: bytes, p: nat, s: bytes): (r: bytes)
    requires p + |s| <= |b|
    ensures |r| == |b|
  {
    b[..p] + s + b[p + |s|..]
  }

  lemma WrittenTwice(b: bytes, p: nat, s: bytes, t: bytes)
    requires p + |s| + |t| <= |b|
    ensures Written(Written(b, p, s), p + |s|, t) == Written(b, p, s + t)
  {
  }

  /** memcpy. */
  method Copy(buf: array<byte>, p: nat, s: bytes) returns (q: nat)
    requires p + |s| <= buf.Length
    modifies buf
    ensures q == p + |s| && buf[..] == Written(old(buf[..]), p, s)
  {
    forall i | 0 <= i < |s| {
      buf[p + i] := s[i];
    }
    q := p + |s|;
  }

  method WriteChar(buf: array<byte>, p: nat, c: int) returns (q: nat)
    requires p + 1 <= buf.Length
    modifies buf
    ensures q == p + 1 && buf[..] == Written(old(buf[..]), p, [Low8(c)])
  {
    buf[p] := Low8(c);
    q := p + 1;
  }

  method WriteInt(buf: array<byte>, p: nat, v: int) returns (q: nat)
    requires p + 2 <= buf.Length
    modifies buf
    ensures q == p + 2 && buf[..] == Written(old(buf[..]), p, IntBytes(v))
  {
    buf[p] := Low8(TruncDiv(v, 256));
    buf[p + 1] := Low8(TruncMod(v, 256));
    q := p + 2;
  }

  method WriteInt4(buf: array<byte>, p: nat, v: int) returns (q: nat)
    requires p + 4 <= buf.Length
    modifies buf
    ensures q == p + 4 && buf[..] == Written(old(buf[..]), p, Int4Bytes(v))
  {
    var u := v;
    buf[p] := Low8(TruncDiv(u, 16777216));
    u := TruncMod(u, 16777216);
    buf[p + 1] := Low8(TruncDiv(u, 65536));
    u := TruncMod(u, 65536);
    buf[p + 2] := Low8(TruncDiv(u, 256));
    buf[p + 3] := Low8(TruncMod(u, 256));
    q := p + 4;
  }

  /** MQTTPacket_encode on a buffer. */
  method Encode(buf: array<byte>, p: nat, n: nat) returns (rc: nat)
    requires p + |EncodeVbi(n)| <= buf.Length
    modifies buf
    ensures rc == |EncodeVbi(n)| && buf[..] == Written(old(buf[..]), p, EncodeVbi(n))
  {
    rc := 0;
    var length := n;
    var more := true;
    ghost var done: bytes := [];
    while more
      invariant rc == |done| && |done| <= |EncodeVbi(n)|
      invariant if more then done + EncodeVbi(length) == EncodeVbi(n) else done == EncodeVbi(n)
      invariant buf[..] == Written(old(buf[..]), p, done)
      decreases more, length
    {
      assert EncodeVbi(length) == if length < 128 then [length] else [length % 128 + 128] + EncodeVbi(length / 128);
      var d := length % 128;
      length := length / 128;
      if length > 0 { d := d + 128; }
      done := Emit(buf, p, done, rc, d, old(buf[..]));
      rc := rc + 1;
      more := length > 0;
    }
  }

  /** One encoded byte at the end of those already written. */
  method Emit(buf: array<byte>, p: nat, ghost done: bytes, rc: nat, d: byte, ghost was: bytes) returns (ghost now: bytes)
    requires rc == |done| && p + rc + 1 <= buf.Length == |was| && buf[..] == Written(was, p, done)
    modifies buf
    ensures now == done + [d] && buf[..] == Written(was, p, now)
  {
    now := done + [d];
    buf[p + rc] := d;
    assert buf[..] == Written(Written(was, p, done), p + rc, [d]);
    WrittenTwice(was, p, done, [d]);
  }
}
