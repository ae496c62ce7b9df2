/** The SHA-1 of the websocket handshake: a streaming, in-place form of FIPS 180-4. */
module Sha1 {

  type word = bv32
  type octets = seq<bv8>

  // ---------------------------------------------------------------- the standard (FIPS 180-4)

  function Rotl(x: word, n: nat): word
    requires 0 < n < 32
  {
    (x << n as bv6) | (x >> (32 - n) as bv6)
  }

  /** Section 4.1.1. */
  function F(t: nat, x: word, y: word, z: word): word {
    if t < 20 then (x & y) ^ (!x & z)
    else if t < 40 then x ^ y ^ z
    else if t < 60 then (x & y) ^ (x & z) ^ (y & z)
    else x ^ y ^ z
  }

  /** Section 4.2.1. */
  function K(t: nat): word {
    if t < 20 then 0x5a827999 else if t < 40 then 0x6ed9eba1 else if t < 60 then 0x8f1bbcdc else 0xca62c1d6
  }

  function WordAt(b: octets, i: nat): word
    requires 4 * i + 4 <= |b|
  {
    (b[4 * i] as word << 24) | (b[4 * i + 1] as word << 16) | (b[4 * i + 2] as word << 8) | (b[4 * i + 3] as word)
  }

  function Mix(x: word, y: word, z: word, u: word): word {
    Rotl(x ^ y ^ z ^ u, 1)
  }

  /** The 80 words of the message schedule, section 6.1.2. */
  ghost function W(b: octets, t: nat): word
    requires |b| == 64
  {
    if t < 16 then WordAt(b, t) else Mix(W(b, t - 3), W(b, t - 8), W(b, t - 14), W(b, t - 16))
  }

  datatype Hash = Hash(a: word, b: word, c: word, d: word, e: word)

  /** Addition modulo 2^32. */
  function Plus(x: word, y: word): word {
    x + y
  }

  /** The sum T of section 6.1.2, in whatever order. */
  function Temp(v: Hash, t: nat, w: word): word {
    Plus(Plus(Plus(Plus(Rotl(v.a, 5), F(t, v.b, v.c, v.d)), v.e), w), K(t))
  }

  function Round(v: Hash, t: nat, w: word): Hash {
    Hash(Temp(v, t, w), v.a, Rotl(v.b, 30), v.c, v.d)
  }

  ghost function Rounds(h: Hash, b: octets, t: nat): Hash
    requires |b| == 64
  {
    if t == 0 then h else Round(Rounds(h, b, t - 1), t - 1, W(b, t - 1))
  }

  function Sum(h: Hash, v: Hash): Hash {
    Hash(Plus(h.a, v.a), Plus(h.b, v.b), Plus(h.c, v.c), Plus(h.d, v.d), Plus(h.e, v.e))
  }

  ghost function Compress(h: Hash, b: octets): Hash
    requires |b| == 64
  {
    Sum(h, Rounds(h, b, 80))
  }

  function Initial(): Hash {
    Hash(0x67452301, 0xefcdab89, 0x98badcfe, 0x10325476, 0xc3d2e1f0)
  }

  /** Block after block. */
  ghost function HashOf(m: octets): Hash
    requires |m| % 64 == 0
  {
    if m == [] then Initial() else Compress(HashOf(m[..|m| - 64]), m[|m| - 64..])
  }

  function WordOctets(w: word): (r: octets)
    ensures |r| == 4
  {
    [(w >> 24) as bv8, ((w >> 16) & 0xFF) as bv8, ((w >> 8) & 0xFF) as bv8, (w & 0xFF) as bv8]
  }

  /** The length in bits of n bytes as two words, section 5.1.1. */
  function LengthHigh(n: nat): int {
    8 * n / 0x1_0000_0000
  }

  function LengthLow(n: nat): word {
    (8 * n % 0x1_0000_0000) as word
  }

  /** One bit, zeros, up to eight bytes short of a block. */
  function PadAmount(size: nat): (n: nat)
    requires size < 64
    ensures 1 <= n <= 64 && (size + n) % 64 == 56
  {
    if size < 56 then 56 - size else 120 - size
  }

  function Padding(n: nat): octets {
    if n == 0 then [] else [0x80] + seq(n - 1, _ => 0)
  }

  function Padded(m: octets, high: word, low: word): (p: octets)
    ensures |p| % 64 == 0
  {
    m + Padding(PadAmount(|m| % 64)) + WordOctets(high) + WordOctets(low)
  }

  function Digest(h: Hash): octets {
    WordOctets(h.a) + WordOctets(h.b) + WordOctets(h.c) + WordOctets(h.d) + WordOctets(h.e)
  }

  /** The digest of section 6.1.2 of the padded message. */
  ghost function Sha1(m: octets): octets
    requires |m| < 0x2000_0000_0000_0000
  {
    Digest(HashOf(Padded(m, LengthHigh(|m|) as word, LengthLow(|m|))))
  }

  // ---------------------------------------------------------------- bit facts

  /** The code joins the parts of the choice and the majority with OR. */
  lemma Joins(x: word, y: word, z: word)
    ensures (x & y) | (!x & z) == (x & y) ^ (!x & z)
    ensures (x & y) | (x & z) | (y & z) == (x & y) ^ (x & z) ^ (y & z)
  {
  }

  // ---------------------------------------------------------------- the circular schedule

  /** Sixteen words hold the schedule from lo to lo + 15, each at its index modulo 16. */
  ghost predicate Window(w: seq<word>, b: octets, lo: nat) {
    |w| == 16 && |b| == 64 && forall t :: lo <= t < lo + 16 ==> w[t % 16] == W(b, t)
  }

  lemma Circular(i: nat)
    requires i >= 16
    ensures (i + 13) % 16 == (i - 3) % 16 && (i + 8) % 16 == (i - 8) % 16 && (i + 2) % 16 == (i - 14) % 16
    ensures i % 16 == (i - 16) % 16
    ensures forall t :: i - 15 <= t < i ==> t % 16 != i % 16
  {
    Around(i - 3);
    Around(i - 8);
    Around(i - 14);
    Around(i - 16);
    forall t | i - 15 <= t < i ensures t % 16 != i % 16 { Apart(t, i); }
  }

  lemma Around(i: int)
    ensures (i + 16) % 16 == i % 16
  {
  }

  lemma Apart(t: int, i: int)
    requires i - 15 <= t < i
    ensures t % 16 != i % 16
  {
  }

  /** Overwriting the oldest word moves the window on (section 6.1.3). */
  lemma WindowMoves(w: seq<word>, b: octets, i: nat)
    requires i >= 16 && Window(w, b, i - 16)
    ensures var x := Mix(w[(i + 13) % 16], w[(i + 8) % 16], w[(i + 2) % 16], w[i % 16]);
            x == W(b, i) && Window(w[i % 16 := x], b, i - 15)
  {
    Circular(i);
    WStep(b, i);
    hide W, Mix;
    assert w[(i - 3) % 16] == W(b, i - 3) && w[(i - 8) % 16] == W(b, i - 8)
        && w[(i - 14) % 16] == W(b, i - 14) && w[(i - 16) % 16] == W(b, i - 16);
    var v := w[i % 16 := W(b, i)];
    forall t | i - 15 <= t < i + 1 ensures v[t % 16] == W(b, t) {
      if t < i { assert t % 16 != i % 16; }
    }
  }

  lemma WStep(b: octets, i: nat)
    requires |b| == 64 && i >= 16
    ensures W(b, i) == Mix(W(b, i - 3), W(b, i - 8), W(b, i - 14), W(b, i - 16))
  {
  }

  // ---------------------------------------------------------------- the context

  class Context {
    const h: array<word>
    const buffer: array<bv8>
    var size: nat
    /** An unsigned int. */
    var total: nat

    ghost predicate Shape()
      reads this
    {
      h.Length == 5 && buffer.Length == 64 && size <= 64
    }

    ghost function Value(): Hash
      requires h.Length == 5
      reads h
    {
      Hash(h[0], h[1], h[2], h[3], h[4])
    }

    /** All that has been hashed or is buffered makes up the message so far. */
    ghost predicate Holds(m: octets)
      reads this, h, buffer
    {
      && Shape() && size == |m| % 64 && total == |m| % 0x1_0000_0000
      && Value() == HashOf(m[..|m| - size]) && buffer[..size] == m[|m| - size..]
    }

    /** SHA1_Init. */
    constructor ()
      ensures Holds([]) && fresh(h) && fresh(buffer)
    {
      h, buffer := new word[5], new bv8[64];
      size, total := 0, 0;
      new;
      h[0], h[1], h[2], h[3], h[4] := 0x67452301, 0xEFCDAB89, 0x98BADCFE, 0x10325476, 0xC3D2E1F0;
      assert buffer[..0] == [];
    }

    /** `be32toh` on the sixteen words of the block. */
    method LoadBlock() returns (w: array<word>)
      requires Shape()
      ensures fresh(w) && w.Length == 16 && Window(w[..], buffer[..], 0)
    {
      w := new word[16];
      var i := 0;
      while i < 16
        invariant i <= 16 && forall t :: 0 <= t < i ==> w[t] == WordAt(buffer[..], t)
      {
        w[i] := WordAt(buffer[..], i);
        i := i + 1;
      }
      assert forall t :: 0 <= t < 16 ==> t % 16 == t && W(buffer[..], t) == WordAt(buffer[..], t);
    }

    /** SHA1_ProcessBlock; the block is overwritten, because it shares its memory with the schedule. */
    method ProcessBlock()
      requires Shape()
      modifies h, buffer
      ensures Value() == Compress(old(Value()), old(buffer[..]))
    {
      hide W, Mix, Round;
      ghost var b, start := buffer[..], Value();
      var blks := new word[5];
      forall i | 0 <= i < 5 { blks[i] := h[i]; }
      assert Hash(blks[0], blks[1], blks[2], blks[3], blks[4]) == start == Rounds(start, b, 0);
      var w := LoadBlock();
      assert buffer[..] == b && Window(w[..], b, 0);
      hide Window;
      var i := 0;
      while i < 80
        invariant i <= 80 && Window(w[..], b, if i <= 16 then 0 else i - 16)
        invariant Hash(blks[0], blks[1], blks[2], blks[3], blks[4]) == Rounds(start, b, i)
        invariant h[..] == old(h[..])
      {
        Extend(w, b, i);
        DoRound(blks, i, w[i % 16]);
        i := i + 1;
      }
      AddTo(blks);
      Spill(w);
    }

    method AddTo(blks: array<word>)
      requires h.Length == 5 && blks.Length == 5 && blks != h
      modifies h
      ensures Value() == Sum(old(Value()), Hash(blks[0], blks[1], blks[2], blks[3], blks[4]))
    {
      hide Plus;
      h[0] := Plus(h[0], blks[0]);
      h[1] := Plus(h[1], blks[1]);
      h[2] := Plus(h[2], blks[2]);
      h[3] := Plus(h[3], blks[3]);
      h[4] := Plus(h[4], blks[4]);
    }

    /** What the schedule leaves in the shared memory on a little-endian machine. */
    method Spill(w: array<word>)
      requires Shape() && w.Length == 16
      modifies buffer
    {
      for i := 0 to 16 {
        buffer[4 * i] := (w[i] & 0xFF) as bv8;
        buffer[4 * i + 1] := ((w[i] >> 8) & 0xFF) as bv8;
        buffer[4 * i + 2] := ((w[i] >> 16) & 0xFF) as bv8;
        buffer[4 * i + 3] := (w[i] >> 24) as bv8;
      }
    }

    /** SHA1_Update: the data may be split over calls in any way. */
    method Update(data: octets, ghost m: octets)
      requires Holds(m)
      modifies this`size, this`total, h, buffer
      ensures Holds(m + data)
    {
      hide HashOf;
      var at := 0;
      ghost var now := m;
      assert now == m + data[..0];
      while at < |data|
        invariant at <= |data| && now == m + data[..at] && Holds(now)
        decreases |data| - at
      {
        var n := 64 - size;
        if |data| - at < n { n := |data| - at; }
        assert size < 64;
        Absorb(data[at..at + n], now);
        assert data[..at + n] == data[..at] + data[at..at + n];
        now := now + data[at..at + n];
        at := at + n;
      }
      assert data[..at] == data;
    }

    /** `memcpy` behind what is buffered. */
    method FillBuffer(part: octets)
      requires Shape() && |part| <= 64 - size
      modifies buffer
      ensures buffer[..size + |part|] == old(buffer[..size]) + part
    {
      forall i | 0 <= i < |part| { buffer[size + i] := part[i]; }
    }

    /** The length, as the last two words of the block. */
    method PutLength(high: word, low: word)
      requires Shape() && size == 56
      modifies buffer
      ensures buffer[..] == old(buffer[..56]) + (WordOctets(high) + WordOctets(low))
    {
      hide WordOctets;
      var o := WordOctets(high) + WordOctets(low);
      forall i | 0 <= i < 8 { buffer[56 + i] := o[i]; }
    }

    /** One round of the loop: at most the rest of the block. */
    method Absorb(part: octets, ghost m: octets)
      requires Holds(m) && 1 <= |part| <= 64 - size
      modifies this`size, this`total, h, buffer
      ensures Holds(m + part)
    {
      hide HashOf, Compress;
      ghost var head, tail := m[..|m| - size], m[|m| - size..];
      FillBuffer(part);
      Boundary(m, part, size);
      size := size + |part|;
      total := (total + |part|) % 0x1_0000_0000;
      if size == 64 {
        assert buffer[..] == tail + part;
        ProcessBlock();
        size := 0;
        OneMore(head, tail + part);
        assert buffer[..0] == [];
      }
    }
  }

  /** Where the complete blocks of a message end before and after a part is added. */
  lemma Boundary(m: octets, part: octets, size: nat)
    requires size == |m| % 64 && |part| <= 64 - size
    ensures var d, head, tail := m + part, m[..|m| - size], m[|m| - size..];
            && |head| % 64 == 0 && |d| % 0x1_0000_0000 == (|m| % 0x1_0000_0000 + |part|) % 0x1_0000_0000
            && (size + |part| < 64 ==> |d| % 64 == size + |part| && d[..|d| - (size + |part|)] == head && d[|d| - (size + |part|)..] == tail + part)
            && (size + |part| == 64 ==> |d| % 64 == 0 && d[..|d| - 0] == head + (tail + part) && d[|d| - 0..] == [] && |tail + part| == 64)
  {
    Fill(m, part);
  }

  lemma Fill(m: octets, part: octets)
    requires |part| <= 64 - |m| % 64
    ensures (|m| + |part|) % 64 == if |m| % 64 + |part| == 64 then 0 else |m| % 64 + |part|
  {
  }

  lemma OneMore(m: octets, block: octets)
    requires |m| % 64 == 0 && |block| == 64
    ensures HashOf(m + block) == Compress(HashOf(m), block)
  {
    assert (m + block)[..|m + block| - 64] == m && (m + block)[|m + block| - 64..] == block;
  }

  method Extend(w: array<word>, ghost b: octets, i: nat)
    requires w.Length == 16 && i < 80 && Window(w[..], b, if i <= 16 then 0 else i - 16)
    modifies w
    ensures Window(w[..], b, if i <= 15 then 0 else i - 15) && w[i % 16] == W(b, i)
  {
    if i >= 16 {
      WindowMoves(w[..], b, i);
      w[i % 16] := Mix(w[(i + 13) % 16], w[(i + 8) % 16], w[(i + 2) % 16], w[i % 16]);
    } else {
      assert w[..][i % 16] == W(b, i);
    }
  }

  /** One of the 80 rounds, with the code's way of joining bits. */
  method DoRound(blks: array<word>, i: nat, w: word)
    requires blks.Length == 5 && i < 80
    modifies blks
    ensures Hash(blks[0], blks[1], blks[2], blks[3], blks[4])
         == Round(old(Hash(blks[0], blks[1], blks[2], blks[3], blks[4])), i, w)
  {
    CodeTempIs(Hash(blks[0], blks[1], blks[2], blks[3], blks[4]), i, w);
    hide CodeTemp, Temp, Rotl;
    var tmp := CodeTemp(Hash(blks[0], blks[1], blks[2], blks[3], blks[4]), i, w);
    blks[4] := blks[3];
    blks[3] := blks[2];
    blks[2] := Rotl(blks[1], 30);
    blks[1] := blks[0];
    blks[0] := tmp;
  }

  /** The bits joined with OR, as the code does. */
  function CodeF(t: nat, x: word, y: word, z: word): word {
    if t < 20 then (x & y) | (!x & z)
    else if t < 40 then x ^ y ^ z
    else if t < 60 then (x & y) | (x & z) | (y & z)
    else x ^ y ^ z
  }

  function CodeTemp(v: Hash, t: nat, w: word): word {
    Plus(Plus(Plus(Plus(Rotl(v.a, 5), CodeF(t, v.b, v.c, v.d)), v.e), w), K(t))
  }

  lemma CodeFIs(t: nat, x: word, y: word, z: word)
    ensures CodeF(t, x, y, z) == F(t, x, y, z)
  {
    Joins(x, y, z);
  }

  lemma CodeTempIs(v: Hash, t: nat, w: word)
    ensures CodeTemp(v, t, w) == Temp(v, t, w)
  {
    hide Rotl, F, CodeF, K, Plus;
    CodeFIs(t, v.b, v.c, v.d);
  }

  // ---------------------------------------------------------------- the end of a message

  /** The code computes the length in bits in 32 bits: its high word is always 0, as it should be below 2^29 bytes. */
  lemma LengthField(n: nat)
    ensures LengthHigh(n) == 0 <==> n < 0x2000_0000
  {
  }

  /** The 64 bytes `pad`. */
  function PadBlock(): (p: octets)
    ensures |p| == 64
  {
    [0x80] + seq(63, _ => 0)
  }

  lemma PadPrefix(n: nat)
    requires 1 <= n <= 64
    ensures PadBlock()[..n] == Padding(n)
  {
  }

  /** SHA1_Final: the digest of the message padded with the length that the code computes. */
  method Final(ctx: Context, ghost m: octets) returns (md: octets)
    requires ctx.Holds(m)
    modifies ctx`size, ctx`total, ctx.h, ctx.buffer
    ensures md == Digest(HashOf(Padded(m, 0, LengthLow(|m|))))
  {
    hide HashOf, Compress, Digest, WordOctets, LengthLow, Padded, Bits32, Padding, PadBlock;
    var bits := Bits32(ctx.total);
    TotalBits(|m|);
    var amount := if ctx.size < 56 then 56 - ctx.size else 64 + 56 - ctx.size;
    PadPrefix(amount);
    PaddedSize(m);
    ctx.Update(PadBlock()[..amount], m);
    LastBlock(ctx, m + Padding(amount), bits);
    WholePadded(m, amount, bits);
    DigestIs(ctx.Value());
    md := WordOctets(ctx.h[0]) + WordOctets(ctx.h[1]) + WordOctets(ctx.h[2]) + WordOctets(ctx.h[3]) + WordOctets(ctx.h[4]);
  }

  lemma LastSplit(padded: octets, length: octets)
    requires |padded| % 64 == 56 && |length| == 8
    ensures var head, tail := padded[..|padded| - 56], padded[|padded| - 56..];
            && |head| % 64 == 0 && |tail + length| == 64 && |padded + length| % 64 == 0
            && padded == head + tail && padded + length == head + (tail + length)
  {
  }

  /** The length completes the last block. */
  method LastBlock(ctx: Context, ghost padded: octets, low: word)
    requires ctx.Holds(padded) && |padded| % 64 == 56
    modifies ctx.h, ctx.buffer
    ensures |padded + (WordOctets(0) + WordOctets(low))| % 64 == 0
    ensures ctx.Value() == HashOf(padded + (WordOctets(0) + WordOctets(low)))
  {
    hide HashOf, Compress, WordOctets;
    ghost var head, tail := padded[..|padded| - 56], padded[|padded| - 56..];
    ghost var length := WordOctets(0) + WordOctets(low);
    LastSplit(padded, length);
    ctx.PutLength(0, low);
    assert ctx.buffer[..] == tail + length;
    ctx.ProcessBlock();
    OneMore(head, tail + length);
  }

  /** `total * 8` in an unsigned int. */
  function Bits32(total: nat): word {
    (total * 8 % 0x1_0000_0000) as word
  }

  lemma TotalBits(n: nat)
    ensures LengthLow(n) == Bits32(n % 0x1_0000_0000)
  {
    var q, r := n / 0x1_0000_0000, n % 0x1_0000_0000;
    assert 8 * n == 8 * r + (8 * q) * 0x1_0000_0000;
    Wrap(8 * r, 8 * q);
  }

  lemma Wrap(a: nat, k: nat)
    ensures (a + k * 0x1_0000_0000) % 0x1_0000_0000 == a % 0x1_0000_0000
  {
  }

  lemma PaddedSize(m: octets)
    ensures |m + Padding(PadAmount(|m| % 64))| % 64 == 56
  {
  }

  lemma DigestIs(h: Hash)
    ensures Digest(h) == WordOctets(h.a) + WordOctets(h.b) + WordOctets(h.c) + WordOctets(h.d) + WordOctets(h.e)
  {
  }

  lemma WholePadded(m: octets, amount: nat, low: word)
    requires amount == PadAmount(|m| % 64)
    ensures m + Padding(amount) + (WordOctets(0) + WordOctets(low)) == Padded(m, 0, low)
  {
    hide WordOctets, Padding;
  }

  lemma ShortMessage(m: octets)
    requires |m| < 0x2000_0000
    ensures Sha1(m) == Digest(HashOf(Padded(m, 0, LengthLow(|m|))))
  {
    LengthField(|m|);
    assert 0 as word == 0;
    hide HashOf, Digest, Padded, LengthLow;
  }

  method UpdateAll(ctx: Context, parts: seq<octets>)
    requires ctx.Holds([])
    modifies ctx`size, ctx`total, ctx.h, ctx.buffer
    ensures ctx.Holds(Joined(parts))
  {
    hide HashOf;
    var i := 0;
    ghost var m: octets := [];
    while i < |parts|
      invariant i <= |parts| && m == JoinedTo(parts, i) && ctx.Holds(m)
    {
      ctx.Update(parts[i], m);
      m := m + parts[i];
      i := i + 1;
    }
  }

  /** Init, any number of Updates, Final. */
  method HashParts(parts: seq<octets>) returns (md: octets)
    requires |Joined(parts)| < 0x2000_0000
    ensures md == Sha1(Joined(parts))
  {
    hide HashOf, Digest, Padded, LengthLow, LengthHigh, Sha1, Joined;
    var ctx := new Context();
    UpdateAll(ctx, parts);
    ShortMessage(Joined(parts));
    md := Final(ctx, Joined(parts));
  }

  ghost function Joined(parts: seq<octets>): octets {
    JoinedTo(parts, |parts|)
  }

  ghost function JoinedTo(parts: seq<octets>, n: nat): octets
    requires n <= |parts|
  {
    if n == 0 then [] else JoinedTo(parts, n - 1) + parts[n - 1]
  }
}
