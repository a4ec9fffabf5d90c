/** SHA-1 as FIPS 180-4 states it: sections 3.2 and 4.1.1 (operations),
    4.2.1 (constants), 5.1.1 (padding), 5.3.1 (initial value) and 6.1.2 (the
    hash computation, with a full 80-word schedule and shifting registers). */
module Sha1Spec {
  import opened Bits

  type Word = bv32
  type Octet = bv8

  function Rol1(x: Word): Word { (x << 1) | (x >> 31) }
  function Rol5(x: Word): Word { (x << 5) | (x >> 27) }
  function Rol30(x: Word): Word { (x << 30) | (x >> 2) }

  function Ch(x: Word, y: Word, z: Word): Word { (x & y) ^ (!x & z) }
  function Parity(x: Word, y: Word, z: Word): Word { x ^ y ^ z }
  function Maj(x: Word, y: Word, z: Word): Word { (x & y) ^ (x & z) ^ (y & z) }

  function F(t: nat, x: Word, y: Word, z: Word): Word {
    if t < 20 then Ch(x, y, z)
    else if t < 40 then Parity(x, y, z)
    else if t < 60 then Maj(x, y, z)
    else Parity(x, y, z)
  }

  function K(t: nat): Word {
    if t < 20 then 0x5A827999
    else if t < 40 then 0x6ED9EBA1
    else if t < 60 then 0x8F1BBCDC
    else 0xCA62C1D6
  }

  /** The next schedule word from those before it. */
  function Next(w: seq<Word>): Word
    requires |w| >= 16
  {
    var n := |w|;
    Rol1(w[n - 3] ^ w[n - 8] ^ w[n - 14] ^ w[n - 16])
  }

  /** The first n words of the message schedule of a block. */
  function Schedule(m: seq<Word>, n: nat): (w: seq<Word>)
    requires |m| == 16 <= n
    ensures |w| == n
  {
    if n == 16 then m
    else
      var w := Schedule(m, n - 1);
      w + [Next(w)]
  }

  datatype Regs = Regs(a: Word, b: Word, c: Word, d: Word, e: Word)

  function Plus5(p: Word, q: Word, r: Word, s: Word, t: Word): Word { p + q + r + s + t }

  function Temp(t: nat, r: Regs, w: Word): Word {
    Plus5(Rol5(r.a), F(t, r.b, r.c, r.d), r.e, K(t), w)
  }

  function Step(t: nat, r: Regs, w: Word): Regs {
    Regs(Temp(t, r, w), r.a, Rol30(r.b), r.c, r.d)
  }

  function Rounds(h: Regs, w: seq<Word>, t: nat): Regs
    requires t <= |w|
  {
    if t == 0 then h else Step(t - 1, Rounds(h, w, t - 1), w[t - 1])
  }

  function Plus(x: Word, y: Word): Word { x + y }

  function AddRegs(h: Regs, r: Regs): Regs {
    Regs(Plus(h.a, r.a), Plus(h.b, r.b), Plus(h.c, r.c), Plus(h.d, r.d), Plus(h.e, r.e))
  }

  /** Four bytes, most significant first. */
  function BigEndian(b0: Octet, b1: Octet, b2: Octet, b3: Octet): Word {
    ((b0 as Word) << 24) | ((b1 as Word) << 16) | ((b2 as Word) << 8) | (b3 as Word)
  }

  function BlockWords(block: seq<Octet>): (m: seq<Word>)
    requires |block| == 64
    ensures |m| == 16
  {
    seq(16, i requires 0 <= i < 16 =>
      BigEndian(block[4 * i], block[4 * i + 1], block[4 * i + 2], block[4 * i + 3]))
  }

  function Compress(h: Regs, block: seq<Octet>): Regs
    requires |block| == 64
  {
    AddRegs(h, Rounds(h, Schedule(BlockWords(block), 80), 80))
  }

  /** The hash value after every whole 64-byte block of s, in order. */
  function Fold(h: Regs, s: seq<Octet>): Regs
    requires |s| % 64 == 0
  {
    if s == [] then h else Compress(Fold(h, s[..|s| - 64]), s[|s| - 64..])
  }

  const INITIAL := Regs(0x67452301, 0xEFCDAB89, 0x98BADCFE, 0x10325476, 0xC3D2E1F0)

  /** How many zero bytes bring n + 1 bytes to 56 modulo 64. */
  function ZeroCount(n: nat): (k: nat)
    ensures k < 64 && (n + 1 + k) % 64 == 56
  {
    (119 - n % 64) % 64
  }

  /** Byte k of a number, least significant first. */
  function ByteAt(n: nat, k: nat): Octet {
    if k == 0 then (n % 256) as Octet else ByteAt(n / 256, k - 1)
  }

  /** The message length in bits, as a 64-bit big-endian number. */
  function LengthBytes(n: nat): (s: seq<Octet>)
    ensures |s| == 8
  {
    var bits := (8 * n) % 0x1_0000_0000_0000_0000;
    seq(8, i requires 0 <= i < 8 => ByteAt(bits, 7 - i))
  }

  lemma PadLength(n: nat)
    ensures (n + 1 + ZeroCount(n) + 8) % 64 == 0
  {
  }

  function Pad(m: seq<Octet>): (p: seq<Octet>)
    ensures |p| == |m| + 1 + ZeroCount(|m|) + 8
    ensures |p| % 64 == 0
  {
    PadLength(|m|);
    m + [0x80] + Repeat<Octet>(0, ZeroCount(|m|)) + LengthBytes(|m|)
  }

  function WordByte(x: Word, k: nat): Octet
    requires k < 4
  {
    if k == 0 then ((x >> 24) & 0xFF) as Octet
    else if k == 1 then ((x >> 16) & 0xFF) as Octet
    else if k == 2 then ((x >> 8) & 0xFF) as Octet
    else (x & 0xFF) as Octet
  }

  function RegAt(r: Regs, i: nat): Word
    requires i < 5
  {
    if i == 0 then r.a else if i == 1 then r.b else if i == 2 then r.c
    else if i == 3 then r.d else r.e
  }

  function DigestBytes(r: Regs): (d: seq<Octet>)
    ensures |d| == 20
  {
    seq(20, i requires 0 <= i < 20 => WordByte(RegAt(r, i / 4), i % 4))
  }

  function Digest(m: seq<Octet>): (d: seq<Octet>)
    ensures |d| == 20
  {
    DigestBytes(Fold(INITIAL, Pad(m)))
  }
}
