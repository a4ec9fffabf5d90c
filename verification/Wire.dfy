/** Reading little-endian numbers and byte runs out of an event or packet.
    A read that would leave the given bytes is undefined in the C code; here it
    is the outcome ReadPastEnd. */
module Wire {
  import opened Bits

  datatype Fault =
    | ReadPastEnd      // a read outside the bytes of the event
    | CutShort         // the file ends inside an event, whose bytes are then indeterminate
    | AssertFailed     // an assert of the source fails and the process aborts
    | BufferOverflow   // a write outside a fixed-size buffer
    | Diverges         // a loop of the source never ends
    | SignedOverflow   // a signed number leaves its type
    | Unset            // a variable or pointer is used that was never set
    | Unsupported      // decimal.c is not part of this model

  datatype Outcome<+T> = Done(value: T) | Fail(why: Fault) {
    predicate IsFailure() { Fail? }
    function PropagateFailure<U>(): Outcome<U>
      requires Fail?
    {
      Fail(why)
    }
    function Extract(): T
      requires Done?
    {
      value
    }
  }

  datatype Option<+T> = None | Some(value: T)

  // ---- Numbers

  function Pow256(k: nat): (p: nat)
    ensures p > 0
  {
    if k == 0 then 1 else 256 * Pow256(k - 1)
  }

  /** The number a little-endian machine reads from these bytes. */
  function Le(s: seq<byte>): (n: nat) {
    if s == [] then 0 else s[0] + 256 * Le(s[1..])
  }

  /** The low k bytes of n, least significant first. */
  function Enc(n: nat, k: nat): (s: seq<byte>)
    ensures |s| == k
  {
    if k == 0 then [] else [n % 256] + Enc(n / 256, k - 1)
  }

  lemma {:induction false} LeEnc(n: nat, k: nat)
    requires n < Pow256(k)
    ensures Le(Enc(n, k)) == n
  {
    if k > 0 {
      LeEnc(n / 256, k - 1);
      assert Enc(n, k)[1..] == Enc(n / 256, k - 1);
    }
  }

  lemma {:induction false} LeBound(s: seq<byte>)
    ensures Le(s) < Pow256(|s|)
  {
    if s != [] { LeBound(s[1..]); }
  }

  lemma {:induction false} EncLe(s: seq<byte>)
    ensures Enc(Le(s), |s|) == s
  {
    if s != [] {
      EncLe(s[1..]);
      FirstByte(s[0], Le(s[1..]));
      assert Enc(Le(s), |s|) == [s[0]] + Enc(Le(s[1..]), |s| - 1);
    }
  }

  lemma FirstByte(b: byte, n: nat)
    ensures (b + 256 * n) % 256 == b && (b + 256 * n) / 256 == n
  {
  }

  lemma PowValues()
    ensures Pow256(1) == 0x100 && Pow256(2) == 0x1_0000 && Pow256(3) == 0x100_0000
    ensures Pow256(4) == 0x1_0000_0000 && Pow256(6) == 0x1_0000_0000_0000
    ensures Pow256(8) == 0x1_0000_0000_0000_0000
  {
    assert Pow256(5) == 0x100_0000_0000;
    assert Pow256(7) == 0x100_0000_0000_0000;
  }

  /** The value of a two's-complement number of k bytes. */
  function Signed(n: nat, k: nat): int
    requires k > 0
  {
    if n < 128 * Pow256(k - 1) then n else n - Pow256(k)
  }

  /** The two's-complement pattern of z in k bytes. */
  function Pattern(z: int, k: nat): (n: nat)
    requires k > 0 && -128 * Pow256(k - 1) <= z < 128 * Pow256(k - 1)
    ensures n < Pow256(k)
    ensures Signed(n, k) == z
  {
    if z >= 0 then z else z + Pow256(k)
  }

  /** The macro getInt24: two unsigned low bytes and a sign-extended high one. */
  function GetInt24(s: seq<byte>): int
    requires |s| == 3
  {
    var a: int, b: int, c: int := s[0], s[1], s[2];
    a + 256 * b + 65536 * (if c < 128 then c else c - 256)
  }

  lemma GetInt24IsSigned(s: seq<byte>)
    requires |s| == 3
    ensures GetInt24(s) == Signed(Le(s), 3)
  {
    Le3(s);
    PowValues();
  }

  lemma Le3(s: seq<byte>)
    requires |s| == 3
    ensures Le(s) == s[0] as int + 256 * s[1] as int + 65536 * s[2] as int
  {
    assert s[1..][1..] == [s[2]];
    assert Le([s[2]]) == s[2];
  }

  /** The macro getUint48, the sum of six shifted bytes. */
  function GetUint48(s: seq<byte>): nat
    requires |s| == 6
  {
    var a: nat, b: nat, c: nat, d: nat, e: nat, f: nat := s[0], s[1], s[2], s[3], s[4], s[5];
    a + b * 0x100 + c * 0x1_0000 + d * 0x100_0000 + e * 0x1_0000_0000 + f * 0x100_0000_0000
  }

  lemma GetUint48IsLe(s: seq<byte>)
    requires |s| == 6
    ensures GetUint48(s) == Le(s)
  {
    assert s[3..] == s[1..][1..][1..];
    Le3(s[3..]);
    assert Le(s[1..][1..]) == s[2] + 256 * Le(s[3..]);
    assert Le(s[1..]) == s[1] + 256 * Le(s[1..][1..]);
  }

  // ---- Positions in a byte sequence

  function Take(ev: seq<byte>, cur: nat, n: nat): Outcome<seq<byte>> {
    if cur + n <= |ev| then Done(ev[cur..cur + n]) else Fail(ReadPastEnd)
  }

  function TakeUint(ev: seq<byte>, cur: nat, k: nat): Outcome<nat> {
    var s :- Take(ev, cur, k);
    Done(Le(s))
  }

  /** `s` stands at offset `cur` of `ev`. */
  ghost predicate At(ev: seq<byte>, cur: nat, s: seq<byte>) {
    cur + |s| <= |ev| && ev[cur..cur + |s|] == s
  }

  lemma AtSplit(ev: seq<byte>, cur: nat, s: seq<byte>, t: seq<byte>)
    requires At(ev, cur, s + t)
    ensures At(ev, cur, s) && At(ev, cur + |s|, t)
  {
    assert ev[cur..cur + |s|] == (s + t)[..|s|];
    assert ev[cur + |s|..cur + |s| + |t|] == (s + t)[|s|..];
  }

  lemma TakeAt(ev: seq<byte>, cur: nat, s: seq<byte>)
    requires At(ev, cur, s)
    ensures Take(ev, cur, |s|) == Done(s)
  {
  }

  lemma TakeUintAt(ev: seq<byte>, cur: nat, n: nat, k: nat)
    requires At(ev, cur, Enc(n, k)) && n < Pow256(k)
    ensures TakeUint(ev, cur, k) == Done(n)
  {
    TakeAt(ev, cur, Enc(n, k));
    LeEnc(n, k);
  }

  // ---- Length-coded integers

  /** decodeint: the value and the new cursor. */
  function DecodeInt(ev: seq<byte>, cur: nat): Outcome<(nat, nat)> {
    var v :- TakeUint(ev, cur, 1);
    if v < 251 then Done((v, cur + 1))
    else if v == 251 then Done((0, cur + 1))
    else if v == 252 then
      var n :- TakeUint(ev, cur + 1, 2);
      Done((n, cur + 3))
    else if v == 253 then
      var n :- TakeUint(ev, cur + 1, 3);
      Done((n, cur + 4))
    else if v == 254 then
      var n :- TakeUint(ev, cur + 1, 8);
      Done((n, cur + 9))
    else Done((0, cur + 1))
  }

  /** The shortest length-coded form of n. */
  function LenEnc(n: nat): seq<byte> {
    if n < 251 then [n]
    else if n < 0x1_0000 then [252] + Enc(n, 2)
    else if n < 0x100_0000 then [253] + Enc(n, 3)
    else [254] + Enc(n, 8)
  }

  lemma OneByte(b: byte)
    ensures [b] == Enc(b, 1)
  {
    assert Enc(b / 256, 0) == [];
  }

  lemma Tagged(ev: seq<byte>, cur: nat, tag: byte, n: nat, k: nat)
    requires At(ev, cur, [tag] + Enc(n, k)) && n < Pow256(k)
    ensures TakeUint(ev, cur, 1) == Done(tag)
    ensures TakeUint(ev, cur + 1, k) == Done(n)
  {
    AtSplit(ev, cur, [tag], Enc(n, k));
    OneByte(tag);
    PowValues();
    TakeUintAt(ev, cur, tag, 1);
    TakeUintAt(ev, cur + 1, n, k);
  }

  /** decodeint inverts the length-coded encoder on every 64-bit value,
      whatever bytes surround it. */
  lemma DecodeLenEnc(ev: seq<byte>, cur: nat, n: nat)
    requires n < 0x1_0000_0000_0000_0000 && At(ev, cur, LenEnc(n))
    ensures DecodeInt(ev, cur) == Done((n, cur + |LenEnc(n)|))
  {
    PowValues();
    if n < 251 {
      OneByte(n);
      TakeUintAt(ev, cur, n, 1);
    } else if n < 0x1_0000 {
      Tagged(ev, cur, 252, n, 2);
    } else if n < 0x100_0000 {
      Tagged(ev, cur, 253, n, 3);
    } else {
      Tagged(ev, cur, 254, n, 8);
    }
  }

  // ---- Bitmaps

  /** isSet: bit idx of a bitmap, low bit first. */
  predicate IsSet(bitmap: seq<byte>, idx: nat)
    requires idx / 8 < |bitmap|
  {
    High(bitmap[idx / 8], idx % 8) % 2 == 1
  }

  function BitLen(n: nat): nat { (n + 7) / 8 }

  function Bit(b: bool): nat { if b then 1 else 0 }

  /** Bit j of a byte. */
  predicate BitOf(b: byte, j: nat) { High(b, j) % 2 == 1 }

  /** Bits n to 7 of the padding byte. */
  function Padding(pad: byte, n: nat): (s: seq<bool>)
    requires n <= 8
    ensures |s| == 8 - n
  {
    seq(8 - n, j requires 0 <= j < 8 - n => BitOf(pad, n + j))
  }

  /** The bits as a bitmap; the unused bits of the last byte are those of
      `pad`. */
  function Bitmap(bits: seq<bool>, pad: byte): (s: seq<byte>)
    ensures |s| == BitLen(|bits|)
    decreases |bits|
  {
    PowEight();
    if bits == [] then []
    else if |bits| < 8 then [PackByte(bits + Padding(pad, |bits|))]
    else [PackByte(bits[..8])] + Bitmap(bits[8..], pad)
  }

  function PackByte(b: seq<bool>): (n: nat)
    ensures n < Pow2(|b|)
  {
    if b == [] then 0 else Bit(b[0]) + 2 * PackByte(b[1..])
  }

  lemma {:induction false} PackByteBit(b: seq<bool>, j: nat)
    requires j < |b|
    ensures High(PackByte(b), j) % 2 == Bit(b[j])
  {
    var n := PackByte(b);
    assert n / 2 == PackByte(b[1..]) && n % 2 == Bit(b[0]);
    if j > 0 { PackByteBit(b[1..], j - 1); }
  }

  lemma PowEight()
    ensures Pow2(8) == 256
  {
    assert Pow2(4) == 16;
  }

  lemma {:induction false} BitmapIsSet(bits: seq<bool>, pad: byte, i: nat)
    requires i < |bits|
    ensures IsSet(Bitmap(bits, pad), i) == bits[i]
    decreases |bits|
  {
    hide PackByte, High;
    if |bits| < 8 {
      PackByteBit(bits + Padding(pad, |bits|), i);
    } else if i < 8 {
      PackByteBit(bits[..8], i);
    } else {
      BitmapIsSet(bits[8..], pad, i - 8);
      assert (i - 8) / 8 == i / 8 - 1 && (i - 8) % 8 == i % 8;
    }
  }
}
