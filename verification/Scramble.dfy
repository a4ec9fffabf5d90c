/** The two password scrambles: the 4.1 challenge response built on SHA-1 and
    the old eight-byte one. */
module Scramble {
  import opened Bits
  import opened OldPassword
  import S = Sha1Spec
  import opened Sha1
  import opened Doubles

  // ---- 4.1 challenge response

  function XorByte(a: bv8, b: bv8): bv8 { a ^ b }

  function XorBytes(a: seq<bv8>, b: seq<bv8>): (c: seq<bv8>)
    requires |a| == |b|
    ensures |c| == |a|
  {
    seq(|a|, i requires 0 <= i < |a| => XorByte(a[i], b[i]))
  }

  /** What the server expects: SHA1(password) masked by SHA1(salt, h2), where
      h2 = SHA1(SHA1(password)) is all the server stores. */
  function Token(salt: seq<bv8>, passwd: seq<bv8>): (t: seq<bv8>)
    ensures |t| == 20
  {
    XorBytes(S.Digest(passwd), S.Digest(salt + S.Digest(S.Digest(passwd))))
  }

  method Cooksalt(cooked: array<bv8>, salt: seq<bv8>, passwd: seq<bv8>)
    requires cooked.Length == 20 && |salt| < TWO32 && |passwd| < TWO32
    modifies cooked
    ensures cooked[..] == Token(salt, passwd)
  {
    hide S.Digest, XorBytes;
    var sha := new Sha1Ctx();
    var hash1, hash2 := new bv8[20], new bv8[20];

    HashOne(sha, hash1, passwd);
    HashOne(sha, hash2, hash1[..]);

    // hash2 is both the last input and the output
    HashTwo(sha, hash2, salt);

    XorInto(cooked, hash1, hash2);
  }

  /** Init, one Update and Final on a context of any earlier contents. */
  method HashOne(sha: Sha1Ctx, digest: array<bv8>, data: seq<bv8>)
    requires sha.Shape() && digest.Length == 20 && digest != sha.buffer && |data| < TWO32
    modifies sha, sha.state, sha.buffer, digest
    ensures digest[..] == S.Digest(data)
  {
    hide S.Digest, Sha1Ctx.Absorbed;
    sha.SHA1Init();
    sha.SHA1Update(data, []);
    assert [] + data == data;
    sha.SHA1Final(digest, data);
  }

  /** Init, two Updates and Final: the array is read by the second Update and
      overwritten by Final. */
  method HashTwo(sha: Sha1Ctx, hash: array<bv8>, first: seq<bv8>)
    requires sha.Shape() && hash.Length == 20 && hash != sha.buffer && |first| < TWO32
    modifies sha, sha.state, sha.buffer, hash
    ensures hash[..] == S.Digest(first + old(hash[..]))
  {
    hide S.Digest, Sha1Ctx.Absorbed;
    sha.SHA1Init();
    sha.SHA1Update(first, []);
    assert [] + first == first;
    sha.SHA1Update(hash[..], first);
    sha.SHA1Final(hash, first + old(hash[..]));
  }

  method XorInto(cooked: array<bv8>, hash1: array<bv8>, hash2: array<bv8>)
    requires cooked.Length == hash1.Length == hash2.Length == 20
    requires cooked != hash1 && cooked != hash2
    modifies cooked
    ensures cooked[..] == XorBytes(hash1[..], hash2[..])
  {
    hide XorByte;
    for i := 0 to 20
      invariant forall k :: 0 <= k < i ==> cooked[k] == XorByte(hash1[k], hash2[k])
    {
      cooked[i] := XorByte(hash1[i], hash2[i]);
    }
  }

  lemma XorBack(a: bv8, b: bv8, c: bv8)
    ensures XorByte(XorByte(a, b), b) == a
    ensures XorByte(c, b) == a <==> c == XorByte(a, b)
  {
  }

  lemma XorBytesBack(a: seq<bv8>, b: seq<bv8>, c: seq<bv8>)
    requires |a| == |b| == |c|
    ensures XorBytes(XorBytes(a, b), b) == a
    ensures XorBytes(c, b) == a <==> c == XorBytes(a, b)
  {
    hide XorByte;
    forall i | 0 <= i < |a|
      ensures XorByte(XorByte(a[i], b[i]), b[i]) == a[i]
      ensures XorByte(c[i], b[i]) == a[i] <==> c[i] == XorByte(a[i], b[i])
    {
      XorBack(a[i], b[i], c[i]);
    }
    if XorBytes(c, b) == a {
      assert forall i :: 0 <= i < |a| ==> a[i] == XorBytes(c, b)[i];
    }
  }

  /** A server holding only h2 undoes the mask of any token; what it obtains
      is SHA1(password) exactly when the token is the one Cooksalt computes,
      and then hashes to h2. */
  lemma ServerAccepts(salt: seq<bv8>, passwd: seq<bv8>, h2: seq<bv8>, token: seq<bv8>)
    requires h2 == S.Digest(S.Digest(passwd)) && |token| == 20
    ensures var recovered := XorBytes(token, S.Digest(salt + h2));
            && (recovered == S.Digest(passwd) <==> token == Token(salt, passwd))
            && (token == Token(salt, passwd) ==> S.Digest(recovered) == h2)
  {
    hide S.Digest, XorBytes;
    XorBytesBack(S.Digest(passwd), S.Digest(salt + h2), token);
  }

  // ---- The old scramble

  /** Arithmetic of a 32-bit unsigned long. */
  function Wrap(x: nat): nat { x % 0x1_0000_0000 }

  class RandStruct {
    var seed1: nat
    var seed2: nat
    const maxValue := MAX_VALUE

    ghost predicate Valid()
      reads this
    {
      seed1 < MAX_VALUE && seed2 < MAX_VALUE
    }

    constructor RandomInit(s1: nat, s2: nat)
      ensures Valid() && seed1 == s1 % MAX_VALUE && seed2 == s2 % MAX_VALUE
    {
      seed1, seed2 := s1 % MAX_VALUE, s2 % MAX_VALUE;
    }

    /** No intermediate result leaves 32 bits, so the wrap never shows. The
        result is the rounded quotient. */
    method MyRnd(fl: real -> real) returns (r: real)
      requires Valid()
      modifies this
      ensures Valid()
      ensures seed1 == (3 * old(seed1) + old(seed2)) % 0x3FFF_FFFF
      ensures seed2 == (3 * old(seed1) + 2 * old(seed2) + 33) % 0x3FFF_FFFF
      ensures (seed1, seed2) == NextSeeds(old(seed1), old(seed2))
      ensures r == fl(seed1 as real / MAX_VALUE as real)
    {
      hide Wrap, NextSeeds;
      OneDraw(seed1, seed2);
      seed1 := Wrap(Wrap(seed1 * 3) + seed2) % maxValue;
      seed2 := Wrap(Wrap(seed1 + seed2) + 33) % maxValue;
      r := fl(seed1 as real / maxValue as real);
    }
  }

  lemma NoWrap(s1: nat, s2: nat)
    requires s1 < MAX_VALUE && s2 < MAX_VALUE
    ensures Wrap(Wrap(s1 * 3) + s2) == 3 * s1 + s2
    ensures Wrap(Wrap((3 * s1 + s2) % MAX_VALUE + s2) + 33) == (3 * s1 + s2) % MAX_VALUE + s2 + 33
  {
  }

  /** The residue of a sum with one residue in it. */
  lemma ResidueSum(x: nat, y: nat)
    ensures (x % MAX_VALUE + y) % MAX_VALUE == (x + y) % MAX_VALUE
  {
    var q, r := x / MAX_VALUE, (x % MAX_VALUE + y) / MAX_VALUE;
    Residue(x + y, q + r, (x % MAX_VALUE + y) % MAX_VALUE);
  }

  lemma Residue(x: nat, q: nat, r: nat)
    requires x == q * MAX_VALUE + r && r < MAX_VALUE
    ensures x % MAX_VALUE == r
  {
  }

  lemma OneDraw(s1: nat, s2: nat)
    requires s1 < MAX_VALUE && s2 < MAX_VALUE
    ensures var a := Wrap(Wrap(s1 * 3) + s2) % MAX_VALUE; var b := Wrap(Wrap(a + s2) + 33) % MAX_VALUE;
            && a == (3 * s1 + s2) % 0x3FFF_FFFF && b == (3 * s1 + 2 * s2 + 33) % 0x3FFF_FFFF
            && (a, b) == NextSeeds(s1, s2)
  {
    hide Wrap;
    NoWrap(s1, s2);
    ResidueSum(3 * s1 + s2, s2 + 33);
  }

  function NextSeeds(s1: nat, s2: nat): (t: (nat, nat))
    ensures t.0 < MAX_VALUE && t.1 < MAX_VALUE
  {
    var t1 := (3 * s1 + s2) % MAX_VALUE;
    (t1, (t1 + s2 + 33) % MAX_VALUE)
  }

  /** The seeds after n draws. */
  function Seeds(s: (nat, nat), n: nat): (t: (nat, nat))
    requires s.0 < MAX_VALUE && s.1 < MAX_VALUE
    ensures t.0 < MAX_VALUE && t.1 < MAX_VALUE
  {
    if n == 0 then s
    else
      var p := Seeds(s, n - 1);
      NextSeeds(p.0, p.1)
  }

  /** The n-th draw, floor(31 * seed1 / max), counted from 1. */
  function Draw(s: (nat, nat), n: nat): (d: nat)
    requires s.0 < MAX_VALUE && s.1 < MAX_VALUE
    ensures d < 31
  {
    31 * Seeds(s, n).0 / MAX_VALUE
  }

  function OldSeeds(passwd: seq<byte>, salt: seq<byte>, w: nat): (s: (nat, nat))
    ensures s.0 < MAX_VALUE && s.1 < MAX_VALUE
  {
    var p, q := OldHash(passwd, w), OldHash(salt, w);
    (Xor(p.0, q.0) % MAX_VALUE, Xor(p.1, q.1) % MAX_VALUE)
  }

  /** Byte i of the old scramble. */
  function OldByte(s: (nat, nat), i: nat): nat
    requires s.0 < MAX_VALUE && s.1 < MAX_VALUE
  {
    Xor(Draw(s, i + 1) + 64, Draw(s, 9))
  }

  /** Clearing bits above the fifth is impossible for values below 32, so the
      final exclusive or keeps a byte of 64..94 within 64..95. */
  lemma OldByteRange(a: nat, e: nat)
    requires a < 31 && e < 31
    ensures 64 <= Xor(a + 64, e) <= 95
  {
    hide Xor;
    assert Pow2(5) == 32;
    var x := Xor(a + 64, e);
    XorHigh(a + 64, e, 5);
    High5(a + 64);
    High5(e);
    XorTwo();
    Split(x, 5);
  }

  lemma High5(a: nat)
    ensures High(a, 5) == a / 32
  {
    Split(a, 5);
    assert Pow2(5) == 32;
  }

  lemma XorTwo()
    ensures Xor(2, 0) == 2
  {
    assert Xor(1, 0) == 1;
  }

  /** One draw: fl rounds its two double operations. */
  method NextFloor(st: RandStruct, fl: real -> real, ghost s: (nat, nat), ghost n: nat) returns (d: nat)
    requires IsRounding(fl) && st.Valid() && s.0 < MAX_VALUE && s.1 < MAX_VALUE
    requires (st.seed1, st.seed2) == Seeds(s, n)
    modifies st
    ensures st.Valid() && (st.seed1, st.seed2) == Seeds(s, n + 1)
    ensures d == Draw(s, n + 1)
  {
    hide Seeds, NextSeeds, IsRounding;
    var r := st.MyRnd(fl);
    NextDraw(s, n, fl);
    d := fl(r * 31.0).Floor;
  }

  /** fl rounds the two double operations of a draw. */
  method CooksaltOld(cooked: array<byte>, salt: seq<byte>, passwd: seq<byte>, w: nat, fl: real -> real)
    returns (end: nat)
    requires IsRounding(fl)
    requires cooked.Length == 9 && |salt| == 8 && 0 !in passwd
    modifies cooked
    ensures end == (if passwd == [] then 0 else 8) && cooked[end] == 0
    ensures passwd != [] ==> forall i :: 0 <= i < 8 ==>
              cooked[i] == OldByte(OldSeeds(passwd, salt, w), i) && 64 <= cooked[i] <= 95
    ensures passwd == [] ==> cooked[1..] == old(cooked[1..])
  {
    hide Xor, OldHash, Seeds, NextSeeds, IsRounding;
    end := 0;
    if passwd != [] {
      var p0, p1 := HashOldPassword(passwd, w);
      var q0, q1 := HashOldPassword(salt, w);
      var st := new RandStruct.RandomInit(Xor(p0, q0), Xor(p1, q1));
      ghost var s := OldSeeds(passwd, salt, w);
      FirstSeeds(s);
      while end < 8
        invariant end <= 8 && st.Valid() && (st.seed1, st.seed2) == Seeds(s, end)
        invariant forall k :: 0 <= k < end ==> cooked[k] == Draw(s, k + 1) + 64
      {
        var d := NextFloor(st, fl, s, end);
        cooked[end] := d + 64;
        end := end + 1;
      }
      var extra := NextFloor(st, fl, s, 8);
      var start := 0;
      while start != end
        invariant start <= end == 8 && extra == Draw(s, 9)
        invariant forall k :: 0 <= k < start ==> cooked[k] == OldByte(s, k) && 64 <= cooked[k] <= 95
        invariant forall k :: start <= k < 8 ==> cooked[k] == Draw(s, k + 1) + 64
      {
        OldByteRange(Draw(s, start + 1), extra);
        cooked[start] := Xor(cooked[start], extra);
        start := start + 1;
      }
    }
    cooked[end] := 0;
  }

  lemma FirstSeeds(s: (nat, nat))
    requires s.0 < MAX_VALUE && s.1 < MAX_VALUE
    ensures Seeds(s, 0) == s
  {
  }

  lemma NextDraw(s: (nat, nat), n: nat, fl: real -> real)
    requires s.0 < MAX_VALUE && s.1 < MAX_VALUE && IsRounding(fl)
    ensures Seeds(s, n + 1) == NextSeeds(Seeds(s, n).0, Seeds(s, n).1)
    ensures fl(fl(Seeds(s, n + 1).0 as real / MAX_VALUE as real) * 31.0).Floor == Draw(s, n + 1)
  {
    hide Nearest;
    var x := Seeds(s, n + 1).0 as real / MAX_VALUE as real;
    RoundedDraw(Seeds(s, n + 1).0, fl(x), fl(fl(x) * 31.0));
  }
}
