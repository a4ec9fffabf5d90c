/** The streaming interface: SHA1Init, SHA1Update and SHA1Final over a context
    with a 64-byte buffer and a bit count split over two 32-bit words. */
module Sha1 {
  import opened Bits
  import opened Sha1Spec
  import opened Sha1Transform

  const TWO64 := 0x1_0000_0000_0000_0000

  function Whole(n: nat): (k: nat)
    ensures k <= n && k % 64 == 0 && n - k == n % 64
  {
    n - n % 64
  }

  lemma FoldSnoc(h: Regs, s: seq<Octet>, block: seq<Octet>)
    requires |s| % 64 == 0 && |block| == 64
    ensures |s + block| % 64 == 0
    ensures Fold(h, s + block) == Compress(Fold(h, s), block)
  {
    hide Compress;
    var t := s + block;
    assert t[..|t| - 64] == s && t[|t| - 64..] == block;
  }

  lemma FoldNext(h: Regs, m: seq<Octet>, k: nat)
    requires k % 64 == 0 && k + 64 <= |m|
    ensures (k + 64) % 64 == 0
    ensures Fold(h, m[..k + 64]) == Compress(Fold(h, m[..k]), m[k..k + 64])
  {
    hide Compress;
    FoldSnoc(h, m[..k], m[k..k + 64]);
    assert m[..k] + m[k..k + 64] == m[..k + 64];
  }

  /** The two count words together hold the bit length modulo 2^64. */
  ghost predicate Counts(lo: nat, hi: nat, n: nat) {
    lo < TWO32 && hi < TWO32 && hi * TWO32 + lo == (8 * n) % TWO64
  }

  lemma CountsLow(lo: nat, hi: nat, n: nat)
    requires Counts(lo, hi, n)
    ensures lo == (8 * n) % TWO32
  {
    var q := (8 * n) / TWO64;
    assert 8 * n == q * TWO64 + (hi * TWO32 + lo);
    ModUnique32(8 * n, q * TWO32 + hi, lo);
  }

  lemma ModUnique32(x: nat, q: nat, r: nat)
    requires x == q * TWO32 + r && r < TWO32
    ensures x % TWO32 == r && x / TWO32 == q
  {
  }

  lemma CountsIndex(lo: nat, hi: nat, n: nat)
    requires Counts(lo, hi, n)
    ensures lo / 8 % 64 == n % 64
  {
    hide Counts;
    CountsLow(lo, hi, n);
    var q := (8 * n) / TWO32;
    var k := n - q * 0x2000_0000;
    assert lo == 8 * k;
    ModShift(k, q * 0x80_0000);
  }

  lemma ModShift(k: nat, j: nat)
    ensures (k + 64 * j) % 64 == k % 64
  {
  }

  /** Adding len << 3 with a carry, and len >> 29, counts len more bytes. */
  lemma CountsAdd(lo: nat, hi: nat, n: nat, len: nat)
    requires Counts(lo, hi, n) && len < TWO32
    ensures var lo' := (lo + (8 * len) % TWO32) % TWO32;
            var carry := if lo' < lo then 1 else 0;
            Counts(lo', (hi + carry + len / 0x2000_0000) % TWO32, n + len)
  {
    var add := (8 * len) % TWO32;
    var lo' := (lo + add) % TWO32;
    var carry := if lo' < lo then 1 else 0;
    assert lo + add == carry * TWO32 + lo';
    assert 8 * len == (len / 0x2000_0000) * TWO32 + add;
    var top := hi + carry + len / 0x2000_0000;
    var hi' := top % TWO32;
    var q := (8 * n) / TWO64;
    assert 8 * n == q * TWO64 + hi * TWO32 + lo;
    assert top == (top / TWO32) * TWO32 + hi';
    assert 8 * (n + len) == (q + top / TWO32) * TWO64 + (hi' * TWO32 + lo');
    ModUnique(8 * (n + len), q + top / TWO32, hi' * TWO32 + lo');
  }

  /** The source reduces count[1] after each of its two additions. */
  lemma CarryTwice(hi: nat, b: nat)
    ensures ((hi + 1) % TWO32 + b) % TWO32 == (hi + 1 + b) % TWO32
  {
    ModUnique32(hi + 1, (hi + 1) / TWO32, (hi + 1) % TWO32);
    var x := (hi + 1) % TWO32 + b;
    ModUnique32(hi + 1 + b, (hi + 1) / TWO32 + x / TWO32, x % TWO32);
  }

  lemma PadUnique(n: nat, z: nat, k: nat)
    requires (n + 1 + z) % 64 == 56 && (n + 1 + k) % 64 == 56 && z <= k < 64
    ensures z == k
  {
  }

  lemma ModUnique(x: nat, q: nat, r: nat)
    requires x == q * TWO64 + r && r < TWO64
    ensures x % TWO64 == r
  {
  }

  class Sha1Ctx {
    const state: array<Word>
    var count0: nat
    var count1: nat
    const buffer: array<Octet>

    constructor ()
      ensures fresh(state) && fresh(buffer) && Shape()
    {
      state := new Word[5](_ => 0);
      buffer := new Octet[64](_ => 0);
      count0, count1 := 0, 0;
    }

    ghost predicate Shape() {
      state.Length == 5 && buffer.Length == 64
    }

    /** The context after Init and Updates whose bytes, joined, are m. */
    ghost predicate Absorbed(m: seq<Octet>)
      reads this, state, buffer
    {
      && Shape()
      && Counts(count0, count1, |m|)
      && RegsOf(state[..]) == Fold(INITIAL, m[..Whole(|m|)])
      && buffer[..|m| % 64] == m[Whole(|m|)..]
    }

    method SHA1Init()
      requires Shape()
      modifies this, state
      ensures Absorbed([])
    {
      state[0], state[1], state[2] := 0x67452301, 0xEFCDAB89, 0x98BADCFE;
      state[3], state[4] := 0x10325476, 0xC3D2E1F0;
      count0, count1 := 0, 0;
    }

    /** memcpy into the buffer at offset j. */
    method CopyIn(j: nat, data: seq<Octet>)
      requires Shape() && j + |data| <= 64
      modifies buffer
      ensures buffer[..] == old(buffer[..j]) + data + old(buffer[j + |data|..])
    {
      forall k | 0 <= k < |data| {
        buffer[j + k] := data[k];
      }
    }

    /** The count is advanced first; j is the old number of buffered bytes. */
    method AddCount(len: nat, ghost m: seq<Octet>) returns (j: nat)
      requires Counts(count0, count1, |m|) && len < TWO32
      modifies this
      ensures Counts(count0, count1, |m| + len)
      ensures j == |m| % 64
    {
      hide Counts;
      j := count0;
      CountsIndex(count0, count1, |m|);
      CountsAdd(count0, count1, |m|, len);
      CarryTwice(count1, len / 0x2000_0000);
      count0 := (count0 + (8 * len) % TWO32) % TWO32;
      if count0 < j {
        count1 := (count1 + 1) % TWO32;
      }
      count1 := (count1 + len / 0x2000_0000) % TWO32;
      j := j / 8 % 64;
    }

    ghost predicate Folded(all: seq<Octet>, k: nat)
      reads state
    {
      Shape() && k % 64 == 0 && k <= |all| && RegsOf(state[..]) == Fold(INITIAL, all[..k])
    }

    /** One more block of the message, wherever its bytes lie. */
    method NextBlock(block: seq<Octet>, ghost all: seq<Octet>, ghost k: nat)
      requires Folded(all, k) && k + 64 <= |all| && block == all[k..k + 64]
      modifies state
      ensures Folded(all, k + 64)
    {
      hide Fold, RegsOf, Compress;
      FoldNext(INITIAL, all, k);
      SHA1Transform(state, block);
    }

    /** Transforms the whole blocks of data from index i on. The test is
        made in 32 bits. */
    method WholeBlocks(data: seq<Octet>, i: nat, ghost all: seq<Octet>, ghost n: nat) returns (k: nat)
      requires i <= 64 && (64 - i + |data|) < TWO32
      requires i <= |data| && n + |data| == |all| && data == all[n..] && Folded(all, n + i)
      modifies state
      ensures i <= k <= |data| && |data| - k < 64 && Folded(all, n + k)
    {
      hide Folded;
      k := i;
      while (k + 63) % TWO32 < |data|
        invariant i <= k <= |data| && k % 64 == i % 64 && Folded(all, n + k)
      {
        TestLimit(i, k, |data|);
        assert data[k..k + 64] == all[n + k..n + k + 64];
        NextBlock(data[k..k + 64], all, n + k);
        k := k + 64;
      }
      TestLimit(i, k, |data|);
    }

    /** The buffered bytes and the first of data make a block. */
    method FillBlock(j: nat, data: seq<Octet>, ghost m: seq<Octet>)
      requires Folded(m + data, Whole(|m|)) && j == |m| % 64 && j + |data| > 63
      requires buffer[..j] == m[Whole(|m|)..]
      modifies state, buffer
      ensures Folded(m + data, Whole(|m|) + 64)
    {
      hide Fold, RegsOf;
      CopyIn(j, data[..64 - j]);
      HeadBlock(m, data, buffer[..]);
      NextBlock(buffer[..], m + data, Whole(|m|));
    }

    /** Every whole block completed by data goes through the transform, and
        the rest is buffered. */
    method SHA1Update(data: seq<Octet>, ghost m: seq<Octet>)
      requires Absorbed(m) && |m| % 64 + |data| < TWO32
      modifies this, state, buffer
      ensures Absorbed(m + data)
    {
      hide Fold, RegsOf, Counts, Folded, Whole;
      ghost var all, base := m + data, Whole(|m|);
      Start(m, data);
      var j := AddCount(|data|, m);
      var i;
      LengthLimit(j, |data|);
      if (j + |data|) % TWO32 > 63 {
        i := 64 - j;
        FillBlock(j, data, m);
        i := WholeBlocks(data, i, all, |m|);
        CopyIn(0, data[i..]);
        Finish(all, |m| + i);
      } else {
        i := 0;
        CopyIn(j, data[i..]);
        Finish(all, base);
      }
    }

    /** Pads to 56 modulo 64, appends the saved count, writes out the state
        and wipes the context. */
    method SHA1Final(digest: array<Octet>, ghost m: seq<Octet>)
      requires Absorbed(m) && digest.Length == 20 && digest != buffer
      modifies this, state, buffer, digest
      ensures digest[..] == Digest(m)
      ensures count0 == count1 == 0
      ensures forall i :: 0 <= i < 5 ==> state[i] == 0
      ensures forall i :: 0 <= i < 64 ==> buffer[i] == 0
    {
      hide Fold, RegsOf, Counts, Digest, LengthBytes, SavedCount, ZeroCount;
      var finalcount := SavedCount(count0, count1);
      SavedIsLength(count0, count1, |m|);
      SHA1Update([0x80], m);
      ghost var t, z := m + [0x80], 0;
      while count0 / 8 % 64 * 8 != 448
        invariant Absorbed(t) && t == m + [0x80] + Repeat<Octet>(0, z) && z <= ZeroCount(|m|)
        decreases ZeroCount(|m|) - z
      {
        StillPadding(t, m, z);
        SHA1Update([0], t);
        t, z := t + [0], z + 1;
      }
      DonePadding(t, m, z);
      SHA1Update(finalcount, t);
      WriteDigest(digest, t + finalcount, m);
      forall i | 0 <= i < 5 { state[i] := 0; }
      forall i | 0 <= i < 64 { buffer[i] := 0; }
      count0, count1 := 0, 0;
    }

    method WriteDigest(digest: array<Octet>, ghost p: seq<Octet>, ghost m: seq<Octet>)
      requires Absorbed(p) && p == Pad(m) && digest.Length == 20 && digest != buffer
      modifies digest
      ensures digest[..] == Digest(m)
    {
      hide Fold, WordByte, Counts, Pad;
      assert p[..Whole(|p|)] == p;
      forall i | 0 <= i < 20 {
        digest[i] := WordByte(state[i / 4], i % 4);
      }
    }

    lemma StillPadding(t: seq<Octet>, m: seq<Octet>, z: nat)
      requires Absorbed(t) && |t| == |m| + 1 + z && z <= ZeroCount(|m|)
      requires count0 / 8 % 64 != 56
      ensures z < ZeroCount(|m|)
    {
      hide Fold, RegsOf, Counts, ZeroCount;
      CountsIndex(count0, count1, |t|);
    }

    lemma DonePadding(t: seq<Octet>, m: seq<Octet>, z: nat)
      requires Absorbed(t) && |t| == |m| + 1 + z && z <= ZeroCount(|m|)
      requires count0 / 8 % 64 == 56
      ensures z == ZeroCount(|m|)
    {
      hide Fold, RegsOf, Counts, ZeroCount;
      CountsIndex(count0, count1, |t|);
      PadUnique(|m|, z, ZeroCount(|m|));
    }

    lemma Start(m: seq<Octet>, data: seq<Octet>)
      requires Absorbed(m)
      ensures Folded(m + data, Whole(|m|))
    {
      hide Fold, RegsOf, Counts;
      assert m[..Whole(|m|)] == (m + data)[..Whole(|m|)];
    }

    lemma Finish(all: seq<Octet>, k: nat)
      requires Folded(all, k) && |all| - k < 64 && Counts(count0, count1, |all|)
      requires buffer[..|all| - k] == all[k..]
      ensures Absorbed(all)
    {
      hide Fold, RegsOf, Counts;
    }
  }

  /** Below 2^32 the sum of buffered and new bytes does not wrap; from there on
      the branch without transforms is taken and copies more than the buffer
      holds. */
  lemma LengthLimit(j: nat, len: nat)
    requires j < 64 && len < TWO32
    ensures j + len < TWO32 <==> ((j + len) % TWO32 <= 63 ==> j + len <= 64)
    ensures j + len < TWO32 ==> (j + len) % TWO32 == j + len
  {
  }

  /** Nor does the loop's test, i being what fills up the buffer. */
  lemma TestLimit(i: nat, k: nat, len: nat)
    requires i <= 64 && 64 - i + len < TWO32 && k <= len && k % 64 == i % 64
    ensures (k + 63) % TWO32 == k + 63
  {
    var q := (k + (64 - i)) / 64;
    assert k + (64 - i) == 64 * q;
  }

  function Concat(pieces: seq<seq<Octet>>): seq<Octet> {
    if pieces == [] then [] else Concat(pieces[..|pieces| - 1]) + pieces[|pieces| - 1]
  }

  /** A whole run: Init, one Update for each piece, Final. However the message
      is split, the digest is the one of the joined pieces. */
  method HashPieces(sha: Sha1Ctx, digest: array<Octet>, pieces: seq<seq<Octet>>)
    requires sha.Shape() && digest.Length == 20 && digest != sha.buffer
    requires forall i :: 0 <= i < |pieces| ==> |Concat(pieces[..i])| % 64 + |pieces[i]| < TWO32
    modifies sha, sha.state, sha.buffer, digest
    ensures digest[..] == Digest(Concat(pieces))
  {
    hide Sha1Ctx.Absorbed, Digest;
    sha.SHA1Init();
    for i := 0 to |pieces|
      invariant sha.Absorbed(Concat(pieces[..i]))
    {
      assert pieces[..i + 1][..i] == pieces[..i];
      sha.SHA1Update(pieces[i], Concat(pieces[..i]));
    }
    assert pieces[..|pieces|] == pieces;
    sha.SHA1Final(digest, Concat(pieces));
  }

  lemma HeadBlock(m: seq<Octet>, data: seq<Octet>, buf: seq<Octet>)
    requires |m| % 64 + |data| > 63
    requires buf == m[Whole(|m|)..] + data[..64 - |m| % 64]
    ensures Whole(|m|) + 64 <= |m + data|
    ensures buf == (m + data)[Whole(|m|)..Whole(|m|) + 64]
  {
  }

  /** The saved count: the high word first, each word big-endian. */
  function SavedCount(lo: nat, hi: nat): (s: seq<Octet>)
    ensures |s| == 8
  {
    seq(8, i requires 0 <= i < 8 => ByteAt(if i >= 4 then lo else hi, 3 - i % 4))
  }

  lemma CountBytes(lo: nat, hi: nat, k: nat)
    requires lo < TWO32 && hi < TWO32 && k < 4
    ensures ByteAt(lo, k) == ByteAt(hi * TWO32 + lo, k)
    ensures ByteAt(hi, k) == ByteAt(hi * TWO32 + lo, k + 4)
  {
    var n0 := hi * TWO32 + lo;
    var n1 := hi * 0x100_0000 + lo / 256;
    var n2 := hi * 0x1_0000 + lo / 256 / 256;
    var n3 := hi * 256 + lo / 256 / 256 / 256;
    assert n0 / 256 == n1 && n1 / 256 == n2 && n2 / 256 == n3 && n3 / 256 == hi;
    Peel(n0, k + 4);
    Peel(n1, k + 3);
    Peel(n2, k + 2);
    Peel(n3, k + 1);
    SameLow(n0, lo, n1, n2, n3, k);
  }

  lemma Peel(n: nat, k: nat)
    requires k > 0
    ensures ByteAt(n, k) == ByteAt(n / 256, k - 1)
  {
  }

  lemma SameLow(n0: nat, lo: nat, n1: nat, n2: nat, n3: nat, k: nat)
    requires k < 4 && n0 / 256 == n1 && n1 / 256 == n2 && n2 / 256 == n3
    requires n0 % 256 == lo % 256 && n1 % 256 == lo / 256 % 256
    requires n2 % 256 == lo / 256 / 256 % 256 && n3 % 256 == lo / 256 / 256 / 256 % 256
    ensures ByteAt(n0, k) == ByteAt(lo, k)
  {
    if k == 1 {
      Peel(n0, 1);
      Peel(lo, 1);
    } else if k == 2 {
      Peel(n0, 2);
      Peel(n1, 1);
      Peel(lo, 2);
      Peel(lo / 256, 1);
    } else if k == 3 {
      Peel(n0, 3);
      Peel(n1, 2);
      Peel(n2, 1);
      Peel(lo, 3);
      Peel(lo / 256, 2);
      Peel(lo / 256 / 256, 1);
    }
  }

  lemma SavedIsLength(lo: nat, hi: nat, n: nat)
    requires Counts(lo, hi, n)
    ensures SavedCount(lo, hi) == LengthBytes(n)
  {
    hide ByteAt;
    forall i | 0 <= i < 8 ensures SavedCount(lo, hi)[i] == LengthBytes(n)[i] {
      CountBytes(lo, hi, 3 - i % 4);
    }
  }
}
