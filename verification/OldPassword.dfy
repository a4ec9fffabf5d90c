/** The pre-4.1 password hash, on machines of any word width. */
module OldPassword {
  import opened Bits

  datatype Hash = Hash(nr: nat, add: nat, nr2: nat)

  const START := Hash(1345345333, 7, 0x12345671)

  predicate Blank(c: byte) { c == 32 || c == 9 }

  function Times(a: nat, b: nat): nat { a * b }

  /** What one character contributes to nr. An `unsigned long` of w bits keeps
      the low w bits of every result; `nr & 63` is nr % 64 and `nr << 8` is
      256 * nr. */
  function Feed(nr: nat, add: nat, c: byte, w: nat): nat {
    Low(Low(Times(Low(nr % 64 + add, w), c), w) + Low(256 * nr, w), w)
  }

  function Second(nr2: nat, nr: nat, w: nat): nat {
    Low(nr2 + Xor(Low(256 * nr2, w), nr), w)
  }

  function Stir(s: Hash, c: byte, w: nat): Hash {
    if Blank(c) then s
    else
      var nr := Xor(s.nr, Feed(s.nr, s.add, c, w));
      Hash(nr, Low(s.add + c, w), Second(s.nr2, nr, w))
  }

  function StirAll(s: Hash, p: seq<byte>, w: nat): Hash
    decreases |p|
  {
    if p == [] then s else StirAll(Stir(s, p[0], w), p[1..], w)
  }

  /** The pair of masked 31-bit results. */
  function OldHash(p: seq<byte>, w: nat): (nat, nat) {
    var s := StirAll(START, p, w);
    (Low(s.nr, 31), Low(s.nr2, 31))
  }

  lemma {:induction false} StirSnoc(s: Hash, p: seq<byte>, c: byte, w: nat)
    ensures StirAll(s, p + [c], w) == Stir(StirAll(s, p, w), c, w)
    decreases |p|
  {
    hide Stir;
    if p == [] {
      assert p + [c] == [c];
    } else {
      assert (p + [c])[1..] == p[1..] + [c];
      StirSnoc(Stir(s, p[0], w), p[1..], c, w);
    }
  }

  /** hash_old_password on a machine whose unsigned long has w bits. */
  method HashOldPassword(password: seq<byte>, w: nat) returns (r0: nat, r1: nat)
    ensures (r0, r1) == OldHash(password, w)
  {
    hide Xor, Low, Feed;
    var nr: nat, add: nat, nr2: nat := 1345345333, 7, 0x12345671;
    var i := 0;
    while i < |password|
      invariant i <= |password|
      invariant Hash(nr, add, nr2) == StirAll(START, password[..i], w)
    {
      var c := password[i];
      StirSnoc(START, password[..i], c, w);
      assert password[..i + 1] == password[..i] + [c];
      i := i + 1;
      if c == 32 || c == 9 {
        continue;
      }
      nr := Xor(nr, Feed(nr, add, c, w));
      nr2 := Low(nr2 + Xor(Low(256 * nr2, w), nr), w);
      add := Low(add + c, w);
    }
    assert password[..i] == password;
    r0, r1 := Low(nr, 31), Low(nr2, 31);
  }

  // ---- Independence of the word width

  function Truncate(s: Hash, k: nat): Hash {
    Hash(Low(s.nr, k), Low(s.add, k), Low(s.nr2, k))
  }

  lemma SixBits(a: nat, k: nat)
    requires 6 <= k
    ensures Low(a, k) % 64 == a % 64
  {
    LowLow(a, k, 6);
    LowSix(a);
    LowSix(Low(a, k));
  }

  lemma LowSix(a: nat)
    ensures Low(a, 6) == a % 64
  {
    hide Low, High;
    Split(a, 6);
    PowSix();
    ModSix(a, High(a, 6), Low(a, 6));
  }

  lemma PowSix()
    ensures Pow2(6) == 64
  {
    assert Pow2(3) == 8;
  }

  lemma ModSix(a: nat, h: nat, l: nat)
    requires a == h * 64 + l && l < 64
    ensures a % 64 == l
  {
  }

  lemma LowAddRight(a: nat, b: nat, k: nat)
    ensures Low(a + b, k) == Low(a + Low(b, k), k)
  {
    LowAdd(a, b, k);
    LowAdd(a, Low(b, k), k);
    LowLow(b, k, k);
  }

  lemma LowTimes(a: nat, t: nat, w: nat, k: nat)
    requires k <= w
    ensures Low(Low(Times(Low(a, w), t), w), k) == Low(Low(Times(Low(a, k), t), k), k)
  {
    hide Low;
    var l, m := Low(a, w), Low(a, k);
    LowLow(Times(l, t), w, k);
    LowLow(Times(m, t), k, k);
    LowMul(l, t, k);
    LowMul(m, t, k);
    LowLow(a, w, k);
    LowLow(a, k, k);
  }

  lemma LowShift(a: nat, w: nat, k: nat)
    requires k <= w
    ensures Low(Low(256 * a, w), k) == Low(256 * Low(a, k), k)
  {
    LowLow(256 * a, w, k);
    LowMul(a, 256, k);
  }

  lemma FeedNarrow(nr: nat, add: nat, c: byte, w: nat, k: nat)
    requires 6 <= k <= w
    ensures Low(Feed(nr, add, c, w), k) == Feed(Low(nr, k), Low(add, k), c, k)
  {
    hide Low, Times;
    var a, b := nr % 64 + add, nr % 64 + Low(add, k);
    var x, y := Low(Times(Low(a, w), c), w), Low(256 * nr, w);
    var x', y' := Low(Times(Low(b, k), c), k), Low(256 * Low(nr, k), k);
    SixBits(nr, k);
    LowAddRight(nr % 64, add, k);
    LowTimes(a, c, w, k);
    LowShift(nr, w, k);
    LowLow(x + y, w, k);
    LowAdd(x, y, k);
    LowAdd(x', y', k);
    LowLow(256 * Low(nr, k), k, k);
  }

  lemma SecondNarrow(nr2: nat, nr: nat, w: nat, k: nat)
    requires k <= w
    ensures Low(Second(nr2, nr, w), k) == Second(Low(nr2, k), Low(nr, k), k)
  {
    hide Xor, Low;
    var m := Low(256 * nr2, w);
    var x := Xor(m, nr);
    LowShift(nr2, w, k);
    XorLow(m, nr, k);
    LowLow(nr2 + x, w, k);
    LowAdd(nr2, x, k);
  }

  lemma FirstNarrow(nr: nat, add: nat, c: byte, w: nat, k: nat)
    requires 6 <= k <= w
    ensures Low(Xor(nr, Feed(nr, add, c, w)), k) == Xor(Low(nr, k), Feed(Low(nr, k), Low(add, k), c, k))
  {
    hide Xor, Low, Feed;
    FeedNarrow(nr, add, c, w, k);
    XorLow(nr, Feed(nr, add, c, w), k);
  }

  lemma AddNarrow(add: nat, c: byte, w: nat, k: nat)
    requires k <= w
    ensures Low(Low(add + c, w), k) == Low(Low(add, k) + c, k)
  {
    hide Low;
    LowLow(add + c, w, k);
    LowAddRight(c, add, k);
  }

  /** The low k bits of a stirring need only the low k bits of the state. */
  lemma StirNarrow(s: Hash, c: byte, w: nat, k: nat)
    requires 6 <= k <= w
    ensures Truncate(Stir(s, c, w), k) == Stir(Truncate(s, k), c, k)
  {
    if !Blank(c) {
      hide Xor, Low, Feed, Second;
      FirstNarrow(s.nr, s.add, c, w, k);
      AddNarrow(s.add, c, w, k);
      SecondNarrow(s.nr2, Xor(s.nr, Feed(s.nr, s.add, c, w)), w, k);
    }
  }

  lemma {:induction false} StirAllNarrow(s: Hash, p: seq<byte>, w: nat, k: nat)
    requires 6 <= k <= w
    ensures Truncate(StirAll(s, p, w), k) == StirAll(Truncate(s, k), p, k)
    decreases |p|
  {
    hide Stir, Truncate;
    if p != [] {
      StirNarrow(s, p[0], w, k);
      StirAllNarrow(Stir(s, p[0], w), p[1..], w, k);
    }
  }

  /** Any two machines with words of at least 31 bits compute the same hash;
      32 and 64 are the widths in use. */
  lemma WidthIndependent(p: seq<byte>, w: nat, v: nat)
    requires 31 <= w && 31 <= v
    ensures OldHash(p, w) == OldHash(p, v)
  {
    hide Stir, Low;
    StirAllNarrow(START, p, w, 31);
    StirAllNarrow(START, p, v, 31);
  }

  function WithoutBlanks(p: seq<byte>): seq<byte> {
    if p == [] then []
    else if p[0] == 32 || p[0] == 9 then WithoutBlanks(p[1..])
    else [p[0]] + WithoutBlanks(p[1..])
  }

  lemma {:induction false} StirIgnoresBlanks(s: Hash, p: seq<byte>, w: nat)
    ensures StirAll(s, WithoutBlanks(p), w) == StirAll(s, p, w)
    decreases |p|
  {
    if p != [] {
      hide Feed, Xor, Low;
      StirIgnoresBlanks(Stir(s, p[0], w), p[1..], w);
      if !Blank(p[0]) {
        assert WithoutBlanks(p)[1..] == WithoutBlanks(p[1..]);
      }
    }
  }

  /** Removing every space and tab leaves the hash unchanged. */
  lemma IgnoresBlanks(p: seq<byte>, w: nat)
    ensures OldHash(WithoutBlanks(p), w) == OldHash(p, w)
  {
    StirIgnoresBlanks(START, p, w);
  }
}
