/** Bytes and bit operations on naturals. */
module Bits {
  type byte = n: nat | n < 256

  const TWO32 := 0x1_0000_0000

  function Repeat<T>(x: T, n: nat): (s: seq<T>)
    ensures |s| == n
  {
    seq(n, _ => x)
  }

  function Pow2(k: nat): (p: nat)
    ensures p > 0
  {
    if k == 0 then 1 else 2 * Pow2(k - 1)
  }

  function Half(a: nat): nat { a / 2 }

  function Odd(a: nat): nat { a % 2 }

  lemma Halves(a: nat, b: nat)
    requires b < 2
    ensures Half(b + 2 * a) == a && Odd(b + 2 * a) == b
  {
  }

  /** The low k bits: what a k-bit unsigned machine word keeps of a number. */
  function Low(a: nat, k: nat): nat {
    if k == 0 then 0 else Odd(a) + 2 * Low(Half(a), k - 1)
  }

  /** A shift right by k bits. */
  function High(a: nat, k: nat): nat {
    if k == 0 then a else High(Half(a), k - 1)
  }

  function OddSum(a: nat, b: nat): (o: nat)
    ensures o < 2
  {
    (Odd(a) + Odd(b)) % 2
  }

  /** Bitwise exclusive or. */
  function Xor(a: nat, b: nat): nat {
    if a == 0 && b == 0 then 0
    else OddSum(a, b) + 2 * Xor(Half(a), Half(b))
  }

  lemma {:induction false} Split(a: nat, k: nat)
    ensures a == High(a, k) * Pow2(k) + Low(a, k)
    ensures Low(a, k) < Pow2(k)
  {
    if k > 0 {
      Split(Half(a), k - 1);
      SplitStep(a, High(a, k), Pow2(k - 1), Low(Half(a), k - 1));
    }
  }

  lemma SplitStep(a: nat, h: nat, p: nat, l: nat)
    requires a / 2 == h * p + l
    ensures a == h * (2 * p) + (a % 2 + 2 * l)
  {
    var m := h * p;
    assert h * (2 * p) == 2 * m;
    assert a == 2 * (a / 2) + a % 2;
  }

  lemma {:induction false} LowParts(a: nat, k: nat)
    requires k > 0
    ensures Low(a, k) == Odd(a) + 2 * Low(Half(a), k - 1)
    ensures Odd(Low(a, k)) == Odd(a) && Half(Low(a, k)) == Low(Half(a), k - 1)
  {
    Halves(Low(Half(a), k - 1), Odd(a));
  }

  lemma {:induction false} XorParts(a: nat, b: nat)
    ensures Xor(a, b) == OddSum(a, b) + 2 * Xor(Half(a), Half(b))
    ensures Odd(Xor(a, b)) == OddSum(a, b) && Half(Xor(a, b)) == Xor(Half(a), Half(b))
  {
    XorUnfold(a, b);
    hide *;
    Halves(Xor(Half(a), Half(b)), OddSum(a, b));
  }

  lemma {:induction false} XorUnfold(a: nat, b: nat)
    ensures Xor(a, b) == OddSum(a, b) + 2 * Xor(Half(a), Half(b))
  {
    XorZero();
    if a == 0 && b == 0 {
      hide *;
    } else {
      hide Half, Odd, OddSum;
    }
  }

  lemma XorZero()
    ensures Xor(0, 0) == 0 && Half(0) == 0 && OddSum(0, 0) == 0
  {
  }

  lemma {:induction false} LowLow(a: nat, w: nat, k: nat)
    requires k <= w
    ensures Low(Low(a, w), k) == Low(a, k)
    decreases k
  {
    if k > 0 {
      hide Odd, Half;
      LowParts(a, w);
      LowLow(Half(a), w - 1, k - 1);
    }
  }

  /** High bits of an exclusive or depend on high bits only. */
  lemma {:induction false} XorHigh(a: nat, b: nat, k: nat)
    ensures High(Xor(a, b), k) == Xor(High(a, k), High(b, k))
    decreases k
  {
    if k > 0 {
      hide Odd, Half, OddSum;
      XorParts(a, b);
      XorHigh(Half(a), Half(b), k - 1);
    }
  }

  /** Low bits of an exclusive or depend on low bits only. */
  lemma {:induction false} XorLow(a: nat, b: nat, k: nat)
    ensures Low(Xor(a, b), k) == Xor(Low(a, k), Low(b, k))
    decreases k
  {
    if k > 0 {
      hide Odd, Half, Low, Xor;
      XorLow(Half(a), Half(b), k - 1);
      XorParts(a, b);
      XorParts(Low(a, k), Low(b, k));
      LowParts(Xor(a, b), k);
      LowParts(a, k);
      LowParts(b, k);
    }
  }

  /** Numbers that differ by a multiple of 2^k have the same low k bits. */
  lemma {:induction false} Congruent(a: nat, b: nat, q: int, k: nat)
    requires a - b == q * Pow2(k)
    ensures Low(a, k) == Low(b, k)
  {
    if k > 0 {
      Shifted(a, b, q, Pow2(k - 1));
      Congruent(Half(a), Half(b), q, k - 1);
    }
  }

  lemma Shifted(a: nat, b: nat, q: int, p: nat)
    requires a - b == q * (2 * p)
    ensures Odd(a) == Odd(b) && Half(a) - Half(b) == q * p
  {
    var z := q * p;
    assert q * (2 * p) == 2 * z;
    assert a == b + 2 * z;
  }

  lemma LowAdd(a: nat, b: nat, k: nat)
    ensures Low(a + b, k) == Low(Low(a, k) + Low(b, k), k)
  {
    Split(a, k);
    Split(b, k);
    Congruent(a + b, Low(a, k) + b, High(a, k), k);
    Congruent(Low(a, k) + b, Low(a, k) + Low(b, k), High(b, k), k);
  }

  lemma LowMul(a: nat, t: nat, k: nat)
    ensures Low(a * t, k) == Low(Low(a, k) * t, k)
  {
    hide Low, High, Pow2;
    Split(a, k);
    var p, h, l := Pow2(k), High(a, k), Low(a, k);
    Distribute(a, h, p, l, t);
    Congruent(a * t, l * t, h * t, k);
  }

  lemma Distribute(a: nat, h: nat, p: nat, l: nat, t: nat)
    requires a == h * p + l
    ensures a * t - l * t == (h * t) * p
  {
    assert a * t == (h * p) * t + l * t;
    assert (h * p) * t == (h * t) * p;
  }
}
