/** The draws of the old scramble in IEEE double arithmetic: a rounded quotient
    and a rounded product, and still the integer quotient. */
module Doubles {
  import opened Bits

  /** The modulus of the old scramble's random numbers. */
  const MAX_VALUE := 0x3FFF_FFFF

  const D := 0x20_0000_0000_0000   // 2^53

  // ---- Doubles

  /** y in units of 1 / 2^s. */
  function Up(y: real, s: nat): real { y * Pow2(s) as real }

  /** y is m over 2^s, or m times 2^s, for a 53-bit m. */
  predicate IsScaled(y: real, m: int, s: nat) {
    && -D <= m <= D
    && ((s <= 1074 && Up(y, s) == m as real) || (s <= 971 && y == Wide(m, s)))
  }

  /** m times 2^s. */
  function Wide(m: int, s: nat): real { Up(m as real, s) }

  ghost predicate IsDouble(y: real) { exists m: int, s: nat :: IsScaled(y, m, s) }

  function Dist(x: real, y: real): real { if x < y then y - x else x - y }

  /** A correctly rounded result: no double is nearer. */
  ghost predicate Nearest(x: real, y: real) {
    IsDouble(y) && forall z :: IsDouble(z) ==> Dist(x, y) <= Dist(x, z)
  }

  /** The rounding of a machine's double operations; ties may go either way. */
  ghost predicate IsRounding(fl: real -> real) {
    forall x :: Nearest(x, fl(x))
  }

  lemma Beats(x: real, y: real, z: real, m: int, s: nat)
    requires Nearest(x, y) && IsScaled(z, m, s)
    ensures Dist(x, y) <= Dist(x, z)
  {
    hide IsScaled, Dist;
  }

  lemma {:induction false} PowAdd(a: nat, b: nat)
    ensures Pow2(a + b) == Pow2(a) * Pow2(b)
  {
    if a > 0 {
      PowAdd(a - 1, b);
      assert Pow2(a + b) == 2 * Pow2(a - 1 + b);
      Double(Pow2(a - 1), Pow2(b));
    }
  }

  lemma Double(a: nat, b: nat)
    ensures 2 * (a * b) == (2 * a) * b
  {
  }

  lemma PowD()
    ensures Pow2(48) == 0x1_0000_0000_0000 && Pow2(49) == 0x2_0000_0000_0000
    ensures Pow2(53) == D
  {
    assert Pow2(4) == 16;
    PowAdd(4, 4);
    PowAdd(8, 8);
    PowAdd(16, 16);
    PowAdd(32, 16);
    assert Pow2(1) == 2;
    PowAdd(48, 1);
    PowAdd(49, 4);
  }

  // ---- Units

  lemma UpAdd(y: real, a: nat, b: nat)
    ensures Up(y, a + b) == Up(Up(y, a), b)
  {
    PowAdd(a, b);
    Assoc(y, Pow2(a), Pow2(b));
  }

  lemma Assoc(y: real, a: nat, b: nat)
    ensures y * (a * b) as real == (y * a as real) * b as real
  {
    assert (a * b) as real == a as real * b as real;
  }

  lemma UpWhole(m: int, s: nat) returns (n: int)
    ensures Up(m as real, s) == n as real
  {
    n := m * Pow2(s);
    assert (m * Pow2(s)) as real == m as real * Pow2(s) as real;
  }

  lemma Minus(a: real, b: real, p: real)
    ensures (b - a) * p == b * p - a * p
  {
  }

  lemma Order(a: real, b: real, p: real)
    requires a <= b && p > 0.0
    ensures a * p <= b * p
    ensures a < b ==> a * p < b * p
  {
    Positive(b - a, p);
    Minus(a, b, p);
  }

  lemma UpMonotone(a: real, b: real, s: nat)
    requires a <= b
    ensures Up(a, s) <= Up(b, s)
  {
    Order(a, b, Pow2(s) as real);
  }

  lemma Positive(a: real, p: real)
    requires a >= 0.0 && p > 0.0
    ensures a * p >= 0.0
    ensures a > 0.0 ==> a * p > 0.0
  {
  }

  lemma UpDist(x: real, z: real, s: nat)
    ensures Dist(Up(x, s), Up(z, s)) == Up(Dist(x, z), s)
  {
    if x < z {
      Order(x, z, Pow2(s) as real);
      Minus(x, z, Pow2(s) as real);
    } else {
      Order(z, x, Pow2(s) as real);
      Minus(z, x, Pow2(s) as real);
    }
  }

  function Down(n: int, s: nat): (z: real)
    ensures Up(z, s) == n as real
  {
    n as real / Pow2(s) as real
  }

  /** Doubles of a certain size are multiples of a certain power of two. */
  lemma Grid(r: real, g: nat) returns (n: int)
    requires IsDouble(r) && Up(r, g) >= (D / 2) as real
    ensures Up(r, g) == n as real
  {
    hide Up, Pow2;
    var m: int, s: nat :| IsScaled(r, m, s);
    if s <= 1074 && Up(r, s) == m as real {
      if s <= g {
        UpAdd(r, s, g - s);
        n := UpWhole(m, g - s);
      } else {
        UpAdd(r, g, s - g);
        Halved(Up(r, g), s - g, m);
        n := D / 2;
      }
    } else {
      var k := UpWhole(m, s);
      n := UpWhole(k, g);
    }
  }

  lemma Halved(v: real, d: nat, m: int)
    requires d > 0 && m <= D && v >= (D / 2) as real && Up(v, d) == m as real
    ensures v == (D / 2) as real
  {
    var e := Pow2(d - 1);
    assert Pow2(d) == 2 * e && e >= 1;
    assert v * Pow2(d) as real == 2.0 * (v * e as real);
    if e > 1 { assert v * e as real >= v * 2.0; }
  }

  // ---- How near a rounded result is

  /** No multiple of 1 / 2^s is nearer than the rounded result. */
  lemma Near(x: real, y: real, s: nat, n: int)
    requires Nearest(x, y) && s <= 1074 && -D <= n <= D
    ensures Dist(Up(x, s), Up(y, s)) <= Dist(Up(x, s), n as real)
  {
    hide Up, Nearest, Dist;
    var z := Down(n, s);
    assert IsScaled(z, n, s);
    Beats(x, y, z, n, s);
    UpMonotone(Dist(x, y), Dist(x, z), s);
    UpDist(x, y, s);
    UpDist(x, z, s);
  }

  /** A number below 2^53 / 2^s rounds to within half of 1 / 2^s. */
  lemma Close(x: real, y: real, s: nat)
    requires Nearest(x, y) && s <= 1074 && 0.0 <= Up(x, s) < D as real - 0.5
    ensures 2.0 * Dist(Up(x, s), Up(y, s)) <= 1.0
  {
    hide Up, Nearest;
    Near(x, y, s, (Up(x, s) + 0.5).Floor);
  }

  // ---- A quotient by 31 times 31

  lemma UpTimes31(x: real, s: nat)
    ensures Up(x * 31.0, s) == 31.0 * Up(x, s)
  {
    var p := Pow2(s) as real;
    assert (x * 31.0) * p == 31.0 * (x * p);
  }

  /** The binade of k: 2^j times k lies from 16 to 30. */
  function Binade(k: nat): (j: nat)
    requires 1 <= k <= 30
    ensures j <= 4 && 16 <= k * Pow2(j) <= 30
  {
    assert Pow2(4) == 16;
    if k >= 16 then 0 else if k >= 8 then 1 else if k >= 4 then 2 else if k >= 2 then 3 else 4
  }

  lemma UpCount(k: nat, j: nat, w: nat)
    requires k * Pow2(j) == w
    ensures Up(k as real, 53 + j) == (w * D) as real
  {
    UpAdd(k as real, j, 53);
    assert Up(k as real, j) == w as real;
    PowD();
    UpD(w);
  }

  lemma UpD(w: nat)
    requires Pow2(53) == D
    ensures Up(w as real, 53) == (w * D) as real
  {
  }

  /** The error bound, in units of 1 / 2^(53 + j): 4 for a power of two, whose
      multiple of 2^53 leaves 4 modulo 31, and 15 otherwise. */
  function Slack(w: nat): nat { if w == 16 then 4 else 15 }

  lemma NearestCount(w: nat) returns (n: nat)
    requires 16 <= w <= 30
    ensures n <= D && w * D <= 31 * n + Slack(w) && 31 * n <= w * D + Slack(w)
  {
    n := (w * D + 15) / 31;
  }

  /** 31 times the rounded quotient is that near to k. */
  lemma QuotientNear(k: nat, q: real, j: nat, w: nat)
    requires 1 <= k <= 30 && j <= 4 && k * Pow2(j) == w && 16 <= w <= 30
    requires Nearest(k as real / 31.0, q)
    ensures Dist(31.0 * Up(q, 53 + j), (w * D) as real) <= Slack(w) as real
  {
    hide Up, Nearest, Pow2, Slack;
    var x := k as real / 31.0;
    var n := NearestCount(w);
    assert x * 31.0 == k as real;
    UpTimes31(x, 53 + j);
    UpCount(k, j, w);
    Near(x, q, 53 + j, n);
    assert 31.0 * Dist(Up(x, 53 + j), Up(q, 53 + j)) <= 31.0 * Dist(Up(x, 53 + j), n as real);
  }

  lemma WholeDouble(k: nat)
    requires k <= 30
    ensures IsScaled(k as real, k, 0)
  {
  }

  /** A double below k is a whole step of the grid below it. */
  lemma StepBelow(r: real, k: nat, j: nat, w: nat)
    requires 1 <= k <= 30 && j <= 4 && k * Pow2(j) == w && 16 <= w <= 30
    requires IsDouble(r) && r < k as real
    ensures Up(r, 53 + j) < (w * D) as real - 2.0 * Slack(w) as real
  {
    hide Pow2, IsDouble, Up;
    UpCount(k, j, w);
    UpBelow(r, k as real, 53 + j);
    if Up(r, 53 + j) >= (w * D) as real - 2.0 * Slack(w) as real {
      if w == 16 {
        UpAdd(r, 49 + j, 4);
        UpSmall(Up(r, 49 + j));
        var n := Grid(r, 49 + j);
      } else {
        UpAdd(r, 48 + j, 5);
        UpSmall(Up(r, 48 + j));
        var n := Grid(r, 48 + j);
      }
    }
  }

  lemma UpBelow(a: real, b: real, s: nat)
    requires a < b
    ensures Up(a, s) < Up(b, s)
  {
    Order(a, b, Pow2(s) as real);
  }

  lemma UpSmall(y: real)
    ensures Up(y, 4) == 16.0 * y && Up(y, 5) == 32.0 * y
  {
    assert Pow2(2) == 4;
    assert Pow2(4) == 16;
    assert Pow2(5) == 32;
  }

  /** Rounding k / 31 and multiplying by 31 never falls below k. */
  lemma NotBelow(k: nat, q: real, r: real)
    requires 1 <= k <= 30 && Nearest(k as real / 31.0, q) && Nearest(q * 31.0, r)
    ensures r >= k as real
  {
    hide Pow2, IsScaled, Up, Slack;
    if r < k as real {
      var j := Binade(k);
      var w := k * Pow2(j);
      QuotientNear(k, q, j, w);
      StepBelow(r, k, j, w);
      WholeDouble(k);
      Beats(q * 31.0, r, k as real, k, 0);
      UpMonotone(Dist(q * 31.0, r), Dist(q * 31.0, k as real), 53 + j);
      UpDist(q * 31.0, r, 53 + j);
      UpDist(q * 31.0, k as real, 53 + j);
      UpTimes31(q, 53 + j);
      UpCount(k, j, w);
    }
  }

  // ---- The draw

  lemma UpConst(y: real)
    ensures Up(y, 53) == y * 9007199254740992.0 && Up(y, 48) == y * 281474976710656.0
  {
    PowD();
  }

  /** Two rounded operations move 31 times the quotient by less than 1 / max. */
  lemma DrawClose(x: real, q: real, r: real)
    requires 0.0 <= x && x * 1073741823.0 <= 1073741822.0
    requires Nearest(x, q) && Nearest(q * 31.0, r) && q >= 0.0
    ensures Dist(x * 31.0, r) * 1073741823.0 < 1.0
  {
    hide Nearest, Up;
    UpConst(x);
    UpConst(q);
    Close(x, q, 53);
    UpConst(q * 31.0);
    UpConst(r);
    Close(q * 31.0, r, 48);
  }

  lemma QuotientPositive(x: real, q: real)
    requires 0.0 <= x && Nearest(x, q)
    ensures q >= 0.0
  {
    assert IsScaled(0.0, 0, 0);
    Beats(x, q, 0.0, 0, 0);
  }

  lemma ZeroStays(q: real)
    requires Nearest(0.0, q)
    ensures q == 0.0
  {
    assert IsScaled(0.0, 0, 0);
    Beats(0.0, q, 0.0, 0, 0);
  }

  /** The draw with both operations rounded to the nearest double, whatever the
      choice at a tie: for every seed its floor is the integer quotient. */
  lemma RoundedDraw(s: nat, q: real, r: real)
    requires s < MAX_VALUE && Nearest(s as real / MAX_VALUE as real, q) && Nearest(q * 31.0, r)
    ensures r.Floor == 31 * s / MAX_VALUE
  {
    hide Nearest;
    var x := s as real / MAX_VALUE as real;
    assert x * 1073741823.0 == s as real;
    var k, rem := 31 * s / MAX_VALUE, 31 * s % MAX_VALUE;
    QuotientPositive(x, q);
    DrawClose(x, q, r);
    if rem == 0 && k == 0 {
      ZeroStays(q);
      ZeroStays(r);
    } else if rem == 0 {
      NotBelow(k, q, r);
    }
  }

  // ---- Rounding exists

  /** All doubles, a finite set. */
  ghost function AllDoubles(): set<real> {
    (set m: int, s: nat | -D <= m <= D && s <= 1074 :: Down(m, s))
    + (set m: int, s: nat | -D <= m <= D && s <= 971 :: Wide(m, s))
  }

  lemma InAllDoubles(y: real)
    ensures IsDouble(y) <==> y in AllDoubles()
  {
    hide Up;
    if IsDouble(y) {
      var m: int, s: nat :| IsScaled(y, m, s);
      if s <= 1074 && Up(y, s) == m as real {
        Cancel(y, Down(m, s), s);
        assert y == Down(m, s);
      } else {
        assert y == Wide(m, s);
      }
    }
    if m: int, s: nat :| -D <= m <= D && s <= 1074 && y == Down(m, s) {
      assert IsScaled(y, m, s);
    }
    if m: int, s: nat :| -D <= m <= D && s <= 971 && y == Wide(m, s) {
      assert IsScaled(y, m, s);
    }
  }

  lemma Cancel(a: real, b: real, s: nat)
    requires Up(a, s) == Up(b, s)
    ensures a == b
  {
    if a < b { UpBelow(a, b, s); } else if b < a { UpBelow(b, a, s); }
  }

  lemma {:induction false} ArgMin(all: set<real>, x: real, first: real) returns (y: real)
    requires first in all
    ensures y in all && forall z :: z in all ==> Dist(x, y) <= Dist(x, z)
    decreases |all|
  {
    y := first;
    var rest := all - {first};
    if next :| next in rest {
      var b := ArgMin(rest, x, next);
      if Dist(x, b) < Dist(x, y) { y := b; }
    }
    assert forall z :: z in all ==> z == first || z in rest;
  }

  lemma NearestExists(x: real)
    ensures exists y :: Nearest(x, y)
  {
    hide Dist;
    assert IsScaled(0.0, 0, 0);
    InAllDoubles(0.0);
    var y := ArgMin(AllDoubles(), x, 0.0);
    InAllDoubles(y);
    forall z | IsDouble(z) ensures Dist(x, y) <= Dist(x, z) {
      InAllDoubles(z);
    }
    assert Nearest(x, y);
  }

  ghost function NearestOf(x: real): (y: real)
    ensures Nearest(x, y)
  {
    NearestExists(x);
    var y :| Nearest(x, y);
    y
  }

  /** There is a correct rounding, so what is stated for every one is not
      empty. */
  lemma RoundingExists()
    ensures exists fl: real -> real :: IsRounding(fl)
  {
    hide Nearest;
    ghost var fl: real -> real := x => NearestOf(x);
    assert IsRounding(fl);
  }
}
