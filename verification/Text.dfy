/** The decimal text that printf produces for %0wd. */
module Text {
  import opened Bits

  function Digits(n: nat): (s: seq<byte>)
    ensures |s| > 0
  {
    if n < 10 then [48 + n] else Digits(n / 10) + [48 + n % 10]
  }

  /** %0wd. The sign counts towards the width. */
  function FormatD(n: int, w: nat): seq<byte> {
    if n < 0 then [45] + Padded(-n, if w > 0 then w - 1 else 0) else Padded(n, w)
  }

  function Padded(n: nat, w: nat): seq<byte> {
    var d := Digits(n);
    seq(if |d| < w then w - |d| else 0, _ => 48) + d
  }

  /** The number a run of decimal digits denotes. */
  function Value(s: seq<byte>): int {
    if s == [] then 0 else 10 * Value(s[..|s| - 1]) + s[|s| - 1] as int - 48
  }

  function Pow10(k: nat): (p: nat)
    ensures p > 0
  {
    if k == 0 then 1 else 10 * Pow10(k - 1)
  }

  lemma {:induction false} DigitsValue(n: nat, k: nat)
    requires 0 < k && n < Pow10(k)
    ensures Value(Digits(n)) == n && |Digits(n)| <= k
  {
    var d := Digits(n);
    if n < 10 {
      assert d[..0] == [];
    } else {
      assert Pow10(k) == 10 * Pow10(k - 1);
      assert k != 1;
      DigitsValue(n / 10, k - 1);
      assert d[..|d| - 1] == Digits(n / 10);
    }
  }

  lemma {:induction false} LeadingZeros(z: nat, s: seq<byte>)
    ensures Value(seq(z, _ => 48) + s) == Value(s)
    decreases |s|, z
  {
    var t := seq(z, _ => 48) + s;
    if s != [] {
      LeadingZeros(z, s[..|s| - 1]);
      assert t[..|t| - 1] == seq(z, _ => 48) + s[..|s| - 1];
    } else if z > 0 {
      LeadingZeros(z - 1, s);
      assert t[..|t| - 1] == seq(z - 1, _ => 48) + s;
    }
  }

  /** A number of at most w digits fills exactly w characters and can be read
      back. */
  lemma FormatFills(n: nat, w: nat)
    requires 0 < w && n < Pow10(w)
    ensures |FormatD(n, w)| == w && Value(FormatD(n, w)) == n
  {
    DigitsValue(n, w);
    LeadingZeros(w - |Digits(n)|, Digits(n));
  }

  /** The digits of any number: all of them decimal, the first not 0 but for 0
      itself, and together the number. */
  lemma {:induction false} DigitsRead(n: nat)
    ensures Value(Digits(n)) == n && (n > 0 ==> Digits(n)[0] != 48)
    ensures forall c :: c in Digits(n) ==> 48 <= c <= 57
  {
    var d := Digits(n);
    if n < 10 {
      assert d[..0] == [];
    } else {
      DigitsRead(n / 10);
      assert d[..|d| - 1] == Digits(n / 10);
      assert forall c :: c in d ==> c in Digits(n / 10) || c == 48 + n % 10;
    }
  }

  /** Any number and width: at least w decimal digits that read as the number,
      and none too many. */
  lemma FormatReads(n: nat, w: nat)
    ensures var t := FormatD(n, w);
            && |t| >= w && Value(t) == n && (forall c :: c in t ==> 48 <= c <= 57)
            && (|t| > w && n > 0 ==> t[0] != 48)
  {
    DigitsRead(n);
    var z := if |Digits(n)| < w then w - |Digits(n)| else 0;
    LeadingZeros(z, Digits(n));
  }

  lemma Pow10Values()
    ensures Pow10(2) == 100 && Pow10(4) == 10000
  {
    assert Pow10(1) == 10 && Pow10(3) == 1000;
  }
}
