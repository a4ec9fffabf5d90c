/** A sixteen-slot window that slides along a longer sequence, kept in place.
    Generic over the element type: nothing here depends on what the words are. */
module Circular {

  /** `l` holds the last sixteen elements of `w` before position `t`, each at
      its index modulo 16; slots not yet reached still hold `raw`. */
  ghost predicate Window<T(!new)>(l: seq<T>, raw: seq<T>, w: seq<T>, t: nat) {
    && |l| == 16 && |raw| == 16 && t <= |w|
    && (forall s :: 0 <= s < t && t - 16 <= s ==> l[s % 16] == w[s])
    && (forall j :: t <= j < 16 ==> l[j] == raw[j])
  }

  lemma Look<T(!new)>(l: seq<T>, raw: seq<T>, w: seq<T>, t: nat, s: nat, j: nat)
    requires Window(l, raw, w, t) && t - 16 <= s < t && j == s % 16
    ensures j < 16 && l[j] == w[s]
  {
  }

  /** The four slots the schedule reads are the elements 3, 8, 14 and 16 back. */
  lemma Taps<T(!new)>(l: seq<T>, raw: seq<T>, w: seq<T>, t: nat)
    requires Window(l, raw, w, t) && 16 <= t
    ensures l[(t + 13) % 16] == w[t - 3]
    ensures l[(t + 8) % 16] == w[t - 8]
    ensures l[(t + 2) % 16] == w[t - 14]
    ensures l[t % 16] == w[t - 16]
  {
    Back(t, 3);
    Back(t, 8);
    Back(t, 14);
    Back(t, 16);
    Look(l, raw, w, t, t - 3, (t + 13) % 16);
    Look(l, raw, w, t, t - 8, (t + 8) % 16);
    Look(l, raw, w, t, t - 14, (t + 2) % 16);
    Look(l, raw, w, t, t - 16, t % 16);
  }

  lemma Back(t: nat, d: nat)
    requires d <= 16 <= t
    ensures (t + (16 - d)) % 16 == (t - d) % 16
  {
    var x := t - d;
    assert (x + 16) % 16 == x % 16;
  }

  lemma Distinct(s: nat, t: nat)
    requires s < t < s + 16
    ensures s % 16 != t % 16
  {
  }

  /** Overwriting slot t mod 16 with the next element slides the window. */
  lemma Advance<T(!new)>(l: seq<T>, raw: seq<T>, w: seq<T>, t: nat)
    requires Window(l, raw, w, t) && t < |w|
    ensures Window(l[t % 16 := w[t]], raw, w, t + 1)
  {
    var next := l[t % 16 := w[t]];
    forall s | 0 <= s < t + 1 && t - 15 <= s
      ensures next[s % 16] == w[s]
    {
      if s < t { Distinct(s, t); }
    }
  }
}
