/** SHA1Transform: the compression of one block, with the schedule kept in
    sixteen words overwritten in place (FIPS 180-4 section 6.1.3) and the
    registers renamed from round to round instead of moved. */
module Sha1Transform {
  import opened Sha1Spec
  import opened Circular

  // ---- The macros' expressions

  /** blk0: Octet-swaps a word loaded by a little-endian machine. */
  function Swap(l: Word): Word {
    (((l << 24) | (l >> 8)) & 0xFF00FF00) | (((l << 8) | (l >> 24)) & 0x00FF00FF)
  }

  function LittleEndian(b0: Octet, b1: Octet, b2: Octet, b3: Octet): Word {
    (b0 as Word) | ((b1 as Word) << 8) | ((b2 as Word) << 16) | ((b3 as Word) << 24)
  }

  function ChMacro(w: Word, x: Word, y: Word): Word { (w & (x ^ y)) ^ y }
  function MajMacro(w: Word, x: Word, y: Word): Word { ((w | x) & y) | (w & x) }

  lemma SwapIsBigEndian(b0: Octet, b1: Octet, b2: Octet, b3: Octet)
    ensures Swap(LittleEndian(b0, b1, b2, b3)) == BigEndian(b0, b1, b2, b3)
  {
  }

  /** The rewritten choice formula is the standard's Ch. */
  lemma ChoiceMacro(w: Word, x: Word, y: Word)
    ensures ChMacro(w, x, y) == Ch(w, x, y)
  {
    assert (w & (x ^ y)) ^ y == (w & x) ^ (!w & y);
  }

  /** The rewritten majority formula is the standard's Maj. */
  lemma MajorityMacro(w: Word, x: Word, y: Word)
    ensures MajMacro(w, x, y) == Maj(w, x, y)
  {
    assert ((w | x) & y) | (w & x) == (w & x) ^ (w & y) ^ (x & y);
  }

  lemma Reorder(z: Word, f: Word, b: Word, k: Word, r: Word)
    ensures Plus5(z, f, b, k, r) == Plus5(r, f, z, k, b)
  {
  }

  // ---- The schedule

  ghost predicate IsSchedule(w: seq<Word>, raw: seq<Word>) {
    && |w| == 80 && |raw| == 16
    && (forall t :: 0 <= t < 16 ==> w[t] == Swap(raw[t]))
    && (forall t :: 16 <= t < 80 ==> Recurs(w, t))
  }

  /** The recurrence of section 6.1.2 at word t. */
  ghost predicate Recurs(w: seq<Word>, t: nat)
    requires 16 <= t < |w|
  {
    w[t] == Mix(w[t - 3], w[t - 8], w[t - 14], w[t - 16])
  }

  function Mix(p: Word, q: Word, r: Word, s: Word): Word { Rol1(p ^ q ^ r ^ s) }

  lemma SchedulePrefix(m: seq<Word>, n: nat, k: nat)
    requires |m| == 16 <= k <= n
    ensures Schedule(m, n)[..k] == Schedule(m, k)
    decreases n
  {
    hide Next;
    if k < n { SchedulePrefix(m, n - 1, k); }
  }

  lemma NextIsMix(w: seq<Word>)
    requires |w| >= 16
    ensures var n := |w|; Next(w) == Mix(w[n - 3], w[n - 8], w[n - 14], w[n - 16])
  {
    hide Rol1;
  }

  lemma ScheduleWord(m: seq<Word>, t: nat)
    requires |m| == 16 <= t < 80
    ensures Recurs(Schedule(m, 80), t)
  {
    hide Mix, Next;
    var w := Schedule(m, 80);
    NextIsMix(Schedule(m, t));
    SchedulePrefix(m, 80, t + 1);
    SchedulePrefix(m, 80, t);
    assert w[t] == w[..t + 1][t];
    assert Schedule(m, t + 1) == Schedule(m, t) + [Next(Schedule(m, t))];
    assert w[..t] == Schedule(m, t);
  }

  lemma ScheduleIsSchedule(m: seq<Word>, raw: seq<Word>)
    requires |m| == 16 && |raw| == 16
    requires forall t :: 0 <= t < 16 ==> m[t] == Swap(raw[t])
    ensures IsSchedule(Schedule(m, 80), raw)
  {
    hide Next, Swap, Schedule, Recurs;
    var w := Schedule(m, 80);
    assert forall t :: 0 <= t < 16 ==> w[t] == Swap(raw[t]) by {
      SchedulePrefix(m, 80, 16);
      ScheduleStart(m);
      assert forall t :: 0 <= t < 16 ==> w[t] == w[..16][t];
    }
    forall t | 16 <= t < 80
      ensures Recurs(w, t)
    {
      ScheduleWord(m, t);
    }
  }

  lemma ScheduleStart(m: seq<Word>)
    requires |m| == 16
    ensures Schedule(m, 16) == m
  {
  }

  /** Blk0 and blk leave the next schedule word in its slot and return it. */
  method Blk0(l: array<Word>, i: nat, ghost w: seq<Word>, ghost raw: seq<Word>) returns (r: Word)
    requires l.Length == 16 && i < 16 && IsSchedule(w, raw) && Window(l[..], raw, w, i)
    modifies l
    ensures r == w[i] && Window(l[..], raw, w, i + 1)
  {
    hide Swap;
    hide Mix;
    Advance(l[..], raw, w, i);
    l[i] := Swap(l[i]);
    r := l[i];
  }

  method Blk(l: array<Word>, i: nat, ghost w: seq<Word>, ghost raw: seq<Word>) returns (r: Word)
    requires l.Length == 16 && 16 <= i < 80 && IsSchedule(w, raw) && Window(l[..], raw, w, i)
    modifies l
    ensures r == w[i] && Window(l[..], raw, w, i + 1)
  {
    hide Swap;
    hide Mix;
    assert Recurs(w, i);
    Taps(l[..], raw, w, i);
    Advance(l[..], raw, w, i);
    l[i % 16] := Mix(l[(i + 13) % 16], l[(i + 8) % 16], l[(i + 2) % 16], l[i % 16]);
    r := l[i % 16];
  }

  // ---- The rounds

  /** Before round t: the window is at t, and v, w, x, y, z hold what the
      standard's registers a, b, c, d, e hold. */
  ghost predicate AtRound(h: Regs, ws: seq<Word>, raw: seq<Word>, l: seq<Word>, t: nat, r: Regs) {
    IsSchedule(ws, raw) && Window(l, raw, ws, t) && Rounds(h, ws, t) == r
  }

  method R0(v: Word, w: Word, x: Word, y: Word, z: Word, i: nat, l: array<Word>,
            ghost h: Regs, ghost ws: seq<Word>, ghost raw: seq<Word>)
    returns (z': Word, w': Word)
    requires l.Length == 16 && i < 16 && AtRound(h, ws, raw, l[..], i, Regs(v, w, x, y, z))
    modifies l
    ensures AtRound(h, ws, raw, l[..], i + 1, Regs(z', v, w', x, y))
  {
    hide Swap, Mix, ChMacro, Ch, Rol5, Rol30, Plus5;
    var b := Blk0(l, i, ws, raw);
    z' := Plus5(z, ChMacro(w, x, y), b, 0x5A827999, Rol5(v));
    w' := Rol30(w);
    ChoiceMacro(w, x, y);
    Reorder(z, ChMacro(w, x, y), b, 0x5A827999, Rol5(v));
  }

  method R1(v: Word, w: Word, x: Word, y: Word, z: Word, i: nat, l: array<Word>,
            ghost h: Regs, ghost ws: seq<Word>, ghost raw: seq<Word>)
    returns (z': Word, w': Word)
    requires l.Length == 16 && 16 <= i < 20 && AtRound(h, ws, raw, l[..], i, Regs(v, w, x, y, z))
    modifies l
    ensures AtRound(h, ws, raw, l[..], i + 1, Regs(z', v, w', x, y))
  {
    hide Swap, Mix, ChMacro, Ch, Rol5, Rol30, Plus5;
    var b := Blk(l, i, ws, raw);
    z' := Plus5(z, ChMacro(w, x, y), b, 0x5A827999, Rol5(v));
    w' := Rol30(w);
    ChoiceMacro(w, x, y);
    Reorder(z, ChMacro(w, x, y), b, 0x5A827999, Rol5(v));
  }

  method R2(v: Word, w: Word, x: Word, y: Word, z: Word, i: nat, l: array<Word>,
            ghost h: Regs, ghost ws: seq<Word>, ghost raw: seq<Word>)
    returns (z': Word, w': Word)
    requires l.Length == 16 && 20 <= i < 40 && AtRound(h, ws, raw, l[..], i, Regs(v, w, x, y, z))
    modifies l
    ensures AtRound(h, ws, raw, l[..], i + 1, Regs(z', v, w', x, y))
  {
    hide Swap, Mix, Parity, Rol5, Rol30, Plus5;
    var b := Blk(l, i, ws, raw);
    z' := Plus5(z, Parity(w, x, y), b, 0x6ED9EBA1, Rol5(v));
    w' := Rol30(w);
    Reorder(z, Parity(w, x, y), b, 0x6ED9EBA1, Rol5(v));
  }

  method R3(v: Word, w: Word, x: Word, y: Word, z: Word, i: nat, l: array<Word>,
            ghost h: Regs, ghost ws: seq<Word>, ghost raw: seq<Word>)
    returns (z': Word, w': Word)
    requires l.Length == 16 && 40 <= i < 60 && AtRound(h, ws, raw, l[..], i, Regs(v, w, x, y, z))
    modifies l
    ensures AtRound(h, ws, raw, l[..], i + 1, Regs(z', v, w', x, y))
  {
    hide Swap, Mix, MajMacro, Maj, Rol5, Rol30, Plus5;
    var b := Blk(l, i, ws, raw);
    z' := Plus5(z, MajMacro(w, x, y), b, 0x8F1BBCDC, Rol5(v));
    w' := Rol30(w);
    MajorityMacro(w, x, y);
    Reorder(z, MajMacro(w, x, y), b, 0x8F1BBCDC, Rol5(v));
  }

  method R4(v: Word, w: Word, x: Word, y: Word, z: Word, i: nat, l: array<Word>,
            ghost h: Regs, ghost ws: seq<Word>, ghost raw: seq<Word>)
    returns (z': Word, w': Word)
    requires l.Length == 16 && 60 <= i < 80 && AtRound(h, ws, raw, l[..], i, Regs(v, w, x, y, z))
    modifies l
    ensures AtRound(h, ws, raw, l[..], i + 1, Regs(z', v, w', x, y))
  {
    hide Swap, Mix, Parity, Rol5, Rol30, Plus5;
    var b := Blk(l, i, ws, raw);
    z' := Plus5(z, Parity(w, x, y), b, 0xCA62C1D6, Rol5(v));
    w' := Rol30(w);
    Reorder(z, Parity(w, x, y), b, 0xCA62C1D6, Rol5(v));
  }

  /** The choice rounds, 0 to 19, unrolled with the registers renamed. */
  method RoundsTo20(a0: Word, b0: Word, c0: Word, d0: Word, e0: Word, l: array<Word>,
                    ghost h: Regs, ghost ws: seq<Word>, ghost raw: seq<Word>)
    returns (a: Word, b: Word, c: Word, d: Word, e: Word)
    requires l.Length == 16 && AtRound(h, ws, raw, l[..], 0, Regs(a0, b0, c0, d0, e0))
    modifies l
    ensures AtRound(h, ws, raw, l[..], 20, Regs(a, b, c, d, e))
  {
    hide *;
    a, b, c, d, e := a0, b0, c0, d0, e0;
    e, b := R0(a, b, c, d, e, 0, l, h, ws, raw);
    d, a := R0(e, a, b, c, d, 1, l, h, ws, raw);
    c, e := R0(d, e, a, b, c, 2, l, h, ws, raw);
    b, d := R0(c, d, e, a, b, 3, l, h, ws, raw);
    a, c := R0(b, c, d, e, a, 4, l, h, ws, raw);
    e, b := R0(a, b, c, d, e, 5, l, h, ws, raw);
    d, a := R0(e, a, b, c, d, 6, l, h, ws, raw);
    c, e := R0(d, e, a, b, c, 7, l, h, ws, raw);
    b, d := R0(c, d, e, a, b, 8, l, h, ws, raw);
    a, c := R0(b, c, d, e, a, 9, l, h, ws, raw);
    e, b := R0(a, b, c, d, e, 10, l, h, ws, raw);
    d, a := R0(e, a, b, c, d, 11, l, h, ws, raw);
    c, e := R0(d, e, a, b, c, 12, l, h, ws, raw);
    b, d := R0(c, d, e, a, b, 13, l, h, ws, raw);
    a, c := R0(b, c, d, e, a, 14, l, h, ws, raw);
    e, b := R0(a, b, c, d, e, 15, l, h, ws, raw);
    d, a := R1(e, a, b, c, d, 16, l, h, ws, raw);
    c, e := R1(d, e, a, b, c, 17, l, h, ws, raw);
    b, d := R1(c, d, e, a, b, 18, l, h, ws, raw);
    a, c := R1(b, c, d, e, a, 19, l, h, ws, raw);
  }

  /** The first parity rounds, 20 to 39, unrolled with the registers renamed. */
  method RoundsTo40(a0: Word, b0: Word, c0: Word, d0: Word, e0: Word, l: array<Word>,
                    ghost h: Regs, ghost ws: seq<Word>, ghost raw: seq<Word>)
    returns (a: Word, b: Word, c: Word, d: Word, e: Word)
    requires l.Length == 16 && AtRound(h, ws, raw, l[..], 20, Regs(a0, b0, c0, d0, e0))
    modifies l
    ensures AtRound(h, ws, raw, l[..], 40, Regs(a, b, c, d, e))
  {
    hide *;
    a, b, c, d, e := a0, b0, c0, d0, e0;
    e, b := R2(a, b, c, d, e, 20, l, h, ws, raw);
    d, a := R2(e, a, b, c, d, 21, l, h, ws, raw);
    c, e := R2(d, e, a, b, c, 22, l, h, ws, raw);
    b, d := R2(c, d, e, a, b, 23, l, h, ws, raw);
    a, c := R2(b, c, d, e, a, 24, l, h, ws, raw);
    e, b := R2(a, b, c, d, e, 25, l, h, ws, raw);
    d, a := R2(e, a, b, c, d, 26, l, h, ws, raw);
    c, e := R2(d, e, a, b, c, 27, l, h, ws, raw);
    b, d := R2(c, d, e, a, b, 28, l, h, ws, raw);
    a, c := R2(b, c, d, e, a, 29, l, h, ws, raw);
    e, b := R2(a, b, c, d, e, 30, l, h, ws, raw);
    d, a := R2(e, a, b, c, d, 31, l, h, ws, raw);
    c, e := R2(d, e, a, b, c, 32, l, h, ws, raw);
    b, d := R2(c, d, e, a, b, 33, l, h, ws, raw);
    a, c := R2(b, c, d, e, a, 34, l, h, ws, raw);
    e, b := R2(a, b, c, d, e, 35, l, h, ws, raw);
    d, a := R2(e, a, b, c, d, 36, l, h, ws, raw);
    c, e := R2(d, e, a, b, c, 37, l, h, ws, raw);
    b, d := R2(c, d, e, a, b, 38, l, h, ws, raw);
    a, c := R2(b, c, d, e, a, 39, l, h, ws, raw);
  }

  /** The majority rounds, 40 to 59, unrolled with the registers renamed. */
  method RoundsTo60(a0: Word, b0: Word, c0: Word, d0: Word, e0: Word, l: array<Word>,
                    ghost h: Regs, ghost ws: seq<Word>, ghost raw: seq<Word>)
    returns (a: Word, b: Word, c: Word, d: Word, e: Word)
    requires l.Length == 16 && AtRound(h, ws, raw, l[..], 40, Regs(a0, b0, c0, d0, e0))
    modifies l
    ensures AtRound(h, ws, raw, l[..], 60, Regs(a, b, c, d, e))
  {
    hide *;
    a, b, c, d, e := a0, b0, c0, d0, e0;
    e, b := R3(a, b, c, d, e, 40, l, h, ws, raw);
    d, a := R3(e, a, b, c, d, 41, l, h, ws, raw);
    c, e := R3(d, e, a, b, c, 42, l, h, ws, raw);
    b, d := R3(c, d, e, a, b, 43, l, h, ws, raw);
    a, c := R3(b, c, d, e, a, 44, l, h, ws, raw);
    e, b := R3(a, b, c, d, e, 45, l, h, ws, raw);
    d, a := R3(e, a, b, c, d, 46, l, h, ws, raw);
    c, e := R3(d, e, a, b, c, 47, l, h, ws, raw);
    b, d := R3(c, d, e, a, b, 48, l, h, ws, raw);
    a, c := R3(b, c, d, e, a, 49, l, h, ws, raw);
    e, b := R3(a, b, c, d, e, 50, l, h, ws, raw);
    d, a := R3(e, a, b, c, d, 51, l, h, ws, raw);
    c, e := R3(d, e, a, b, c, 52, l, h, ws, raw);
    b, d := R3(c, d, e, a, b, 53, l, h, ws, raw);
    a, c := R3(b, c, d, e, a, 54, l, h, ws, raw);
    e, b := R3(a, b, c, d, e, 55, l, h, ws, raw);
    d, a := R3(e, a, b, c, d, 56, l, h, ws, raw);
    c, e := R3(d, e, a, b, c, 57, l, h, ws, raw);
    b, d := R3(c, d, e, a, b, 58, l, h, ws, raw);
    a, c := R3(b, c, d, e, a, 59, l, h, ws, raw);
  }

  /** The last parity rounds, 60 to 79, unrolled with the registers renamed. */
  method RoundsTo80(a0: Word, b0: Word, c0: Word, d0: Word, e0: Word, l: array<Word>,
                    ghost h: Regs, ghost ws: seq<Word>, ghost raw: seq<Word>)
    returns (a: Word, b: Word, c: Word, d: Word, e: Word)
    requires l.Length == 16 && AtRound(h, ws, raw, l[..], 60, Regs(a0, b0, c0, d0, e0))
    modifies l
    ensures AtRound(h, ws, raw, l[..], 80, Regs(a, b, c, d, e))
  {
    hide *;
    a, b, c, d, e := a0, b0, c0, d0, e0;
    e, b := R4(a, b, c, d, e, 60, l, h, ws, raw);
    d, a := R4(e, a, b, c, d, 61, l, h, ws, raw);
    c, e := R4(d, e, a, b, c, 62, l, h, ws, raw);
    b, d := R4(c, d, e, a, b, 63, l, h, ws, raw);
    a, c := R4(b, c, d, e, a, 64, l, h, ws, raw);
    e, b := R4(a, b, c, d, e, 65, l, h, ws, raw);
    d, a := R4(e, a, b, c, d, 66, l, h, ws, raw);
    c, e := R4(d, e, a, b, c, 67, l, h, ws, raw);
    b, d := R4(c, d, e, a, b, 68, l, h, ws, raw);
    a, c := R4(b, c, d, e, a, 69, l, h, ws, raw);
    e, b := R4(a, b, c, d, e, 70, l, h, ws, raw);
    d, a := R4(e, a, b, c, d, 71, l, h, ws, raw);
    c, e := R4(d, e, a, b, c, 72, l, h, ws, raw);
    b, d := R4(c, d, e, a, b, 73, l, h, ws, raw);
    a, c := R4(b, c, d, e, a, 74, l, h, ws, raw);
    e, b := R4(a, b, c, d, e, 75, l, h, ws, raw);
    d, a := R4(e, a, b, c, d, 76, l, h, ws, raw);
    c, e := R4(d, e, a, b, c, 77, l, h, ws, raw);
    b, d := R4(c, d, e, a, b, 78, l, h, ws, raw);
    a, c := R4(b, c, d, e, a, 79, l, h, ws, raw);
  }

  function RawWords(block: seq<Octet>): (m: seq<Word>)
    requires |block| == 64
    ensures |m| == 16
  {
    seq(16, i requires 0 <= i < 16 =>
      LittleEndian(block[4 * i], block[4 * i + 1], block[4 * i + 2], block[4 * i + 3]))
  }

  lemma RawWordsSwap(block: seq<Octet>)
    requires |block| == 64
    ensures forall t :: 0 <= t < 16 ==> BlockWords(block)[t] == Swap(RawWords(block)[t])
  {
    hide Swap, LittleEndian, BigEndian;
    forall t | 0 <= t < 16 ensures BlockWords(block)[t] == Swap(RawWords(block)[t]) {
      SwapIsBigEndian(block[4 * t], block[4 * t + 1], block[4 * t + 2], block[4 * t + 3]);
    }
  }

  lemma StartOfRounds(h: Regs, block: seq<Octet>, l: seq<Word>)
    requires |block| == 64 && l == RawWords(block)
    ensures AtRound(h, Schedule(BlockWords(block), 80), l, l, 0, h)
  {
    hide Swap, LittleEndian, BigEndian, Schedule, RawWords, BlockWords, IsSchedule;
    RawWordsSwap(block);
    ScheduleIsSchedule(BlockWords(block), l);
  }

  lemma EndOfRounds(h: Regs, block: seq<Octet>, raw: seq<Word>, l: seq<Word>, r: Regs)
    requires |block| == 64
    requires AtRound(h, Schedule(BlockWords(block), 80), raw, l, 80, r)
    ensures Compress(h, block) == AddRegs(h, r)
  {
    hide Schedule, BlockWords, IsSchedule, Rounds, AddRegs, Window;
  }

  function RegsOf(state: seq<Word>): Regs
    requires |state| == 5
  {
    Regs(state[0], state[1], state[2], state[3], state[4])
  }

  /** The memcpy of the block into sixteen machine words. */
  method LoadBlock(buffer: seq<Octet>) returns (l: array<Word>)
    requires |buffer| == 64
    ensures fresh(l) && l.Length == 16 && l[..] == RawWords(buffer)
  {
    hide LittleEndian;
    l := new Word[16](i requires 0 <= i < 16 => RawWords(buffer)[i]);
  }

  /** Adds the working variables back into the state. */
  method AddBack(state: array<Word>, r: Regs)
    requires state.Length == 5
    modifies state
    ensures RegsOf(state[..]) == AddRegs(old(RegsOf(state[..])), r)
  {
    hide Plus;
    state[0] := Plus(state[0], r.a);
    state[1] := Plus(state[1], r.b);
    state[2] := Plus(state[2], r.c);
    state[3] := Plus(state[3], r.d);
    state[4] := Plus(state[4], r.e);
  }

  lemma Unpack(state: array<Word>)
    requires state.Length == 5
    ensures RegsOf(state[..]) == Regs(state[0], state[1], state[2], state[3], state[4])
  {
  }

  /** One block: for every state and every 64 bytes the new state is the
      standard's. */
  method SHA1Transform(state: array<Word>, buffer: seq<Octet>)
    requires state.Length == 5 && |buffer| == 64
    modifies state
    ensures RegsOf(state[..]) == Compress(old(RegsOf(state[..])), buffer)
  {
    hide *;
    ghost var h := RegsOf(state[..]);
    var l := LoadBlock(buffer);
    ghost var raw := l[..];
    ghost var ws := Schedule(BlockWords(buffer), 80);
    StartOfRounds(h, buffer, raw);
    Unpack(state);
    var a, b, c, d, e := state[0], state[1], state[2], state[3], state[4];
    a, b, c, d, e := RoundsTo20(a, b, c, d, e, l, h, ws, raw);
    a, b, c, d, e := RoundsTo40(a, b, c, d, e, l, h, ws, raw);
    a, b, c, d, e := RoundsTo60(a, b, c, d, e, l, h, ws, raw);
    a, b, c, d, e := RoundsTo80(a, b, c, d, e, l, h, ws, raw);
    EndOfRounds(h, buffer, raw, l[..], Regs(a, b, c, d, e));
    AddBack(state, Regs(a, b, c, d, e));
  }
}
