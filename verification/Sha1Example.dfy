/** The first test vector of FIPS 180-1, the digest of "abc", with every
    schedule word and the registers after every fourth round; and the length at
    the end of the padding as a number. */
module Sha1Example {
  import opened Bits
  import opened Sha1Spec
  import opened Sha1Transform
  import opened Sha1
  import opened Limits

  /** Four consecutive schedule words. */
  datatype Four = Four(a: Word, b: Word, c: Word, d: Word)

  ghost predicate Row(w: seq<Word>, t: nat, f: Four)
    requires t + 4 <= |w|
  {
    w[t] == f.a && w[t + 1] == f.b && w[t + 2] == f.c && w[t + 3] == f.d
  }

  /** Four schedule words from the sixteen before them. */
  function NextFour(p: Four, q: Four, r: Four, s: Four): Four {
    var a := Mix(s.b, r.a, p.c, p.a);
    Four(a, Mix(s.c, r.b, p.d, p.b), Mix(s.d, r.c, q.a, p.c), Mix(a, r.d, q.b, p.d))
  }

  lemma RowNext(m: seq<Word>, t: nat, p: Four, q: Four, r: Four, s: Four)
    requires |m| == 16 <= t && t + 4 <= 80
    requires Row(Schedule(m, 80), t - 16, p) && Row(Schedule(m, 80), t - 12, q)
    requires Row(Schedule(m, 80), t - 8, r) && Row(Schedule(m, 80), t - 4, s)
    ensures Row(Schedule(m, 80), t, NextFour(p, q, r, s))
  {
    hide Schedule, Mix;
    ScheduleWord(m, t);
    ScheduleWord(m, t + 1);
    ScheduleWord(m, t + 2);
    ScheduleWord(m, t + 3);
  }

  function FourSteps(t: nat, r: Regs, f: Four): Regs {
    Step(t + 3, Step(t + 2, Step(t + 1, Step(t, r, f.a), f.b), f.c), f.d)
  }

  lemma RoundsFour(h: Regs, w: seq<Word>, t: nat, f: Four)
    requires t + 4 <= |w| && Row(w, t, f)
    ensures Rounds(h, w, t + 4) == FourSteps(t, Rounds(h, w, t), f)
  {
    hide Step, Rounds;
    OneRound(h, w, t);
    OneRound(h, w, t + 1);
    OneRound(h, w, t + 2);
    OneRound(h, w, t + 3);
  }

  lemma OneRound(h: Regs, w: seq<Word>, t: nat)
    requires t < |w|
    ensures Rounds(h, w, t + 1) == Step(t, Rounds(h, w, t), w[t])
  {
    hide Step;
  }

  // ---- The values of the example

  const W0 := Four(0x61626380, 0x0, 0x0, 0x0)
  const W1 := Four(0x0, 0x0, 0x0, 0x0)
  const W2 := Four(0x0, 0x0, 0x0, 0x0)
  const W3 := Four(0x0, 0x0, 0x0, 0x18)
  const W4 := Four(0xC2C4C700, 0x0, 0x30, 0x85898E01)
  const W5 := Four(0x0, 0x60, 0xB131C03, 0x30)
  const W6 := Four(0x85898EC1, 0x16263806, 0x0, 0x180)
  const W7 := Four(0x2C4C700C, 0xF0, 0x93AFB507, 0x5898E048)
  const W8 := Four(0x8E9A9202, 0x600, 0xB131C0F0, 0x16263BC6)
  const W9 := Four(0x4EBED41E, 0x626380A1, 0x16263806, 0x18C0)
  const W10 := Four(0xD2E138C4, 0xF00, 0x3AFB5079, 0x898E04E5)
  const W11 := Four(0xE2BA3C2B, 0x60C0, 0x53A37CD, 0x74458547)
  const W12 := Four(0xDA9415ED, 0x26380A16, 0x626383A1, 0x4EBF54DE)
  const W13 := Four(0x3835B44B, 0xF600, 0x1E84C7A3, 0x98E04D98)
  const W14 := Four(0x651D16A0, 0x62658CA1, 0x458544D6, 0x44584CB7)
  const W15 := Four(0x7BA06619, 0x6380AEA2, 0xAE55269, 0x627B49A1)
  const W16 := Four(0x7CD45C9D, 0xF0000, 0xFB50753A, 0xEC6765E8)
  const W17 := Four(0xBA3C2BE2, 0x60C000, 0x3A37CD05, 0x458546F4)
  const W18 := Four(0xB8599DD6, 0x380A1A26, 0x1E02203, 0xE7CC3456)
  const W19 := Four(0xE6E60B69, 0xF60A00, 0x5795EF4F, 0x822E0879)

  const R1 := Regs(0xCDD8E11B, 0xA1390F08, 0x626414DB, 0xC045BF0C, 0x59D148C0)
  const R2 := Regs(0x9E8C07D4, 0x993E30C1, 0xFF1F290, 0xB3F52677, 0xF3763846)
  const R3 := Regs(0x63188FE4, 0xFBDA9E89, 0x60D47E4A, 0x12DAB8CA, 0x27A301F5)
  const R4 := Regs(0x20BDD62F, 0x196BEE77, 0x644A3DA5, 0x1181ED99, 0x18C623F9)
  const R5 := Regs(0xFD9E1D7D, 0xDC64901D, 0x20AA99CA, 0xD3A49608, 0xC82F758B)
  const R6 := Regs(0xD541F12D, 0x21283486, 0xCE88EFF, 0x868DEC32, 0x7F67875F)
  const R7 := Regs(0x4AA84D97, 0xBE35FBD5, 0x12104EE9, 0xB1D59F71, 0x75507C4B)
  const R8 := Regs(0x3B845D33, 0x1267B407, 0x717EEBD7, 0xA0DC2D4B, 0xD2AA1365)
  const R9 := Regs(0xDCBBB0CB, 0x21796AD4, 0x4B03AF04, 0x811BEA82, 0xCEE1174C)
  const R10 := Regs(0x32DE1CBA, 0x4C986405, 0xF718E5CF, 0x3D447F6, 0xF72EEC32)
  const R11 := Regs(0xEE1B1AAF, 0x7F193DC5, 0x25C28357, 0xFF21F7B7, 0x8CB7872E)
  const R12 := Regs(0xBEAD02CA, 0xA01B846C, 0x8714787C, 0x503CA382, 0xFB86C6AB)
  const R13 := Regs(0x3847AD66, 0x641DB2CE, 0x4481CC71, 0xEEBCE4CD, 0xAFAB40B2)
  const R14 := Regs(0x5E6456AF, 0x7B71F76D, 0x9FA7C76, 0x792410DB, 0x8E11EB59)
  const R15 := Regs(0x3F52DE5A, 0x9D785FD, 0x3498BFD4, 0xF211824F, 0xD79915AB)
  const R16 := Regs(0x6B61C9E1, 0xB66C020B, 0x9523272C, 0xF5D5B051, 0x8FD4B796)
  const R17 := Regs(0x78DD4D2B, 0xC3DF2B4, 0x4405957E, 0x677E9EB, 0x5AD87278)
  const R18 := Regs(0x39859DE7, 0xC199F8C7, 0x8FC96230, 0x125C24F0, 0xDE37534A)
  const R19 := Regs(0x63F7DAB7, 0x5EE76897, 0xC45E4FDB, 0x3B6D0B79, 0xCE616779)
  const R20 := Regs(0x42541B35, 0x5738D5E1, 0x21834873, 0x681E6DF6, 0xD8FDF6AD)

  lemma Words4To11()
    ensures NextFour(W0, W1, W2, W3) == W4
    ensures NextFour(W1, W2, W3, W4) == W5
    ensures NextFour(W2, W3, W4, W5) == W6
    ensures NextFour(W3, W4, W5, W6) == W7
    ensures NextFour(W4, W5, W6, W7) == W8
    ensures NextFour(W5, W6, W7, W8) == W9
    ensures NextFour(W6, W7, W8, W9) == W10
    ensures NextFour(W7, W8, W9, W10) == W11
  {
  }

  lemma Words12To19()
    ensures NextFour(W8, W9, W10, W11) == W12
    ensures NextFour(W9, W10, W11, W12) == W13
    ensures NextFour(W10, W11, W12, W13) == W14
    ensures NextFour(W11, W12, W13, W14) == W15
    ensures NextFour(W12, W13, W14, W15) == W16
    ensures NextFour(W13, W14, W15, W16) == W17
    ensures NextFour(W14, W15, W16, W17) == W18
    ensures NextFour(W15, W16, W17, W18) == W19
  {
  }

  lemma Regs1To5()
    ensures FourSteps(0, INITIAL, W0) == R1
    ensures FourSteps(4, R1, W1) == R2
    ensures FourSteps(8, R2, W2) == R3
    ensures FourSteps(12, R3, W3) == R4
    ensures FourSteps(16, R4, W4) == R5
  {
  }

  lemma Regs6To10()
    ensures FourSteps(20, R5, W5) == R6
    ensures FourSteps(24, R6, W6) == R7
    ensures FourSteps(28, R7, W7) == R8
    ensures FourSteps(32, R8, W8) == R9
    ensures FourSteps(36, R9, W9) == R10
  {
  }

  lemma Regs11To15()
    ensures FourSteps(40, R10, W10) == R11
    ensures FourSteps(44, R11, W11) == R12
    ensures FourSteps(48, R12, W12) == R13
    ensures FourSteps(52, R13, W13) == R14
    ensures FourSteps(56, R14, W14) == R15
  {
  }

  lemma Regs16To20()
    ensures FourSteps(60, R15, W15) == R16
    ensures FourSteps(64, R16, W16) == R17
    ensures FourSteps(68, R17, W17) == R18
    ensures FourSteps(72, R18, W18) == R19
    ensures FourSteps(76, R19, W19) == R20
  {
  }

  lemma {:induction false} AllRows(m: seq<Word>)
    requires |m| == 16
    requires Row(m, 0, W0) && Row(m, 4, W1) && Row(m, 8, W2) && Row(m, 12, W3)
    ensures Row(Schedule(m, 80), 0, W0) && Row(Schedule(m, 80), 4, W1)
    ensures Row(Schedule(m, 80), 8, W2) && Row(Schedule(m, 80), 12, W3)
    ensures Row(Schedule(m, 80), 16, W4) && Row(Schedule(m, 80), 20, W5)
    ensures Row(Schedule(m, 80), 24, W6) && Row(Schedule(m, 80), 28, W7)
    ensures Row(Schedule(m, 80), 32, W8) && Row(Schedule(m, 80), 36, W9)
    ensures Row(Schedule(m, 80), 40, W10) && Row(Schedule(m, 80), 44, W11)
    ensures Row(Schedule(m, 80), 48, W12) && Row(Schedule(m, 80), 52, W13)
    ensures Row(Schedule(m, 80), 56, W14) && Row(Schedule(m, 80), 60, W15)
    ensures Row(Schedule(m, 80), 64, W16) && Row(Schedule(m, 80), 68, W17)
    ensures Row(Schedule(m, 80), 72, W18) && Row(Schedule(m, 80), 76, W19)
  {
    hide *;
    FirstRows(m);
    Words4To11();
    Words12To19();
    RowNext(m, 16, W0, W1, W2, W3);
    RowNext(m, 20, W1, W2, W3, W4);
    RowNext(m, 24, W2, W3, W4, W5);
    RowNext(m, 28, W3, W4, W5, W6);
    RowNext(m, 32, W4, W5, W6, W7);
    RowNext(m, 36, W5, W6, W7, W8);
    RowNext(m, 40, W6, W7, W8, W9);
    RowNext(m, 44, W7, W8, W9, W10);
    RowNext(m, 48, W8, W9, W10, W11);
    RowNext(m, 52, W9, W10, W11, W12);
    RowNext(m, 56, W10, W11, W12, W13);
    RowNext(m, 60, W11, W12, W13, W14);
    RowNext(m, 64, W12, W13, W14, W15);
    RowNext(m, 68, W13, W14, W15, W16);
    RowNext(m, 72, W14, W15, W16, W17);
    RowNext(m, 76, W15, W16, W17, W18);
  }

  lemma FirstRows(m: seq<Word>)
    requires |m| == 16
    requires Row(m, 0, W0) && Row(m, 4, W1) && Row(m, 8, W2) && Row(m, 12, W3)
    ensures Row(Schedule(m, 80), 0, W0) && Row(Schedule(m, 80), 4, W1)
    ensures Row(Schedule(m, 80), 8, W2) && Row(Schedule(m, 80), 12, W3)
  {
    hide Schedule;
    SchedulePrefix(m, 80, 16);
    ScheduleStart(m);
    assert forall t :: 0 <= t < 16 ==> Schedule(m, 80)[t] == Schedule(m, 80)[..16][t];
  }

  lemma AllRounds(m: seq<Word>)
    requires |m| == 16
    requires Row(m, 0, W0) && Row(m, 4, W1) && Row(m, 8, W2) && Row(m, 12, W3)
    ensures Rounds(INITIAL, Schedule(m, 80), 80) == R20
  {
    hide *;
    AllRows(m);
    NoRounds(Schedule(m, 80));
    Regs1To5();
    Regs6To10();
    Regs11To15();
    Regs16To20();
    RoundsFour(INITIAL, Schedule(m, 80), 0, W0);
    RoundsFour(INITIAL, Schedule(m, 80), 4, W1);
    RoundsFour(INITIAL, Schedule(m, 80), 8, W2);
    RoundsFour(INITIAL, Schedule(m, 80), 12, W3);
    RoundsFour(INITIAL, Schedule(m, 80), 16, W4);
    RoundsFour(INITIAL, Schedule(m, 80), 20, W5);
    RoundsFour(INITIAL, Schedule(m, 80), 24, W6);
    RoundsFour(INITIAL, Schedule(m, 80), 28, W7);
    RoundsFour(INITIAL, Schedule(m, 80), 32, W8);
    RoundsFour(INITIAL, Schedule(m, 80), 36, W9);
    RoundsFour(INITIAL, Schedule(m, 80), 40, W10);
    RoundsFour(INITIAL, Schedule(m, 80), 44, W11);
    RoundsFour(INITIAL, Schedule(m, 80), 48, W12);
    RoundsFour(INITIAL, Schedule(m, 80), 52, W13);
    RoundsFour(INITIAL, Schedule(m, 80), 56, W14);
    RoundsFour(INITIAL, Schedule(m, 80), 60, W15);
    RoundsFour(INITIAL, Schedule(m, 80), 64, W16);
    RoundsFour(INITIAL, Schedule(m, 80), 68, W17);
    RoundsFour(INITIAL, Schedule(m, 80), 72, W18);
    RoundsFour(INITIAL, Schedule(m, 80), 76, W19);
  }

  lemma NoRounds(w: seq<Word>)
    ensures Rounds(INITIAL, w, 0) == INITIAL
  {
  }

  // ---- The length at the end of the padding

  /** Byte k of a number, by division. */
  lemma {:induction false} ByteIs(n: nat, k: nat)
    ensures ByteAt(n, k) == (n / Pow2(8 * k) % 256) as Octet
  {
    if k > 0 {
      hide Pow2;
      Peel(n, k);
      ByteIs(n / 256, k - 1);
      PowEight(8 * (k - 1));
      DivDiv(n, Pow2(8 * (k - 1)));
    } else {
      assert n / 1 == n;
    }
  }

  lemma DivDiv(n: nat, p: nat)
    requires p > 0
    ensures n / 256 / p == n / (256 * p)
  {
    var q := n / 256;
    var a, b := q / p, q % p;
    assert q == a * p + b;
    assert n == 256 * q + n % 256;
    assert 256 * (a * p) == a * (256 * p);
    Quotient(n, a, 256 * p, 256 * b + n % 256);
  }

  lemma PowEight(j: nat)
    ensures Pow2(j + 8) == 256 * Pow2(j)
  {
    assert Pow2(j + 2) == 4 * Pow2(j);
    assert Pow2(j + 4) == 4 * Pow2(j + 2);
    assert Pow2(j + 6) == 4 * Pow2(j + 4);
    assert Pow2(j + 8) == 4 * Pow2(j + 6);
  }

  /** The last eight bytes of the padding: the length in bits modulo 2^64, the
      most significant byte first. */
  lemma LengthNumber(n: nat)
    ensures var bits := (8 * n) % 0x1_0000_0000_0000_0000;
            forall i :: 0 <= i < 8 ==> LengthBytes(n)[i] == (bits / Pow2(56 - 8 * i) % 256) as Octet
  {
    hide ByteAt, Pow2;
    var bits := (8 * n) % 0x1_0000_0000_0000_0000;
    forall i | 0 <= i < 8 ensures LengthBytes(n)[i] == (bits / Pow2(56 - 8 * i) % 256) as Octet {
      ByteIs(bits, 7 - i);
    }
  }

  // ---- The digest

  lemma {:induction false} ZeroByte(k: nat)
    ensures ByteAt(0, k) == 0
  {
    if k > 0 {
      ZeroByte(k - 1);
    }
  }

  lemma ShortLength()
    ensures LengthBytes(3) == Repeat<Octet>(0, 7) + [24]
  {
    forall k | 0 < k < 8 ensures ByteAt(24, k) == 0 {
      Peel(24, k);
      ZeroByte(k - 1);
    }
    assert ByteAt(24, 0) == 24;
    hide ByteAt;
    var bits := (8 * 3) % 0x1_0000_0000_0000_0000;
    assert bits == 24;
    assert LengthBytes(3)[7] == 24;
    assert forall i :: 0 <= i < 7 ==> LengthBytes(3)[i] == ByteAt(24, 7 - i);
  }

  /** The padded message, one block. */
  function Block(): (b: seq<Octet>)
    ensures |b| == 64
  {
    [0x61, 0x62, 0x63, 0x80] + Repeat<Octet>(0, 59) + [24]
  }

  lemma Padded()
    ensures Pad([0x61, 0x62, 0x63]) == Block()
  {
    hide LengthBytes;
    ShortLength();
  }

  lemma BlockRows()
    ensures var m := BlockWords(Block()); Row(m, 0, W0) && Row(m, 4, W1) && Row(m, 8, W2) && Row(m, 12, W3)
  {
  }

  lemma Folded()
    ensures Fold(INITIAL, Block()) == AddRegs(INITIAL, R20)
  {
    hide Block, AddRegs, Rounds, Schedule, BlockWords, Row;
    BlockRows();
    AllRounds(BlockWords(Block()));
    assert Block()[..0] == [] && Block()[0..] == Block();
  }

  /** The digest of "abc", the first of the test vectors of FIPS 180-1. */
  lemma KnownDigest()
    ensures Digest([0x61, 0x62, 0x63]) ==
            [0xA9, 0x99, 0x3E, 0x36, 0x47, 0x06, 0x81, 0x6A, 0xBA, 0x3E,
             0x25, 0x71, 0x78, 0x50, 0xC2, 0x6C, 0x9C, 0xD0, 0xD8, 0x9D]
  {
    hide Pad, Fold, Block, Rounds;
    Padded();
    Folded();
  }
}
