/** Known answers of the old scramble: the hash of "mypass", the hash of the
    salt "abcdefgh" and the eight bytes that answer that salt. */
module OldExample {
  import opened Bits
  import opened OldPassword
  import opened Doubles
  import opened Scramble

  // ---- Exclusive or by bytes

  lemma OctetParts(x: bv8)
    ensures Odd(x as nat) == (x & 1) as nat && Half(x as nat) == (x >> 1) as nat
  {
  }

  lemma OddOctet(x: bv8, y: bv8)
    ensures OddSum(x as nat, y as nat) == ((x ^ y) & 1) as nat
    ensures (x >> 1) ^ (y >> 1) == (x ^ y) >> 1
  {
    hide Odd;
    OctetParts(x);
    OctetParts(y);
    OneBit(x & 1, y & 1);
    assert (x ^ y) & 1 == (x & 1) ^ (y & 1);
  }

  lemma OneBit(x: bv8, y: bv8)
    requires x <= 1 && y <= 1
    ensures (x as nat + y as nat) % 2 == (x ^ y) as nat
  {
    assert x == 0 || x == 1;
    assert y == 0 || y == 1;
  }

  lemma {:induction false} XorSmall(x: bv8, y: bv8, k: nat)
    requires k <= 8 && x as nat < Pow2(k) && y as nat < Pow2(k)
    ensures Xor(x as nat, y as nat) == (x ^ y) as nat
    decreases k
  {
    hide *;
    if k > 0 {
      FewerBits(x, k);
      FewerBits(y, k);
      XorSmall(x >> 1, y >> 1, k - 1);
      XorMore(x, y);
    } else {
      NoBits(x, y);
    }
  }

  lemma FewerBits(x: bv8, k: nat)
    requires k > 0 && x as nat < Pow2(k)
    ensures (x >> 1) as nat < Pow2(k - 1)
  {
    hide Half;
    OctetParts(x);
    HalfBound(x as nat, k);
  }

  lemma XorMore(x: bv8, y: bv8)
    requires Xor((x >> 1) as nat, (y >> 1) as nat) == ((x >> 1) ^ (y >> 1)) as nat
    ensures Xor(x as nat, y as nat) == (x ^ y) as nat
  {
    hide *;
    XorParts(x as nat, y as nat);
    OctetParts(x);
    OctetParts(y);
    OddOctet(x, y);
    OctetParts(x ^ y);
    HalfAndOdd((x ^ y) as nat);
  }

  lemma NoBits(x: bv8, y: bv8)
    requires x as nat < Pow2(0) && y as nat < Pow2(0)
    ensures Xor(x as nat, y as nat) == (x ^ y) as nat
  {
    assert x == 0 && y == 0;
    XorZero();
  }

  lemma HalfBound(n: nat, k: nat)
    requires k > 0 && n < Pow2(k)
    ensures Half(n) < Pow2(k - 1)
  {
  }

  lemma HalfAndOdd(n: nat)
    ensures n == Odd(n) + 2 * Half(n)
  {
  }

  lemma PowEight()
    ensures Pow2(8) == 256
  {
    assert Pow2(4) == 16;
  }

  lemma XorOctet(x: bv8, y: bv8)
    ensures Xor(x as nat, y as nat) == (x ^ y) as nat
  {
    PowEight();
    XorSmall(x, y, 8);
  }

  /** One byte more behind a number. */
  function Append(a: nat, x: bv8): nat { 256 * a + x as nat }

  /** Exclusive or of two numbers, their last bytes apart. */
  lemma XorLast(a: nat, b: nat, x: bv8, y: bv8)
    ensures Xor(Append(a, x), Append(b, y)) == Append(Xor(a, b), x ^ y)
  {
    hide Xor, Low, High, Pow2;
    var u, v := Append(a, x), Append(b, y);
    PowEight();
    LastByte(u, a, x as nat);
    LastByte(v, b, y as nat);
    XorHigh(u, v, 8);
    XorLow(u, v, 8);
    XorOctet(x, y);
    Split(Xor(u, v), 8);
  }

  lemma LastByte(u: nat, a: nat, x: nat)
    requires u == 256 * a + x && x < 256
    ensures High(u, 8) == a && Low(u, 8) == x
  {
    hide Low, High;
    PowEight();
    Split(u, 8);
  }

  /** Four bytes, the highest first. */
  function Join(p: bv8, q: bv8, r: bv8, s: bv8): nat {
    Append(Append(Append(p as nat, q), r), s)
  }

  lemma XorJoin(p: bv8, q: bv8, r: bv8, s: bv8, p': bv8, q': bv8, r': bv8, s': bv8)
    ensures Xor(Join(p, q, r, s), Join(p', q', r', s')) == Join(p ^ p', q ^ q', r ^ r', s ^ s')
  {
    hide Xor, Append;
    XorOctet(p, p');
    XorLast(p as nat, p' as nat, q, q');
    XorLast(Append(p as nat, q), Append(p' as nat, q'), r, r');
    XorLast(Append(Append(p as nat, q), r), Append(Append(p' as nat, q'), r'), s, s');
  }

  // ---- One stirring in 32 bits

  lemma Low32(n: nat)
    ensures Low(n, 32) == n % 0x1_0000_0000
  {
    hide Low, High, Pow2;
    Split(n, 32);
    Pow32();
    ModOf(n, High(n, 32), Low(n, 32));
  }

  lemma Pow32()
    ensures Pow2(32) == 0x1_0000_0000
  {
    PowAdd(8, 8);
    PowAdd(16, 16);
    PowEight();
  }

  lemma ModOf(n: nat, h: nat, l: nat)
    requires n == h * 0x1_0000_0000 + l && l < 0x1_0000_0000
    ensures n % 0x1_0000_0000 == l
  {
  }

  /** One character on a 32-bit machine, given the two exclusive ors. */
  lemma StirStep(s: Hash, c: byte, f: nat, nr: nat, shifted: nat, x: nat)
    requires c != 32 && c != 9 && s.add < 0x1_0000_0000 && s.nr < 0x1_0000_0000 && s.nr2 < 0x1_0000_0000
    requires f == ((s.nr % 64 + s.add) % 0x1_0000_0000 * c % 0x1_0000_0000 + 256 * s.nr % 0x1_0000_0000) % 0x1_0000_0000
    requires Xor(s.nr, f) == nr
    requires shifted == 256 * s.nr2 % 0x1_0000_0000 && Xor(shifted, nr) == x
    ensures Stir(s, c, 32) == Hash(nr, (s.add + c) % 0x1_0000_0000, (s.nr2 + x) % 0x1_0000_0000)
  {
    hide Low, Xor, Feed, Second;
    FeedIs(s.nr, s.add, c);
    Low32(s.add + c);
    SecondIs(s.nr2, nr, shifted, x);
  }

  lemma FeedIs(nr: nat, add: nat, c: byte)
    ensures Feed(nr, add, c, 32)
         == ((nr % 64 + add) % 0x1_0000_0000 * c % 0x1_0000_0000 + 256 * nr % 0x1_0000_0000) % 0x1_0000_0000
  {
    hide Low;
    var a := (nr % 64 + add) % 0x1_0000_0000;
    Low32(nr % 64 + add);
    Low32(a * c);
    Low32(256 * nr);
    Low32(a * c % 0x1_0000_0000 + 256 * nr % 0x1_0000_0000);
  }

  lemma SecondIs(nr2: nat, nr: nat, shifted: nat, x: nat)
    requires shifted == 256 * nr2 % 0x1_0000_0000 && Xor(shifted, nr) == x
    ensures Second(nr2, nr, 32) == (nr2 + x) % 0x1_0000_0000
  {
    hide Low, Xor;
    Low32(256 * nr2);
    Low32(nr2 + x);
  }

  lemma StirFirst(s: Hash, c: byte, rest: seq<byte>)
    ensures StirAll(s, [c] + rest, 32) == StirAll(Stir(s, c, 32), rest, 32)
  {
    hide Stir;
    assert ([c] + rest)[1..] == rest;
  }

  lemma StirEnd(s: Hash)
    ensures StirAll(s, [], 32) == s
  {
  }

  // ---- The hashes

  lemma Low31(n: nat)
    ensures Low(n, 31) == n % 0x8000_0000
  {
    hide Low, High, Pow2;
    Split(n, 31);
    Pow32();
    assert Pow2(32) == 2 * Pow2(31) by { PowAdd(1, 31); PowOne(); }
    Mod31(n, High(n, 31), Low(n, 31));
  }

  lemma PowOne()
    ensures Pow2(1) == 2
  {
  }

  lemma Mod31(n: nat, h: nat, l: nat)
    requires n == h * 0x8000_0000 + l && l < 0x8000_0000
    ensures n % 0x8000_0000 == l
  {
  }

  lemma StartIs()
    ensures START == Hash(0x50305735, 0x7, 0x12345671)
  {
  }

  lemma MyPass1()
    ensures Stir(Hash(0x50305735, 0x7, 0x12345671), 109, 32)
         == Hash(0x606719B9, 0x74, 0x6665BF2A)
  {
    hide Xor, Stir;
    assert Xor(0x50305735, 0x30574E8C) == 0x606719B9 by { XorJoin(0x50, 0x30, 0x57, 0x35, 0x30, 0x57, 0x4E, 0x8C); }
    assert Xor(0x34567100, 0x606719B9) == 0x543168B9 by { XorJoin(0x34, 0x56, 0x71, 0x00, 0x60, 0x67, 0x19, 0xB9); }
    StirStep(Hash(0x50305735, 0x7, 0x12345671), 109, 0x30574E8C, 0x606719B9, 0x34567100, 0x543168B9);
  }

  lemma MyPass2()
    ensures Stir(Hash(0x606719B9, 0x74, 0x6665BF2A), 121, 32)
         == Hash(0x77D137C, 0xED, 0xC927F8A6)
  {
    hide Xor, Stir;
    assert Xor(0x606719B9, 0x671A0AC5) == 0x77D137C by { XorJoin(0x60, 0x67, 0x19, 0xB9, 0x67, 0x1A, 0x0A, 0xC5); }
    assert Xor(0x65BF2A00, 0x77D137C) == 0x62C2397C by { XorJoin(0x65, 0xBF, 0x2A, 0x00, 0x07, 0x7D, 0x13, 0x7C); }
    StirStep(Hash(0x606719B9, 0x74, 0x6665BF2A), 121, 0x671A0AC5, 0x77D137C, 0x65BF2A00, 0x62C2397C);
  }

  lemma MyPass3()
    ensures Stir(Hash(0x77D137C, 0xED, 0xC927F8A6), 112, 32)
         == Hash(0x7A6EEE8C, 0x15D, 0x26BE4132)
  {
    hide Xor, Stir;
    assert Xor(0x77D137C, 0x7D13FDF0) == 0x7A6EEE8C by { XorJoin(0x07, 0x7D, 0x13, 0x7C, 0x7D, 0x13, 0xFD, 0xF0); }
    assert Xor(0x27F8A600, 0x7A6EEE8C) == 0x5D96488C by { XorJoin(0x27, 0xF8, 0xA6, 0x00, 0x7A, 0x6E, 0xEE, 0x8C); }
    StirStep(Hash(0x77D137C, 0xED, 0xC927F8A6), 112, 0x7D13FDF0, 0x7A6EEE8C, 0x27F8A600, 0x5D96488C);
  }

  lemma MyPass4()
    ensures Stir(Hash(0x7A6EEE8C, 0x15D, 0x26BE4132), 97, 32)
         == Hash(0x1481FA45, 0x1BE, 0xD17F0977)
  {
    hide Xor, Stir;
    assert Xor(0x7A6EEE8C, 0x6EEF14C9) == 0x1481FA45 by { XorJoin(0x7A, 0x6E, 0xEE, 0x8C, 0x6E, 0xEF, 0x14, 0xC9); }
    assert Xor(0xBE413200, 0x1481FA45) == 0xAAC0C845 by { XorJoin(0xBE, 0x41, 0x32, 0x00, 0x14, 0x81, 0xFA, 0x45); }
    StirStep(Hash(0x7A6EEE8C, 0x15D, 0x26BE4132), 97, 0x6EEF14C9, 0x1481FA45, 0xBE413200, 0xAAC0C845);
  }

  lemma MyPass5()
    ensures Stir(Hash(0x1481FA45, 0x1BE, 0xD17F0977), 115, 32)
         == Hash(0x957AF5DC, 0x231, 0xBBF28C53)
  {
    hide Xor, Stir;
    assert Xor(0x1481FA45, 0x81FB0F99) == 0x957AF5DC by { XorJoin(0x14, 0x81, 0xFA, 0x45, 0x81, 0xFB, 0x0F, 0x99); }
    assert Xor(0x7F097700, 0x957AF5DC) == 0xEA7382DC by { XorJoin(0x7F, 0x09, 0x77, 0x00, 0x95, 0x7A, 0xF5, 0xDC); }
    StirStep(Hash(0x1481FA45, 0x1BE, 0xD17F0977), 115, 0x81FB0F99, 0x957AF5DC, 0x7F097700, 0xEA7382DC);
  }

  lemma MyPass6()
    ensures Stir(Hash(0x957AF5DC, 0x231, 0xBBF28C53), 115, 32)
         == Hash(0xEF8C114B, 0x2A4, 0xD8F2CE9E)
  {
    hide Xor, Stir;
    assert Xor(0x957AF5DC, 0x7AF6E497) == 0xEF8C114B by { XorJoin(0x95, 0x7A, 0xF5, 0xDC, 0x7A, 0xF6, 0xE4, 0x97); }
    assert Xor(0xF28C5300, 0xEF8C114B) == 0x1D00424B by { XorJoin(0xF2, 0x8C, 0x53, 0x00, 0xEF, 0x8C, 0x11, 0x4B); }
    StirStep(Hash(0x957AF5DC, 0x231, 0xBBF28C53), 115, 0x7AF6E497, 0xEF8C114B, 0xF28C5300, 0x1D00424B);
  }

  lemma MyPassStirred()
    ensures StirAll(START, [109, 121, 112, 97, 115, 115], 32) == Hash(0xEF8C114B, 0x2A4, 0xD8F2CE9E)
  {
    hide *;
    StartIs();
    MyPass1();
    StirFirst(Hash(0x50305735, 0x7, 0x12345671), 109, [121, 112, 97, 115, 115]);
    assert [109] + [121, 112, 97, 115, 115] == [109, 121, 112, 97, 115, 115];
    MyPass2();
    StirFirst(Hash(0x606719B9, 0x74, 0x6665BF2A), 121, [112, 97, 115, 115]);
    assert [121] + [112, 97, 115, 115] == [121, 112, 97, 115, 115];
    MyPass3();
    StirFirst(Hash(0x77D137C, 0xED, 0xC927F8A6), 112, [97, 115, 115]);
    assert [112] + [97, 115, 115] == [112, 97, 115, 115];
    MyPass4();
    StirFirst(Hash(0x7A6EEE8C, 0x15D, 0x26BE4132), 97, [115, 115]);
    assert [97] + [115, 115] == [97, 115, 115];
    MyPass5();
    StirFirst(Hash(0x1481FA45, 0x1BE, 0xD17F0977), 115, [115]);
    assert [115] + [115] == [115, 115];
    MyPass6();
    StirFirst(Hash(0x957AF5DC, 0x231, 0xBBF28C53), 115, []);
    assert [115] + [] == [115];
    StirEnd(Hash(0xEF8C114B, 0x2A4, 0xD8F2CE9E));
  }

  /** The hash of "mypass", in the order the two halves are returned. */
  lemma MyPass()
    ensures OldHash([109, 121, 112, 97, 115, 115], 32) == (0x6F8C114B, 0x58F2CE9E)
  {
    hide StirAll, Low;
    MyPassStirred();
    Low31(0xEF8C114B);
    Low31(0xD8F2CE9E);
  }

  lemma AbcToH1()
    ensures Stir(Hash(0x50305735, 0x7, 0x12345671), 97, 32)
         == Hash(0x60671C89, 0x68, 0x6665C3FA)
  {
    hide Xor, Stir;
    assert Xor(0x50305735, 0x30574BBC) == 0x60671C89 by { XorJoin(0x50, 0x30, 0x57, 0x35, 0x30, 0x57, 0x4B, 0xBC); }
    assert Xor(0x34567100, 0x60671C89) == 0x54316D89 by { XorJoin(0x34, 0x56, 0x71, 0x00, 0x60, 0x67, 0x1C, 0x89); }
    StirStep(Hash(0x50305735, 0x7, 0x12345671), 97, 0x30574BBC, 0x60671C89, 0x34567100, 0x54316D89);
  }

  lemma AbcToH2()
    ensures Stir(Hash(0x60671C89, 0x68, 0x6665C3FA), 98, 32)
         == Hash(0x77BA8CB, 0xCA, 0xC91E16C5)
  {
    hide Xor, Stir;
    assert Xor(0x60671C89, 0x671CB442) == 0x77BA8CB by { XorJoin(0x60, 0x67, 0x1C, 0x89, 0x67, 0x1C, 0xB4, 0x42); }
    assert Xor(0x65C3FA00, 0x77BA8CB) == 0x62B852CB by { XorJoin(0x65, 0xC3, 0xFA, 0x00, 0x07, 0x7B, 0xA8, 0xCB); }
    StirStep(Hash(0x60671C89, 0x68, 0x6665C3FA), 98, 0x671CB442, 0x77BA8CB, 0x65C3FA00, 0x62B852CB);
  }

  lemma AbcToH3()
    ensures Stir(Hash(0x77BA8CB, 0xCA, 0xC91E16C5), 99, 32)
         == Hash(0x7CD2B594, 0x12D, 0x2BE28759)
  {
    hide Xor, Stir;
    assert Xor(0x77BA8CB, 0x7BA91D5F) == 0x7CD2B594 by { XorJoin(0x07, 0x7B, 0xA8, 0xCB, 0x7B, 0xA9, 0x1D, 0x5F); }
    assert Xor(0x1E16C500, 0x7CD2B594) == 0x62C47094 by { XorJoin(0x1E, 0x16, 0xC5, 0x00, 0x7C, 0xD2, 0xB5, 0x94); }
    StirStep(Hash(0x77BA8CB, 0xCA, 0xC91E16C5), 99, 0x7BA91D5F, 0x7CD2B594, 0x1E16C500, 0x62C47094);
  }

  lemma AbcToH4()
    ensures Stir(Hash(0x7CD2B594, 0x12D, 0x2BE28759), 100, 32)
         == Hash(0xAE64A4F0, 0x191, 0x78C68549)
  {
    hide Xor, Stir;
    assert Xor(0x7CD2B594, 0xD2B61164) == 0xAE64A4F0 by { XorJoin(0x7C, 0xD2, 0xB5, 0x94, 0xD2, 0xB6, 0x11, 0x64); }
    assert Xor(0xE2875900, 0xAE64A4F0) == 0x4CE3FDF0 by { XorJoin(0xE2, 0x87, 0x59, 0x00, 0xAE, 0x64, 0xA4, 0xF0); }
    StirStep(Hash(0x7CD2B594, 0x12D, 0x2BE28759), 100, 0xD2B61164, 0xAE64A4F0, 0xE2875900, 0x4CE3FDF0);
  }

  lemma AbcToH5()
    ensures Stir(Hash(0xAE64A4F0, 0x191, 0x78C68549), 101, 32)
         == Hash(0xCAC105D5, 0x1F6, 0x850AD21E)
  {
    hide Xor, Stir;
    assert Xor(0xAE64A4F0, 0x64A5A125) == 0xCAC105D5 by { XorJoin(0xAE, 0x64, 0xA4, 0xF0, 0x64, 0xA5, 0xA1, 0x25); }
    assert Xor(0xC6854900, 0xCAC105D5) == 0xC444CD5 by { XorJoin(0xC6, 0x85, 0x49, 0x00, 0xCA, 0xC1, 0x05, 0xD5); }
    StirStep(Hash(0xAE64A4F0, 0x191, 0x78C68549), 101, 0x64A5A125, 0xCAC105D5, 0xC6854900, 0xC444CD5);
  }

  lemma AbcToH6()
    ensures Stir(Hash(0xCAC105D5, 0x1F6, 0x850AD21E), 102, 32)
         == Hash(0xBC7A0B7, 0x25C, 0x862090D5)
  {
    hide Xor, Stir;
    assert Xor(0xCAC105D5, 0xC106A562) == 0xBC7A0B7 by { XorJoin(0xCA, 0xC1, 0x05, 0xD5, 0xC1, 0x06, 0xA5, 0x62); }
    assert Xor(0xAD21E00, 0xBC7A0B7) == 0x115BEB7 by { XorJoin(0x0A, 0xD2, 0x1E, 0x00, 0x0B, 0xC7, 0xA0, 0xB7); }
    StirStep(Hash(0xCAC105D5, 0x1F6, 0x850AD21E), 102, 0xC106A562, 0xBC7A0B7, 0xAD21E00, 0x115BEB7);
  }

  lemma AbcToH7()
    ensures Stir(Hash(0xBC7A0B7, 0x25C, 0x862090D5), 103, 32)
         == Hash(0xCC666092, 0x2C3, 0x73174667)
  {
    hide Xor, Stir;
    assert Xor(0xBC7A0B7, 0xC7A1C025) == 0xCC666092 by { XorJoin(0x0B, 0xC7, 0xA0, 0xB7, 0xC7, 0xA1, 0xC0, 0x25); }
    assert Xor(0x2090D500, 0xCC666092) == 0xECF6B592 by { XorJoin(0x20, 0x90, 0xD5, 0x00, 0xCC, 0x66, 0x60, 0x92); }
    StirStep(Hash(0xBC7A0B7, 0x25C, 0x862090D5), 103, 0xC7A1C025, 0xCC666092, 0x2090D500, 0xECF6B592);
  }

  lemma AbcToH8()
    ensures Stir(Hash(0xCC666092, 0x2C3, 0x73174667), 104, 32)
         == Hash(0xAA07D81A, 0x32B, 0x30590581)
  {
    hide Xor, Stir;
    assert Xor(0xCC666092, 0x6661B888) == 0xAA07D81A by { XorJoin(0xCC, 0x66, 0x60, 0x92, 0x66, 0x61, 0xB8, 0x88); }
    assert Xor(0x17466700, 0xAA07D81A) == 0xBD41BF1A by { XorJoin(0x17, 0x46, 0x67, 0x00, 0xAA, 0x07, 0xD8, 0x1A); }
    StirStep(Hash(0xCC666092, 0x2C3, 0x73174667), 104, 0x6661B888, 0xAA07D81A, 0x17466700, 0xBD41BF1A);
  }

  lemma AbcToHStirred()
    ensures StirAll(START, [97, 98, 99, 100, 101, 102, 103, 104], 32) == Hash(0xAA07D81A, 0x32B, 0x30590581)
  {
    hide *;
    StartIs();
    AbcToH1();
    StirFirst(Hash(0x50305735, 0x7, 0x12345671), 97, [98, 99, 100, 101, 102, 103, 104]);
    assert [97] + [98, 99, 100, 101, 102, 103, 104] == [97, 98, 99, 100, 101, 102, 103, 104];
    AbcToH2();
    StirFirst(Hash(0x60671C89, 0x68, 0x6665C3FA), 98, [99, 100, 101, 102, 103, 104]);
    assert [98] + [99, 100, 101, 102, 103, 104] == [98, 99, 100, 101, 102, 103, 104];
    AbcToH3();
    StirFirst(Hash(0x77BA8CB, 0xCA, 0xC91E16C5), 99, [100, 101, 102, 103, 104]);
    assert [99] + [100, 101, 102, 103, 104] == [99, 100, 101, 102, 103, 104];
    AbcToH4();
    StirFirst(Hash(0x7CD2B594, 0x12D, 0x2BE28759), 100, [101, 102, 103, 104]);
    assert [100] + [101, 102, 103, 104] == [100, 101, 102, 103, 104];
    AbcToH5();
    StirFirst(Hash(0xAE64A4F0, 0x191, 0x78C68549), 101, [102, 103, 104]);
    assert [101] + [102, 103, 104] == [101, 102, 103, 104];
    AbcToH6();
    StirFirst(Hash(0xCAC105D5, 0x1F6, 0x850AD21E), 102, [103, 104]);
    assert [102] + [103, 104] == [102, 103, 104];
    AbcToH7();
    StirFirst(Hash(0xBC7A0B7, 0x25C, 0x862090D5), 103, [104]);
    assert [103] + [104] == [103, 104];
    AbcToH8();
    StirFirst(Hash(0xCC666092, 0x2C3, 0x73174667), 104, []);
    assert [104] + [] == [104];
    StirEnd(Hash(0xAA07D81A, 0x32B, 0x30590581));
  }

  /** The hash of "abcdefgh". */
  lemma AbcToH()
    ensures OldHash([97, 98, 99, 100, 101, 102, 103, 104], 32) == (0x2A07D81A, 0x30590581)
  {
    hide StirAll, Low;
    AbcToHStirred();
    Low31(0xAA07D81A);
    Low31(0x30590581);
  }

  // ---- The scramble

  lemma FirstPair()
    ensures OldSeeds([109, 121, 112, 97, 115, 115], [97, 98, 99, 100, 101, 102, 103, 104], 32) == (93047122, 682347296)
  {
    hide OldHash, Xor;
    MyPass();
    AbcToH();
    XorJoin(0x6F, 0x8C, 0x11, 0x4B, 0x2A, 0x07, 0xD8, 0x1A);
    XorJoin(0x58, 0xF2, 0xCE, 0x9E, 0x30, 0x59, 0x05, 0x81);
  }

  lemma NextPair(s: (nat, nat), n: nat, a: nat, b: nat, c: nat, d: nat)
    requires s.0 < MAX_VALUE && s.1 < MAX_VALUE && Seeds(s, n) == (a, b)
    requires c == (3 * a + b) % MAX_VALUE && d == (c + b + 33) % MAX_VALUE
    ensures Seeds(s, n + 1) == (c, d)
  {
  }

  lemma FirstSeeds(s: (nat, nat))
    requires s.0 < MAX_VALUE && s.1 < MAX_VALUE
    ensures Seeds(s, 0) == s
  {
  }

  lemma Pairs()
    ensures var s := (93047122, 682347296);
            && Seeds(s, 1) == (961488662, 570094168)
            && Seeds(s, 2) == (233334685, 803428886)
            && Seeds(s, 3) == (429691118, 159378214)
            && Seeds(s, 4) == (374709745, 534087992)
            && Seeds(s, 5) == (584475404, 44821606)
            && Seeds(s, 6) == (724505995, 769327634)
            && Seeds(s, 7) == (795361973, 490947817)
            && Seeds(s, 8) == (729550090, 146756117)
            && Seeds(s, 9) == (187922741, 334678891)
  {
    hide Seeds, NextSeeds;
    var s := (93047122, 682347296);
    FirstSeeds(s);
    NextPair(s, 0, 93047122, 682347296, 961488662, 570094168);
    NextPair(s, 1, 961488662, 570094168, 233334685, 803428886);
    NextPair(s, 2, 233334685, 803428886, 429691118, 159378214);
    NextPair(s, 3, 429691118, 159378214, 374709745, 534087992);
    NextPair(s, 4, 374709745, 534087992, 584475404, 44821606);
    NextPair(s, 5, 584475404, 44821606, 724505995, 769327634);
    NextPair(s, 6, 724505995, 769327634, 795361973, 490947817);
    NextPair(s, 7, 795361973, 490947817, 729550090, 146756117);
    NextPair(s, 8, 729550090, 146756117, 187922741, 334678891);
  }

  /** The answer to the salt "abcdefgh" with the password "mypass" is the text
      ^CIOUQSP. */
  lemma KnownScramble()
    ensures var s := OldSeeds([109, 121, 112, 97, 115, 115], [97, 98, 99, 100, 101, 102, 103, 104], 32);
            [OldByte(s, 0), OldByte(s, 1), OldByte(s, 2), OldByte(s, 3), OldByte(s, 4), OldByte(s, 5), OldByte(s, 6),
             OldByte(s, 7)] == [94, 67, 73, 79, 85, 81, 83, 80]
  {
    hide OldSeeds, Seeds, Xor;
    FirstPair();
    Pairs();
    XorOctet(91, 5);
    XorOctet(70, 5);
    XorOctet(76, 5);
    XorOctet(74, 5);
    XorOctet(80, 5);
    XorOctet(84, 5);
    XorOctet(86, 5);
    XorOctet(85, 5);
  }
}
