/** What the readers and parsers make of bytes no encoder produces: every tag,
    every length, every assert. */
module Limits {
  import opened Bits
  import opened Wire
  import opened Cells
  import opened Events
  import EventCodec
  import opened ClientSpec

  // ---- Numbers

  lemma LeTwo(s: seq<byte>)
    requires |s| == 2
    ensures Le(s) == s[0] as int + 256 * s[1] as int
  {
    assert Le(s[1..]) == s[1] + 256 * Le(s[1..][1..]);
  }

  lemma LeFour(s: seq<byte>)
    requires |s| == 4
    ensures Le(s) == s[0] as int + 256 * s[1] as int + 65536 * s[2] as int + 0x100_0000 * s[3] as int
  {
    Le3(s[1..]);
  }

  /** decodeint by its first byte. 251 (NULL) and 255 count as 0. */
  lemma LengthTags(ev: seq<byte>, cur: nat)
    requires cur + 9 <= |ev|
    ensures DecodeInt(ev, cur) ==
            if ev[cur] < 251 then Done((ev[cur], cur + 1))
            else if ev[cur] == 252 then Done((ev[cur + 1] as int + 256 * ev[cur + 2] as int, cur + 3))
            else if ev[cur] == 253 then
              Done((ev[cur + 1] as int + 256 * ev[cur + 2] as int + 65536 * ev[cur + 3] as int, cur + 4))
            else if ev[cur] == 254 then Done((Le(ev[cur + 1..cur + 9]), cur + 9))
            else Done((0, cur + 1))
  {
    hide Le;
    LeOne(ev[cur..cur + 1]);
    LeTwo(ev[cur + 1..cur + 3]);
    Le3(ev[cur + 1..cur + 4]);
  }

  lemma LeOne(s: seq<byte>)
    requires |s| == 1
    ensures Le(s) == s[0]
  {
  }

  /** isSet: bit idx % 8 of byte idx / 8. */
  lemma BitPlace(bitmap: seq<byte>, idx: nat)
    requires idx / 8 < |bitmap|
    ensures IsSet(bitmap, idx) <==> bitmap[idx / 8] / Pow2(idx % 8) % 2 == 1
  {
    hide Pow2, High, Low;
    var b, k := bitmap[idx / 8], idx % 8;
    Split(b, k);
    Quotient(b, High(b, k), Pow2(k), Low(b, k));
  }

  lemma Quotient(a: nat, q: nat, p: nat, r: nat)
    requires a == q * p + r && r < p
    ensures a / p == q
  {
    var e := a / p;
    if e > q {
      Times(q + 1, e, p);
      assert false;
    } else if e < q {
      Times(e + 1, q, p);
      assert false;
    }
  }

  lemma Times(x: nat, y: nat, p: nat)
    requires x <= y
    ensures x * p <= y * p
    ensures x * p == (x - 1) * p + p
  {
    assert (y - x) * p >= 0;
  }

  /** Exclusive or, bit by bit. */
  lemma XorBit(a: nat, b: nat, k: nat)
    ensures Xor(a, b) / Pow2(k) % 2 == (a / Pow2(k) + b / Pow2(k)) % 2
  {
    hide *;
    HighQuotient(a, k);
    HighQuotient(b, k);
    HighQuotient(Xor(a, b), k);
    XorHigh(a, b, k);
    XorParts(High(a, k), High(b, k));
    OddValues(High(a, k), High(b, k), Xor(High(a, k), High(b, k)));
  }

  lemma HighQuotient(a: nat, k: nat)
    ensures a / Pow2(k) == High(a, k)
  {
    hide High, Low, Pow2;
    Split(a, k);
    Quotient(a, High(a, k), Pow2(k), Low(a, k));
  }

  lemma OddValues(x: nat, y: nat, z: nat)
    requires Odd(z) == OddSum(x, y)
    ensures z % 2 == (x + y) % 2
  {
  }

  // ---- Frames

  /** The length field of an event, bytes 9 to 12. */
  function LengthField(s: seq<byte>): int
    requires |s| >= 13
  {
    s[9] as int + 256 * s[10] as int + 65536 * s[11] as int + 0x100_0000 * s[12] as int
  }

  /** The driver's choices: no header, a length below the header's or negative
      as a signed number, a file too short, a frame. */
  lemma FrameCases(s: seq<byte>)
    ensures NextEvent(s) ==
            if |s| < 19 then Done(Eof)
            else if LengthField(s) < 19 || LengthField(s) >= 0x8000_0000 then Fail(BufferOverflow)
            else if |s| < LengthField(s) then Fail(CutShort)
            else Done(Framed(s[..LengthField(s)], s[LengthField(s)..]))
  {
    if |s| >= 19 {
      LeFour(s[9..13]);
      PowValues();
      hide Le;
    }
  }

  /** The start of a table map, in 32 bits: 2^32 is added when its length
      exceeds the position it ends at. */
  lemma StartWraps(t: Table)
    requires t.nextpos < 0x1_0000_0000 && t.evlen < 0x1_0000_0000
    ensures StartOf(t) == if t.nextpos >= t.evlen then t.nextpos - t.evlen
                          else t.nextpos - t.evlen + 0x1_0000_0000
  {
  }

  // ---- The asserts and fixed buffers

  /** The assert on a format description's length, both ends. */
  lemma FdeLimit(ev: seq<byte>)
    requires |ev| >= 76
    ensures ParseFDE(ev) == Fail(AssertFailed) <==> !(76 <= LengthField(ev) <= 105)
    ensures ParseFDE(ev).Done? <==> 76 <= LengthField(ev) <= 105
  {
    LeFour(ev[9..13]);
    hide Le;
  }

  /** A rotate's name has room for 255 bytes; a length that ends before the name
      begins is taken modulo 2^32. */
  lemma RotateLimit(ev: seq<byte>, hdrlen: nat)
    requires |ev| >= 19 && hdrlen + 8 <= |ev| && hdrlen < 256
    ensures ParseRotate(ev, hdrlen) == Fail(BufferOverflow)
            <==> LengthField(ev) < hdrlen + 8 || LengthField(ev) > hdrlen + 263
  {
    LeFour(ev[9..13]);
    hide Le;
  }

  /** strcpy of a name into 256 bytes. */
  lemma NameLimit(ev: seq<byte>, at: nat, s: seq<byte>)
    requires 0 !in s && At(ev, at, s + [0])
    ensures CopyName(ev, at) == if |s| > 255 then Fail(BufferOverflow) else Done(s)
  {
    AtSplit(ev, at, s, [0]);
    var rest := ev[at + |s|..];
    assert rest[0] == ev[at + |s|..at + |s| + 1][0];
    assert ev[at..] == s + rest;
    EventCodec.CStringWhole(s, rest);
  }

  // ---- Rows

  lemma CellNoAssert(ev: seq<byte>, cur: nat, mtype: byte, meta: nat)
    requires meta < 0x1_0000
    ensures Value2CellAt(ev, cur, mtype, meta) != Fail(AssertFailed)
  {
    hide Resolve, Render, Untouched, Le;
  }

  lemma {:induction false} CellsNoAssert(ev: seq<byte>, cur: nat, isnull: seq<byte>, used: seq<byte>, t: Table, i: nat)
    requires t.Valid() && i <= t.nfields && |isnull| == |used| == BitLen(t.nfields)
    ensures CellsTo(ev, cur, isnull, used, t, i) != Fail(AssertFailed)
    decreases i
  {
    hide Value2CellAt, IsSet, BitLen;
    if i > 0 {
      CellsNoAssert(ev, cur, isnull, used, t, i - 1);
      var before := CellsTo(ev, cur, isnull, used, t, i - 1);
      if before.Done? { CellNoAssert(ev, before.value.1, t.types[i - 1], t.meta[i - 1]); }
    }
  }

  lemma ImageNoAssert(ev: seq<byte>, cur: nat, used: seq<byte>, t: Table)
    requires t.Valid() && |used| == BitLen(t.nfields)
    ensures Image(ev, cur, used, t) != Fail(AssertFailed)
  {
    hide CellsTo, BitLen;
    var isnull := Take(ev, cur, BitLen(t.nfields));
    if isnull.Done? { CellsNoAssert(ev, cur + BitLen(t.nfields), isnull.value, used, t, t.nfields); }
  }

  lemma PassNoAssert(ev: seq<byte>, cur: nat, mtype: byte, used: seq<byte>, usedU: seq<byte>, t: Table)
    requires t.Valid() && |used| == |usedU| == BitLen(t.nfields)
    ensures Pass(ev, cur, mtype, used, usedU, t) != Fail(AssertFailed)
  {
    hide Image, BitLen;
    ImageNoAssert(ev, cur, used, t);
    var first := Image(ev, cur, used, t);
    if first.Done? { ImageNoAssert(ev, first.value.1, usedU, t); }
  }

  lemma {:induction false} RowsNoAssert(ev: seq<byte>, cur: nat, evlen: nat, mtype: byte, used: seq<byte>,
                                        usedU: seq<byte>, t: Table)
    requires t.Valid() && |used| == |usedU| == BitLen(t.nfields)
    ensures RowsFrom(ev, cur, evlen, mtype, used, usedU, t) != Fail(AssertFailed)
    decreases |ev| - cur
  {
    hide Pass;
    if cur < evlen && t.nfields > 0 {
      PassNoAssert(ev, cur, mtype, used, usedU, t);
      var p := Pass(ev, cur, mtype, used, usedU, t);
      if p.Done? { RowsNoAssert(ev, p.value.1, evlen, mtype, used, usedU, t); }
    }
  }

  /** The two asserts of parseRowsEvent fire exactly when the table id is not
      the table map's, or the column count, taken modulo 2^32, is not. */
  lemma RowsAsserts(ev: seq<byte>, hdrlen: nat, t: Table)
    requires t.Valid() && ParseHeader(ev).Done? && TakeUint(ev, hdrlen, 6).Done? && DecodeInt(ev, hdrlen + 8).Done?
    ensures ParseRows(ev, hdrlen, t) == Fail(AssertFailed)
            <==> TakeUint(ev, hdrlen, 6).value != t.tableid
                 || DecodeInt(ev, hdrlen + 8).value.0 % 0x1_0000_0000 != t.nfields
  {
    hide ParseHeader, TakeUint, DecodeInt, RowsFrom, BitLen;
    var h, c := ParseHeader(ev).value, DecodeInt(ev, hdrlen + 8).value.1;
    var b := BitLen(t.nfields);
    var used := Take(ev, c, b);
    if used.Done? {
      RowsNoAssert(ev, c + b, h.evlen, h.mtype, used.value, used.value, t);
      var usedU := Take(ev, c + b, b);
      if usedU.Done? { RowsNoAssert(ev, c + 2 * b, h.evlen, h.mtype, used.value, usedU.value, t); }
    }
  }

  /** The row loop is bounded by the length field, whatever stands behind: there
      is no row exactly when that length ends with the bitmaps or before. */
  lemma RowsBegin(ev: seq<byte>, hdrlen: nat, t: Table)
    requires t.Valid() && |ev| >= 19 && ParseRows(ev, hdrlen, t).Done?
    ensures DecodeInt(ev, hdrlen + 8).Done?
    ensures var bitmaps := if ev[4] == 24 then 2 else 1;
            ParseRows(ev, hdrlen, t).value.rows == []
            <==> LengthField(ev) <= DecodeInt(ev, hdrlen + 8).value.1 + bitmaps * ((t.nfields + 7) / 8)
  {
    hide DecodeInt, TakeUint, Pass, BitLen;
    HeaderFields(ev);
    BitLenIs(t.nfields);
  }

  lemma BitLenIs(n: nat)
    ensures BitLen(n) == (n + 7) / 8
  {
  }

  lemma HeaderFields(ev: seq<byte>)
    requires |ev| >= 19
    ensures ParseHeader(ev).Done? && ParseHeader(ev).value.evlen == LengthField(ev)
    ensures ParseHeader(ev).value.mtype == ev[4]
  {
    LeFour(ev[9..13]);
    hide Le;
  }

  /** Without columns a pass of the row loop reads nothing, so the loop never
      comes to its end. */
  lemma NoColumns(ev: seq<byte>, cur: nat, mtype: byte, t: Table)
    requires t.Valid() && t.nfields == 0 && cur <= |ev|
    ensures Pass(ev, cur, mtype, [], [], t) == Done((RowImages([], []), cur))
  {
  }

  /** A table map's column count v is taken modulo 2^32. */
  lemma CountWraps(ev: seq<byte>, hdrlen: nat, tbl: nat, v: nat, next: nat)
    requires hdrlen + 9 <= |ev| && tbl == hdrlen + 10 + ev[hdrlen + 8] && tbl < |ev|
    requires DecodeInt(ev, tbl + ev[tbl] + 2) == Done((v, next))
    ensures ParseTableMap(ev, hdrlen).Done? ==> ParseTableMap(ev, hdrlen).value.nfields == v % 0x1_0000_0000
  {
    hide ParseHeader, DecodeInt, CopyName, DecodeMetaTo, Le;
    LeOne(ev[hdrlen + 8..hdrlen + 9]);
    LeOne(ev[tbl..tbl + 1]);
  }
}
