/** The row format's encoder and the round trip of every supported column. */
module CellCodec {
  import opened Bits
  import opened Wire
  import opened Text
  import opened Cells

  datatype Datum =
    | Int(n: int)
    | Raw(s: seq<byte>)
    | DateTime(y: nat, mo: nat, d: nat, h: nat, mi: nat, s2: nat)
    | Clock(h: nat, m: nat, s3: nat)
    | Day(y: nat, m: nat, d: nat)

  /** A column of a table definition: the type and the 16-bit metadata. */
  datatype Column = Column(mtype: byte, meta: nat)

  // The encoder has its own tables, with the protocol's type codes written out.

  /** The type a column's values have. CHAR, ENUM and SET columns all have the
      type code 254; the high byte of their metadata tells them apart, with
      bits 4 and 5 inverted for long CHARs. */
  function Real(c: Column): byte
    requires c.meta < 0x1_0000
  {
    var b: byte := c.meta / 256;
    if c.mtype != 254 || b == 0 || b == 254 then c.mtype
    else if b == 247 || b == 248 then b
    else if b % 64 / 16 == 3 then 254
    else b - b % 64 / 16 * 16 + 48
  }

  /** The declared length of a CHAR column, in bytes. */
  function CharLength(meta: nat): nat
    requires meta < 0x1_0000
  {
    if meta < 256 || meta / 256 == 254 then meta % 256 else meta % 256 + 256 * (3 - meta / 256 % 64 / 16)
  }

  /** A value is its bytes, or a count of `width` bytes in front of them. */
  datatype Storage = Unknown | Plain(size: nat) | Counted(width: nat)

  function StorageOf(t: byte, meta: nat): Storage
    requires meta < 0x1_0000
  {
    if t == 1 || t == 13 then Plain(1)                                  // TINY, YEAR
    else if t == 2 then Plain(2)                                        // SHORT
    else if t == 9 || t == 10 || t == 11 || t == 14 then Plain(3)       // INT24, DATE, TIME, NEWDATE
    else if t == 3 || t == 4 || t == 7 then Plain(4)                    // LONG, FLOAT, TIMESTAMP
    else if t == 5 || t == 8 || t == 12 then Plain(8)                   // DOUBLE, LONGLONG, DATETIME
    else if t == 247 && 1 <= meta % 256 <= 2 then Plain(meta % 256)     // ENUM
    else if t == 248 && meta % 256 <= 32 then Plain(meta % 256)         // SET
    else if t == 252 && 1 <= meta <= 4 then Counted(meta)               // BLOB
    else if t == 15 || t == 253 then                                    // VARCHAR, VAR_STRING
      Counted(if meta < 256 then 1 else 2)
    else if t == 254 then Counted(if CharLength(meta) < 256 then 1 else 2)
    else if t == 16 then Plain(meta / 256 + (meta % 256 + 7) / 8)       // BIT: whole bytes, then bits
    else Unknown
  }

  function Shape(c: Column): Storage
    requires c.meta < 0x1_0000
  {
    StorageOf(Real(c), c.meta)
  }

  /** The types value2Cell decodes; NEWDECIMAL is excluded. */
  predicate Supported(c: Column) {
    c.meta < 0x1_0000 && !Shape(c).Unknown?
  }

  predicate IsIntType(t: byte) { t in {1, 2, 3, 7, 8, 9, 13, 247} }

  predicate IsRawType(t: byte) { t in {4, 5, 15, 16, 248, 252, 253, 254} }

  /** Bytes of an integer column's value. */
  function IntWidth(t: byte, meta: nat): nat {
    if t == 1 || t == 13 then 1
    else if t == 2 then 2
    else if t == 9 then 3
    else if t == 8 then 8
    else if t == 247 then meta % 256
    else 4
  }

  predicate IntFits(t: byte, meta: nat, n: int) {
    var k := IntWidth(t, meta);
    if t == 13 then 1900 <= n < 2156
    else if t == 7 || t == 247 then 0 <= n < Pow256(k)
    else k > 0 && -128 * Pow256(k - 1) <= n < 128 * Pow256(k - 1)
  }

  /** The values a column can hold. */
  predicate Fits(c: Column, v: Datum)
    requires Supported(c)
  {
    var t := Real(c);
    match v
    case Int(n) => IsIntType(t) && IntFits(t, c.meta, n)
    case Raw(s) => IsRawType(t) && SizeFits(Shape(c), |s|)
    case DateTime(y, mo, d, h, mi, s) => t == 12 && MomentFits(y, mo, d, h, mi, s)
    case Clock(h, m, s) => t == 11 && m < 100 && s < 100 && h * 10000 + m * 100 + s < 0x100_0000
    case Day(y, m, d) => (t == 10 || t == 14) && y < 32768 && m < 16 && d < 32
  }

  /** The date part, a number of decimal digits, is below 2^31. */
  predicate MomentFits(y: nat, mo: nat, d: nat, h: nat, mi: nat, s: nat) {
    mo < 100 && d < 100 && h < 100 && mi < 100 && s < 100 && y * 10000 + mo * 100 + d < 0x8000_0000
  }

  predicate SizeFits(l: Storage, n: nat) {
    match l
    case Plain(k) => n == k
    case Counted(k) => n < Pow256(k)
    case Unknown => false
  }

  /** The bytes of a value, without the length prefix. */
  function Payload(c: Column, v: Datum): seq<byte>
    requires Supported(c) && Fits(c, v)
  {
    var t := Real(c);
    match v
    case Int(n) =>
      var k := IntWidth(t, c.meta);
      if t == 13 then Enc(n - 1900, 1)
      else if t == 7 || t == 247 then Enc(n, k)
      else Enc(Pattern(n, k), k)
    case Raw(s) => s
    case DateTime(y, mo, d, h, mi, s) => Enc(DateTimeNumber(y, mo, d, h, mi, s), 8)
    case Clock(h, m, s) => Enc(h * 10000 + m * 100 + s, 3)
    case Day(y, m, d) => Enc(y * 512 + m * 32 + d, 3)
  }

  function DateTimeNumber(y: nat, mo: nat, d: nat, h: nat, mi: nat, s: nat): nat {
    (y * 10000 + mo * 100 + d) * 1000000 + (h * 10000 + mi * 100 + s)
  }

  /** The bytes of a value in a row image. */
  function Stored(c: Column, v: Datum): seq<byte>
    requires Supported(c) && Fits(c, v)
  {
    var p := Payload(c, v);
    if Shape(c).Counted? then Enc(|p|, Shape(c).width) + p else p
  }

  // ---- The cell a value should come back as

  /** Two and four decimal digits in ASCII. */
  function Two(n: nat): seq<byte>
    requires n < 100
  {
    [48 + n / 10, 48 + n % 10]
  }

  /** From 10000 on the thousands run past '9'. */
  function Four(n: nat): seq<byte>
    requires n < 100000
  {
    [48 + n / 1000, 48 + n / 100 % 10, 48 + n / 10 % 10, 48 + n % 10]
  }

  /** A year of four to six digits. */
  function Years(n: nat): seq<byte>
    requires n < 1000000
  {
    if n < 10000 then Four(n)
    else if n < 100000 then [48 + n / 10000] + Four(n % 10000)
    else Two(n / 10000) + Four(n % 10000)
  }

  /** Hours of two to four digits. */
  function Hours(n: nat): seq<byte>
    requires n < 10000
  {
    if n < 100 then Two(n) else if n < 1000 then [48 + n / 100] + Two(n % 100) else Two(n / 100) + Two(n % 100)
  }

  /** yyyy-mm-dd hh:mm:ss */
  function MomentText(y: nat, mo: nat, d: nat, h: nat, mi: nat, s: nat): seq<byte>
    requires y < 1000000 && mo < 100 && d < 100 && h < 100 && mi < 100 && s < 100
  {
    Years(y) + [45] + Two(mo) + [45] + Two(d) + [32] + Two(h) + [58] + Two(mi) + [58] + Two(s)
  }

  /** 'hh:mm:ss', quotes included */
  function HourText(h: nat, m: nat, s: nat): seq<byte>
    requires h < 10000 && m < 100 && s < 100
  {
    [39] + Hours(h) + [58] + Two(m) + [58] + Two(s) + [39]
  }

  /** yyyy-mm-dd */
  function DayText(y: nat, m: nat, d: nat): seq<byte>
    requires y < 32768 && m < 16 && d < 32
  {
    Years(y) + [45] + Two(m) + [45] + Two(d)
  }

  /** yyyy:mm:dd in ten characters */
  function NewDayText(y: nat, m: nat, d: nat): seq<byte>
    requires y < 32768 && m < 16 && d < 32
  {
    Four(y) + [58] + Two(m) + [58] + Two(d)
  }

  function TextOf(t: byte, s: seq<byte>): Cell { Cell(CType.Text, t, |s|, Bytes(s)) }

  /** SET alone depends on the event: its bytes are copied from the event's
      start. */
  function CellOf(ev: seq<byte>, c: Column, v: Datum): Cell
    requires Supported(c) && Fits(c, v)
  {
    var t := Real(c);
    match v
    case Int(n) => IntCell(t, n)
    case Raw(s) =>
      if t == 248 then Cell(Binary, 248, |s|, Bytes(if |s| <= |ev| then ev[..|s|] else []))
      else RawCell(t, s)
    case DateTime(y, mo, d, h, mi, s) => TextOf(12, MomentText(y, mo, d, h, mi, s))
    case Clock(h, m, s) => TextOf(11, HourText(h, m, s))
    case Day(y, m, d) => if t == 10 then TextOf(10, DayText(y, m, d)) else TextOf(14, NewDayText(y, m, d))
  }

  function IntCell(t: byte, n: int): Cell {
    if t == 13 then (if 0 <= n < 10000 then TextOf(13, Four(n)) else TextOf(13, []))
    else if t == 1 then Cell(Int8, 1, 1, Number(n))
    else if t == 2 then Cell(Int16, 2, 2, Number(n))
    else if t == 8 then Cell(Int64, 8, 8, Number(n))
    else if t == 7 then Cell(UInt32, 7, 4, Number(n))
    else Cell(Int32, t, 4, Number(n))
  }

  function RawCell(t: byte, s: seq<byte>): Cell {
    if t == 15 || t == 253 then TextOf(15, s)
    else if t == 254 then TextOf(254, s)
    else if t == 4 then Cell(Float, 4, 4, Bytes(s))
    else if t == 5 then Cell(Double, 5, 8, Bytes(s))
    else Cell(Binary, t, |s|, Bytes(s))
  }

  // ---- The decoder's tables agree

  lemma RealResolves(c: Column)
    requires c.meta < 0x1_0000
    ensures Resolve(c.mtype, c.meta).0 == Real(c)
    ensures Real(c) == 254 ==> c.mtype == 254 && Resolve(c.mtype, c.meta).1 == CharLength(c.meta)
  {
    if c.mtype == 254 && c.meta >= 256 {
      Pairs(c.meta / 256);
    }
  }

  lemma Pairs(b: byte)
    ensures Pair45(b) == b % 64 / 16
  {
  }

  lemma BitBytes(a: nat, b: nat)
    ensures (a * 8 + b + 7) / 8 == a + (b + 7) / 8
  {
    assert a * 8 + b + 7 == 8 * a + (b + 7);
  }

  /** value2Cell finds the type and the layout the encoder used. */
  lemma LayoutAgrees(c: Column)
    requires Supported(c)
    ensures var (t, n) := Resolve(c.mtype, c.meta);
            && t == Real(c)
            && LayoutOf(t, c.meta, n) == match Shape(c)
                                         case Plain(k) => Fixed(k)
                                         case Counted(k) => Prefixed(k)
                                         case Unknown => Nothing
  {
    hide Resolve, Real, CharLength;
    RealResolves(c);
    BitBytes(c.meta / 256, c.meta % 256);
  }

  // ---- Sizes

  lemma PayloadSize(c: Column, v: Datum)
    requires Supported(c) && Fits(c, v)
    ensures SizeFits(Shape(c), |Payload(c, v)|)
  {
  }

  // ---- Rendering a payload gives the value back

  lemma RenderInt(ev: seq<byte>, c: Column, n: int)
    requires Supported(c) && Fits(c, Int(n)) && |Payload(c, Int(n))| <= |ev|
    ensures Render(ev, Real(c), Payload(c, Int(n))) == CellOf(ev, c, Int(n))
  {
    hide FormatD, Real, StorageOf;
    var t, k := Real(c), IntWidth(Real(c), c.meta);
    PowValues();
    if t == YEAR {
      LeEnc(n - 1900, 1);
      FourDigits(n);
    } else if t == TIMESTAMP || t == ENUM {
      LeEnc(n, k);
    } else {
      LeEnc(Pattern(n, k), k);
    }
  }

  lemma RenderRaw(ev: seq<byte>, c: Column, s: seq<byte>)
    requires Supported(c) && Fits(c, Raw(s)) && |s| <= |ev|
    ensures Render(ev, Real(c), s) == CellOf(ev, c, Raw(s))
  {
    hide FormatD, Real;
  }

  lemma DateTimeParts(y: nat, mo: nat, d: nat, h: nat, mi: nat, s: nat)
    requires MomentFits(y, mo, d, h, mi, s)
    ensures DateTimeText(DateTimeNumber(y, mo, d, h, mi, s)) == ClockText(y, mo, d, h, mi, s)
  {
    hide ClockText, ToInt32, CDiv, CMod;
    var a, b := y * 10000 + mo * 100 + d, h * 10000 + mi * 100 + s;
    Millions(a, b);
    SmallInt(a);
    Hundreds(y, mo, d);
    Hundreds(h, mi, s);
    Forward(a, 10000);
    Forward(a % 10000, 100);
    Forward(a, 100);
  }

  lemma Millions(a: nat, b: nat)
    requires b < 1000000
    ensures (a * 1000000 + b) / 1000000 == a && (a * 1000000 + b) % 1000000 == b
  {
  }

  lemma SmallInt(a: nat)
    requires a < 0x8000_0000
    ensures ToInt32(a) == a
  {
    PowValues();
  }

  /** C division of a number that is not negative. */
  lemma Forward(a: nat, b: nat)
    requires b > 0
    ensures CDiv(a, b) == a / b && CMod(a, b) == a % b
  {
    assert a == b * (a / b) + a % b;
  }

  lemma Hundreds(x: nat, y: nat, z: nat)
    requires y < 100 && z < 100
    ensures var n := x * 10000 + y * 100 + z;
            n / 10000 == x && n % 10000 / 100 == y && n % 100 == z
  {
    var n := x * 10000 + y * 100 + z;
    Tens(n, x, y * 100 + z, 10000);
    Tens(y * 100 + z, y, z, 100);
    Tens(n, x * 100 + y, z, 100);
  }

  lemma Tens(n: nat, q: nat, r: nat, m: nat)
    requires (m == 100 || m == 10000) && n == q * m + r && r < m
    ensures n / m == q && n % m == r
  {
    if m == 100 { assert n == q * 100 + r; } else { assert n == q * 10000 + r; }
  }

  lemma DayParts(y: nat, m: nat, d: nat)
    requires m < 16 && d < 32
    ensures var n := y * 512 + m * 32 + d;
            n / 512 == y && n / 32 % 16 == m && n % 32 == d
  {
    var n := y * 512 + m * 32 + d;
    assert n == 32 * (y * 16 + m) + d;
  }

  lemma RenderTime(ev: seq<byte>, c: Column, v: Datum)
    requires Supported(c) && Fits(c, v) && |Payload(c, v)| <= |ev|
    requires v.DateTime? || v.Clock?
    ensures Render(ev, Real(c), Payload(c, v)) == CellOf(ev, c, v)
  {
    hide FormatD, Real, StorageOf, DateTimeText, DateTimeNumber, ClockText, TimeText, MomentText, HourText,
         MomentFits;
    PowValues();
    match v
    case DateTime(y, mo, d, h, mi, s) =>
      DateTimeBound(y, mo, d, h, mi, s);
      LeEnc(DateTimeNumber(y, mo, d, h, mi, s), 8);
      DateTimeParts(y, mo, d, h, mi, s);
      MomentDigits(y, mo, d, h, mi, s);
    case Clock(h, m, s) =>
      LeEnc(h * 10000 + m * 100 + s, 3);
      Hundreds(h, m, s);
      HourDigits(h, m, s);
  }

  lemma MomentDigits(y: nat, mo: nat, d: nat, h: nat, mi: nat, s: nat)
    requires MomentFits(y, mo, d, h, mi, s)
    ensures ClockText(y, mo, d, h, mi, s) == MomentText(y, mo, d, h, mi, s)
  {
    hide FormatD, Char;
    YearDigits(y);
    TwoDigits(mo);
    TwoDigits(d);
    TwoDigits(h);
    TwoDigits(mi);
    TwoDigits(s);
  }

  lemma HourDigits(h: nat, m: nat, s: nat)
    requires h < 10000 && m < 100 && s < 100
    ensures TimeText(h, m, s) == HourText(h, m, s)
  {
    hide FormatD;
    HoursDigits(h);
    TwoDigits(m);
    TwoDigits(s);
  }

  lemma HoursDigits(n: nat)
    requires n < 10000
    ensures FormatD(n, 2) == Hours(n)
  {
    if n < 100 {
      TwoDigits(n);
    } else {
      LastTwo(n);
      if n < 1000 { OneDigit(n / 100); } else { TwoAlone(n / 100); }
    }
  }

  /** The last two digits of a number of three digits or more. */
  lemma LastTwo(n: nat)
    requires 100 <= n
    ensures Digits(n) == Digits(n / 100) + Two(n % 100)
  {
    LastDigit(n);
    LastDigit(n / 10);
    hide Digits;
    assert n / 10 / 10 == n / 100;
    assert n % 100 / 10 == n / 10 % 10 && n % 100 % 10 == n % 10;
  }

  lemma TwoAlone(n: nat)
    requires 10 <= n < 100
    ensures Digits(n) == Two(n)
  {
    LastDigit(n);
    OneDigit(n / 10);
  }

  lemma YearDigits(n: nat)
    requires n < 1000000
    ensures FormatD(n, 4) == Years(n)
  {
    if n < 10000 {
      FourDigits(n);
    } else {
      hide Digits, Four, Two, FormatD;
      LastTwo(n);
      LastTwo(n / 100);
      Quarters(n);
      LastFour(n);
      if n < 100000 { OneDigit(n / 10000); } else { TwoAlone(n / 10000); }
      LongEnough(n);
    }
  }

  lemma Quarters(n: nat)
    ensures n / 100 / 100 == n / 10000
  {
  }

  lemma LastFour(n: nat)
    ensures Two(n / 100 % 100) + Two(n % 100) == Four(n % 10000)
  {
    var q, r := n / 10000, n % 10000;
    var hi, lo := r / 100, r % 100;
    Tens(n, q * 100 + hi, lo, 100);
    Tens(q * 100 + hi, q, hi, 100);
    FourParts(hi, lo);
  }

  lemma FourParts(hi: nat, lo: nat)
    requires hi < 100 && lo < 100
    ensures Two(hi) + Two(lo) == Four(hi * 100 + lo)
  {
    var a, b, c, e := hi / 10, hi % 10, lo / 10, lo % 10;
    FourValue(a, b, c, e);
    assert hi == 10 * a + b && lo == 10 * c + e;
  }

  lemma FourValue(a: nat, b: nat, c: nat, e: nat)
    requires a < 10 && b < 10 && c < 10 && e < 10
    ensures Four((10 * a + b) * 100 + (10 * c + e)) == [48 + a, 48 + b, 48 + c, 48 + e]
  {
    var n := 1000 * a + 100 * b + 10 * c + e;
    OneTenth(n, 100 * a + 10 * b + c, e);
    OneTenth(100 * a + 10 * b + c, 10 * a + b, c);
    OneTenth(10 * a + b, a, b);
    Quarters10(n);
  }

  lemma OneTenth(n: nat, q: nat, r: nat)
    requires n == 10 * q + r && r < 10
    ensures n / 10 == q && n % 10 == r
  {
  }

  lemma Quarters10(n: nat)
    ensures n / 100 == n / 10 / 10 && n / 1000 == n / 10 / 10 / 10
  {
  }

  lemma LongEnough(n: nat)
    requires |Digits(n)| >= 4
    ensures FormatD(n, 4) == Digits(n)
  {
    hide Digits;
  }

  lemma DateTimeBound(y: nat, mo: nat, d: nat, h: nat, mi: nat, s: nat)
    requires MomentFits(y, mo, d, h, mi, s)
    ensures DateTimeNumber(y, mo, d, h, mi, s) < 0x1_0000_0000_0000_0000
    ensures y < 1000000
  {
  }

  lemma TwoDigits(n: nat)
    requires n < 100
    ensures FormatD(n, 2) == Two(n)
  {
    if n >= 10 {
      assert Digits(n / 10) == [48 + n / 10];
    }
  }

  lemma LastDigit(n: nat)
    requires 10 <= n
    ensures Digits(n) == Digits(n / 10) + [48 + n % 10]
  {
  }

  lemma FourDigits(n: nat)
    requires n < 10000
    ensures FormatD(n, 4) == Four(n)
  {
    var a, b, c := n / 10, n / 10 / 10, n / 10 / 10 / 10;
    assert n / 100 == b && n / 1000 == c && c < 10;
    if c > 0 {
      hide Digits;
      LastDigit(n);
      LastDigit(a);
      LastDigit(b);
      OneDigit(c);
    } else if b > 0 {
      hide Digits;
      LastDigit(n);
      LastDigit(a);
      OneDigit(b);
    } else if a > 0 {
      hide Digits;
      LastDigit(n);
      OneDigit(a);
    } else {
      hide Digits;
      OneDigit(n);
    }
  }

  lemma OneDigit(n: nat)
    requires n < 10
    ensures Digits(n) == [48 + n]
  {
  }

  /** Every 3-byte NEWDATE. */
  lemma NewDayDigits(y: nat, m: nat, d: nat)
    requires y < 32768 && m < 16 && d < 32
    ensures NewDateText(y * 512 + m * 32 + d) == NewDayText(y, m, d)
  {
    hide Char;
    DayParts(y, m, d);
    CharIs(y / 1000);
    CharIs(y / 100 % 10);
    CharIs(y / 10 % 10);
    CharIs(y % 10);
    CharIs(m / 10);
    CharIs(m % 10);
    CharIs(d / 10);
    CharIs(d % 10);
  }

  lemma CharIs(n: nat)
    requires n < 33
    ensures Char(n) == 48 + n
  {
  }

  /** Every 3-byte DATE. */
  lemma DayDigits(y: nat, m: nat, d: nat)
    requires y < 32768 && m < 16 && d < 32
    ensures DateText(y, m, d) == DayText(y, m, d)
  {
    hide FormatD;
    YearDigits(y);
    TwoDigits(m);
    TwoDigits(d);
  }

  lemma RenderDay(ev: seq<byte>, c: Column, v: Datum)
    requires Supported(c) && Fits(c, v) && |Payload(c, v)| <= |ev| && v.Day?
    ensures Render(ev, Real(c), Payload(c, v)) == CellOf(ev, c, v)
  {
    hide FormatD, Real, StorageOf, NewDateText, NewDayText, DayText, DateText;
    PowValues();
    LeEnc(v.y * 512 + v.m * 32 + v.d, 3);
    DayParts(v.y, v.m, v.d);
    NewDayDigits(v.y, v.m, v.d);
    DayDigits(v.y, v.m, v.d);
  }

  lemma RenderStored(ev: seq<byte>, c: Column, v: Datum)
    requires Supported(c) && Fits(c, v) && |Payload(c, v)| <= |ev|
    ensures Render(ev, Real(c), Payload(c, v)) == CellOf(ev, c, v)
  {
    match v
    case Int(n) => RenderInt(ev, c, n);
    case Raw(s) => RenderRaw(ev, c, s);
    case DateTime(_, _, _, _, _, _) => RenderTime(ev, c, v);
    case Clock(_, _, _) => RenderTime(ev, c, v);
    case Day(_, _, _) => RenderDay(ev, c, v);
  }

  /** Every supported type and metadata, every value: value2Cell at the stored
      bytes yields the value's cell and moves the cursor past exactly those
      bytes, whatever surrounds them. */
  lemma ValueRoundTrip(ev: seq<byte>, cur: nat, c: Column, v: Datum)
    requires Supported(c) && Fits(c, v) && At(ev, cur, Stored(c, v))
    ensures Value2CellAt(ev, cur, c.mtype, c.meta) == Done((CellOf(ev, c, v), cur + |Stored(c, v)|))
  {
    hide Payload, Render, CellOf, Fits, Shape, Supported, Stored, Value2CellAt, Real, Take, TakeUint, Le, Enc;
    var p := Payload(c, v);
    StoredParts(c, v);
    LayoutAgrees(c);
    if Shape(c).Counted? {
      var k := Shape(c).width;
      AtSplit(ev, cur, Enc(|p|, k), p);
      TakeUintAt(ev, cur, |p|, k);
      TakeAt(ev, cur + k, p);
      DecodePrefixed(ev, cur, c.mtype, c.meta, k, p);
    } else {
      TakeAt(ev, cur, p);
      DecodeFixed(ev, cur, c.mtype, c.meta, p);
    }
    RenderStored(ev, c, v);
  }

  lemma StoredParts(c: Column, v: Datum)
    requires Supported(c) && Fits(c, v)
    ensures c.meta < 0x1_0000
    ensures var p := Payload(c, v);
            match Shape(c)
            case Plain(k) => Stored(c, v) == p && |p| == k
            case Counted(k) => Stored(c, v) == Enc(|p|, k) + p && |p| < Pow256(k)
            case Unknown => false
  {
    hide Payload, Real, StorageOf, Fits, Pow256;
    PayloadSize(c, v);
  }

  lemma DecodeFixed(ev: seq<byte>, cur: nat, mtype: byte, meta: nat, p: seq<byte>)
    requires meta < 0x1_0000 && Take(ev, cur, |p|) == Done(p)
    requires LayoutOf(Resolve(mtype, meta).0, meta, Resolve(mtype, meta).1) == Fixed(|p|)
    ensures |p| <= |ev|
    ensures Value2CellAt(ev, cur, mtype, meta) == Done((Render(ev, Resolve(mtype, meta).0, p), cur + |p|))
  {
    hide Resolve, LayoutOf, Render;
  }

  lemma DecodePrefixed(ev: seq<byte>, cur: nat, mtype: byte, meta: nat, k: nat, p: seq<byte>)
    requires meta < 0x1_0000 && TakeUint(ev, cur, k) == Done(|p|) && Take(ev, cur + k, |p|) == Done(p)
    requires LayoutOf(Resolve(mtype, meta).0, meta, Resolve(mtype, meta).1) == Prefixed(k)
    ensures |p| <= |ev|
    ensures Value2CellAt(ev, cur, mtype, meta)
         == Done((Render(ev, Resolve(mtype, meta).0, p), cur + k + |p|))
  {
    hide Resolve, LayoutOf, Render, Le;
  }

  /** A SET cell carries its column's bytes only if the event happens to begin
      with them. */
  lemma SetContents(ev: seq<byte>, cur: nat, c: Column, s: seq<byte>)
    requires Supported(c) && Real(c) == 248 && Fits(c, Raw(s)) && At(ev, cur, s)
    ensures Value2CellAt(ev, cur, c.mtype, c.meta)
         == Done((Cell(Binary, SET, |s|, Bytes(ev[..|s|])), cur + |s|))
    ensures Value2CellAt(ev, cur, c.mtype, c.meta).value.0.value == Bytes(s) <==> ev[..|s|] == s
  {
    hide Resolve;
    ValueRoundTrip(ev, cur, c, Raw(s));
  }

  // ---- CHAR metadata

  /** The two metadata bytes of CHAR(len), packed into one 16-bit number:
      0xFE ^ ((len & 0x300) >> 4) above len & 0xFF. */
  function PackedChar(len: nat): nat
    requires len < 1024
  {
    (254 - 16 * (len / 256)) * 256 + len % 256
  }

  lemma PackedCharIsMask(len: bv16)
    requires len < 1024
    ensures 0xFE ^ ((len & 0x300) >> 4) == 254 - 16 * (len / 256)
    ensures len & 0xFF == len % 256
  {
  }

  /** Every length below 1024 comes back, as STRING and never as ENUM or SET,
      and selects the length prefix by the 256 threshold. */
  lemma PackedCharResolves(len: nat)
    requires len < 1024
    ensures PackedChar(len) < 0x1_0000
    ensures Resolve(STRING, PackedChar(len)) == (STRING, len)
    ensures LayoutOf(STRING, PackedChar(len), len) == Prefixed(if len < 256 then 1 else 2)
  {
    var m := PackedChar(len);
    var q := len / 256;
    assert m / 256 == 254 - 16 * q && m % 256 == len % 256;
    assert q == 0 || q == 1 || q == 2 || q == 3;
  }

  // ---- The text of a moment determines the moment

  /** A DATETIME cell's text is 19 characters from which every field can be
      read back, so different moments have different texts. */
  lemma ClockTextReads(y: nat, mo: nat, d: nat, h: nat, mi: nat, s: nat)
    requires y < 10000 && mo < 100 && d < 100 && h < 100 && mi < 100 && s < 100
    ensures var t := ClockText(y, mo, d, h, mi, s);
            && |t| == 19
            && Value(t[..4]) == y && Value(t[5..7]) == mo && Value(t[8..10]) == d
            && Value(t[11..13]) == h && Value(t[14..16]) == mi && Value(t[17..19]) == s
  {
    hide FormatD, Value;
    Pow10Values();
    FormatFills(y, 4);
    FormatFills(mo, 2);
    FormatFills(d, 2);
    FormatFills(h, 2);
    FormatFills(mi, 2);
    FormatFills(s, 2);
    var t := ClockText(y, mo, d, h, mi, s);
    assert t[..4] == FormatD(y, 4) && t[5..7] == FormatD(mo, 2) && t[8..10] == FormatD(d, 2);
    assert t[11..13] == FormatD(h, 2) && t[14..16] == FormatD(mi, 2) && t[17..19] == FormatD(s, 2);
  }

  // ---- What the encoder does not produce

  /** The other type codes: no byte is consumed and the cell is the empty one. */
  lemma NothingStored(ev: seq<byte>, cur: nat, mtype: byte, meta: nat)
    requires meta < 0x1_0000
    requires mtype in {0, 6, 249, 250, 251, 255} || 17 <= mtype < 246
    ensures Value2CellAt(ev, cur, mtype, meta) == Done((Cell(Int32, 0, 0, NoValue), cur))
  {
    hide Render;
  }

  /** Metadata no ENUM, BLOB, SET or DECIMAL column has. */
  lemma OddMetadata(ev: seq<byte>, cur: nat, meta: nat)
    requires meta < 0x1_0000
    ensures meta % 256 != 1 && meta % 256 != 2 ==>
              Value2CellAt(ev, cur, 247, meta) == Done((Cell(Int32, 247, 0, NoValue), cur))
    ensures meta == 0 || meta > 4 ==>
              Value2CellAt(ev, cur, 252, meta) == Done((Cell(Binary, 252, 0, NoValue), cur))
    ensures meta % 256 > 32 ==> Value2CellAt(ev, cur, 248, meta) == Fail(BufferOverflow)
    ensures Value2CellAt(ev, cur, 246, meta) == Fail(Unsupported)
  {
    hide Render;
  }

  /** C's division and remainder: the quotient is rounded towards zero and the
      remainder has the dividend's sign. */
  lemma CDivTruncates(a: int, b: nat)
    requires b > 0
    ensures a == b * CDiv(a, b) + CMod(a, b)
    ensures a >= 0 ==> 0 <= CMod(a, b) < b
    ensures a <= 0 ==> -(b as int) < CMod(a, b) <= 0
  {
    if a >= 0 {
      assert a == b * (a / b) + a % b;
    } else {
      assert -a == b * (-a / b) + -a % b;
      Opposite(b, -a / b);
    }
  }

  lemma Opposite(b: int, q: int)
    ensures b * -q == -(b * q)
  {
  }

  /** Conversion to a signed 32-bit number. */
  lemma ToInt32Wraps(v: nat)
    ensures -0x8000_0000 <= ToInt32(v) < 0x8000_0000
    ensures (v - ToInt32(v)) % 0x1_0000_0000 == 0
  {
    hide ToInt32;
    Wrapped(v);
    var q, r := v / 0x1_0000_0000, v % 0x1_0000_0000;
    assert v == q * 0x1_0000_0000 + r;
    Multiple(v - r, q);
    Multiple(v - r + 0x1_0000_0000, q + 1);
  }

  lemma Multiple(x: int, q: int)
    requires x == q * 0x1_0000_0000
    ensures x % 0x1_0000_0000 == 0
  {
  }

  /** A negative number has a sign in front, which takes one of the places. */
  lemma NegativeText(n: nat, w: nat)
    requires 0 < n
    ensures FormatD(-(n as int), w + 1) == [45] + FormatD(n, w)
  {
  }

  /** The fields of any 64-bit DATETIME number. Its date part is taken modulo
      2^32; from 2^31 on it is negative, and so are year, month and day. */
  lemma MomentFields(v: nat)
    ensures var d := v / 1000000 % 0x1_0000_0000; var t := v % 1000000; var n := 0x1_0000_0000 - d;
            DateTimeText(v)
            == if d < 0x8000_0000 then
                 ClockText(d / 10000, d % 10000 / 100, d % 100, t / 10000, t % 10000 / 100, t % 100)
               else
                 ClockText(-(n / 10000), -(n % 10000 / 100), -(n % 100), t / 10000, t % 10000 / 100, t % 100)
  {
    hide ClockText, ToInt32, CDiv, CMod;
    var d := v / 1000000 % 0x1_0000_0000;
    Wrapped(v / 1000000);
    if d < 0x8000_0000 {
      Forward(d, 10000);
      Forward(d % 10000, 100);
      Forward(d, 100);
    } else {
      var n := 0x1_0000_0000 - d;
      Backward(n, 10000);
      Backward(n % 10000, 100);
      Backward(n, 100);
    }
  }

  lemma Wrapped(v: nat)
    ensures var d := v % 0x1_0000_0000; ToInt32(v) == if d < 0x8000_0000 then d else d - 0x1_0000_0000
  {
    PowValues();
  }

  /** C division of a negative number or zero. */
  lemma Backward(n: nat, b: nat)
    requires b > 0
    ensures CDiv(-(n as int), b) == -(n / b) && CMod(-(n as int), b) == -(n % b)
  {
    assert n == b * (n / b) + n % b;
    Opposite(b, n / b);
    if n == 0 { assert n / b == 0; }
  }

  /** The first DATETIME number whose date part turns negative. */
  lemma NegativeMoment()
    ensures DateTimeText(2147483648000000) == [45] + [50, 49, 52, 55, 52, 56] + [45] + [45, 51, 54] + [45]
         + [45, 52, 56] + [32, 48, 48, 58, 48, 48, 58, 48, 48]
  {
    hide FormatD, ClockText, DateTimeText;
    MomentFields(2147483648000000);
    SampleTexts();
    assert DateTimeText(2147483648000000) == ClockText(-214748, -36, -48, 0, 0, 0);
    ClockParts(-214748, -36, -48);
  }

  lemma ClockParts(y: int, mo: int, d: int)
    ensures ClockText(y, mo, d, 0, 0, 0)
         == FormatD(y, 4) + [45] + FormatD(mo, 2) + [45] + FormatD(d, 2) + [32]
          + FormatD(0, 2) + [58] + FormatD(0, 2) + [58] + FormatD(0, 2)
  {
    hide FormatD;
  }

  lemma SampleTexts()
    ensures FormatD(-214748, 4) == [45, 50, 49, 52, 55, 52, 56]
    ensures FormatD(-36, 2) == [45, 51, 54] && FormatD(-48, 2) == [45, 52, 56] && FormatD(0, 2) == [48, 48]
  {
    SampleDigits();
    hide Digits;
    TwoDigits(0);
  }

  lemma SampleDigits()
    ensures Digits(214748) == [50, 49, 52, 55, 52, 56] && Digits(36) == [51, 54] && Digits(48) == [52, 56]
  {
    LastDigit(214748);
    LastDigit(21474);
    LastDigit(2147);
    LastDigit(214);
    LastDigit(21);
    OneDigit(2);
  }
}
