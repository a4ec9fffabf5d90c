/** value2Cell: decoding one column value of a row image, driven by the type
    and metadata of the table map. */
module Cells {
  import opened Bits
  import opened Wire
  import opened Text

  const TINY: byte := 1
  const SHORT: byte := 2
  const LONG: byte := 3
  const FLOAT: byte := 4
  const DOUBLE: byte := 5
  const TIMESTAMP: byte := 7
  const LONGLONG: byte := 8
  const INT24: byte := 9
  const DATE: byte := 10
  const TIME: byte := 11
  const DATETIME: byte := 12
  const YEAR: byte := 13
  const NEWDATE: byte := 14
  const VARCHAR: byte := 15
  const BIT: byte := 16
  const NEWDECIMAL: byte := 246
  const ENUM: byte := 247
  const SET: byte := 248
  const TINY_BLOB: byte := 249
  const MEDIUM_BLOB: byte := 250
  const LONG_BLOB: byte := 251
  const BLOB: byte := 252
  const VAR_STRING: byte := 253
  const STRING: byte := 254
  const GEOMETRY: byte := 255

  datatype CType = Int32 | Int8 | Int16 | Int64 | UInt32 | UInt64 | Float | Double | Text | Binary

  /** What the `value` pointer of a cell leads to. */
  datatype CellValue = NoValue | Number(n: int) | Bytes(s: seq<byte>)

  datatype Cell = Cell(ctype: CType, mtype: byte, length: nat, value: CellValue)

  const NULL_CELL := Cell(Int32, 0, 0, NoValue)

  // ---- The real type behind STRING

  /** Bits 4 and 5 of a byte. */
  function Pair45(b: byte): nat { b / 16 % 4 }

  /** The masks of the source in arithmetic: b & 0x30, b | 0x30 and
      ((b & 0x30) ^ 0x30) << 4. */
  lemma Pair45IsMask(b: bv8)
    ensures b & 0x30 == (b / 16 % 4) * 16
    ensures b | 0x30 == b + 16 * (3 - b / 16 % 4)
    ensures (((b & 0x30) ^ 0x30) as bv16) << 4 == 256 * (3 - b / 16 % 4) as bv16
  {
  }

  /** The type that selects the decoder, and the declared length. */
  function Resolve(mtype: byte, meta: nat): (byte, nat)
    requires meta < 0x1_0000
  {
    if mtype != STRING then (mtype, 0)
    else if meta < 256 then (mtype, meta)
    else
      var b0: byte, b1: byte := meta / 256, meta % 256;
      if b0 == SET || b0 == ENUM || b0 == STRING then (b0, b1)
      else if Pair45(b0) != 3 then (b0 + 16 * (3 - Pair45(b0)), b1 + 256 * (3 - Pair45(b0)))
      else (mtype, b1)
  }

  // ---- How many bytes a value takes

  datatype Layout =
    | Nothing
    | Fixed(size: nat)
    | Prefixed(width: nat)   // a length of `width` bytes, then that many bytes
    | Bad(why: Fault)

  function LayoutOf(t: byte, meta: nat, n: nat): Layout {
    if t == LONG || t == TIMESTAMP || t == FLOAT then Fixed(4)
    else if t == TINY || t == YEAR then Fixed(1)
    else if t == SHORT then Fixed(2)
    else if t == LONGLONG || t == DATETIME || t == DOUBLE then Fixed(8)
    else if t == INT24 || t == TIME || t == NEWDATE || t == DATE then Fixed(3)
    else if t == ENUM then
      if meta % 256 == 1 then Fixed(1) else if meta % 256 == 2 then Fixed(2) else Nothing
    else if t == SET then
      // copied into 32 bytes
      if meta % 256 > 32 then Bad(BufferOverflow) else Fixed(meta % 256)
    else if t == BLOB then
      if 1 <= meta <= 4 then Prefixed(meta) else Nothing
    else if t == VARCHAR || t == VAR_STRING then Prefixed(if meta < 256 then 1 else 2)
    else if t == STRING then Prefixed(if n < 256 then 1 else 2)
    else if t == BIT then Fixed((meta / 256 * 8 + meta % 256 + 7) / 8)
    else if t == NEWDECIMAL then Bad(Unsupported)
    else Nothing
  }

  // ---- What the bytes become

  function TextCell(t: byte, s: seq<byte>): Cell { Cell(Text, t, |s|, Bytes(s)) }

  /** Conversion of an unsigned 64-bit number to int32_t. */
  function ToInt32(v: nat): int {
    Signed(v % 0x1_0000_0000, 4)
  }

  /** C division and remainder truncate towards zero. */
  function CDiv(a: int, b: nat): int
    requires b > 0
  {
    if a >= 0 then a / b else -(-a / b)
  }

  function CMod(a: int, b: nat): int
    requires b > 0
  {
    a - b * CDiv(a, b)
  }

  function DateTimeText(v: nat): seq<byte> {
    var d, t := ToInt32(v / 1000000), v % 1000000;
    ClockText(CDiv(d, 10000), CDiv(CMod(d, 10000), 100), CMod(d, 100),
              t / 10000, t % 10000 / 100, t % 100)
  }

  /** yyyy-mm-dd hh:mm:ss */
  function ClockText(y: int, mo: int, d: int, h: int, mi: int, s: int): seq<byte> {
    FormatD(y, 4) + [45] + FormatD(mo, 2) + [45] + FormatD(d, 2) + [32]
    + FormatD(h, 2) + [58] + FormatD(mi, 2) + [58] + FormatD(s, 2)
  }

  /** 'hh:mm:ss', quotes included */
  function TimeText(h: nat, m: nat, s: nat): seq<byte> {
    [39] + FormatD(h, 2) + [58] + FormatD(m, 2) + [58] + FormatD(s, 2) + [39]
  }

  /** yyyy-mm-dd */
  function DateText(y: nat, m: nat, d: nat): seq<byte> {
    FormatD(y, 4) + [45] + FormatD(m, 2) + [45] + FormatD(d, 2)
  }

  /** yyyy:mm:dd, the digits written one by one; the thousands of a year past
      9999 run on beyond '9'. */
  function NewDateText(v: nat): seq<byte> {
    var d, m, y := v % 32, v / 32 % 16, v / 512;
    [Char(y / 1000), Char(y / 100 % 10), Char(y / 10 % 10), Char(y % 10), 58,
     Char(m / 10), Char(m % 10), 58, Char(d / 10), Char(d % 10)]
  }

  /** (char) ('0' + n) */
  function Char(n: nat): byte { (48 + n) % 256 }

  /** The cell for payload p of a value of resolved type t in event ev. */
  function Render(ev: seq<byte>, t: byte, p: seq<byte>): Cell
    requires |p| <= |ev|
  {
    if t == LONG then Cell(Int32, t, 4, Number(Signed(Le(p), 4)))
    else if t == TINY then Cell(Int8, t, 1, Number(Signed(Le(p), 1)))
    else if t == SHORT then Cell(Int16, t, 2, Number(Signed(Le(p), 2)))
    else if t == LONGLONG then Cell(Int64, t, 8, Number(Signed(Le(p), 8)))
    else if t == INT24 then Cell(Int32, t, 4, Number(Signed(Le(p), 3)))
    else if t == TIMESTAMP then Cell(UInt32, t, 4, Number(Le(p)))
    else if t == ENUM then Cell(Int32, t, 4, Number(Le(p)))
    else if t == DATETIME then TextCell(t, DateTimeText(Le(p)))
    else if t == TIME then TextCell(t, TimeText(Le(p) / 10000, Le(p) % 10000 / 100, Le(p) % 100))
    else if t == NEWDATE then TextCell(t, NewDateText(Le(p)))
    else if t == DATE then TextCell(t, DateText(Le(p) / 512, Le(p) / 32 % 16, Le(p) % 32))
    else if t == YEAR then TextCell(t, FormatD(Le(p) + 1900, 4))
    else if t == SET then Cell(Binary, t, |p|, Bytes(ev[..|p|]))  // from the event's start
    else if t == VARCHAR || t == VAR_STRING then TextCell(VARCHAR, p)
    else if t == STRING then TextCell(t, p)
    else if t == FLOAT then Cell(Float, t, 4, Bytes(p))
    else if t == DOUBLE then Cell(Double, t, 8, Bytes(p))
    else Cell(Binary, t, |p|, Bytes(p))
  }

  /** The cell of a type that consumes nothing. */
  function Untouched(t: byte): Cell {
    if t == ENUM then Cell(Int32, t, 0, NoValue)
    else if t == BLOB then Cell(Binary, t, 0, NoValue)
    else NULL_CELL
  }

  /** The cell and the new cursor. */
  function Value2CellAt(ev: seq<byte>, cur: nat, mtype: byte, meta: nat): (r: Outcome<(Cell, nat)>)
    requires meta < 0x1_0000
    ensures r.Done? && cur <= |ev| ==> cur <= r.value.1 <= |ev|
  {
    var (t, n) := Resolve(mtype, meta);
    match LayoutOf(t, meta, n)
    case Bad(why) => Fail(why)
    case Nothing => Done((Untouched(t), cur))
    case Fixed(k) =>
      var p :- Take(ev, cur, k);
      Done((Render(ev, t, p), cur + k))
    case Prefixed(k) =>
      var len :- TakeUint(ev, cur, k);
      var p :- Take(ev, cur + k, len);
      Done((Render(ev, t, p), cur + k + len))
  }

  // ---- The cursor

  class EventCursor {
    const ev: seq<byte>
    var cur: nat

    constructor (ev: seq<byte>, cur: nat)
      ensures this.ev == ev && this.cur == cur
    {
      this.ev, this.cur := ev, cur;
    }

    /** The read helpers: k bytes at the cursor, which then moves past them. */
    method Read(k: nat) returns (r: Outcome<seq<byte>>)
      modifies this
      ensures r == Take(ev, old(cur), k)
      ensures cur == old(cur) + k
    {
      r := if cur + k <= |ev| then Done(ev[cur..cur + k]) else Fail(ReadPastEnd);
      cur := cur + k;
    }

    method ReadUint(k: nat) returns (r: Outcome<nat>)
      modifies this
      ensures r == TakeUint(ev, old(cur), k)
      ensures cur == old(cur) + k
    {
      var s := Read(k);
      match s
      case Done(b) => r := Done(Le(b));
      case Fail(w) => r := Fail(w);
    }

    method Value2Cell(mtype: byte, meta: nat) returns (r: Outcome<Cell>)
      requires meta < 0x1_0000
      modifies this
      ensures match Value2CellAt(ev, old(cur), mtype, meta)
              case Done(v) => r == Done(v.0) && cur == v.1
              case Fail(w) => r == Fail(w)
    {
      hide Render, Resolve, LayoutOf, Untouched;
      var (t, n) := Resolve(mtype, meta);
      match LayoutOf(t, meta, n) {
        case Bad(why) => r := Fail(why);
        case Nothing => r := Done(Untouched(t));
        case Fixed(k) =>
          var p := Read(k);
          if p.Fail? { return Fail(p.why); }
          r := Done(Render(ev, t, p.value));
        case Prefixed(k) =>
          var len := ReadUint(k);
          if len.Fail? { return Fail(len.why); }
          var p := Read(len.value);
          if p.Fail? { return Fail(p.why); }
          r := Done(Render(ev, t, p.value));
      }
    }
  }
}
