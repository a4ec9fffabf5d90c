/** What the event parsers compute, as functions of the event's bytes and of
    what earlier events left behind. */
module Events {
  import opened Bits
  import opened Wire
  import opened Cells

  const ROTATE_EVENT: byte := 4
  const FORMAT_DESCRIPTION_EVENT: byte := 15
  const TABLE_MAP_EVENT: byte := 19
  const WRITE_ROWS_EVENT: byte := 23
  const UPDATE_ROWS_EVENT: byte := 24
  const DELETE_ROWS_EVENT: byte := 25

  predicate IsRowsType(t: byte) {
    t == WRITE_ROWS_EVENT || t == UPDATE_ROWS_EVENT || t == DELETE_ROWS_EVENT
  }

  // ---- Header

  datatype Header = Header(ts: nat, mtype: byte, serverid: nat, evlen: nat, nextpos: nat, flags: nat)

  function ParseHeader(ev: seq<byte>): Outcome<Header> {
    var ts :- TakeUint(ev, 0, 4);
    var t :- Take(ev, 4, 1);
    var serverid :- TakeUint(ev, 5, 4);
    var evlen :- TakeUint(ev, 9, 4);
    var nextpos :- TakeUint(ev, 13, 4);
    var flags :- TakeUint(ev, 17, 2);
    Done(Header(ts, t[0], serverid, evlen, nextpos, flags))
  }

  // ---- Format description

  datatype Fde = Fde(blver: nat, hdrlen: nat, masterid: nat, server: seq<byte>)

  /** The assert compares evlen - 76 with 29 as unsigned numbers. */
  function ParseFDE(ev: seq<byte>): Outcome<Fde> {
    var h :- ParseHeader(ev);
    var blver :- TakeUint(ev, 19, 2);
    var server :- Take(ev, 21, 50);
    var hdrlen :- TakeUint(ev, 75, 1);
    if 76 <= h.evlen <= 105 then Done(Fde(blver, hdrlen, h.serverid, server))
    else Fail(AssertFailed)
  }

  // ---- Rotate

  datatype Rotate = Rotate(position: nat, fileName: seq<byte>)

  /** A C string: the bytes before the first NUL, or all of them. */
  function CString(s: seq<byte>): (r: seq<byte>)
    ensures 0 !in r && |r| <= |s|
  {
    if s == [] || s[0] == 0 then [] else [s[0]] + CString(s[1..])
  }

  /** The name fills the rest of the event and must leave room for a NUL in
      256 bytes. */
  function ParseRotate(ev: seq<byte>, hdrlen: nat): Outcome<Rotate> {
    var position :- TakeUint(ev, hdrlen, 8);
    var evlen :- TakeUint(ev, 9, 4);
    var left := (evlen - (hdrlen + 8)) % TWO32;
    if left > 255 then Fail(BufferOverflow)
    else
      var name :- Take(ev, hdrlen + 8, left);
      Done(Rotate(position, name))
  }

  // ---- Table map

  datatype Table = Table(
    ts: nat, serverid: nat, nextpos: nat, evlen: nat,
    dbname: seq<byte>, tblname: seq<byte>,
    nfields: nat, tableid: nat, types: seq<byte>, meta: seq<nat>)
  {
    predicate Valid() {
      |types| == |meta| == nfields && forall i :: 0 <= i < nfields ==> meta[i] < 0x1_0000
    }
  }

  const NO_TABLE := Table(0, 0, 0, 0, [], [], 0, 0, [], [])

  function MetaWidth(t: byte): nat {
    if t in {TINY_BLOB, BLOB, MEDIUM_BLOB, LONG_BLOB, DOUBLE, FLOAT, GEOMETRY} then 1
    else if t in {SET, ENUM, STRING, BIT, VARCHAR, NEWDECIMAL} then 2
    else 0
  }

  predicate HighByteFirst(t: byte) { t in {SET, ENUM, STRING, NEWDECIMAL} }

  function MetaAt(ev: seq<byte>, at: nat, t: byte): (r: Outcome<nat>)
    ensures r.Done? ==> r.value < 0x1_0000
  {
    var s :- Take(ev, at, MetaWidth(t));
    if |s| == 0 then Done(0)
    else if |s| == 1 then Done(s[0] as nat)
    else
      var a: nat, b: nat := s[0], s[1];
      Done(if HighByteFirst(t) then 256 * a + b else a + 256 * b)
  }

  /** Metadata bytes of the first i columns. */
  function WidthSum(types: seq<byte>, i: nat): nat
    requires i <= |types|
  {
    if i == 0 then 0 else WidthSum(types, i - 1) + MetaWidth(types[i - 1])
  }

  /** The fixed-width metadata of the first i columns. */
  function DecodeMetaTo(ev: seq<byte>, at: nat, types: seq<byte>, i: nat): (r: Outcome<seq<nat>>)
    requires i <= |types|
    ensures r.Done? ==> |r.value| == i && forall j :: 0 <= j < i ==> r.value[j] < 0x1_0000
  {
    if i == 0 then Done([])
    else
      var before :- DecodeMetaTo(ev, at, types, i - 1);
      var m :- MetaAt(ev, at + WidthSum(types, i - 1), types[i - 1]);
      Done(before + [m])
  }

  /** strcpy from offset `at` into 256 bytes. */
  function CopyName(ev: seq<byte>, at: nat): (r: Outcome<seq<byte>>) {
    if at > |ev| then Fail(ReadPastEnd)
    else
      var s := CString(ev[at..]);
      if at + |s| >= |ev| then Fail(ReadPastEnd)
      else if |s| > 255 then Fail(BufferOverflow)
      else Done(s)
  }

  function ParseTableMap(ev: seq<byte>, hdrlen: nat): (r: Outcome<Table>)
    ensures r.Done? ==> r.value.Valid()
  {
    var h :- ParseHeader(ev);
    var tableid :- TakeUint(ev, hdrlen, 6);
    var db := hdrlen + 8;
    var dblen :- TakeUint(ev, db, 1);
    var tbl := db + dblen + 2;
    var tbllen :- TakeUint(ev, tbl, 1);
    var nf :- DecodeInt(ev, tbl + tbllen + 2);
    var nfields := nf.0 % TWO32;
    var types :- Take(ev, nf.1, nfields);
    var ml :- DecodeInt(ev, nf.1 + nfields);
    var dbname :- CopyName(ev, db + 1);
    var tblname :- CopyName(ev, tbl + 1);
    var meta :- DecodeMetaTo(ev, ml.1, types, nfields);
    Done(Table(h.ts, h.serverid, h.nextpos, h.evlen, dbname, tblname, nfields, tableid, types, meta))
  }

  // ---- Rows

  datatype RowImages = RowImages(row: seq<Cell>, rowOld: seq<Cell>)

  datatype RowsEvent = RowsEvent(
    ts: nat, mtype: byte, nextpos: nat, serverid: nat, tableid: nat,
    nfields: nat, rows: seq<RowImages>)

  /** The first i cells of an image whose values start at `cur`, and the
      cursor behind them. */
  function CellsTo(ev: seq<byte>, cur: nat, isnull: seq<byte>, used: seq<byte>, t: Table, i: nat)
    : (r: Outcome<(seq<Cell>, nat)>)
    requires t.Valid() && i <= t.nfields && |isnull| == |used| == BitLen(t.nfields)
    ensures r.Done? ==> |r.value.0| == i
    ensures r.Done? && cur <= |ev| ==> cur <= r.value.1 <= |ev|
  {
    if i == 0 then Done(([], cur))
    else
      var before :- CellsTo(ev, cur, isnull, used, t, i - 1);
      if !IsSet(isnull, i - 1) && IsSet(used, i - 1) then
        var c :- Value2CellAt(ev, before.1, t.types[i - 1], t.meta[i - 1]);
        Done((before.0 + [c.0], c.1))
      else
        Done((before.0 + [NULL_CELL], before.1))
  }

  /** One row image: a null bitmap, then the cells. */
  function Image(ev: seq<byte>, cur: nat, used: seq<byte>, t: Table): (r: Outcome<(seq<Cell>, nat)>)
    requires t.Valid() && |used| == BitLen(t.nfields)
    ensures r.Done? ==> |r.value.0| == t.nfields && cur + BitLen(t.nfields) <= r.value.1 <= |ev|
  {
    var isnull :- Take(ev, cur, BitLen(t.nfields));
    CellsTo(ev, cur + BitLen(t.nfields), isnull, used, t, t.nfields)
  }

  /** One pass of the row loop: an image, and for UPDATE a second one, which
      becomes the row while the first becomes the old row. */
  function Pass(ev: seq<byte>, cur: nat, mtype: byte, used: seq<byte>, usedU: seq<byte>, t: Table)
    : (r: Outcome<(RowImages, nat)>)
    requires t.Valid() && |used| == |usedU| == BitLen(t.nfields)
    ensures r.Done? ==> cur + BitLen(t.nfields) <= r.value.1 <= |ev|
  {
    var first :- Image(ev, cur, used, t);
    if mtype == UPDATE_ROWS_EVENT then
      var second :- Image(ev, first.1, usedU, t);
      Done((RowImages(second.0, first.0), second.1))
    else
      Done((RowImages(first.0, []), first.1))
  }

  /** The rows from `cur` to the end of the event. With no columns a pass does
      not move the cursor. */
  function RowsFrom(ev: seq<byte>, cur: nat, evlen: nat, mtype: byte, used: seq<byte>, usedU: seq<byte>, t: Table)
    : Outcome<seq<RowImages>>
    requires t.Valid() && |used| == |usedU| == BitLen(t.nfields)
    decreases |ev| - cur
  {
    if cur >= evlen then Done([])
    else if t.nfields == 0 then Fail(Diverges)
    else
      var p :- Pass(ev, cur, mtype, used, usedU, t);
      var rest :- RowsFrom(ev, p.1, evlen, mtype, used, usedU, t);
      Done([p.0] + rest)
  }

  function ParseRows(ev: seq<byte>, hdrlen: nat, t: Table): Outcome<RowsEvent>
    requires t.Valid()
  {
    var h :- ParseHeader(ev);
    var tableid :- TakeUint(ev, hdrlen, 6);
    if tableid != t.tableid then Fail(AssertFailed)
    else
      var nf :- DecodeInt(ev, hdrlen + 8);
      if nf.0 % TWO32 != t.nfields then Fail(AssertFailed)
      else
        var b := BitLen(t.nfields);
        var used :- Take(ev, nf.1, b);
        if h.mtype == UPDATE_ROWS_EVENT then
          var usedU :- Take(ev, nf.1 + b, b);
          var rows :- RowsFrom(ev, nf.1 + 2 * b, h.evlen, h.mtype, used, usedU, t);
          Done(RowsEvent(h.ts, h.mtype, h.nextpos, h.serverid, tableid, t.nfields, rows))
        else
          var rows :- RowsFrom(ev, nf.1 + b, h.evlen, h.mtype, used, used, t);
          Done(RowsEvent(h.ts, h.mtype, h.nextpos, h.serverid, tableid, t.nfields, rows))
  }
}
