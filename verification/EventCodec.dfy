/** The binary log's encoder: logical events and their bytes, and the proof
    that the parsers recover every event. */
module EventCodec {
  import opened Bits
  import opened Wire
  import opened CellCodec
  import opened Events

  // ---- Logical events

  datatype Head = Head(ts: nat, serverid: nat, nextpos: nat, flags: nat, extra: seq<byte>)

  datatype TableDef = TableDef(tableid: nat, db: seq<byte>, name: seq<byte>, columns: seq<Column>)

  type Row = seq<Option<Datum>>   // None is NULL

  /** The old row is [] except for UPDATE. The unused bits of the null bitmaps
      are arbitrary. */
  datatype RowChange = RowChange(row: Row, rowOld: Row, pad: byte, padOld: byte)

  /** Which columns the images carry: those of the row, and for UPDATE those of
      the old row in `used` and those of the row in `usedU`. */
  datatype Present = Present(used: seq<bool>, pad: byte, usedU: seq<bool>, padU: byte)

  datatype Event =
    | FdeEvent(head: Head, hdrlen: nat, blver: nat, server: seq<byte>, created: nat, posthdr: seq<byte>)
    | RotateEvent(head: Head, position: nat, name: seq<byte>)
    | TableMapEvent(head: Head, def: TableDef, reserved: seq<byte>, tail: seq<byte>)
    | RowsEventOf(head: Head, kind: byte, def: TableDef, reserved: seq<byte>, present: Present,
                  rows: seq<RowChange>)
    | OtherEvent(head: Head, kind: byte, body: seq<byte>)

  function TypeOf(e: Event): byte {
    match e
    case FdeEvent(_, _, _, _, _, _) => 15
    case RotateEvent(_, _, _) => 4
    case TableMapEvent(_, _, _, _) => 19
    case RowsEventOf(_, kind, _, _, _, _) => kind
    case OtherEvent(_, kind, _) => kind
  }

  // ---- Well-formedness of one event

  predicate HeadOk(h: Head) {
    h.ts < TWO32 && h.serverid < TWO32 && h.nextpos < TWO32 && h.flags < 0x1_0000
  }

  predicate NameOk(s: seq<byte>) { |s| < 256 && 0 !in s }

  predicate ColumnOk(c: Column) {
    Supported(c) && MetaFits(c)
  }

  predicate DefOk(d: TableDef) {
    && d.tableid < 0x1_0000_0000_0000
    && NameOk(d.db) && NameOk(d.name)
    && 0 < |d.columns| < 0x8000_0000
    && forall i :: 0 <= i < |d.columns| ==> ColumnOk(d.columns[i])
  }

  predicate RowFits(cols: seq<Column>, r: Row)
  {
    |r| == |cols| && forall i :: 0 <= i < |cols| ==> CellFits(cols[i], r[i])
  }

  predicate CellFits(c: Column, v: Option<Datum>) {
    ColumnOk(c) && (v.Some? ==> Fits(c, v.value))
  }

  predicate ChangeFits(cols: seq<Column>, kind: byte, c: RowChange)
  {
    RowFits(cols, c.row) && if kind == 24 then RowFits(cols, c.rowOld) else c.rowOld == []
  }

  predicate EventOk(e: Event) {
    && HeadOk(e.head)
    && match e
       case FdeEvent(_, hdrlen, blver, server, created, posthdr) =>
         e.head.extra == [] && hdrlen < 256 && blver < 0x1_0000 && |server| == 50
         && created < TWO32 && |posthdr| <= 29
       case RotateEvent(_, position, name) => position < 0x1_0000_0000_0000_0000 && NameOk(name)
       case TableMapEvent(_, def, reserved, tail) => DefOk(def) && |reserved| == 2
       case RowsEventOf(_, kind, def, reserved, present, rows) =>
         kind in {23, 24, 25} && DefOk(def) && |reserved| == 2   // WRITE, UPDATE, DELETE
         && |present.used| == |present.usedU| == |def.columns|
         && forall i :: 0 <= i < |rows| ==> ChangeFits(def.columns, kind, rows[i])
       case OtherEvent(_, kind, body) =>
         kind !in {4, 15, 19, 23, 24, 25}
  }

  /** The driver reads the length as a signed 32-bit number. */
  predicate Sized(e: Event)
    requires EventOk(e)
  {
    19 + |e.head.extra| + |Body(e)| < 0x8000_0000
  }

  // ---- Bytes

  function HeaderBytes(h: Head, kind: byte, len: nat): (s: seq<byte>)
    ensures |s| == 19 + |h.extra|
  {
    Enc(h.ts, 4) + ([kind] + (Enc(h.serverid, 4) + (Enc(len, 4) + (Enc(h.nextpos, 4) + (Enc(h.flags, 2) + h.extra)))))
  }

  predicate MetaFits(c: Column) {
    if OneByteMeta(c.mtype) then c.meta < 256
    else if LowFirstMeta(c.mtype) || HighFirstMeta(c.mtype) then c.meta < 0x1_0000
    else c.meta == 0
  }

  // FLOAT, DOUBLE, the four BLOB codes and GEOMETRY
  predicate OneByteMeta(t: byte) { t in {4, 5, 249, 250, 251, 252, 255} }

  // VARCHAR and BIT
  predicate LowFirstMeta(t: byte) { t in {15, 16} }

  // NEWDECIMAL, ENUM, SET and STRING
  predicate HighFirstMeta(t: byte) { t in {246, 247, 248, 254} }

  /** The metadata of a column in a table map, by its type code. */
  function MetaBytes(c: Column): seq<byte>
    requires MetaFits(c)
  {
    if OneByteMeta(c.mtype) then [c.meta]
    else if LowFirstMeta(c.mtype) then [c.meta % 256, c.meta / 256]
    else if HighFirstMeta(c.mtype) then [c.meta / 256, c.meta % 256]
    else []
  }

  function TypesOf(cols: seq<Column>): (s: seq<byte>)
    ensures |s| == |cols|
  {
    seq(|cols|, i requires 0 <= i < |cols| => cols[i].mtype)
  }

  function MetasOf(cols: seq<Column>): (s: seq<nat>)
    ensures |s| == |cols|
  {
    seq(|cols|, i requires 0 <= i < |cols| => cols[i].meta)
  }

  predicate MetasFit(cols: seq<Column>) {
    forall j :: 0 <= j < |cols| ==> MetaFits(cols[j])
  }

  /** The packed metadata of the first i columns. */
  function MetaTo(cols: seq<Column>, i: nat): seq<byte>
    requires i <= |cols| && MetasFit(cols)
  {
    if i == 0 then [] else MetaTo(cols, i - 1) + MetaBytes(cols[i - 1])
  }

  function DefBytes(d: TableDef, reserved: seq<byte>): seq<byte>
    requires DefOk(d)
  {
    var md := MetaTo(d.columns, |d.columns|);
    (Enc(d.tableid, 6) + reserved)
    + (([|d.db|] + (d.db + [0]))
    + (([|d.name|] + (d.name + [0]))
    + (LenEnc(|d.columns|) + (TypesOf(d.columns) + (LenEnc(|md|) + md)))))
  }

  /** The values of the first i columns that are not NULL. */
  function ValuesTo(cols: seq<Column>, r: Row, i: nat): seq<byte>
    requires RowFits(cols, r) && i <= |cols|
  {
    if i == 0 then []
    else ValuesTo(cols, r, i - 1) + ValueBytes(cols[i - 1], r[i - 1])
  }

  function ValueBytes(c: Column, v: Option<Datum>): seq<byte>
    requires CellFits(c, v)
  {
    if v.Some? then Stored(c, v.value) else []
  }

  function NullBits(r: Row): (b: seq<bool>)
    ensures |b| == |r|
  {
    seq(|r|, i requires 0 <= i < |r| => r[i].None?)
  }

  /** A row with the columns an image leaves out made NULL. */
  function Shown(r: Row, used: seq<bool>): (s: Row)
    requires |used| == |r|
    ensures |s| == |r|
  {
    seq(|r|, i requires 0 <= i < |r| => if used[i] then r[i] else None)
  }

  lemma ShownFits(cols: seq<Column>, r: Row, used: seq<bool>)
    requires RowFits(cols, r) && |used| == |r|
    ensures RowFits(cols, Shown(r, used))
  {
    hide ColumnOk, Fits;
    forall i | 0 <= i < |cols| ensures CellFits(cols[i], Shown(r, used)[i]) {
      assert CellFits(cols[i], r[i]);
    }
  }

  /** One null bit for every column, left out or not, then the values. */
  function ImageBytes(cols: seq<Column>, r: Row, used: seq<bool>, pad: byte): seq<byte>
    requires RowFits(cols, r) && |used| == |r|
  {
    ShownFits(cols, r, used);
    Bitmap(NullBits(r), pad) + ValuesTo(cols, Shown(r, used), |cols|)
  }

  function ChangeBytes(cols: seq<Column>, kind: byte, c: RowChange, p: Present): (s: seq<byte>)
    requires ChangeFits(cols, kind, c) && |p.used| == |p.usedU| == |cols|
    ensures |s| >= BitLen(|cols|)
  {
    if kind == 24 then ImageBytes(cols, c.rowOld, p.used, c.padOld) + ImageBytes(cols, c.row, p.usedU, c.pad)
    else ImageBytes(cols, c.row, p.used, c.pad)
  }

  function RowsBytes(cols: seq<Column>, kind: byte, rows: seq<RowChange>, p: Present): seq<byte>
    requires forall i :: 0 <= i < |rows| ==> ChangeFits(cols, kind, rows[i])
    requires |p.used| == |p.usedU| == |cols|
  {
    if rows == [] then []
    else ChangeBytes(cols, kind, rows[0], p) + RowsBytes(cols, kind, rows[1..], p)
  }

  function Body(e: Event): seq<byte>
    requires EventOk(e)
  {
    match e
    case FdeEvent(_, hdrlen, blver, server, created, posthdr) =>
      Enc(blver, 2) + (server + (Enc(created, 4) + ([hdrlen] + posthdr)))
    case RotateEvent(_, position, name) => Enc(position, 8) + name
    case TableMapEvent(_, def, reserved, tail) => DefBytes(def, reserved) + tail
    case RowsEventOf(_, kind, def, reserved, p, rows) =>
      (Enc(def.tableid, 6) + reserved)
      + (LenEnc(|def.columns|)
      + (Bitmap(p.used, p.pad)
      + ((if kind == 24 then Bitmap(p.usedU, p.padU) else [])
      + RowsBytes(def.columns, kind, rows, p))))
    case OtherEvent(_, _, body) => body
  }

  function EventBytes(e: Event): (s: seq<byte>)
    requires EventOk(e)
    ensures |s| == 19 + |e.head.extra| + |Body(e)|
  {
    HeaderBytes(e.head, TypeOf(e), 19 + |e.head.extra| + |Body(e)|) + Body(e)
  }

  // ---- Header

  lemma HeaderAt(ev: seq<byte>, h: Head, kind: byte, len: nat)
    requires HeadOk(h) && len < TWO32 && At(ev, 0, HeaderBytes(h, kind, len))
    ensures ParseHeader(ev) == Done(Header(h.ts, kind, h.serverid, len, h.nextpos, h.flags))
    ensures |ev| >= 19 && ev[4] == kind
  {
    hide Enc;
    PowValues();
    var s5 := Enc(h.flags, 2) + h.extra;
    var s4 := Enc(h.nextpos, 4) + s5;
    var s3 := Enc(len, 4) + s4;
    var s2 := Enc(h.serverid, 4) + s3;
    AtSplit(ev, 0, Enc(h.ts, 4), [kind] + s2);
    AtSplit(ev, 4, [kind], s2);
    AtSplit(ev, 5, Enc(h.serverid, 4), s3);
    AtSplit(ev, 9, Enc(len, 4), s4);
    AtSplit(ev, 13, Enc(h.nextpos, 4), s5);
    AtSplit(ev, 17, Enc(h.flags, 2), h.extra);
    TakeUintAt(ev, 0, h.ts, 4);
    TakeAt(ev, 4, [kind]);
    TakeUintAt(ev, 5, h.serverid, 4);
    TakeUintAt(ev, 9, len, 4);
    TakeUintAt(ev, 13, h.nextpos, 4);
    TakeUintAt(ev, 17, h.flags, 2);
    assert ev[4..5] == [kind];
  }

  /** The header of an encoded event parses, and its body follows. */
  lemma EventParts(e: Event)
    requires EventOk(e) && Sized(e)
    ensures var ev := EventBytes(e); var h := e.head;
            && ParseHeader(ev) == Done(Header(h.ts, TypeOf(e), h.serverid, |ev|, h.nextpos, h.flags))
            && |ev| < 0x8000_0000
            && ev[4] == TypeOf(e)
            && At(ev, 19 + |h.extra|, Body(e))
  {
    hide HeaderBytes, ParseHeader, Body, HeadOk;
    var ev := EventBytes(e);
    AtSplit(ev, 0, HeaderBytes(e.head, TypeOf(e), |ev|), Body(e));
    HeaderAt(ev, e.head, TypeOf(e), |ev|);
  }

  // ---- Format description and rotate

  lemma FdeBody(ev: seq<byte>, hdrlen: byte, blver: nat, server: seq<byte>, created: nat, posthdr: seq<byte>)
    requires blver < 0x1_0000 && |server| == 50 && created < TWO32
    requires At(ev, 19, Enc(blver, 2) + (server + (Enc(created, 4) + ([hdrlen] + posthdr))))
    ensures TakeUint(ev, 19, 2) == Done(blver)
    ensures Take(ev, 21, 50) == Done(server)
    ensures TakeUint(ev, 75, 1) == Done(hdrlen)
  {
    hide Enc, Take, TakeUint, At;
    PowValues();
    var s3 := [hdrlen] + posthdr;
    var s2 := Enc(created, 4) + s3;
    AtSplit(ev, 19, Enc(blver, 2), server + s2);
    AtSplit(ev, 21, server, s2);
    AtSplit(ev, 71, Enc(created, 4), s3);
    AtSplit(ev, 75, [hdrlen], posthdr);
    TakeUintAt(ev, 19, blver, 2);
    TakeAt(ev, 21, server);
    OneByte(hdrlen);
    TakeUintAt(ev, 75, hdrlen, 1);
  }

  lemma FdeRoundTrip(e: Event)
    requires EventOk(e) && Sized(e) && e.FdeEvent?
    ensures ParseFDE(EventBytes(e)) == Done(Fde(e.blver, e.hdrlen, e.head.serverid, e.server))
  {
    hide Enc, HeaderBytes, ParseHeader, Take, TakeUint, At, EventBytes, HeadOk;
    EventParts(e);
    FdeBody(EventBytes(e), e.hdrlen, e.blver, e.server, e.created, e.posthdr);
  }

  lemma RotateBody(ev: seq<byte>, cur: nat, position: nat, name: seq<byte>)
    requires position < 0x1_0000_0000_0000_0000 && At(ev, cur, Enc(position, 8) + name)
    ensures TakeUint(ev, cur, 8) == Done(position)
    ensures Take(ev, cur + 8, |name|) == Done(name)
  {
    PowValues();
    AtSplit(ev, cur, Enc(position, 8), name);
    TakeUintAt(ev, cur, position, 8);
    TakeAt(ev, cur + 8, name);
  }

  lemma RotateRoundTrip(e: Event)
    requires EventOk(e) && Sized(e) && e.RotateEvent?
    ensures ParseRotate(EventBytes(e), 19 + |e.head.extra|) == Done(Rotate(e.position, e.name))
    ensures CString(e.name) == e.name
  {
    hide Enc, HeaderBytes, Take, TakeUint, At, EventBytes, HeadOk;
    EventParts(e);
    RotateBody(EventBytes(e), 19 + |e.head.extra|, e.position, e.name);
    CStringWhole(e.name, []);
    assert e.name + [] == e.name;
  }

  /** A C string without NULs, ended by one or by the end of the bytes. */
  lemma {:induction false} CStringWhole(s: seq<byte>, rest: seq<byte>)
    requires 0 !in s && (rest == [] || rest[0] == 0)
    ensures CString(s + rest) == s
  {
    if s == [] {
      assert s + rest == rest;
    } else {
      assert (s + rest)[1..] == s[1..] + rest;
      CStringWhole(s[1..], rest);
    }
  }
}
