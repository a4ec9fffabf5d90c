/** The rows-event round trip. */
module RowsCodec {
  import opened Bits
  import opened Wire
  import opened Cells
  import opened CellCodec
  import opened Events
  import opened EventCodec

  /** What a rows event needs of the table map before it. */
  ghost predicate Describes(t: Table, d: TableDef) {
    && t.nfields == |d.columns| && t.tableid == d.tableid
    && t.types == TypesOf(d.columns) && t.meta == MetasOf(d.columns)
    && t.Valid()
  }

  function CellFor(ev: seq<byte>, c: Column, v: Option<Datum>): Cell
    requires CellFits(c, v)
  {
    if v.Some? then CellOf(ev, c, v.value) else Cell(Int32, 0, 0, NoValue)
  }

  /** The cells a row should come back as. */
  function CellsOf(ev: seq<byte>, cols: seq<Column>, r: Row): (s: seq<Cell>)
    requires RowFits(cols, r)
    ensures |s| == |cols|
  {
    seq(|cols|, i requires 0 <= i < |cols| => CellFor(ev, cols[i], r[i]))
  }

  function ImagesOf(ev: seq<byte>, cols: seq<Column>, kind: byte, c: RowChange, p: Present): RowImages
    requires ChangeFits(cols, kind, c) && |p.used| == |p.usedU| == |cols|
  {
    if kind == 24 then RowImages(ShownCells(ev, cols, c.row, p.usedU), ShownCells(ev, cols, c.rowOld, p.used))
    else RowImages(ShownCells(ev, cols, c.row, p.used), [])
  }

  /** The cells of the columns an image carries, the others empty. */
  function ShownCells(ev: seq<byte>, cols: seq<Column>, r: Row, used: seq<bool>): (s: seq<Cell>)
    requires RowFits(cols, r) && |used| == |cols|
    ensures |s| == |cols|
  {
    ShownFits(cols, r, used);
    CellsOf(ev, cols, Shown(r, used))
  }

  function AllImages(ev: seq<byte>, cols: seq<Column>, kind: byte, rows: seq<RowChange>, p: Present)
    : (s: seq<RowImages>)
    requires forall i :: 0 <= i < |rows| ==> ChangeFits(cols, kind, rows[i])
    requires |p.used| == |p.usedU| == |cols|
    ensures |s| == |rows|
  {
    seq(|rows|, i requires 0 <= i < |rows| => ImagesOf(ev, cols, kind, rows[i], p))
  }

  // ---- One image

  ghost predicate NullsOf(isnull: seq<byte>, r: Row) {
    |isnull| == BitLen(|r|) && forall j :: 0 <= j < |r| ==> Bit0(isnull, j, |r|) == r[j].None?
  }

  /** The bitmap says which columns are present. */
  ghost predicate Says(bitmap: seq<byte>, used: seq<bool>) {
    |bitmap| == BitLen(|used|) && forall j :: 0 <= j < |used| ==> Bit0(bitmap, j, |used|) == used[j]
  }

  ghost function Bit0(bitmap: seq<byte>, j: nat, n: nat): (b: bool)
    requires |bitmap| == BitLen(n) && j < n
  {
    IsSet(bitmap, j)
  }

  lemma NullsRead(r: Row, pad: byte)
    ensures NullsOf(Bitmap(NullBits(r), pad), r)
  {
    hide IsSet, Bitmap;
    forall j | 0 <= j < |r| ensures Bit0(Bitmap(NullBits(r), pad), j, |r|) == r[j].None? {
      BitmapIsSet(NullBits(r), pad, j);
    }
  }

  lemma UsedRead(used: seq<bool>, pad: byte)
    ensures Says(Bitmap(used, pad), used)
  {
    hide IsSet, Bitmap;
    forall j | 0 <= j < |used| ensures Bit0(Bitmap(used, pad), j, |used|) == used[j] {
      BitmapIsSet(used, pad, j);
    }
  }

  lemma CellStep(ev: seq<byte>, cur: nat, isnull: seq<byte>, bitmap: seq<byte>, t: Table, d: TableDef, r: Row,
                 used: seq<bool>, i: nat, before: (seq<Cell>, nat))
    requires Describes(t, d) && RowFits(d.columns, r) && i < t.nfields
    requires NullsOf(isnull, r) && Says(bitmap, used) && |used| == |r| && RowFits(d.columns, Shown(r, used))
    requires CellsTo(ev, cur, isnull, bitmap, t, i) == Done(before)
    requires At(ev, before.1, ValueBytes(d.columns[i], Shown(r, used)[i]))
    ensures var v := Shown(r, used)[i];
            CellsTo(ev, cur, isnull, bitmap, t, i + 1)
            == Done((before.0 + [CellFor(ev, d.columns[i], v)], before.1 + |ValueBytes(d.columns[i], v)|))
  {
    hide Value2CellAt, IsSet, BitLen, CellOf, Stored, At, Fits, ColumnOk;
    assert Bit0(isnull, i, t.nfields) == r[i].None? && Bit0(bitmap, i, t.nfields) == used[i];
    if Shown(r, used)[i].Some? {
      assert CellFits(d.columns[i], r[i]);
      FitsSupported(d.columns[i], r[i].value);
      ValueRoundTrip(ev, before.1, d.columns[i], r[i].value);
    }
  }

  lemma FitsSupported(c: Column, v: Datum)
    requires ColumnOk(c)
    ensures Supported(c)
  {
    hide Supported, MetaFits;
  }

  lemma {:induction false} CellsRoundTrip(ev: seq<byte>, cur: nat, isnull: seq<byte>, bitmap: seq<byte>,
                                          t: Table, d: TableDef, r: Row, used: seq<bool>, i: nat)
    requires Describes(t, d) && RowFits(d.columns, r) && i <= t.nfields
    requires NullsOf(isnull, r) && Says(bitmap, used) && |used| == |r| && RowFits(d.columns, Shown(r, used))
    requires At(ev, cur, ValuesTo(d.columns, Shown(r, used), i))
    ensures CellsTo(ev, cur, isnull, bitmap, t, i)
         == Done((CellsOf(ev, d.columns, Shown(r, used))[..i], cur + |ValuesTo(d.columns, Shown(r, used), i)|))
  {
    hide At, IsSet, BitLen, CellFor, ValueBytes, CellFits, NullsOf, Says, Value2CellAt, Shown;
    if i > 0 {
      var v := Shown(r, used);
      var before := ValuesTo(d.columns, v, i - 1);
      AtSplit(ev, cur, before, ValueBytes(d.columns[i - 1], v[i - 1]));
      CellsRoundTrip(ev, cur, isnull, bitmap, t, d, r, used, i - 1);
      CellStep(ev, cur, isnull, bitmap, t, d, r, used, i - 1, (CellsOf(ev, d.columns, v)[..i - 1], cur + |before|));
      assert CellsOf(ev, d.columns, v)[..i]
          == CellsOf(ev, d.columns, v)[..i - 1] + [CellFor(ev, d.columns[i - 1], v[i - 1])];
    }
  }

  lemma ImageRoundTrip(ev: seq<byte>, cur: nat, bitmap: seq<byte>, t: Table, d: TableDef, r: Row,
                       used: seq<bool>, pad: byte)
    requires Describes(t, d) && RowFits(d.columns, r) && Says(bitmap, used) && |used| == |r|
    requires At(ev, cur, ImageBytes(d.columns, r, used, pad))
    ensures |bitmap| == BitLen(t.nfields)
    ensures Image(ev, cur, bitmap, t)
         == Done((ShownCells(ev, d.columns, r, used), cur + |ImageBytes(d.columns, r, used, pad)|))
  {
    hide At, CellsTo, ValuesTo, CellFits, Says, NullsOf, CellFor, Bitmap, NullBits, Take, BitLen, Shown;
    ShownFits(d.columns, r, used);
    SaysSize(bitmap, used);
    var isnull := Bitmap(NullBits(r), pad);
    AtSplit(ev, cur, isnull, ValuesTo(d.columns, Shown(r, used), t.nfields));
    TakeAt(ev, cur, isnull);
    NullsRead(r, pad);
    CellsRoundTrip(ev, cur + |isnull|, isnull, bitmap, t, d, r, used, t.nfields);
    assert ShownCells(ev, d.columns, r, used)[..t.nfields] == ShownCells(ev, d.columns, r, used);
  }

  lemma SaysSize(bitmap: seq<byte>, used: seq<bool>)
    requires Says(bitmap, used)
    ensures |bitmap| == BitLen(|used|)
  {
  }

  // ---- All rows

  /** The bitmaps in front of the rows. */
  ghost predicate Bitmaps(used: seq<byte>, usedU: seq<byte>, kind: byte, p: Present, n: nat) {
    && |p.used| == |p.usedU| == n
    && Says(used, p.used) && |usedU| == BitLen(n) && (kind == 24 ==> Says(usedU, p.usedU))
  }

  lemma PassRoundTrip(ev: seq<byte>, cur: nat, kind: byte, used: seq<byte>, usedU: seq<byte>,
                      t: Table, d: TableDef, c: RowChange, p: Present)
    requires Describes(t, d) && ChangeFits(d.columns, kind, c) && Bitmaps(used, usedU, kind, p, t.nfields)
    requires At(ev, cur, ChangeBytes(d.columns, kind, c, p))
    ensures |used| == |usedU| == BitLen(t.nfields)
    ensures Pass(ev, cur, kind, used, usedU, t)
         == Done((ImagesOf(ev, d.columns, kind, c, p), cur + |ChangeBytes(d.columns, kind, c, p)|))
  {
    hide At, Image, ImageBytes, ShownCells, RowFits, BitLen, Describes, Says;
    SizesMatch(d.columns, c, kind, t, d);
    if kind == 24 {
      var first := ImageBytes(d.columns, c.rowOld, p.used, c.padOld);
      AtSplit(ev, cur, first, ImageBytes(d.columns, c.row, p.usedU, c.pad));
      ImageRoundTrip(ev, cur, used, t, d, c.rowOld, p.used, c.padOld);
      ImageRoundTrip(ev, cur + |first|, usedU, t, d, c.row, p.usedU, c.pad);
    } else {
      ImageRoundTrip(ev, cur, used, t, d, c.row, p.used, c.pad);
    }
  }

  lemma SizesMatch(cols: seq<Column>, c: RowChange, kind: byte, t: Table, d: TableDef)
    requires ChangeFits(cols, kind, c) && Describes(t, d) && cols == d.columns
    ensures t.Valid() && t.nfields == |cols| == |c.row| && (kind == 24 ==> |c.rowOld| == |cols|)
  {
    hide CellFits;
  }

  /** The row loop over the encoded rows gives back exactly those rows. */
  lemma {:induction false} RowsRoundTrip(ev: seq<byte>, cur: nat, kind: byte, used: seq<byte>, usedU: seq<byte>,
                                         t: Table, d: TableDef, rows: seq<RowChange>, p: Present)
    requires Describes(t, d) && 0 < t.nfields
    requires forall i :: 0 <= i < |rows| ==> ChangeFits(d.columns, kind, rows[i])
    requires Bitmaps(used, usedU, kind, p, t.nfields)
    requires At(ev, cur, RowsBytes(d.columns, kind, rows, p))
    requires cur + |RowsBytes(d.columns, kind, rows, p)| == |ev|
    ensures |used| == |usedU| == BitLen(t.nfields)
    ensures RowsFrom(ev, cur, |ev|, kind, used, usedU, t) == Done(AllImages(ev, d.columns, kind, rows, p))
    decreases |rows|
  {
    hide At, Pass, ChangeBytes, ChangeFits, Says, ImagesOf, BitLen;
    SaysSize(used, p.used);
    if rows != [] {
      var first := ChangeBytes(d.columns, kind, rows[0], p);
      AtSplit(ev, cur, first, RowsBytes(d.columns, kind, rows[1..], p));
      PassRoundTrip(ev, cur, kind, used, usedU, t, d, rows[0], p);
      RowsRoundTrip(ev, cur + |first|, kind, used, usedU, t, d, rows[1..], p);
      assert AllImages(ev, d.columns, kind, rows, p)
          == [ImagesOf(ev, d.columns, kind, rows[0], p)] + AllImages(ev, d.columns, kind, rows[1..], p);
      ChangeNotEmpty(d.columns, kind, rows[0], p);
    }
  }

  lemma ChangeNotEmpty(cols: seq<Column>, kind: byte, c: RowChange, p: Present)
    requires ChangeFits(cols, kind, c) && |cols| > 0 && |p.used| == |p.usedU| == |cols|
    ensures |ChangeBytes(cols, kind, c, p)| > 0
  {
    hide ChangeBytes, ChangeFits;
  }

  // ---- The event

  lemma RowsParts(ev: seq<byte>, cur: nat, d: TableDef, reserved: seq<byte>, used: seq<byte>,
                  usedU: seq<byte>, rows: seq<byte>)
    requires |reserved| == 2 && |d.columns| < 0x8000_0000 && d.tableid < 0x1_0000_0000_0000
    requires At(ev, cur, (Enc(d.tableid, 6) + reserved) + (LenEnc(|d.columns|) + (used + (usedU + rows))))
    ensures var b := cur + 8 + |LenEnc(|d.columns|)|;
            && TakeUint(ev, cur, 6) == Done(d.tableid)
            && DecodeInt(ev, cur + 8) == Done((|d.columns|, b))
            && Take(ev, b, |used|) == Done(used)
            && Take(ev, b + |used|, |usedU|) == Done(usedU)
            && At(ev, b + |used| + |usedU|, rows)
  {
    hide At, LenEnc, Enc, Take, TakeUint, DecodeInt;
    PowValues();
    var n := |d.columns|;
    var s2 := used + (usedU + rows);
    AtSplit(ev, cur, Enc(d.tableid, 6) + reserved, LenEnc(n) + s2);
    AtSplit(ev, cur, Enc(d.tableid, 6), reserved);
    AtSplit(ev, cur + 8, LenEnc(n), s2);
    var b := cur + 8 + |LenEnc(n)|;
    AtSplit(ev, b, used, usedU + rows);
    AtSplit(ev, b + |used|, usedU, rows);
    TakeUintAt(ev, cur, d.tableid, 6);
    DecodeLenEnc(ev, cur + 8, n);
    TakeAt(ev, b, used);
    TakeAt(ev, b + |used|, usedU);
  }

  function RowsEventFor(e: Event): RowsEvent
    requires EventOk(e) && e.RowsEventOf?
  {
    RowsEvent(e.head.ts, e.kind, e.head.nextpos, e.head.serverid, e.def.tableid, |e.def.columns|,
              AllImages(EventBytes(e), e.def.columns, e.kind, e.rows, e.present))
  }

  lemma RowsBody(ev: seq<byte>, cur: nat, h: Header, t: Table, d: TableDef, reserved: seq<byte>,
                 rows: seq<RowChange>, p: Present)
    requires DefOk(d) && Describes(t, d) && |reserved| == 2 && |p.used| == |p.usedU| == |d.columns|
    requires forall i :: 0 <= i < |rows| ==> ChangeFits(d.columns, h.mtype, rows[i])
    requires ParseHeader(ev) == Done(h) && h.evlen == |ev|
    requires var n := |d.columns|; var kind := h.mtype;
             var usedU := if kind == 24 then Bitmap(p.usedU, p.padU) else [];
             var body := (Enc(d.tableid, 6) + reserved)
               + (LenEnc(n) + (Bitmap(p.used, p.pad) + (usedU + RowsBytes(d.columns, kind, rows, p))));
             At(ev, cur, body) && cur + |body| == |ev|
    ensures ParseRows(ev, cur, t)
         == Done(RowsEvent(h.ts, h.mtype, h.nextpos, h.serverid, d.tableid, |d.columns|,
                           AllImages(ev, d.columns, h.mtype, rows, p)))
  {
    hide At, LenEnc, Enc, Take, TakeUint, DecodeInt, RowsBytes, ChangeFits, RowsFrom, AllImages, Says,
         Bitmap, ParseHeader, BitLen, Table.Valid, ColumnOk, TypesOf, MetasOf, NameOk;
    var n, kind := |d.columns|, h.mtype;
    var used := Bitmap(p.used, p.pad);
    var usedU := if kind == 24 then Bitmap(p.usedU, p.padU) else [];
    RowsParts(ev, cur, d, reserved, used, usedU, RowsBytes(d.columns, kind, rows, p));
    SixLong(d.tableid, reserved, n);
    UsedRead(p.used, p.pad);
    UsedRead(p.usedU, p.padU);
    SaysSize(used, p.used);
    var b := cur + 8 + |LenEnc(n)|;
    RowsRoundTrip(ev, b + |used| + |usedU|, kind, used, if kind == 24 then usedU else used, t, d, rows, p);
  }

  lemma SixLong(id: nat, reserved: seq<byte>, n: nat)
    requires |reserved| == 2
    ensures |Enc(id, 6) + reserved| == 8
  {
  }

  /** Every table description over the supported types, every choice of columns
      the images carry, every list of rows with arbitrary nulls: parsing the
      encoded event gives back exactly those rows. For UPDATE the before-images
      become the old rows, index-aligned. */
  lemma RowsEventRoundTrip(e: Event, t: Table)
    requires EventOk(e) && Sized(e) && e.RowsEventOf? && Describes(t, e.def)
    ensures ParseRows(EventBytes(e), 19 + |e.head.extra|, t) == Done(RowsEventFor(e))
  {
    hide At, EventBytes, ParseRows, ParseHeader, HeadOk, DefOk, ChangeFits, LenEnc, Enc, RowsBytes,
         AllImages, Describes, Bitmap;
    EventParts(e);
    var ev, h := EventBytes(e), e.head;
    RowsBody(ev, 19 + |h.extra|, Header(h.ts, e.kind, h.serverid, |ev|, h.nextpos, h.flags),
             t, e.def, e.reserved, e.rows, e.present);
  }
}
