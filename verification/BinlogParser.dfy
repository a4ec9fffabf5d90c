/** The event parsers as the source runs them: a cursor moved by every read,
    loops that fill the metadata, cells and rows, and a rows array doubled when
    it is full. Each is proved to compute the function of module Events. */
module BinlogParser {
  import opened Bits
  import opened Wire
  import opened Cells
  import opened Events

  /** Length-coded integer at the cursor. */
  method DecodeIntAt(c: EventCursor) returns (r: Outcome<nat>)
    modifies c
    ensures match DecodeInt(c.ev, old(c.cur))
            case Done(v) => r == Done(v.0) && c.cur == v.1
            case Fail(w) => r == Fail(w)
  {
    var first := c.ReadUint(1);
    if first.Fail? { return Fail(first.why); }
    var v := first.value;
    if v == 252 {
      r := c.ReadUint(2);
    } else if v == 253 {
      r := c.ReadUint(3);
    } else if v == 254 {
      r := c.ReadUint(8);
    } else {
      r := Done(if v < 251 then v else 0);
    }
  }

  /** From variable-length metadata to 16 bits a column. */
  method DecodeMetadata(types: seq<byte>, ev: seq<byte>, at: nat) returns (r: Outcome<seq<nat>>)
    ensures r == DecodeMetaTo(ev, at, types, |types|)
  {
    hide MetaAt, MetaWidth;
    var meta := [];
    var index := 0;
    var i := 0;
    while i < |types|
      invariant i <= |types| && index == WidthSum(types, i)
      invariant DecodeMetaTo(ev, at, types, i) == Done(meta)
    {
      var m := MetaAt(ev, at + index, types[i]);
      if m.Fail? {
        DecodeMetaFails(ev, at, types, i + 1, |types|);
        return Fail(m.why);
      }
      meta := meta + [m.value];
      index := index + MetaWidth(types[i]);
      i := i + 1;
    }
    r := Done(meta);
  }

  lemma {:induction false} DecodeMetaFails(ev: seq<byte>, at: nat, types: seq<byte>, i: nat, n: nat)
    requires i <= n <= |types| && DecodeMetaTo(ev, at, types, i).Fail?
    ensures DecodeMetaTo(ev, at, types, n) == Fail(DecodeMetaTo(ev, at, types, i).why)
    decreases n
  {
    hide MetaAt, MetaWidth;
    if i < n { DecodeMetaFails(ev, at, types, i, n - 1); }
  }

  lemma {:induction false} CellsFail(ev: seq<byte>, cur: nat, isnull: seq<byte>, used: seq<byte>, t: Table,
                                     i: nat, n: nat)
    requires t.Valid() && i <= n <= t.nfields && |isnull| == |used| == BitLen(t.nfields)
    requires CellsTo(ev, cur, isnull, used, t, i).Fail?
    ensures CellsTo(ev, cur, isnull, used, t, n) == Fail(CellsTo(ev, cur, isnull, used, t, i).why)
    decreases n
  {
    hide Value2CellAt, IsSet, BitLen;
    if i < n { CellsFail(ev, cur, isnull, used, t, i, n - 1); }
  }

  /** One image at the cursor. */
  method ReadImage(c: EventCursor, used: seq<byte>, t: Table) returns (r: Outcome<seq<Cell>>)
    requires t.Valid() && |used| == BitLen(t.nfields)
    modifies c
    ensures match Image(c.ev, old(c.cur), used, t)
            case Done(v) => r == Done(v.0) && c.cur == v.1
            case Fail(w) => r == Fail(w)
  {
    hide Value2CellAt, IsSet, BitLen;
    ghost var start := c.cur + BitLen(t.nfields);
    var isnull := c.Read(BitLen(t.nfields));
    if isnull.Fail? { return Fail(isnull.why); }
    var cells := [];
    var i := 0;
    while i < t.nfields
      invariant i <= t.nfields
      invariant CellsTo(c.ev, start, isnull.value, used, t, i) == Done((cells, c.cur))
    {
      if !BitIsSet(isnull.value, i, t.nfields) && BitIsSet(used, i, t.nfields) {
        var cell := c.Value2Cell(t.types[i], t.meta[i]);
        if cell.Fail? {
          CellsFail(c.ev, start, isnull.value, used, t, i + 1, t.nfields);
          return Fail(cell.why);
        }
        cells := cells + [cell.value];
      } else {
        cells := cells + [NULL_CELL];
      }
      i := i + 1;
    }
    r := Done(cells);
  }

  function BitIsSet(bitmap: seq<byte>, i: nat, n: nat): (b: bool)
    requires |bitmap| == BitLen(n) && i < n
    ensures i / 8 < |bitmap| && b == IsSet(bitmap, i)
  {
    IsSet(bitmap, i)
  }

  method ReadPass(c: EventCursor, mtype: byte, used: seq<byte>, usedU: seq<byte>, t: Table)
    returns (r: Outcome<RowImages>)
    requires t.Valid() && |used| == |usedU| == BitLen(t.nfields)
    modifies c
    ensures match Pass(c.ev, old(c.cur), mtype, used, usedU, t)
            case Done(v) => r == Done(v.0) && c.cur == v.1
            case Fail(w) => r == Fail(w)
  {
    hide Image, BitLen;
    var first := ReadImage(c, used, t);
    if first.Fail? { return Fail(first.why); }
    if mtype == UPDATE_ROWS_EVENT {
      // the first image is removed and the second inserted
      var second := ReadImage(c, usedU, t);
      if second.Fail? { return Fail(second.why); }
      r := Done(RowImages(second.value, first.value));
    } else {
      r := Done(RowImages(first.value, []));
    }
  }

  /** realloc: a larger array that keeps the stored rows. */
  method Grow(rows: array<RowImages>, size: nat) returns (bigger: array<RowImages>)
    requires rows.Length <= size
    ensures fresh(bigger) && bigger.Length == size
    ensures bigger[..rows.Length] == rows[..]
  {
    bigger := new RowImages[size](_ => RowImages([], []));
    forall k | 0 <= k < rows.Length {
      bigger[k] := rows[k];
    }
  }

  /** The parsed rows before, prepended to what is still to come. */
  function Before(rows: seq<RowImages>, o: Outcome<seq<RowImages>>): Outcome<seq<RowImages>> {
    match o
    case Done(rest) => Done(rows + rest)
    case Fail(w) => Fail(w)
  }

  lemma BeforeEnds(rows: seq<RowImages>, o: Outcome<seq<RowImages>>)
    ensures Before([], o) == o
    ensures Before(rows, Done([])) == Done(rows)
  {
    if o.Done? { assert [] + o.value == o.value; }
    assert rows + [] == rows;
  }

  lemma RowsStep(ev: seq<byte>, cur: nat, evlen: nat, mtype: byte, used: seq<byte>, usedU: seq<byte>,
                 t: Table, rows: seq<RowImages>)
    requires t.Valid() && |used| == |usedU| == BitLen(t.nfields) && cur < evlen && t.nfields > 0
    ensures var p := Pass(ev, cur, mtype, used, usedU, t);
            Before(rows, RowsFrom(ev, cur, evlen, mtype, used, usedU, t))
            == if p.Fail? then Fail(p.why)
               else Before(rows + [p.value.0], RowsFrom(ev, p.value.1, evlen, mtype, used, usedU, t))
  {
    hide Pass, BitLen;
    var p := Pass(ev, cur, mtype, used, usedU, t);
    if p.Done? {
      var o := RowsFrom(ev, p.value.1, evlen, mtype, used, usedU, t);
      if o.Done? {
        assert rows + ([p.value.0] + o.value) == rows + [p.value.0] + o.value;
      }
    }
  }

  /** The row loop. It stops for any bytes, because every pass moves the cursor
      by at least one bitmap; a store always finds room. */
  method ReadRows(c: EventCursor, evlen: nat, mtype: byte, used: seq<byte>, usedU: seq<byte>, t: Table)
    returns (r: Outcome<seq<RowImages>>)
    requires t.Valid() && |used| == |usedU| == BitLen(t.nfields)
    modifies c
    ensures r == RowsFrom(c.ev, old(c.cur), evlen, mtype, used, usedU, t)
    ensures r.Done? ==> evlen <= c.cur
    ensures r.Done? && old(c.cur) <= |c.ev| ==> c.cur <= |c.ev|
  {
    hide Pass;
    var nrows, totalrows := 0, 8;
    var rows := new RowImages[totalrows](_ => RowImages([], []));
    ghost var all := RowsFrom(c.ev, c.cur, evlen, mtype, used, usedU, t);
    if c.cur < evlen && t.nfields == 0 {
      return Fail(Diverges);
    }
    BeforeEnds([], all);
    assert rows[..nrows] == [];
    while c.cur < evlen
      invariant nrows <= totalrows == rows.Length && 8 <= totalrows && fresh(rows)
      invariant c.cur < evlen ==> t.nfields > 0
      invariant old(c.cur) <= |c.ev| ==> c.cur <= |c.ev|
      invariant all == Before(rows[..nrows], RowsFrom(c.ev, c.cur, evlen, mtype, used, usedU, t))
      decreases evlen - c.cur
    {
      ghost var before := rows[..nrows];
      if nrows >= totalrows {
        totalrows := 2 * totalrows;
        rows := Grow(rows, totalrows);
      }
      assert rows[..nrows] == before;
      RowsStep(c.ev, c.cur, evlen, mtype, used, usedU, t, before);
      var row := ReadPass(c, mtype, used, usedU, t);
      if row.Fail? { return Fail(row.why); }
      rows[nrows] := row.value;
      nrows := nrows + 1;
      assert rows[..nrows] == before + [row.value];
    }
    BeforeEnds(rows[..nrows], all);
    r := Done(rows[..nrows]);
  }

  class Binlog {
    var blver: nat
    var hdrlen: nat
    var masterid: nat
    var server: seq<byte>
    var table: Table

    constructor ()
      ensures hdrlen == 0 && table == NO_TABLE
    {
      blver, hdrlen, masterid, server, table := 0, 0, 0, [], NO_TABLE;
    }

    method ParseFDE(ev: seq<byte>) returns (r: Outcome<()>)
      modifies this`blver, this`hdrlen, this`masterid, this`server
      ensures match Events.ParseFDE(ev)
              case Done(f) => r == Done(()) && Fde(blver, hdrlen, masterid, server) == f
              case Fail(w) => r == Fail(w)
    {
      var f := Events.ParseFDE(ev);
      if f.Fail? { return Fail(f.why); }
      blver, hdrlen, masterid, server := f.value.blver, f.value.hdrlen, f.value.masterid, f.value.server;
      r := Done(());
    }

    method ParseTableMapEvent(ev: seq<byte>) returns (r: Outcome<()>)
      modifies this`table
      ensures match ParseTableMap(ev, hdrlen)
              case Done(t) => r == Done(()) && table == t
              case Fail(w) => r == Fail(w) && table == old(table)
    {
      hide ParseHeader, CopyName, DecodeMetaTo, DecodeInt, Take;
      var h := ParseHeader(ev);
      if h.Fail? { return Fail(h.why); }
      var c := new EventCursor(ev, hdrlen);
      var tableid := c.ReadUint(6);
      if tableid.Fail? { return Fail(tableid.why); }
      c.cur := hdrlen + 8;
      var db := c.cur;
      var dblen := c.ReadUint(1);
      if dblen.Fail? { return Fail(dblen.why); }
      c.cur := db + dblen.value + 2;
      var tbl := c.cur;
      var tbllen := c.ReadUint(1);
      if tbllen.Fail? { return Fail(tbllen.why); }
      c.cur := tbl + tbllen.value + 2;
      var nf := DecodeIntAt(c);
      if nf.Fail? { return Fail(nf.why); }
      var nfields := nf.value % TWO32;
      TakeLength(ev, c.cur, nfields);
      var types := c.Read(nfields);
      if types.Fail? { return Fail(types.why); }
      var metalen := DecodeIntAt(c);
      if metalen.Fail? { return Fail(metalen.why); }
      var dbname, tblname := CopyName(ev, db + 1), CopyName(ev, tbl + 1);
      if dbname.Fail? { return Fail(dbname.why); }
      if tblname.Fail? { return Fail(tblname.why); }
      var meta := DecodeMetadata(types.value, ev, c.cur);
      if meta.Fail? { return Fail(meta.why); }
      table := Table(h.value.ts, h.value.serverid, h.value.nextpos, h.value.evlen,
                     dbname.value, tblname.value, nfields, tableid.value, types.value, meta.value);
      r := Done(());
    }

    method ParseRotateEvent(ev: seq<byte>) returns (r: Outcome<Rotate>)
      ensures r == ParseRotate(ev, hdrlen)
    {
      var c := new EventCursor(ev, hdrlen);
      var position := c.ReadUint(8);
      if position.Fail? { return Fail(position.why); }
      var evlen := TakeUint(ev, 9, 4);
      if evlen.Fail? { return Fail(evlen.why); }
      var left := (evlen.value - c.cur) % TWO32;
      if left > 255 { return Fail(BufferOverflow); }
      var name := c.Read(left);
      if name.Fail? { return Fail(name.why); }
      r := Done(Rotate(position.value, name.value));
    }

    method ParseRowsEvent(ev: seq<byte>) returns (r: Outcome<RowsEvent>)
      requires table.Valid()
      ensures r == ParseRows(ev, hdrlen, table)
    {
      hide ParseHeader, DecodeInt, BitLen, RowsFrom;
      var h := ParseHeader(ev);
      if h.Fail? { return Fail(h.why); }
      var c := new EventCursor(ev, hdrlen);
      var tableid := c.ReadUint(6);
      if tableid.Fail? { return Fail(tableid.why); }
      c.cur := hdrlen + 8;
      if tableid.value != table.tableid { return Fail(AssertFailed); }
      var nf := DecodeIntAt(c);
      if nf.Fail? { return Fail(nf.why); }
      var nfields := nf.value % TWO32;
      if nfields != table.nfields { return Fail(AssertFailed); }
      var bitlen := BitLen(nfields);
      var used := c.Read(bitlen);
      if used.Fail? { return Fail(used.why); }
      var usedU := used;
      if h.value.mtype == UPDATE_ROWS_EVENT {
        usedU := c.Read(bitlen);
        if usedU.Fail? { return Fail(usedU.why); }
      }
      var rows := ReadRows(c, h.value.evlen, h.value.mtype, used.value, usedU.value, table);
      if rows.Fail? { return Fail(rows.why); }
      r := Done(RowsEvent(h.value.ts, h.value.mtype, h.value.nextpos, h.value.serverid,
                          tableid.value, nfields, rows.value));
    }
  }

  lemma TakeLength(ev: seq<byte>, cur: nat, n: nat)
    ensures Take(ev, cur, n).Done? ==> |Take(ev, cur, n).value| == n
  {
  }
}
