/** The table-map round trip. */
module TableCodec {
  import opened Bits
  import opened Wire
  import opened CellCodec
  import opened Events
  import opened EventCodec

  lemma MetaRoundTrip(ev: seq<byte>, at: nat, c: Column)
    requires MetaFits(c) && At(ev, at, MetaBytes(c))
    ensures MetaAt(ev, at, c.mtype) == Done(c.meta)
  {
    hide At, Take;
    TakeAt(ev, at, MetaBytes(c));
  }

  lemma MetaStep(ev: seq<byte>, at: nat, cols: seq<Column>, i: nat)
    requires i < |cols| && MetasFit(cols) && At(ev, at, MetaTo(cols, i + 1))
    ensures At(ev, at, MetaTo(cols, i))
    ensures MetaAt(ev, at + |MetaTo(cols, i)|, cols[i].mtype) == Done(cols[i].meta)
  {
    hide MetaBytes, MetaFits, MetaAt;
    AtSplit(ev, at, MetaTo(cols, i), MetaBytes(cols[i]));
    MetaRoundTrip(ev, at + |MetaTo(cols, i)|, cols[i]);
  }

  lemma MetaSize(c: Column)
    requires MetaFits(c)
    ensures |MetaBytes(c)| == MetaWidth(c.mtype)
  {
  }

  lemma {:induction false} WidthIsSize(cols: seq<Column>, i: nat)
    requires i <= |cols| && MetasFit(cols)
    ensures WidthSum(TypesOf(cols), i) == |MetaTo(cols, i)|
  {
    hide MetaFits, MetaWidth, MetaBytes;
    if i > 0 {
      WidthIsSize(cols, i - 1);
      MetaSize(cols[i - 1]);
    }
  }

  /** At every column the index is the sum of the widths of the earlier ones,
      and the metadata decoded so far is theirs. */
  lemma {:induction false} MetadataRoundTrip(ev: seq<byte>, at: nat, cols: seq<Column>, i: nat)
    requires i <= |cols| && MetasFit(cols) && At(ev, at, MetaTo(cols, i))
    ensures WidthSum(TypesOf(cols), i) == |MetaTo(cols, i)|
    ensures DecodeMetaTo(ev, at, TypesOf(cols), i) == Done(MetasOf(cols)[..i])
  {
    hide MetaAt, MetaFits, MetasFit, MetaTo, At, WidthSum;
    WidthIsSize(cols, i);
    if i > 0 {
      MetaStep(ev, at, cols, i - 1);
      WidthIsSize(cols, i - 1);
      MetadataRoundTrip(ev, at, cols, i - 1);
      assert MetasOf(cols)[..i] == MetasOf(cols)[..i - 1] + [cols[i - 1].meta];
    }
  }

  lemma {:induction false} MetaToSize(cols: seq<Column>, i: nat)
    requires i <= |cols| && MetasFit(cols)
    ensures |MetaTo(cols, i)| <= 2 * i
  {
    hide MetaFits;
    if i > 0 { MetaToSize(cols, i - 1); }
  }

  lemma NameRoundTrip(ev: seq<byte>, at: nat, s: seq<byte>)
    requires NameOk(s) && At(ev, at, s + [0])
    ensures CopyName(ev, at) == Done(s)
  {
    AtSplit(ev, at, s, [0]);
    var rest := ev[at + |s|..];
    assert rest[0] == ev[at + |s|..at + |s| + 1][0];
    assert ev[at..] == s + rest;
    CStringWhole(s, rest);
  }

  /** A counted, NUL-terminated name at `at`. */
  lemma CountedName(ev: seq<byte>, at: nat, s: seq<byte>)
    requires NameOk(s) && At(ev, at, [|s|] + (s + [0]))
    ensures TakeUint(ev, at, 1) == Done(|s|)
    ensures CopyName(ev, at + 1) == Done(s)
  {
    hide CopyName;
    PowValues();
    AtSplit(ev, at, [|s|], s + [0]);
    OneByte(|s|);
    TakeUintAt(ev, at, |s|, 1);
    NameRoundTrip(ev, at + 1, s);
  }

  function TableOf(e: Event): Table
    requires e.TableMapEvent? && EventOk(e)
  {
    TableFor(e.head, |EventBytes(e)|, e.def)
  }

  function TableFor(h: Head, evlen: nat, d: TableDef): Table {
    Table(h.ts, h.serverid, h.nextpos, evlen, d.db, d.name,
          |d.columns|, d.tableid, TypesOf(d.columns), MetasOf(d.columns))
  }

  /** The offsets of the parts of a table map's body. */
  lemma DefParts(ev: seq<byte>, cur: nat, d: TableDef, reserved: seq<byte>)
    requires DefOk(d) && |reserved| == 2 && At(ev, cur, DefBytes(d, reserved))
    ensures var db := cur + 8; var tbl := db + |d.db| + 2; var nf := tbl + |d.name| + 2;
            var n := |d.columns|; var ty := nf + |LenEnc(n)|; var md := MetaTo(d.columns, n);
            && At(ev, cur, Enc(d.tableid, 6))
            && At(ev, db, [|d.db|] + (d.db + [0]))
            && At(ev, tbl, [|d.name|] + (d.name + [0]))
            && At(ev, nf, LenEnc(n))
            && At(ev, ty, TypesOf(d.columns))
            && At(ev, ty + n, LenEnc(|md|))
            && At(ev, ty + n + |LenEnc(|md|)|, md)
  {
    hide At, LenEnc, Enc, MetaTo, TypesOf;
    var n := |d.columns|;
    var md := MetaTo(d.columns, n);
    var s6 := LenEnc(|md|) + md;
    var s5 := TypesOf(d.columns) + s6;
    var s4 := LenEnc(n) + s5;
    var name, db := [|d.name|] + (d.name + [0]), [|d.db|] + (d.db + [0]);
    var s3 := name + s4;
    var c := cur + 8;
    AtSplit(ev, cur, Enc(d.tableid, 6) + reserved, db + s3);
    AtSplit(ev, cur, Enc(d.tableid, 6), reserved);
    AtSplit(ev, c, db, s3);
    AtSplit(ev, c + |db|, name, s4);
    c := c + |db| + |name|;
    AtSplit(ev, c, LenEnc(n), s5);
    c := c + |LenEnc(n)|;
    AtSplit(ev, c, TypesOf(d.columns), s6);
    AtSplit(ev, c + n, LenEnc(|md|), md);
  }

  lemma DefParses(ev: seq<byte>, cur: nat, d: TableDef, reserved: seq<byte>, h: Header)
    requires DefOk(d) && |reserved| == 2 && At(ev, cur, DefBytes(d, reserved))
    requires ParseHeader(ev) == Done(h)
    ensures ParseTableMap(ev, cur)
         == Done(Table(h.ts, h.serverid, h.nextpos, h.evlen, d.db, d.name,
                       |d.columns|, d.tableid, TypesOf(d.columns), MetasOf(d.columns)))
  {
    hide At, LenEnc, Enc, MetaTo, TypesOf, MetasOf, DefBytes, ParseHeader, Take, TakeUint, DecodeInt,
         CopyName, DecodeMetaTo, ColumnOk, MetaFits, WidthSum;
    MetasOk(d);
    var n := |d.columns|;
    var md := MetaTo(d.columns, n);
    var db := cur + 8;
    var tbl := db + |d.db| + 2;
    var nf := tbl + |d.name| + 2;
    var ty := nf + |LenEnc(n)|;
    DefParts(ev, cur, d, reserved);
    PowValues();
    TakeUintAt(ev, cur, d.tableid, 6);
    CountedName(ev, db, d.db);
    CountedName(ev, tbl, d.name);
    MetaToSize(d.columns, n);
    DecodeLenEnc(ev, nf, n);
    TakeAt(ev, ty, TypesOf(d.columns));
    DecodeLenEnc(ev, ty + n, |md|);
    MetadataRoundTrip(ev, ty + n + |LenEnc(|md|)|, d.columns, n);
    assert MetasOf(d.columns)[..n] == MetasOf(d.columns);
  }

  lemma MetasOk(d: TableDef)
    requires DefOk(d)
    ensures MetasFit(d.columns)
  {
    hide MetaFits, Supported;
  }

  /** Encoding a table map and parsing it recovers the table id, both names,
      the types and the metadata, for any number of columns. */
  lemma TableMapRoundTrip(e: Event)
    requires EventOk(e) && Sized(e) && e.TableMapEvent?
    ensures ParseTableMap(EventBytes(e), 19 + |e.head.extra|) == Done(TableOf(e))
  {
    hide At, EventBytes, DefBytes, ParseTableMap, ParseHeader, HeadOk, DefOk;
    EventParts(e);
    var ev, cur, h := EventBytes(e), 19 + |e.head.extra|, e.head;
    AtSplit(ev, cur, DefBytes(e.def, e.reserved), e.tail);
    DefParses(ev, cur, e.def, e.reserved,
              Header(h.ts, TABLE_MAP_EVENT, h.serverid, |ev|, h.nextpos, h.flags));
  }
}
