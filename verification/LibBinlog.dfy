/** The file driver and the client object, whose fields the source updates in
    place, proved to follow the state machine of module ClientSpec. */
module LibBinlog {
  import opened Bits
  import opened Wire
  import opened Cells
  import opened Events
  import opened BinlogParser
  import opened ClientSpec

  const EVENT_BUF_SIZE := 1024 * 4

  class DataSource {
    const file: seq<byte>
    var offset: nat            // of the FILE*
    const buf: array<byte>
    var newbuf: array?<byte>
    var position: nat
    var index: nat
    var logfile: seq<byte>

    constructor (file: seq<byte>, offset: nat, position: nat, logfile: seq<byte>)
      requires offset <= |file|
      ensures this.file == file && this.offset == offset && this.position == position
      ensures index == 0 && this.logfile == logfile
      ensures buf.Length == EVENT_BUF_SIZE && fresh(buf)
    {
      this.file, this.offset, this.position, this.logfile, index := file, offset, position, logfile, 0;
      buf := new byte[EVENT_BUF_SIZE](_ => 0);
      newbuf := null;
    }

    ghost predicate Valid()
      reads this
    {
      offset <= |file| && buf.Length == EVENT_BUF_SIZE
    }

    function Rest(): seq<byte>
      reads this
      requires Valid()
    {
      file[offset..]
    }

    /** fread of k bytes into an array at offset j. */
    method Fread(ev: array<byte>, j: nat, k: nat)
      requires Valid() && j + k <= ev.Length && offset + k <= |file|
      modifies this`offset, ev
      ensures Valid() && offset == old(offset) + k
      ensures ev[..j] == old(ev[..j]) && ev[j..j + k] == file[old(offset)..offset]
    {
      forall i | 0 <= i < k {
        ev[j + i] := file[offset + i];
      }
      offset := offset + k;
    }

    /** The header is copied in front and the rest of the event read behind. */
    method ReadRest(ev: array<byte>, header: seq<byte>, len: nat)
      requires Valid() && |header| == 19 <= len <= ev.Length && offset + (len - 19) <= |file|
      modifies this`offset, ev
      ensures Valid() && offset == old(offset) + (len - 19)
      ensures ev[..len] == header + file[old(offset)..offset]
    {
      forall i | 0 <= i < 19 {
        ev[i] := header[i];
      }
      assert ev[..19] == header;
      Fread(ev, 19, len - 19);
      assert ev[..len] == ev[..19] + ev[19..19 + (len - 19)];
    }

    /** The event lands in the fixed buffer if it fits and in a new one
        otherwise. */
    method GetEvent() returns (r: Outcome<Option<array<byte>>>, len: nat)
      requires Valid()
      modifies this`offset, this`newbuf, buf
      ensures Valid()
      ensures match NextEvent(old(Rest()))
              case Fail(w) => r == Fail(w)
              case Done(Eof) => r == Done(None) && Rest() == []
              case Done(Framed(ev, rest)) =>
                && r.Done? && r.value.Some? && r.value.value.Length >= len == |ev|
                && r.value.value[..len] == ev && Rest() == rest
                && if len <= 4096 then r.value.value == buf && newbuf == null
                   else newbuf != null && r.value.value == newbuf && fresh(newbuf) && newbuf.Length == len
    {
      hide Le, ToInt32;
      len := 0;
      ghost var start := offset;
      if |file| - offset < 19 {
        offset := |file|;
        return Done(None), 0;
      }
      var header := new byte[19](_ => 0);
      Fread(header, 0, 19);
      HeaderOfRest(file, start, header[..]);
      var elen := ToInt32(Le(header[9..13]));
      if elen < 19 { return Fail(BufferOverflow), 0; }
      len := elen;
      if |file| - offset < len - 19 { return Fail(CutShort), 0; }
      var ev := buf;
      newbuf := null;
      if len > EVENT_BUF_SIZE {
        ev := new byte[len](_ => 0);
        newbuf := ev;
      }
      ReadRest(ev, header[..], len);
      WholeOfRest(file, start, len);
      r := Done(Some(ev));
    }
  }

  lemma SliceSlice<T>(s: seq<T>, a: nat, b: nat, c: nat, d: nat)
    requires a <= b <= |s| && c <= d <= b - a
    ensures s[a..b][c..d] == s[a + c..a + d]
  {
    var t := s[a..b];
    assert |t[c..d]| == |s[a + c..a + d]|;
    forall i | 0 <= i < d - c ensures t[c..d][i] == s[a + c..a + d][i] {
      assert t[c + i] == s[a + (c + i)];
    }
  }

  lemma HeaderOfRest(file: seq<byte>, start: nat, header: seq<byte>)
    requires start + 19 <= |file| && |header| == 19 && header[0..19] == file[start..start + 19]
    ensures header[9..13] == file[start..][9..13]
    ensures header == file[start..start + 19]
  {
    assert header == header[0..19];
    SliceSlice(file, start, start + 19, 9, 13);
    SliceSlice(file, start, |file|, 9, 13);
  }

  lemma WholeOfRest(file: seq<byte>, start: nat, len: nat)
    requires 19 <= len && start + len <= |file|
    ensures file[start..start + 19] + file[start + 19..start + len] == file[start..][..len]
    ensures file[start..][len..] == file[start + len..]
  {
  }

  class BinlogClient {
    var rowsBuf: array?<BinlogRow>   // _rows
    var lenRows: nat
    var cur: nat
    var startidx: int
    const binlog: Binlog
    const ds: DataSource
    var err: bool

    ghost predicate Valid()
      reads this, binlog, ds, rowsBuf
    {
      && ds.Valid() && binlog.table.Valid()
      && cur <= lenRows && ds.index < TWO32 && -MAX_INDEX <= startidx < MAX_INDEX
      && (rowsBuf == null ==> lenRows == 0)
      && (rowsBuf != null ==> lenRows <= rowsBuf.Length)
    }

    ghost function Abs(): (c: Client)
      requires Valid()
      reads this, binlog, ds, rowsBuf
      ensures c.Valid()
    {
      Client(ds.Rest(), binlog.hdrlen, binlog.table, ds.position, ds.index, ds.logfile,
             Buffered(), cur, startidx, err)
    }

    ghost function Buffered(): (s: seq<BinlogRow>)
      requires Valid()
      reads this, binlog, ds, rowsBuf
      ensures |s| == lenRows
    {
      if rowsBuf == null then [] else rowsBuf[..lenRows]
    }

    constructor ConnectDataSource(file: seq<byte>, offset: nat, position: nat, index: nat, logfile: seq<byte>)
      requires offset <= |file| && index < TWO32
      ensures Valid() && Abs() == Connect(file[offset..], position, index, logfile)
      ensures rowsBuf == null && fresh(binlog) && fresh(ds) && fresh(ds.buf)
    {
      rowsBuf, lenRows, cur, startidx, err := null, 0, 0, ToInt32(index), false;
      binlog := new Binlog();
      ds := new DataSource(file, offset, position, logfile);
    }

    ghost predicate Apart()
      reads this, ds
    {
      rowsBuf != null ==> rowsBuf as object != ds.buf
    }

    /** Every event but a rows event. */
    method HandleOther(ev: seq<byte>) returns (r: Outcome<()>)
      requires Valid() && |ev| >= 19
      modifies binlog, ds`position, ds`index, ds`logfile
      ensures Valid() && Buffered() == old(Buffered())
      ensures match Absorb(old(Abs()), ev)
              case Done(c) => r == Done(()) && Abs() == c
              case Fail(w) => r == Fail(w)
    {
      hide Events.ParseFDE, ParseTableMap, ParseRotate, CString;
      if ev[4] == FORMAT_DESCRIPTION_EVENT {
        r := binlog.ParseFDE(ev);
      }
      if ev[4] == TABLE_MAP_EVENT {
        r := binlog.ParseTableMapEvent(ev);
        if r.Fail? { return; }
        ds.position := (binlog.table.nextpos - binlog.table.evlen) % TWO32;
        ds.index := 0;
      } else if ev[4] == ROTATE_EVENT {
        var rotate := binlog.ParseRotateEvent(ev);
        if rotate.Fail? { return Fail(rotate.why); }
        ds.position := rotate.value.position % TWO32;
        ds.logfile := CString(rotate.value.fileName);
        r := Done(());
      } else if ev[4] != FORMAT_DESCRIPTION_EVENT {
        r := Done(());
      }
    }

    method ReadEvent() returns (r: Outcome<Step>)
      requires Valid() && Apart()
      modifies this`err, binlog, ds, ds.buf
      ensures Valid() && Apart() && Buffered() == old(Buffered())
      ensures match ReadOne(old(Abs()))
              case Done(o) => r == Done(o.0) && Abs() == o.1
              case Fail(w) => r == Fail(w)
    {
      hide Absorb, NextEvent, ParseRows, IsRowsType;
      ghost var before := Abs();
      var got, len := ds.GetEvent();
      if got.Fail? { return Fail(got.why); }
      if got.value.None? {
        err := true;
        return Done(Ended);
      }
      var ev := got.value.value[..len];
      assert Abs() == before.(stream := ds.Rest());
      if IsRowsType(ev[4]) {
        var rows := binlog.ParseRowsEvent(ev);
        if rows.Fail? { return Fail(rows.why); }
        return Done(GotRows(rows.value));
      }
      var o := HandleOther(ev);
      if o.Fail? { return Fail(o.why); }
      r := Done(Skipped);
    }

    method GetRowsEvent() returns (r: Outcome<Option<RowsEvent>>)
      requires Valid() && Apart()
      modifies this`err, binlog, ds, ds.buf
      ensures Valid() && Apart() && Buffered() == old(Buffered())
      ensures match ClientSpec.GetRowsEvent(old(Abs()))
              case Done(g) => r == Done(g.0) && Abs() == g.1
              case Fail(w) => r == Fail(w)
    {
      hide ReadOne;
      ghost var goal := ClientSpec.GetRowsEvent(Abs());
      while true
        invariant Valid() && Apart() && Buffered() == old(Buffered())
        invariant goal == ClientSpec.GetRowsEvent(Abs())
        decreases |ds.Rest()|
      {
        var o := ReadEvent();
        if o.Fail? { return Fail(o.why); }
        match o.value {
          case Ended => return Done(None);
          case GotRows(e) => return Done(Some(e));
          case Skipped =>
        }
      }
    }

    /** The buffer is allocated afresh when the last event's count is too
        small for this one's rows. */
    method SetRowsEventBuffer(e: RowsEvent)
      requires Valid() && Apart()
      modifies this`rowsBuf, this`lenRows, this`cur, rowsBuf
      ensures Valid() && Apart()
      ensures Abs() == old(Abs()).(rows := BufferOf(e), cur := 0)
      ensures rowsBuf != null ==> fresh(rowsBuf) || rowsBuf == old(rowsBuf)
      ensures if old(lenRows) < |e.rows| then rowsBuf != null && fresh(rowsBuf) && rowsBuf.Length == |e.rows|
              else rowsBuf == old(rowsBuf)
    {
      hide RowFrom;
      var nrows := |e.rows|;
      if lenRows < nrows {
        rowsBuf := new BinlogRow[nrows](_ => BinlogRow(0, 0, 0, [], []));
      }
      cur := 0;
      lenRows := nrows;
      var i := 0;
      while i < nrows
        invariant i <= nrows == lenRows && cur == 0 && Apart()
        invariant rowsBuf != null ==> nrows <= rowsBuf.Length
        invariant rowsBuf == null ==> nrows == 0
        invariant if old(lenRows) < nrows then rowsBuf != null && fresh(rowsBuf) && rowsBuf.Length == nrows
                  else rowsBuf == old(rowsBuf)
        invariant rowsBuf != null ==> fresh(rowsBuf) || rowsBuf == old(rowsBuf)
        invariant rowsBuf != null ==> rowsBuf[..i] == BufferOf(e)[..i]
      {
        rowsBuf[i] := RowFrom(e, e.rows[i]);
        assert BufferOf(e)[..i + 1] == BufferOf(e)[..i] + [RowFrom(e, e.rows[i])];
        assert rowsBuf[..i + 1] == rowsBuf[..i] + [rowsBuf[i]];
        i := i + 1;
      }
      assert Buffered() == BufferOf(e);
    }

    method FetchFromBuffer() returns (row: Option<BinlogRow>)
      requires Valid()
      modifies this`cur
      ensures Valid()
      ensures row == if old(cur) < lenRows then Some(Buffered()[old(cur)]) else None
      ensures cur == if old(cur) < lenRows then old(cur) + 1 else old(cur)
    {
      if cur < lenRows {
        row := Some(rowsBuf[cur]);
        cur := cur + 1;
      } else {
        row := None;
      }
    }

    /** The end of _fetchOne. */
    method NextRow() returns (row: Option<BinlogRow>)
      requires Valid() && Apart()
      modifies this`cur, ds`index
      ensures Valid() && Apart() && (row, Abs()) == Serve(old(Abs()))
    {
      ds.index := (ds.index + 1) % TWO32;
      row := FetchFromBuffer();
    }

    method FetchRow() returns (r: Outcome<Option<BinlogRow>>)
      requires Valid() && Apart()
      modifies this`rowsBuf, this`lenRows, this`cur, this`err, rowsBuf, binlog, ds, ds.buf
      ensures Valid() && Apart() && startidx == old(startidx)
      ensures rowsBuf != null ==> fresh(rowsBuf) || rowsBuf == old(rowsBuf)
      ensures match ClientSpec.FetchRow(old(Abs()))
              case Done(f) => r == Done(f.0) && Abs() == f.1
              case Fail(w) => r == Fail(w)
    {
      hide ClientSpec.GetRowsEvent, Serve;
      if cur == lenRows {
        var e := GetRowsEvent();
        if e.Fail? { return Fail(e.why); }
        if e.value.None? {
          ds.index := 0;
          return Done(None);
        }
        SetRowsEventBuffer(e.value.value);
      }
      var row := NextRow();
      r := Done(row);
    }

    /** One turn of the skip loop; the skipped row is dropped. */
    method SkipOne() returns (r: Outcome<bool>)
      requires Valid() && Apart() && startidx != 0
      modifies this, rowsBuf, binlog, ds, ds.buf
      ensures Valid() && Apart()
      ensures rowsBuf != null ==> fresh(rowsBuf) || rowsBuf == old(rowsBuf)
      ensures match ClientSpec.SkipOne(old(Abs()))
              case Done(s) => r == Done(s.0) && Abs() == s.1
              case Fail(w) => r == Fail(w)
    {
      hide ClientSpec.FetchRow;
      var oldpos := ds.position;
      var row := FetchRow();
      if row.Fail? { return Fail(row.why); }
      if startidx == -MAX_INDEX { return Fail(SignedOverflow); }
      startidx := startidx - 1;
      if oldpos != ds.position {
        err := true;
        return Done(true);
      }
      r := Done(false);
    }

    method FetchOne() returns (r: Outcome<FetchResult>)
      requires Valid() && Apart()
      modifies this, rowsBuf, binlog, ds, ds.buf
      ensures Valid() && Apart()
      ensures rowsBuf != null ==> fresh(rowsBuf) || rowsBuf == old(rowsBuf)
      ensures match ClientSpec.FetchOne(old(Abs()))
              case Done(f) => r == Done(f.0) && Abs() == f.1
              case Fail(w) => r == Fail(w)
    {
      hide ClientSpec.FetchRow, ClientSpec.SkipOne;
      ghost var goal := ClientSpec.FetchOne(Abs());
      while startidx != 0
        invariant Valid() && Apart()
        invariant goal == ClientSpec.FetchOne(Abs())
        invariant rowsBuf != null ==> fresh(rowsBuf) || rowsBuf == old(rowsBuf)
        decreases if startidx >= 0 then startidx else startidx + MAX_INDEX
      {
        var moved := SkipOne();
        if moved.Fail? { return Fail(moved.why); }
        if moved.value { return Done(BadIndex); }
      }
      var row := FetchRow();
      if row.Fail? { return Fail(row.why); }
      r := Done(if row.value.Some? then Row(row.value.value) else Null);
    }
  }
}
