/** The client as a state machine on values: what one fetch does to the state. */
module ClientSpec {
  import opened Bits
  import opened Wire
  import opened Cells
  import opened Events

  /** A delivered row. The old row is [] where the source stores NULL. */
  datatype BinlogRow = BinlogRow(nfields: nat, mtype: byte, created: int, row: seq<Cell>, rowOld: seq<Cell>)

  /** The start index is a signed int. */
  const MAX_INDEX := 0x8000_0000

  datatype Client = Client(
    stream: seq<byte>,                                  // bytes the source has not read
    hdrlen: nat, table: Table,                          // the Binlog
    position: nat, index: nat, logfile: seq<byte>,      // the checkpoint
    rows: seq<BinlogRow>, cur: nat,                     // the buffered rows event
    startidx: int, err: bool)
  {
    predicate Valid() {
      table.Valid() && cur <= |rows| && index < TWO32 && -MAX_INDEX <= startidx < MAX_INDEX
    }
  }

  // ---- Framing

  datatype Frame = Eof | Framed(ev: seq<byte>, rest: seq<byte>)

  /** getEventFromFile: a 19-byte header and the rest of the event's length.
      Only the header's read is checked. After the partial read of an event cut
      short the source goes on with bytes that C leaves indeterminate; a length
      below 19 asks for almost 2^64 bytes. The model stops at either. */
  function NextEvent(stream: seq<byte>): (r: Outcome<Frame>)
    ensures r.Done? && r.value.Framed? ==> |r.value.ev| >= 19 && stream == r.value.ev + r.value.rest
  {
    if |stream| < 19 then Done(Eof)
    else
      var len := ToInt32(Le(stream[9..13]));
      if len < 19 then Fail(BufferOverflow)
      else if |stream| < len then Fail(CutShort)
      else Done(Framed(stream[..len], stream[len..]))
  }

  // ---- One rows event

  /** The start of a table map: its end less its length, in 32 bits. */
  function StartOf(t: Table): nat { (t.nextpos - t.evlen) % TWO32 }

  /** An event that is not a rows event. */
  function Absorb(c: Client, ev: seq<byte>): (r: Outcome<Client>)
    requires |ev| >= 19 && c.Valid()
    ensures r.Done? ==> r.value.Valid() && r.value.stream == c.stream
    ensures r.Done? ==> r.value.rows == c.rows && r.value.cur == c.cur && r.value.startidx == c.startidx
  {
    if ev[4] == FORMAT_DESCRIPTION_EVENT then
      var f :- ParseFDE(ev);
      Done(c.(hdrlen := f.hdrlen))
    else if ev[4] == TABLE_MAP_EVENT then
      var t :- ParseTableMap(ev, c.hdrlen);
      Done(c.(table := t, position := StartOf(t), index := 0))
    else if ev[4] == ROTATE_EVENT then
      var r :- ParseRotate(ev, c.hdrlen);
      Done(c.(position := r.position % TWO32, logfile := CString(r.fileName)))
    else Done(c)
  }

  datatype Step = Ended | GotRows(e: RowsEvent) | Skipped

  /** One turn of getRowsEvent's loop. */
  function ReadOne(c: Client): (r: Outcome<(Step, Client)>)
    requires c.Valid()
    ensures r.Done? ==> r.value.1.Valid() && r.value.1.rows == c.rows && r.value.1.cur == c.cur
    ensures r.Done? ==> r.value.1.startidx == c.startidx
    ensures r.Done? && r.value.0.Skipped? ==> |r.value.1.stream| < |c.stream|
  {
    var f :- NextEvent(c.stream);
    match f
    case Eof => Done((Ended, c.(stream := [], err := true)))
    case Framed(ev, rest) =>
      var c1 := c.(stream := rest);
      if IsRowsType(ev[4]) then
        var r :- ParseRows(ev, c1.hdrlen, c1.table);
        Done((GotRows(r), c1))
      else
        var c2 :- Absorb(c1, ev);
        Done((Skipped, c2))
  }

  /** getRowsEvent: reads on until a rows event or the end. */
  function GetRowsEvent(c: Client): (r: Outcome<(Option<RowsEvent>, Client)>)
    requires c.Valid()
    ensures r.Done? ==> r.value.1.Valid() && r.value.1.rows == c.rows && r.value.1.cur == c.cur
    ensures r.Done? ==> r.value.1.startidx == c.startidx
    decreases |c.stream|
  {
    var o :- ReadOne(c);
    match o.0
    case Ended => Done((None, o.1))
    case GotRows(e) => Done((Some(e), o.1))
    case Skipped => GetRowsEvent(o.1)
  }

  function RowFrom(e: RowsEvent, r: RowImages): BinlogRow {
    BinlogRow(e.nfields, e.mtype, ToInt32(e.ts), r.row, if e.mtype == UPDATE_ROWS_EVENT then r.rowOld else [])
  }

  function BufferOf(e: RowsEvent): (s: seq<BinlogRow>)
    ensures |s| == |e.rows|
  {
    seq(|e.rows|, i requires 0 <= i < |e.rows| => RowFrom(e, e.rows[i]))
  }

  // ---- Fetching

  /** The index is advanced, then the next buffered row, if any, is served. */
  function Serve(c: Client): (r: (Option<BinlogRow>, Client))
    requires c.Valid()
    ensures r.1.Valid() && r.1.startidx == c.startidx
  {
    var c1 := c.(index := (c.index + 1) % TWO32);
    if c.cur < |c.rows| then (Some(c.rows[c.cur]), c1.(cur := c.cur + 1)) else (None, c1)
  }

  /** _fetchOne */
  function FetchRow(c: Client): (r: Outcome<(Option<BinlogRow>, Client)>)
    requires c.Valid()
    ensures r.Done? ==> r.value.1.Valid() && r.value.1.startidx == c.startidx
  {
    if c.cur == |c.rows| then
      var g :- GetRowsEvent(c);
      match g.0
      case None => Done((None, g.1.(index := 0)))
      case Some(e) => Done(Serve(g.1.(rows := BufferOf(e), cur := 0)))
    else Done(Serve(c))
  }

  datatype FetchResult = Row(row: BinlogRow) | Null | BadIndex

  /** One turn of the skip loop: whether the position moved. The start index
      goes down even when it is negative, until it leaves its type. */
  function SkipOne(c: Client): (r: Outcome<(bool, Client)>)
    requires c.Valid() && c.startidx != 0
    ensures r.Done? ==> r.value.1.Valid() && r.value.1.startidx == c.startidx - 1
  {
    var f :- FetchRow(c);
    if c.startidx == -MAX_INDEX then Fail(SignedOverflow)
    else
      var moved := f.1.position != c.position;
      Done((moved, f.1.(startidx := c.startidx - 1, err := f.1.err || moved)))
  }

  /** fetchOne: skips to the start index first, watching that the position
      stays where it was. */
  function FetchOne(c: Client): (r: Outcome<(FetchResult, Client)>)
    requires c.Valid()
    ensures r.Done? ==> r.value.1.Valid()
    decreases if c.startidx >= 0 then c.startidx else c.startidx + MAX_INDEX
  {
    if c.startidx == 0 then
      var f :- FetchRow(c);
      Done((if f.0.Some? then Row(f.0.value) else Null, f.1))
    else
      var s :- SkipOne(c);
      if s.0 then Done((BadIndex, s.1)) else FetchOne(s.1)
  }

  /** The outcome of the n-th call of fetchOne, counted from 0, and the state
      after it. */
  function FetchNth(c: Client, n: nat): (r: Outcome<(FetchResult, Client)>)
    requires c.Valid()
    ensures r.Done? ==> r.value.1.Valid()
  {
    if n == 0 then FetchOne(c)
    else
      var before :- FetchNth(c, n - 1);
      FetchOne(before.1)
  }

  /** connectDataSource, once the source stands at the first byte to read. An
      index of 2^31 or more becomes a negative start index. */
  function Connect(stream: seq<byte>, position: nat, index: nat, logfile: seq<byte>): (c: Client)
    requires index < TWO32
    ensures c.Valid()
  {
    PowValues();
    Client(stream, 0, NO_TABLE, position, 0, logfile, [], 0, ToInt32(index), false)
  }
}
