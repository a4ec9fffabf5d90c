/** Exactly-once delivery: what a run of fetches over an encoded log returns. */
module Delivery {
  import opened Bits
  import opened Wire
  import CellCodec
  import opened Events
  import opened EventCodec
  import opened TableCodec
  import opened RowsCodec
  import opened ClientSpec

  // ---- Well-formed logs

  /** What earlier events oblige a later one to: the header length of the last
      format description, and the table map in force. */
  datatype Context = Context(hdrlen: nat, def: Option<TableDef>)

  const START := Context(0, None)

  function After(x: Context, e: Event): Context {
    match e
    case FdeEvent(_, hdrlen, _, _, _, _) => x.(hdrlen := hdrlen)
    case RotateEvent(_, _, _) => x.(def := None)
    case TableMapEvent(_, def, _, _) => x.(def := Some(def))
    case _ => x
  }

  predicate EventFits(x: Context, e: Event) {
    && EventOk(e) && Sized(e)
    && match e
       case FdeEvent(_, hdrlen, _, _, _, _) => hdrlen >= 19
       case OtherEvent(_, _, _) => true
       case RowsEventOf(h, _, def, _, _, rows) =>
         x.hdrlen == 19 + |h.extra| && x.def == Some(def) && rows != []
       case _ => x.hdrlen == 19 + |e.head.extra|
  }

  predicate LogOk(x: Context, log: seq<Event>)
    decreases |log|
  {
    log == [] || (EventFits(x, log[0]) && LogOk(After(x, log[0]), log[1..]))
  }

  function LogBytes(x: Context, log: seq<Event>): seq<byte>
    requires LogOk(x, log)
    decreases |log|
  {
    if log == [] then [] else EventBytes(log[0]) + LogBytes(After(x, log[0]), log[1..])
  }

  // ---- What is delivered

  /** The checkpoint part of the client, and the table in force. */
  datatype Place = Place(position: nat, index: nat, logfile: seq<byte>, table: Table)

  datatype Delivered = Delivered(row: BinlogRow, place: Place)

  /** The 32-bit index counter k rows later. */
  function Ordinal(index: nat, k: nat): (o: nat)
    ensures o < TWO32
  {
    (index + k) % TWO32
  }

  lemma OrdinalAdd(index: nat, a: nat, b: nat)
    ensures Ordinal(Ordinal(index, a), b) == Ordinal(index, a + b)
  {
  }

  function RowCount(e: Event): nat { if e.RowsEventOf? then |e.rows| else 0 }

  function Move(p: Place, e: Event): Place
    requires EventOk(e)
  {
    match e
    case TableMapEvent(_, _, _, _) => Place(StartOf(TableOf(e)), 0, p.logfile, TableOf(e))
    case RotateEvent(_, position, name) => p.(position := position % TWO32, logfile := name)
    case RowsEventOf(_, _, _, _, _, rows) => p.(index := Ordinal(p.index, |rows|))
    case _ => p
  }

  /** The rows of one event, in order, each with its ordinal. */
  function Rows(p: Place, e: Event): (d: seq<Delivered>)
    requires EventOk(e)
    ensures |d| == RowCount(e)
  {
    if e.RowsEventOf? then Numbered(BufferOf(RowsEventFor(e)), p) else []
  }

  function Numbered(rows: seq<BinlogRow>, p: Place): (d: seq<Delivered>)
    ensures |d| == |rows|
  {
    seq(|rows|, i requires 0 <= i < |rows| => Delivered(rows[i], p.(index := Ordinal(p.index, i + 1))))
  }

  /** The concatenation of the rows of all rows events. */
  function Deliver(x: Context, p: Place, log: seq<Event>): seq<Delivered>
    requires LogOk(x, log)
    decreases |log|
  {
    if log == [] then []
    else Rows(p, log[0]) + Deliver(After(x, log[0]), Move(p, log[0]), log[1..])
  }

  /** The place after every event. */
  function End(x: Context, p: Place, log: seq<Event>): Place
    requires LogOk(x, log)
    decreases |log|
  {
    if log == [] then p else End(After(x, log[0]), Move(p, log[0]), log[1..])
  }

  // ---- Simulation

  /** The client has read everything before `log` and buffers nothing more. */
  ghost predicate Sim(c: Client, x: Context, p: Place, log: seq<Event>) {
    && c.Valid() && LogOk(x, log)
    && c.stream == LogBytes(x, log)
    && c.hdrlen == x.hdrlen
    && (x.def.Some? ==> Describes(c.table, x.def.value))
    && c.position == p.position && c.logfile == p.logfile && c.table == p.table
  }

  lemma FrameAt(e: Event, rest: seq<byte>)
    requires EventOk(e) && Sized(e)
    ensures NextEvent(EventBytes(e) + rest) == Done(Framed(EventBytes(e), rest))
    ensures |EventBytes(e)| >= 19 && EventBytes(e)[4] == TypeOf(e)
  {
    hide EventBytes, Body, HeadOk, HeaderBytes, Le;
    EventParts(e);
    var ev := EventBytes(e);
    EvlenBytes(ev);
    var s := ev + rest;
    assert s[9..13] == ev[9..13];
    PowValues();
    assert s[..|ev|] == ev && s[|ev|..] == rest;
  }

  lemma EvlenBytes(ev: seq<byte>)
    requires |ev| >= 19 && ParseHeader(ev).Done?
    ensures Le(ev[9..13]) == ParseHeader(ev).value.evlen
  {
    hide Le;
  }

  lemma TableDescribes(e: Event)
    requires EventOk(e) && e.TableMapEvent?
    ensures Describes(TableOf(e), e.def)
  {
    hide EventBytes, CellCodec.Supported, MetaFits, HeadOk, NameOk;
    forall i | 0 <= i < |e.def.columns| ensures MetasOf(e.def.columns)[i] < 0x1_0000 {
      assert ColumnOk(e.def.columns[i]);
      MetaSmall(e.def.columns[i]);
    }
  }

  lemma MetaSmall(c: CellCodec.Column)
    requires ColumnOk(c)
    ensures c.meta < 0x1_0000
  {
  }

  /** Absorbing an event that carries no rows. */
  lemma AbsorbSim(c: Client, x: Context, p: Place, log: seq<Event>)
    requires log != [] && Sim(c, x, p, log) && !log[0].RowsEventOf?
    ensures var e := log[0];
            var o := Absorb(c.(stream := LogBytes(After(x, e), log[1..])), EventBytes(e));
            && |EventBytes(e)| >= 19
            && o.Done? && Sim(o.value, After(x, e), Move(p, e), log[1..])
            && o.value.err == c.err
            && o.value.index == (if e.TableMapEvent? then 0 else c.index)
  {
    hide ParseFDE, ParseTableMap, ParseRotate, EventBytes, TableOf, Describes, Body, HeadOk, CString, Table.Valid;
    var e := log[0];
    EventParts(e);
    match e
    case FdeEvent(_, _, _, _, _, _) => FdeRoundTrip(e);
    case TableMapEvent(_, _, _, _) => TableMapRoundTrip(e); TableDescribes(e);
    case RotateEvent(_, _, _) => RotateRoundTrip(e);
    case OtherEvent(_, _, _) =>
  }

  lemma ReadOneSim(c: Client, x: Context, p: Place, log: seq<Event>)
    requires log != [] && Sim(c, x, p, log)
    ensures var e := log[0]; var rest := LogBytes(After(x, e), log[1..]); var o := ReadOne(c);
            if e.RowsEventOf? then o == Done((GotRows(RowsEventFor(e)), c.(stream := rest)))
            else && o.Done? && o.value.0.Skipped? && Sim(o.value.1, After(x, e), Move(p, e), log[1..])
                 && o.value.1.index == (if e.TableMapEvent? then 0 else c.index)
                 && o.value.1.err == c.err
  {
    hide EventBytes, Absorb, ParseRows, Describes, Body, HeadOk, NextEvent, RowsEventFor, Move, DefOk, ChangeFits,
         ColumnOk, Table.Valid;
    var e := log[0];
    FrameAt(e, LogBytes(After(x, e), log[1..]));
    if e.RowsEventOf? {
      RowsEventRoundTrip(e, c.table);
    } else {
      AbsorbSim(c, x, p, log);
    }
  }

  /** Between fetches: the buffered rows still to serve, then the log. */
  ghost predicate Ready(c: Client, x: Context, p: Place, log: seq<Event>) {
    && Sim(c, x, p, log)
    && c.index < TWO32 && p.index == Ordinal(c.index, |c.rows| - c.cur)
  }

  function Pending(c: Client, x: Context, p: Place, log: seq<Event>): seq<Delivered>
    requires c.Valid() && LogOk(x, log)
  {
    Numbered(c.rows[c.cur..], p.(index := c.index)) + Deliver(x, p, log)
  }

  /** getRowsEvent has stopped in front of `log`: at the end, or having taken
      the rows event that comes first. */
  ghost predicate Reached(g: Outcome<(Option<RowsEvent>, Client)>, x: Context, p: Place, log: seq<Event>) {
    && LogOk(x, log)
    && g.Done? && g.value.1.index == p.index < TWO32
    && if log == [] then g.value.0.None? && Sim(g.value.1, x, p, log)
       else
         && log[0].RowsEventOf?
         && g.value.0 == Some(RowsEventFor(log[0]))
         && g.value.1.stream == LogBytes(After(x, log[0]), log[1..])
         && Sim(g.value.1.(stream := LogBytes(x, log)), x, p, log)
  }

  lemma StopsHere(c: Client, x: Context, p: Place, log: seq<Event>)
    requires Ready(c, x, p, log) && c.cur == |c.rows| && (log == [] || log[0].RowsEventOf?)
    ensures Reached(GetRowsEvent(c), x, p, log)
    ensures GetRowsEvent(c).value.1.err == (c.err || log == [])
  {
    hide ReadOne, EventFits, Describes, RowsEventFor, Move, After, EventBytes, Table.Valid, Deliver;
    if log == [] {
      AtEnd(c);
    } else {
      ReadOneSim(c, x, p, log);
    }
  }

  lemma ReadsOn(c: Client, x: Context, p: Place, log: seq<Event>) returns (c1: Client)
    requires Ready(c, x, p, log) && c.cur == |c.rows| && log != [] && !log[0].RowsEventOf?
    ensures EventOk(log[0]) && LogOk(After(x, log[0]), log[1..])
    ensures c1.err == c.err
    ensures c1.Valid() && ReadOne(c) == Done((Skipped, c1)) && GetRowsEvent(c) == GetRowsEvent(c1)
    ensures Ready(c1, After(x, log[0]), Move(p, log[0]), log[1..]) && c1.cur == |c1.rows|
    ensures Deliver(x, p, log) == Deliver(After(x, log[0]), Move(p, log[0]), log[1..])
    ensures End(x, p, log) == End(After(x, log[0]), Move(p, log[0]), log[1..])
  {
    hide ReadOne, EventFits, Describes, Move, After, EventBytes, Table.Valid, Deliver, Sim;
    FirstOk(c, x, p, log);
    ReadOneSim(c, x, p, log);
    NoRows(x, p, log);
    c1 := ReadOne(c).value.1;
  }

  lemma FirstOk(c: Client, x: Context, p: Place, log: seq<Event>)
    requires Sim(c, x, p, log) && log != []
    ensures c.Valid() && LogOk(x, log) && EventFits(x, log[0]) && EventOk(log[0])
  {
    hide EventBytes, Describes, EventOk, Sized;
  }

  /** getRowsEvent stops at the next rows event of the log, or at its end. */
  lemma {:induction false} GetRowsSim(c: Client, x: Context, p: Place, log: seq<Event>)
    returns (x': Context, p': Place, log': seq<Event>)
    requires Ready(c, x, p, log) && c.cur == |c.rows|
    ensures c.Valid() && Reached(GetRowsEvent(c), x', p', log')
    ensures GetRowsEvent(c).Done? && GetRowsEvent(c).value.1.err == (c.err || log' == [])
    ensures LogOk(x, log) && LogOk(x', log')
    ensures Deliver(x', p', log') == Deliver(x, p, log) && End(x', p', log') == End(x, p, log)
    decreases |log|
  {
    hide GetRowsEvent, Reached, Sim, Deliver, End, After, Move;
    ReadyOk(c, x, p, log);
    if log == [] || log[0].RowsEventOf? {
      StopsHere(c, x, p, log);
      x', p', log' := x, p, log;
    } else {
      var c1 := ReadsOn(c, x, p, log);
      x', p', log' := GetRowsSim(c1, After(x, log[0]), Move(p, log[0]), log[1..]);
    }
    ReachedOk(GetRowsEvent(c), x', p', log');
  }

  lemma ReachedOk(g: Outcome<(Option<RowsEvent>, Client)>, x: Context, p: Place, log: seq<Event>)
    requires Reached(g, x, p, log)
    ensures g.Done? && LogOk(x, log)
  {
    hide Sim, Deliver;
  }

  lemma ReadyOk(c: Client, x: Context, p: Place, log: seq<Event>)
    requires Ready(c, x, p, log)
    ensures c.Valid() && LogOk(x, log)
  {
    hide LogOk, LogBytes, Deliver;
  }

  lemma AtEnd(c: Client)
    requires c.Valid() && c.stream == []
    ensures ReadOne(c) == Done((Ended, c.(stream := [], err := true)))
  {
  }

  lemma NoRows(x: Context, p: Place, log: seq<Event>)
    requires log != [] && LogOk(x, log) && !log[0].RowsEventOf?
    ensures EventOk(log[0])
    ensures Deliver(x, p, log) == Deliver(After(x, log[0]), Move(p, log[0]), log[1..])
    ensures Move(p, log[0]).index == if log[0].TableMapEvent? then 0 else p.index
  {
    hide TableOf, EventBytes, Deliver;
    DeliverStep(x, p, log);
  }

  lemma DeliverStep(x: Context, p: Place, log: seq<Event>)
    requires log != [] && LogOk(x, log)
    ensures EventOk(log[0])
    ensures var d := Deliver(After(x, log[0]), Move(p, log[0]), log[1..]);
            Deliver(x, p, log) == Rows(p, log[0]) + d && [] + d == d
  {
    hide Move, After, EventOk, Sized, Rows;
  }

  // ---- One fetch

  function PlaceOf(c: Client): Place { Place(c.position, c.index, c.logfile, c.table) }

  lemma NumberedTail(rows: seq<BinlogRow>, i: nat, p: Place, d: seq<Delivered>)
    requires i < |rows|
    ensures var all := Numbered(rows[i..], p) + d;
            && |all| > 0
            && all[0] == Delivered(rows[i], p.(index := Ordinal(p.index, 1)))
            && all[1..] == Numbered(rows[i + 1..], p.(index := Ordinal(p.index, 1))) + d
  {
    var tail := Numbered(rows[i..], p);
    var next := Numbered(rows[i + 1..], p.(index := Ordinal(p.index, 1)));
    forall j | 0 <= j < |next| ensures tail[1..][j] == next[j] {
      OrdinalAdd(p.index, 1, j + 1);
    }
    assert tail[1..] == next;
  }

  /** Serving a buffered row. */
  lemma ServeSim(c: Client, x: Context, p: Place, log: seq<Event>)
    requires Ready(c, x, p, log) && c.cur < |c.rows|
    ensures c.Valid() && LogOk(x, log)
    ensures var s := Serve(c); var all := Pending(c, x, p, log);
            && |all| > 0
            && s.0 == Some(all[0].row) && PlaceOf(s.1) == all[0].place && s.1.err == c.err
            && Ready(s.1, x, p, log) && Pending(s.1, x, p, log) == all[1..]
  {
    hide LogOk, LogBytes, Deliver, Describes, Numbered;
    NumberedTail(c.rows, c.cur, p.(index := c.index), Deliver(x, p, log));
  }

  /** A rows event taken into the buffer: its rows are what the log promised. */
  lemma BufferSim(g: Client, x: Context, p: Place, log: seq<Event>)
    requires log != [] && LogOk(x, log) && log[0].RowsEventOf?
    requires g.stream == LogBytes(After(x, log[0]), log[1..])
    requires Sim(g.(stream := LogBytes(x, log)), x, p, log)
    requires g.index == p.index < TWO32
    ensures var e := log[0];
            var c := g.(rows := BufferOf(RowsEventFor(e)), cur := 0);
            && EventOk(e) && LogOk(After(x, e), log[1..])
            && Ready(c, After(x, e), Move(p, e), log[1..])
            && c.cur < |c.rows|
            && Pending(c, After(x, e), Move(p, e), log[1..]) == Deliver(x, p, log)
  {
    hide LogBytes, Deliver, Describes, RowFrom, EventOk, Sized, AllImages, EventBytes, Table.Valid, Ordinal, TableOf;
    DeliverStep(x, p, log);
    var e := log[0];
    var rows := BufferOf(RowsEventFor(e));
    assert rows[0..] == rows;
  }

  lemma FetchRowSim(c: Client, x: Context, p: Place, log: seq<Event>)
    returns (x': Context, p': Place, log': seq<Event>)
    requires Ready(c, x, p, log)
    ensures c.Valid() && LogOk(x, log) && LogOk(x', log')
    ensures var f := FetchRow(c); var all := Pending(c, x, p, log); var end := End(x, p, log);
            && f.Done? && Ready(f.value.1, x', p', log')
            && f.value.1.err == (c.err || all == [])
            && End(x', p', log').position == end.position && End(x', p', log').logfile == end.logfile
            && if all == [] then
                 && f.value.0.None? && Pending(f.value.1, x', p', log') == []
                 && f.value.1.position == end.position && f.value.1.logfile == end.logfile && f.value.1.index == 0
               else
                 && f.value.0 == Some(all[0].row) && PlaceOf(f.value.1) == all[0].place
                 && Pending(f.value.1, x', p', log') == all[1..]
  {
    hide GetRowsEvent, LogBytes, Describes, Serve, EventFits, Deliver, Table.Valid;
    ReadyOk(c, x, p, log);
    if c.cur < |c.rows| {
      ServeSim(c, x, p, log);
      x', p', log' := x, p, log;
    } else {
      var x1, p1, log1 := GetRowsSim(c, x, p, log);
      assert c.rows[c.cur..] == [];
      assert Pending(c, x, p, log) == Deliver(x, p, log);
      if log1 == [] {
        DeliverNone(x1, p1);
        x', p', log' := x1, p1.(index := 0), log1;
        DeliverNone(x', p');
      } else {
        var g := GetRowsEvent(c).value.1;
        BufferSim(g, x1, p1, log1);
        x', p', log' := After(x1, log1[0]), Move(p1, log1[0]), log1[1..];
        ServeSim(g.(rows := BufferOf(RowsEventFor(log1[0])), cur := 0), x', p', log');
      }
    }
  }

  lemma DeliverNone(x: Context, p: Place)
    ensures Deliver(x, p, []) == [] && End(x, p, []) == p
  {
  }
}
