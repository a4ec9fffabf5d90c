/** Whole runs of the client: exactly-once delivery and the checkpoint each row
    carries. */
module Runs {
  import opened Bits
  import opened Events
  import opened EventCodec
  import opened TableCodec
  import Cells
  import Wire
  import RowsCodec
  import opened ClientSpec
  import opened Delivery

  // ---- Exactly once, in order

  /** The n-th fetch of a client that skips nothing. */
  lemma {:induction false} NthSim(c: Client, x: Context, p: Place, log: seq<Event>, n: nat)
    returns (x': Context, p': Place, log': seq<Event>)
    requires Ready(c, x, p, log) && c.startidx == 0
    ensures c.Valid() && LogOk(x, log) && LogOk(x', log')
    ensures var f := FetchNth(c, n); var all := Pending(c, x, p, log); var end := End(x, p, log);
            && f.Done? && f.value.1.startidx == 0 && Ready(f.value.1, x', p', log')
            && f.value.1.err == (c.err || n >= |all|)
            && End(x', p', log').position == end.position && End(x', p', log').logfile == end.logfile
            && if n < |all| then
                 && f.value.0 == Row(all[n].row) && PlaceOf(f.value.1) == all[n].place
                 && Pending(f.value.1, x', p', log') == all[n + 1..]
               else
                 && f.value.0 == Null && Pending(f.value.1, x', p', log') == []
                 && f.value.1.position == end.position && f.value.1.logfile == end.logfile && f.value.1.index == 0
  {
    hide FetchRow, Ready, Pending, End, LogOk;
    if n == 0 {
      x', p', log' := FetchRowSim(c, x, p, log);
    } else {
      var x1, p1, log1 := NthSim(c, x, p, log, n - 1);
      x', p', log' := FetchRowSim(FetchNth(c, n - 1).value.1, x1, p1, log1);
    }
  }

  /** A client at the start of a log, in the state of connectDataSource. */
  lemma StartReady(log: seq<Event>, position: nat, index: nat, logfile: seq<byte>)
    requires LogOk(START, log) && index < TWO32
    ensures var p := Place(position, 0, logfile, NO_TABLE);
            var c := Connect(LogBytes(START, log), position, index, logfile);
            Ready(c, START, p, log) && Pending(c, START, p, log) == Deliver(START, p, log)
  {
    hide LogOk, LogBytes, Deliver;
  }

  /** Successive fetches over the bytes of any well-formed log return exactly
      the rows of its rows events, in order, each once, then NULL for ever; the
      error flag stays down with every row and is up with every NULL. */
  lemma EndToEnd(log: seq<Event>, position: nat, logfile: seq<byte>, n: nat)
    requires LogOk(START, log)
    ensures var all := Deliver(START, Place(position, 0, logfile, NO_TABLE), log);
            var f := FetchNth(Connect(LogBytes(START, log), position, 0, logfile), n);
            && f.Done?
            && f.value.0 == (if n < |all| then Row(all[n].row) else Null)
            && f.value.1.err == (n >= |all|)
            && (n < |all| ==> PlaceOf(f.value.1) == all[n].place)
  {
    hide LogOk, LogBytes, Deliver, FetchNth, Ready, Pending, End;
    StartReady(log, position, 0, logfile);
    var p := Place(position, 0, logfile, NO_TABLE);
    var x', p', log' := NthSim(Connect(LogBytes(START, log), position, 0, logfile), START, p, log, n);
  }

  // ---- Where a row stands in the log

  /** Rows of the first i events. */
  function CountTo(log: seq<Event>, i: nat): nat
    requires i <= |log|
  {
    if i == 0 then 0 else RowCount(log[0]) + CountTo(log[1..], i - 1)
  }

  /** The context in front of event i. */
  function ContextAt(x: Context, log: seq<Event>, i: nat): Context
    requires i <= |log|
    decreases i
  {
    if i == 0 then x else ContextAt(After(x, log[0]), log[1..], i - 1)
  }

  lemma {:induction false} DropOk(x: Context, log: seq<Event>, i: nat)
    requires LogOk(x, log) && i <= |log|
    ensures LogOk(ContextAt(x, log, i), log[i..])
    decreases i
  {
    hide EventFits, After;
    if i > 0 {
      DropOk(After(x, log[0]), log[1..], i - 1);
      assert log[1..][i - 1..] == log[i..];
    } else {
      assert log[0..] == log;
    }
  }

  /** The place in front of event i. */
  function PlaceAt(x: Context, p: Place, log: seq<Event>, i: nat): Place
    requires LogOk(x, log) && i <= |log|
    decreases i
  {
    if i == 0 then p else PlaceAt(After(x, log[0]), Move(p, log[0]), log[1..], i - 1)
  }

  lemma {:induction false} DeliverCount(x: Context, p: Place, log: seq<Event>)
    requires LogOk(x, log)
    ensures |Deliver(x, p, log)| == CountTo(log, |log|)
    decreases |log|
  {
    hide *;
    if log == [] {
      DeliverNone(x, p);
      CountNone(log);
    } else {
      StepBack(x, p, log, |log|);
      DeliverStep(x, p, log);
      RowsCount(p, log[0]);
      DeliverCount(After(x, log[0]), Move(p, log[0]), log[1..]);
    }
  }

  lemma CountNone(log: seq<Event>)
    ensures CountTo(log, 0) == 0
  {
  }

  lemma RowsCount(p: Place, e: Event)
    requires EventOk(e)
    ensures |Rows(p, e)| == RowCount(e)
  {
  }

  lemma StepBack(x: Context, p: Place, log: seq<Event>, i: nat)
    requires LogOk(x, log) && 0 < i <= |log|
    ensures EventOk(log[0]) && LogOk(After(x, log[0]), log[1..])
    ensures ContextAt(x, log, i) == ContextAt(After(x, log[0]), log[1..], i - 1)
    ensures PlaceAt(x, p, log, i) == PlaceAt(After(x, log[0]), Move(p, log[0]), log[1..], i - 1)
    ensures CountTo(log, i) == RowCount(log[0]) + CountTo(log[1..], i - 1)
    ensures log[i..] == log[1..][i - 1..]
  {
    hide EventFits, EventOk, Move, After, RowCount;
    HeadOkay(x, log);
  }

  /** Deliveries after the first i events are those of the rest of the log. */
  lemma {:induction false} DeliverDrop(x: Context, p: Place, log: seq<Event>, i: nat)
    requires LogOk(x, log) && i <= |log|
    ensures LogOk(ContextAt(x, log, i), log[i..])
    ensures CountTo(log, i) <= |Deliver(x, p, log)|
    ensures Deliver(x, p, log)[CountTo(log, i)..]
         == Deliver(ContextAt(x, log, i), PlaceAt(x, p, log, i), log[i..])
    decreases i
  {
    hide *;
    if i == 0 {
      AtStart(x, p, log);
      CountNone(log);
      assert Deliver(x, p, log)[0..] == Deliver(x, p, log);
    } else {
      var e, rest := log[0], log[1..];
      StepBack(x, p, log, i);
      DeliverDrop(After(x, e), Move(p, e), rest, i - 1);
      DeliverStep(x, p, log);
      RowsCount(p, e);
      DropBoth(Rows(p, e), Deliver(After(x, e), Move(p, e), rest), CountTo(rest, i - 1));
    }
  }

  lemma {:induction false} EndDrop(x: Context, p: Place, log: seq<Event>, i: nat)
    requires LogOk(x, log) && i <= |log|
    ensures LogOk(ContextAt(x, log, i), log[i..])
    ensures End(x, p, log) == End(ContextAt(x, log, i), PlaceAt(x, p, log, i), log[i..])
    decreases i
  {
    hide *;
    if i == 0 {
      AtStart(x, p, log);
    } else {
      StepBack(x, p, log, i);
      EndDrop(After(x, log[0]), Move(p, log[0]), log[1..], i - 1);
      EndStep(x, p, log);
    }
  }

  lemma AtStart(x: Context, p: Place, log: seq<Event>)
    requires LogOk(x, log)
    ensures ContextAt(x, log, 0) == x && PlaceAt(x, p, log, 0) == p && log[0..] == log
  {
    hide LogOk;
  }

  lemma EndStep(x: Context, p: Place, log: seq<Event>)
    requires LogOk(x, log) && log != []
    ensures EventOk(log[0]) && LogOk(After(x, log[0]), log[1..])
    ensures End(x, p, log) == End(After(x, log[0]), Move(p, log[0]), log[1..])
  {
    hide EventFits, EventOk, Move, After;
    HeadOkay(x, log);
  }

  lemma DropBoth<T>(a: seq<T>, b: seq<T>, k: nat)
    requires k <= |b|
    ensures (a + b)[|a| + k..] == b[k..]
  {
  }

  predicate Marks(e: Event) { e.TableMapEvent? || e.RotateEvent? }

  /** Rows before the next table map or rotate. */
  function GroupRows(log: seq<Event>): nat {
    if log == [] || Marks(log[0]) then 0 else RowCount(log[0]) + GroupRows(log[1..])
  }

  /** Event g is the table map in force at delivery n, a row of its group: the
      row's position is the map's start, its table the one the map defines, the
      index counts the rows since the map, and the file name is the one in
      force there. */
  ghost predicate Governs(x: Context, p: Place, log: seq<Event>, n: nat, g: nat)
    requires LogOk(x, log)
  {
    && g < |log| && log[g].TableMapEvent? && EventOk(log[g])
    && var all := Deliver(x, p, log);
    && n < |all|
    && CountTo(log, g) <= n < CountTo(log, g) + GroupRows(log[g + 1..])
    && all[n].place == Place(StartOf(TableOf(log[g])), Ordinal(0, n + 1 - CountTo(log, g)),
                             PlaceAt(x, p, log, g).logfile, TableOf(log[g]))
  }

  /** The table map in force was already so before the log. */
  ghost predicate Inherited(x: Context, p: Place, log: seq<Event>, n: nat)
    requires LogOk(x, log)
  {
    && x.def.Some?
    && var all := Deliver(x, p, log);
    && n < |all| && n < GroupRows(log)
    && all[n].place == p.(index := Ordinal(p.index, n + 1))
  }

  lemma HeadRow(x: Context, p: Place, log: seq<Event>, n: nat)
    requires LogOk(x, log) && log != [] && n < RowCount(log[0])
    ensures Inherited(x, p, log, n)
  {
    hide Move, After, RowsCodec.RowsEventFor, BufferOf, EventBytes, EventOk, Sized, LogOk;
    HeadOkay(x, log);
    DeliverStep(x, p, log);
    RowsCount(p, log[0]);
  }

  lemma HeadOkay(x: Context, log: seq<Event>)
    requires LogOk(x, log) && log != []
    ensures EventFits(x, log[0]) && EventOk(log[0]) && LogOk(After(x, log[0]), log[1..])
  {
    hide EventOk, Sized, After;
  }

  lemma LaterRow(x: Context, p: Place, log: seq<Event>, n: nat)
    requires LogOk(x, log) && log != [] && RowCount(log[0]) <= n < |Deliver(x, p, log)|
    ensures EventOk(log[0]) && LogOk(After(x, log[0]), log[1..])
    ensures var d := Deliver(After(x, log[0]), Move(p, log[0]), log[1..]);
            n - RowCount(log[0]) < |d| && Deliver(x, p, log)[n] == d[n - RowCount(log[0])]
  {
    hide *;
    HeadOkay(x, log);
    DeliverStep(x, p, log);
    RowsCount(p, log[0]);
  }

  lemma Promote(x: Context, p: Place, log: seq<Event>, n: nat)
    requires LogOk(x, log) && log != [] && RowCount(log[0]) <= n < |Deliver(x, p, log)|
    requires EventOk(log[0]) && LogOk(After(x, log[0]), log[1..])
    requires Inherited(After(x, log[0]), Move(p, log[0]), log[1..], n - RowCount(log[0]))
    ensures if log[0].TableMapEvent? then Governs(x, p, log, n, 0) else Inherited(x, p, log, n)
  {
    hide Deliver, EventOk, LogOk, TableOf, EventFits, Ordinal;
    LaterRow(x, p, log, n);
    HeadOkay(x, log);
    if !Marks(log[0]) { MoveIndex(p, log[0], n - RowCount(log[0]) + 1); }
  }

  lemma Shift(x: Context, p: Place, log: seq<Event>, n: nat, g: nat)
    requires LogOk(x, log) && log != [] && RowCount(log[0]) <= n < |Deliver(x, p, log)|
    requires EventOk(log[0]) && LogOk(After(x, log[0]), log[1..])
    requires Governs(After(x, log[0]), Move(p, log[0]), log[1..], n - RowCount(log[0]), g)
    ensures Governs(x, p, log, n, g + 1)
  {
    hide Deliver, EventOk, LogOk, TableOf, EventFits, Move, After;
    LaterRow(x, p, log, n);
    assert log[1..][g + 1..] == log[g + 2..];
  }

  /** Every delivered row has a governing table map, in the log or before it. */
  lemma {:induction false} Governing(x: Context, p: Place, log: seq<Event>, n: nat) returns (g: nat)
    requires LogOk(x, log) && n < |Deliver(x, p, log)|
    ensures Inherited(x, p, log, n) || Governs(x, p, log, n, g)
    decreases |log|
  {
    hide Inherited, Governs, Move, After, EventOk, Deliver, LogOk;
    g := 0;
    if log == [] {
      DeliverNone(x, p);
      assert false;
    } else if n < RowCount(log[0]) {
      HeadRow(x, p, log, n);
    } else {
      LaterRow(x, p, log, n);
      var x1, p1 := After(x, log[0]), Move(p, log[0]);
      var h := Governing(x1, p1, log[1..], n - RowCount(log[0]));
      if Inherited(x1, p1, log[1..], n - RowCount(log[0])) {
        Promote(x, p, log, n);
      } else {
        Shift(x, p, log, n, h);
        g := h + 1;
      }
    }
  }

  /** Rows of the group a log starts in keep its place but for the index. */
  lemma {:induction false} GroupPlace(x: Context, p: Place, log: seq<Event>, i: nat)
    requires LogOk(x, log) && i < GroupRows(log)
    ensures i < |Deliver(x, p, log)|
    ensures Deliver(x, p, log)[i].place == p.(index := Ordinal(p.index, i + 1))
    decreases |log|
  {
    hide *;
    GroupStep(log);
    HeadOkay(x, log);
    DeliverStep(x, p, log);
    RowsCount(p, log[0]);
    var e, c := log[0], RowCount(log[0]);
    if i < c {
      HeadPlace(p, e, i);
    } else {
      GroupPlace(After(x, e), Move(p, e), log[1..], i - c);
      MoveIndex(p, e, i - c + 1);
    }
  }

  lemma GroupStep(log: seq<Event>)
    requires GroupRows(log) > 0
    ensures log != [] && !Marks(log[0]) && GroupRows(log) == RowCount(log[0]) + GroupRows(log[1..])
  {
  }

  /** The rows of one event keep the place but for the index. */
  lemma HeadPlace(p: Place, e: Event, i: nat)
    requires EventOk(e) && i < RowCount(e)
    ensures Rows(p, e)[i].place == p.(index := Ordinal(p.index, i + 1))
  {
    hide EventOk, RowsCodec.RowsEventFor, BufferOf, Ordinal;
  }

  /** Counting goes on behind an event that is no mark. */
  lemma MoveIndex(p: Place, e: Event, k: nat)
    requires EventOk(e) && !Marks(e)
    ensures Move(p, e).(index := Ordinal(Move(p, e).index, k)) == p.(index := Ordinal(p.index, RowCount(e) + k))
  {
    hide EventOk, Ordinal;
    if e.RowsEventOf? { OrdinalAdd(p.index, |e.rows|, k); }
  }

  /** The row a caller should see for change r of a rows event; 24 is UPDATE. */
  function ExpectedRow(e: Event, r: nat): BinlogRow
    requires EventOk(e) && e.RowsEventOf? && r < |e.rows|
  {
    var cols, change, ev, p := e.def.columns, e.rows[r], EventBytes(e), e.present;
    var created: int := if e.head.ts < 0x8000_0000 then e.head.ts else e.head.ts - 0x1_0000_0000;
    if e.kind == 24 then
      BinlogRow(|cols|, e.kind, created, RowsCodec.ShownCells(ev, cols, change.row, p.usedU),
                RowsCodec.ShownCells(ev, cols, change.rowOld, p.used))
    else
      BinlogRow(|cols|, e.kind, created, RowsCodec.ShownCells(ev, cols, change.row, p.used), [])
  }

  lemma BufferRow(e: Event, r: nat)
    requires EventOk(e) && e.RowsEventOf? && r < |e.rows|
    ensures BufferOf(RowsCodec.RowsEventFor(e))[r] == ExpectedRow(e, r)
  {
    hide EventBytes, RowsCodec.ShownCells, DefOk, EventCodec.RowFits, Cells.ToInt32, EventCodec.HeadOk;
    Created(e);
  }

  lemma Created(e: Event)
    requires EventOk(e)
    ensures Cells.ToInt32(e.head.ts) == if e.head.ts < 0x8000_0000 then e.head.ts as int
                                        else e.head.ts - 0x1_0000_0000
  {
    Wire.PowValues();
  }

  /** The r-th row of event i is delivered after all rows of the events before
      it, with the event's type and timestamp and the cells of its values. */
  lemma RowAt(x: Context, p: Place, log: seq<Event>, i: nat, r: nat)
    requires LogOk(x, log) && i < |log| && log[i].RowsEventOf? && r < |log[i].rows|
    ensures EventOk(log[i])
    ensures CountTo(log, i) + r < |Deliver(x, p, log)|
    ensures Deliver(x, p, log)[CountTo(log, i) + r].row == ExpectedRow(log[i], r)
  {
    hide LogOk, Deliver, EventOk, Move, After, RowsCodec.RowsEventFor, BufferOf, EventFits, ContextAt, PlaceAt,
         CountTo, ExpectedRow;
    DeliverDrop(x, p, log, i);
    var y, q, rest := ContextAt(x, log, i), PlaceAt(x, p, log, i), log[i..];
    assert rest[0] == log[i];
    HeadOkay(y, rest);
    DeliverStep(y, q, rest);
    assert Deliver(y, q, rest)[r] == Rows(q, rest[0])[r];
    BufferRow(log[i], r);
  }

  /** The checkpoint invariant: at every successful fetch of a run from the
      start, position, index, file name and table are those of a table map of
      the log that governs the returned row. */
  lemma CheckpointInvariant(log: seq<Event>, position: nat, logfile: seq<byte>, n: nat) returns (g: nat)
    requires LogOk(START, log)
    requires n < |Deliver(START, Place(position, 0, logfile, NO_TABLE), log)|
    ensures var p := Place(position, 0, logfile, NO_TABLE);
            && Governs(START, p, log, n, g)
            && var f := FetchNth(Connect(LogBytes(START, log), position, 0, logfile), n);
            && f.Done? && f.value.0.Row?
            && PlaceOf(f.value.1) == Place(StartOf(TableOf(log[g])), Ordinal(0, n + 1 - CountTo(log, g)),
                                           PlaceAt(START, p, log, g).logfile, TableOf(log[g]))
            && f.value.1.index == (n + 1 - CountTo(log, g)) % 0x1_0000_0000
  {
    hide *;
    EndToEnd(log, position, logfile, n);
    var p := Place(position, 0, logfile, NO_TABLE);
    g := Governing(START, p, log, n);
    NotInherited(p, log, n);
    GovernsPlace(START, p, log, n, g);
    IndexOf(FetchNth(Connect(LogBytes(START, log), position, 0, logfile), n).value.1, n + 1 - CountTo(log, g));
  }

  lemma IndexOf(c: Client, k: nat)
    ensures PlaceOf(c).index == Ordinal(0, k) ==> c.index == k % 0x1_0000_0000
  {
  }

  /** A run from the start has no table map before it. */
  lemma NotInherited(p: Place, log: seq<Event>, n: nat)
    requires LogOk(START, log)
    ensures !Inherited(START, p, log, n)
  {
    hide LogOk, Deliver, GroupRows;
  }

  lemma GovernsPlace(x: Context, p: Place, log: seq<Event>, n: nat, g: nat)
    requires LogOk(x, log) && Governs(x, p, log, n, g)
    ensures g < |log| && log[g].TableMapEvent? && EventOk(log[g])
    ensures var all := Deliver(x, p, log);
            && CountTo(log, g) <= n < |all|
            && all[n].place == Place(StartOf(TableOf(log[g])), Ordinal(0, n + 1 - CountTo(log, g)),
                                     PlaceAt(x, p, log, g).logfile, TableOf(log[g]))
  {
    hide LogOk, Deliver, GroupRows, TableOf, EventOk, CountTo, PlaceAt, StartOf, Ordinal;
  }

  /** The file name of the last rotate before event i. */
  function LastName(log: seq<Event>, i: nat, name: seq<byte>): seq<byte>
    requires i <= |log|
  {
    if i == 0 then name
    else if log[i - 1].RotateEvent? then log[i - 1].name
    else LastName(log, i - 1, name)
  }

  lemma {:induction false} LastNameTail(log: seq<Event>, i: nat, name: seq<byte>)
    requires 0 < i <= |log|
    ensures LastName(log, i, name)
         == LastName(log[1..], i - 1, if log[0].RotateEvent? then log[0].name else name)
  {
    if i > 1 { LastNameTail(log, i - 1, name); }
  }

  lemma MoveName(p: Place, e: Event)
    requires EventOk(e)
    ensures Move(p, e).logfile == if e.RotateEvent? then e.name else p.logfile
  {
    hide TableOf, EventOk;
  }

  lemma {:induction false} LogfileIsLastRotate(x: Context, p: Place, log: seq<Event>, i: nat)
    requires LogOk(x, log) && i <= |log|
    ensures PlaceAt(x, p, log, i).logfile == LastName(log, i, p.logfile)
    decreases i
  {
    hide *;
    if i > 0 {
      StepBack(x, p, log, i);
      MoveName(p, log[0]);
      LogfileIsLastRotate(After(x, log[0]), Move(p, log[0]), log[1..], i - 1);
      LastNameTail(log, i, p.logfile);
    } else {
      AtStart(x, p, log);
      NamesAtStart(log, p.logfile);
    }
  }

  lemma NamesAtStart(log: seq<Event>, name: seq<byte>)
    ensures LastName(log, 0, name) == name
  {
  }
}
