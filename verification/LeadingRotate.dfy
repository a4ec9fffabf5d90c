/** Resuming when the source sends a rotate in front of the format description:
    the rows, positions and indices are the original's; the file name is lost
    until the next rotate. */
module LeadingRotate {
  import opened Bits
  import opened Wire
  import opened Events
  import opened EventCodec
  import opened TableCodec
  import opened ClientSpec
  import opened Delivery
  import opened Runs
  import opened Resume
  import opened StartIndex

  // ---- Another file name

  predicate HasRotate(log: seq<Event>) {
    log != [] && (log[0].RotateEvent? || HasRotate(log[1..]))
  }

  /** Rows before the first rotate. */
  function Unrotated(log: seq<Event>): nat {
    if log == [] || log[0].RotateEvent? then 0 else RowCount(log[0]) + Unrotated(log[1..])
  }

  function Rename(d: Delivered, name: seq<byte>): Delivered { d.(place := d.place.(logfile := name)) }

  /** The first k deliveries under another file name. */
  function Renamed(d: seq<Delivered>, k: nat, name: seq<byte>): (r: seq<Delivered>)
    ensures |r| == |d|
  {
    seq(|d|, i requires 0 <= i < |d| => if i < k then Rename(d[i], name) else d[i])
  }

  function RenamedEnd(p: Place, log: seq<Event>, name: seq<byte>): Place {
    if HasRotate(log) then p else p.(logfile := name)
  }

  lemma RenamedSum(a: seq<Delivered>, b: seq<Delivered>, k: nat, name: seq<byte>)
    ensures Renamed(a + b, |a| + k, name) == Renamed(a, |a|, name) + Renamed(b, k, name)
  {
    hide Rename;
  }

  lemma RenamedNone(d: seq<Delivered>, name: seq<byte>)
    ensures Renamed(d, 0, name) == d
  {
  }

  lemma RowsRenamed(p: Place, e: Event, name: seq<byte>)
    requires EventOk(e)
    ensures Rows(p.(logfile := name), e) == Renamed(Rows(p, e), RowCount(e), name)
  {
    hide EventOk, BufferOf, RowsCodec.RowsEventFor, Ordinal;
  }

  lemma MoveRenamed(p: Place, e: Event, name: seq<byte>)
    requires EventOk(e)
    ensures Move(p.(logfile := name), e)
         == if e.RotateEvent? then Move(p, e) else Move(p, e).(logfile := name)
  {
    hide EventOk, TableOf, Ordinal;
  }

  /** A run under another file name differs in that name alone, up to the first
      rotate. */
  lemma {:induction false} RunRenamed(x: Context, p: Place, log: seq<Event>, name: seq<byte>)
    requires LogOk(x, log)
    ensures Deliver(x, p.(logfile := name), log) == Renamed(Deliver(x, p, log), Unrotated(log), name)
    ensures End(x, p.(logfile := name), log) == RenamedEnd(End(x, p, log), log, name)
    decreases |log|
  {
    var p' := p.(logfile := name);
    if log == [] {
      DeliverNone(x, p);
      DeliverNone(x, p');
    } else {
      hide *;
      HeadOkay(x, log);
      var e, rest, y := log[0], log[1..], After(x, log[0]);
      DeliverStep(x, p, log);
      DeliverStep(x, p', log);
      EndStep(x, p, log);
      EndStep(x, p', log);
      RowsCount(p, e);
      RowsRenamed(p, e, name);
      MoveRenamed(p, e, name);
      NamesStep(log);
      var d := Deliver(y, Move(p, e), rest);
      if e.RotateEvent? {
        NoneCounted(e);
        RenamedNone(Rows(p, e), name);
        RenamedNone(Rows(p, e) + d, name);
        EndKept(End(x, p, log), log, name);
      } else {
        RunRenamed(y, Move(p, e), rest, name);
        RenamedSum(Rows(p, e), d, Unrotated(rest), name);
        EndSame(End(x, p, log), log, name);
      }
    }
  }

  lemma NoneCounted(e: Event)
    requires e.RotateEvent?
    ensures RowCount(e) == 0
  {
  }

  lemma NamesStep(log: seq<Event>)
    requires log != []
    ensures Unrotated(log) == if log[0].RotateEvent? then 0 else RowCount(log[0]) + Unrotated(log[1..])
    ensures HasRotate(log) <==> log[0].RotateEvent? || HasRotate(log[1..])
  {
  }

  lemma EndKept(p: Place, log: seq<Event>, name: seq<byte>)
    requires HasRotate(log)
    ensures RenamedEnd(p, log, name) == p
  {
  }

  lemma EndSame(p: Place, log: seq<Event>, name: seq<byte>)
    requires log != [] && (HasRotate(log) <==> HasRotate(log[1..]))
    ensures RenamedEnd(p, log, name) == RenamedEnd(p, log[1..], name)
  {
  }

  lemma EndStep(x: Context, p: Place, log: seq<Event>)
    requires LogOk(x, log) && log != []
    ensures EventOk(log[0]) && LogOk(After(x, log[0]), log[1..])
    ensures End(x, p, log) == End(After(x, log[0]), Move(p, log[0]), log[1..])
  {
    hide EventOk, Sized, After, Move;
  }

  // ---- Reading the events in front

  lemma ReadsRotate(c: Client, rot: Event, s: seq<byte>)
    requires c.Valid() && c.hdrlen == 0 && EventOk(rot) && Sized(rot) && rot.RotateEvent?
    requires |EventBytes(rot)| <= 263 && c.stream == EventBytes(rot) + s
    ensures |EventBytes(rot)| >= 19
    ensures ReadOne(c) == Done((Skipped, c.(stream := s, position := rot.head.ts,
                                            logfile := CString(EventBytes(rot)[8..]))))
  {
    hide EventOk, EventBytes, Sized, Absorb, NextEvent, CString, ParseRows;
    FrameAt(rot, s);
    EarlyRotate(c.(stream := s), rot);
  }

  lemma ReadsFde(c: Client, fde: Event, s: seq<byte>)
    requires c.Valid() && EventOk(fde) && Sized(fde) && fde.FdeEvent? && c.stream == EventBytes(fde) + s
    ensures ReadOne(c) == Done((Skipped, c.(stream := s, hdrlen := fde.hdrlen)))
  {
    hide EventOk, EventBytes, Sized, NextEvent, ParseFDE, ParseRows;
    FrameAt(fde, s);
    FdeRoundTrip(fde);
  }

  lemma ReadsMap(c: Client, e: Event, s: seq<byte>)
    requires c.Valid() && EventOk(e) && Sized(e) && e.TableMapEvent? && c.hdrlen == 19 + |e.head.extra|
    requires c.stream == EventBytes(e) + s
    ensures ReadOne(c) == Done((Skipped, c.(stream := s, table := TableOf(e), position := StartOf(TableOf(e)),
                                            index := 0)))
  {
    hide EventOk, EventBytes, Sized, NextEvent, ParseTableMap, ParseRows, TableOf;
    FrameAt(e, s);
    TableMapRoundTrip(e);
  }

  lemma SkipsOne(c: Client, d: Client)
    requires c.Valid() && ReadOne(c) == Done((Skipped, d))
    ensures d.Valid() && GetRowsEvent(c) == GetRowsEvent(d)
  {
    hide ReadOne;
  }

  /** A format description and a table map in front make the position and the
      rest of the checkpoint but for the file name irrelevant. */
  lemma MapSettles(c: Client, position: nat, fde: Event, e: Event, s: seq<byte>)
    requires c.Valid() && EventOk(fde) && Sized(fde) && fde.FdeEvent?
    requires EventOk(e) && Sized(e) && e.TableMapEvent? && fde.hdrlen == 19 + |e.head.extra|
    requires c.stream == EventBytes(fde) + (EventBytes(e) + s)
    ensures GetRowsEvent(c) == GetRowsEvent(c.(position := position))
  {
    hide EventOk, EventBytes, Sized, ReadOne, GetRowsEvent, TableOf, StartOf;
    var d := c.(position := position);
    var t := EventBytes(e) + s;
    ReadsFde(c, fde, t);
    ReadsFde(d, fde, t);
    var c1, d1 := c.(stream := t, hdrlen := fde.hdrlen), d.(stream := t, hdrlen := fde.hdrlen);
    SkipsOne(c, c1);
    SkipsOne(d, d1);
    ReadsMap(c1, e, s);
    ReadsMap(d1, e, s);
    SkipsOne(c1, ReadOne(c1).value.1);
    SkipsOne(d1, ReadOne(d1).value.1);
  }

  lemma SameGet(c: Client, d: Client)
    requires c.Valid() && d.Valid() && c.cur == |c.rows| && d.cur == |d.rows|
    requires GetRowsEvent(c) == GetRowsEvent(d) && c.position == d.position && c.startidx == d.startidx
    ensures FetchOne(c) == FetchOne(d)
  {
    hide GetRowsEvent, Serve;
    assert FetchRow(c) == FetchRow(d);
    hide FetchRow;
  }

  /** The client behind the rotate is as good as one started with the name the
      rotate left. */
  lemma BehindRotate(rot: Event, fde: Event, log: seq<Event>, position: nat, k: nat, logfile: seq<byte>)
    requires EventOk(rot) && Sized(rot) && rot.RotateEvent? && |EventBytes(rot)| <= 263 && k < TWO32
    requires fde.FdeEvent? && log != [] && log[0].TableMapEvent? && LogOk(START, [fde] + log)
    ensures |EventBytes(rot)| >= 19
    ensures var s := LogBytes(START, [fde] + log);
            FetchOne(Connect(EventBytes(rot) + s, position, k, logfile))
            == FetchOne(Connect(s, position, k, CString(EventBytes(rot)[8..])))
  {
    hide EventBytes, EventOk, Sized, LogBytes, LogOk, GetRowsEvent, FetchOne, CString, ReadOne, EventFits;
    var again := [fde] + log;
    assert again[1..] == log;
    HeadFits(START, again);
    HeadFits(After(START, fde), log);
    var s := LogBytes(START, again);
    var c := Connect(EventBytes(rot) + s, position, k, logfile);
    ReadsRotate(c, rot, s);
    var d := Connect(s, position, k, CString(EventBytes(rot)[8..]));
    SkipsOne(c, d.(position := rot.head.ts));
    MapSettles(d, rot.head.ts, fde, log[0], LogBytes(After(After(START, fde), log[0]), log[1..]));
    SameGet(c, d);
  }

  lemma HeadFits(x: Context, log: seq<Event>)
    requires LogOk(x, log) && log != []
    ensures EventOk(log[0]) && Sized(log[0]) && LogOk(After(x, log[0]), log[1..])
    ensures LogBytes(x, log) == EventBytes(log[0]) + LogBytes(After(x, log[0]), log[1..])
    ensures log[0].TableMapEvent? ==> x.hdrlen == 19 + |log[0].head.extra|
  {
    hide EventOk, Sized, After, EventBytes;
  }

  // ---- Resuming

  /** Whether the row of fetch j, or the end behind all rows, comes after a
      rotate that follows event g. */
  predicate NameRestored(log: seq<Event>, g: nat, j: nat, total: nat)
    requires g <= |log|
  {
    if j < total then CountTo(log, g) + Unrotated(log[g..]) <= j else HasRotate(log[g..])
  }

  lemma RenamedAt(d: seq<Delivered>, k: nat, name: seq<byte>, i: nat)
    requires i < |d|
    ensures Renamed(d, k, name)[i]
         == Delivered(d[i].row, if i < k then d[i].place.(logfile := name) else d[i].place)
  {
  }

  /** The rows of the resumed run, renamed. */
  lemma RenamedRest(log: seq<Event>, p: Place, n: nat, g: nat, fde: Event, q: Place, name: seq<byte>)
    requires LogOk(START, log) && Governs(START, p, log, n, g)
    requires fde.FdeEvent? && EventFits(START, fde) && fde.hdrlen == ContextAt(START, log, g).hdrlen
    requires q.logfile == PlaceAt(START, p, log, g).logfile
    ensures g < |log| && log[g].TableMapEvent? && LogOk(START, [fde] + log[g..])
    ensures var all := Deliver(START, p, log); var q' := q.(logfile := name);
            && CountTo(log, g) <= n < |all|
            && Deliver(START, q', [fde] + log[g..]) == Renamed(all[CountTo(log, g)..], Unrotated(log[g..]), name)
            && End(START, q', [fde] + log[g..]) == RenamedEnd(End(START, p, log), log[g..], name)
    ensures EventOk(log[g])
    ensures var d := Deliver(START, q.(logfile := name), [fde] + log[g..]);
            && n + 1 - CountTo(log, g) <= |d|
            && forall i :: 0 <= i < n + 1 - CountTo(log, g) ==> d[i].place.position == StartOf(TableOf(log[g]))
  {
    hide *;
    GovernsPlace(START, p, log, n, g);
    RestOfLog(log, p, g, fde, q);
    GroupStays(log, p, n, g, fde, q);
    var again := [fde] + log[g..];
    RunRenamed(START, q, again, name);
    assert again[0] == fde && again[1..] == log[g..];
    NamesStep(again);
    NoRowsIn(fde);
    EndSame(End(START, p, log), again, name);
    var k := Unrotated(log[g..]);
    var d := Deliver(START, q, again);
    forall i | 0 <= i < n + 1 - CountTo(log, g)
      ensures Renamed(d, k, name)[i].place.position == StartOf(TableOf(log[g]))
    {
      RenamedAt(d, k, name, i);
    }
  }

  lemma NoRowsIn(e: Event)
    requires e.FdeEvent?
    ensures RowCount(e) == 0 && !e.RotateEvent?
  {
  }

  /** Resuming behind a rotate: a fresh client started at the checkpoint after
      the n-th fetch, over a source that sends a rotate, a format description
      and the log from the governing table map on, returns on its m-th fetch
      the row, position and index of the original's (n + 1 + m)-th. The file
      name is what the rotate left, until a later rotate restores it. */
  lemma ResumeBehindRotate(log: seq<Event>, position: nat, logfile: seq<byte>, n: nat, g: nat,
                           fde: Event, rot: Event, m: nat)
    requires LogOk(START, log)
    requires var p := Place(position, 0, logfile, NO_TABLE);
             Governs(START, p, log, n, g) && n + 1 - CountTo(log, g) < MAX_INDEX
    requires fde.FdeEvent? && EventFits(START, fde) && fde.hdrlen == ContextAt(START, log, g).hdrlen
    requires EventOk(rot) && Sized(rot) && rot.RotateEvent? && |EventBytes(rot)| <= 263
    ensures LogOk(START, [fde] + log[g..]) && |EventBytes(rot)| >= 19
    ensures var total := |Deliver(START, Place(position, 0, logfile, NO_TABLE), log)|;
            var c0 := Connect(LogBytes(START, log), position, 0, logfile);
            && FetchNth(c0, n).Done?
            && var c1 := FetchNth(c0, n).value.1;
               var c2 := Connect(EventBytes(rot) + LogBytes(START, [fde] + log[g..]),
                                 c1.position, c1.index, c1.logfile);
               var a, b := FetchNth(c2, m), FetchNth(c0, n + 1 + m);
            && a.Done? && b.Done? && a.value.0 == b.value.0 && a.value.1.err == b.value.1.err
            && a.value.1.position == b.value.1.position && a.value.1.index == b.value.1.index
            && a.value.1.logfile == if NameRestored(log, g, n + 1 + m, total) then b.value.1.logfile
                                    else CString(EventBytes(rot)[8..])
  {
    hide *;
    var p := Place(position, 0, logfile, NO_TABLE);
    CheckpointAt(log, position, logfile, n, g);
    IndexFits(n + 1 - CountTo(log, g));
    var c0 := Connect(LogBytes(START, log), position, 0, logfile);
    FreshStart(LogBytes(START, log), position, logfile);
    StartReady(log, position, 0, logfile);
    var c1 := FetchNth(c0, n).value.1;
    var x1, p1, log1 := NthSim(c0, START, p, log, n + 1 + m);
    var k, again := c1.index, [fde] + log[g..];
    var q := Place(c1.position, 0, c1.logfile, NO_TABLE);
    SizeOfRotate(rot);
    var name := CString(EventBytes(rot)[8..]);
    RenamedRest(log, p, n, g, fde, q, name);
    assert log[g..][0] == log[g];
    BehindRotate(rot, fde, log[g..], c1.position, k, c1.logfile);
    var c3, x3, p3, log3 := FreshSkips(again, c1.position, k, name);
    SameFirstSameAll(Connect(EventBytes(rot) + LogBytes(START, again), c1.position, k, c1.logfile), c3, m);
    var x4, p4, log4 := NthSim(c3, x3, p3, log3, m);
    Compare(Deliver(START, p, log), CountTo(log, g), n, m, log, g, name);
    EndCompare(End(START, p, log), log[g..], name);
    PlaceParts(FetchNth(c3, m).value.1);
    PlaceParts(FetchNth(c0, n + 1 + m).value.1);
    RestoredWhen(log, g, n + 1 + m, |Deliver(START, p, log)|);
  }

  lemma SizeOfRotate(e: Event)
    requires EventOk(e) && Sized(e)
    ensures |EventBytes(e)| >= 19
  {
  }

  lemma Compare(all: seq<Delivered>, before: nat, n: nat, m: nat, log: seq<Event>, g: nat, name: seq<byte>)
    requires before <= n < |all| && g <= |log|
    ensures var d := Renamed(all[before..], Unrotated(log[g..]), name)[n + 1 - before..];
            && |d| == |all| - n - 1
            && (m < |d| ==>
                 && d[m].row == all[n + 1 + m].row
                 && d[m].place.position == all[n + 1 + m].place.position
                 && d[m].place.index == all[n + 1 + m].place.index
                 && d[m].place.logfile == if before + Unrotated(log[g..]) <= n + 1 + m
                                          then all[n + 1 + m].place.logfile else name)
  {
    hide Unrotated;
  }

  lemma EndCompare(p: Place, log: seq<Event>, name: seq<byte>)
    ensures RenamedEnd(p, log, name).position == p.position
    ensures RenamedEnd(p, log, name).logfile == if HasRotate(log) then p.logfile else name
  {
  }

  lemma RestoredWhen(log: seq<Event>, g: nat, j: nat, total: nat)
    requires g <= |log|
    ensures NameRestored(log, g, j, total)
            <==> if j < total then CountTo(log, g) + Unrotated(log[g..]) <= j else HasRotate(log[g..])
  {
  }
}
