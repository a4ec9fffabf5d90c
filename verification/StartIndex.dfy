/** The start-index check of fetchOne, and two inputs the client mishandles. */
module StartIndex {
  import opened Bits
  import opened Wire
  import opened Events
  import opened EventCodec
  import opened TableCodec
  import opened RowsCodec
  import opened ClientSpec
  import opened Delivery
  import opened Runs
  import opened Resume

  /** Where a table map or rotate puts the position. */
  function MarkPosition(e: Event): nat
    requires EventOk(e) && Marks(e)
  {
    if e.TableMapEvent? then StartOf(TableOf(e)) else e.position % TWO32
  }

  ghost predicate MarksElsewhere(log: seq<Event>, p: nat) {
    forall j :: 0 <= j < |log| && EventOk(log[j]) && Marks(log[j]) ==> MarkPosition(log[j]) != p
  }

  predicate HasMark(log: seq<Event>) {
    exists j :: 0 <= j < |log| && Marks(log[j])
  }

  lemma ElsewhereTail(log: seq<Event>, p: nat)
    requires log != [] && MarksElsewhere(log, p)
    ensures MarksElsewhere(log[1..], p)
    ensures EventOk(log[0]) && Marks(log[0]) ==> MarkPosition(log[0]) != p
    ensures HasMark(log) <==> Marks(log[0]) || HasMark(log[1..])
  {
    hide EventOk, MarkPosition, Marks;
    forall j | 0 <= j < |log[1..]| && EventOk(log[1..][j]) && Marks(log[1..][j])
      ensures MarkPosition(log[1..][j]) != p
    {
      assert log[1..][j] == log[j + 1];
    }
    if HasMark(log) && !Marks(log[0]) {
      var j :| 0 <= j < |log| && Marks(log[j]);
      assert log[1..][j - 1] == log[j];
    }
    if HasMark(log[1..]) {
      var j :| 0 <= j < |log[1..]| && Marks(log[1..][j]);
      assert log[j + 1] == log[1..][j];
    }
  }

  lemma MovePosition(p: Place, e: Event)
    requires EventOk(e)
    ensures Move(p, e).position == if Marks(e) then MarkPosition(e) else p.position
  {
    hide EventOk, TableOf;
  }

  /** Once off a position, the client does not come back to it. */
  lemma {:induction false} NeverBack(x: Context, p: Place, log: seq<Event>, at: nat, i: nat)
    requires LogOk(x, log) && MarksElsewhere(log, at) && p.position != at && i < |Deliver(x, p, log)|
    ensures Deliver(x, p, log)[i].place.position != at
    decreases |log|
  {
    hide EventOk, LogOk, After, Move, EventFits, MarkPosition, MarksElsewhere, Deliver;
    if log == [] {
      DeliverNone(x, p);
      assert false;
    } else {
      HeadOkay(x, log);
      ElsewhereTail(log, at);
      MovePosition(p, log[0]);
      if i < RowCount(log[0]) {
        HeadRow(x, p, log, i);
      } else {
        LaterRow(x, p, log, i);
        NeverBack(After(x, log[0]), Move(p, log[0]), log[1..], at, i - RowCount(log[0]));
      }
    }
  }

  /** Rows beyond the group stand elsewhere. */
  lemma {:induction false} MovedOn(x: Context, p: Place, log: seq<Event>, i: nat)
    requires LogOk(x, log) && MarksElsewhere(log, p.position)
    requires GroupRows(log) <= i < |Deliver(x, p, log)|
    ensures Deliver(x, p, log)[i].place.position != p.position
    decreases |log|
  {
    hide EventOk, LogOk, After, Move, EventFits, MarkPosition, MarksElsewhere, Deliver;
    if log == [] {
      DeliverNone(x, p);
      assert false;
    } else {
      HeadOkay(x, log);
      ElsewhereTail(log, p.position);
      MovePosition(p, log[0]);
      var x1, p1 := After(x, log[0]), Move(p, log[0]);
      LaterRow(x, p, log, i);
      if Marks(log[0]) {
        NeverBack(x1, p1, log[1..], p.position, i - RowCount(log[0]));
      } else {
        MovedOn(x1, p1, log[1..], i - RowCount(log[0]));
      }
    }
  }

  lemma {:induction false} EndElsewhere(x: Context, p: Place, log: seq<Event>, at: nat)
    requires LogOk(x, log) && MarksElsewhere(log, at) && p.position != at
    ensures End(x, p, log).position != at
    decreases |log|
  {
    if log != [] {
      hide EventOk, LogOk, After, Move, EventFits, MarkPosition, MarksElsewhere;
      HeadOkay(x, log);
      ElsewhereTail(log, at);
      MovePosition(p, log[0]);
      EndElsewhere(After(x, log[0]), Move(p, log[0]), log[1..], at);
    }
  }

  lemma {:induction false} EndMoved(x: Context, p: Place, log: seq<Event>)
    requires LogOk(x, log) && MarksElsewhere(log, p.position)
    ensures End(x, p, log).position != p.position <==> HasMark(log)
    decreases |log|
  {
    if log != [] {
      hide EventOk, LogOk, After, Move, EventFits, MarkPosition, MarksElsewhere, HasMark;
      HeadOkay(x, log);
      ElsewhereTail(log, p.position);
      MovePosition(p, log[0]);
      var x1, p1 := After(x, log[0]), Move(p, log[0]);
      if Marks(log[0]) {
        EndElsewhere(x1, p1, log[1..], p.position);
      } else {
        EndMoved(x1, p1, log[1..]);
      }
    }
  }

  /** Nothing left and nowhere to move: the skip loop runs out and the fetch
      returns NULL. */
  lemma {:induction false} SkipNothing(c: Client, x: Context, p: Place, log: seq<Event>)
    requires Ready(c, x, p, log) && c.Valid() && LogOk(x, log)
    requires Pending(c, x, p, log) == [] && End(x, p, log).position == c.position && c.startidx >= 0
    ensures FetchOne(c).Done? && FetchOne(c).value.0 == Null && FetchOne(c).value.1.err
    decreases c.startidx
  {
    hide FetchRow, Ready, Pending, End, LogOk;
    var x1, p1, log1 := FetchRowSim(c, x, p, log);
    if c.startidx > 0 {
      var f := FetchRow(c).value.1;
      ReadyIgnores(f, x1, p1, log1, c.startidx - 1, f.err);
      var c1 := f.(startidx := c.startidx - 1);
      assert SkipOne(c) == Done((false, c1));
      SkipNothing(c1, x1, p1, log1);
    }
  }

  /** The group is used up but rows remain to be skipped. */
  lemma SkipTooFar(c: Client, x: Context, p: Place, log: seq<Event>, marks: bool)
    requires Ready(c, x, p, log) && c.Valid() && LogOk(x, log) && c.startidx > 0
    requires var all := Pending(c, x, p, log);
             if all == [] then marks <==> End(x, p, log).position != c.position
             else marks && all[0].place.position != c.position
    ensures FetchOne(c).Done? && FetchOne(c).value.0 == (if marks then BadIndex else Null)
    ensures FetchOne(c).value.1.err
  {
    hide FetchRow, Ready, Pending, End, LogOk;
    if Pending(c, x, p, log) == [] && End(x, p, log).position == c.position {
      SkipNothing(c, x, p, log);
    } else {
      var x1, p1, log1 := FetchRowSim(c, x, p, log);
    }
  }

  /** What a log that begins with a table map delivers, as seen from that map:
      its group stands there, later rows do not, and the last position differs
      from it exactly when a later map or rotate exists. */
  lemma FromTableMap(x: Context, q: Place, log: seq<Event>, at: nat)
    requires LogOk(x, log) && log != [] && log[0].TableMapEvent?
    requires EventOk(log[0]) && StartOf(TableOf(log[0])) == at && MarksElsewhere(log[1..], at)
    ensures GroupRows(log[1..]) <= |Deliver(x, q, log)|
    ensures forall i :: 0 <= i < |Deliver(x, q, log)| ==>
              (Deliver(x, q, log)[i].place.position == at <==> i < GroupRows(log[1..]))
    ensures End(x, q, log).position != at <==> HasMark(log[1..])
    ensures GroupRows(log[1..]) < |Deliver(x, q, log)| ==> HasMark(log[1..])
  {
    hide EventOk, LogOk, After, EventFits, MarkPosition, MarksElsewhere, Deliver, GroupRows, TableOf, HasMark;
    HeadOkay(x, log);
    NoRows(x, q, log);
    var x1, p1, rest := After(x, log[0]), Move(q, log[0]), log[1..];
    var g := GroupRows(rest);
    if g > 0 { GroupPlace(x1, p1, rest, g - 1); }
    forall i | 0 <= i < |Deliver(x, q, log)|
      ensures Deliver(x, q, log)[i].place.position == at <==> i < g
    {
      if i < g { GroupPlace(x1, p1, rest, i); } else { MovedOn(x1, p1, rest, i); }
    }
    EndMoved(x1, p1, rest);
    if !NoMark(rest) { NoMarkHas(rest); } else { AllInGroup(x1, p1, rest); }
  }

  predicate NoMark(log: seq<Event>) {
    log == [] || (!Marks(log[0]) && NoMark(log[1..]))
  }

  lemma {:induction false} NoMarkHas(log: seq<Event>)
    requires !NoMark(log)
    ensures HasMark(log)
  {
    if !Marks(log[0]) {
      NoMarkHas(log[1..]);
      var j :| 0 <= j < |log[1..]| && Marks(log[1..][j]);
      assert log[j + 1] == log[1..][j];
    }
  }

  lemma {:induction false} AllInGroup(x: Context, p: Place, log: seq<Event>)
    requires LogOk(x, log) && NoMark(log)
    ensures GroupRows(log) == |Deliver(x, p, log)|
    decreases |log|
  {
    if log != [] {
      hide EventOk, LogOk, After, Move, EventFits, Deliver, Rows;
      HeadOkay(x, log);
      DeliverStep(x, p, log);
      RowsCount(p, log[0]);
      AllInGroup(After(x, log[0]), Move(p, log[0]), log[1..]);
    } else {
      DeliverNone(x, p);
    }
  }

  /** The start-index check. A client started at table map position `at` with
      start index k, all later maps and rotates standing elsewhere: its first
      fetch fails with "Impossible index" exactly when the map's group has
      fewer than k rows and a later map or rotate follows, and returns NULL when
      none does; with at least k rows it skips exactly k. The error flag goes up exactly when
      no row is returned. */
  lemma StartIndexCheck(fde: Event, log: seq<Event>, at: nat, k: nat, logfile: seq<byte>)
    requires LogOk(START, [fde] + log) && fde.FdeEvent? && log != [] && log[0].TableMapEvent?
    requires EventOk(log[0]) && StartOf(TableOf(log[0])) == at && MarksElsewhere(log[1..], at)
    requires k < MAX_INDEX
    ensures var d := Deliver(START, Place(at, 0, logfile, NO_TABLE), [fde] + log);
            var f := FetchOne(Connect(LogBytes(START, [fde] + log), at, k, logfile));
            var group := GroupRows(log[1..]);
            && f.Done? && group <= |d|
            && (f.value.0 == BadIndex <==> group < k && HasMark(log[1..]))
            && (group < k && !HasMark(log[1..]) ==> f.value.0 == Null)
            && (f.value.1.err <==> !f.value.0.Row?)
            && (k <= group ==> f.value.0 == if k < |d| then Row(d[k].row) else Null)
  {
    hide EventOk, LogOk, After, EventFits, Deliver, GroupRows, TableOf, HasMark, LogBytes, FetchOne, FetchNth,
         Ready, Pending, End, MarksElsewhere;
    var q, again := Place(at, 0, logfile, NO_TABLE), [fde] + log;
    var x := Context(fde.hdrlen, None);
    FdeTail(fde, log, q);
    FromTableMap(x, q, log, at);
    StartReady(again, at, k, logfile);
    var c := Connect(LogBytes(START, again), at, k, logfile);
    var group := GroupRows(log[1..]);
    if k <= group {
      var c1, x1, p1, log1 := SkipSim(c, START, q, again, k);
      SameFirstSameAll(c, c1, 0);
      var x2, p2, log2 := NthSim(c1, x1, p1, log1, 0);
      FirstIsZeroth(c1);
    } else {
      var c1, x1, p1, log1 := SkipSim(c, START, q, again, group);
      SkipTooFar(c1, x1, p1, log1, HasMark(log[1..]));
    }
  }

  lemma FirstIsZeroth(c: Client)
    requires c.Valid()
    ensures FetchNth(c, 0) == FetchOne(c)
  {
  }

  lemma FdeTail(fde: Event, log: seq<Event>, q: Place)
    requires LogOk(START, [fde] + log) && fde.FdeEvent?
    ensures LogOk(Context(fde.hdrlen, None), log)
    ensures Deliver(START, q, [fde] + log) == Deliver(Context(fde.hdrlen, None), q, log)
    ensures End(START, q, [fde] + log) == End(Context(fde.hdrlen, None), q, log)
  {
    hide Deliver, End, LogOk, EventOk, Sized;
    HeadOkay(START, [fde] + log);
    assert ([fde] + log)[1..] == log;
    FdeFirst(fde, log, q);
  }

  // ---- Two inputs outside the well-formed logs

  /** A rows event without rows ends the caller's loop in mid-stream: the fetch
      that reads it returns NULL exactly when it carries no row, however many
      events follow. The index is advanced all the same and the error flag left
      alone, so this NULL alone comes without an error. */
  lemma EmptyRowsEvent(c: Client, e: Event, rest: seq<byte>)
    requires c.Valid() && c.cur == |c.rows| && EventOk(e) && Sized(e) && e.RowsEventOf?
    requires c.stream == EventBytes(e) + rest && c.hdrlen == 19 + |e.head.extra| && Describes(c.table, e.def)
    ensures FetchRow(c).Done? && FetchRow(c).value.1.stream == rest
    ensures FetchRow(c).value.0 == None <==> e.rows == []
    ensures FetchRow(c).value.1.index == (c.index + 1) % 0x1_0000_0000 && FetchRow(c).value.1.err == c.err
    ensures FetchRow(c).value.1.position == c.position && |FetchRow(c).value.1.rows| == |e.rows|
  {
    hide EventBytes, EventOk, Sized, NextEvent, ParseRows, Describes, Absorb, Table.Valid, AllImages, RowFrom;
    FrameAt(e, rest);
    KindIsRows(e);
    RowsEventRoundTrip(e, c.table);
    assert ReadOne(c) == Done((GotRows(RowsEventFor(e)), c.(stream := rest)));
  }

  lemma KindIsRows(e: Event)
    requires EventOk(e) && e.RowsEventOf?
    ensures IsRowsType(TypeOf(e))
  {
  }

  /** A rotate read before any format description is parsed at offset 0: the
      position becomes its timestamp and the file name what its bytes from 8 on
      spell, which is nothing with a server id below 2^24. An event longer than
      263 bytes overflows the name's buffer. */
  lemma EarlyRotate(c: Client, e: Event)
    requires c.Valid() && c.hdrlen == 0 && EventOk(e) && Sized(e) && e.RotateEvent?
    ensures |EventBytes(e)| >= 19
    ensures var o := Absorb(c, EventBytes(e));
            if |EventBytes(e)| > 263 then o == Fail(BufferOverflow)
            else o == Done(c.(position := e.head.ts, logfile := CString(EventBytes(e)[8..])))
    ensures e.head.serverid < 0x100_0000 ==> CString(EventBytes(e)[8..]) == []
  {
    hide HeaderBytes, ParseHeader, Body, Le, Enc;
    var ev := EventBytes(e);
    EventParts(e);
    PowValues();
    HeadBytes(ev, e.head);
    LeSplit(ev[0..4], ev[4..8]);
    ScaleValues(Le(ev[4..8]));
    assert ev[0..4] + ev[4..8] == ev[0..8];
    assert ev[8..8 + (|ev| - 8)] == ev[8..];
  }

  lemma HeadBytes(ev: seq<byte>, h: Head)
    requires |ev| >= 19 && HeadOk(h)
    requires ParseHeader(ev).Done? && ParseHeader(ev).value.ts == h.ts && ParseHeader(ev).value.serverid == h.serverid
    requires ParseHeader(ev).value.evlen == |ev|
    ensures Le(ev[0..4]) == h.ts && Le(ev[9..13]) == |ev|
    ensures h.serverid < 0x100_0000 ==> ev[8] == 0
  {
    assert Le(ev[5..9]) == h.serverid;
    LeSplit(ev[5..8], ev[8..9]);
    ScaleValues(Le(ev[8..9]));
    assert ev[5..8] + ev[8..9] == ev[5..9];
    PowValues();
  }

  /** n moved up by k bytes. */
  function Scale(k: nat, n: nat): nat { if k == 0 then n else 256 * Scale(k - 1, n) }

  lemma ScaleValues(n: nat)
    ensures Scale(3, n) == 0x100_0000 * n && Scale(4, n) == TWO32 * n
  {
    assert Scale(0, n) == n;
    assert Scale(1, n) == 256 * n;
    assert Scale(2, n) == 65536 * n;
    assert Scale(3, n) == 0x100_0000 * n;
  }

  lemma {:induction false} LeSplit(s: seq<byte>, t: seq<byte>)
    ensures Le(s + t) == Le(s) + Scale(|s|, Le(t))
  {
    if s == [] {
      assert s + t == t;
    } else {
      assert (s + t)[1..] == s[1..] + t;
      LeSplit(s[1..], t);
    }
  }
}
