/** Starting again from a checkpoint: the skip loop of fetchOne, exact
    resumption and its limit. */
module Resume {
  import opened Bits
  import opened Wire
  import opened Events
  import opened EventCodec
  import opened TableCodec
  import opened ClientSpec
  import opened Delivery
  import opened Runs

  // ---- The skip loop

  lemma ReadyIgnores(c: Client, x: Context, p: Place, log: seq<Event>, startidx: int, err: bool)
    requires Ready(c, x, p, log) && -MAX_INDEX <= startidx < MAX_INDEX
    ensures var d := c.(startidx := startidx, err := err);
            Ready(d, x, p, log) && Pending(d, x, p, log) == Pending(c, x, p, log) && PlaceOf(d) == PlaceOf(c)
  {
    hide LogOk, LogBytes, Deliver, RowsCodec.Describes, Numbered;
  }

  /** k rows at the client's own position are skipped without complaint. */
  lemma {:induction false} SkipSim(c: Client, x: Context, p: Place, log: seq<Event>, k: nat)
    returns (c': Client, x': Context, p': Place, log': seq<Event>)
    requires Ready(c, x, p, log) && c.Valid() && LogOk(x, log)
    requires k <= c.startidx && k <= |Pending(c, x, p, log)|
    requires forall i :: 0 <= i < k ==> Pending(c, x, p, log)[i].place.position == c.position
    ensures c'.Valid() && LogOk(x', log') && Ready(c', x', p', log')
    ensures FetchOne(c) == FetchOne(c') && c'.startidx == c.startidx - k
    ensures Pending(c', x', p', log') == Pending(c, x, p, log)[k..]
    ensures c'.position == c.position && c'.err == c.err
    ensures End(x', p', log').position == End(x, p, log).position
    ensures End(x', p', log').logfile == End(x, p, log).logfile
    decreases k
  {
    hide FetchRow, Ready, Pending, End, LogOk;
    if k == 0 {
      c', x', p', log' := c, x, p, log;
    } else {
      ghost var all := Pending(c, x, p, log);
      var x1, p1, log1 := FetchRowSim(c, x, p, log);
      var f := FetchRow(c).value.1;
      var c1 := f.(startidx := c.startidx - 1);
      ReadyIgnores(f, x1, p1, log1, c.startidx - 1, f.err);
      assert all[0].place.position == c.position;
      assert SkipOne(c) == Done((false, c1));
      c', x', p', log' := SkipSim(c1, x1, p1, log1, k - 1);
      assert all[1..][k - 1..] == all[k..];
    }
  }

  lemma {:induction false} SameFirstSameAll(c: Client, d: Client, m: nat)
    requires c.Valid() && d.Valid() && FetchOne(c) == FetchOne(d)
    ensures FetchNth(c, m) == FetchNth(d, m)
  {
    hide FetchOne;
    if m > 0 { SameFirstSameAll(c, d, m - 1); }
  }

  lemma {:induction false} NthAfter(c: Client, n: nat, m: nat)
    requires c.Valid() && FetchNth(c, n).Done?
    ensures FetchNth(c, n + 1 + m) == FetchNth(FetchNth(c, n).value.1, m)
  {
    hide FetchOne;
    if m > 0 { NthAfter(c, n, m - 1); }
  }

  // ---- Resuming

  /** A log that begins with a table map needs nothing of its past but the
      header length and, for the checkpoints, the file name. */
  lemma SameStart(x: Context, y: Context, p: Place, q: Place, log: seq<Event>)
    requires log != [] && log[0].TableMapEvent? && LogOk(x, log)
    requires x.hdrlen == y.hdrlen && p.logfile == q.logfile
    ensures LogOk(y, log) && LogBytes(y, log) == LogBytes(x, log)
    ensures Deliver(y, q, log) == Deliver(x, p, log) && End(y, q, log) == End(x, p, log)
  {
    hide EventOk, Sized, TableOf, EventBytes;
  }

  /** The format description in front delivers nothing. */
  lemma FdeFirst(fde: Event, log: seq<Event>, p: Place)
    requires fde.FdeEvent? && EventFits(START, fde) && LogOk(Context(fde.hdrlen, None), log)
    ensures LogOk(START, [fde] + log)
    ensures LogBytes(START, [fde] + log) == EventBytes(fde) + LogBytes(Context(fde.hdrlen, None), log)
    ensures Deliver(START, p, [fde] + log) == Deliver(Context(fde.hdrlen, None), p, log)
    ensures End(START, p, [fde] + log) == End(Context(fde.hdrlen, None), p, log)
  {
    hide EventOk, Sized, EventBytes;
    var all := [fde] + log;
    assert all[0] == fde && all[1..] == log;
    assert After(START, fde) == Context(fde.hdrlen, None);
    assert Rows(p, fde) == [];
  }

  /** What the log from table map g delivers, for a fresh client behind `fde`. */
  lemma RestOfLog(log: seq<Event>, p: Place, g: nat, fde: Event, q: Place)
    requires LogOk(START, log) && g < |log| && log[g].TableMapEvent?
    requires fde.FdeEvent? && EventFits(START, fde) && fde.hdrlen == ContextAt(START, log, g).hdrlen
    requires q.logfile == PlaceAt(START, p, log, g).logfile
    ensures LogOk(START, [fde] + log[g..])
    ensures LogOk(ContextAt(START, log, g), log[g..])
    ensures LogBytes(START, [fde] + log[g..])
         == EventBytes(fde) + LogBytes(ContextAt(START, log, g), log[g..])
    ensures CountTo(log, g) <= |Deliver(START, p, log)|
    ensures Deliver(START, q, [fde] + log[g..]) == Deliver(START, p, log)[CountTo(log, g)..]
    ensures End(START, q, [fde] + log[g..]) == End(START, p, log)
  {
    hide LogOk, Deliver, End, EventFits, PlaceAt, ContextAt, CountTo, LogBytes;
    var x, pg := ContextAt(START, log, g), PlaceAt(START, p, log, g);
    DeliverDrop(START, p, log, g);
    EndDrop(START, p, log, g);
    SameStart(x, Context(fde.hdrlen, None), pg, q, log[g..]);
    FdeFirst(fde, log[g..], q);
  }

  /** The rows of the group of a leading table map stand at that map. */
  lemma GroupPosition(x: Context, p: Place, log: seq<Event>, i: nat)
    requires LogOk(x, log) && log != [] && log[0].TableMapEvent? && i < GroupRows(log[1..])
    ensures EventOk(log[0])
    ensures i < |Deliver(x, p, log)|
    ensures Deliver(x, p, log)[i].place.position == StartOf(TableOf(log[0]))
    ensures Deliver(x, p, log)[i].place.index == Ordinal(0, i + 1)
  {
    hide LogOk, EventOk, TableOf, Deliver, GroupRows, EventFits;
    HeadOkay(x, log);
    NoRows(x, p, log);
    GroupPlace(After(x, log[0]), Move(p, log[0]), log[1..], i);
  }

  ghost predicate SameFetch(a: Outcome<(FetchResult, Client)>, b: Outcome<(FetchResult, Client)>) {
    && a.Done? && b.Done? && a.value.0 == b.value.0
    && a.value.1.position == b.value.1.position
    && a.value.1.index == b.value.1.index
    && a.value.1.logfile == b.value.1.logfile
    && a.value.1.err == b.value.1.err
  }

  /** Two clients with the same rows still to come answer every fetch alike. */
  lemma SameFuture(c: Client, x: Context, p: Place, log: seq<Event>,
                   d: Client, y: Context, q: Place, rest: seq<Event>, m: nat)
    requires Ready(c, x, p, log) && Ready(d, y, q, rest) && c.startidx == d.startidx == 0 && c.err == d.err
    requires c.Valid() && d.Valid() && LogOk(x, log) && LogOk(y, rest)
    requires Pending(c, x, p, log) == Pending(d, y, q, rest)
    requires End(x, p, log).position == End(y, q, rest).position
    requires End(x, p, log).logfile == End(y, q, rest).logfile
    ensures SameFetch(FetchNth(c, m), FetchNth(d, m))
  {
    hide Ready, Pending, End, FetchNth, LogOk;
    var x1, p1, log1 := NthSim(c, x, p, log, m);
    var y1, q1, rest1 := NthSim(d, y, q, rest, m);
  }

  /** The fresh client's first fetch skips its k rows and goes on. */
  lemma FreshSkips(again: seq<Event>, position: nat, k: nat, logfile: seq<byte>)
    returns (c': Client, x': Context, p': Place, log': seq<Event>)
    requires LogOk(START, again)
    requires var all := Deliver(START, Place(position, 0, logfile, NO_TABLE), again);
             && k <= |all| && k < MAX_INDEX && forall i :: 0 <= i < k ==> all[i].place.position == position
    ensures var q := Place(position, 0, logfile, NO_TABLE);
            var c := Connect(LogBytes(START, again), position, k, logfile);
            && c'.Valid() && LogOk(x', log') && Ready(c', x', p', log')
            && FetchOne(c) == FetchOne(c') && c'.startidx == 0 && !c'.err
            && Pending(c', x', p', log') == Deliver(START, q, again)[k..]
            && End(x', p', log').position == End(START, q, again).position
            && End(x', p', log').logfile == End(START, q, again).logfile
  {
    hide LogOk, LogBytes, Deliver, End, Ready, Pending, FetchOne;
    StartReady(again, position, k, logfile);
    var q := Place(position, 0, logfile, NO_TABLE);
    c', x', p', log' := SkipSim(Connect(LogBytes(START, again), position, k, logfile), START, q, again, k);
  }

  /** The checkpoint after the n-th fetch, as a caller reads it. */
  lemma CheckpointAt(log: seq<Event>, position: nat, logfile: seq<byte>, n: nat, g: nat)
    requires LogOk(START, log) && Governs(START, Place(position, 0, logfile, NO_TABLE), log, n, g)
    ensures var p := Place(position, 0, logfile, NO_TABLE);
            var f := FetchNth(Connect(LogBytes(START, log), position, 0, logfile), n);
            && g < |log| && log[g].TableMapEvent? && EventOk(log[g])
            && n < |Deliver(START, p, log)| && CountTo(log, g) <= n
            && f.Done? && f.value.0.Row? && !f.value.1.err
            && f.value.1.position == StartOf(TableOf(log[g]))
            && f.value.1.logfile == PlaceAt(START, p, log, g).logfile
            && f.value.1.index < TWO32 && f.value.1.index <= n + 1 - CountTo(log, g)
            && (n + 1 - CountTo(log, g) < TWO32 ==> f.value.1.index == n + 1 - CountTo(log, g))
  {
    hide *;
    EndToEnd(log, position, logfile, n);
    GovernsPlace(START, Place(position, 0, logfile, NO_TABLE), log, n, g);
    PlaceParts(FetchNth(Connect(LogBytes(START, log), position, 0, logfile), n).value.1);
    OrdinalSmall(n + 1 - CountTo(log, g));
  }

  lemma PlaceParts(c: Client)
    ensures PlaceOf(c) == Place(c.position, c.index, c.logfile, c.table)
  {
  }

  lemma OrdinalSmall(k: nat)
    ensures Ordinal(0, k) < TWO32 && Ordinal(0, k) <= k
    ensures k < TWO32 ==> Ordinal(0, k) == k
  {
  }

  lemma IndexFits(k: nat)
    requires k < MAX_INDEX
    ensures 0 < TWO32 && k < TWO32
  {
  }

  lemma FreshStart(stream: seq<byte>, position: nat, logfile: seq<byte>)
    ensures Connect(stream, position, 0, logfile).startidx == 0 && !Connect(stream, position, 0, logfile).err
  {
    PowValues();
  }

  /** Resume is exact. After the n-th fetch of a run from the start, governed
      by table map g, a fresh client started at the checkpoint, over a source
      that sends a format description and then the log from g on, returns on
      its m-th fetch what the original returns on its (n + 1 + m)-th, fetches
      being counted from 0: the same row, or NULL, with the same position,
      index and file name. */
  lemma ResumeExact(log: seq<Event>, position: nat, logfile: seq<byte>, n: nat, g: nat, fde: Event, m: nat)
    requires LogOk(START, log)
    requires var p := Place(position, 0, logfile, NO_TABLE);
             Governs(START, p, log, n, g) && n + 1 - CountTo(log, g) < MAX_INDEX
    requires fde.FdeEvent? && EventFits(START, fde) && fde.hdrlen == ContextAt(START, log, g).hdrlen
    ensures LogOk(START, [fde] + log[g..])
    ensures var f := FetchNth(Connect(LogBytes(START, log), position, 0, logfile), n);
            && f.Done?
            && var c1 := f.value.1;
               var c2 := Connect(LogBytes(START, [fde] + log[g..]), c1.position, c1.index, c1.logfile);
               SameFetch(FetchNth(c2, m), FetchNth(Connect(LogBytes(START, log), position, 0, logfile), n + 1 + m))
  {
    hide *;
    var p := Place(position, 0, logfile, NO_TABLE);
    CheckpointAt(log, position, logfile, n, g);
    IndexFits(n + 1 - CountTo(log, g));
    var c0 := Connect(LogBytes(START, log), position, 0, logfile);
    FreshStart(LogBytes(START, log), position, logfile);
    StartReady(log, position, 0, logfile);
    var x1, p1, log1 := NthSim(c0, START, p, log, n);
    var c1 := FetchNth(c0, n).value.1;
    var q := Place(c1.position, 0, c1.logfile, NO_TABLE);
    var k, again := c1.index, [fde] + log[g..];
    RestOfLog(log, p, g, fde, q);
    GroupStays(log, p, n, g, fde, q);
    var c2, x2, p2, log2 := FreshSkips(again, c1.position, k, c1.logfile);
    ResumeTail(Deliver(START, p, log), CountTo(log, g), n);
    SameFuture(c2, x2, p2, log2, c1, x1, p1, log1, m);
    SameFirstSameAll(Connect(LogBytes(START, again), c1.position, k, c1.logfile), c2, m);
    NthAfter(c0, n, m);
  }

  /** A negative start index is counted further down until the position moves
      or the number leaves its type: no row and no NULL is ever returned. */
  lemma {:induction false} NegativeIndex(c: Client)
    requires c.Valid() && c.startidx < 0
    ensures FetchOne(c).Done? ==> FetchOne(c).value.0 == BadIndex
    decreases c.startidx + MAX_INDEX
  {
    hide FetchRow;
    if SkipOne(c).Done? && !SkipOne(c).value.0 {
      NegativeIndex(SkipOne(c).value.1);
    }
  }

  lemma LargeIndexNegative(stream: seq<byte>, position: nat, index: nat, logfile: seq<byte>)
    requires index < TWO32
    ensures Connect(stream, position, index, logfile).startidx < 0 <==> index >= MAX_INDEX
  {
    PowValues();
  }

  /** Every fetch of c is that of d, n fetches on. */
  ghost predicate Repeats(c: Client, d: Client, n: nat)
    requires c.Valid() && d.Valid()
  {
    forall m: nat :: SameFetch(FetchNth(c, m), FetchNth(d, n + m))
  }

  lemma RepeatsAt(c: Client, d: Client, n: nat, m: nat)
    requires c.Valid() && d.Valid() && Repeats(c, d, n)
    ensures SameFetch(FetchNth(c, m), FetchNth(d, n + m))
  {
    hide SameFetch, FetchNth;
  }

  lemma NotRepeated(c: Client, d: Client, n: nat) returns (m: nat)
    requires c.Valid() && d.Valid() && !Repeats(c, d, n)
    ensures !SameFetch(FetchNth(c, m), FetchNth(d, n + m))
  {
    hide SameFetch, FetchNth;
    m :| !SameFetch(FetchNth(c, m), FetchNth(d, n + m));
  }

  /** A checkpoint whose counter has wrapped has a small index again: fewer
      rows are skipped than were delivered, so when the original has come to
      its end the resumed run still has a row. */
  lemma WrappedReplays(log: seq<Event>, position: nat, logfile: seq<byte>, n: nat, g: nat, fde: Event)
    returns (m: nat)
    requires LogOk(START, log) && Governs(START, Place(position, 0, logfile, NO_TABLE), log, n, g)
    requires fde.FdeEvent? && EventFits(START, fde) && fde.hdrlen == ContextAt(START, log, g).hdrlen
    ensures LogOk(START, [fde] + log[g..])
    ensures var c0 := Connect(LogBytes(START, log), position, 0, logfile);
            && FetchNth(c0, n).Done?
            && var c1 := FetchNth(c0, n).value.1;
               var c2 := Connect(LogBytes(START, [fde] + log[g..]), c1.position, c1.index, c1.logfile);
               CountTo(log, g) + c1.index < n + 1 && c1.index < MAX_INDEX
               ==> !SameFetch(FetchNth(c2, m), FetchNth(c0, n + 1 + m))
  {
    hide *;
    var p := Place(position, 0, logfile, NO_TABLE);
    CheckpointAt(log, position, logfile, n, g);
    Fits32();
    var c0 := Connect(LogBytes(START, log), position, 0, logfile);
    FreshStart(LogBytes(START, log), position, logfile);
    StartReady(log, position, 0, logfile);
    var all := Deliver(START, p, log);
    m := |all| - n - 1;
    var x1, p1, log1 := NthSim(c0, START, p, log, n + 1 + m);
    var c1 := FetchNth(c0, n).value.1;
    var q := Place(c1.position, 0, c1.logfile, NO_TABLE);
    var k, again := c1.index, [fde] + log[g..];
    RestOfLog(log, p, g, fde, q);
    GroupStays(log, p, n, g, fde, q);
    if CountTo(log, g) + k < n + 1 && k < MAX_INDEX {
      var c2, x2, p2, log2 := FreshSkips(again, c1.position, k, c1.logfile);
      var x3, p3, log3 := NthSim(c2, x2, p2, log2, m);
      SameFirstSameAll(Connect(LogBytes(START, again), c1.position, k, c1.logfile), c2, m);
      RowIsNotNull(FetchNth(c2, m), FetchNth(c0, n + 1 + m));
    }
  }

  lemma Fits32()
    ensures 0 < TWO32
  {
  }

  lemma RowIsNotNull(a: Outcome<(FetchResult, Client)>, b: Outcome<(FetchResult, Client)>)
    requires a.Done? && a.value.0.Row? && b.Done? && b.value.0 == Null
    ensures !SameFetch(a, b)
  {
  }

  /** The limit of resuming, for every row of every run: the resumed run
      repeats the original on every later fetch exactly when the row is less
      than 2^31 rows into its group. */
  lemma ResumeLimit(log: seq<Event>, position: nat, logfile: seq<byte>, n: nat, g: nat, fde: Event)
    requires LogOk(START, log) && Governs(START, Place(position, 0, logfile, NO_TABLE), log, n, g)
    requires fde.FdeEvent? && EventFits(START, fde) && fde.hdrlen == ContextAt(START, log, g).hdrlen
    ensures LogOk(START, [fde] + log[g..])
    ensures var c0 := Connect(LogBytes(START, log), position, 0, logfile);
            && FetchNth(c0, n).Done?
            && var c1 := FetchNth(c0, n).value.1;
               var c2 := Connect(LogBytes(START, [fde] + log[g..]), c1.position, c1.index, c1.logfile);
               Repeats(c2, c0, n + 1) <==> n + 1 - CountTo(log, g) < MAX_INDEX
  {
    hide *;
    var p := Place(position, 0, logfile, NO_TABLE);
    CheckpointAt(log, position, logfile, n, g);
    Fits32();
    var w := WrappedReplays(log, position, logfile, n, g, fde);
    var c0 := Connect(LogBytes(START, log), position, 0, logfile);
    var c1 := FetchNth(c0, n).value.1;
    var c2 := Connect(LogBytes(START, [fde] + log[g..]), c1.position, c1.index, c1.logfile);
    if n + 1 - CountTo(log, g) < MAX_INDEX {
      if !Repeats(c2, c0, n + 1) {
        var m := NotRepeated(c2, c0, n + 1);
        ResumeExact(log, position, logfile, n, g, fde, m);
      }
    } else if c1.index >= MAX_INDEX {
      FreshStart(LogBytes(START, log), position, logfile);
      StartReady(log, position, 0, logfile);
      var x2, p2, log2 := NthSim(c0, START, p, log, n + 1);
      LargeIndexNegative(LogBytes(START, [fde] + log[g..]), c1.position, c1.index, c1.logfile);
      NegativeIndex(c2);
      NotSame(c2, FetchNth(c0, n + 1));
      if Repeats(c2, c0, n + 1) { RepeatsAt(c2, c0, n + 1, 0); }
    } else {
      if Repeats(c2, c0, n + 1) { RepeatsAt(c2, c0, n + 1, w); }
    }
  }

  lemma NotSame(c: Client, b: Outcome<(FetchResult, Client)>)
    requires c.Valid() && (FetchOne(c).Done? ==> FetchOne(c).value.0 == BadIndex)
    requires b.Done? ==> b.value.0 != BadIndex
    ensures !SameFetch(FetchNth(c, 0), b)
  {
    hide FetchOne;
  }

  lemma ResumeTail<T>(all: seq<T>, before: nat, n: nat)
    requires before <= n < |all|
    ensures all[before..][n + 1 - before..] == all[n + 1..]
  {
  }

  /** The rows a resumed client skips all stand at the checkpoint's position. */
  lemma GroupStays(log: seq<Event>, p: Place, n: nat, g: nat, fde: Event, q: Place)
    requires LogOk(START, log) && Governs(START, p, log, n, g)
    requires fde.FdeEvent? && EventFits(START, fde) && fde.hdrlen == ContextAt(START, log, g).hdrlen
    requires q.logfile == PlaceAt(START, p, log, g).logfile
    ensures LogOk(START, [fde] + log[g..])
    ensures var d := Deliver(START, q, [fde] + log[g..]);
            && n + 1 - CountTo(log, g) <= |d|
            && forall i :: 0 <= i < n + 1 - CountTo(log, g) ==> d[i].place.position == StartOf(TableOf(log[g]))
  {
    hide LogOk, Deliver, End, LogBytes, CountTo, GroupRows, EventFits, PlaceAt, ContextAt, TableOf, EventOk;
    RestOfLog(log, p, g, fde, q);
    var b := log[g..];
    SameStart(ContextAt(START, log, g), Context(fde.hdrlen, None), q, q, b);
    FdeFirst(fde, b, q);
    assert b[0] == log[g] && b[1..] == log[g + 1..];
    forall i | 0 <= i < n + 1 - CountTo(log, g)
      ensures Deliver(START, q, [fde] + b)[i].place.position == StartOf(TableOf(log[g]))
    {
      GroupPosition(Context(fde.hdrlen, None), q, b, i);
    }
  }
}
