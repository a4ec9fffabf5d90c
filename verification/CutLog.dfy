/** A log cut off at any byte: the rows of its complete events are still
    delivered, then the run ends or stops at the incomplete event. */
module CutLog {
  import opened Bits
  import opened Wire
  import opened Events
  import opened EventCodec
  import opened ClientSpec
  import opened Delivery
  import opened Runs
  import opened Resume

  // ---- More bytes behind those a fetch reads change nothing

  function Longer(c: Client, t: seq<byte>): Client { c.(stream := c.stream + t) }

  lemma FrameExtends(s: seq<byte>, t: seq<byte>)
    requires NextEvent(s).Done? && NextEvent(s).value.Framed?
    ensures NextEvent(s + t) == Done(Framed(NextEvent(s).value.ev, NextEvent(s).value.rest + t))
  {
    hide Le;
    assert (s + t)[9..13] == s[9..13];
    var ev := NextEvent(s).value.ev;
    assert (s + t)[..|ev|] == ev && (s + t)[|ev|..] == s[|ev|..] + t;
  }

  lemma AbsorbStream(c: Client, ev: seq<byte>, s: seq<byte>)
    requires c.Valid() && |ev| >= 19
    ensures var o := Absorb(c, ev);
            Absorb(c.(stream := s), ev) == if o.Done? then Done(o.value.(stream := s)) else o
  {
    hide ParseFDE, ParseTableMap, ParseRotate, CString;
  }

  lemma ReadOneExtends(c: Client, t: seq<byte>)
    requires c.Valid() && ReadOne(c).Done? && !ReadOne(c).value.0.Ended?
    ensures ReadOne(Longer(c, t)) == Done((ReadOne(c).value.0, Longer(ReadOne(c).value.1, t)))
  {
    hide NextEvent, Absorb, ParseRows, IsRowsType;
    FrameExtends(c.stream, t);
    var f := NextEvent(c.stream).value;
    AbsorbStream(c.(stream := f.rest), f.ev, f.rest + t);
  }

  lemma {:induction false} GetExtends(c: Client, t: seq<byte>)
    requires c.Valid() && GetRowsEvent(c).Done? && GetRowsEvent(c).value.0.Some?
    ensures GetRowsEvent(Longer(c, t)) == Done((GetRowsEvent(c).value.0, Longer(GetRowsEvent(c).value.1, t)))
    decreases |c.stream|
  {
    hide ReadOne;
    ReadOneExtends(c, t);
    if ReadOne(c).value.0.Skipped? {
      GetExtends(ReadOne(c).value.1, t);
    }
  }

  lemma RowExtends(c: Client, t: seq<byte>)
    requires c.Valid() && FetchRow(c).Done? && FetchRow(c).value.0.Some?
    ensures FetchRow(Longer(c, t)) == Done((FetchRow(c).value.0, Longer(FetchRow(c).value.1, t)))
  {
    hide GetRowsEvent, BufferOf;
    if c.cur == |c.rows| {
      GetExtends(c, t);
    }
  }

  lemma FetchExtends(c: Client, t: seq<byte>)
    requires c.Valid() && c.startidx == 0 && FetchOne(c).Done? && FetchOne(c).value.0.Row?
    ensures FetchOne(Longer(c, t)) == Done((FetchOne(c).value.0, Longer(FetchOne(c).value.1, t)))
  {
    hide FetchRow;
    RowExtends(c, t);
  }

  lemma {:induction false} NthExtends(c: Client, t: seq<byte>, n: nat)
    requires c.Valid() && c.startidx == 0
    requires forall j :: 0 <= j <= n ==>
               FetchNth(c, j).Done? && FetchNth(c, j).value.0.Row? && FetchNth(c, j).value.1.startidx == 0
    ensures FetchNth(Longer(c, t), n) == Done((FetchNth(c, n).value.0, Longer(FetchNth(c, n).value.1, t)))
  {
    hide FetchOne;
    if n == 0 {
      assert FetchNth(c, 0).value.0.Row?;
      FetchExtends(c, t);
    } else {
      NthExtends(c, t, n - 1);
      assert FetchNth(c, n - 1).value.1.startidx == 0 && FetchNth(c, n).value.0.Row?;
      FetchExtends(FetchNth(c, n - 1).value.1, t);
    }
  }

  // ---- What the incomplete event does

  /** An event cut inside its body is noticed nowhere in the source; its bytes
      are indeterminate. */
  lemma CutFrame(e: Event, k: nat)
    requires EventOk(e) && Sized(e) && 19 <= k < |EventBytes(e)|
    ensures NextEvent(EventBytes(e)[..k]) == Fail(CutShort)
  {
    hide EventBytes, Body, HeadOk, HeaderBytes, Le;
    EventParts(e);
    var ev := EventBytes(e);
    EvlenBytes(ev);
    assert ev[..k][9..13] == ev[9..13];
    PowValues();
  }

  /** How the source ends on the bytes that are left. */
  ghost predicate EndsOn(o: Outcome<(Option<RowsEvent>, Client)>, t: seq<byte>) {
    if |t| < 19 then o.Done? && o.value.0.None? && o.value.1.stream == [] && o.value.1.err else o == Fail(CutShort)
  }

  /** A client at the end of its source, with nothing buffered. */
  ghost predicate Over(c: Client) {
    c.Valid() && c.stream == [] && c.cur == |c.rows| && c.startidx == 0
  }

  lemma OverStays(c: Client)
    requires Over(c)
    ensures FetchOne(c).Done? && FetchOne(c).value.0 == Null && Over(FetchOne(c).value.1)
    ensures FetchOne(c).value.1.err
  {
    AtEnd(c);
    hide ReadOne;
    assert GetRowsEvent(c).value.0.None? && GetRowsEvent(c).value.1.stream == [] && GetRowsEvent(c).value.1.err;
  }

  lemma {:induction false} NullForEver(c: Client, m: nat)
    requires Over(c)
    ensures FetchNth(c, m).Done? && FetchNth(c, m).value.0 == Null && Over(FetchNth(c, m).value.1)
    ensures FetchNth(c, m).value.1.err
  {
    hide FetchOne, Over;
    OverValid(c);
    if m == 0 {
      OverStays(c);
    } else {
      NullForEver(c, m - 1);
      OverStays(FetchNth(c, m - 1).value.1);
    }
  }

  lemma OverValid(c: Client)
    requires Over(c)
    ensures c.Valid()
  {
  }

  lemma EndsHere(c: Client, t: seq<byte>)
    requires c.Valid() && c.stream == [] && (|t| < 19 || NextEvent(t) == Fail(CutShort))
    ensures EndsOn(GetRowsEvent(Longer(c, t)), t)
  {
    hide Le;
    assert Longer(c, t).stream == t;
  }

  lemma {:induction false} GetEnds(c: Client, x: Context, p: Place, log: seq<Event>, t: seq<byte>)
    requires Ready(c, x, p, log) && c.cur == |c.rows| && c.Valid() && LogOk(x, log) && Deliver(x, p, log) == []
    requires |t| < 19 || NextEvent(t) == Fail(CutShort)
    ensures EndsOn(GetRowsEvent(Longer(c, t)), t)
    decreases |log|
  {
    hide NextEvent, EndsOn, Deliver, EventFits, ReadOne, Move, After, Ready;
    if log == [] {
      StreamEmpty(c, x, p);
      EndsHere(c, t);
    } else {
      NoRowsFirst(x, p, log);
      var c1 := ReadsOn(c, x, p, log);
      ReadOneExtends(c, t);
      GetEnds(c1, After(x, log[0]), Move(p, log[0]), log[1..], t);
    }
  }

  lemma StreamEmpty(c: Client, x: Context, p: Place)
    requires Ready(c, x, p, [])
    ensures c.Valid() && c.stream == []
  {
  }

  lemma NoRowsFirst(x: Context, p: Place, log: seq<Event>)
    requires LogOk(x, log) && log != [] && Deliver(x, p, log) == []
    ensures !log[0].RowsEventOf?
  {
    hide EventOk, Sized, Move, After, Deliver;
    HeadOkay(x, log);
    DeliverStep(x, p, log);
    RowsCount(p, log[0]);
  }

  /** A client with nothing left to deliver, on the bytes that are left. */
  lemma FetchEnds(c: Client, x: Context, p: Place, log: seq<Event>, t: seq<byte>)
    requires Ready(c, x, p, log) && c.Valid() && LogOk(x, log) && c.startidx == 0
    requires Pending(c, x, p, log) == [] && (|t| < 19 || NextEvent(t) == Fail(CutShort))
    ensures var f := FetchOne(Longer(c, t));
            if |t| < 19 then f.Done? && f.value.0 == Null && Over(f.value.1) && f.value.1.err else f == Fail(CutShort)
  {
    hide NextEvent, Deliver, GetRowsEvent, Ready, LogOk;
    assert |c.rows[c.cur..]| == 0;
    GetEnds(c, x, p, log, t);
  }

  // ---- The first events of a log

  /** The log's first i events: well-formed, a prefix of its bytes, and the
      first of its deliveries. */
  lemma {:induction false} FirstEvents(x: Context, p: Place, log: seq<Event>, i: nat)
    requires LogOk(x, log) && i <= |log|
    ensures LogOk(x, log[..i]) && LogOk(ContextAt(x, log, i), log[i..])
    ensures LogBytes(x, log) == LogBytes(x, log[..i]) + LogBytes(ContextAt(x, log, i), log[i..])
    ensures CountTo(log, i) <= |Deliver(x, p, log)|
    ensures Deliver(x, p, log[..i]) == Deliver(x, p, log)[..CountTo(log, i)]
    decreases i
  {
    hide EventFits, EventOk, Move, After, Rows, Deliver, RowCount, ContextAt, CountTo, LogBytes, LogOk;
    if i == 0 {
      NoEvents(x, p, log);
    } else {
      StepBack(x, p, log, i);
      var e, rest := log[0], log[1..];
      FirstEvents(After(x, e), Move(p, e), rest, i - 1);
      PrefixStep(x, p, log, i);
      DeliverStep(x, p, log);
      DeliverStep(x, p, log[..i]);
      RowsCount(p, e);
      TakeBoth(Rows(p, e), Deliver(After(x, e), Move(p, e), rest), CountTo(rest, i - 1));
      BytesStep(x, log);
      BytesStep(x, log[..i]);
    }
  }

  lemma TakeBoth<T>(a: seq<T>, b: seq<T>, k: nat)
    requires k <= |b|
    ensures (a + b)[..|a| + k] == a + b[..k]
  {
  }

  lemma NoEvents(x: Context, p: Place, log: seq<Event>)
    requires LogOk(x, log)
    ensures log[..0] == [] && log[0..] == log && LogOk(x, []) && LogBytes(x, []) == [] && ContextAt(x, log, 0) == x
    ensures Deliver(x, p, []) == [] && CountTo(log, 0) == 0
  {
  }

  lemma PrefixStep(x: Context, p: Place, log: seq<Event>, i: nat)
    requires LogOk(x, log) && 0 < i <= |log| && LogOk(After(x, log[0]), log[1..][..i - 1])
    ensures log[..i][0] == log[0] && log[..i][1..] == log[1..][..i - 1] && LogOk(x, log[..i])
  {
    hide EventFits, After;
  }

  lemma BytesStep(x: Context, log: seq<Event>)
    requires LogOk(x, log) && log != []
    ensures EventOk(log[0]) && LogOk(After(x, log[0]), log[1..])
    ensures LogBytes(x, log) == EventBytes(log[0]) + LogBytes(After(x, log[0]), log[1..])
  {
    hide EventOk, Sized, After, EventBytes;
  }

  // ---- Cut at any byte

  /** The event in which byte b falls. */
  lemma {:induction false} CutPoint(x: Context, log: seq<Event>, b: nat) returns (i: nat, k: nat)
    requires LogOk(x, log) && b < |LogBytes(x, log)|
    ensures i < |log| && LogOk(x, log[..i]) && EventOk(log[i]) && Sized(log[i]) && k < |EventBytes(log[i])|
    ensures b == |LogBytes(x, log[..i])| + k
    ensures LogBytes(x, log)[..b] == LogBytes(x, log[..i]) + EventBytes(log[i])[..k]
    decreases |log|
  {
    hide *;
    var p := Place(0, 0, [], NO_TABLE);
    NoEvents(x, p, log);
    if log == [] {
      assert false;
    }
    BytesStep(x, log);
    var ev, rest := EventBytes(log[0]), LogBytes(After(x, log[0]), log[1..]);
    if b < |ev| {
      i, k := 0, b;
      FirstSized(x, log);
    } else {
      var j, l := CutPoint(After(x, log[0]), log[1..], b - |ev|);
      i, k := j + 1, l;
      PrefixStep(x, p, log, i);
      BytesStep(x, log[..i]);
      assert (ev + rest)[..b] == ev + rest[..b - |ev|];
    }
  }

  lemma FirstSized(x: Context, log: seq<Event>)
    requires LogOk(x, log) && log != []
    ensures EventOk(log[0]) && Sized(log[0])
  {
    hide EventOk, Sized, After;
  }

  /** A cut log, all its fetches up to the end. With i complete events the
      fetches return their rows, each once, in order, with the checkpoints of
      the whole log; all later ones return NULL if less than a header is left,
      and otherwise the next one goes on with indeterminate bytes. */
  lemma CutAtByte(log: seq<Event>, b: nat, position: nat, logfile: seq<byte>, n: nat) returns (i: nat, k: nat)
    requires LogOk(START, log) && b < |LogBytes(START, log)|
    ensures i < |log| && LogOk(START, log[..i]) && EventOk(log[i])
    ensures b == |LogBytes(START, log[..i])| + k && k < |EventBytes(log[i])|
    ensures var all := Deliver(START, Place(position, 0, logfile, NO_TABLE), log);
            var f := FetchNth(Connect(LogBytes(START, log)[..b], position, 0, logfile), n);
            && CountTo(log, i) <= |all|
            && (n < CountTo(log, i) ==>
                 f.Done? && f.value.0 == Row(all[n].row) && PlaceOf(f.value.1) == all[n].place && !f.value.1.err)
            && (n >= CountTo(log, i) && k < 19 ==> f.Done? && f.value.0 == Null && f.value.1.err)
            && (n == CountTo(log, i) && k >= 19 ==> f == Fail(CutShort))
  {
    hide *;
    i, k := CutPoint(START, log, b);
    var p := Place(position, 0, logfile, NO_TABLE);
    FirstEvents(START, p, log, i);
    var t := EventBytes(log[i])[..k];
    if k >= 19 { CutFrame(log[i], k); }
    var first := log[..i];
    LongerConnect(LogBytes(START, first), t, position, logfile);
    if n < CountTo(log, i) {
      PrefixRun(first, position, logfile, n, t);
    } else {
      PrefixEnd(first, position, logfile, CountTo(log, i), t);
      if k < 19 { PrefixNulls(first, position, logfile, n, t); }
    }
  }

  lemma LongerConnect(s: seq<byte>, t: seq<byte>, position: nat, logfile: seq<byte>)
    ensures Longer(Connect(s, position, 0, logfile), t) == Connect(s + t, position, 0, logfile)
  {
  }

  lemma PrefixNulls(log: seq<Event>, position: nat, logfile: seq<byte>, n: nat, t: seq<byte>)
    requires LogOk(START, log) && |t| < 19
    requires |Deliver(START, Place(position, 0, logfile, NO_TABLE), log)| <= n
    ensures var f := FetchNth(Longer(Connect(LogBytes(START, log), position, 0, logfile), t), n);
            f.Done? && f.value.0 == Null && f.value.1.err
  {
    hide *;
    Fits32();
    var count := |Deliver(START, Place(position, 0, logfile, NO_TABLE), log)|;
    PrefixEnd(log, position, logfile, count, t);
    if n > count {
      var c := Longer(Connect(LogBytes(START, log), position, 0, logfile), t);
      LongerValid(Connect(LogBytes(START, log), position, 0, logfile), t);
      NullForEver(FetchNth(c, count).value.1, n - count - 1);
      NthAfter(c, count, n - count - 1);
    }
  }

  lemma LongerValid(c: Client, t: seq<byte>)
    requires c.Valid()
    ensures Longer(c, t).Valid()
  {
  }

  /** The run over a whole log is also the run over the log and more bytes. */
  lemma PrefixRun(log: seq<Event>, position: nat, logfile: seq<byte>, n: nat, t: seq<byte>)
    requires LogOk(START, log)
    requires n < |Deliver(START, Place(position, 0, logfile, NO_TABLE), log)|
    ensures var all := Deliver(START, Place(position, 0, logfile, NO_TABLE), log);
            var c := Connect(LogBytes(START, log), position, 0, logfile);
            var f := FetchNth(Longer(c, t), n);
            && FetchNth(c, n).Done? && FetchNth(c, n).value.0.Row?
            && f == Done((FetchNth(c, n).value.0, Longer(FetchNth(c, n).value.1, t)))
            && f.value.0 == Row(all[n].row) && PlaceOf(f.value.1) == all[n].place && !f.value.1.err
  {
    hide LogOk, LogBytes, Deliver, FetchNth, Ready, Pending, End;
    var p := Place(position, 0, logfile, NO_TABLE);
    var c := Connect(LogBytes(START, log), position, 0, logfile);
    StartReady(log, position, 0, logfile);
    forall j | 0 <= j <= n
      ensures FetchNth(c, j).Done? && FetchNth(c, j).value.0.Row? && FetchNth(c, j).value.1.startidx == 0
    {
      var x', p', log' := NthSim(c, START, p, log, j);
    }
    NthExtends(c, t, n);
    EndToEnd(log, position, logfile, n);
  }

  lemma PrefixEnd(log: seq<Event>, position: nat, logfile: seq<byte>, n: nat, t: seq<byte>)
    requires LogOk(START, log) && (|t| < 19 || NextEvent(t) == Fail(CutShort))
    requires n == |Deliver(START, Place(position, 0, logfile, NO_TABLE), log)|
    ensures var f := FetchNth(Longer(Connect(LogBytes(START, log), position, 0, logfile), t), n);
            if |t| < 19 then f.Done? && f.value.0 == Null && Over(f.value.1) && f.value.1.err else f == Fail(CutShort)
  {
    hide LogOk, LogBytes, Deliver, FetchOne, Ready, Pending, End, NextEvent;
    var p := Place(position, 0, logfile, NO_TABLE);
    var c := Connect(LogBytes(START, log), position, 0, logfile);
    StartReady(log, position, 0, logfile);
    if n == 0 {
      FetchEnds(c, START, p, log, t);
    } else {
      PrefixRun(log, position, logfile, n - 1, t);
      var x', p', log' := NthSim(c, START, p, log, n - 1);
      FetchEnds(FetchNth(c, n - 1).value.1, x', p', log', t);
    }
  }
}
