/** Resuming inside one log file: the checkpoint's position is the byte offset
    of its table map. */
module FileResume {
  import opened Bits
  import opened Events
  import opened EventCodec
  import opened TableCodec
  import opened ClientSpec
  import opened Delivery
  import opened Runs
  import opened Resume

  const MAGIC: seq<byte> := [0xFE, 0x62, 0x69, 0x6E]

  /** Every event's header says where it ends; the first starts at `at`. */
  predicate LaidOut(x: Context, log: seq<Event>, at: nat)
    requires LogOk(x, log)
    decreases |log|
  {
    log == []
    || (&& log[0].head.nextpos == at + |EventBytes(log[0])|
        && LaidOut(After(x, log[0]), log[1..], at + |EventBytes(log[0])|))
  }

  lemma LaidOutStep(x: Context, log: seq<Event>, at: nat)
    requires LogOk(x, log) && log != [] && LaidOut(x, log, at)
    ensures EventOk(log[0]) && Sized(log[0]) && LogOk(After(x, log[0]), log[1..])
    ensures log[0].head.nextpos == at + |EventBytes(log[0])| < TWO32
    ensures LaidOut(After(x, log[0]), log[1..], at + |EventBytes(log[0])|)
    ensures LogBytes(x, log) == EventBytes(log[0]) + LogBytes(After(x, log[0]), log[1..])
  {
    hide EventBytes, After, Sized, Body, DefOk;
    HeadOkay(x, log);
  }

  /** The file from the start of event g on is the encoding of the log from g,
      and a table map's position is that offset. */
  lemma {:induction false} OffsetOf(x: Context, log: seq<Event>, at: nat, before: seq<byte>, g: nat)
    returns (o: nat)
    requires LogOk(x, log) && LaidOut(x, log, at) && |before| == at && g < |log|
    ensures LogOk(ContextAt(x, log, g), log[g..]) && EventOk(log[g])
    ensures var file := before + LogBytes(x, log);
            && o <= |file| && file[o..] == LogBytes(ContextAt(x, log, g), log[g..])
            && (log[g].TableMapEvent? ==> StartOf(TableOf(log[g])) == o)
    decreases g
  {
    hide EventBytes, LogOk, EventOk, Sized, LaidOut, EventFits, After, LogBytes;
    DropOk(x, log, g);
    LaidOutStep(x, log, at);
    var b, rest := EventBytes(log[0]), LogBytes(After(x, log[0]), log[1..]);
    var file := before + LogBytes(x, log);
    if g == 0 {
      o := at;
      assert log[0..] == log;
      assert file[at..] == LogBytes(x, log);
      if log[0].TableMapEvent? { StartOffset(log[0], at); }
    } else {
      assert before + b + rest == file;
      o := OffsetOf(After(x, log[0]), log[1..], at + |b|, before + b, g - 1);
      assert log[1..][g - 1..] == log[g..];
    }
  }

  lemma StartOffset(e: Event, at: nat)
    requires EventOk(e) && e.TableMapEvent? && e.head.nextpos == at + |EventBytes(e)| < TWO32
    ensures StartOf(TableOf(e)) == at
  {
    hide EventBytes, EventOk;
  }

  /** Resume over one file: the fresh client's source sends a format
      description and then the file from byte offset `position` on. */
  lemma ResumeInFile(log: seq<Event>, logfile: seq<byte>, n: nat, g: nat, fde: Event, m: nat)
    requires LogOk(START, log) && LaidOut(START, log, 4)
    requires Governs(START, Place(4, 0, logfile, NO_TABLE), log, n, g) && n + 1 - CountTo(log, g) < MAX_INDEX
    requires fde.FdeEvent? && EventFits(START, fde)
    requires forall i :: 0 <= i < |log| ==> log[i].FdeEvent? ==> log[i].hdrlen == fde.hdrlen
    ensures var file := MAGIC + LogBytes(START, log);
            var f := FetchNth(Connect(file[4..], 4, 0, logfile), n);
            && f.Done? && f.value.0.Row?
            && var c1 := f.value.1;
               && c1.position <= |file|
               && EventOk(fde)
               && var c2 := Connect(EventBytes(fde) + file[c1.position..], c1.position, c1.index, c1.logfile);
                  SameFetch(FetchNth(c2, m), FetchNth(Connect(file[4..], 4, 0, logfile), n + 1 + m))
  {
    hide LogOk, LogBytes, Deliver, FetchNth, CountTo, GroupRows, EventFits, ContextAt, SameFetch, TableOf,
         EventOk, LaidOut, EventBytes;
    var p := Place(4, 0, logfile, NO_TABLE);
    var file := MAGIC + LogBytes(START, log);
    assert file[4..] == LogBytes(START, log);
    EndToEnd(log, 4, logfile, n);
    HdrlenAt(START, log, g, fde.hdrlen);
    FdeOk(fde);
    ResumeExact(log, 4, logfile, n, g, fde, m);
    var o := OffsetOf(START, log, 4, MAGIC, g);
    assert o == StartOf(TableOf(log[g]));
    RestOfLog(log, p, g, fde, Place(o, 0, PlaceAt(START, p, log, g).logfile, NO_TABLE));
  }

  lemma FdeOk(fde: Event)
    requires EventFits(START, fde)
    ensures EventOk(fde)
  {
    hide EventOk, Sized;
  }

  /** In front of a table map the header length is the log's one. */
  lemma {:induction false} HdrlenAt(x: Context, log: seq<Event>, g: nat, hdrlen: nat)
    requires LogOk(x, log) && g < |log| && log[g].TableMapEvent?
    requires x.hdrlen == 0 || x.hdrlen == hdrlen
    requires forall i :: 0 <= i < |log| ==> log[i].FdeEvent? ==> log[i].hdrlen == hdrlen
    ensures ContextAt(x, log, g).hdrlen == hdrlen
    decreases g
  {
    if g > 0 {
      hide EventFits, LogOk;
      HeadOkay(x, log);
      assert log[1..][g - 1] == log[g];
      HdrlenAt(After(x, log[0]), log[1..], g - 1, hdrlen);
    } else {
      hide EventOk, Sized, LogOk;
      HeadOkay(x, log);
    }
  }
}
