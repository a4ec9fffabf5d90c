/** The caller's loop: connect at the start of a file and fetch until NULL. */
module Dump {
  import opened Bits
  import opened Events
  import EventCodec
  import opened ClientSpec
  import opened LibBinlog
  import opened Delivery
  import opened Runs
  import opened FileResume

  function RowsOf(d: seq<Delivered>): (r: seq<BinlogRow>)
    ensures |r| == |d|
  {
    seq(|d|, i requires 0 <= i < |d| => d[i].row)
  }

  lemma RowsOfCons(d: seq<Delivered>)
    requires |d| > 0
    ensures RowsOf(d) == [d[0].row] + RowsOf(d[1..])
  {
  }

  /** One fetch of a client that skips nothing. */
  lemma FetchesHead(c: Client, x: Context, p: Place, log: seq<EventCodec.Event>)
    returns (x': Context, p': Place, log': seq<EventCodec.Event>)
    requires Ready(c, x, p, log) && c.startidx == 0
    ensures c.Valid() && LogOk(x, log) && LogOk(x', log')
    ensures var f := FetchOne(c); var all := Pending(c, x, p, log);
            && f.Done? && f.value.1.startidx == 0 && Ready(f.value.1, x', p', log')
            && f.value.1.err == (c.err || all == [])
            && if all == [] then f.value.0 == Null && Pending(f.value.1, x', p', log') == []
               else f.value.0 == Row(all[0].row) && Pending(f.value.1, x', p', log') == all[1..]
  {
    hide FetchRow, Ready, Pending, End, LogOk;
    x', p', log' := FetchRowSim(c, x, p, log);
  }

  /** The object-level run over the bytes of a file: the loop ends, no fault
      occurs, the rows collected are exactly those of the log, and the error flag
      is up, as it is at every end of a source. */
  method DumpFile(file: seq<byte>, logfile: seq<byte>, ghost log: seq<EventCodec.Event>)
    returns (rows: seq<BinlogRow>, err: bool)
    requires LogOk(START, log) && file == MAGIC + LogBytes(START, log)
    ensures rows == RowsOf(Deliver(START, Place(4, 0, logfile, NO_TABLE), log))
    ensures err
  {
    hide LogOk, LogBytes, Deliver, FetchOne, Ready, Pending;
    rows := [];
    var bc := new BinlogClient.ConnectDataSource(file, 4, 4, 0, logfile);
    ghost var x, p, rest := START, Place(4, 0, logfile, NO_TABLE), log;
    ghost var all := Deliver(START, p, log);
    assert file[4..] == LogBytes(START, log);
    StartReady(log, 4, 0, logfile);
    ghost var left := all;
    var more := true;
    while more
      invariant bc.Valid() && bc.Apart() && fresh(bc) && fresh(bc.binlog) && fresh(bc.ds) && fresh(bc.ds.buf)
      invariant bc.rowsBuf != null ==> fresh(bc.rowsBuf)
      invariant Ready(bc.Abs(), x, p, rest) && bc.startidx == 0
      invariant LogOk(x, rest) && left == Pending(bc.Abs(), x, p, rest)
      invariant rows + RowsOf(left) == RowsOf(all)
      invariant !more ==> left == [] && bc.err
      decreases more, |left|
    {
      ghost var was := left;
      x, p, rest := FetchesHead(bc.Abs(), x, p, rest);
      var r := bc.FetchOne();
      left := Pending(bc.Abs(), x, p, rest);
      match r.value {
        case Row(row) =>
          RowsOfCons(was);
          rows := rows + [row];
        case _ =>
          more := false;
      }
    }
    err := bc.err;
  }
}
