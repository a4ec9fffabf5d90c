/** A smallest log with rows, laid out as a file: the conditions the theorems
    on whole runs ask for can be met. */
module Sample {
  import opened Bits
  import opened Wire
  import Cells
  import opened Events
  import opened CellCodec
  import opened EventCodec
  import opened Delivery
  import opened Runs
  import opened FileResume

  function HeadTo(nextpos: nat): Head { Head(1, 1, nextpos, 0, []) }

  function Server(): (s: seq<byte>)
    ensures |s| == 50
  {
    seq(50, _ => 0)
  }

  const DEF := TableDef(7, [100], [116], [Column(Cells.TINY, 0)])

  const PRESENT := Present([true], 0, [true], 255)

  const FDE := FdeEvent(HeadTo(80), 19, 4, Server(), 0, [])
  const MAP := TableMapEvent(HeadTo(116), DEF, [0, 0], [])
  const ROWS := RowsEventOf(HeadTo(148), 23, DEF, [0, 0], PRESENT,
                            [RowChange([Some(Int(-5))], [], 0x55, 0), RowChange([None], [], 0xAA, 0)])

  lemma EventsFit()
    ensures EventFits(START, FDE)
    ensures EventFits(Context(19, None), MAP)
    ensures EventFits(Context(19, Some(DEF)), ROWS)
    ensures |EventBytes(FDE)| == 76 && |EventBytes(MAP)| == 36 && |EventBytes(ROWS)| == 32
  {
    FdeFits();
    MapFits();
    RowsFit();
  }

  lemma FdeFits()
    ensures EventFits(START, FDE) && |EventBytes(FDE)| == 76
  {
  }

  lemma MapFits()
    ensures EventFits(Context(19, None), MAP) && |EventBytes(MAP)| == 36
  {
    DefSize();
    hide DefBytes;
    assert |Body(MAP)| == 17;
  }

  lemma DefSize()
    ensures DefOk(DEF) && |DefBytes(DEF, [0, 0])| == 17
  {
    var d := DEF;
    assert MetaTo(d.columns, 1) == [];
  }

  lemma RowsFit()
    ensures EventFits(Context(19, Some(DEF)), ROWS) && |EventBytes(ROWS)| == 32
  {
    ImageSizes();
    var cols, rows := DEF.columns, ROWS.rows;
    assert rows[1..][1..] == [];
    assert RowsBytes(cols, 23, rows[1..][1..], PRESENT) == [];
    assert |RowsBytes(cols, 23, rows[1..], PRESENT)| == 1;
    assert |RowsBytes(cols, 23, rows, PRESENT)| == 3;
    assert |Body(ROWS)| == 13;
  }

  /** -5 takes a bitmap byte and a value byte, NULL a bitmap byte. */
  lemma ImageSizes()
    ensures var cols := DEF.columns; var rows := ROWS.rows;
            && ChangeFits(cols, 23, rows[0]) && ChangeFits(cols, 23, rows[1])
            && |ChangeBytes(cols, 23, rows[0], PRESENT)| == 2
            && |ChangeBytes(cols, 23, rows[1], PRESENT)| == 1
  {
    var cols, rows := DEF.columns, ROWS.rows;
    var r0, r1 := Shown(rows[0].row, [true]), Shown(rows[1].row, [true]);
    assert r0 == rows[0].row && r1 == rows[1].row;
    assert ValuesTo(cols, r0, 0) == [] && ValuesTo(cols, r1, 0) == [];
    assert |ValueBytes(cols[0], r0[0])| == 1;
    assert |ImageBytes(cols, rows[0].row, [true], 0x55)| == 2;
    assert |ImageBytes(cols, rows[1].row, [true], 0xAA)| == 1;
  }

  /** The log is well-formed, its headers say where its events end in a file,
      and it delivers two rows. */
  lemma SampleLog(logfile: seq<byte>)
    ensures var log := [FDE, MAP, ROWS];
            && LogOk(START, log) && LaidOut(START, log, 4)
            && |Deliver(START, Place(4, 0, logfile, NO_TABLE), log)| == 2
  {
    hide EventFits, EventBytes, Deliver;
    EventsFit();
    var log := [FDE, MAP, ROWS];
    assert log[1..] == [MAP, ROWS] && [MAP, ROWS][1..] == [ROWS] && [ROWS][1..] == [];
    assert LogOk(Context(19, Some(DEF)), [ROWS]);
    assert LogOk(Context(19, None), [MAP, ROWS]);
    assert LogOk(START, log);
    assert LaidOut(Context(19, Some(DEF)), [ROWS], 116);
    assert LaidOut(Context(19, None), [MAP, ROWS], 80);
    DeliverCount(START, Place(4, 0, logfile, NO_TABLE), log);
    assert CountTo([ROWS], 1) == 2;
    assert CountTo([MAP, ROWS], 2) == 2;
  }
}
