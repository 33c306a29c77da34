/**
 * Turning the downloaded sheet into the fund summary
 * (`procesar_excel_y_crear_resumen`): the column guard, the two columns taken
 * by position, the pairing and the removal of rows without a fund name.
 *
 * A sheet is a grid of rows of optional cells, as the spreadsheet reader
 * delivers it; cell values are opaque (type `C`), since the script never
 * computes on them.
 */
module Summary {
  import opened Wrappers

  type Row<C> = seq<Option<C>>
  type Grid<C> = seq<Row<C>>

  /** Column A holds the fund names, column J (position 9) the rates. */
  const NameColumn: nat := 0
  const YieldColumn: nat := 9
  /** A sheet narrower than this has no column J. */
  const MinColumns: nat := 10

  /** A row of the frame built from the two columns, before empty names are dropped. */
  datatype Pair<C> = Pair(name: Option<C>, yieldValue: Option<C>)

  /** A row of the summary: every fund has a name; its yield may be missing. */
  datatype SummaryRow<C> = SummaryRow(fundName: C, yieldValue: Option<C>)

  datatype Extraction<C> = TooFewColumns | Extracted(rows: seq<SummaryRow<C>>)

  /** The number of columns of the frame: the length of the longest row. */
  function Width<C>(grid: Grid<C>): (w: nat)
    ensures forall i :: 0 <= i < |grid| ==> |grid[i]| <= w
    ensures grid == [] ==> w == 0
    ensures grid != [] ==> exists i :: 0 <= i < |grid| && |grid[i]| == w
  {
    if grid == [] then 0
    else
      var rest := Width(grid[1..]);
      assert forall i :: 1 <= i < |grid| ==> grid[i] == grid[1..][i - 1];
      if |grid[0]| >= rest then |grid[0]| else rest
  }

  /** The first row is the header; the data rows are the ones after it. */
  function DataRows<C>(grid: Grid<C>): Grid<C> {
    if grid == [] then [] else grid[1..]
  }

  /** A cell of a short row reads as missing, as the frame pads rows to its width. */
  function Cell<C>(row: Row<C>, j: nat): Option<C> {
    if j < |row| then row[j] else None
  }

  /** `df.iloc[:, j]`. */
  function ColumnAt<C>(rows: Grid<C>, j: nat): seq<Option<C>> {
    seq(|rows|, i requires 0 <= i < |rows| => Cell(rows[i], j))
  }

  /** The two-column frame: the i-th name beside the i-th yield. */
  function Frame<C>(names: seq<Option<C>>, rates: seq<Option<C>>): seq<Pair<C>>
    requires |names| == |rates|
  {
    seq(|names|, i requires 0 <= i < |names| => Pair(names[i], rates[i]))
  }

  /** Number of frame rows whose name is present. */
  function NamedCount<C>(frame: seq<Pair<C>>): nat {
    if frame == [] then 0 else (if frame[0].name.Some? then 1 else 0) + NamedCount(frame[1..])
  }

  /** `dropna(subset=['Nombre_Fondo'])`: keep the rows that have a name, in order. */
  function DropMissingNames<C>(frame: seq<Pair<C>>): (rows: seq<SummaryRow<C>>)
    ensures |rows| == NamedCount(frame)
  {
    if frame == [] then [] else Keep(frame[0]) + DropMissingNames(frame[1..])
  }

  /** One frame row as it survives `dropna`: unchanged with a name, gone without. */
  function Keep<C>(p: Pair<C>): seq<SummaryRow<C>> {
    match p.name
    case Some(n) => [SummaryRow(n, p.yieldValue)]
    case None => []
  }

  /** The whole extraction; the guard comes first, as in the script. */
  function Extract<C>(grid: Grid<C>): (e: Extraction<C>)
    ensures e.TooFewColumns? <==> Width(grid) < MinColumns
    ensures e.Extracted? ==> e.rows == SummaryRows(DataRows(grid))
  {
    if Width(grid) < MinColumns then TooFewColumns
    else Extracted(SummaryRows(DataRows(grid)))
  }

  /** The summary of a list of data rows, as `Extract` builds it once the guard passes. */
  function SummaryRows<C>(data: Grid<C>): seq<SummaryRow<C>> {
    DropMissingNames(Frame(ColumnAt(data, NameColumn), ColumnAt(data, YieldColumn)))
  }

  /** Number of data rows whose column A is present. */
  function NamedRows<C>(data: Grid<C>): nat {
    if data == [] then 0 else (if Cell(data[0], NameColumn).Some? then 1 else 0) + NamedRows(data[1..])
  }

  /** Dropping rows of a concatenation drops them from each part: order is kept. */
  lemma {:induction false} DropMissingNamesAppend<C>(a: seq<Pair<C>>, b: seq<Pair<C>>)
    ensures DropMissingNames(a + b) == DropMissingNames(a) + DropMissingNames(b)
  {
    if a == [] {
      assert a + b == b;
    } else {
      assert (a + b)[0] == a[0];
      assert (a + b)[1..] == a[1..] + b;
      DropMissingNamesAppend(a[1..], b);
      calc {
        DropMissingNames(a + b);
        Keep(a[0]) + DropMissingNames(a[1..] + b);
        Keep(a[0]) + (DropMissingNames(a[1..]) + DropMissingNames(b));
        (Keep(a[0]) + DropMissingNames(a[1..])) + DropMissingNames(b);
      }
    }
  }

  /** A summary row is exactly a frame row whose name is present. */
  lemma {:induction false} DropMissingNamesMembers<C>(frame: seq<Pair<C>>, n: C, y: Option<C>)
    ensures SummaryRow(n, y) in DropMissingNames(frame) <==> Pair(Some(n), y) in frame
  {
    if frame != [] {
      DropMissingNamesMembers(frame[1..], n, y);
      assert frame == [frame[0]] + frame[1..];
    }
  }

  /** The frame of a concatenation of data rows is the concatenation of their frames. */
  lemma FrameAppend<C>(a: Grid<C>, b: Grid<C>)
    ensures Frame(ColumnAt(a + b, NameColumn), ColumnAt(a + b, YieldColumn))
         == Frame(ColumnAt(a, NameColumn), ColumnAt(a, YieldColumn))
          + Frame(ColumnAt(b, NameColumn), ColumnAt(b, YieldColumn))
  {
  }

  /**
   * The summary of data rows `a` then `b` is the summary of `a` then that of
   * `b`: rows keep their relative order.
   */
  lemma SummaryRowsAppend<C>(a: Grid<C>, b: Grid<C>)
    ensures SummaryRows(a + b) == SummaryRows(a) + SummaryRows(b)
  {
    FrameAppend(a, b);
    DropMissingNamesAppend(Frame(ColumnAt(a, NameColumn), ColumnAt(a, YieldColumn)),
                           Frame(ColumnAt(b, NameColumn), ColumnAt(b, YieldColumn)));
  }

  /**
   * A single data row becomes one summary row, its column A beside its
   * column J, when column A is present, and disappears otherwise, even when
   * column J has a value.
   */
  lemma SummaryRowsSingle<C>(row: Row<C>)
    ensures SummaryRows([row]) == match Cell(row, NameColumn)
      case Some(n) => [SummaryRow(n, Cell(row, YieldColumn))]
      case None => []
  {
    var frame := Frame(ColumnAt([row], NameColumn), ColumnAt([row], YieldColumn));
    assert frame == [Pair(Cell(row, NameColumn), Cell(row, YieldColumn))];
    assert frame[1..] == [];
  }

  /** The first data row is summarised on its own, before the others. */
  lemma SummaryRowsCons<C>(data: Grid<C>)
    requires data != []
    ensures SummaryRows(data) == (match Cell(data[0], NameColumn)
      case Some(n) => [SummaryRow(n, Cell(data[0], YieldColumn))]
      case None => []) + SummaryRows(data[1..])
  {
    assert data == [data[0]] + data[1..];
    SummaryRowsAppend([data[0]], data[1..]);
    SummaryRowsSingle(data[0]);
  }

  /** The summary has one row per data row with a fund name. */
  lemma {:induction false} SummaryRowsCount<C>(data: Grid<C>)
    ensures |SummaryRows(data)| == NamedRows(data)
  {
    if data != [] {
      SummaryRowsCons(data);
      SummaryRowsCount(data[1..]);
    }
  }

  /**
   * Once the sheet has at least ten columns, the summary holds exactly the
   * data rows that have a fund name, each paired with the same row's column
   * J, and there are as many as such rows.
   */
  lemma ExtractedRows<C>(grid: Grid<C>, n: C, y: Option<C>)
    requires Width(grid) >= MinColumns
    ensures Extract(grid).Extracted?
    ensures |Extract(grid).rows| == NamedRows(DataRows(grid))
    ensures SummaryRow(n, y) in Extract(grid).rows <==>
      exists i :: 0 <= i < |DataRows(grid)|
        && Cell(DataRows(grid)[i], NameColumn) == Some(n) && Cell(DataRows(grid)[i], YieldColumn) == y
  {
    var data := DataRows(grid);
    var frame := Frame(ColumnAt(data, NameColumn), ColumnAt(data, YieldColumn));
    SummaryRowsCount(data);
    DropMissingNamesMembers(frame, n, y);
    if Pair(Some(n), y) in frame {
      var i :| 0 <= i < |frame| && frame[i] == Pair(Some(n), y);
      assert Cell(data[i], NameColumn) == Some(n) && Cell(data[i], YieldColumn) == y;
    }
    if exists i :: 0 <= i < |data| && Cell(data[i], NameColumn) == Some(n) && Cell(data[i], YieldColumn) == y {
      var i :| 0 <= i < |data| && Cell(data[i], NameColumn) == Some(n) && Cell(data[i], YieldColumn) == y;
      assert frame[i] == Pair(Some(n), y);
    }
  }

  /**
   * Twelve columns, a header and five data rows, the third without a fund
   * name: the summary is rows 1, 2, 4 and 5 with their names and rates.
   */
  lemma FiveRowSheet<C>(header: Row<C>, r1: Row<C>, r2: Row<C>, r3: Row<C>, r4: Row<C>, r5: Row<C>)
    requires |header| == |r1| == |r2| == |r3| == |r4| == |r5| == 12
    requires r1[0].Some? && r2[0].Some? && r3[0].None? && r4[0].Some? && r5[0].Some?
    ensures Extract([header, r1, r2, r3, r4, r5]) == Extracted([
      SummaryRow(r1[0].value, r1[9]), SummaryRow(r2[0].value, r2[9]),
      SummaryRow(r4[0].value, r4[9]), SummaryRow(r5[0].value, r5[9])])
  {
    var grid := [header, r1, r2, r3, r4, r5];
    assert |grid[0]| == 12;
    var d1 := DataRows(grid);
    assert d1 == [r1, r2, r3, r4, r5];
    var d2, d3, d4, d5 := d1[1..], d1[2..], d1[3..], d1[4..];
    assert d1[0] == r1 && d2[0] == r2 && d3[0] == r3 && d4[0] == r4 && d5[0] == r5;
    assert d2[1..] == d3 && d3[1..] == d4 && d4[1..] == d5 && d5[1..] == [];
    SummaryRowsCons(d1);
    SummaryRowsCons(d2);
    SummaryRowsCons(d3);
    SummaryRowsCons(d4);
    SummaryRowsCons(d5);
    assert SummaryRows(d5) == [SummaryRow(r5[0].value, r5[9])];
    assert SummaryRows(d4) == [SummaryRow(r4[0].value, r4[9]), SummaryRow(r5[0].value, r5[9])];
    assert SummaryRows(d3) == SummaryRows(d4);
  }
}
