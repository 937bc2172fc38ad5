/** What a scan emits, said of the grid of rows and columns instead of the loops over it. */
module RowGrid {
  import opened Wrappers
  import opened Versions
  import opened Values
  import opened MetricMaps
  import opened Evaluator
  import Builtin

  // ---- The grid ----

  /** Cell `r * columns + c` is that of row `r` and column `c`. */
  lemma {:induction false} CellAt(scan: RawScan, rows: seq<seq<DBValue>>, r: nat, c: nat)
    requires AllReady(scan, rows) && r < |rows| && c < |scan.columns|
    ensures |Cells(scan, rows)| == |rows| * |scan.columns|
    ensures Position(scan, r, c) < |Cells(scan, rows)|
    ensures Cells(scan, rows)[Position(scan, r, c)] == EvalCell(scan, rows[r], c)
  {
    var m := |rows| - 1;
    CellCount(scan, rows);
    CellCount(scan, rows[..m]);
    if r < m {
      CellAt(scan, rows[..m], r, c);
    }
  }

  function Position(scan: RawScan, r: nat, c: nat): nat {
    r * |scan.columns| + c
  }

  lemma {:induction false} CellCount(scan: RawScan, rows: seq<seq<DBValue>>)
    requires AllReady(scan, rows)
    ensures |Cells(scan, rows)| == |rows| * |scan.columns|
  {
    if rows != [] {
      CellCount(scan, rows[..|rows| - 1]);
      assert |rows| * |scan.columns| == (|rows| - 1) * |scan.columns| + |scan.columns|;
    }
  }

  /** Every position of the grid is that of one row and one column. */
  lemma {:induction false} CellOf(scan: RawScan, rows: seq<seq<DBValue>>, k: nat) returns (r: nat, c: nat)
    requires AllReady(scan, rows) && k < |Cells(scan, rows)|
    ensures r < |rows| && c < |scan.columns| && k == Position(scan, r, c)
    ensures Cells(scan, rows)[k] == EvalCell(scan, rows[r], c)
  {
    var m := |rows| - 1;
    CellCount(scan, rows[..m]);
    if k < |Cells(scan, rows[..m])| {
      r, c := CellOf(scan, rows[..m], k);
    } else {
      r, c := m, k - m * |scan.columns|;
    }
  }

  // ---- Filtering keeps order and loses nothing ----

  function Dropped(cells: seq<Cell>): nat {
    if cells == [] then 0
    else Dropped(cells[..|cells| - 1]) + if cells[|cells| - 1].Drop? then 1 else 0
  }

  /** Each cell is emitted, reported or dropped. */
  lemma {:induction false} NothingIsLost(cells: seq<Cell>)
    ensures |Emitted(cells)| + |Reported(cells)| + Dropped(cells) == |cells|
  {
    if cells != [] {
      NothingIsLost(cells[..|cells| - 1]);
    }
  }

  /** The number of metrics emitted before position `k`. */
  ghost function Rank(cells: seq<Cell>, k: nat): nat
    requires k <= |cells|
  {
    |Emitted(cells[..k])|
  }

  lemma {:induction false} EmittedAtRank(cells: seq<Cell>, k: nat)
    requires k < |cells| && cells[k].Emit?
    ensures Rank(cells, k) < |Emitted(cells)| && Emitted(cells)[Rank(cells, k)] == cells[k].metric
  {
    var n := |cells| - 1;
    if k < n {
      assert cells[..n][..k] == cells[..k];
      EmittedAtRank(cells[..n], k);
    }
  }

  lemma {:induction false} EmittedFromCell(cells: seq<Cell>, i: nat) returns (k: nat)
    requires i < |Emitted(cells)|
    ensures k < |cells| && cells[k].Emit? && Rank(cells, k) == i && Emitted(cells)[i] == cells[k].metric
  {
    var n := |cells| - 1;
    if i < |Emitted(cells[..n])| {
      k := EmittedFromCell(cells[..n], i);
      assert cells[..n][..k] == cells[..k];
    } else {
      k := n;
    }
  }

  lemma {:induction false} RankIsMonotone(cells: seq<Cell>, j: nat, k: nat)
    requires j < k <= |cells| && cells[j].Emit?
    ensures Rank(cells, j) < Rank(cells, k)
  {
    EmittedAtRank(cells[..k], j);
    assert cells[..k][..j] == cells[..j];
  }

  // ---- The scan of one result set ----

  /** A value is sent exactly when it converts and its column is unknown or not discarded. */
  ghost predicate Sends(scan: RawScan, data: seq<DBValue>, c: nat)
    requires Ready(scan, data) && c < |scan.columns|
  {
    !IsDropped(scan, c) && DBToFloat64(scan.num, data[c]).1
  }

  ghost function SentMetric(scan: RawScan, data: seq<DBValue>, c: nat): Metric
    requires Ready(scan, data) && c < |scan.columns| && !IsDropped(scan, c)
  {
    RawMetric.Metric(CellDesc(scan, c), CellType(scan, c), DBToFloat64(scan.num, data[c]).0, RowLabels(scan, data))
  }

  /** When a value is sent and what its metric is, said of the mapping: the descriptor and type of its column, or those of
      an unknown column; the value it reads as; and each label's own value. */
  lemma SentMetricIs(scan: RawScan, data: seq<DBValue>, c: nat)
    requires Ready(scan, data) && c < |scan.columns|
    ensures var column, mappings := scan.columns[c], scan.mapping.columnMappings;
            && (Sends(scan, data, c) <==> (column in mappings ==> !mappings[column].discard) && DBToFloat64(scan.num, data[c]).1)
            && (Sends(scan, data, c) ==>
                  var m := SentMetric(scan, data, c);
                  && m.value == DBToFloat64(scan.num, data[c]).0
                  && (column in mappings ==> mappings[column].desc == Some(m.desc) && m.vtype == mappings[column].vtype)
                  && (column !in mappings ==>
                        && m.vtype == UntypedValue
                        && m.desc == Desc(scan.namespace + "_" + column, "Unknown metric from " + scan.namespace,
                                          scan.mapping.labels, scan.serverLabels))
                  && forall i | 0 <= i < |scan.mapping.labels| ::
                       m.labelValues[i] == DBToString(scan.num, data[ColumnIndex(scan.columns, scan.mapping.labels[i])]).0)
  {
  }

  /** A value that is neither discarded nor converts leaves an error that names its column; a known column's error tells
      the value too. */
  lemma ReportedErrorIs(scan: RawScan, data: seq<DBValue>, c: nat)
    requires Ready(scan, data) && c < |scan.columns|
    ensures var column, mappings := scan.columns[c], scan.mapping.columnMappings;
            (column in mappings ==> !mappings[column].discard) && !DBToFloat64(scan.num, data[c]).1 <==>
            EvalCell(scan, data, c) == Report(if column in mappings then UnexpectedColumn(scan.namespace, column, data[c])
                                              else UnparseableColumn(scan.namespace, column))
  {
  }

  /** The errors of a scan are exactly those. */
  lemma {:induction false} ReportedAre(cells: seq<Cell>)
    ensures forall e :: e in Reported(cells) <==> Report(e) in cells
  {
    if cells != [] {
      var n := |cells| - 1;
      ReportedAre(cells[..n]);
      assert cells == cells[..n] + [cells[n]];
    }
  }

  /** The rows a scan evaluates: those its loop reads before one cannot be read. */
  ghost function EvaluatedRows(rows: seq<Row>): seq<seq<DBValue>> {
    ReadablePrefix(LoopRows(rows))
  }

  /** What is sent for those rows. */
  ghost function Sent(scan: RawScan, data: seq<seq<DBValue>>): seq<Metric>
    requires AllReady(scan, data)
  {
    Emitted(Cells(scan, data))
  }

  /** The place a sent value takes among the metrics. */
  ghost function Place(scan: RawScan, data: seq<seq<DBValue>>, r: nat, c: nat): nat
    requires AllReady(scan, data) && r < |data| && c < |scan.columns|
  {
    CellAt(scan, data, r, c);
    Rank(Cells(scan, data), Position(scan, r, c))
  }

  /** Every sendable value of the evaluated rows is sent, at its place. */
  lemma EverySendableValueIsSent(scan: RawScan, data: seq<seq<DBValue>>, r: nat, c: nat)
    requires AllReady(scan, data) && r < |data| && c < |scan.columns| && Sends(scan, data[r], c)
    ensures Place(scan, data, r, c) < |Sent(scan, data)|
    ensures Sent(scan, data)[Place(scan, data, r, c)] == SentMetric(scan, data[r], c)
  {
    CellAt(scan, data, r, c);
    EmittedAtRank(Cells(scan, data), Position(scan, r, c));
  }

  /** Places follow rows, and columns within a row. */
  lemma PlacesFollowTheGrid(scan: RawScan, data: seq<seq<DBValue>>, r: nat, c: nat, r': nat, c': nat)
    requires AllReady(scan, data) && r < |data| && r' < |data| && c < |scan.columns| && c' < |scan.columns|
    requires Sends(scan, data[r], c) && (r < r' || (r == r' && c < c'))
    ensures Place(scan, data, r, c) < Place(scan, data, r', c')
  {
    CellAt(scan, data, r, c);
    CellAt(scan, data, r', c');
    PositionsAreLexicographic(scan, r, c, r', c');
    RankIsMonotone(Cells(scan, data), Position(scan, r, c), Position(scan, r', c'));
  }

  lemma PositionsAreLexicographic(scan: RawScan, r: nat, c: nat, r': nat, c': nat)
    requires c < |scan.columns| && c' < |scan.columns| && (r < r' || (r == r' && c < c'))
    ensures Position(scan, r, c) < Position(scan, r', c')
  {
    if r < r' {
      assert r' * |scan.columns| >= (r + 1) * |scan.columns|;
    }
  }

  /** Nothing else is sent. */
  lemma EverySentMetricHasItsValue(scan: RawScan, data: seq<seq<DBValue>>, i: nat) returns (r: nat, c: nat)
    requires AllReady(scan, data) && i < |Sent(scan, data)|
    ensures r < |data| && c < |scan.columns| && Sends(scan, data[r], c)
    ensures Sent(scan, data)[i] == SentMetric(scan, data[r], c) && Place(scan, data, r, c) == i
  {
    var k := EmittedFromCell(Cells(scan, data), i);
    r, c := CellOf(scan, data, k);
  }

  /** A scan that ends well has read every row of its loop; metrics, reported errors and discarded values
      add up to their values. */
  lemma CompletedScanConserves(scan: RawScan, rows: seq<Row>)
    requires AllReady(scan, EvaluatedRows(rows))
    ensures var result, data := ReadRows(scan, LoopRows(rows)), EvaluatedRows(rows);
            && (result.fatal == None <==> |data| == |LoopRows(rows)|)
            && result.metrics == Sent(scan, data)
            && (result.fatal == None ==>
                  |result.metrics| + |result.errors| + Dropped(Cells(scan, data)) == |LoopRows(rows)| * |scan.columns|)
  {
    var data := EvaluatedRows(rows);
    NothingIsLost(Cells(scan, data));
    CellCount(scan, data);
  }

  /** A row that cannot be read is fatal. It leaves exactly the metrics a scan of the rows before it sends,
      and none of the errors noted in them. */
  lemma FatalScanKeepsEarlierRows(scan: RawScan, rows: seq<Row>, k: nat)
    requires rows != [] && 0 < k < |rows| && rows[k].Unreadable? && forall i | 0 < i < k :: rows[i].Values?
    requires AllReady(scan, EvaluatedRows(rows)) && AllReady(scan, EvaluatedRows(rows[..k]))
    ensures ReadRows(scan, LoopRows(rows)).fatal == Some(RowError) && ReadRows(scan, LoopRows(rows)).errors == []
    ensures ReadRows(scan, LoopRows(rows)).metrics == ReadRows(scan, LoopRows(rows[..k])).metrics
    ensures ReadRows(scan, LoopRows(rows[..k])).fatal == None
  {
    var tail := rows[1..];
    assert rows[..k][1..] == tail[..k - 1];
    StopsAt(tail, k - 1);
  }

  lemma {:induction false} StopsAt(rows: seq<Row>, k: nat)
    requires k < |rows| && rows[k].Unreadable? && forall i | 0 <= i < k :: rows[i].Values?
    ensures |ReadablePrefix(rows)| == k && ReadablePrefix(rows) == ReadablePrefix(rows[..k])
  {
    if k > 0 {
      assert rows[..k][1..] == rows[1..][..k - 1];
      StopsAt(rows[1..], k - 1);
    }
  }

  // ---- The row that is skipped ----

  /** The scan with no row lost: the corrected loop, which is not what the code does. */
  ghost function CorrectedScan(scan: RawScan, rows: seq<Row>): ScanResult
    requires AllReady(scan, ReadablePrefix(rows))
  {
    ReadRows(scan, rows)
  }

  lemma {:induction false} CellsOfCons(scan: RawScan, first: seq<DBValue>, rest: seq<seq<DBValue>>)
    requires Ready(scan, first) && AllReady(scan, rest)
    ensures AllReady(scan, [first] + rest)
    ensures Cells(scan, [first] + rest) == RowCells(scan, first) + Cells(scan, rest)
  {
    var all := [first] + rest;
    if rest == [] {
      assert all[..0] == [] && Cells(scan, all) == [] + RowCells(scan, first);
    } else {
      var n := |rest| - 1;
      CellsOfCons(scan, first, rest[..n]);
      assert all[..|all| - 1] == [first] + rest[..n];
    }
  }

  /** A value is reported when it is not discarded and does not convert. */
  ghost predicate Reports(scan: RawScan, data: seq<DBValue>, c: nat)
    requires Ready(scan, data) && c < |scan.columns|
  {
    !IsDropped(scan, c) && !DBToFloat64(scan.num, data[c]).1
  }

  ghost predicate RowsReady(scan: RawScan, rows: seq<Row>) {
    forall i | 0 <= i < |rows| && rows[i].Values? :: Ready(scan, rows[i].data)
  }

  lemma ReadyRows(scan: RawScan, rows: seq<Row>)
    requires RowsReady(scan, rows)
    ensures AllReady(scan, ReadablePrefix(rows)) && AllReady(scan, EvaluatedRows(rows))
  {
    var loop := LoopRows(rows);
    forall i | 0 <= i < |EvaluatedRows(rows)| ensures Ready(scan, EvaluatedRows(rows)[i]) {
      assert loop[i] == rows[i + 1];
    }
  }

  /** Nothing shows of the first row being skipped: it has no value to send, and none to report unless a later row
      fails the scan anyway; or it cannot be read itself, and a later row fails the scan with nothing sent before it. */
  ghost predicate FirstRowDoesNotShow(scan: RawScan, rows: seq<Row>)
    requires rows != [] && RowsReady(scan, rows) && AllReady(scan, EvaluatedRows(rows))
  {
    var data := EvaluatedRows(rows);
    var fails := |data| < |LoopRows(rows)|;
    match rows[0]
    case Values(first) => forall c: nat | c < |scan.columns| :: !Sends(scan, first, c) && (fails || !Reports(scan, first, c))
    case Unreadable => fails && forall r: nat, c: nat | r < |data| && c < |scan.columns| :: !Sends(scan, data[r], c)
  }

  /** For every result with rows: what the corrected loop would do in terms of what the code does. The two come to the
      same, metrics, errors and failure, exactly when the first row does not show. */
  lemma FirstRowIsSkipped(scan: RawScan, rows: seq<Row>)
    requires rows != [] && RowsReady(scan, rows)
    ensures AllReady(scan, ReadablePrefix(rows)) && AllReady(scan, EvaluatedRows(rows))
    ensures var actual := ReadRows(scan, LoopRows(rows));
            CorrectedScan(scan, rows) ==
            match rows[0]
            case Unreadable => ScanResult([], [], Some(RowError))
            case Values(first) => WithFirst(scan, first, actual)
    ensures CorrectedScan(scan, rows) == ReadRows(scan, LoopRows(rows)) <==> FirstRowDoesNotShow(scan, rows)
  {
    ReadyRows(scan, rows);
    if rows[0].Values? {
      ReadableFirstRow(scan, rows[0].data, LoopRows(rows), rows);
    } else {
      UnreadableFirstRow(scan, rows);
    }
  }

  lemma UnreadableFirstRow(scan: RawScan, rows: seq<Row>)
    requires rows != [] && rows[0].Unreadable? && RowsReady(scan, rows)
    requires AllReady(scan, ReadablePrefix(rows)) && AllReady(scan, EvaluatedRows(rows))
    ensures CorrectedScan(scan, rows) == ScanResult([], [], Some(RowError))
    ensures CorrectedScan(scan, rows) == ReadRows(scan, LoopRows(rows)) <==> FirstRowDoesNotShow(scan, rows)
  {
    assert ReadablePrefix(rows) == [];
    SilentRows(scan, EvaluatedRows(rows));
  }

  lemma ReadableFirstRow(scan: RawScan, first: seq<DBValue>, loop: seq<Row>, rows: seq<Row>)
    requires rows == [Row.Values(first)] + loop && RowsReady(scan, rows)
    requires AllReady(scan, ReadablePrefix(rows)) && AllReady(scan, EvaluatedRows(rows)) && Ready(scan, first)
    ensures CorrectedScan(scan, rows) == WithFirst(scan, first, ReadRows(scan, loop))
    ensures CorrectedScan(scan, rows) == ReadRows(scan, loop) <==> FirstRowDoesNotShow(scan, rows)
  {
    FirstRowAdded(scan, first, loop, rows);
    NothingAdded(Emitted(RowCells(scan, first)), ReadRows(scan, loop).metrics);
    NothingAdded(Reported(RowCells(scan, first)), ReadRows(scan, loop).errors);
    SilentRow(scan, first);
    assert rows[1..] == loop;
  }

  /** A scan's result, had it begun one row earlier. */
  ghost function WithFirst(scan: RawScan, first: seq<DBValue>, r: ScanResult): ScanResult
    requires Ready(scan, first)
  {
    ScanResult(Emitted(RowCells(scan, first)) + r.metrics,
               if r.fatal.Some? then [] else Reported(RowCells(scan, first)) + r.errors, r.fatal)
  }

  lemma FirstRowAdded(scan: RawScan, first: seq<DBValue>, loop: seq<Row>, rows: seq<Row>)
    requires rows == [Row.Values(first)] + loop && AllReady(scan, ReadablePrefix(rows)) && AllReady(scan, ReadablePrefix(loop))
    requires Ready(scan, first)
    ensures CorrectedScan(scan, rows) == WithFirst(scan, first, ReadRows(scan, loop))
  {
    var rest := ReadablePrefix(loop);
    assert rows[1..] == loop && ReadablePrefix(rows) == [first] + rest;
    CellsOfCons(scan, first, rest);
    EmittedAppend(RowCells(scan, first), Cells(scan, rest));
  }

  lemma NothingAdded<T>(a: seq<T>, b: seq<T>)
    ensures a + b == b <==> a == []
  {
    assert |a + b| == |a| + |b|;
  }

  /** The view pg_stat_bgwriter has one row. However its table is compiled and at whatever version, the code sends
      nothing of it, and the corrected loop sends its value. */
  lemma OneRowIsLost(v: Version, serverLabels: Labels, out: MetricMapNamespace, num: Numerics, n: int)
    requires IsNamespaceOf(v, serverLabels, "pg_stat_bgwriter", Builtin.StatBgwriter(), out)
    ensures var scan := Scan(num, "pg_stat_bgwriter", out, serverLabels, ["buffers_alloc"]);
            var rows := [Row.Values([Int64(n)])];
            && RowsReady(scan, rows) && AllReady(scan, ReadablePrefix(rows)) && AllReady(scan, EvaluatedRows(rows))
            && !IsDropped(scan, 0)
            && ReadRows(scan, LoopRows(rows)).metrics == []
            && CorrectedScan(scan, rows).metrics == [SentMetric(scan, [Int64(n)], 0)]
  {
    var scan := Scan(num, "pg_stat_bgwriter", out, serverLabels, ["buffers_alloc"]);
    BgwriterColumn(v, serverLabels, out);
    OneValueIsLost(scan, Int64(n));
  }

  lemma BgwriterColumn(v: Version, serverLabels: Labels, out: MetricMapNamespace)
    requires IsNamespaceOf(v, serverLabels, "pg_stat_bgwriter", Builtin.StatBgwriter(), out)
    ensures WellFormed(out) && "buffers_alloc" in out.columnMappings && !out.columnMappings["buffers_alloc"].discard
  {
    NamespaceIsWellFormed(v, serverLabels, "pg_stat_bgwriter", Builtin.StatBgwriter(), out);
    assert "buffers_alloc" in Builtin.StatBgwriter();
  }

  /** A result of one value, sendable and readable, is lost. */
  lemma OneValueIsLost(scan: RawScan, value: DBValue)
    requires Ready(scan, [value]) && Sends(scan, [value], 0)
    ensures var rows := [Row.Values([value])];
            && RowsReady(scan, rows) && AllReady(scan, ReadablePrefix(rows)) && AllReady(scan, EvaluatedRows(rows))
            && ReadRows(scan, LoopRows(rows)).metrics == []
            && CorrectedScan(scan, rows).metrics == [SentMetric(scan, [value], 0)]
  {
    FirstRowIsSkipped(scan, [Row.Values([value])]);
    assert RowCells(scan, [value])[..0] == [] && |RowCells(scan, [value])| == 1;
  }

  /** Some rows send nothing exactly when none of their values is sendable. */
  lemma SilentRows(scan: RawScan, data: seq<seq<DBValue>>)
    requires AllReady(scan, data)
    ensures Sent(scan, data) == [] <==> forall r: nat, c: nat | r < |data| && c < |scan.columns| :: !Sends(scan, data[r], c)
  {
    if r: nat, c: nat :| r < |data| && c < |scan.columns| && Sends(scan, data[r], c) {
      EverySendableValueIsSent(scan, data, r, c);
    } else if Sent(scan, data) != [] {
      var r, c := EverySentMetricHasItsValue(scan, data, 0);
    }
  }

  lemma SilentRow(scan: RawScan, data: seq<DBValue>)
    requires Ready(scan, data)
    ensures Emitted(RowCells(scan, data)) == [] <==> forall c: nat | c < |scan.columns| :: !Sends(scan, data, c)
    ensures Reported(RowCells(scan, data)) == [] <==> forall c: nat | c < |scan.columns| :: !Reports(scan, data, c)
  {
    var cells := RowCells(scan, data);
    if c: nat :| c < |scan.columns| && Sends(scan, data, c) {
      EmittedAtRank(cells, c);
    } else if Emitted(cells) != [] {
      var k := EmittedFromCell(cells, 0);
      assert Sends(scan, data, k);
    }
    ReportedAre(cells);
    if c: nat :| c < |scan.columns| && Reports(scan, data, c) {
      assert cells[c] in cells && cells[c].Report?;
      assert cells[c].error in Reported(cells);
    } else if Reported(cells) != [] {
      var e := Reported(cells)[0];
      assert e in Reported(cells);
      var k :| 0 <= k < |cells| && cells[k] == Report(e);
      assert Reports(scan, data, k);
    }
  }

  // ---- Labels ----

  /** A label holds its own column's value when the result has that column, and the first column's when it has not. */
  lemma LabelHoldsItsColumn(scan: RawScan, data: seq<DBValue>, name: string, i: nat)
    requires Ready(scan, data) && i < |scan.columns|
    requires scan.columns[i] == name && name !in scan.columns[i + 1..]
    ensures LabelValue(scan, data, name) == DBToString(scan.num, data[i]).0
  {
    assert scan.columns[i] in scan.columns;
    LastOccurrenceIsUnique(scan.columns, name, i, ColumnIndex(scan.columns, name));
  }

  lemma LastOccurrenceIsUnique(s: seq<string>, name: string, i: nat, j: nat)
    requires i < |s| && s[i] == name && name !in s[i + 1..]
    requires j < |s| && s[j] == name && name !in s[j + 1..]
    ensures i == j
  {
    assert forall k | i < k < |s| :: s[k] == s[i + 1..][k - i - 1];
    assert forall k | j < k < |s| :: s[k] == s[j + 1..][k - j - 1];
  }

  lemma MissingLabelReadsTheFirstColumn(scan: RawScan, data: seq<DBValue>, name: string)
    requires Ready(scan, data) && name !in scan.columns
    ensures LabelValue(scan, data, name) == DBToString(scan.num, data[0]).0
  {
  }
}
