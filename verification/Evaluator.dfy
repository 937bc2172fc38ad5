/** queryNamespaceMapping (internal/pgxexporter/queries.go): result rows to metrics. */
module Evaluator {
  import opened Wrappers
  import opened Sequences
  import opened Values
  import opened MetricMaps

  datatype RawMetric = Metric(desc: Desc, vtype: ValueType, value: Float64, labelValues: seq<string>)

  // Building a metric panics unless it has one value for each label of its descriptor.
  type Metric = m: RawMetric | |m.labelValues| == |m.desc.variableLabels|
    witness RawMetric.Metric(Desc("", "", [], map[]), NoValueType, NaN, [])

  /** The channel a collector sends on, as its receiver sees it. */
  class MetricChannel {
    var sent: seq<Metric>

    constructor ()
      ensures sent == []
    {
      sent := [];
    }

    method Send(m: Metric)
      modifies this
      ensures sent == old(sent) + [m]
    {
      sent := sent + [m];
    }
  }

  // ---- The database, whose answers are arbitrary ----

  datatype Row = Values(data: seq<DBValue>) | Unreadable

  datatype RawResponse = QueryFailed | ResultSet(columns: seq<string>, rows: seq<Row>)

  predicate Shaped(r: RawResponse) {
    r.ResultSet? ==> r.columns != [] && forall row | row in r.rows && row.Values? :: |row.data| == |r.columns|
  }

  // The driver gives each row one value per column.
  type Response = r: RawResponse | Shaped(r) witness QueryFailed

  /** What the database does during one scan: whether a connection is available when a namespace
      asks for one, and the answer to the query each namespace runs. */
  datatype Database = Database(num: Numerics, acquires: string -> bool, answer: (string, string) -> Response)

  datatype FatalError = NoConnection | QueryError | RowError

  datatype NonFatalError =
    | UnexpectedColumn(namespace: string, column: string, value: DBValue)
    | UnparseableColumn(namespace: string, column: string)

  // ---- One row ----

  /** What stays the same while the rows of one result are read. */
  datatype RawScan = Scan(num: Numerics, namespace: string, mapping: MetricMapNamespace, serverLabels: Labels,
                          columns: seq<string>)

  ghost predicate Ready(scan: RawScan, data: seq<DBValue>) {
    WellFormed(scan.mapping) && scan.columns != [] && |data| == |scan.columns|
  }

  /** The index the lookup map gives: the last column of that name, and 0 when there is none. */
  function ColumnIndex(columns: seq<string>, name: string): (i: nat)
    ensures columns != [] ==> i < |columns|
    ensures name in columns ==> columns[i] == name && name !in columns[i + 1..]
    ensures name !in columns ==> i == 0
  {
    if columns == [] then 0
    else
      var n := |columns| - 1;
      assert columns == columns[..n] + [columns[n]];
      if columns[n] == name then n
      else
        var i := ColumnIndex(columns[..n], name);
        assert name in columns ==> columns[i + 1..] == columns[..n][i + 1..] + [columns[n]];
        i
  }

  function LabelValue(scan: RawScan, data: seq<DBValue>, labelName: string): string
    requires scan.columns != [] && |data| == |scan.columns|
  {
    DBToString(scan.num, data[ColumnIndex(scan.columns, labelName)]).0
  }

  function RowLabels(scan: RawScan, data: seq<DBValue>): (r: seq<string>)
    requires scan.columns != [] && |data| == |scan.columns|
    ensures |r| == |scan.mapping.labels|
    ensures forall i | 0 <= i < |r| :: r[i] == LabelValue(scan, data, scan.mapping.labels[i])
  {
    seq(|scan.mapping.labels|, i requires 0 <= i < |scan.mapping.labels| => LabelValue(scan, data, scan.mapping.labels[i]))
  }

  /** What becomes of one value of one row. */
  datatype Cell = Emit(metric: Metric) | Report(error: NonFatalError) | Drop

  ghost predicate IsDropped(scan: RawScan, c: nat)
    requires c < |scan.columns|
  {
    scan.columns[c] in scan.mapping.columnMappings && scan.mapping.columnMappings[scan.columns[c]].discard
  }

  ghost function CellDesc(scan: RawScan, c: nat): Desc
    requires WellFormed(scan.mapping) && c < |scan.columns| && !IsDropped(scan, c)
  {
    var column := scan.columns[c];
    if column in scan.mapping.columnMappings then scan.mapping.columnMappings[column].desc.value
    else Desc(scan.namespace + "_" + column, "Unknown metric from " + scan.namespace, scan.mapping.labels, scan.serverLabels)
  }

  ghost function CellType(scan: RawScan, c: nat): ValueType
    requires c < |scan.columns|
  {
    var column := scan.columns[c];
    if column in scan.mapping.columnMappings then scan.mapping.columnMappings[column].vtype else UntypedValue
  }

  ghost function EvalCell(scan: RawScan, data: seq<DBValue>, c: nat): Cell
    requires Ready(scan, data) && c < |scan.columns|
  {
    var column := scan.columns[c];
    if IsDropped(scan, c) then Drop
    else
      var (value, ok) := DBToFloat64(scan.num, data[c]);
      if ok then Emit(RawMetric.Metric(CellDesc(scan, c), CellType(scan, c), value, RowLabels(scan, data)))
      else if column in scan.mapping.columnMappings then Report(UnexpectedColumn(scan.namespace, column, data[c]))
      else Report(UnparseableColumn(scan.namespace, column))
  }

  ghost function Emitted(cells: seq<Cell>): seq<Metric> {
    if cells == [] then []
    else
      var last := cells[|cells| - 1];
      Emitted(cells[..|cells| - 1]) + if last.Emit? then [last.metric] else []
  }

  ghost function Reported(cells: seq<Cell>): seq<NonFatalError> {
    if cells == [] then []
    else
      var last := cells[|cells| - 1];
      Reported(cells[..|cells| - 1]) + if last.Report? then [last.error] else []
  }

  ghost function RowCells(scan: RawScan, data: seq<DBValue>): (cells: seq<Cell>)
    requires Ready(scan, data)
    ensures |cells| == |scan.columns|
    ensures forall c | 0 <= c < |cells| :: cells[c] == EvalCell(scan, data, c)
  {
    seq(|scan.columns|, c requires 0 <= c < |scan.columns| => EvalCell(scan, data, c))
  }

  /** The inner loop: the columns of one row, in order. */
  method EvaluateRow(ch: MetricChannel, scan: RawScan, columnData: seq<DBValue>) returns (nonfatalErrors: seq<NonFatalError>)
    requires Ready(scan, columnData)
    modifies ch
    ensures ch.sent == old(ch.sent) + Emitted(RowCells(scan, columnData))
    ensures nonfatalErrors == Reported(RowCells(scan, columnData))
  {
    var labels := LookUpLabels(scan, columnData);
    ghost var cells := RowCells(scan, columnData);
    nonfatalErrors := [];
    for idx := 0 to |scan.columns|
      invariant ch.sent == old(ch.sent) + Emitted(cells[..idx])
      invariant nonfatalErrors == Reported(cells[..idx])
    {
      assert cells[..idx + 1][..idx] == cells[..idx];
      assert cells[idx] == EvalCell(scan, columnData, idx);
      var columnName := scan.columns[idx];
      if columnName in scan.mapping.columnMappings {
        var metricMapping := scan.mapping.columnMappings[columnName];
        if metricMapping.discard {
          continue;
        }
        var (value, ok) := DBToFloat64(scan.num, columnData[idx]);
        if !ok {
          nonfatalErrors := nonfatalErrors + [UnexpectedColumn(scan.namespace, columnName, columnData[idx])];
          continue;
        }
        ch.Send(RawMetric.Metric(metricMapping.desc.value, metricMapping.vtype, value, labels));
      } else {
        var desc := Desc(scan.namespace + "_" + columnName, "Unknown metric from " + scan.namespace,
                         scan.mapping.labels, scan.serverLabels);
        var (value, ok) := DBToFloat64(scan.num, columnData[idx]);
        if !ok {
          nonfatalErrors := nonfatalErrors + [UnparseableColumn(scan.namespace, columnName)];
          continue;
        }
        ch.Send(RawMetric.Metric(desc, UntypedValue, value, labels));
      }
    }
    assert cells[..|scan.columns|] == cells;
  }

  /** The label values of one row, through the lookup map of column indices. */
  method LookUpLabels(scan: RawScan, columnData: seq<DBValue>) returns (labels: seq<string>)
    requires scan.columns != [] && |columnData| == |scan.columns|
    ensures labels == RowLabels(scan, columnData)
  {
    var columnIdx := IndexColumns(scan.columns);
    labels := [];
    for idx := 0 to |scan.mapping.labels|
      invariant |labels| == idx
      invariant forall i | 0 <= i < idx :: labels[i] == LabelValue(scan, columnData, scan.mapping.labels[i])
    {
      var name := scan.mapping.labels[idx];
      // A key missing from a Go map reads as zero.
      var index := if name in columnIdx then columnIdx[name] else 0;
      labels := labels + [DBToString(scan.num, columnData[index]).0];
    }
  }

  method IndexColumns(columns: seq<string>) returns (columnIdx: map<string, nat>)
    ensures columnIdx.Keys == (set n | n in columns)
    ensures forall n | n in columnIdx :: columnIdx[n] == ColumnIndex(columns, n)
  {
    columnIdx := map[];
    for i := 0 to |columns|
      invariant forall n :: n in columnIdx <==> n in columns[..i]
      invariant forall n | n in columnIdx :: columnIdx[n] == ColumnIndex(columns[..i], n)
    {
      assert columns[..i + 1][..i] == columns[..i];
      columnIdx := columnIdx[columns[i] := i];
    }
    assert columns[..|columns|] == columns;
  }

  // ---- One result set ----

  /** The rows the emitting loop reads: the loop that looks for the field descriptions has consumed the first. */
  function LoopRows(rows: seq<Row>): seq<Row> {
    if rows == [] then [] else rows[1..]
  }

  /** The rows before the first that cannot be read. */
  function ReadablePrefix(rows: seq<Row>): (data: seq<seq<DBValue>>)
    ensures |data| <= |rows|
    ensures forall i | 0 <= i < |data| :: rows[i] == Values(data[i])
    ensures |data| < |rows| ==> rows[|data|].Unreadable?
  {
    if rows == [] || rows[0].Unreadable? then [] else [rows[0].data] + ReadablePrefix(rows[1..])
  }

  ghost predicate AllReady(scan: RawScan, rows: seq<seq<DBValue>>) {
    forall i | 0 <= i < |rows| :: Ready(scan, rows[i])
  }

  /** The cells of some rows, row by row. */
  ghost function Cells(scan: RawScan, rows: seq<seq<DBValue>>): seq<Cell>
    requires AllReady(scan, rows)
  {
    if rows == [] then []
    else Cells(scan, rows[..|rows| - 1]) + RowCells(scan, rows[|rows| - 1])
  }

  datatype ScanResult = ScanResult(metrics: seq<Metric>, errors: seq<NonFatalError>, fatal: Option<FatalError>)

  /** The result of reading `rows`. A row that cannot be read ends the scan and loses the errors noted so far,
      but not the metrics already sent. */
  ghost function ReadRows(scan: RawScan, rows: seq<Row>): ScanResult
    requires AllReady(scan, ReadablePrefix(rows))
  {
    var data := ReadablePrefix(rows);
    var cells := Cells(scan, data);
    if |data| == |rows| then ScanResult(Emitted(cells), Reported(cells), None)
    else ScanResult(Emitted(cells), [], Some(RowError))
  }

  lemma ShapedRowsAreReady(scan: RawScan, columns: seq<string>, rows: seq<Row>)
    requires WellFormed(scan.mapping) && columns != [] && scan.columns == columns
    requires forall row | row in rows && row.Values? :: |row.data| == |columns|
    ensures AllReady(scan, ReadablePrefix(rows))
  {
    forall i | 0 <= i < |ReadablePrefix(rows)| ensures Ready(scan, ReadablePrefix(rows)[i]) {
      assert rows[i] in rows;
    }
  }

  /** The query a namespace runs; none when an empty override disables it. */
  function QueryOf(overrides: map<string, string>, namespace: string): Option<string> {
    if namespace !in overrides then Some("SELECT * FROM " + namespace + ";")
    else if overrides[namespace] == "" then None
    else Some(overrides[namespace])
  }

  ghost function ScanNamespace(db: Database, serverLabels: Labels, overrides: map<string, string>, namespace: string,
                               mapping: MetricMapNamespace): ScanResult
    requires WellFormed(mapping)
  {
    if !db.acquires(namespace) then ScanResult([], [], Some(NoConnection))
    else
      match QueryOf(overrides, namespace)
      case None => ScanResult([], [], None)
      case Some(query) =>
        match db.answer(namespace, query)
        case QueryFailed => ScanResult([], [], Some(QueryError))
        case ResultSet(columns, rows) =>
          var scan := Scan(db.num, namespace, mapping, serverLabels, columns);
          ShapedRowsAreReady(scan, columns, LoopRows(rows));
          ReadRows(scan, LoopRows(rows))
  }

  /** What keeps a namespace from being scanned to the end, said of the database: there is no connection; or, unless an
      empty override disables the namespace, the query fails or a row after the first cannot be read. */
  ghost predicate CannotBeScanned(db: Database, overrides: map<string, string>, namespace: string) {
    || !db.acquires(namespace)
    || (namespace in overrides && overrides[namespace] != "" && CannotBeRead(db.answer(namespace, overrides[namespace])))
    || (namespace !in overrides && CannotBeRead(db.answer(namespace, "SELECT * FROM " + namespace + ";")))
  }

  ghost predicate CannotBeRead(r: RawResponse) {
    r.QueryFailed? || exists i :: 1 <= i < |r.rows| && r.rows[i].Unreadable?
  }

  /** The query a namespace runs: its override unless that is empty, or all of the namespace when it has none. */
  lemma AskedQuery(overrides: map<string, string>, namespace: string)
    ensures namespace in overrides && overrides[namespace] == "" <==> QueryOf(overrides, namespace).None?
    ensures namespace in overrides && overrides[namespace] != "" ==> QueryOf(overrides, namespace) == Some(overrides[namespace])
    ensures namespace !in overrides ==> QueryOf(overrides, namespace) == Some("SELECT * FROM " + namespace + ";")
  {
  }

  /** The result of a namespace on each path: nothing is sent without rows, and with rows what the emitting loop makes of
      those after the first. */
  lemma ScanOutcome(db: Database, serverLabels: Labels, overrides: map<string, string>, namespace: string,
                    mapping: MetricMapNamespace)
    requires WellFormed(mapping)
    ensures var r, query := ScanNamespace(db, serverLabels, overrides, namespace, mapping), QueryOf(overrides, namespace);
            && (!db.acquires(namespace) ==> r == ScanResult([], [], Some(NoConnection)))
            && (db.acquires(namespace) && query.None? ==> r == ScanResult([], [], None))
            && (db.acquires(namespace) && query.Some? && db.answer(namespace, query.value).QueryFailed? ==>
                  r == ScanResult([], [], Some(QueryError)))
            && (db.acquires(namespace) && query.Some? && db.answer(namespace, query.value).ResultSet? ==>
                  var (columns, rows) := (db.answer(namespace, query.value).columns, db.answer(namespace, query.value).rows);
                  var scan := Scan(db.num, namespace, mapping, serverLabels, columns);
                  var loop := if rows == [] then [] else rows[1..];
                  AllReady(scan, ReadablePrefix(loop)) && r == ReadRows(scan, loop))
  {
    var query := QueryOf(overrides, namespace);
    if db.acquires(namespace) && query.Some? && db.answer(namespace, query.value).ResultSet? {
      var columns, rows := db.answer(namespace, query.value).columns, db.answer(namespace, query.value).rows;
      ShapedRowsAreReady(Scan(db.num, namespace, mapping, serverLabels, columns), columns, LoopRows(rows));
    }
  }

  lemma ScanFailsExactlyWhen(db: Database, serverLabels: Labels, overrides: map<string, string>, namespace: string,
                             mapping: MetricMapNamespace)
    requires WellFormed(mapping)
    ensures ScanNamespace(db, serverLabels, overrides, namespace, mapping).fatal.Some? <==> CannotBeScanned(db, overrides, namespace)
  {
    var query := QueryOf(overrides, namespace);
    AskedQuery(overrides, namespace);
    ScanOutcome(db, serverLabels, overrides, namespace, mapping);
    if query.Some? && db.answer(namespace, query.value).ResultSet? {
      PrefixEndsAtUnreadable(db.answer(namespace, query.value).rows);
    }
  }

  lemma PrefixEndsAtUnreadable(rows: seq<Row>)
    ensures |ReadablePrefix(LoopRows(rows))| < |LoopRows(rows)| <==> exists i :: 1 <= i < |rows| && rows[i].Unreadable?
  {
    var loop := LoopRows(rows);
    var n := |ReadablePrefix(loop)|;
    assert forall i | 1 <= i < |rows| :: rows[i] == loop[i - 1];
    if n < |loop| {
      assert rows[n + 1].Unreadable?;
    }
  }

  method QueryNamespaceMapping(ch: MetricChannel, db: Database, serverLabels: Labels, queryOverrides: map<string, string>,
                               namespace: string, mapping: MetricMapNamespace)
    returns (nonfatalErrors: seq<NonFatalError>, err: Option<FatalError>)
    requires WellFormed(mapping)
    modifies ch
    ensures var r := ScanNamespace(db, serverLabels, queryOverrides, namespace, mapping);
            ch.sent == old(ch.sent) + r.metrics && nonfatalErrors == r.errors && err == r.fatal
    ensures err.Some? <==> CannotBeScanned(db, queryOverrides, namespace)
  {
    ScanFailsExactlyWhen(db, serverLabels, queryOverrides, namespace, mapping);
    if !db.acquires(namespace) {
      return [], Some(NoConnection);
    }
    var found := namespace in queryOverrides;
    var query := if found then queryOverrides[namespace] else "";
    if query == "" && found {
      return [], None;
    }
    if !found {
      query := "SELECT * FROM " + namespace + ";";
    }
    var response := db.answer(namespace, query);
    if response.QueryFailed? {
      return [], Some(QueryError);
    }
    var rows := response.rows;
    // The loop that fetches the field descriptions leaves after one step, with the first row read.
    var next := 0;
    var fields: seq<string> := [];
    if next < |rows| {
      next := next + 1;
      fields := response.columns;
    }
    assert rows[next..] == LoopRows(rows);
    var scan := Scan(db.num, namespace, mapping, serverLabels, fields);
    if rows != [] {
      ShapedRowsAreReady(scan, fields, rows[next..]);
      nonfatalErrors, err := EvaluateRows(ch, scan, rows[next..]);
    } else {
      nonfatalErrors, err := [], None;
    }
  }

  /** The emitting loop. */
  method EvaluateRows(ch: MetricChannel, scan: RawScan, rows: seq<Row>)
    returns (nonfatalErrors: seq<NonFatalError>, err: Option<FatalError>)
    requires AllReady(scan, ReadablePrefix(rows))
    modifies ch
    ensures var r := ReadRows(scan, rows);
            ch.sent == old(ch.sent) + r.metrics && nonfatalErrors == r.errors && err == r.fatal
  {
    ghost var data := ReadablePrefix(rows);
    nonfatalErrors := [];
    for i := 0 to |rows|
      invariant i <= |data|
      invariant ch.sent == old(ch.sent) + Emitted(Cells(scan, data[..i]))
      invariant nonfatalErrors == Reported(Cells(scan, data[..i]))
    {
      if rows[i].Unreadable? {
        assert data[..i] == data;
        return [], Some(RowError);
      }
      CellsOfNextRow(scan, data, i);
      var errors := EvaluateRow(ch, scan, rows[i].data);
      nonfatalErrors := nonfatalErrors + errors;
      Regroup(old(ch.sent), Emitted(Cells(scan, data[..i])), Emitted(RowCells(scan, data[i])));
    }
    assert data[..|rows|] == data;
    err := None;
  }

  lemma CellsOfNextRow(scan: RawScan, data: seq<seq<DBValue>>, i: nat)
    requires AllReady(scan, data) && i < |data|
    ensures Emitted(Cells(scan, data[..i + 1])) == Emitted(Cells(scan, data[..i])) + Emitted(RowCells(scan, data[i]))
    ensures Reported(Cells(scan, data[..i + 1])) == Reported(Cells(scan, data[..i])) + Reported(RowCells(scan, data[i]))
  {
    assert data[..i + 1][..i] == data[..i];
    EmittedAppend(Cells(scan, data[..i]), RowCells(scan, data[i]));
  }

  lemma {:induction false} EmittedAppend(a: seq<Cell>, b: seq<Cell>)
    ensures Emitted(a + b) == Emitted(a) + Emitted(b)
    ensures Reported(a + b) == Reported(a) + Reported(b)
  {
    if b == [] {
      assert a + b == a;
    } else {
      var n := |b| - 1;
      assert (a + b)[..|a| + n] == a + b[..n] && (a + b)[|a| + n] == b[n];
      EmittedAppend(a, b[..n]);
    }
  }
}
