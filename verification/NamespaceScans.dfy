/** queryNamespaceMappings (internal/pgxexporter/queries.go): every namespace of a server, in any order. */
module NamespaceScans {
  import opened Wrappers
  import opened Sequences
  import opened Versions
  import opened Values
  import opened MetricMaps
  import opened Evaluator

  /** One reading of a server: its database, labels, compiled maps and queries. */
  datatype View = View(db: Database, serverLabels: Labels, metricMap: MetricMaps, queryOverrides: map<string, string>)

  ghost function ScanOf(view: View, namespace: string): ScanResult
    requires AllWellFormed(view.metricMap) && namespace in view.metricMap
  {
    ScanNamespace(view.db, view.serverLabels, view.queryOverrides, namespace, view.metricMap[namespace])
  }

  ghost function MetricsOf(view: View, namespace: string): seq<Metric>
    requires AllWellFormed(view.metricMap)
  {
    if namespace in view.metricMap then ScanOf(view, namespace).metrics else []
  }

  /** What is sent when the namespaces come in the given order. */
  ghost function AllMetrics(view: View, order: seq<string>): seq<Metric>
    requires AllWellFormed(view.metricMap)
  {
    Concat(order, namespace => MetricsOf(view, namespace))
  }

  ghost predicate Fails(view: View, namespace: string)
    requires AllWellFormed(view.metricMap)
  {
    namespace in view.metricMap && ScanOf(view, namespace).fatal.Some?
  }

  /** A namespace fails exactly when it is mapped and the database does not let it be scanned to the end. */
  lemma FailsExactlyWhen(view: View, ns: string)
    requires AllWellFormed(view.metricMap)
    ensures Fails(view, ns) <==> ns in view.metricMap && CannotBeScanned(view.db, view.queryOverrides, ns)
  {
    if ns in view.metricMap {
      ScanFailsExactlyWhen(view.db, view.serverLabels, view.queryOverrides, ns, view.metricMap[ns]);
    }
  }

  /** `errors` holds the fatal error of each failing namespace among `done`, and nothing else. */
  ghost predicate Recorded(view: View, done: seq<string>, errors: map<string, FatalError>)
    requires AllWellFormed(view.metricMap)
  {
    forall ns :: (ns in errors <==> ns in done && Fails(view, ns)) &&
                 (ns in errors && Fails(view, ns) ==> ScanOf(view, ns).fatal == Some(errors[ns]))
  }

  method QueryNamespaceMappings(ch: MetricChannel, view: View) returns (namespaceErrors: map<string, FatalError>, ghost order: seq<string>)
    requires AllWellFormed(view.metricMap)
    modifies ch
    ensures Enumerates(order, view.metricMap.Keys)
    ensures ch.sent == old(ch.sent) + AllMetrics(view, order)
    ensures Recorded(view, order, namespaceErrors)
  {
    namespaceErrors := map[];
    var namespaces := RangeOver(view.metricMap.Keys);
    order := namespaces;
    for i := 0 to |namespaces|
      invariant ch.sent == old(ch.sent) + AllMetrics(view, namespaces[..i])
      invariant Recorded(view, namespaces[..i], namespaceErrors)
    {
      NextNamespace(view, namespaces, i, namespaceErrors);
      var err := QueryNamespace(ch, view, namespaces[i]);
      Regroup(old(ch.sent), AllMetrics(view, namespaces[..i]), ScanOf(view, namespaces[i]).metrics);
      if err.Some? {
        namespaceErrors := namespaceErrors[namespaces[i] := err.value];
      }
    }
    assert namespaces[..|namespaces|] == namespaces;
  }

  /** One namespace; its non-fatal errors are only logged. */
  method QueryNamespace(ch: MetricChannel, view: View, namespace: string) returns (err: Option<FatalError>)
    requires AllWellFormed(view.metricMap) && namespace in view.metricMap
    modifies ch
    ensures ch.sent == old(ch.sent) + ScanOf(view, namespace).metrics
    ensures err == ScanOf(view, namespace).fatal
  {
    var _, fatal :=
      QueryNamespaceMapping(ch, view.db, view.serverLabels, view.queryOverrides, namespace, view.metricMap[namespace]);
    err := fatal;
  }

  lemma NextNamespace(view: View, order: seq<string>, i: nat, errors: map<string, FatalError>)
    requires AllWellFormed(view.metricMap) && Enumerates(order, view.metricMap.Keys) && i < |order|
    requires Recorded(view, order[..i], errors)
    ensures order[i] in view.metricMap
    ensures AllMetrics(view, order[..i + 1]) == AllMetrics(view, order[..i]) + ScanOf(view, order[i]).metrics
    ensures var fatal := ScanOf(view, order[i]).fatal;
            Recorded(view, order[..i + 1], if fatal.Some? then errors[order[i] := fatal.value] else errors)
  {
    assert order[i] in order && order[i] !in order[..i];
    assert order[..i + 1] == order[..i] + [order[i]];
    NextMetrics(view, order[..i], order[i]);
    NextRecord(view, order[..i], order[i], errors);
  }

  lemma NextMetrics(view: View, done: seq<string>, ns: string)
    requires AllWellFormed(view.metricMap) && ns in view.metricMap
    ensures AllMetrics(view, done + [ns]) == AllMetrics(view, done) + ScanOf(view, ns).metrics
  {
    ConcatSnoc(done, ns, x => MetricsOf(view, x));
  }

  lemma NextRecord(view: View, done: seq<string>, ns: string, errors: map<string, FatalError>)
    requires AllWellFormed(view.metricMap) && ns in view.metricMap && ns !in done && Recorded(view, done, errors)
    ensures var fatal := ScanOf(view, ns).fatal;
            Recorded(view, done + [ns], if fatal.Some? then errors[ns := fatal.value] else errors)
  {
  }

  // ---- What Prometheus makes of a metric: its labels are a map, not a list ----

  datatype Sample = Sample(name: string, help: string, constLabels: Labels, vtype: ValueType, value: Float64, labels: Labels)

  function LabelMap(names: seq<string>, values: seq<string>): Labels
    requires |names| == |values|
  {
    if names == [] then map[]
    else
      var n := |names| - 1;
      LabelMap(names[..n], values[..n])[names[n] := values[n]]
  }

  function SampleOf(m: Metric): Sample {
    Sample(m.desc.fqName, m.desc.help, m.desc.constLabels, m.vtype, m.value, LabelMap(m.desc.variableLabels, m.labelValues))
  }

  ghost function Samples(metrics: seq<Metric>): seq<Sample> {
    Sequences.Map(SampleOf, metrics)
  }

  lemma {:induction false} LabelMapOf(names: seq<string>, values: seq<string>, f: string -> string)
    requires |names| == |values| && forall i | 0 <= i < |names| :: values[i] == f(names[i])
    ensures LabelMap(names, values).Keys == set n | n in names
    ensures forall n | n in names :: LabelMap(names, values)[n] == f(n)
  {
    if names != [] {
      var n := |names| - 1;
      LabelMapOf(names[..n], values[..n], f);
      assert names == names[..n] + [names[n]];
    }
  }

  /** The order of two label lists with the same names does not show in the label map. */
  lemma LabelOrderIsInvisible(a: seq<string>, x: seq<string>, b: seq<string>, y: seq<string>, f: string -> string)
    requires |a| == |x| && forall i | 0 <= i < |a| :: x[i] == f(a[i])
    requires |b| == |y| && forall i | 0 <= i < |b| :: y[i] == f(b[i])
    requires forall n :: n in a <==> n in b
    ensures LabelMap(a, x) == LabelMap(b, y)
  {
    LabelMapOf(a, x, f);
    LabelMapOf(b, y, f);
    var m, n := LabelMap(a, x), LabelMap(b, y);
    assert m.Keys == n.Keys;
    assert forall name | name in m :: m[name] == n[name];
  }

  // ---- Two compilations of one table ----

  ghost predicate SameColumn(a: MetricMap, b: MetricMap) {
    && a.discard == b.discard && a.vtype == b.vtype && a.desc.Some? == b.desc.Some?
    && (a.desc.Some? ==>
          && a.desc.value.fqName == b.desc.value.fqName && a.desc.value.help == b.desc.value.help
          && a.desc.value.constLabels == b.desc.value.constLabels)
  }

  /** The same but for the order of the labels and the unused conversions. */
  ghost predicate SameNamespace(a: MetricMapNamespace, b: MetricMapNamespace) {
    && WellFormed(a) && WellFormed(b)
    && (forall l :: l in a.labels <==> l in b.labels)
    && a.columnMappings.Keys == b.columnMappings.Keys
    && forall c | c in a.columnMappings :: SameColumn(a.columnMappings[c], b.columnMappings[c])
  }

  lemma CompilationsAgree(v: Version, serverLabels: Labels, ns: string, table: ColumnTable,
                          a: MetricMapNamespace, b: MetricMapNamespace)
    requires IsNamespaceOf(v, serverLabels, ns, table, a) && IsNamespaceOf(v, serverLabels, ns, table, b)
    ensures SameNamespace(a, b)
  {
    NamespaceIsWellFormed(v, serverLabels, ns, table, a);
    NamespaceIsWellFormed(v, serverLabels, ns, table, b);
    var p :| IsColumnsOf(v, serverLabels, ns, table, a.labels, p, a.columnMappings);
    var q :| IsColumnsOf(v, serverLabels, ns, table, b.labels, q, b.columnMappings);
    forall c | c in table ensures SameColumn(a.columnMappings[c], b.columnMappings[c]) {
      DescribedAlike(v, serverLabels, ns, c, table[c], a.labels, b.labels, p, q);
    }
  }

  lemma DescribedAlike(v: Version, serverLabels: Labels, ns: string, c: string, m: ColumnMapping,
                       a: seq<string>, b: seq<string>, p: map<string, Float64>, q: map<string, Float64>)
    ensures SameColumn(DescribeColumn(v, serverLabels, ns, c, m, a, p), DescribeColumn(v, serverLabels, ns, c, m, b, q))
  {
  }

  ghost predicate SameScan(a: RawScan, b: RawScan) {
    a == b.(mapping := a.mapping) && SameNamespace(a.mapping, b.mapping)
  }

  ghost predicate SameCell(x: Cell, y: Cell) {
    match (x, y)
    case (Emit(m), Emit(n)) => SampleOf(m) == SampleOf(n)
    case _ => x == y
  }

  lemma CellsAgree(a: RawScan, b: RawScan, data: seq<DBValue>, c: nat)
    requires SameScan(a, b) && Ready(a, data) && c < |a.columns|
    ensures SameCell(EvalCell(a, data, c), EvalCell(b, data, c))
  {
    var f := name => if a.columns != [] && |data| == |a.columns| then LabelValue(a, data, name) else "";
    LabelOrderIsInvisible(a.mapping.labels, RowLabels(a, data), b.mapping.labels, RowLabels(b, data), f);
    if !IsDropped(a, c) && a.columns[c] in a.mapping.columnMappings {
      assert SameColumn(a.mapping.columnMappings[a.columns[c]], b.mapping.columnMappings[a.columns[c]]);
    }
  }

  lemma {:induction false} EmissionsAgree(x: seq<Cell>, y: seq<Cell>)
    requires |x| == |y| && forall i | 0 <= i < |x| :: SameCell(x[i], y[i])
    ensures Samples(Emitted(x)) == Samples(Emitted(y)) && Reported(x) == Reported(y)
  {
    if x != [] {
      var n := |x| - 1;
      EmissionsAgree(x[..n], y[..n]);
      assert SameCell(x[n], y[n]);
      if x[n].Emit? {
        SamplesSnoc(Emitted(x[..n]), x[n].metric);
        SamplesSnoc(Emitted(y[..n]), y[n].metric);
      }
    }
  }

  lemma SamplesSnoc(metrics: seq<Metric>, m: Metric)
    ensures Samples(metrics + [m]) == Samples(metrics) + [SampleOf(m)]
  {
  }

  lemma {:induction false} GridsAgree(a: RawScan, b: RawScan, rows: seq<seq<DBValue>>)
    requires SameScan(a, b) && AllReady(a, rows)
    ensures AllReady(b, rows)
    ensures var x, y := Cells(a, rows), Cells(b, rows);
            |x| == |y| && forall i | 0 <= i < |x| :: SameCell(x[i], y[i])
  {
    if rows != [] {
      var n := |rows| - 1;
      GridsAgree(a, b, rows[..n]);
      assert Ready(a, rows[n]) && Ready(b, rows[n]);
      forall c | 0 <= c < |a.columns| ensures SameCell(EvalCell(a, rows[n], c), EvalCell(b, rows[n], c)) {
        CellsAgree(a, b, rows[n], c);
      }
    }
  }

  /** Scans through two compilations of one namespace differ in the order of labels only. */
  lemma ScansAgree(db: Database, serverLabels: Labels, overrides: map<string, string>, ns: string,
                   a: MetricMapNamespace, b: MetricMapNamespace)
    requires SameNamespace(a, b)
    ensures var x, y := ScanNamespace(db, serverLabels, overrides, ns, a), ScanNamespace(db, serverLabels, overrides, ns, b);
            Samples(x.metrics) == Samples(y.metrics) && x.errors == y.errors && x.fatal == y.fatal
  {
    var query := QueryOf(overrides, ns);
    if query.Some? && db.answer(ns, query.value).ResultSet? {
      var columns, rows := db.answer(ns, query.value).columns, LoopRows(db.answer(ns, query.value).rows);
      var p, q := Scan(db.num, ns, a, serverLabels, columns), Scan(db.num, ns, b, serverLabels, columns);
      ShapedRowsAreReady(p, columns, rows);
      RowsAgree(p, q, rows);
    }
  }

  lemma RowsAgree(a: RawScan, b: RawScan, rows: seq<Row>)
    requires SameScan(a, b) && AllReady(a, ReadablePrefix(rows))
    ensures AllReady(b, ReadablePrefix(rows))
    ensures var x, y := ReadRows(a, rows), ReadRows(b, rows);
            Samples(x.metrics) == Samples(y.metrics) && x.errors == y.errors && x.fatal == y.fatal
  {
    GridsAgree(a, b, ReadablePrefix(rows));
    EmissionsAgree(Cells(a, ReadablePrefix(rows)), Cells(b, ReadablePrefix(rows)));
  }

  lemma {:induction false} SamplesOfConcat(order: seq<string>, f: string -> seq<Metric>)
    ensures Samples(Concat(order, f)) == Concat(order, ns => Samples(f(ns)))
  {
    if order != [] {
      SamplesOfConcat(order[1..], f);
      var g := ns => Samples(f(ns));
      assert Concat(order, g) == g(order[0]) + Concat(order[1..], g);
      assert Samples(f(order[0]) + Concat(order[1..], f)) == Samples(f(order[0])) + Samples(Concat(order[1..], f));
    }
  }

  /** Iteration order never matters: whatever order the columns and the namespaces come in, compiling and then
      scanning gives Prometheus the same bag of samples and fails on the same namespaces. */
  lemma IterationOrderNeverMatters(v: Version, tables: ColumnTables, a: View, b: View, orderA: seq<string>, orderB: seq<string>)
    requires b == a.(metricMap := b.metricMap)
    requires IsDescMap(v, a.serverLabels, tables, a.metricMap) && IsDescMap(v, a.serverLabels, tables, b.metricMap)
    requires Enumerates(orderA, tables.Keys) && Enumerates(orderB, tables.Keys)
    ensures AllWellFormed(a.metricMap) && AllWellFormed(b.metricMap)
    ensures multiset(Samples(AllMetrics(a, orderA))) == multiset(Samples(AllMetrics(b, orderB)))
    ensures forall ns :: Fails(a, ns) <==> Fails(b, ns)
  {
    CompilationIsWellFormed(v, a.serverLabels, tables, a.metricMap);
    CompilationIsWellFormed(v, a.serverLabels, tables, b.metricMap);
    forall ns | ns in tables
      ensures Samples(MetricsOf(a, ns)) == Samples(MetricsOf(b, ns)) && (Fails(a, ns) <==> Fails(b, ns))
    {
      CompilationsAgree(v, a.serverLabels, ns, tables[ns], a.metricMap[ns], b.metricMap[ns]);
      ScansAgree(a.db, a.serverLabels, a.queryOverrides, ns, a.metricMap[ns], b.metricMap[ns]);
    }
    OrdersAgree(a, b, orderA, orderB, tables.Keys);
  }

  lemma OrdersAgree(a: View, b: View, orderA: seq<string>, orderB: seq<string>, keys: set<string>)
    requires AllWellFormed(a.metricMap) && AllWellFormed(b.metricMap)
    requires Enumerates(orderA, keys) && Enumerates(orderB, keys)
    requires forall ns | ns in keys :: Samples(MetricsOf(a, ns)) == Samples(MetricsOf(b, ns))
    ensures multiset(Samples(AllMetrics(a, orderA))) == multiset(Samples(AllMetrics(b, orderB)))
  {
    var f, g := (ns: string) => MetricsOf(a, ns), (ns: string) => MetricsOf(b, ns);
    var sf, sg := (ns: string) => Samples(f(ns)), (ns: string) => Samples(g(ns));
    SamplesOfConcat(orderA, f);
    SamplesOfConcat(orderB, g);
    assert forall x | x in orderA :: sf(x) == sg(x);
    ConcatCongruence(orderA, sf, sg);
    ConcatPermuted(orderA, orderB, keys, sg);
  }
}
