/** The user's queries file: what addQueries (internal/pgxexporter/queries.go) reads from a document. */
module UserQueries {
  import opened Wrappers
  import opened Sequences
  import opened Versions
  import opened MetricMaps
  import opened Evaluator
  import opened NamespaceScans

  datatype ColumnSpec = ColumnSpec(usage: Option<string>, description: Option<string>)

  /** One namespace: an optional query and a list of maps from column names to their attributes. */
  datatype NamespaceSpec = NamespaceSpec(query: Option<string>, metrics: seq<map<string, ColumnSpec>>)

  type Document = map<string, NamespaceSpec>

  datatype Content = Malformed | Parsed(doc: Document)

  function UsageName(u: ColumnUsage): string {
    match u
    case DISCARD => "DISCARD"
    case LABEL => "LABEL"
    case COUNTER => "COUNTER"
    case GAUGE => "GAUGE"
    case MAPPEDMETRIC => "MAPPEDMETRIC"
    case DURATION => "DURATION"
  }

  /** stringToColumnUsage (internal/pgxexporter/utils.go): exactly the six names, and no other text. */
  function StringToColumnUsage(s: string): (r: Result<ColumnUsage, string>)
    ensures forall u :: r == Ok(u) <==> s == UsageName(u)
    ensures r.Err? ==> r.error == s
  {
    if s == "DISCARD" then Ok(DISCARD)
    else if s == "LABEL" then Ok(LABEL)
    else if s == "COUNTER" then Ok(COUNTER)
    else if s == "GAUGE" then Ok(GAUGE)
    else if s == "MAPPEDMETRIC" then Ok(MAPPEDMETRIC)
    else if s == "DURATION" then Ok(DURATION)
    else Err(s)
  }

  ghost predicate ValidUsage(spec: ColumnSpec) {
    spec.usage.Some? ==> exists u :: spec.usage.value == UsageName(u)
  }

  ghost predicate ValidColumns(columns: map<string, ColumnSpec>) {
    forall c | c in columns :: ValidUsage(columns[c])
  }

  ghost predicate ValidList(metrics: seq<map<string, ColumnSpec>>) {
    forall i | 0 <= i < |metrics| :: ValidColumns(metrics[i])
  }

  ghost predicate ValidDocument(doc: Document) {
    forall ns | ns in doc :: ValidList(doc[ns].metrics)
  }

  /** `error` is an unknown usage in one map of columns, in the first map of a list to have one, or so in a document. */
  ghost predicate UnknownIn(columns: map<string, ColumnSpec>, error: string) {
    exists c :: c in columns && columns[c].usage == Some(error) && !ValidUsage(columns[c])
  }

  ghost predicate FirstUnknown(metrics: seq<map<string, ColumnSpec>>, error: string) {
    exists i :: 0 <= i < |metrics| && ValidList(metrics[..i]) && UnknownIn(metrics[i], error)
  }

  ghost predicate UnknownInDocument(doc: Document, error: string) {
    exists ns :: ns in doc && FirstUnknown(doc[ns].metrics, error)
  }

  /** The content reads as a document whose usages all exist. */
  ghost predicate Loads(content: Content) {
    match content
    case Malformed => false
    case Parsed(doc) => ValidDocument(doc)
  }

  /** Each name is its own usage, and no other text is any. */
  lemma UsageNames(s: string)
    ensures StringToColumnUsage(s) == Ok(DISCARD) <==> s == "DISCARD"
    ensures StringToColumnUsage(s) == Ok(LABEL) <==> s == "LABEL"
    ensures StringToColumnUsage(s) == Ok(COUNTER) <==> s == "COUNTER"
    ensures StringToColumnUsage(s) == Ok(GAUGE) <==> s == "GAUGE"
    ensures StringToColumnUsage(s) == Ok(MAPPEDMETRIC) <==> s == "MAPPEDMETRIC"
    ensures StringToColumnUsage(s) == Ok(DURATION) <==> s == "DURATION"
    ensures StringToColumnUsage(s).Err? <==> !IsUsageName(s)
  {
  }

  ghost predicate IsUsageName(s: string) {
    s == "DISCARD" || s == "LABEL" || s == "COUNTER" || s == "GAUGE" || s == "MAPPEDMETRIC" || s == "DURATION"
  }

  /** The file is a document all of whose usages are among the six names. */
  ghost predicate IsReadable(content: Content) {
    && content.Parsed?
    && forall ns, i, c | ns in content.doc && 0 <= i < |content.doc[ns].metrics| && c in content.doc[ns].metrics[i] ::
         content.doc[ns].metrics[i][c].usage.Some? ==> IsUsageName(content.doc[ns].metrics[i][c].usage.value)
  }

  lemma KnownUsage(spec: ColumnSpec)
    ensures ValidUsage(spec) <==> (spec.usage.Some? ==> IsUsageName(spec.usage.value))
  {
    if spec.usage.Some? {
      var s := spec.usage.value;
      UsageNames(s);
      if IsUsageName(s) {
        assert s == UsageName(StringToColumnUsage(s).value);
      }
    }
  }

  lemma LoadsExactlyWhen(content: Content)
    ensures Loads(content) <==> IsReadable(content)
  {
    if content.Parsed? {
      forall ns, i, c | ns in content.doc && 0 <= i < |content.doc[ns].metrics| && c in content.doc[ns].metrics[i]
        ensures ValidUsage(content.doc[ns].metrics[i][c]) <==>
                (content.doc[ns].metrics[i][c].usage.Some? ==> IsUsageName(content.doc[ns].metrics[i][c].usage.value))
      {
        KnownUsage(content.doc[ns].metrics[i][c]);
      }
    }
  }

  /** A column without a usage is discarded, one with a known usage has that one, for every version. */
  lemma ColumnIs(spec: ColumnSpec)
    ensures spec.usage.None? ==> ToColumn(spec).usage == DISCARD
    ensures spec.usage == Some("LABEL") ==> ToColumn(spec).usage == LABEL
    ensures spec.usage == Some("COUNTER") ==> ToColumn(spec).usage == COUNTER
    ensures spec.usage == Some("GAUGE") ==> ToColumn(spec).usage == GAUGE
    ensures spec.usage == Some("MAPPEDMETRIC") ==> ToColumn(spec).usage == MAPPEDMETRIC
    ensures spec.usage == Some("DURATION") ==> ToColumn(spec).usage == DURATION
    ensures spec.usage == Some("DISCARD") ==> ToColumn(spec).usage == DISCARD
    ensures ToColumn(spec).description == match spec.description case None => "" case Some(s) => s
    ensures ToColumn(spec).mapping == map[] && ToColumn(spec).supportedVersions == None
  {
  }

  lemma {:induction false} MergedColumns(metrics: seq<map<string, ColumnSpec>>)
    ensures forall c :: c in Merged(metrics) <==> exists i :: 0 <= i < |metrics| && c in metrics[i]
  {
    if metrics != [] {
      var n := |metrics| - 1;
      MergedColumns(metrics[..n]);
      forall c ensures c in Merged(metrics) <==> exists i :: 0 <= i < |metrics| && c in metrics[i] {
        if i :| 0 <= i < |metrics| && c in metrics[i] {
          assert i < n ==> c in metrics[..n][i];
        }
        if c in Merged(metrics[..n]) {
          var i :| 0 <= i < n && c in metrics[..n][i];
          assert c in metrics[i];
        }
      }
    }
  }

  /** Which namespaces and columns a document has tables for, and which it has queries for. */
  lemma DocumentHolds(doc: Document, ns: string)
    ensures ns in UserTables(doc) <==> ns in doc && exists i, c :: 0 <= i < |doc[ns].metrics| && c in doc[ns].metrics[i]
    ensures ns in UserTables(doc) ==>
              forall c :: c in UserTables(doc)[ns] <==> exists i :: 0 <= i < |doc[ns].metrics| && c in doc[ns].metrics[i]
    ensures ns in UserOverrides(doc) <==> ns in doc && doc[ns].query.Some?
    ensures ns in UserOverrides(doc) ==> Some(UserOverrides(doc)[ns]) == doc[ns].query
  {
    if ns in doc {
      var metrics := doc[ns].metrics;
      MergedColumns(metrics);
      if i, c :| 0 <= i < |metrics| && c in metrics[i] {
        assert c in Merged(metrics);
      } else {
        assert Merged(metrics).Keys == {};
      }
    }
  }

  /** The column of a table is what the last map of the list that names it says. */
  lemma ColumnOfDocument(doc: Document, ns: string, i: nat, c: string)
    requires ns in doc && i < |doc[ns].metrics| && c in doc[ns].metrics[i]
    requires forall j | i < j < |doc[ns].metrics| :: c !in doc[ns].metrics[j]
    ensures ns in UserTables(doc) && c in UserTables(doc)[ns] && UserTables(doc)[ns][c] == ToColumn(doc[ns].metrics[i][c])
  {
    LastDuplicateWins(doc[ns].metrics, i, c);
  }

  /** A column of the document: discarded when no usage is given, for every version. */
  function ToColumn(spec: ColumnSpec): ColumnMapping {
    var usage :=
      match spec.usage
      case None => DISCARD
      case Some(s) => (match StringToColumnUsage(s) case Ok(u) => u case Err(_) => DISCARD);
    ColumnMapping(usage, if spec.description.Some? then spec.description.value else "", map[], None)
  }

  function ToColumns(columns: map<string, ColumnSpec>): ColumnTable {
    map c | c in columns :: ToColumn(columns[c])
  }

  /** The columns of a list of maps, later maps winning. */
  ghost function Merged(metrics: seq<map<string, ColumnSpec>>): map<string, ColumnSpec> {
    if metrics == [] then map[] else Merged(metrics[..|metrics| - 1]) + metrics[|metrics| - 1]
  }

  /** The column tables of a document: a namespace has one when it lists at least one column. */
  ghost function UserTables(doc: Document): ColumnTables {
    map ns | ns in doc && ListsColumns(doc[ns]) :: ToColumns(Merged(doc[ns].metrics))
  }

  ghost function UserOverrides(doc: Document): map<string, string> {
    map ns | ns in doc && doc[ns].query.Some? :: doc[ns].query.value
  }

  method ReadColumn(spec: ColumnSpec) returns (r: Result<ColumnMapping, string>)
    ensures r.Ok? <==> ValidUsage(spec)
    ensures r.Ok? ==> r.value == ToColumn(spec)
    ensures r.Err? ==> spec.usage == Some(r.error)
  {
    var columnMapping := ColumnMapping(DISCARD, "", map[], None);
    if spec.usage.Some? {
      var usage := StringToColumnUsage(spec.usage.value);
      if usage.Err? {
        return Err(usage.error);
      }
      columnMapping := columnMapping.(usage := usage.value);
    }
    if spec.description.Some? {
      columnMapping := columnMapping.(description := spec.description.value);
    }
    r := Ok(columnMapping);
  }

  /** One map of the list, added to the columns read so far. */
  method ReadColumns(table: ColumnTable, columns: map<string, ColumnSpec>) returns (r: Result<ColumnTable, string>)
    ensures r.Ok? <==> ValidColumns(columns)
    ensures r.Ok? ==> r.value == table + ToColumns(columns)
    ensures r.Err? ==> UnknownIn(columns, r.error)
  {
    var metricMap := table;
    var names := RangeOver(columns.Keys);
    for i := 0 to |names|
      invariant forall c | c in names[..i] :: c in columns && ValidUsage(columns[c])
      invariant forall c :: c in metricMap <==> c in table || c in names[..i]
      invariant forall c | c in metricMap ::
                  metricMap[c] == if c in names[..i] then ToColumn(columns[c]) else table[c]
    {
      var name := names[i];
      assert name in names && names[..i + 1] == names[..i] + [name];
      var columnMapping := ReadColumn(columns[name]);
      if columnMapping.Err? {
        return Err(columnMapping.error);
      }
      metricMap := metricMap[name := columnMapping.value];
    }
    assert names[..|names|] == names;
    ColumnsAdded(table, columns, metricMap);
    r := Ok(metricMap);
  }

  lemma ColumnsAdded(table: ColumnTable, columns: map<string, ColumnSpec>, m: ColumnTable)
    requires forall c :: c in m <==> c in table || c in columns
    requires forall c | c in m :: m[c] == if c in columns then ToColumn(columns[c]) else table[c]
    ensures m == table + ToColumns(columns)
  {
  }

  lemma ToColumnsOfMerge(a: map<string, ColumnSpec>, b: map<string, ColumnSpec>)
    ensures ToColumns(a + b) == ToColumns(a) + ToColumns(b)
  {
    var x, y := ToColumns(a + b), ToColumns(a) + ToColumns(b);
    assert x.Keys == y.Keys;
    assert forall c | c in x :: x[c] == y[c];
  }

  /** The "metrics" list of one namespace. */
  method ReadMetrics(metrics: seq<map<string, ColumnSpec>>) returns (r: Result<ColumnTable, string>)
    ensures r.Ok? <==> ValidList(metrics)
    ensures r.Ok? ==> r.value == ToColumns(Merged(metrics))
    ensures r.Err? ==> FirstUnknown(metrics, r.error)
  {
    var table: ColumnTable := map[];
    for i := 0 to |metrics|
      invariant ValidList(metrics[..i])
      invariant table == ToColumns(Merged(metrics[..i]))
    {
      assert metrics[..i + 1][..i] == metrics[..i];
      var next := ReadColumns(table, metrics[i]);
      if next.Err? {
        return Err(next.error);
      }
      ToColumnsOfMerge(Merged(metrics[..i]), metrics[i]);
      table := next.value;
    }
    assert metrics[..|metrics|] == metrics;
    r := Ok(table);
  }

  ghost predicate ListsColumns(spec: NamespaceSpec) {
    Merged(spec.metrics) != map[]
  }

  /** The loops of addQueries over a well-typed document. */
  method ReadDocument(extra: Document) returns (r: Result<(ColumnTables, map<string, string>), string>)
    ensures r.Ok? <==> ValidDocument(extra)
    ensures r.Ok? ==> r.value == (UserTables(extra), UserOverrides(extra))
    ensures r.Err? ==> UnknownInDocument(extra, r.error)
  {
    var metricMaps: ColumnTables := map[];
    var newQueryOverrides: map<string, string> := map[];
    var metrics := RangeOver(extra.Keys);
    for i := 0 to |metrics|
      invariant forall ns | ns in metrics[..i] :: ns in extra && ValidList(extra[ns].metrics)
      invariant ReadSoFar(extra, metrics[..i], metricMaps, newQueryOverrides)
    {
      var metric := metrics[i];
      assert metric in metrics && metrics[..i + 1] == metrics[..i] + [metric];
      var specs := extra[metric];
      if specs.query.Some? {
        newQueryOverrides := newQueryOverrides[metric := specs.query.value];
      }
      var table := ReadMetrics(specs.metrics);
      if table.Err? {
        return Err(table.error);
      }
      assert table.value.Keys == Merged(specs.metrics).Keys;
      if table.value.Keys != {} {
        metricMaps := metricMaps[metric := table.value];
      }
    }
    assert metrics[..|metrics|] == metrics;
    AllRead(extra, metrics, metricMaps, newQueryOverrides);
    r := Ok((metricMaps, newQueryOverrides));
  }

  ghost predicate ReadSoFar(extra: Document, done: seq<string>, metricMaps: ColumnTables, queries: map<string, string>) {
    && (forall ns :: ns in metricMaps <==> ns in done && ns in extra && ListsColumns(extra[ns]))
    && (forall ns | ns in metricMaps :: metricMaps[ns] == ToColumns(Merged(extra[ns].metrics)))
    && (forall ns :: ns in queries <==> ns in done && ns in extra && extra[ns].query.Some?)
    && (forall ns | ns in queries :: queries[ns] == extra[ns].query.value)
  }

  lemma AllRead(extra: Document, done: seq<string>, metricMaps: ColumnTables, queries: map<string, string>)
    requires Enumerates(done, extra.Keys) && ReadSoFar(extra, done, metricMaps, queries)
    ensures metricMaps == UserTables(extra) && queries == UserOverrides(extra)
  {
    var tables, overrides := UserTables(extra), UserOverrides(extra);
    assert metricMaps.Keys == tables.Keys && forall ns | ns in tables :: metricMaps[ns] == tables[ns];
    assert queries.Keys == overrides.Keys && forall ns | ns in overrides :: queries[ns] == overrides[ns];
  }

  // ---- Adding a document to a server's maps ----

  /** `document` is merged: its compiled namespaces and its queries override those there were. */
  ghost predicate Added(v: Version, serverLabels: Labels, doc: Document, maps: MetricMaps, overrides: map<string, string>,
                        maps': MetricMaps, overrides': map<string, string>) {
    && ValidDocument(doc)
    && overrides' == overrides + UserOverrides(doc)
    && exists partial :: IsDescMap(v, serverLabels, UserTables(doc), partial) && maps' == maps + partial
  }

  /** The same maps but for the order of the labels of the document's namespaces. */
  ghost predicate SameMaps(doc: Document, a: MetricMaps, b: MetricMaps) {
    && a.Keys == b.Keys
    && forall ns | ns in a :: if ns in UserTables(doc) then SameNamespace(a[ns], b[ns]) else a[ns] == b[ns]
  }

  /** Adding a document again gives only what adding it once could have given, and what it did give up to the order of
      some labels. */
  lemma AddingTwiceIsAddingOnce(v: Version, serverLabels: Labels, doc: Document, m0: MetricMaps, q0: map<string, string>,
                                m1: MetricMaps, q1: map<string, string>, m2: MetricMaps, q2: map<string, string>)
    requires Added(v, serverLabels, doc, m0, q0, m1, q1) && Added(v, serverLabels, doc, m1, q1, m2, q2)
    ensures Added(v, serverLabels, doc, m0, q0, m2, q2)
    ensures q2 == q1 && SameMaps(doc, m1, m2)
  {
    var p :| IsDescMap(v, serverLabels, UserTables(doc), p) && m1 == m0 + p;
    var q :| IsDescMap(v, serverLabels, UserTables(doc), q) && m2 == m1 + q;
    OverwrittenMerge(m0, p, q);
    OverwrittenMerge(q0, UserOverrides(doc), UserOverrides(doc));
    TablesAgree(v, serverLabels, UserTables(doc), p, q);
    forall ns | ns in m1 ensures if ns in UserTables(doc) then SameNamespace(m1[ns], m2[ns]) else m1[ns] == m2[ns] {
      assert ns in UserTables(doc) <==> ns in p;
    }
  }

  lemma TablesAgree(v: Version, serverLabels: Labels, tables: ColumnTables, p: MetricMaps, q: MetricMaps)
    requires IsDescMap(v, serverLabels, tables, p) && IsDescMap(v, serverLabels, tables, q)
    ensures forall ns | ns in tables :: SameNamespace(p[ns], q[ns])
  {
    forall ns | ns in tables ensures SameNamespace(p[ns], q[ns]) {
      CompilationsAgree(v, serverLabels, ns, tables[ns], p[ns], q[ns]);
    }
  }

  /** Scans cannot tell how often a document was added: they send the same bag of samples and fail alike. */
  lemma AddingTwiceScansAlike(doc: Document, db: Database, serverLabels: Labels, overrides: map<string, string>,
                              m1: MetricMaps, m2: MetricMaps, order1: seq<string>, order2: seq<string>)
    requires SameMaps(doc, m1, m2) && AllWellFormed(m1) && AllWellFormed(m2)
    requires Enumerates(order1, m1.Keys) && Enumerates(order2, m2.Keys)
    ensures var a, b := View(db, serverLabels, m1, overrides), View(db, serverLabels, m2, overrides);
            && multiset(Samples(AllMetrics(a, order1))) == multiset(Samples(AllMetrics(b, order2)))
            && forall ns :: Fails(a, ns) <==> Fails(b, ns)
  {
    var a, b := View(db, serverLabels, m1, overrides), View(db, serverLabels, m2, overrides);
    forall ns | ns in m1
      ensures Samples(MetricsOf(a, ns)) == Samples(MetricsOf(b, ns)) && (Fails(a, ns) <==> Fails(b, ns))
    {
      if ns in UserTables(doc) {
        ScansAgree(db, serverLabels, overrides, ns, m1[ns], m2[ns]);
      }
    }
    OrdersAgree(a, b, order1, order2, m1.Keys);
  }

  lemma OverwrittenMerge<V>(m: map<string, V>, p: map<string, V>, q: map<string, V>)
    requires p.Keys == q.Keys
    ensures m + p + q == m + q && (m + p).Keys == (m + q).Keys
  {
  }

  /** The last map that names a column decides it. */
  lemma {:induction false} LastDuplicateWins(metrics: seq<map<string, ColumnSpec>>, i: nat, c: string)
    requires i < |metrics| && c in metrics[i] && forall j | i < j < |metrics| :: c !in metrics[j]
    ensures c in Merged(metrics) && Merged(metrics)[c] == metrics[i][c]
  {
    var n := |metrics| - 1;
    if i < n {
      LastDuplicateWins(metrics[..n], i, c);
    }
  }
}
