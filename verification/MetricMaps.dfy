/** makeDescMap (internal/pgxexporter/metric_maps.go): column tables compiled to descriptors. */
module MetricMaps {
  import opened Wrappers
  import opened Sequences
  import opened Versions
  import opened Values

  type Labels = map<string, string>

  datatype ColumnUsage = DISCARD | LABEL | COUNTER | GAUGE | MAPPEDMETRIC | DURATION

  datatype ColumnMapping = ColumnMapping(
    usage: ColumnUsage,
    description: string,
    mapping: map<string, Float64>,
    supportedVersions: Option<Range>)

  type ColumnTable = map<string, ColumnMapping>

  type ColumnTables = map<string, ColumnTable>

  datatype ValueType = NoValueType | CounterValue | GaugeValue | UntypedValue

  datatype Desc = Desc(fqName: string, help: string, variableLabels: seq<string>, constLabels: Labels)

  /** The stored conversion functions. Those of MAPPEDMETRIC columns close over the loop variable. */
  datatype Conversion = ToNaN | ToFloat | Lookup(mapping: map<string, Float64>) | ToMilliseconds

  datatype MetricMap = MetricMap(discard: bool, vtype: ValueType, desc: Option<Desc>, conversion: Conversion)

  datatype MetricMapNamespace = MetricMapNamespace(labels: seq<string>, columnMappings: map<string, MetricMap>)

  type MetricMaps = map<string, MetricMapNamespace>

  const DISCARDED := MetricMap(true, NoValueType, None, ToNaN)

  predicate Supported(m: ColumnMapping, v: Version) {
    m.supportedVersions.Some? ==> m.supportedVersions.value(v)
  }

  ghost predicate IsLabel(table: ColumnTable, column: string) {
    column in table && table[column].usage == LABEL
  }

  predicate Discarded(m: ColumnMapping, v: Version) {
    !Supported(m, v) || m.usage == DISCARD || m.usage == LABEL
  }

  function MetricName(ns: string, column: string, usage: ColumnUsage): string {
    ns + "_" + column + if usage == DURATION then "_milliseconds" else ""
  }

  function StoredConversion(usage: ColumnUsage, shared: map<string, Float64>): Conversion {
    match usage
    case DISCARD => ToNaN
    case LABEL => ToNaN
    case COUNTER => ToFloat
    case GAUGE => ToFloat
    case MAPPEDMETRIC => Lookup(shared)
    case DURATION => ToMilliseconds
  }

  /** The descriptor of one column. `shared` is the value table every MAPPEDMETRIC closure of the namespace sees. */
  function DescribeColumn(v: Version, serverLabels: Labels, ns: string, column: string, m: ColumnMapping,
                          labels: seq<string>, shared: map<string, Float64>): MetricMap {
    if Discarded(m, v) then DISCARDED
    else
      MetricMap(false, if m.usage == COUNTER then CounterValue else GaugeValue,
                Some(Desc(MetricName(ns, column, m.usage), m.description, labels, serverLabels)),
                StoredConversion(m.usage, shared))
  }

  ghost predicate ClosedOver(table: ColumnTable, shared: map<string, Float64>) {
    table != map[] ==> exists last | last in table :: table[last].mapping == shared
  }

  ghost predicate IsColumnsOf(v: Version, serverLabels: Labels, ns: string, table: ColumnTable,
                              labels: seq<string>, shared: map<string, Float64>, columns: map<string, MetricMap>) {
    && columns.Keys == table.Keys
    && forall c | c in table :: columns[c] == DescribeColumn(v, serverLabels, ns, c, table[c], labels, shared)
  }

  /** `out` is a compilation of `table`: the labels are the LABEL columns in any order, whatever their versions,
      and some column of the table is the last one the loop visited. */
  ghost predicate IsNamespaceOf(v: Version, serverLabels: Labels, ns: string, table: ColumnTable, out: MetricMapNamespace) {
    match out
    case MetricMapNamespace(labels, columns) =>
      && NoDuplicates(labels)
      && (forall c :: c in labels <==> IsLabel(table, c))
      && exists shared :: ClosedOver(table, shared) && IsColumnsOf(v, serverLabels, ns, table, labels, shared, columns)
  }

  /** `out` is what makeDescMap may return, one enumeration order or another. */
  ghost predicate IsDescMap(v: Version, serverLabels: Labels, tables: ColumnTables, out: MetricMaps) {
    && out.Keys == tables.Keys
    && forall ns | ns in tables :: IsNamespaceOf(v, serverLabels, ns, tables[ns], out[ns])
  }

  method MakeDescMap(pgVersion: Version, serverLabels: Labels, metricMaps: ColumnTables) returns (metricMap: MetricMaps)
    ensures IsDescMap(pgVersion, serverLabels, metricMaps, metricMap) && AllWellFormed(metricMap)
  {
    metricMap := map[];
    var namespaces := RangeOver(metricMaps.Keys);
    for i := 0 to |namespaces|
      invariant forall ns :: ns in metricMap <==> ns in namespaces[..i]
      invariant forall ns | ns in metricMap ::
                  ns in metricMaps && IsNamespaceOf(pgVersion, serverLabels, ns, metricMaps[ns], metricMap[ns])
    {
      var namespace := namespaces[i];
      assert namespace in namespaces && namespaces[..i + 1] == namespaces[..i] + [namespace];
      var compiled := CompileNamespace(pgVersion, serverLabels, namespace, metricMaps[namespace]);
      metricMap := metricMap[namespace := compiled];
    }
    assert namespaces[..|namespaces|] == namespaces;
    CompilationIsWellFormed(pgVersion, serverLabels, metricMaps, metricMap);
  }

  /** The body of the loop over namespaces. */
  method CompileNamespace(pgVersion: Version, serverLabels: Labels, namespace: string, mappings: ColumnTable)
    returns (out: MetricMapNamespace)
    ensures IsNamespaceOf(pgVersion, serverLabels, namespace, mappings, out)
  {
    var variableLabels := CollectLabels(mappings);
    var thisMap, shared := DescribeColumns(pgVersion, serverLabels, namespace, mappings, variableLabels);
    out := MetricMapNamespace(variableLabels, thisMap);
  }

  /** The second loop over the columns. */
  method DescribeColumns(pgVersion: Version, serverLabels: Labels, namespace: string, mappings: ColumnTable,
                         variableLabels: seq<string>)
    returns (thisMap: map<string, MetricMap>, shared: map<string, Float64>)
    ensures ClosedOver(mappings, shared)
    ensures IsColumnsOf(pgVersion, serverLabels, namespace, mappings, variableLabels, shared, thisMap)
  {
    var columns := RangeOver(mappings.Keys);
    EnumerationSize(columns, mappings.Keys);
    // The closures all see the value the loop variable has when the loop ends.
    shared := map[];
    if columns != [] {
      var last := columns[|columns| - 1];
      assert last in columns;
      shared := mappings[last].mapping;
    }
    thisMap := map[];
    for i := 0 to |columns|
      invariant forall c :: c in thisMap <==> c in columns[..i]
      invariant forall c | c in thisMap ::
                  c in mappings && thisMap[c] == DescribeColumn(pgVersion, serverLabels, namespace, c, mappings[c], variableLabels, shared)
    {
      var columnName := columns[i];
      assert columnName in columns && columns[..i + 1] == columns[..i] + [columnName];
      thisMap := thisMap[columnName :=
        DescribeColumn(pgVersion, serverLabels, namespace, columnName, mappings[columnName], variableLabels, shared)];
    }
    assert columns[..|columns|] == columns;
  }

  /** The first loop over the columns; it does not look at their versions. */
  method CollectLabels(mappings: ColumnTable) returns (variableLabels: seq<string>)
    ensures NoDuplicates(variableLabels)
    ensures forall c :: c in variableLabels <==> IsLabel(mappings, c)
  {
    variableLabels := [];
    var columns := RangeOver(mappings.Keys);
    for i := 0 to |columns|
      invariant NoDuplicates(variableLabels)
      invariant forall c :: c in variableLabels <==> c in columns[..i] && mappings[c].usage == LABEL
    {
      assert columns[i] in columns && columns[i] !in columns[..i];
      assert columns[..i + 1] == columns[..i] + [columns[i]];
      if mappings[columns[i]].usage == LABEL {
        variableLabels := variableLabels + [columns[i]];
      }
    }
    assert columns[..|columns|] == columns;
  }

  // ---- What every compilation guarantees the row evaluator ----

  /** Labels are distinct discarded columns; every other column's descriptor carries the namespace's own labels. */
  ghost predicate WellFormed(m: MetricMapNamespace) {
    && NoDuplicates(m.labels)
    && (forall l | l in m.labels :: l in m.columnMappings && m.columnMappings[l].discard)
    && forall c | c in m.columnMappings && !m.columnMappings[c].discard ::
         m.columnMappings[c].desc.Some? && m.columnMappings[c].desc.value.variableLabels == m.labels
  }

  ghost predicate AllWellFormed(maps: MetricMaps) {
    forall ns | ns in maps :: WellFormed(maps[ns])
  }

  /** Each namespace of a compilation has exactly its source columns and is well-formed. */
  lemma CompilationIsWellFormed(v: Version, serverLabels: Labels, tables: ColumnTables, out: MetricMaps)
    requires IsDescMap(v, serverLabels, tables, out)
    ensures AllWellFormed(out)
    ensures forall ns | ns in out :: out[ns].columnMappings.Keys == tables[ns].Keys
  {
    forall ns | ns in out ensures WellFormed(out[ns]) && out[ns].columnMappings.Keys == tables[ns].Keys {
      NamespaceIsWellFormed(v, serverLabels, ns, tables[ns], out[ns]);
    }
  }

  lemma NamespaceIsWellFormed(v: Version, serverLabels: Labels, ns: string, table: ColumnTable, out: MetricMapNamespace)
    requires IsNamespaceOf(v, serverLabels, ns, table, out)
    ensures WellFormed(out) && out.columnMappings.Keys == table.Keys
    ensures forall c | c in table ::
              out.columnMappings[c].discard <==> Discarded(table[c], v)
  {
    var shared :| IsColumnsOf(v, serverLabels, ns, table, out.labels, shared, out.columnMappings);
    forall l | l in out.labels ensures l in out.columnMappings && out.columnMappings[l].discard {
      assert IsLabel(table, l);
    }
  }

  /** What every compilation makes of a column: whether it is discarded, its labels, value type and descriptor. */
  lemma CompiledColumn(v: Version, serverLabels: Labels, ns: string, table: ColumnTable, out: MetricMapNamespace, c: string)
    requires IsNamespaceOf(v, serverLabels, ns, table, out) && c in table
    ensures c in out.columnMappings && (c in out.labels <==> table[c].usage == LABEL)
    ensures var m, d := table[c], out.columnMappings[c];
            && (d.discard <==>
                  m.usage == DISCARD || m.usage == LABEL || (m.supportedVersions.Some? && !m.supportedVersions.value(v)))
            && (!d.discard ==>
                  && (d.vtype == CounterValue <==> m.usage == COUNTER)
                  && (d.vtype == GaugeValue <==> m.usage == GAUGE || m.usage == MAPPEDMETRIC || m.usage == DURATION)
                  && d.desc.Some?
                  && d.desc.value.fqName == (if m.usage == DURATION then ns + "_" + c + "_milliseconds" else ns + "_" + c)
                  && d.desc.value.help == m.description
                  && d.desc.value.variableLabels == out.labels && d.desc.value.constLabels == serverLabels)
  {
    var shared :| IsColumnsOf(v, serverLabels, ns, table, out.labels, shared, out.columnMappings);
    assert c in out.labels <==> IsLabel(table, c);
    DescribedColumn(v, serverLabels, ns, c, table[c], out.labels, shared);
  }

  lemma DescribedColumn(v: Version, serverLabels: Labels, ns: string, c: string, m: ColumnMapping,
                        labels: seq<string>, shared: map<string, Float64>)
    ensures var d := DescribeColumn(v, serverLabels, ns, c, m, labels, shared);
            && (d.discard <==>
                  m.usage == DISCARD || m.usage == LABEL || (m.supportedVersions.Some? && !m.supportedVersions.value(v)))
            && (!d.discard ==>
                  && (d.vtype == CounterValue <==> m.usage == COUNTER)
                  && (d.vtype == GaugeValue <==> m.usage == GAUGE || m.usage == MAPPEDMETRIC || m.usage == DURATION)
                  && d.desc.Some?
                  && d.desc.value.fqName == (if m.usage == DURATION then ns + "_" + c + "_milliseconds" else ns + "_" + c)
                  && d.desc.value.help == m.description
                  && d.desc.value.variableLabels == labels && d.desc.value.constLabels == serverLabels)
  {
    var name := ns + "_" + c;
    assert name + "" == name;
  }

  /** Which conversion is stored with a column that is not discarded. All MAPPEDMETRIC columns share the table of one
      column. */
  lemma CompiledConversion(v: Version, serverLabels: Labels, ns: string, table: ColumnTable, out: MetricMapNamespace)
    returns (last: string)
    requires IsNamespaceOf(v, serverLabels, ns, table, out) && table != map[]
    ensures last in table
    ensures forall c | c in table && c in out.columnMappings && !out.columnMappings[c].discard ::
              var conversion := out.columnMappings[c].conversion;
              match table[c].usage
              case MAPPEDMETRIC => conversion == Lookup(table[last].mapping)
              case DURATION => conversion == ToMilliseconds
              case _ => conversion == ToFloat
  {
    var shared :| ClosedOver(table, shared) && IsColumnsOf(v, serverLabels, ns, table, out.labels, shared, out.columnMappings);
    last :| last in table && table[last].mapping == shared;
  }

  /** Whatever the table, it has a compilation. */
  lemma NamespaceCompiles(v: Version, serverLabels: Labels, ns: string, table: ColumnTable) returns (out: MetricMapNamespace)
    ensures IsNamespaceOf(v, serverLabels, ns, table, out)
  {
    var labels := SomeEnumeration(set c | c in table && IsLabel(table, c));
    var shared: map<string, Float64> := map[];
    if table != map[] {
      var last :| last in table;
      shared := table[last].mapping;
    }
    var columns := map c | c in table :: DescribeColumn(v, serverLabels, ns, c, table[c], labels, shared);
    assert IsColumnsOf(v, serverLabels, ns, table, labels, shared, columns);
    out := MetricMapNamespace(labels, columns);
  }

  ghost function SomeNamespace(v: Version, serverLabels: Labels, ns: string, table: ColumnTable): (out: MetricMapNamespace)
    ensures IsNamespaceOf(v, serverLabels, ns, table, out)
  {
    assert exists out :: IsNamespaceOf(v, serverLabels, ns, table, out) by {
      var out := NamespaceCompiles(v, serverLabels, ns, table);
    }
    var out :| IsNamespaceOf(v, serverLabels, ns, table, out);
    out
  }

  lemma TablesCompile(v: Version, serverLabels: Labels, tables: ColumnTables) returns (out: MetricMaps)
    ensures IsDescMap(v, serverLabels, tables, out)
  {
    out := map ns | ns in tables :: SomeNamespace(v, serverLabels, ns, tables[ns]);
  }

  // ---- Compiling and merging ----

  /** Overriding one compilation with another compiles the overridden tables: a user's namespace replaces
      the built-in one as a whole. */
  lemma CompileThenMerge(v: Version, serverLabels: Labels, builtin: ColumnTables, user: ColumnTables,
                         compiled: MetricMaps, partial: MetricMaps)
    requires IsDescMap(v, serverLabels, builtin, compiled) && IsDescMap(v, serverLabels, user, partial)
    ensures IsDescMap(v, serverLabels, builtin + user, compiled + partial)
  {
    forall ns | ns in builtin + user
      ensures IsNamespaceOf(v, serverLabels, ns, (builtin + user)[ns], (compiled + partial)[ns])
    {
      if ns in user {
        assert IsNamespaceOf(v, serverLabels, ns, user[ns], partial[ns]);
      } else {
        assert IsNamespaceOf(v, serverLabels, ns, builtin[ns], compiled[ns]);
      }
    }
  }

  /** Conversely every compilation of the overridden tables is such a merge, whatever the
      built-in compilation it starts from decided about overridden namespaces. */
  lemma MergeThenCompile(v: Version, serverLabels: Labels, builtin: ColumnTables, user: ColumnTables,
                         whole: MetricMaps, other: MetricMaps)
    returns (compiled: MetricMaps, partial: MetricMaps)
    requires IsDescMap(v, serverLabels, builtin + user, whole) && IsDescMap(v, serverLabels, builtin, other)
    ensures IsDescMap(v, serverLabels, builtin, compiled) && IsDescMap(v, serverLabels, user, partial)
    ensures whole == compiled + partial
  {
    partial := UserPart(v, serverLabels, builtin, user, whole);
    compiled := BuiltinPart(v, serverLabels, builtin, user, whole, other);
    PickedMerge(whole, other, builtin.Keys, user.Keys);
  }

  lemma UserPart(v: Version, serverLabels: Labels, builtin: ColumnTables, user: ColumnTables, whole: MetricMaps)
    returns (partial: MetricMaps)
    requires IsDescMap(v, serverLabels, builtin + user, whole)
    ensures IsDescMap(v, serverLabels, user, partial) && partial == Pick(whole, map[], user.Keys, {})
  {
    partial := Pick(whole, map[], user.Keys, {});
    Restrict(v, serverLabels, builtin + user, whole, user, partial);
  }

  lemma BuiltinPart(v: Version, serverLabels: Labels, builtin: ColumnTables, user: ColumnTables, whole: MetricMaps, other: MetricMaps)
    returns (compiled: MetricMaps)
    requires IsDescMap(v, serverLabels, builtin + user, whole) && IsDescMap(v, serverLabels, builtin, other)
    ensures IsDescMap(v, serverLabels, builtin, compiled) && compiled == Pick(whole, other, builtin.Keys, user.Keys)
  {
    compiled := Pick(whole, other, builtin.Keys, user.Keys);
    Patch(v, serverLabels, builtin, user, whole, other, compiled);
  }

  /** The entries of `keys`, from `b` for those in `late` and from `a` for the others. */
  ghost function Pick<V>(a: map<string, V>, b: map<string, V>, keys: set<string>, late: set<string>): (r: map<string, V>)
    requires keys - late <= a.Keys && keys * late <= b.Keys
    ensures r.Keys == keys && forall k | k in keys :: r[k] == if k in late then b[k] else a[k]
  {
    map k | k in keys :: if k in late then b[k] else a[k]
  }

  lemma PickedMerge<V>(whole: map<string, V>, other: map<string, V>, builtin: set<string>, user: set<string>)
    requires whole.Keys == builtin + user && builtin <= other.Keys
    ensures whole == Pick(whole, other, builtin, user) + Pick(whole, map[], user, {})
  {
  }

  lemma Restrict(v: Version, serverLabels: Labels, tables: ColumnTables, whole: MetricMaps, some: ColumnTables, part: MetricMaps)
    requires IsDescMap(v, serverLabels, tables, whole) && part.Keys == some.Keys
    requires forall ns | ns in some :: ns in tables && some[ns] == tables[ns] && part[ns] == whole[ns]
    ensures IsDescMap(v, serverLabels, some, part)
  {
  }

  lemma Patch(v: Version, serverLabels: Labels, builtin: ColumnTables, user: ColumnTables,
              whole: MetricMaps, other: MetricMaps, compiled: MetricMaps)
    requires IsDescMap(v, serverLabels, builtin + user, whole) && IsDescMap(v, serverLabels, builtin, other)
    requires compiled.Keys == builtin.Keys
    requires forall ns | ns in builtin :: compiled[ns] == if ns in user then other[ns] else whole[ns]
    ensures IsDescMap(v, serverLabels, builtin, compiled)
  {
    forall ns | ns in builtin ensures IsNamespaceOf(v, serverLabels, ns, builtin[ns], compiled[ns]) {
      if ns !in user {
        assert (builtin + user)[ns] == builtin[ns];
      }
    }
  }

  // ---- The stored conversion, which the row evaluator never calls ----

  function Convert(num: Numerics, conversion: Conversion, v: DBValue): (Float64, bool) {
    match conversion
    case ToNaN => (NaN, true)
    case ToFloat => DBToFloat64(num, v)
    case Lookup(mapping) =>
      if v.Text? && v.text in mapping then (mapping[v.text], true) else (NaN, false)
    case ToMilliseconds =>
      if (v.Text? || v.Bytes?) && v.text != "-1" then OrNaN(num.parseMilliseconds(v.text)) else (NaN, false)
  }

  /** What a MAPPEDMETRIC and a DURATION column's stored conversion would give: a text in the table, or a text that is a
      duration and not "-1"; of any other value nothing usable. */
  lemma ConversionsGive(num: Numerics, mapping: map<string, Float64>, v: DBValue)
    ensures Convert(num, Lookup(mapping), v).1 <==> v.Text? && v.text in mapping
    ensures v.Text? && v.text in mapping ==> Convert(num, Lookup(mapping), v).0 == mapping[v.text]
    ensures Convert(num, ToMilliseconds, v).1 <==> (v.Text? || v.Bytes?) && v.text != "-1" && num.parseMilliseconds(v.text).Some?
    ensures Convert(num, ToMilliseconds, v).1 ==> Some(Convert(num, ToMilliseconds, v).0) == num.parseMilliseconds(v.text)
    ensures !Convert(num, Lookup(mapping), v).1 ==> Convert(num, Lookup(mapping), v).0 == NaN
  {
  }

  /** A column's stored conversion is the one the evaluator uses exactly when the column is a counter or a gauge. */
  lemma ConversionAgrees(num: Numerics, v: Version, serverLabels: Labels, ns: string, column: string, m: ColumnMapping,
                         labels: seq<string>, shared: map<string, Float64>)
    requires !Discarded(m, v)
    ensures var d := DescribeColumn(v, serverLabels, ns, column, m, labels, shared);
            (forall x :: Convert(num, d.conversion, x) == DBToFloat64(num, x)) <==> m.usage == COUNTER || m.usage == GAUGE
  {
    var d := DescribeColumn(v, serverLabels, ns, column, m, labels, shared);
    assert Convert(num, ToNaN, Other) != DBToFloat64(num, Other);
    assert Convert(num, Lookup(shared), Null) != DBToFloat64(num, Null);
    assert Convert(num, ToMilliseconds, Null) != DBToFloat64(num, Null);
  }
}
