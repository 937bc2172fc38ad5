/** The maps a server keeps between scrapes, and when checkMapVersions (internal/pgxexporter/exporter.go)
    rebuilds them. */
module MapCache {
  import opened Wrappers
  import opened Versions
  import opened VersionParsing
  import opened MetricMaps
  import opened QueryOverrides
  import opened UserQueries

  datatype Config = Config(
    builtinMetricMaps: ColumnTables,
    queryOverrides: OverrideTable,
    disableDefaultMetrics: bool,
    disableSettingsMetrics: bool,
    autoDiscoverDatabases: bool,
    excludeDatabases: seq<string>,
    userQueriesPath: string)

  /** What the exporter keeps per server. A nil metric map is None. */
  datatype Maps = Maps(version: Version, metricMap: Option<MetricMaps>, queryOverrides: map<string, string>)

  const INITIAL := Maps(ZERO, None, map[])

  /** What asking a server for its version gives. */
  datatype Probe = Unavailable | Banner(text: string)

  /** What reading the user's queries file gives: nothing, or bytes with their hash and their YAML reading. */
  datatype UserFile = Missing | File(hash: string, content: Content)

  type GaugeVec = map<(string, string), int>

  function VersionRead(probe: Probe): Option<Version> {
    match probe
    case Unavailable => None
    case Banner(text) =>
      match ParseVersion(text)
      case Ok(v) => Some(v)
      case Err(_) => None
  }

  function BaseTables(cfg: Config): ColumnTables {
    if cfg.disableDefaultMetrics then map[] else cfg.builtinMetricMaps
  }

  function BaseOverrides(cfg: Config): OverrideTable {
    if cfg.disableDefaultMetrics then map[] else cfg.queryOverrides
  }

  ghost predicate Merges(cfg: Config, file: UserFile) {
    cfg.userQueriesPath != "" && file.File? && Loads(file.content)
  }

  /** The document that is merged: the file's, or an empty one. */
  ghost function MergedDocument(cfg: Config, file: UserFile): Document {
    if Merges(cfg, file) then file.content.doc else map[]
  }

  /** `m` is a from-scratch build for version `v`: one compilation of the built-in tables overridden by the
      user's, and the queries of both. */
  ghost predicate IsBuild(cfg: Config, serverLabels: Labels, v: Version, file: UserFile, m: Maps) {
    var doc := MergedDocument(cfg, file);
    && m.version == v
    && m.metricMap.Some? && IsDescMap(v, serverLabels, BaseTables(cfg) + UserTables(doc), m.metricMap.value)
    && m.queryOverrides == OverrideMap(v, BaseOverrides(cfg)) + UserOverrides(doc)
  }

  ghost predicate Rebuilds(m: Maps, read: Option<Version>) {
    read.Some? && (read.value != m.version || m.metricMap.None?)
  }

  /** One call of checkMapVersions, having read a version or not: a rebuild when the version read differs or there
      are no maps, else nothing. */
  ghost predicate CheckStep(cfg: Config, serverLabels: Labels, m: Maps, read: Option<Version>, file: UserFile, m': Maps) {
    if Rebuilds(m, read) then IsBuild(cfg, serverLabels, read.value, file, m') else m' == m
  }

  /** The one series a rebuild leaves in the user_queries_load_error gauge. */
  ghost function LoadResult(cfg: Config, file: UserFile): GaugeVec {
    map[(cfg.userQueriesPath, if file.File? then file.hash else "") := if Merges(cfg, file) then 0 else 1]
  }

  ghost function GaugeAfter(cfg: Config, m: Maps, read: Option<Version>, file: UserFile, gauge: GaugeVec): GaugeVec {
    if Rebuilds(m, read) && cfg.userQueriesPath != "" then LoadResult(cfg, file) else gauge
  }

  /** A version is read from a banner that parses, and from nothing else. */
  lemma VersionIsRead(probe: Probe)
    ensures probe.Unavailable? ==> VersionRead(probe).None?
    ensures probe.Banner? ==> (VersionRead(probe).Some? <==> ParseVersion(probe.text).Ok?)
    ensures probe.Banner? && ParseVersion(probe.text).Ok? ==> VersionRead(probe).value == ParseVersion(probe.text).value
  {
  }

  /** Whether a rebuild merges the user's document: a file is configured, there, and readable. */
  lemma MergesExactlyWhen(cfg: Config, file: UserFile)
    ensures Merges(cfg, file) <==> cfg.userQueriesPath != "" && file.File? && IsReadable(file.content)
  {
    if file.File? {
      LoadsExactlyWhen(file.content);
    }
  }

  /** The gauge after a rebuild: one series, with the file's hash or none, 0 when the file was read and merged, else 1. */
  lemma LoadResultIs(cfg: Config, file: UserFile)
    requires cfg.userQueriesPath != ""
    ensures LoadResult(cfg, file).Keys == {(cfg.userQueriesPath, match file case Missing => "" case File(hash, _) => hash)}
    ensures forall key | key in LoadResult(cfg, file) ::
              && (LoadResult(cfg, file)[key] == 0 <==> file.File? && IsReadable(file.content))
              && (LoadResult(cfg, file)[key] == 1 <==> !(file.File? && IsReadable(file.content)))
  {
    MergesExactlyWhen(cfg, file);
  }

  /** What a build holds: the built-in namespaces unless the default metrics are disabled, and over them those of the
      user's document when it is merged; and likewise the queries. */
  lemma BuildHolds(cfg: Config, serverLabels: Labels, v: Version, file: UserFile, m: Maps)
    requires IsBuild(cfg, serverLabels, v, file, m)
    ensures m.version == v && m.metricMap.Some?
    ensures var merged := cfg.userQueriesPath != "" && file.File? && IsReadable(file.content);
            && (forall ns :: ns in m.metricMap.value <==>
                  || (!cfg.disableDefaultMetrics && ns in cfg.builtinMetricMaps)
                  || (merged && ns in UserTables(file.content.doc)))
            && (forall ns | ns in m.metricMap.value ::
                  IsNamespaceOf(v, serverLabels, ns, if merged && ns in UserTables(file.content.doc) then UserTables(file.content.doc)[ns]
                                                     else cfg.builtinMetricMaps[ns], m.metricMap.value[ns]))
    ensures var merged := cfg.userQueriesPath != "" && file.File? && IsReadable(file.content);
            && (forall ns :: ns in m.queryOverrides <==>
                  || (!cfg.disableDefaultMetrics && ns in cfg.queryOverrides)
                  || (merged && ns in UserOverrides(file.content.doc)))
            && (forall ns | ns in m.queryOverrides ::
                  if merged && ns in UserOverrides(file.content.doc) then m.queryOverrides[ns] == UserOverrides(file.content.doc)[ns]
                  else Selects(v, cfg.queryOverrides[ns], m.queryOverrides[ns]))
  {
    MergesExactlyWhen(cfg, file);
    EmptyDocument();
    forall ns | ns in BaseOverrides(cfg) ensures Selects(v, BaseOverrides(cfg)[ns], OverrideMap(v, BaseOverrides(cfg))[ns]) {
      QueryIsSelected(v, BaseOverrides(cfg)[ns]);
    }
  }

  lemma BuildsAreWellFormed(cfg: Config, serverLabels: Labels, v: Version, file: UserFile, m: Maps)
    requires IsBuild(cfg, serverLabels, v, file, m)
    ensures AllWellFormed(m.metricMap.value)
  {
    CompilationIsWellFormed(v, serverLabels, BaseTables(cfg) + UserTables(MergedDocument(cfg, file)), m.metricMap.value);
  }

  lemma EmptyDocument()
    ensures UserTables(map[]) == map[] && UserOverrides(map[]) == map[]
  {
  }

  /** A compilation of the built-in tables with one of the merged document's put over it is a from-scratch build. */
  lemma BuildFromParts(cfg: Config, serverLabels: Labels, v: Version, file: UserFile, base: MetricMaps, partial: MetricMaps, m: Maps)
    requires IsDescMap(v, serverLabels, BaseTables(cfg), base)
    requires IsDescMap(v, serverLabels, UserTables(MergedDocument(cfg, file)), partial)
    requires m == Maps(v, Some(base + partial), OverrideMap(v, BaseOverrides(cfg)) + UserOverrides(MergedDocument(cfg, file)))
    ensures IsBuild(cfg, serverLabels, v, file, m)
  {
    CompileThenMerge(v, serverLabels, BaseTables(cfg), UserTables(MergedDocument(cfg, file)), base, partial);
  }

  // ---- Any number of calls on one server ----

  datatype Event = Event(read: Option<Version>, file: UserFile)

  ghost predicate Run(cfg: Config, serverLabels: Labels, events: seq<Event>, states: seq<Maps>) {
    && |states| == |events| + 1 && states[0] == INITIAL
    && forall i | 0 <= i < |events| :: CheckStep(cfg, serverLabels, states[i], events[i].read, events[i].file, states[i + 1])
  }

  /** The version last read successfully among the first `n` events. */
  ghost function LastRead(events: seq<Event>, n: nat): Option<Version>
    requires n <= |events|
  {
    if n == 0 then None
    else if events[n - 1].read.Some? then events[n - 1].read
    else LastRead(events, n - 1)
  }

  /** Among the first `n` events, `i` is the last to read something other than what was read before it. */
  ghost predicate IsLastChange(events: seq<Event>, n: nat, i: nat) {
    && i < n <= |events|
    && events[i].read.Some? && events[i].read != LastRead(events, i)
    && forall j | i < j < n :: events[j].read.None? || events[j].read == events[i].read
  }

  /** `m` is a from-scratch build for the version last read, with the user file as it was at event `change`, the
      last change of version; before any version is read there are no maps. */
  ghost predicate Agrees(cfg: Config, serverLabels: Labels, events: seq<Event>, n: nat, change: nat, m: Maps)
    requires n <= |events|
  {
    match LastRead(events, n)
    case None => m == INITIAL
    case Some(v) =>
      && IsLastChange(events, n, change) && events[change].read == Some(v)
      && IsBuild(cfg, serverLabels, v, events[change].file, m)
  }

  /** Cache agreement, after any run of successes, failures, upgrades and downgrades. */
  lemma {:induction false} CacheAgreement(cfg: Config, serverLabels: Labels, events: seq<Event>, states: seq<Maps>, n: nat)
    returns (change: nat)
    requires Run(cfg, serverLabels, events, states) && n <= |events|
    ensures Agrees(cfg, serverLabels, events, n, change, states[n])
  {
    change := 0;
    if n > 0 {
      change := CacheAgreement(cfg, serverLabels, events, states, n - 1);
      change := StepAgreement(cfg, serverLabels, events, n - 1, change, states[n - 1], states[n]);
    }
  }

  lemma StepAgreement(cfg: Config, serverLabels: Labels, events: seq<Event>, n: nat, change: nat, m: Maps, m': Maps)
    returns (change': nat)
    requires n < |events| && Agrees(cfg, serverLabels, events, n, change, m)
    requires CheckStep(cfg, serverLabels, m, events[n].read, events[n].file, m')
    ensures Agrees(cfg, serverLabels, events, n + 1, change', m')
  {
    var e, last := events[n], LastRead(events, n);
    if e.read.Some? && e.read != last {
      change' := n;
      ChangeRebuilds(cfg, serverLabels, m, e, m', last);
    } else {
      change' := change;
      NoChangeKeeps(cfg, serverLabels, m, e, m', last);
    }
  }

  /** Maps and the version last read always match. */
  ghost predicate Matches(m: Maps, last: Option<Version>) {
    if last.None? then m == INITIAL else m.metricMap.Some? && m.version == last.value
  }

  lemma ChangeRebuilds(cfg: Config, serverLabels: Labels, m: Maps, e: Event, m': Maps, last: Option<Version>)
    requires CheckStep(cfg, serverLabels, m, e.read, e.file, m') && Matches(m, last)
    requires e.read.Some? && e.read != last
    ensures IsBuild(cfg, serverLabels, e.read.value, e.file, m')
  {
  }

  lemma NoChangeKeeps(cfg: Config, serverLabels: Labels, m: Maps, e: Event, m': Maps, last: Option<Version>)
    requires CheckStep(cfg, serverLabels, m, e.read, e.file, m') && Matches(m, last)
    requires e.read.None? || e.read == last
    ensures m' == m
  {
  }
}
