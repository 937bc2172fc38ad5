/** What scraping does to an exporter's connections, gauges and channel, one DSN after another. */
module ScrapeRuns {
  import opened Wrappers
  import opened Sequences
  import opened Versions
  import opened Values
  import opened MetricMaps
  import opened Evaluator
  import opened NamespaceScans
  import opened UserQueries
  import opened MapCache
  import opened PostgresServer

  /** What GetServer meets: what opening a connection would yield, and whether the ping answers. */
  datatype Link = Link(fingerprint: Option<string>, alive: bool)

  /** Everything outside the exporter that one DSN meets during a scrape. */
  datatype Surroundings = Surroundings(
    link: Link,
    probe: Probe,
    file: UserFile,
    settings: SettingsAnswer,
    db: Database)

  /** One connection as the next scrape finds it. */
  datatype Conn = Conn(labels: Labels, maps: Maps)

  type Conns = map<string, Conn>

  /** What the scrape of one DSN came to. */
  datatype Report = NotConnected | Scraped(metrics: seq<Metric>, settingsFailed: bool, failedNamespaces: set<string>)

  ghost predicate Failed(r: Report) {
    r.NotConnected? || r.settingsFailed || r.failedNamespaces != {}
  }

  /** The metric that tells the version, unless the default metrics are disabled. */
  function VersionMetrics(cfg: Config, serverLabels: Labels, probe: Probe): seq<Metric> {
    match VersionRead(probe)
    case None => []
    case Some(v) =>
      if cfg.disableDefaultMetrics then []
      else
        [VersionMetric(serverLabels, probe.text, Show(v))]
  }

  function VersionMetric(serverLabels: Labels, text: string, shortVersion: string): Metric {
    RawMetric.Metric(Desc("pg_static", "Version string as reported by postgres", ["version", "short_version"], serverLabels),
                     UntypedValue, Finite(1.0), [text, shortVersion])
  }

  ghost predicate MapsWellFormed(m: Maps) {
    m.metricMap.Some? ==> AllWellFormed(m.metricMap.value)
  }

  /** What a scrape of a connected DSN reports, its maps being `m`. */
  ghost predicate IsReport(cfg: Config, serverLabels: Labels, m: Maps, env: Surroundings, r: Report)
    requires MapsWellFormed(m)
  {
    var view := ReadingOf(env.db, serverLabels, m);
    && r.Scraped?
    && r.settingsFailed == (!cfg.disableSettingsMetrics && env.settings.failed)
    && r.failedNamespaces == FailedNamespaces(view)
    && exists order :: Enumerates(order, view.metricMap.Keys) &&
         r.metrics == VersionMetrics(cfg, serverLabels, env.probe) + SentBy(cfg.disableSettingsMetrics, env.settings, view, order)
  }

  /** checkMapVersions and Server.Scrape on one server, its maps being `m` before and `m'` after. */
  ghost predicate IsScrapeOf(cfg: Config, serverLabels: Labels, m: Maps, gauge: GaugeVec, env: Surroundings, report: Report,
                             m': Maps, gauge': GaugeVec) {
    var read := VersionRead(env.probe);
    && CheckStep(cfg, serverLabels, m, read, env.file, m')
    && gauge' == GaugeAfter(cfg, m, read, env.file, gauge)
    && MapsWellFormed(m')
    && IsReport(cfg, serverLabels, m', env, report)
  }

  ghost predicate Connects(conns: Conns, dsn: string, link: Link) {
    link.alive && (dsn in conns || link.fingerprint.Some?)
  }

  /** The connection a scrape of `dsn` uses: the one there is, or a new one without maps. */
  ghost function ConnUsed(constantLabels: Labels, conns: Conns, dsn: string, link: Link): Conn
    requires Connects(conns, dsn, link)
  {
    if dsn in conns then conns[dsn] else Conn(ServerLabels(link.fingerprint.value, constantLabels), INITIAL)
  }

  /** scrapeDSN: the connections and the gauge before and after, and the report. */
  ghost predicate DsnStep(cfg: Config, constantLabels: Labels, conns: Conns, gauge: GaugeVec, dsn: string, env: Surroundings,
                          report: Report, conns': Conns, gauge': GaugeVec) {
    match report
    case NotConnected =>
      !Connects(conns, dsn, env.link) && conns' == conns - {dsn} && gauge' == gauge
    case Scraped(_, _, _) =>
      && Connects(conns, dsn, env.link)
      && var used := ConnUsed(constantLabels, conns, dsn, env.link);
      && dsn in conns' && conns' == conns[dsn := Conn(used.labels, conns'[dsn].maps)]
      && IsScrapeOf(cfg, used.labels, used.maps, gauge, env, report, conns'[dsn].maps, gauge')
  }

  lemma ConnectedStep(cfg: Config, constantLabels: Labels, conns: Conns, gauge: GaugeVec, dsn: string, env: Surroundings,
                      report: Report, used: Conn, maps: Maps, conns': Conns, gauge': GaugeVec)
    requires Connects(conns, dsn, env.link) && used == ConnUsed(constantLabels, conns, dsn, env.link)
    requires conns' == conns[dsn := Conn(used.labels, maps)]
    requires IsScrapeOf(cfg, used.labels, used.maps, gauge, env, report, maps, gauge')
    ensures DsnStep(cfg, constantLabels, conns, gauge, dsn, env, report, conns', gauge')
  {
  }

  // ---- A scrape of several DSNs ----

  datatype World = World(conns: Conns, gauge: GaugeVec)

  ghost predicate ScrapesDsn(cfg: Config, constantLabels: Labels, dsn: string, env: Surroundings, report: Report, w: World, w': World) {
    DsnStep(cfg, constantLabels, w.conns, w.gauge, dsn, env, report, w'.conns, w'.gauge)
  }

  ghost predicate IsScrapeRun(cfg: Config, constantLabels: Labels, dsns: seq<string>, env: nat -> Surroundings,
                              worlds: seq<World>, reports: seq<Report>) {
    && |worlds| == |dsns| + 1 && |reports| == |dsns|
    && forall k | 0 <= k < |dsns| :: ScrapesDsn(cfg, constantLabels, dsns[k], env(k), reports[k], worlds[k], worlds[k + 1])
  }

  lemma ExtendRun(cfg: Config, constantLabels: Labels, dsns: seq<string>, env: nat -> Surroundings,
                  worlds: seq<World>, reports: seq<Report>, i: nat, report: Report, w: World)
    requires i < |dsns| && IsScrapeRun(cfg, constantLabels, dsns[..i], env, worlds, reports)
    requires ScrapesDsn(cfg, constantLabels, dsns[i], env(i), report, worlds[i], w)
    ensures IsScrapeRun(cfg, constantLabels, dsns[..i + 1], env, worlds + [w], reports + [report])
  {
    var worlds', reports' := worlds + [w], reports + [report];
    forall k | 0 <= k < i + 1
      ensures ScrapesDsn(cfg, constantLabels, dsns[..i + 1][k], env(k), reports'[k], worlds'[k], worlds'[k + 1])
    {
      if k < i {
        assert ScrapesDsn(cfg, constantLabels, dsns[..i][k], env(k), reports[k], worlds[k], worlds[k + 1]);
      }
    }
  }

  /** The two counters scrape keeps. */
  ghost predicate Counts(reports: seq<Report>, errorsCount: nat, connectionErrorsCount: nat) {
    && errorsCount == Count(reports, (r: Report) => Failed(r))
    && connectionErrorsCount == Count(reports, (r: Report) => r.NotConnected?)
  }

  lemma CountNext(reports: seq<Report>, errorsCount: nat, connectionErrorsCount: nat, report: Report)
    requires Counts(reports, errorsCount, connectionErrorsCount)
    ensures Counts(reports + [report], errorsCount + if Failed(report) then 1 else 0,
                   connectionErrorsCount + if report.NotConnected? then 1 else 0)
  {
    NextReport(reports, report, []);
  }

  ghost function AllSent(reports: seq<Report>): seq<Metric> {
    if reports == [] then [] else AllSent(reports[..|reports| - 1]) + Sent(reports[|reports| - 1])
  }

  ghost function Count(reports: seq<Report>, p: Report -> bool): nat {
    if reports == [] then 0
    else Count(reports[..|reports| - 1], p) + if p(reports[|reports| - 1]) then 1 else 0
  }

  /** The up gauge: 0 when no DSN could be connected to, the empty list included. */
  ghost function Up(reports: seq<Report>): int {
    if forall i | 0 <= i < |reports| :: reports[i].NotConnected? then 0 else 1
  }

  /** The error gauge: 1 when some DSN failed in any way that counts. */
  ghost function LastError(reports: seq<Report>): int {
    if exists i :: 0 <= i < |reports| && Failed(reports[i]) then 1 else 0
  }

  lemma NextReport(before: seq<Report>, report: Report, first: seq<Metric>)
    ensures AllSent(before + [report]) == AllSent(before) + Sent(report)
    ensures first + AllSent(before) + Sent(report) == first + AllSent(before + [report])
    ensures forall p: Report -> bool :: Count(before + [report], p) == Count(before, p) + if p(report) then 1 else 0
  {
    assert (before + [report])[..|before|] == before;
  }

  /** How far the loop over the DSNs is: the run so far from the world `first` to the world `last`, what it has sent
      after `before`, and its two counters. */
  ghost predicate ScrapedSoFar(cfg: Config, constantLabels: Labels, dsns: seq<string>, env: nat -> Surroundings,
                               worlds: seq<World>, reports: seq<Report>, first: World, last: World,
                               before: seq<Metric>, sent: seq<Metric>, errorsCount: nat, connectionErrorsCount: nat) {
    && IsScrapeRun(cfg, constantLabels, dsns, env, worlds, reports)
    && worlds[0] == first && worlds[|dsns|] == last
    && sent == before + AllSent(reports)
    && Counts(reports, errorsCount, connectionErrorsCount)
  }

  lemma NextDsn(cfg: Config, constantLabels: Labels, dsns: seq<string>, i: nat, env: nat -> Surroundings,
                worlds: seq<World>, reports: seq<Report>, first: World, last: World, before: seq<Metric>, sent: seq<Metric>,
                errorsCount: nat, connectionErrorsCount: nat, report: Report, w: World)
    requires i < |dsns|
    requires ScrapedSoFar(cfg, constantLabels, dsns[..i], env, worlds, reports, first, last, before, sent, errorsCount, connectionErrorsCount)
    requires ScrapesDsn(cfg, constantLabels, dsns[i], env(i), report, last, w)
    ensures ScrapedSoFar(cfg, constantLabels, dsns[..i + 1], env, worlds + [w], reports + [report], first, w,
                         before, sent + Sent(report), errorsCount + (if Failed(report) then 1 else 0),
                         connectionErrorsCount + if report.NotConnected? then 1 else 0)
  {
    ExtendRun(cfg, constantLabels, dsns, env, worlds, reports, i, report, w);
    NextReport(reports, report, before);
    CountNext(reports, errorsCount, connectionErrorsCount, report);
  }

  lemma {:induction false} CountIsFull(reports: seq<Report>, p: Report -> bool)
    ensures Count(reports, p) <= |reports|
    ensures Count(reports, p) == |reports| <==> forall i | 0 <= i < |reports| :: p(reports[i])
    ensures Count(reports, p) == 0 <==> forall i | 0 <= i < |reports| :: !p(reports[i])
  {
    if reports != [] {
      CountIsFull(reports[..|reports| - 1], p);
    }
  }

  /** The two counters give the two gauges. */
  lemma CountsDecide(reports: seq<Report>)
    ensures Up(reports) == if Count(reports, (r: Report) => r.NotConnected?) >= |reports| then 0 else 1
    ensures LastError(reports) == if Count(reports, (r: Report) => Failed(r)) == 0 then 0 else 1
  {
    CountIsFull(reports, (r: Report) => r.NotConnected?);
    CountIsFull(reports, (r: Report) => Failed(r));
  }

  /** The scrape outcome is exact. Up is 0 when every DSN fails to connect, and else 1. Error is 1 when some DSN
      does not connect, has an enabled settings query fail or a namespace that cannot be scanned to the end, and else 0:
      columns that do not convert count for neither. A scrape of some DSNs that reaches none of them is an error. */
  lemma OutcomeIsExact(cfg: Config, constantLabels: Labels, dsns: seq<string>, env: nat -> Surroundings,
                       worlds: seq<World>, reports: seq<Report>)
    requires IsScrapeRun(cfg, constantLabels, dsns, env, worlds, reports)
    ensures Up(reports) == if forall k | 0 <= k < |dsns| :: !Connects(worlds[k].conns, dsns[k], env(k).link) then 0 else 1
    ensures LastError(reports) ==
              if exists k :: 0 <= k < |dsns| && Troubled(cfg, dsns[k], env(k), worlds[k], worlds[k + 1]) then 1 else 0
    ensures Up(reports) == 0 && dsns != [] ==> LastError(reports) == 1
  {
    forall k | 0 <= k < |dsns|
      ensures reports[k].NotConnected? <==> !Connects(worlds[k].conns, dsns[k], env(k).link)
      ensures Failed(reports[k]) <==> Troubled(cfg, dsns[k], env(k), worlds[k], worlds[k + 1])
    {
      StepOutcome(cfg, constantLabels, dsns[k], env(k), reports[k], worlds[k], worlds[k + 1]);
    }
    if k :| 0 <= k < |dsns| && Failed(reports[k]) {
      assert Troubled(cfg, dsns[k], env(k), worlds[k], worlds[k + 1]);
    }
    NoneReachedIsAnError(reports);
  }

  lemma NoneReachedIsAnError(reports: seq<Report>)
    ensures Up(reports) == 0 && reports != [] ==> LastError(reports) == 1
  {
    if reports != [] && reports[0].NotConnected? {
      assert Failed(reports[0]);
    }
  }

  /** What makes the scrape of a DSN an error, said of its surroundings and of the maps it is scraped with. */
  ghost predicate Troubled(cfg: Config, dsn: string, env: Surroundings, w: World, w': World) {
    || !(env.link.alive && (dsn in w.conns || env.link.fingerprint.Some?))
    || (!cfg.disableSettingsMetrics && env.settings.failed)
    || (dsn in w'.conns && HasFailingNamespace(env.db, w'.conns[dsn].maps))
  }

  ghost predicate HasFailingNamespace(db: Database, m: Maps) {
    m.metricMap.Some? && exists ns :: ns in m.metricMap.value && CannotBeScanned(db, m.queryOverrides, ns)
  }

  lemma StepOutcome(cfg: Config, constantLabels: Labels, dsn: string, env: Surroundings, report: Report, w: World, w': World)
    requires ScrapesDsn(cfg, constantLabels, dsn, env, report, w, w')
    ensures report.NotConnected? <==> !Connects(w.conns, dsn, env.link)
    ensures Failed(report) <==> Troubled(cfg, dsn, env, w, w')
  {
    if report.Scraped? {
      FailingNamespaces(env.db, w'.conns[dsn].labels, w'.conns[dsn].maps);
    }
  }

  lemma FailingNamespaces(db: Database, serverLabels: Labels, m: Maps)
    requires MapsWellFormed(m)
    ensures FailedNamespaces(ReadingOf(db, serverLabels, m)) != {} <==> HasFailingNamespace(db, m)
  {
    FailedNamespacesAre(db, serverLabels, m);
    if HasFailingNamespace(db, m) {
      var ns :| ns in m.metricMap.value && CannotBeScanned(db, m.queryOverrides, ns);
      assert ns in FailedNamespaces(ReadingOf(db, serverLabels, m));
    }
  }

  /** What a scraped server sends: the version it told, if it was read and the default metrics are on; the settings, if
      they are on; and what each namespace of its maps sends, in some order. */
  lemma WhatAScrapeSends(cfg: Config, serverLabels: Labels, m: Maps, env: Surroundings, r: Report)
    returns (order: seq<string>, version: seq<Metric>, settings: seq<Metric>)
    requires MapsWellFormed(m) && IsReport(cfg, serverLabels, m, env, r)
    ensures var mapped := if m.metricMap.Some? then m.metricMap.value else map[];
            && r.Scraped? && Enumerates(order, mapped.Keys)
            && r.metrics == version + settings + Concat(order, ns => MapMetrics(env.db, serverLabels, m.queryOverrides, mapped, ns))
    ensures settings == if cfg.disableSettingsMetrics then [] else env.settings.metrics
    ensures |version| == if VersionRead(env.probe).Some? && !cfg.disableDefaultMetrics then 1 else 0
    ensures |version| == 1 ==>
              && version[0].desc.fqName == "pg_static" && version[0].desc.constLabels == serverLabels
              && version[0].vtype == UntypedValue && version[0].value == Finite(1.0)
              && version[0].desc.variableLabels == ["version", "short_version"]
              && version[0].labelValues == [env.probe.text, Show(VersionRead(env.probe).value)]
  {
    var view := ReadingOf(env.db, serverLabels, m);
    version := VersionMetrics(cfg, serverLabels, env.probe);
    settings := if cfg.disableSettingsMetrics then [] else env.settings.metrics;
    order :| Enumerates(order, view.metricMap.Keys) &&
      r.metrics == version + SentBy(cfg.disableSettingsMetrics, env.settings, view, order);
    var f, g := (ns: string) => MetricsOf(view, ns),
                (ns: string) => MapMetrics(env.db, serverLabels, m.queryOverrides, view.metricMap, ns);
    ConcatCongruence(order, f, g);
    Regroup(version, settings, Concat(order, g));
  }

  ghost function MapMetrics(db: Database, serverLabels: Labels, overrides: map<string, string>, mapped: MetricMaps, ns: string): seq<Metric>
    requires AllWellFormed(mapped)
  {
    if ns in mapped then ScanNamespace(db, serverLabels, overrides, ns, mapped[ns]).metrics else []
  }

  ghost function ReportOf(cfg: Config, serverLabels: Labels, m: Maps, env: Surroundings, order: seq<string>): (r: Report)
    requires MapsWellFormed(m) && Enumerates(order, ReadingOf(env.db, serverLabels, m).metricMap.Keys)
    ensures IsReport(cfg, serverLabels, m, env, r)
  {
    var view := ReadingOf(env.db, serverLabels, m);
    Scraped(VersionMetrics(cfg, serverLabels, env.probe) + SentBy(cfg.disableSettingsMetrics, env.settings, view, order),
            !cfg.disableSettingsMetrics && env.settings.failed, FailedNamespaces(view))
  }

  ghost function Sent(r: Report): seq<Metric> {
    match r
    case NotConnected => []
    case Scraped(metrics, _, _) => metrics
  }

  // ---- Database discovery ----

  /** URL parsing and printing, which are not part of this model: a URL is its path and the rest. */
  datatype UrlLibrary = UrlLibrary(parse: string -> Option<(string, string)>, format: (string, string) -> string)

  /** What listing the databases of a DSN meets: the connection, and the names if the query succeeds. */
  datatype Listing = Listing(link: Link, databases: Option<seq<string>>)

  /** `x` is the URL with its path replaced by database `n`, which is not excluded. */
  ghost predicate Expands(urls: UrlLibrary, rest: string, excluded: seq<string>, n: string, x: string) {
    n !in excluded && x == urls.format(rest, n)
  }

  ghost predicate ExpandsSome(urls: UrlLibrary, rest: string, excluded: seq<string>, names: seq<string>, x: string) {
    exists k :: 0 <= k < |names| && Expands(urls, rest, excluded, names[k], x)
  }

  lemma ExpandsNext(urls: UrlLibrary, rest: string, excluded: seq<string>, names: seq<string>, i: nat)
    requires i < |names|
    ensures forall x :: ExpandsSome(urls, rest, excluded, names[..i + 1], x) <==>
                        ExpandsSome(urls, rest, excluded, names[..i], x) || Expands(urls, rest, excluded, names[i], x)
  {
    var before, after := names[..i], names[..i + 1];
    forall x
      ensures ExpandsSome(urls, rest, excluded, after, x) <==>
              ExpandsSome(urls, rest, excluded, before, x) || Expands(urls, rest, excluded, names[i], x)
    {
      if k :| 0 <= k < |before| && Expands(urls, rest, excluded, before[k], x) {
        assert Expands(urls, rest, excluded, after[k], x);
      }
      if Expands(urls, rest, excluded, names[i], x) {
        assert Expands(urls, rest, excluded, after[i], x);
      }
      if k :| 0 <= k < |after| && Expands(urls, rest, excluded, after[k], x) {
        assert k < i ==> Expands(urls, rest, excluded, before[k], x);
      }
    }
  }

  /** `x` comes from DSN `d`: it is `d`, or `d` with another path. */
  ghost predicate Yields(urls: UrlLibrary, d: string, excluded: seq<string>, names: Option<seq<string>>, x: string) {
    && urls.parse(d).Some?
    && (x == d || (names.Some? && ExpandsSome(urls, urls.parse(d).value.0, excluded, names.value, x)))
  }

  ghost predicate IsDiscovered(urls: UrlLibrary, dsns: seq<string>, excluded: seq<string>, reached: seq<Option<seq<string>>>, x: string) {
    |reached| == |dsns| && exists i :: 0 <= i < |dsns| && Yields(urls, dsns[i], excluded, reached[i], x)
  }

  /** One configured DSN: skipped when it does not parse, else connected to; its databases are known when
      both the connection and the query succeed. */
  ghost predicate DiscoveryStep(constantLabels: Labels, urls: UrlLibrary, d: string, listing: Listing,
                                w: World, names: Option<seq<string>>, w': World) {
    if urls.parse(d).None? then w' == w && names == None
    else
      && ListsDsn(constantLabels, d, listing.link, w, w')
      && names == if Connects(w.conns, d, listing.link) then listing.databases else None
  }

  ghost predicate IsDiscoveryRun(constantLabels: Labels, urls: UrlLibrary, dsns: seq<string>, listing: nat -> Listing,
                                 worlds: seq<World>, reached: seq<Option<seq<string>>>) {
    && |worlds| == |dsns| + 1 && |reached| == |dsns|
    && forall k | 0 <= k < |dsns| :: DiscoveryStep(constantLabels, urls, dsns[k], listing(k), worlds[k], reached[k], worlds[k + 1])
  }

  lemma ExtendDiscovery(constantLabels: Labels, urls: UrlLibrary, dsns: seq<string>, listing: nat -> Listing,
                        worlds: seq<World>, reached: seq<Option<seq<string>>>, i: nat, names: Option<seq<string>>, w: World)
    requires i < |dsns| && IsDiscoveryRun(constantLabels, urls, dsns[..i], listing, worlds, reached)
    requires DiscoveryStep(constantLabels, urls, dsns[i], listing(i), worlds[i], names, w)
    ensures IsDiscoveryRun(constantLabels, urls, dsns[..i + 1], listing, worlds + [w], reached + [names])
  {
    var worlds', reached' := worlds + [w], reached + [names];
    forall k | 0 <= k < i + 1
      ensures DiscoveryStep(constantLabels, urls, dsns[..i + 1][k], listing(k), worlds'[k], reached'[k], worlds'[k + 1])
    {
      if k < i {
        assert DiscoveryStep(constantLabels, urls, dsns[..i][k], listing(k), worlds[k], reached[k], worlds[k + 1]);
      }
    }
  }

  lemma DiscoveredNext(urls: UrlLibrary, dsns: seq<string>, excluded: seq<string>, reached: seq<Option<seq<string>>>,
                       i: nat, names: Option<seq<string>>)
    requires i < |dsns| && |reached| == i
    ensures forall x :: IsDiscovered(urls, dsns[..i + 1], excluded, reached + [names], x) <==>
                        IsDiscovered(urls, dsns[..i], excluded, reached, x) || Yields(urls, dsns[i], excluded, names, x)
  {
    var dsns', reached' := dsns[..i + 1], reached + [names];
    forall x
      ensures IsDiscovered(urls, dsns', excluded, reached', x) <==>
              IsDiscovered(urls, dsns[..i], excluded, reached, x) || Yields(urls, dsns[i], excluded, names, x)
    {
      if k :| 0 <= k < i && Yields(urls, dsns[..i][k], excluded, reached[k], x) {
        assert Yields(urls, dsns'[k], excluded, reached'[k], x);
      }
      if k :| 0 <= k < i + 1 && Yields(urls, dsns'[k], excluded, reached'[k], x) {
        if k < i {
          assert Yields(urls, dsns[..i][k], excluded, reached[k], x);
        }
      }
      if Yields(urls, dsns[i], excluded, names, x) {
        assert Yields(urls, dsns'[i], excluded, reached'[i], x);
      }
    }
  }

  /** The DSNs a scrape goes through: those configured, or each of those discovered once. */
  ghost predicate IsDsnChoice(cfg: Config, constantLabels: Labels, urls: UrlLibrary, configured: seq<string>, listing: nat -> Listing,
                              w: World, dsns: seq<string>, w': World) {
    if !cfg.autoDiscoverDatabases then dsns == configured && w' == w
    else
      exists worlds, reached ::
        && IsDiscoveryRun(constantLabels, urls, configured, listing, worlds, reached)
        && worlds[0] == w && worlds[|configured|] == w'
        && NoDuplicates(dsns)
        && forall x :: x in dsns <==> IsDiscovered(urls, configured, cfg.excludeDatabases, reached, x)
  }

  /** Without discovery a scrape goes through the configured DSNs as they are. With it, through exactly these, once each:
      every configured DSN that parses, and each of those that could be reached and listed, with its path replaced by
      each database that is not excluded. */
  lemma ChoiceIs(cfg: Config, constantLabels: Labels, urls: UrlLibrary, configured: seq<string>, listing: nat -> Listing,
                 w: World, dsns: seq<string>, w': World)
    returns (worlds: seq<World>, reached: seq<Option<seq<string>>>)
    requires IsDsnChoice(cfg, constantLabels, urls, configured, listing, w, dsns, w')
    ensures !cfg.autoDiscoverDatabases ==> dsns == configured && w' == w
    ensures cfg.autoDiscoverDatabases ==>
              && |worlds| == |configured| + 1 && worlds[0] == w && worlds[|configured|] == w' && |reached| == |configured|
              && (forall i | 0 <= i < |configured| ::
                    reached[i] == if urls.parse(configured[i]).Some? && Connects(worlds[i].conns, configured[i], listing(i).link)
                                  then listing(i).databases else None)
              && NoDuplicates(dsns)
              && forall x :: x in dsns <==> exists i :: 0 <= i < |configured| && IsUrlOf(urls, configured[i], cfg.excludeDatabases, reached[i], x)
  {
    worlds, reached := [], [];
    if cfg.autoDiscoverDatabases {
      worlds, reached :|
        && IsDiscoveryRun(constantLabels, urls, configured, listing, worlds, reached)
        && worlds[0] == w && worlds[|configured|] == w'
        && NoDuplicates(dsns)
        && forall x :: x in dsns <==> IsDiscovered(urls, configured, cfg.excludeDatabases, reached, x);
      forall i | 0 <= i < |configured|
        ensures reached[i] == if urls.parse(configured[i]).Some? && Connects(worlds[i].conns, configured[i], listing(i).link)
                              then listing(i).databases else None
      {
        assert DiscoveryStep(constantLabels, urls, configured[i], listing(i), worlds[i], reached[i], worlds[i + 1]);
      }
      forall x
        ensures IsDiscovered(urls, configured, cfg.excludeDatabases, reached, x) <==>
                exists i :: 0 <= i < |configured| && IsUrlOf(urls, configured[i], cfg.excludeDatabases, reached[i], x)
      {
        DiscoveredIs(urls, configured, cfg.excludeDatabases, reached, x);
      }
    }
  }

  /** `x` is the DSN `d`, which parses, or `d` with its path replaced by one of its databases that is not excluded. */
  ghost predicate IsUrlOf(urls: UrlLibrary, d: string, excluded: seq<string>, databases: Option<seq<string>>, x: string) {
    match urls.parse(d)
    case None => false
    case Some((rest, _)) =>
      || x == d
      || (databases.Some? && exists n :: n in databases.value && n !in excluded && x == urls.format(rest, n))
  }

  lemma DiscoveredIs(urls: UrlLibrary, dsns: seq<string>, excluded: seq<string>, reached: seq<Option<seq<string>>>, x: string)
    requires |reached| == |dsns|
    ensures IsDiscovered(urls, dsns, excluded, reached, x) <==>
            exists i :: 0 <= i < |dsns| && IsUrlOf(urls, dsns[i], excluded, reached[i], x)
  {
    forall i | 0 <= i < |dsns|
      ensures Yields(urls, dsns[i], excluded, reached[i], x) <==> IsUrlOf(urls, dsns[i], excluded, reached[i], x)
    {
      if urls.parse(dsns[i]).Some? && reached[i].Some? {
        ExpandsIs(urls, urls.parse(dsns[i]).value.0, excluded, reached[i].value, x);
      }
    }
  }

  lemma ExpandsIs(urls: UrlLibrary, rest: string, excluded: seq<string>, names: seq<string>, x: string)
    ensures ExpandsSome(urls, rest, excluded, names, x) <==> exists n :: n in names && n !in excluded && x == urls.format(rest, n)
  {
    if n :| n in names && n !in excluded && x == urls.format(rest, n) {
      var k :| 0 <= k < |names| && names[k] == n;
      assert Expands(urls, rest, excluded, names[k], x);
    }
    if k :| 0 <= k < |names| && Expands(urls, rest, excluded, names[k], x) {
      assert names[k] in names;
    }
  }

  /** scrape: the DSNs are chosen, then each is scraped. */
  ghost predicate IsWholeScrape(cfg: Config, constantLabels: Labels, urls: UrlLibrary, configured: seq<string>,
                                listing: nat -> Listing, env: nat -> Surroundings, w: World, dsns: seq<string>,
                                worlds: seq<World>, reports: seq<Report>, w': World) {
    && IsScrapeRun(cfg, constantLabels, dsns, env, worlds, reports)
    && IsDsnChoice(cfg, constantLabels, urls, configured, listing, w, dsns, worlds[0])
    && worlds[|dsns|] == w'
  }

  lemma ScrapeInTwoParts(cfg: Config, constantLabels: Labels, urls: UrlLibrary, configured: seq<string>,
                         listing: nat -> Listing, env: nat -> Surroundings, w: World, dsns: seq<string>,
                         chosen: World, worlds: seq<World>, reports: seq<Report>)
    requires IsScrapeRun(cfg, constantLabels, dsns, env, worlds, reports) && worlds[0] == chosen
    requires IsDsnChoice(cfg, constantLabels, urls, configured, listing, w, dsns, chosen)
    ensures IsWholeScrape(cfg, constantLabels, urls, configured, listing, env, w, dsns, worlds, reports, worlds[|dsns|])
  {
  }

  // ---- Any number of scrapes, with database discovery between them ----

  /** A step of the exporter: the scrape of one DSN, or a connection made to list its databases. */
  datatype Action = ScrapeOf(dsn: string, env: Surroundings) | ListingOf(dsn: string, link: Link)

  ghost predicate ActionStep(cfg: Config, constantLabels: Labels, w: World, a: Action, w': World) {
    match a
    case ScrapeOf(dsn, env) => exists report :: ScrapesDsn(cfg, constantLabels, dsn, env, report, w, w')
    case ListingOf(dsn, link) => ListsDsn(constantLabels, dsn, link, w, w')
  }

  /** Connecting to a DSN to list its databases: a connection is made or kept, or there is none afterwards. */
  ghost predicate ListsDsn(constantLabels: Labels, dsn: string, link: Link, w: World, w': World) {
    w' == if Connects(w.conns, dsn, link) then w.(conns := w.conns[dsn := ConnUsed(constantLabels, w.conns, dsn, link)])
          else w.(conns := w.conns - {dsn})
  }

  ghost predicate ExporterRun(cfg: Config, constantLabels: Labels, actions: seq<Action>, worlds: seq<World>) {
    Steps(cfg, constantLabels, actions, worlds) && worlds[0] == World(map[], map[])
  }

  ghost function StepOf(cfg: Config, constantLabels: Labels): (World, Action, World) -> bool {
    (w, a, w') => ActionStep(cfg, constantLabels, w, a, w')
  }

  ghost predicate Steps(cfg: Config, constantLabels: Labels, actions: seq<Action>, worlds: seq<World>) {
    Chain(StepOf(cfg, constantLabels), actions, worlds)
  }

  ghost function ScrapeActions(dsns: seq<string>, env: nat -> Surroundings): seq<Action> {
    seq(|dsns|, k requires 0 <= k < |dsns| => ScrapeOf(dsns[k], env(k)))
  }

  lemma ScrapeIsSteps(cfg: Config, constantLabels: Labels, dsns: seq<string>, env: nat -> Surroundings,
                      worlds: seq<World>, reports: seq<Report>)
    requires IsScrapeRun(cfg, constantLabels, dsns, env, worlds, reports)
    ensures Steps(cfg, constantLabels, ScrapeActions(dsns, env), worlds)
  {
    forall k | 0 <= k < |dsns|
      ensures ActionStep(cfg, constantLabels, worlds[k], ScrapeActions(dsns, env)[k], worlds[k + 1])
    {
      assert ScrapesDsn(cfg, constantLabels, dsns[k], env(k), reports[k], worlds[k], worlds[k + 1]);
    }
  }

  /** A discovery is a step for each DSN that parses. */
  lemma {:induction false} DiscoveryIsSteps(cfg: Config, constantLabels: Labels, urls: UrlLibrary, dsns: seq<string>,
                                            listing: nat -> Listing, worlds: seq<World>, reached: seq<Option<seq<string>>>, n: nat)
    returns (actions: seq<Action>, through: seq<World>)
    requires IsDiscoveryRun(constantLabels, urls, dsns, listing, worlds, reached) && n <= |dsns|
    ensures Steps(cfg, constantLabels, actions, through) && through[0] == worlds[0] && through[|actions|] == worlds[n]
  {
    if n == 0 {
      actions, through := [], [worlds[0]];
    } else {
      actions, through := DiscoveryIsSteps(cfg, constantLabels, urls, dsns, listing, worlds, reached, n - 1);
      assert DiscoveryStep(constantLabels, urls, dsns[n - 1], listing(n - 1), worlds[n - 1], reached[n - 1], worlds[n]);
      if urls.parse(dsns[n - 1]).Some? {
        var action, step := ListingOf(dsns[n - 1], listing(n - 1).link), [worlds[n - 1], worlds[n]];
        assert ActionStep(cfg, constantLabels, step[0], action, step[1]);
        ChainAppend(StepOf(cfg, constantLabels), actions, through, [action], step);
        actions, through := actions + [action], through + step[1..];
      }
    }
  }

  /** One more scrape, discovery and all, after a run is a longer run: what holds of every run holds of an exporter
      however often it scrapes. */
  lemma ScrapeExtendsRun(cfg: Config, constantLabels: Labels, actions: seq<Action>, through: seq<World>,
                         urls: UrlLibrary, configured: seq<string>, listing: nat -> Listing, env: nat -> Surroundings,
                         dsns: seq<string>, worlds: seq<World>, reports: seq<Report>, w': World)
    returns (actions': seq<Action>, through': seq<World>)
    requires ExporterRun(cfg, constantLabels, actions, through)
    requires IsWholeScrape(cfg, constantLabels, urls, configured, listing, env, through[|actions|], dsns, worlds, reports, w')
    ensures ExporterRun(cfg, constantLabels, actions', through')
    ensures actions <= actions' && through <= through' && through'[|actions'|] == w'
  {
    actions', through' := actions, through;
    if cfg.autoDiscoverDatabases {
      var listed, reached :|
        && IsDiscoveryRun(constantLabels, urls, configured, listing, listed, reached)
        && listed[0] == through[|actions|] && listed[|configured|] == worlds[0];
      var more, steps := DiscoveryIsSteps(cfg, constantLabels, urls, configured, listing, listed, reached, |configured|);
      ChainAppend(StepOf(cfg, constantLabels), actions, through, more, steps);
      actions', through' := actions + more, through + steps[1..];
    }
    ScrapeIsSteps(cfg, constantLabels, dsns, env, worlds, reports);
    ChainAppend(StepOf(cfg, constantLabels), actions', through', ScrapeActions(dsns, env), worlds);
    actions', through' := actions' + ScrapeActions(dsns, env), through' + worlds[1..];
  }

  ghost predicate RebuildsAt(constantLabels: Labels, w: World, a: Action) {
    && a.ScrapeOf? && Connects(w.conns, a.dsn, a.env.link)
    && Rebuilds(ConnUsed(constantLabels, w.conns, a.dsn, a.env.link).maps, VersionRead(a.env.probe))
  }

  /** Which actions rebuild the maps of some server. */
  ghost function RebuildMarks(constantLabels: Labels, worlds: seq<World>, actions: seq<Action>): (marks: seq<bool>)
    requires |worlds| == |actions| + 1
    ensures |marks| == |actions| && forall i | 0 <= i < |marks| :: marks[i] <==> RebuildsAt(constantLabels, worlds[i], actions[i])
  {
    seq(|actions|, i requires 0 <= i < |actions| => RebuildsAt(constantLabels, worlds[i], actions[i]))
  }

  ghost predicate GaugeStep(cfg: Config, constantLabels: Labels, w: World, a: Action, w': World) {
    w'.gauge == if RebuildsAt(constantLabels, w, a) then LoadResult(cfg, a.env.file) else w.gauge
  }

  lemma EveryGaugeStep(cfg: Config, constantLabels: Labels, actions: seq<Action>, worlds: seq<World>)
    requires ExporterRun(cfg, constantLabels, actions, worlds) && cfg.userQueriesPath != ""
    ensures forall i | 0 <= i < |actions| :: GaugeStep(cfg, constantLabels, worlds[i], actions[i], worlds[i + 1])
  {
    forall i | 0 <= i < |actions| ensures GaugeStep(cfg, constantLabels, worlds[i], actions[i], worlds[i + 1]) {
      assert ActionStep(cfg, constantLabels, worlds[i], actions[i], worlds[i + 1]);
    }
  }

  /** With a user file configured the gauge holds nothing before the first rebuild, and after it exactly the one
      series of the most recent rebuild, on whichever server that was: 0 when the file was read and merged, else 1. */
  lemma GaugeTellsTheLastLoad(cfg: Config, constantLabels: Labels, actions: seq<Action>, worlds: seq<World>, n: nat)
    requires ExporterRun(cfg, constantLabels, actions, worlds) && cfg.userQueriesPath != "" && n <= |actions|
    ensures match LastMark(RebuildMarks(constantLabels, worlds, actions), n)
            case None => worlds[n].gauge == map[]
            case Some(i) =>
              var file := actions[i].env.file;
              && RebuildsAt(constantLabels, worlds[i], actions[i])
              && worlds[n].gauge.Keys == {(cfg.userQueriesPath, match file case Missing => "" case File(hash, _) => hash)}
              && forall key | key in worlds[n].gauge ::
                   && (worlds[n].gauge[key] == 0 <==> file.File? && IsReadable(file.content))
                   && (worlds[n].gauge[key] == 1 <==> !(file.File? && IsReadable(file.content)))
  {
    var marks := RebuildMarks(constantLabels, worlds, actions);
    var written := seq(|actions|, i requires 0 <= i < |actions| => if marks[i] then LoadResult(cfg, actions[i].env.file) else map[]);
    var values := seq(|worlds|, i requires 0 <= i < |worlds| => worlds[i].gauge);
    EveryGaugeStep(cfg, constantLabels, actions, worlds);
    forall i | 0 <= i < |marks| ensures values[i + 1] == if marks[i] then written[i] else values[i] {
      assert GaugeStep(cfg, constantLabels, worlds[i], actions[i], worlds[i + 1]);
    }
    LastWrite(marks, written, values, n);
    var last := LastMark(marks, n);
    if last.Some? {
      LoadResultIs(cfg, actions[last.value].env.file);
    }
  }

  // ---- Each connection's maps ----

  ghost function LinkOf(a: Action): Link {
    if a.ScrapeOf? then a.env.link else a.link
  }

  /** What an action does to the maps of one DSN. */
  datatype Mark = Keeps | Builds | Drops

  ghost function MarkOf(constantLabels: Labels, w: World, a: Action, dsn: string): Mark {
    if a.dsn != dsn then Keeps
    else if !Connects(w.conns, dsn, LinkOf(a)) then Drops
    else if RebuildsAt(constantLabels, w, a) then Builds
    else Keeps
  }

  ghost function MarksOf(constantLabels: Labels, worlds: seq<World>, actions: seq<Action>, dsn: string): (marks: seq<Mark>)
    requires |worlds| == |actions| + 1
    ensures |marks| == |actions| && forall i | 0 <= i < |marks| :: marks[i] == MarkOf(constantLabels, worlds[i], actions[i], dsn)
  {
    seq(|actions|, i requires 0 <= i < |actions| => MarkOf(constantLabels, worlds[i], actions[i], dsn))
  }

  /** Of the first `n` actions the last to build, unless one has dropped since. */
  ghost function LastBuild(marks: seq<Mark>, n: nat): (r: Option<nat>)
    requires n <= |marks|
    ensures r.Some? ==> r.value < n && marks[r.value] == Builds && forall j | r.value < j < n :: marks[j] == Keeps
  {
    if n == 0 then None
    else AfterMark(marks[n - 1], n - 1, LastBuild(marks, n - 1))
  }

  function AfterMark(mark: Mark, k: nat, last: Option<nat>): Option<nat> {
    match mark
    case Keeps => last
    case Builds => Some(k)
    case Drops => None
  }

  /** With no last build, none has been made since the beginning or since the last drop. */
  lemma {:induction false} NoBuildSince(marks: seq<Mark>, n: nat) returns (d: nat)
    requires n <= |marks| && LastBuild(marks, n).None?
    ensures d <= n && (d == 0 || marks[d - 1] == Drops) && forall j | d <= j < n :: marks[j] == Keeps
  {
    d := n;
    if n > 0 && marks[n - 1] != Drops {
      d := NoBuildSince(marks, n - 1);
    }
  }

  ghost predicate HasServerLabels(constantLabels: Labels, c: Conn) {
    exists fingerprint :: c.labels == map["server" := fingerprint] + constantLabels
  }

  /** The maps of a connection are the empty ones until they are first rebuilt. Then they are the from-scratch build for
      the version the last rebuilding scrape read and the file it found. */
  ghost predicate Sound(cfg: Config, c: Conn, actions: seq<Action>, last: Option<nat>) {
    match last
    case None => c.maps == INITIAL
    case Some(k) =>
      && k < |actions| && actions[k].ScrapeOf? && VersionRead(actions[k].env.probe).Some?
      && IsBuild(cfg, c.labels, VersionRead(actions[k].env.probe).value, actions[k].env.file, c.maps)
  }

  ghost predicate Fits(cfg: Config, constantLabels: Labels, conns: Conns, dsn: string, actions: seq<Action>, last: Option<nat>) {
    if dsn in conns then HasServerLabels(constantLabels, conns[dsn]) && Sound(cfg, conns[dsn], actions, last)
    else last.None?
  }

  lemma FitsStep(cfg: Config, constantLabels: Labels, w: World, actions: seq<Action>, k: nat, w': World, dsn: string, last: Option<nat>)
    requires k < |actions| && ActionStep(cfg, constantLabels, w, actions[k], w')
    requires Fits(cfg, constantLabels, w.conns, dsn, actions, last)
    ensures Fits(cfg, constantLabels, w'.conns, dsn, actions, AfterMark(MarkOf(constantLabels, w, actions[k], dsn), k, last))
  {
    StepOfDsn(cfg, constantLabels, w, actions[k], w', dsn);
  }

  lemma {:induction false} ConnectionsStaySound(cfg: Config, constantLabels: Labels, actions: seq<Action>, worlds: seq<World>,
                                                n: nat, dsn: string)
    requires ExporterRun(cfg, constantLabels, actions, worlds) && n <= |actions|
    ensures Fits(cfg, constantLabels, worlds[n].conns, dsn, actions, LastBuild(MarksOf(constantLabels, worlds, actions, dsn), n))
  {
    var marks := MarksOf(constantLabels, worlds, actions, dsn);
    if n > 0 {
      var last := LastBuild(marks, n - 1);
      ConnectionsStaySound(cfg, constantLabels, actions, worlds, n - 1, dsn);
      assert ActionStep(cfg, constantLabels, worlds[n - 1], actions[n - 1], worlds[n]);
      FitsStep(cfg, constantLabels, worlds[n - 1], actions, n - 1, worlds[n], dsn, last);
      assert LastBuild(marks, n) == AfterMark(MarkOf(constantLabels, worlds[n - 1], actions[n - 1], dsn), n - 1, last);
    }
  }

  /** What one action does to the connection of one DSN. */
  lemma StepOfDsn(cfg: Config, constantLabels: Labels, w: World, a: Action, w': World, dsn: string)
    requires ActionStep(cfg, constantLabels, w, a, w')
    ensures dsn != a.dsn ==> (dsn in w'.conns <==> dsn in w.conns) && (dsn in w.conns ==> w'.conns[dsn] == w.conns[dsn])
    ensures dsn == a.dsn ==> (dsn in w'.conns <==> Connects(w.conns, dsn, LinkOf(a)))
    ensures dsn == a.dsn && dsn in w'.conns ==>
              var used := ConnUsed(constantLabels, w.conns, dsn, LinkOf(a));
              && (dsn !in w.conns ==> HasServerLabels(constantLabels, used))
              && w'.conns[dsn].labels == used.labels
              && if RebuildsAt(constantLabels, w, a) then
                   var read := VersionRead(a.env.probe);
                   read.Some? && IsBuild(cfg, used.labels, read.value, a.env.file, w'.conns[dsn].maps)
                 else w'.conns[dsn].maps == used.maps
  {
    if dsn == a.dsn && dsn in w'.conns {
      var used := ConnUsed(constantLabels, w.conns, dsn, LinkOf(a));
      assert dsn !in w.conns ==> used.labels == map["server" := LinkOf(a).fingerprint.value] + constantLabels;
    }
  }

  /** After a failed connection, a DSN's maps stay empty until a scrape of it reads a version. */
  lemma {:induction false} EmptyAfterFailure(cfg: Config, constantLabels: Labels, actions: seq<Action>, worlds: seq<World>,
                                             i: nat, n: nat)
    requires ExporterRun(cfg, constantLabels, actions, worlds) && i < n <= |actions|
    requires !Connects(worlds[i].conns, actions[i].dsn, LinkOf(actions[i]))
    requires forall k | i < k < n :: !ReadsVersion(worlds[k], actions[k], actions[i].dsn)
    ensures actions[i].dsn in worlds[n].conns ==> worlds[n].conns[actions[i].dsn].maps == INITIAL
  {
    var dsn := actions[i].dsn;
    assert ActionStep(cfg, constantLabels, worlds[n - 1], actions[n - 1], worlds[n]);
    StepOfDsn(cfg, constantLabels, worlds[n - 1], actions[n - 1], worlds[n], dsn);
    if i < n - 1 {
      EmptyAfterFailure(cfg, constantLabels, actions, worlds, i, n - 1);
    }
  }

  /** A scrape of `dsn` that connects and reads a version. */
  ghost predicate ReadsVersion(w: World, a: Action, dsn: string) {
    a.ScrapeOf? && a.dsn == dsn && Connects(w.conns, dsn, a.env.link) && VersionRead(a.env.probe).Some?
  }

  /** After a failed connection, in a scrape or a listing, the first scrape of that DSN to connect and read a version
      rebuilds its maps, whatever the version; listings and scrapes that read none may come between. */
  lemma FirstReadingAfterFailureRebuilds(cfg: Config, constantLabels: Labels, actions: seq<Action>, worlds: seq<World>,
                                         i: nat, j: nat)
    requires ExporterRun(cfg, constantLabels, actions, worlds) && i < j < |actions|
    requires !Connects(worlds[i].conns, actions[i].dsn, LinkOf(actions[i]))
    requires ReadsVersion(worlds[j], actions[j], actions[i].dsn)
    requires forall k | i < k < j :: !ReadsVersion(worlds[k], actions[k], actions[i].dsn)
    ensures RebuildsAt(constantLabels, worlds[j], actions[j])
  {
    EmptyAfterFailure(cfg, constantLabels, actions, worlds, i, j);
  }
}
