/** The Exporter (internal/pgxexporter/exporter.go): map versions, one scrape, database discovery. */
module Exporter {
  import opened Wrappers
  import opened Sequences
  import opened Versions
  import opened VersionParsing
  import opened MetricMaps
  import opened Evaluator
  import opened UserQueries
  import opened MapCache
  import opened ConnectionCache
  import opened PostgresServer
  import opened ScrapeRuns

  /** What scrapes see of some servers. */
  ghost function ConnsOf(servers: map<string, Server>): Conns
    reads servers.Values
  {
    map d | d in servers :: Conn(servers[d].labels, servers[d].Maps())
  }

  lemma ConnsOfUpdate(servers: map<string, Server>, d: string, s: Server)
    ensures ConnsOf(servers[d := s]) == ConnsOf(servers)[d := Conn(s.labels, s.Maps())]
  {
  }

  lemma ConnsOfRemove(servers: map<string, Server>, d: string)
    ensures ConnsOf(servers - {d}) == ConnsOf(servers) - {d}
  {
  }

  class Exporter {
    const cfg: Config
    const dsn: seq<string>
    const servers: Servers
    var userQueriesError: GaugeVec
    var psqlUp: int
    var error: int
    var totalScrapes: nat

    ghost predicate Valid()
      reads servers, servers.pools.Keys
    {
      servers.Valid()
    }

    ghost function Conns(): Conns
      reads servers, servers.servers.Values
    {
      ConnsOf(servers.servers)
    }

    constructor (cfg: Config, dsn: seq<string>, constantLabels: Labels)
      ensures Valid() && Conns() == map[] && fresh(servers)
      ensures userQueriesError == map[] && servers.constantLabels == constantLabels
      ensures this.cfg == cfg && this.dsn == dsn
    {
      this.cfg := cfg;
      this.dsn := dsn;
      userQueriesError, psqlUp, error, totalScrapes := map[], 0, 0, 0;
      servers := new Servers(constantLabels);
    }

    /** The built-in maps of a version, and its queries; both empty when the default metrics are disabled. */
    method BaseMaps(serverLabels: Labels, v: Version) returns (metricMap: MetricMaps, overrides: map<string, string>)
      ensures IsDescMap(v, serverLabels, BaseTables(cfg), metricMap) && AllWellFormed(metricMap)
      ensures overrides == QueryOverrides.OverrideMap(v, BaseOverrides(cfg))
    {
      metricMap := map[];
      overrides := map[];
      if !cfg.disableDefaultMetrics {
        metricMap := MakeDescMap(v, serverLabels, cfg.builtinMetricMaps);
        overrides := QueryOverrides.MakeQueryOverrideMap(v, cfg.queryOverrides);
      }
    }

    /** The part of checkMapVersions under the write lock. */
    method Rebuild(server: Server, v: Version, file: UserFile)
      requires server.Valid()
      modifies server`lastMapVersion, server`metricMap, server`queryOverrides, this`userQueriesError
      ensures server.Valid()
      ensures IsBuild(cfg, server.labels, v, file, server.Maps())
      ensures userQueriesError == if cfg.userQueriesPath == "" then old(userQueriesError) else LoadResult(cfg, file)
    {
      var metricMap, overrides := BaseMaps(server.labels, v);
      server.metricMap := Some(metricMap);
      server.queryOverrides := overrides;
      server.lastMapVersion := v;
      ghost var partial: MetricMaps := map[];
      EmptyDocument();
      assert metricMap + map[] == metricMap && overrides + map[] == overrides;
      if cfg.userQueriesPath != "" {
        partial := LoadUserQueries(server, v, file);
      }
      BuildFromParts(cfg, server.labels, v, file, metricMap, partial, server.Maps());
    }

    /** Reading and merging the user's file, and telling the gauge how that went. */
    method LoadUserQueries(server: Server, v: Version, file: UserFile) returns (ghost partial: MetricMaps)
      requires server.Valid() && server.metricMap.Some? && cfg.userQueriesPath != ""
      modifies server`metricMap, server`queryOverrides, this`userQueriesError
      ensures server.Valid() && server.metricMap.Some?
      ensures IsDescMap(v, server.labels, UserTables(MergedDocument(cfg, file)), partial)
      ensures server.metricMap.value == old(server.metricMap).value + partial
      ensures server.queryOverrides == old(server.queryOverrides) + UserOverrides(MergedDocument(cfg, file))
      ensures userQueriesError == LoadResult(cfg, file)
      ensures forall key | key in userQueriesError :: userQueriesError[key] == if file.File? && IsReadable(file.content) then 0 else 1
    {
      LoadResultIs(cfg, file);
      partial := map[];
      EmptyDocument();
      userQueriesError := map[];
      if file.Missing? {
        userQueriesError := userQueriesError[(cfg.userQueriesPath, "") := 1];
      } else {
        var ok;
        ghost var added;
        ok, added := server.AddQueries(file.content, v);
        if ok {
          partial := added;
          userQueriesError := userQueriesError[(cfg.userQueriesPath, file.hash) := 0];
        } else {
          userQueriesError := userQueriesError[(cfg.userQueriesPath, file.hash) := 1];
        }
      }
    }

    /** Rebuild when the version read is not that of the maps, or there are no maps. */
    method RebuildIfChanged(server: Server, v: Version, file: UserFile)
      requires server.Valid()
      modifies server`lastMapVersion, server`metricMap, server`queryOverrides, this`userQueriesError
      ensures server.Valid()
      ensures CheckStep(cfg, server.labels, old(server.Maps()), Some(v), file, server.Maps())
      ensures userQueriesError == GaugeAfter(cfg, old(server.Maps()), Some(v), file, old(userQueriesError))
    {
      if v != server.lastMapVersion || server.metricMap.None? {
        Rebuild(server, v, file);
      }
    }

    /** checkMapVersions: a version that cannot be had changes nothing. */
    method CheckMapVersions(ch: MetricChannel, server: Server, probe: Probe, file: UserFile) returns (err: bool)
      requires server.Valid()
      modifies ch, server`lastMapVersion, server`metricMap, server`queryOverrides, this`userQueriesError
      ensures server.Valid()
      ensures CheckStep(cfg, server.labels, old(server.Maps()), VersionRead(probe), file, server.Maps())
      ensures userQueriesError == GaugeAfter(cfg, old(server.Maps()), VersionRead(probe), file, old(userQueriesError))
      ensures ch.sent == old(ch.sent) + VersionMetrics(cfg, server.labels, probe)
      ensures err <==> VersionRead(probe).None?
    {
      if probe.Unavailable? {
        return true;
      }
      var parsed := ParseVersion(probe.text);
      if parsed.Err? {
        return true;
      }
      var semanticVersion := parsed.value;
      RebuildIfChanged(server, semanticVersion, file);
      if !cfg.disableDefaultMetrics {
        ch.Send(VersionMetric(server.labels, probe.text, Show(semanticVersion)));
      }
      return false;
    }

    /** GetServer, said of the connections instead of the servers. */
    method Connect(d: string, link: Link) returns (server: Option<Server>)
      requires Valid()
      modifies servers
      ensures Valid() && fresh(servers.pools.Keys - old(servers.pools.Keys))
      ensures server.Some? <==> Connects(old(Conns()), d, link)
      ensures server.None? ==> Conns() == old(Conns()) - {d}
      ensures server.Some? ==>
                && d in servers.servers && servers.servers[d] == server.value && server.value in servers.pools
                && Conns() == old(Conns())[d := ConnUsed(servers.constantLabels, old(Conns()), d, link)]
    {
      ghost var before, conns := servers.State(), Conns();
      ghost var opening;
      server, opening := servers.GetServer(d, link.fingerprint, link.alive);
      StepIsSafe(before, Call(d, opening, link.alive, server), servers.State());
      assert ConnsOf(before.entries) == conns;
      if server.None? {
        ConnsOfRemove(before.entries, d);
        assert servers.servers == before.entries - {d};
      } else {
        ConnsOfUpdate(before.entries, d, server.value);
        assert servers.servers == before.entries[d := server.value];
      }
    }

    /** A change of one server is a change of one connection. */
    twostate lemma OneServerChanged(d: string)
      requires old(Valid()) && d in old(servers.servers) && unchanged(servers) && servers.servers[d].Valid()
      requires forall s | s in old(servers.pools) && s != old(servers.servers[d]) :: unchanged(s)
      ensures Valid()
      ensures Conns() == old(Conns())[d := Conn(servers.servers[d].labels, servers.servers[d].Maps())]
    {
    }

    /** checkMapVersions and Server.Scrape on a connected server. */
    method ScrapeConnected(ch: MetricChannel, d: string, env: Surroundings) returns (err: Option<ScrapeError>, ghost report: Report)
      requires Valid() && d in servers.servers
      modifies ch, servers.servers[d], this`userQueriesError
      ensures Valid()
      ensures Conns() == old(Conns())[d := Conn(servers.servers[d].labels, servers.servers[d].Maps())]
      ensures IsScrapeOf(cfg, servers.servers[d].labels, old(servers.servers[d].Maps()), old(userQueriesError), env, report,
                         servers.servers[d].Maps(), userQueriesError)
      ensures ch.sent == old(ch.sent) + Sent(report)
      ensures (err.Some? <==> Failed(report)) && err != Some(ConnectError)
    {
      err, report := CheckThenScrape(ch, servers.servers[d], env);
      OneServerChanged(d);
    }

    /** A version that cannot be read does not stop the scrape. */
    method CheckThenScrape(ch: MetricChannel, server: Server, env: Surroundings) returns (err: Option<ScrapeError>, ghost report: Report)
      requires server.Valid()
      modifies ch, server, this`userQueriesError
      ensures server.Valid()
      ensures IsScrapeOf(cfg, server.labels, old(server.Maps()), old(userQueriesError), env, report, server.Maps(), userQueriesError)
      ensures ch.sent == old(ch.sent) + Sent(report)
      ensures (err.Some? <==> Failed(report)) && err != Some(ConnectError)
    {
      var _ := CheckMapVersions(ch, server, env.probe, env.file);
      err, report := ScrapeServer(ch, server, env, old(ch.sent));
    }

    /** scrapeDSN. */
    method ScrapeDSN(ch: MetricChannel, d: string, env: Surroundings) returns (err: Option<ScrapeError>, ghost report: Report)
      requires Valid()
      modifies ch, servers, servers.pools.Keys, this`userQueriesError
      ensures Valid() && fresh(servers.pools.Keys - old(servers.pools.Keys))
      ensures DsnStep(cfg, servers.constantLabels, old(Conns()), old(userQueriesError), d, env, report, Conns(), userQueriesError)
      ensures ch.sent == old(ch.sent) + Sent(report)
      ensures err.Some? <==> Failed(report)
      ensures err == Some(ConnectError) <==> report.NotConnected?
    {
      var server := Connect(d, env.link);
      if server.None? {
        return Some(ConnectError), NotConnected;
      }
      ghost var conns, gauge, used := old(Conns()), old(userQueriesError), Conns()[d];
      err, report := ScrapeConnected(ch, d, env);
      Overwrite(conns, d, used, Conn(used.labels, server.value.Maps()));
      ConnectedStep(cfg, servers.constantLabels, conns, gauge, d, env, report, used, server.value.Maps(), Conns(), userQueriesError);
    }

    /** Server.Scrape after the version metric. */
    method ScrapeServer(ch: MetricChannel, server: Server, env: Surroundings, ghost before: seq<Metric>)
      returns (err: Option<ScrapeError>, ghost report: Report)
      requires server.Valid() && ch.sent == before + VersionMetrics(cfg, server.labels, env.probe)
      modifies ch
      ensures report.Scraped? && IsReport(cfg, server.labels, server.Maps(), env, report)
      ensures ch.sent == before + Sent(report)
      ensures err.Some? <==> Failed(report)
      ensures err != Some(ConnectError)
    {
      ghost var order;
      err, order := server.Scrape(ch, cfg.disableSettingsMetrics, env.settings, env.db);
      report := ReportOf(cfg, server.labels, server.Maps(), env, order);
      Regroup(before, VersionMetrics(cfg, server.labels, env.probe),
              SentBy(cfg.disableSettingsMetrics, env.settings, server.Reading(env.db), order));
    }

    /** The loop of scrape; `worlds` are the connections and the gauge between two DSNs. */
    method ScrapeAll(ch: MetricChannel, dsns: seq<string>, env: nat -> Surroundings)
      returns (errorsCount: nat, connectionErrorsCount: nat, ghost reports: seq<Report>, ghost worlds: seq<World>)
      requires Valid()
      modifies this`userQueriesError, ch, servers, servers.pools.Keys
      ensures Valid() && fresh(servers.pools.Keys - old(servers.pools.Keys))
      ensures IsScrapeRun(cfg, servers.constantLabels, dsns, env, worlds, reports)
      ensures worlds[0] == World(old(Conns()), old(userQueriesError)) && worlds[|dsns|] == World(Conns(), userQueriesError)
      ensures ch.sent == old(ch.sent) + AllSent(reports)
      ensures Counts(reports, errorsCount, connectionErrorsCount)
    {
      errorsCount, connectionErrorsCount := 0, 0;
      reports, worlds := [], [World(Conns(), userQueriesError)];
      ghost var first, before := worlds[0], ch.sent;
      for i := 0 to |dsns|
        invariant Valid()
        invariant forall s | s in servers.pools :: s in old(servers.pools) || fresh(s)
        invariant ScrapedSoFar(cfg, servers.constantLabels, dsns[..i], env, worlds, reports, first,
                               World(Conns(), userQueriesError), before, ch.sent, errorsCount, connectionErrorsCount)
      {
        errorsCount, connectionErrorsCount, reports, worlds :=
          ScrapeNext(ch, dsns, i, env, errorsCount, connectionErrorsCount, reports, worlds, first, before);
      }
      assert dsns[..|dsns|] == dsns;
    }

    /** The body of the loop. */
    method ScrapeNext(ch: MetricChannel, dsns: seq<string>, i: nat, env: nat -> Surroundings,
                      errorsCount: nat, connectionErrorsCount: nat,
                      ghost reports: seq<Report>, ghost worlds: seq<World>, ghost first: World, ghost before: seq<Metric>)
      returns (errorsCount': nat, connectionErrorsCount': nat, ghost reports': seq<Report>, ghost worlds': seq<World>)
      requires Valid() && i < |dsns|
      requires ScrapedSoFar(cfg, servers.constantLabels, dsns[..i], env, worlds, reports, first,
                            World(Conns(), userQueriesError), before, ch.sent, errorsCount, connectionErrorsCount)
      modifies this`userQueriesError, ch, servers, servers.pools.Keys
      ensures Valid() && fresh(servers.pools.Keys - old(servers.pools.Keys))
      ensures ScrapedSoFar(cfg, servers.constantLabels, dsns[..i + 1], env, worlds', reports', first,
                           World(Conns(), userQueriesError), before, ch.sent, errorsCount', connectionErrorsCount')
    {
      ghost var last, sent := World(Conns(), userQueriesError), ch.sent;
      var err;
      ghost var report;
      err, report := ScrapeDSN(ch, dsns[i], env(i));
      ghost var w := World(Conns(), userQueriesError);
      NextDsn(cfg, servers.constantLabels, dsns, i, env, worlds, reports, first, last, before, sent,
              errorsCount, connectionErrorsCount, report, w);
      reports', worlds' := reports + [report], worlds + [w];
      errorsCount', connectionErrorsCount' := errorsCount, connectionErrorsCount;
      if err.Some? {
        errorsCount' := errorsCount' + 1;
        if err.value == ConnectError {
          connectionErrorsCount' := connectionErrorsCount' + 1;
        }
      }
    }

    /** discoverDatabaseDSNs. `reached` tells, for each configured DSN, the databases it listed, if it came to that. */
    method DiscoverDatabaseDSNs(urls: UrlLibrary, listing: nat -> Listing)
      returns (result: array<string>, ghost reached: seq<Option<seq<string>>>, ghost worlds: seq<World>)
      requires Valid()
      modifies servers
      ensures Valid() && fresh(servers.pools.Keys - old(servers.pools.Keys)) && fresh(result)
      ensures IsDiscoveryRun(servers.constantLabels, urls, dsn, listing, worlds, reached)
      ensures worlds[0] == World(old(Conns()), userQueriesError) && worlds[|dsn|] == World(Conns(), userQueriesError)
      ensures NoDuplicates(result[..])
      ensures forall x :: x in result[..] <==> IsDiscovered(urls, dsn, cfg.excludeDatabases, reached, x)
    {
      var dsns: set<string> := {};
      reached, worlds := [], [World(Conns(), userQueriesError)];
      for i := 0 to |dsn|
        invariant Valid() && fresh(servers.pools.Keys - old(servers.pools.Keys))
        invariant IsDiscoveryRun(servers.constantLabels, urls, dsn[..i], listing, worlds, reached)
        invariant worlds[0] == World(old(Conns()), userQueriesError) && worlds[i] == World(Conns(), userQueriesError)
        invariant forall x :: x in dsns <==> IsDiscovered(urls, dsn[..i], cfg.excludeDatabases, reached, x)
      {
        var found;
        ghost var names, before := None, reached;
        found, names := ExpandDSN(urls, dsn[i], listing(i));
        ghost var w := World(Conns(), userQueriesError);
        ExtendDiscovery(servers.constantLabels, urls, dsn, listing, worlds, reached, i, names, w);
        DiscoveredNext(urls, dsn, cfg.excludeDatabases, reached, i, names);
        reached, worlds := reached + [names], worlds + [w];
        dsns := dsns + found;
      }
      assert dsn[..|dsn|] == dsn;
      result := ToArray(dsns);
    }

    /** The body of the loop: the DSN itself if it parses, and one for each database it lists that is not excluded. */
    method ExpandDSN(urls: UrlLibrary, d: string, listing: Listing) returns (found: set<string>, ghost names: Option<seq<string>>)
      requires Valid()
      modifies servers
      ensures Valid() && fresh(servers.pools.Keys - old(servers.pools.Keys))
      ensures DiscoveryStep(servers.constantLabels, urls, d, listing, World(old(Conns()), userQueriesError), names,
                            World(Conns(), userQueriesError))
      ensures forall x :: x in found <==> Yields(urls, d, cfg.excludeDatabases, names, x)
    {
      found, names := {}, None;
      var parts := urls.parse(d);
      if parts.None? {
        return;
      }
      found := {d};
      var server := Connect(d, listing.link);
      if server.None? || listing.databases.None? {
        return;
      }
      names := listing.databases;
      var others := ReplacePaths(urls, parts.value, cfg.excludeDatabases, listing.databases.value);
      found := found + others;
    }

    /** The first lines of scrape: the configured DSNs, or those discovered. */
    method ChooseDsns(urls: UrlLibrary, listing: nat -> Listing) returns (dsns: seq<string>)
      requires Valid()
      modifies servers
      ensures Valid() && fresh(servers.pools.Keys - old(servers.pools.Keys))
      ensures IsDsnChoice(cfg, servers.constantLabels, urls, dsn, listing, World(old(Conns()), userQueriesError), dsns,
                          World(Conns(), userQueriesError))
    {
      dsns := dsn;
      if cfg.autoDiscoverDatabases {
        ghost var reached, worlds;
        var discovered;
        discovered, reached, worlds := DiscoverDatabaseDSNs(urls, listing);
        dsns := discovered[..];
      }
    }

    /** The choice of the DSNs and the loop over them. */
    method ScrapeChosen(ch: MetricChannel, urls: UrlLibrary, listing: nat -> Listing, env: nat -> Surroundings)
      returns (dsns: seq<string>, errorsCount: nat, connectionErrorsCount: nat, ghost reports: seq<Report>, ghost worlds: seq<World>)
      requires Valid()
      modifies this`userQueriesError, ch, servers, servers.pools.Keys
      ensures Valid()
      ensures IsWholeScrape(cfg, servers.constantLabels, urls, dsn, listing, env,
                            World(old(Conns()), old(userQueriesError)), dsns, worlds, reports, World(Conns(), userQueriesError))
      ensures ch.sent == old(ch.sent) + AllSent(reports)
      ensures Counts(reports, errorsCount, connectionErrorsCount)
    {
      ghost var before := World(Conns(), userQueriesError);
      dsns := ChooseDsns(urls, listing);
      ghost var chosen := World(Conns(), userQueriesError);
      errorsCount, connectionErrorsCount, reports, worlds := ScrapeAll(ch, dsns, env);
      ScrapeInTwoParts(cfg, servers.constantLabels, urls, dsn, listing, env, before, dsns, chosen, worlds, reports);
    }

    /** scrape: some DSNs, each scraped once in their order, and what the gauges say afterwards. */
    method Scrape(ch: MetricChannel, urls: UrlLibrary, listing: nat -> Listing, env: nat -> Surroundings)
      returns (dsns: seq<string>, ghost reports: seq<Report>, ghost worlds: seq<World>)
      requires Valid()
      modifies this, ch, servers, servers.pools.Keys
      ensures Valid() && totalScrapes == old(totalScrapes) + 1
      ensures IsWholeScrape(cfg, servers.constantLabels, urls, dsn, listing, env,
                            World(old(Conns()), old(userQueriesError)), dsns, worlds, reports, World(Conns(), userQueriesError))
      ensures ch.sent == old(ch.sent) + AllSent(reports)
      ensures psqlUp == Up(reports) && error == LastError(reports)
    {
      totalScrapes := totalScrapes + 1;
      ghost var before := World(Conns(), userQueriesError);
      assert before == World(old(Conns()), old(userQueriesError));
      var errorsCount, connectionErrorsCount;
      dsns, errorsCount, connectionErrorsCount, reports, worlds := ScrapeChosen(ch, urls, listing, env);
      CountsDecide(reports);
      SetGauges(errorsCount, connectionErrorsCount, |dsns|);
    }

    method SetGauges(errorsCount: nat, connectionErrorsCount: nat, count: nat)
      requires Valid()
      modifies this`psqlUp, this`error
      ensures Valid() && Conns() == old(Conns())
      ensures psqlUp == if connectionErrorsCount >= count then 0 else 1
      ensures error == if errorsCount == 0 then 0 else 1
    {
      psqlUp := if connectionErrorsCount >= count then 0 else 1;
      error := if errorsCount == 0 then 0 else 1;
    }
  }

  /** The loop over the databases of one server: one parsed URL, its path overwritten for each of them. */
  method ReplacePaths(urls: UrlLibrary, parts: (string, string), excludeDatabases: seq<string>, databaseNames: seq<string>)
    returns (found: set<string>)
    ensures forall x :: x in found <==> ExpandsSome(urls, parts.0, excludeDatabases, databaseNames, x)
  {
    var parsedDSN := new ParsedUrl(parts.0, parts.1);
    found := {};
    for i := 0 to |databaseNames|
      invariant forall x :: x in found <==> ExpandsSome(urls, parts.0, excludeDatabases, databaseNames[..i], x)
    {
      ExpandsNext(urls, parts.0, excludeDatabases, databaseNames, i);
      var excluded := Contains(excludeDatabases, databaseNames[i]);
      if excluded {
        continue;
      }
      parsedDSN.path := databaseNames[i];
      found := found + {parsedDSN.String(urls)};
    }
    assert databaseNames[..|databaseNames|] == databaseNames;
  }

  /** contains (internal/pgxexporter/utils.go). */
  method Contains(a: seq<string>, x: string) returns (r: bool)
    ensures r <==> x in a
  {
    for i := 0 to |a|
      invariant x !in a[..i]
    {
      if x == a[i] {
        return true;
      }
    }
    return false;
  }

  /** A set ranged over into an array made for it, one index after another. */
  method ToArray(s: set<string>) returns (result: array<string>)
    ensures fresh(result) && Enumerates(result[..], s)
  {
    var order := RangeOver(s);
    EnumerationSize(order, s);
    result := new string[|s|](_ => "");
    var index := 0;
    while index < |order|
      invariant 0 <= index <= |order| == result.Length
      invariant result[..index] == order[..index]
    {
      result[index] := order[index];
      index := index + 1;
    }
    assert result[..] == result[..|order|] == order;
  }

  /** A parsed URL, whose path the discovery overwrites for each database. */
  class ParsedUrl {
    const rest: string
    var path: string

    constructor (rest: string, path: string)
      ensures this.rest == rest && this.path == path
    {
      this.rest := rest;
      this.path := path;
    }

    function String(urls: UrlLibrary): string
      reads this
    {
      urls.format(rest, path)
    }
  }
}
