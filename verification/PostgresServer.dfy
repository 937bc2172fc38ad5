/** The Server and Servers structs (internal/pgxexporter/postgres_server.go and servers.go). */
module PostgresServer {
  import opened Wrappers
  import opened Sequences
  import opened Versions
  import opened MetricMaps
  import opened Evaluator
  import opened NamespaceScans
  import opened UserQueries
  import opened MapCache
  import opened ConnectionCache

  const SERVER_LABEL := "server"

  /** The answer to the settings query: the metrics sent before it ended, and whether it failed. */
  datatype SettingsAnswer = SettingsAnswer(metrics: seq<Metric>, failed: bool)

  datatype ScrapeError = ConnectError | SettingsError | NamespaceErrors(count: nat)

  /** A server's own label, overridden by the configured ones. */
  function ServerLabels(fingerprint: string, constantLabels: Labels): Labels {
    map[SERVER_LABEL := fingerprint] + constantLabels
  }

  /** A server's labels are the configured ones, and its fingerprint under "server" unless that is configured too. */
  lemma ServerLabelsAre(fingerprint: string, constantLabels: Labels)
    ensures ServerLabels(fingerprint, constantLabels).Keys == {"server"} + constantLabels.Keys
    ensures forall k | k in constantLabels :: ServerLabels(fingerprint, constantLabels)[k] == constantLabels[k]
    ensures "server" !in constantLabels ==> ServerLabels(fingerprint, constantLabels)["server"] == fingerprint
  {
  }

  /** ServerWithLabels: the loop that copies the configured labels over the server's. */
  method WithLabels(serverLabels: Labels, constantLabels: Labels) returns (labels: Labels)
    ensures labels == serverLabels + constantLabels
  {
    labels := serverLabels;
    var keys := RangeOver(constantLabels.Keys);
    for i := 0 to |keys|
      invariant forall k :: k in labels <==> k in serverLabels || k in keys[..i]
      invariant forall k | k in labels :: labels[k] == if k in keys[..i] then constantLabels[k] else serverLabels[k]
      invariant forall k | k in keys[..i] :: k in constantLabels
    {
      assert keys[i] in keys && keys[..i + 1] == keys[..i] + [keys[i]];
      labels := labels[keys[i] := constantLabels[keys[i]]];
    }
    assert keys[..|keys|] == keys;
  }

  class Server {
    const labels: Labels
    var lastMapVersion: Version
    var metricMap: Option<MetricMaps>
    var queryOverrides: map<string, string>
    var closed: bool

    ghost function Maps(): Maps
      reads this`lastMapVersion, this`metricMap, this`queryOverrides
    {
      MapCache.Maps(lastMapVersion, metricMap, queryOverrides)
    }

    ghost predicate Valid()
      reads this`metricMap
    {
      metricMap.Some? ==> AllWellFormed(metricMap.value)
    }

    /** NewServer, with ServerWithLabels as its option. */
    constructor (fingerprint: string, constantLabels: Labels)
      ensures Valid() && !closed
      ensures Maps() == INITIAL && labels == ServerLabels(fingerprint, constantLabels)
      ensures labels == map["server" := fingerprint] + constantLabels
      ensures lastMapVersion == ZERO && metricMap == None && queryOverrides == map[]
    {
      var all := WithLabels(map[SERVER_LABEL := fingerprint], constantLabels);
      labels := all;
      lastMapVersion := ZERO;
      metricMap := None;
      queryOverrides := map[];
      closed := false;
    }

    method Close()
      modifies this`closed
      ensures closed
    {
      closed := true;
    }

    /** addQueries: all or nothing. A document that cannot be read or names an unknown usage leaves the maps
        alone; any other is compiled to `partial` and merged whole. */
    method AddQueries(content: Content, pgVersion: Version) returns (ok: bool, ghost partial: MetricMaps)
      requires Valid() && metricMap.Some?
      modifies this`metricMap, this`queryOverrides
      ensures Valid() && metricMap.Some?
      ensures ok <==> Loads(content)
      ensures !ok ==> unchanged(this)
      ensures ok ==>
                && IsDescMap(pgVersion, labels, UserTables(content.doc), partial)
                && metricMap.value == old(metricMap).value + partial
                && queryOverrides == old(queryOverrides) + UserOverrides(content.doc)
    {
      partial := map[];
      if content.Malformed? {
        return false, partial;
      }
      var read := ReadDocument(content.doc);
      if read.Err? {
        return false, partial;
      }
      partial := MergeTables(read.value.0, read.value.1, pgVersion);
      ok := true;
    }

    /** The second half of addQueries: compile the column tables, then merge both maps. */
    method MergeTables(metricMaps: ColumnTables, newQueryOverrides: map<string, string>, pgVersion: Version)
      returns (partial: MetricMaps)
      requires Valid() && metricMap.Some?
      modifies this`metricMap, this`queryOverrides
      ensures Valid() && metricMap.Some?
      ensures IsDescMap(pgVersion, labels, metricMaps, partial)
      ensures metricMap.value == old(metricMap).value + partial
      ensures queryOverrides == old(queryOverrides) + newQueryOverrides
    {
      partial := MakeDescMap(pgVersion, labels, metricMaps);
      MergeMetrics(partial);
      MergeOverrides(newQueryOverrides);
    }

    /** The loop that merges the compiled namespaces key by key. */
    method MergeMetrics(partial: MetricMaps)
      requires Valid() && metricMap.Some? && AllWellFormed(partial)
      modifies this`metricMap
      ensures Valid() && metricMap.Some? && metricMap.value == old(metricMap).value + partial
    {
      var keys := RangeOver(partial.Keys);
      for i := 0 to |keys|
        invariant metricMap.Some?
        invariant forall k :: k in metricMap.value <==> k in old(metricMap).value || k in keys[..i]
        invariant forall k | k in keys[..i] :: k in partial
        invariant forall k | k in metricMap.value ::
                    metricMap.value[k] == if k in keys[..i] then partial[k] else old(metricMap).value[k]
      {
        assert keys[i] in keys && keys[..i + 1] == keys[..i] + [keys[i]];
        metricMap := Some(metricMap.value[keys[i] := partial[keys[i]]]);
      }
      assert keys[..|keys|] == keys;
      Overridden(old(metricMap).value, partial, metricMap.value);
    }

    method MergeOverrides(newQueryOverrides: map<string, string>)
      modifies this`queryOverrides
      ensures queryOverrides == old(queryOverrides) + newQueryOverrides
    {
      var keys := RangeOver(newQueryOverrides.Keys);
      for i := 0 to |keys|
        invariant forall k :: k in queryOverrides <==> k in old(queryOverrides) || k in keys[..i]
        invariant forall k | k in keys[..i] :: k in newQueryOverrides
        invariant forall k | k in queryOverrides ::
                    queryOverrides[k] == if k in keys[..i] then newQueryOverrides[k] else old(queryOverrides)[k]
      {
        assert keys[i] in keys && keys[..i + 1] == keys[..i] + [keys[i]];
        queryOverrides := queryOverrides[keys[i] := newQueryOverrides[keys[i]]];
      }
      assert keys[..|keys|] == keys;
      Overridden(old(queryOverrides), newQueryOverrides, queryOverrides);
    }

    ghost function Reading(db: Database): View
      reads this
    {
      ReadingOf(db, labels, Maps())
    }

    /** Scrape: settings, then every namespace. A namespace's fatal error hides a settings error. */
    method Scrape(ch: MetricChannel, disableSettingsMetrics: bool, settings: SettingsAnswer, db: Database)
      returns (err: Option<ScrapeError>, ghost order: seq<string>)
      requires Valid()
      modifies ch
      ensures Valid()
      ensures var view := Reading(db);
              && Enumerates(order, view.metricMap.Keys)
              && ch.sent == old(ch.sent) + SentBy(disableSettingsMetrics, settings, view, order)
              && err == if FailedNamespaces(view) != {} then Some(NamespaceErrors(|FailedNamespaces(view)|))
                        else if !disableSettingsMetrics && settings.failed then Some(SettingsError)
                        else None
    {
      err := None;
      if !disableSettingsMetrics {
        SendAll(ch, settings.metrics);
        if settings.failed {
          err := Some(SettingsError);
        }
      }
      ghost var first := if disableSettingsMetrics then [] else settings.metrics;
      assert ch.sent == old(ch.sent) + first;
      var view := View(db, labels, if metricMap.Some? then metricMap.value else map[], queryOverrides);
      assert view == Reading(db);
      var errMap;
      errMap, order := QueryNamespaceMappings(ch, view);
      RecordedFailures(view, order, errMap);
      Regroup(old(ch.sent), first, AllMetrics(view, order));
      assert ch.sent == old(ch.sent) + SentBy(disableSettingsMetrics, settings, view, order);
      if |errMap| > 0 {
        err := Some(NamespaceErrors(|errMap|));
      }
    }
  }

  lemma RecordedFailures(view: View, order: seq<string>, errors: map<string, FatalError>)
    requires AllWellFormed(view.metricMap) && Enumerates(order, view.metricMap.Keys) && Recorded(view, order, errors)
    ensures errors.Keys == FailedNamespaces(view) && |errors| == |FailedNamespaces(view)|
  {
    assert errors.Keys == FailedNamespaces(view);
    assert |errors| == |errors.Keys|;
  }

  ghost function ReadingOf(db: Database, serverLabels: Labels, maps: Maps): View {
    View(db, serverLabels, if maps.metricMap.Some? then maps.metricMap.value else map[], maps.queryOverrides)
  }

  ghost function FailedNamespaces(view: View): set<string>
    requires AllWellFormed(view.metricMap)
  {
    set ns | ns in view.metricMap && Fails(view, ns)
  }

  /** A namespace of the maps is among the failed exactly when the database does not let it be scanned to the end. */
  lemma FailedNamespacesAre(db: Database, serverLabels: Labels, maps: Maps)
    requires maps.metricMap.Some? ==> AllWellFormed(maps.metricMap.value)
    ensures forall ns :: ns in FailedNamespaces(ReadingOf(db, serverLabels, maps)) <==>
              maps.metricMap.Some? && ns in maps.metricMap.value && CannotBeScanned(db, maps.queryOverrides, ns)
  {
    var view := ReadingOf(db, serverLabels, maps);
    forall ns ensures Fails(view, ns) <==> ns in view.metricMap && CannotBeScanned(db, maps.queryOverrides, ns) {
      FailsExactlyWhen(view, ns);
    }
  }

  ghost function SentBy(disableSettingsMetrics: bool, settings: SettingsAnswer, view: View, order: seq<string>): seq<Metric>
    requires AllWellFormed(view.metricMap)
  {
    (if disableSettingsMetrics then [] else settings.metrics) + AllMetrics(view, order)
  }

  method SendAll(ch: MetricChannel, metrics: seq<Metric>)
    modifies ch
    ensures ch.sent == old(ch.sent) + metrics
  {
    for i := 0 to |metrics|
      invariant ch.sent == old(ch.sent) + metrics[..i]
    {
      ch.Send(metrics[i]);
    }
  }

  /** The servers an exporter keeps, by DSN. The ghost fields remember every server there ever was. */
  class Servers {
    var servers: map<string, Server>
    const constantLabels: Labels
    ghost var pools: map<Server, string>
    ghost var evicted: set<Server>

    ghost function State(): Cache<Server>
      reads this
    {
      Cache(servers, pools, evicted)
    }

    ghost predicate Valid()
      reads this, pools.Keys
    {
      Consistent(State()) && forall s | s in pools :: s.Valid()
    }

    constructor (constantLabels: Labels)
      ensures Valid() && State() == Cache(map[], map[], {}) && this.constantLabels == constantLabels
    {
      this.constantLabels := constantLabels;
      servers, pools, evicted := map[], map[], {};
    }

    /** GetServer. `fingerprint` is what opening a connection would yield, `alive` whether the ping answers. */
    method GetServer(dsn: string, fingerprint: Option<string>, alive: bool) returns (server: Option<Server>, ghost opening: Option<Server>)
      requires Valid()
      modifies this
      ensures Valid() && fresh(pools.Keys - old(pools.Keys))
      ensures Step(old(State()), Call(dsn, opening, alive, server), State())
      ensures dsn !in old(servers) ==> (opening.Some? <==> fingerprint.Some?)
      ensures opening.Some? ==>
                && fresh(opening.value) && fingerprint.Some? && opening.value.Maps() == INITIAL
                && opening.value.labels == ServerLabels(fingerprint.value, constantLabels)
    {
      opening := None;
      if dsn !in servers {
        if fingerprint.None? {
          return None, None;
        }
        var created := new Server(fingerprint.value, constantLabels);
        opening := Some(created);
        servers := servers[dsn := created];
        pools := pools[created := dsn];
      }
      server := Some(servers[dsn]);
      if !alive {
        evicted := evicted + {servers[dsn]};
        servers := servers - {dsn};
        server := None;
      }
      StepIsSafe(old(State()), Call(dsn, opening, alive, server), State());
    }

    /** Close: closes the pool of every entry, and of nothing else; an evicted pool stays as it was. */
    method Close()
      requires Valid()
      modifies pools.Keys`closed
      ensures Valid() && State() == old(State())
      ensures forall s | s in pools :: s.closed == (s in servers.Values || old(s.closed))
    {
      var dsns := RangeOver(servers.Keys);
      ghost var done: set<Server> := {};
      for i := 0 to |dsns|
        invariant forall s :: s in done <==> exists k :: 0 <= k < i && dsns[k] in servers && servers[dsns[k]] == s
        invariant done <= pools.Keys
        invariant forall s | s in pools :: s.closed == (s in done || old(s.closed))
      {
        assert dsns[i] in dsns;
        servers[dsns[i]].Close();
        done := done + {servers[dsns[i]]};
      }
      assert done == servers.Values;
    }
  }
}
