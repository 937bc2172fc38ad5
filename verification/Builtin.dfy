/** The built-in column tables (internal/pgxexporter/metric_maps.go) and query overrides
    (internal/pgxexporter/queries.go), and how their version ranges fit together. */
module Builtin {
  import opened Wrappers
  import opened Versions
  import opened MetricMaps
  import opened QueryOverrides

  const V9_2 := Version(9, 2, 0)
  const V10 := Version(10, 0, 0)

  // The help texts are not part of this model.
  function Column(usage: ColumnUsage): ColumnMapping { ColumnMapping(usage, "", map[], None) }

  function ColumnIn(usage: ColumnUsage, range: Range): ColumnMapping { ColumnMapping(usage, "", map[], Some(range)) }

  function StatBgwriter(): ColumnTable {
    map[
      "checkpoints_timed" := Column(COUNTER),
      "checkpoints_req" := Column(COUNTER),
      "checkpoint_write_time" := Column(COUNTER),
      "checkpoint_sync_time" := Column(COUNTER),
      "buffers_checkpoint" := Column(COUNTER),
      "buffers_clean" := Column(COUNTER),
      "maxwritten_clean" := Column(COUNTER),
      "buffers_backend" := Column(COUNTER),
      "buffers_backend_fsync" := Column(COUNTER),
      "buffers_alloc" := Column(COUNTER),
      "stats_reset" := Column(COUNTER)
    ]
  }

  function StatDatabase(): ColumnTable {
    map[
      "datid" := Column(LABEL),
      "datname" := Column(LABEL),
      "numbackends" := Column(GAUGE),
      "xact_commit" := Column(COUNTER),
      "xact_rollback" := Column(COUNTER),
      "blks_read" := Column(COUNTER),
      "blks_hit" := Column(COUNTER),
      "tup_returned" := Column(COUNTER),
      "tup_fetched" := Column(COUNTER),
      "tup_inserted" := Column(COUNTER),
      "tup_updated" := Column(COUNTER),
      "tup_deleted" := Column(COUNTER),
      "conflicts" := Column(COUNTER),
      "temp_files" := Column(COUNTER),
      "temp_bytes" := Column(COUNTER),
      "deadlocks" := Column(COUNTER),
      "blk_read_time" := Column(COUNTER),
      "blk_write_time" := Column(COUNTER),
      "stats_reset" := Column(COUNTER)
    ]
  }

  function StatDatabaseConflicts(): ColumnTable {
    map[
      "datid" := Column(LABEL),
      "datname" := Column(LABEL),
      "confl_tablespace" := Column(COUNTER),
      "confl_lock" := Column(COUNTER),
      "confl_snapshot" := Column(COUNTER),
      "confl_bufferpin" := Column(COUNTER),
      "confl_deadlock" := Column(COUNTER)
    ]
  }

  function Locks(): ColumnTable {
    map[
      "datname" := Column(LABEL),
      "mode" := Column(LABEL),
      "count" := Column(GAUGE)
    ]
  }

  function StatReplication(): ColumnTable {
    map[
      "procpid" := ColumnIn(DISCARD, Below(V9_2)),
      "pid" := ColumnIn(DISCARD, AtLeast(V9_2)),
      "usesysid" := Column(DISCARD),
      "usename" := Column(DISCARD),
      "application_name" := Column(LABEL),
      "client_addr" := Column(LABEL),
      "client_hostname" := Column(DISCARD),
      "client_port" := Column(DISCARD),
      "backend_start" := Column(DISCARD),
      "backend_xmin" := Column(DISCARD),
      "state" := Column(LABEL),
      "sent_location" := ColumnIn(DISCARD, Below(V10)),
      "write_location" := ColumnIn(DISCARD, Below(V10)),
      "flush_location" := ColumnIn(DISCARD, Below(V10)),
      "replay_location" := ColumnIn(DISCARD, Below(V10)),
      "sent_lsn" := ColumnIn(DISCARD, AtLeast(V10)),
      "write_lsn" := ColumnIn(DISCARD, AtLeast(V10)),
      "flush_lsn" := ColumnIn(DISCARD, AtLeast(V10)),
      "replay_lsn" := ColumnIn(DISCARD, AtLeast(V10)),
      "sync_priority" := Column(DISCARD),
      "sync_state" := Column(DISCARD),
      "slot_name" := ColumnIn(LABEL, AtLeast(V9_2)),
      "plugin" := Column(DISCARD),
      "slot_type" := Column(DISCARD),
      "datoid" := Column(DISCARD),
      "database" := Column(DISCARD),
      "active" := Column(DISCARD),
      "active_pid" := Column(DISCARD),
      "xmin" := Column(DISCARD),
      "catalog_xmin" := Column(DISCARD),
      "restart_lsn" := Column(DISCARD),
      "pg_current_xlog_location" := Column(DISCARD),
      "pg_current_wal_lsn" := ColumnIn(DISCARD, AtLeast(V10)),
      "pg_xlog_location_diff" := ColumnIn(GAUGE, Both(AtLeast(V9_2), Below(V10))),
      "pg_wal_lsn_diff" := ColumnIn(GAUGE, AtLeast(V10)),
      "confirmed_flush_lsn" := Column(DISCARD),
      "write_lag" := ColumnIn(DISCARD, AtLeast(V10)),
      "flush_lag" := ColumnIn(DISCARD, AtLeast(V10)),
      "replay_lag" := ColumnIn(DISCARD, AtLeast(V10))
    ]
  }

  function StatActivity(): ColumnTable {
    map[
      "datname" := Column(LABEL),
      "state" := ColumnIn(LABEL, AtLeast(V9_2)),
      "count" := Column(GAUGE),
      "max_tx_duration" := Column(GAUGE)
    ]
  }

  function BuiltinMetricMaps(): ColumnTables {
    map[
      "pg_stat_bgwriter" := StatBgwriter(),
      "pg_stat_database" := StatDatabase(),
      "pg_stat_database_conflicts" := StatDatabaseConflicts(),
      "pg_locks" := Locks(),
      "pg_stat_replication" := StatReplication(),
      "pg_stat_activity" := StatActivity()
    ]
  }

  // ---- What the built-in tables do at versions their columns are not for ----

  ghost predicate NotForVersion(v: Version, table: ColumnTable, c: string) {
    IsLabel(table, c) && !Supported(table[c], v)
  }

  ghost predicate HasMetric(v: Version, table: ColumnTable) {
    exists c :: c in table && !Discarded(table[c], v)
  }

  lemma WriterAndDatabaseTables(v: Version)
    ensures forall c :: !NotForVersion(v, StatBgwriter(), c) && !NotForVersion(v, StatDatabase(), c)
    ensures HasMetric(v, StatBgwriter()) && HasMetric(v, StatDatabase())
  {
    MetricColumn(v, StatBgwriter(), "buffers_alloc");
    MetricColumn(v, StatDatabase(), "numbackends");
  }

  lemma ConflictAndLockTables(v: Version)
    ensures forall c :: !NotForVersion(v, StatDatabaseConflicts(), c) && !NotForVersion(v, Locks(), c)
    ensures HasMetric(v, StatDatabaseConflicts()) && HasMetric(v, Locks())
  {
    MetricColumn(v, StatDatabaseConflicts(), "confl_lock");
    MetricColumn(v, Locks(), "count");
  }

  lemma ActivityTable(v: Version)
    ensures forall c :: NotForVersion(v, StatActivity(), c) <==> Less(v, V9_2) && c == "state"
    ensures HasMetric(v, StatActivity())
  {
    MetricColumn(v, StatActivity(), "count");
  }

  lemma ReplicationLabels(v: Version)
    ensures forall c :: NotForVersion(v, StatReplication(), c) <==> Less(v, V9_2) && c == "slot_name"
  {
    var table := StatReplication();
    assert "slot_name" in table && table["slot_name"] == ColumnIn(LABEL, AtLeast(V9_2));
    assert Supported(table["slot_name"], v) <==> !Less(v, V9_2);
    forall c | c != "slot_name" ensures !NotForVersion(v, table, c) {
      if c in table && table[c].usage == LABEL {
        assert table[c] == Column(LABEL);
      }
    }
  }

  lemma ReplicationMetrics(v: Version)
    ensures HasMetric(v, StatReplication()) <==> !Less(v, V9_2)
  {
    LagColumns(v);
    if !Less(v, V9_2) {
      MetricColumn(v, StatReplication(), if Less(v, V10) then "pg_xlog_location_diff" else "pg_wal_lsn_diff");
    }
  }

  lemma MetricColumn(v: Version, table: ColumnTable, c: string)
    requires c in table && !Discarded(table[c], v)
    ensures HasMetric(v, table)
  {
  }

  lemma BuiltinTable(v: Version, ns: string)
    requires ns in BuiltinMetricMaps()
    ensures forall c :: NotForVersion(v, BuiltinMetricMaps()[ns], c) <==>
              Less(v, V9_2) && ((ns == "pg_stat_activity" && c == "state") || (ns == "pg_stat_replication" && c == "slot_name"))
    ensures HasMetric(v, BuiltinMetricMaps()[ns]) <==> !(ns == "pg_stat_replication" && Less(v, V9_2))
  {
    WriterAndDatabaseTables(v);
    ConflictAndLockTables(v);
    ActivityTable(v);
    ReplicationLabels(v);
    ReplicationMetrics(v);
  }

  lemma Compiled(v: Version, serverLabels: Labels, ns: string, table: ColumnTable, out: MetricMapNamespace)
    requires IsNamespaceOf(v, serverLabels, ns, table, out)
    ensures forall c :: c in out.labels && !Supported(table[c], v) <==> NotForVersion(v, table, c)
    ensures (forall c | c in out.columnMappings :: out.columnMappings[c].discard) <==> !HasMetric(v, table)
  {
    NamespaceIsWellFormed(v, serverLabels, ns, table, out);
    assert forall c :: c in out.labels <==> IsLabel(table, c);
  }

  /** Labels are collected without their versions: exactly below 9.2.0, and only for these two namespaces, a compiled
      built-in namespace keeps a label its version does not support. */
  lemma LabelsOfOtherVersions(v: Version, serverLabels: Labels, ns: string, out: MetricMapNamespace, c: string)
    requires ns in BuiltinMetricMaps() && IsNamespaceOf(v, serverLabels, ns, BuiltinMetricMaps()[ns], out)
    ensures c in out.labels && !Supported(BuiltinMetricMaps()[ns][c], v) <==>
              Less(v, V9_2) && ((ns == "pg_stat_activity" && c == "state") || (ns == "pg_stat_replication" && c == "slot_name"))
  {
    Compiled(v, serverLabels, ns, BuiltinMetricMaps()[ns], out);
    BuiltinTable(v, ns);
  }

  /** Every built-in namespace has a column that becomes a metric, at every version; but for pg_stat_replication below
      9.2.0, which is queried all the same. */
  lemma SilentNamespaces(v: Version, serverLabels: Labels, ns: string, out: MetricMapNamespace)
    requires ns in BuiltinMetricMaps() && IsNamespaceOf(v, serverLabels, ns, BuiltinMetricMaps()[ns], out)
    ensures (forall c | c in out.columnMappings :: out.columnMappings[c].discard) <==> ns == "pg_stat_replication" && Less(v, V9_2)
  {
    Compiled(v, serverLabels, ns, BuiltinMetricMaps()[ns], out);
    BuiltinTable(v, ns);
  }

  /** Every override is for a built-in namespace. */
  lemma OverridesAreForBuiltins()
    ensures BuiltinOverrides().Keys <= BuiltinMetricMaps().Keys
  {
  }

  // ---- Query overrides ----

  function LocksOverrides(): seq<OverrideQuery> {
    [OverrideQuery(Above(ZERO), "locks by database and mode", None, None)]
  }

  function StatReplicationOverrides(): seq<OverrideQuery> {
    [ OverrideQuery(AtLeast(V10), "replication with wal positions", Some("pg_current_wal_lsn"), Some("pg_wal_lsn_diff")),
      OverrideQuery(Both(AtLeast(V9_2), Below(V10)), "replication with xlog positions and lag",
                    Some("pg_current_xlog_location"), Some("pg_xlog_location_diff")),
      OverrideQuery(Below(V9_2), "replication with xlog positions", Some("pg_current_xlog_location"), None) ]
  }

  function StatActivityOverrides(): seq<OverrideQuery> {
    [ OverrideQuery(AtLeast(V9_2), "connections by database and state", None, None),
      OverrideQuery(Below(V9_2), "connections by database", None, None) ]
  }

  function BuiltinOverrides(): OverrideTable {
    map[
      "pg_locks" := LocksOverrides(),
      "pg_stat_replication" := StatReplicationOverrides(),
      "pg_stat_activity" := StatActivityOverrides()
    ]
  }

  /** Exactly one entry's range holds the version. */
  ghost predicate ExactlyOneMatches(v: Version, entries: seq<OverrideQuery>) {
    exists i :: 0 <= i < |entries| && entries[i].versionRange(v) && forall j | 0 <= j < |entries| && j != i :: !entries[j].versionRange(v)
  }

  lemma Replication(v: Version) returns (i: nat)
    ensures i == if !Less(v, V10) then 0 else if !Less(v, V9_2) then 1 else 2
    ensures forall j | 0 <= j < 3 :: StatReplicationOverrides()[j].versionRange(v) <==> j == i
  {
    Precedence(v, V9_2, V10);
    Precedence(V9_2, V10, v);
    i := if !Less(v, V10) then 0 else if !Less(v, V9_2) then 1 else 2;
  }

  lemma Activity(v: Version) returns (i: nat)
    ensures i == if !Less(v, V9_2) then 0 else 1
    ensures forall j | 0 <= j < 2 :: StatActivityOverrides()[j].versionRange(v) <==> j == i
  {
    i := if !Less(v, V9_2) then 0 else 1;
  }

  /** The override tables partition the versions above 0.0.0. */
  lemma OverridesPartitionVersions(v: Version, ns: string)
    requires ns in BuiltinOverrides()
    ensures ns != "pg_locks" || Less(ZERO, v) <==> ExactlyOneMatches(v, BuiltinOverrides()[ns])
  {
    if ns == "pg_locks" {
      assert LocksOverrides()[0].versionRange(v) <==> Less(ZERO, v);
    } else if ns == "pg_stat_replication" {
      var i := Replication(v);
      assert StatReplicationOverrides()[i].versionRange(v);
    } else {
      var i := Activity(v);
      assert StatActivityOverrides()[i].versionRange(v);
    }
  }

  /** No built-in namespace is ever disabled, except pg_locks for the version 0.0.0. */
  lemma OverridesDisableNothing(v: Version, ns: string)
    requires ns in BuiltinOverrides()
    ensures OverrideMap(v, BuiltinOverrides())[ns] == "" <==> ns == "pg_locks" && v == ZERO
  {
    OverridesPartitionVersions(v, ns);
    Precedence(ZERO, v, v);
  }

  /** The query each overridden namespace runs, at every version. */
  lemma BuiltinQueries(v: Version)
    ensures OverrideMap(v, BuiltinOverrides()).Keys == {"pg_locks", "pg_stat_replication", "pg_stat_activity"}
    ensures QueryFor(v, BuiltinOverrides()["pg_locks"]) == if v == ZERO then "" else "locks by database and mode"
    ensures QueryFor(v, BuiltinOverrides()["pg_stat_replication"]) ==
              if !Less(v, V10) then "replication with wal positions"
              else if !Less(v, V9_2) then "replication with xlog positions and lag"
              else "replication with xlog positions"
    ensures QueryFor(v, BuiltinOverrides()["pg_stat_activity"]) ==
              if !Less(v, V9_2) then "connections by database and state" else "connections by database"
  {
    LocksQuery(v);
    ReplicationQuery(v);
    ActivityQuery(v);
  }

  lemma LocksQuery(v: Version)
    ensures QueryFor(v, LocksOverrides()) == if v == ZERO then "" else "locks by database and mode"
  {
    Precedence(ZERO, v, v);
    assert LocksOverrides()[0].versionRange(v) <==> Less(ZERO, v);
  }

  lemma ReplicationQuery(v: Version)
    ensures QueryFor(v, StatReplicationOverrides()) ==
              if !Less(v, V10) then "replication with wal positions"
              else if !Less(v, V9_2) then "replication with xlog positions and lag"
              else "replication with xlog positions"
  {
    var i := Replication(v);
    assert FirstMatch(v, StatReplicationOverrides()) == Some(StatReplicationOverrides()[i]);
  }

  lemma ActivityQuery(v: Version)
    ensures QueryFor(v, StatActivityOverrides()) ==
              if !Less(v, V9_2) then "connections by database and state" else "connections by database"
  {
    var i := Activity(v);
    assert FirstMatch(v, StatActivityOverrides()) == Some(StatActivityOverrides()[i]);
  }

  /** Rearranging the entries of a built-in namespace does not change the query of a version above 0.0.0. */
  lemma BuiltinSelectionIgnoresOrder(v: Version, ns: string, rearranged: seq<OverrideQuery>)
    requires ns in BuiltinOverrides() && Less(ZERO, v)
    requires forall e :: e in rearranged <==> e in BuiltinOverrides()[ns]
    ensures FirstMatch(v, rearranged) == FirstMatch(v, BuiltinOverrides()[ns])
    ensures QueryFor(v, rearranged) == QueryFor(v, BuiltinOverrides()[ns])
  {
    OverridesPartitionVersions(v, ns);
    SelectionIgnoresOrder(v, BuiltinOverrides()[ns], rearranged);
  }

  /** The two version tables agree: at every version the columns of pg_stat_replication that become metrics are
      the lag column of the selected query and no other, and every column that query adds is a known one. */
  lemma ReplicationTablesAgree(v: Version, serverLabels: Labels, out: MetricMapNamespace)
    requires IsNamespaceOf(v, serverLabels, "pg_stat_replication", StatReplication(), out)
    ensures var selected := FirstMatch(v, StatReplicationOverrides());
            && selected.Some?
            && (forall c :: c in out.columnMappings && !out.columnMappings[c].discard <==> selected.value.lag == Some(c))
            && (selected.value.lag.Some? <==> !Less(v, V9_2))
            && (selected.value.position.Some? ==> selected.value.position.value in out.columnMappings)
            && QueryFor(v, StatReplicationOverrides()) == selected.value.query
  {
    NamespaceIsWellFormed(v, serverLabels, "pg_stat_replication", StatReplication(), out);
    LagColumns(v);
    var i := Replication(v);
    assert FirstMatch(v, StatReplicationOverrides()) == Some(StatReplicationOverrides()[i]);
  }

  lemma LagColumns(v: Version)
    ensures forall c :: c in StatReplication() && !Discarded(StatReplication()[c], v) <==>
              (c == "pg_xlog_location_diff" && !Less(v, V9_2) && Less(v, V10)) || (c == "pg_wal_lsn_diff" && !Less(v, V10))
    ensures "pg_current_wal_lsn" in StatReplication() && "pg_current_xlog_location" in StatReplication()
  {
  }
}
