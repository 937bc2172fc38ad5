# The exporter's metric-map pipeline, modelled and proved in Dafny

The exporter scrapes PostgreSQL servers for Prometheus. For each server it compiles tables of columns into metric
descriptors for that server's version, chooses one query per namespace by version, lets a user's YAML document
override both, keeps the result until the version changes, runs the queries under a read lock, and turns rows into
metrics. This project models that pipeline and the state around it, and proves what it keeps.

| file | what it holds |
|---|---|
| `MetricMaps.dfy` | the compilation of column tables, merging, the stored conversions |
| `QueryOverrides.dfy`, `Builtin.dfy` | queries chosen by version; the built-in version tables and how they fit |
| `UserQueries.dfy` | the user's document: reading it, its column tables and queries |
| `Evaluator.dfy`, `RowGrid.dfy`, `NamespaceScans.dfy` | rows to metrics, as a loop, as a grid, and over every namespace |
| `MapCache.dfy`, `PostgresServer.dfy` | the maps of one server, their rebuilds, and the `Server` and `Servers` objects |
| `ConnectionCache.dfy`, `ScrapeRuns.dfy`, `Exporter.dfy` | connections, whole scrapes, database discovery, and runs of them |
| `ConcurrentScrapes.dfy`, `ConcurrentRuns.dfy` | a step machine of scrapes of one server under its RWMutex and its pool; all its interleavings |
| `PoolDeadlock.dfy` | when those scrapes get stuck |
| `DescribePump.dfy` | a step machine of the Describe goroutine |
| `ConstLabels.dfy`, `Versions.dfy`, `VersionParsing.dfy` | the two string parsers and version order |
| `Values.dfy`, `Text.dfy`, `Sequences.dfy`, `Wrappers.dfy` | values and their conversions, and general definitions |

The objects of the source that change in place (`Server`, `Servers`, `Exporter`, the metric channel, a parsed URL) are
classes; each of their methods is proved against a predicate on the state before and after it, and the lemmas are about
those predicates and runs of them. A Go `range` over a map is `Sequences.RangeOver`: any enumeration of the keys.
The database, the ping, the answers to queries, the file, YAML, URL parsing, the hash, and the parsing and printing of
floats and durations are parameters that may answer anything.

Where the code differs from what it seems meant to do, the model follows the code:

- The loop that fetches the field descriptions has already read the first row, so the emitting loop starts at the
  second. `RowGrid.FirstRowIsSkipped` says exactly when that shows, `RowGrid.OneRowIsLost` gives a result where it does;
  `RowGrid.CorrectedScan` is the corrected loop.
- The conversion stored with a column is never called. `MetricMaps.ConversionAgrees` says for which usages that matters.
- The stored conversions of MAPPEDMETRIC columns share their loop variable, so one value table serves them all.
- A label whose column is missing from the result reads the first column (`RowGrid.MissingLabelReadsTheFirstColumn`).
- Label names are collected without looking at the versions of their columns. `Builtin.LabelsOfOtherVersions` says which
  labels of the built-in tables are kept at a version they are not for.
- The check for a stale version runs outside the lock; `ConcurrentScrapes` lets it say anything. What is said to be
  possible, in `PoolDeadlock`, is shown on runs whose every check compares the maps as they are.
- A server dropped after a failed ping keeps its pool open: `ConnectionCache.PoolsAreConserved` counts those pools, and
  `PostgresServer.Servers.Close` does not close them.
- A scrape keeps a connection of the pool while it waits for the write lock, and a scrape with the read lock waits for a
  connection. The pool has three and waits for ever, so four concurrent scrapes of one server can block each other:
  `PoolDeadlock.FourGetStuck` is that run, and `PoolDeadlock.StuckExactlyWhen` says exactly when there is one.
- The comment above the override tables asks for ranges that are closed and do not overlap. They do not overlap, but the
  one range of pg_locks leaves out 0.0.0 (`Builtin.OverridesPartitionVersions`, `Builtin.OverridesDisableNothing`).

## Model

| member | source | states |
|---|---|---|
| `MetricMaps.MakeDescMap` | internal/pgxexporter/metric_maps.go:155-265 | whatever order the maps are enumerated in, the result has exactly the source's namespaces and each is a compilation of its table; every one is fit for the evaluator |
| `MetricMaps.CompileNamespace` | internal/pgxexporter/metric_maps.go:158-262 | labels are the LABEL columns once each; the columns are described with those labels |
| `MetricMaps.DescribeColumns` | internal/pgxexporter/metric_maps.go:169-259 | every column, and nothing else, gets the descriptor of its usage at this version; the closures share the mapping of the column visited last |
| `MetricMaps.CollectLabels` | internal/pgxexporter/metric_maps.go:162-167 | exactly the LABEL columns, without duplicates, whatever their versions |
| `MetricMaps.CompilationIsWellFormed` | internal/pgxexporter/metric_maps.go:158-261 | in every compilation labels are distinct discarded columns and every other column's descriptor carries the namespace's own label list, so label arity always matches |
| `MetricMaps.NamespaceIsWellFormed` | internal/pgxexporter/metric_maps.go:158-261 | a namespace has exactly its source columns, and discards exactly the unsupported, DISCARD and LABEL ones |
| `MetricMaps.CompiledColumn` | internal/pgxexporter/metric_maps.go:162-257 | of every column of every compilation: whether it is discarded and a label; else that it is a counter exactly when COUNTER and else a gauge, and its name (with _milliseconds exactly when DURATION), help, labels and constant labels |
| `MetricMaps.CompiledConversion` | internal/pgxexporter/metric_maps.go:197-257 | which conversion is stored with a column; all MAPPEDMETRIC columns look up in the mapping of one column |
| `MetricMaps.TablesCompile` | internal/pgxexporter/metric_maps.go:155-265 | any tables have a compilation at any version, so what is said of compilations is never said of none |
| `MetricMaps.CompileThenMerge` | internal/pgxexporter/queries.go:220-232 | overriding one compilation with another is a compilation of the overridden tables, namespace by whole namespace |
| `MetricMaps.MergeThenCompile` | internal/pgxexporter/queries.go:220-232 | conversely every compilation of the overridden tables is such a merge |
| `MetricMaps.ConversionAgrees` | internal/pgxexporter/metric_maps.go:189-257 | a column's stored conversion equals the evaluator's on all values if and only if it is a COUNTER or a GAUGE |
| `MetricMaps.ConversionsGive` | internal/pgxexporter/metric_maps.go:217-256 | a mapped text, or a duration other than "-1", converts; nothing else does |
| `QueryOverrides.MakeQueryOverrideMap` | internal/pgxexporter/queries.go:126-146 | every namespace of the table, and no other, gets the query of the first entry whose range holds the version, or an empty one when none does |
| `QueryOverrides.MatchingQuery` | internal/pgxexporter/queries.go:131-142 | the loop with break gives the query of the first matching entry, or an empty one |
| `QueryOverrides.QueryIsSelected` | internal/pgxexporter/queries.go:131-142 | the query stored is that of an entry that matches with none before it matching, or empty with none matching |
| `QueryOverrides.SelectionIgnoresOrder` | internal/pgxexporter/queries.go:129-138 | when different entries never match together their order does not matter |
| `Builtin.OverridesPartitionVersions` | internal/pgxexporter/queries.go:24-122 | exactly one entry matches a version, for every version and namespace except pg_locks at 0.0.0, and only there none does |
| `Builtin.OverridesDisableNothing` | internal/pgxexporter/queries.go:139-142 | no built-in namespace is disabled at any version, except pg_locks at 0.0.0 |
| `Builtin.BuiltinSelectionIgnoresOrder` | internal/pgxexporter/queries.go:26-122 | above 0.0.0 rearranging the built-in entries changes neither the entry selected nor the query stored |
| `Builtin.ReplicationTablesAgree` | internal/pgxexporter/queries.go:51-78 | at every version the non-discarded columns of compiled pg_stat_replication are exactly the lag column of the selected entry, whose query is the one stored: one column from 9.2.0 up, none below |
| `Builtin.BuiltinQueries` | internal/pgxexporter/queries.go:26-122 | which query each overridden namespace runs, at every version |
| `Builtin.LagColumns` | internal/pgxexporter/metric_maps.go:99-139 | which columns of pg_stat_replication are not discarded, at every version |
| `Builtin.LabelsOfOtherVersions` | internal/pgxexporter/metric_maps.go:162-167 | exactly below 9.2.0, compiled pg_stat_activity keeps the label state and pg_stat_replication the label slot_name although their version does not support them; no other built-in label ever does |
| `Builtin.SilentNamespaces` | internal/pgxexporter/metric_maps.go:50-146 | every built-in namespace has a column that becomes a metric at every version, except pg_stat_replication below 9.2.0 |
| `Builtin.OverridesAreForBuiltins` | internal/pgxexporter/queries.go:24-122 | every query override is for a built-in namespace |
| `UserQueries.ReadDocument` | internal/pgxexporter/queries.go:165-218 | succeeds if and only if every usage is known, then gives the document's column tables and queries, whatever the enumeration orders; otherwise the error is an unknown usage of the document |
| `UserQueries.ReadMetrics` | internal/pgxexporter/queries.go:177-215 | the columns of the list of maps, later maps winning; or an unknown usage in the first map of the list to have one |
| `UserQueries.ReadColumns` | internal/pgxexporter/queries.go:181-214 | one map of columns put over those read before, or one of its unknown usages |
| `UserQueries.ReadColumn` | internal/pgxexporter/queries.go:182-213 | a column without usage is discarded; an unknown usage is an error naming it |
| `UserQueries.StringToColumnUsage` | internal/pgxexporter/utils.go:51-78 | a name is a usage exactly when it is that usage's, and an error names the text |
| `UserQueries.UsageNames` | internal/pgxexporter/utils.go:54-75 | each of the six names gives its own usage, every other text an error |
| `UserQueries.LoadsExactlyWhen` | internal/pgxexporter/queries.go:160-218 | a file loads exactly when it reads as a document whose usages are all among the six names |
| `UserQueries.ColumnIs` | internal/pgxexporter/queries.go:182-213 | a column has the usage it names, none means DISCARD; its description or an empty one; no mapping and no version range |
| `UserQueries.DocumentHolds` | internal/pgxexporter/queries.go:165-218 | a document has a table for exactly the namespaces that list a column, with exactly the columns listed, and a query for exactly those that give one |
| `UserQueries.ColumnOfDocument` | internal/pgxexporter/queries.go:178-213 | a column of the table is what the last map of the list to name it says |
| `UserQueries.LastDuplicateWins` | internal/pgxexporter/queries.go:178-213 | of several mentions of a column the last in the list decides |
| `UserQueries.AddingTwiceIsAddingOnce` | internal/pgxexporter/queries.go:220-243 | adding a document twice gives what adding it once could have given, and what it did give but for the order of labels in the namespaces of the document |
| `UserQueries.AddingTwiceScansAlike` | internal/pgxexporter/queries.go:220-243 | scans after adding once and after adding twice send the same bag of samples and fail on the same namespaces |
| `Evaluator.QueryNamespaceMapping` | internal/pgxexporter/queries.go:280-393 | sends exactly the metrics, and returns exactly the errors, that the declarative scan has; and fails exactly when there is no connection, the query fails, or a row after the first cannot be read |
| `Evaluator.AskedQuery` | internal/pgxexporter/queries.go:289-306 | the query run is the override, nothing when that is empty, and all of the namespace when there is none |
| `Evaluator.ScanOutcome` | internal/pgxexporter/queries.go:280-349 | what each path sends and returns |
| `Evaluator.ScanFailsExactlyWhen` | internal/pgxexporter/queries.go:283-349 | the scan of a namespace is fatal exactly when the database gives no connection, fails the query, or gives a row after the first that cannot be read |
| `Evaluator.EvaluateRows` | internal/pgxexporter/queries.go:342-392 | the emitting loop sends the metrics of the rows before the first unreadable one, row by row; an unreadable row is fatal and loses the non-fatal errors |
| `Evaluator.EvaluateRow` | internal/pgxexporter/queries.go:351-390 | one row's convertible columns are sent in column order, the others reported, the discarded dropped |
| `Evaluator.LookUpLabels` | internal/pgxexporter/queries.go:351-355 | the label values, in the order of the namespace's labels |
| `Evaluator.IndexColumns` | internal/pgxexporter/queries.go:330-334 | each column name's last index |
| `Evaluator.EmittedAppend` | internal/pgxexporter/queries.go:343-391 | what is sent and reported for some cells and then others is the two put together |
| `RowGrid.EverySendableValueIsSent` | internal/pgxexporter/queries.go:360-389 | each value of an evaluated row that converts and is not discarded is sent with its own descriptor, type, value and labels |
| `RowGrid.EverySentMetricHasItsValue` | internal/pgxexporter/queries.go:360-389 | every metric sent is that of one such value |
| `RowGrid.SentMetricIs` | internal/pgxexporter/queries.go:351-388 | a value is sent when its column is unknown or not discarded and it converts; its metric has the column's descriptor and type, or the name, help and untyped kind of an unknown column, and each label's own value |
| `RowGrid.ReportedErrorIs` | internal/pgxexporter/queries.go:368-386 | a value that is not discarded and does not convert leaves the error of its column, known or unknown |
| `RowGrid.ReportedAre` | internal/pgxexporter/queries.go:342-392 | the non-fatal errors are those and no others |
| `RowGrid.PlacesFollowTheGrid` | internal/pgxexporter/queries.go:343-360 | metrics come in row order and, within a row, in column order |
| `RowGrid.CompletedScanConserves` | internal/pgxexporter/queries.go:342-392 | metrics sent, errors reported and values discarded add up to rows times columns |
| `RowGrid.FatalScanKeepsEarlierRows` | internal/pgxexporter/queries.go:344-349 | an unreadable row leaves exactly the metrics of the rows before it |
| `RowGrid.FirstRowIsSkipped` | internal/pgxexporter/queries.go:313-319 | for every result with rows, readable first row or not, what a corrected loop would do in terms of what the code does; their metrics, errors and failure are the same if and only if the first row has nothing to send or report, or it is unreadable and a later row fails with nothing sent |
| `RowGrid.OneRowIsLost` | internal/pgxexporter/queries.go:313-319 | of pg_stat_bgwriter, a view of one row, the code sends nothing at any version and however its table is compiled, where a corrected loop sends its value |
| `RowGrid.LabelHoldsItsColumn` | internal/pgxexporter/queries.go:351-355 | a label whose column is in the result holds the value of its last occurrence |
| `RowGrid.MissingLabelReadsTheFirstColumn` | internal/pgxexporter/queries.go:354 | a label whose column is missing holds the first column's value |
| `Values.FloatReadings` | internal/pgxexporter/utils.go:82-118 | which values read as numbers and as which: NULL is a usable NaN, texts what they denote or nothing |
| `Values.LabelReadings` | internal/pgxexporter/utils.go:121-146 | what each value is as a label; NULL is empty |
| `NamespaceScans.QueryNamespaceMappings` | internal/pgxexporter/queries.go:397-418 | sends the scans of all namespaces in the enumeration's order and records exactly the fatal errors |
| `NamespaceScans.FailsExactlyWhen` | internal/pgxexporter/queries.go:401-408 | a namespace fails exactly when it is mapped and the database does not let it be scanned to the end |
| `NamespaceScans.CompilationsAgree` | internal/pgxexporter/metric_maps.go:158-261 | two compilations of one table differ in label order and unused conversions only |
| `NamespaceScans.ScansAgree` | internal/pgxexporter/queries.go:280-393 | scans through two such compilations send the same samples and fail alike |
| `NamespaceScans.LabelOrderIsInvisible` | internal/pgxexporter/queries.go:351-355 | permuted label lists with their values give one label map |
| `NamespaceScans.IterationOrderNeverMatters` | internal/pgxexporter/queries.go:401-417 | for any orders of columns and namespaces, compiling and scanning gives the same bag of samples and the same failing namespaces |
| `PostgresServer.WithLabels` | internal/pgxexporter/postgres_server.go:36-42 | the configured labels override the server's own |
| `PostgresServer.ServerLabelsAre` | internal/pgxexporter/postgres_server.go:64-73 | a server's labels are the configured ones, and its fingerprint unless "server" is configured |
| `PostgresServer.Server.constructor` | internal/pgxexporter/postgres_server.go:64-73 | a new server has no maps, no queries, version 0.0.0, and its fingerprint overridden by the configured labels |
| `PostgresServer.Server.AddQueries` | internal/pgxexporter/queries.go:157-246 | an unreadable document or an unknown usage leaves the server untouched; otherwise both maps become the right-biased merge |
| `PostgresServer.Server.MergeTables` | internal/pgxexporter/queries.go:220-243 | compiles the document's tables and merges both maps whole |
| `PostgresServer.Server.MergeMetrics` | internal/pgxexporter/queries.go:224-232 | the loop gives the right-biased merge, whatever its order |
| `PostgresServer.Server.MergeOverrides` | internal/pgxexporter/queries.go:235-243 | likewise for the queries |
| `PostgresServer.Server.Scrape` | internal/pgxexporter/postgres_server.go:108-126 | sends the settings, then every namespace; fails if and only if the settings or a namespace do, a namespace's error hiding the settings' |
| `PostgresServer.FailedNamespacesAre` | internal/pgxexporter/postgres_server.go:120-123 | the namespaces that fail a scrape are those of the maps the database does not let be scanned to the end |
| `PostgresServer.Servers.GetServer` | internal/pgxexporter/servers.go:24-43 | is a step of the connection cache; a server it opens has the fingerprint's labels and no maps |
| `PostgresServer.Servers.Close` | internal/pgxexporter/servers.go:46-55 | closes every kept server and no dropped one |
| `ConnectionCache.StepIsSafe` | internal/pgxexporter/servers.go:24-43 | success returns the mapped, answering server; failure leaves the DSN without one; other DSNs notice nothing |
| `ConnectionCache.RunsStayConsistent` | internal/pgxexporter/servers.go:24-43 | in every run each entry was opened for its own DSN, and a pool is kept or dropped, never both |
| `ConnectionCache.PoolsAreConserved` | internal/pgxexporter/servers.go:30-41 | pools opened are entries plus evictions |
| `ConnectionCache.SameServerUntilPingFails` | internal/pgxexporter/servers.go:28-42 | a DSN gets the same server until one of its pings fails |
| `ConnectionCache.NewServerAfterFailure` | internal/pgxexporter/servers.go:38-41 | after a failure the DSN's next server is a newly opened one; that its maps are empty and so rebuilt is `ScrapeRuns.FirstReadingAfterFailureRebuilds` |
| `MapCache.BuildFromParts` | internal/pgxexporter/exporter.go:158-187 | the built-in compilation with the user's merged over it is a from-scratch build of the overridden tables |
| `MapCache.BuildsAreWellFormed` | internal/pgxexporter/exporter.go:158-187 | every build is fit for the evaluator |
| `MapCache.BuildHolds` | internal/pgxexporter/exporter.go:158-187 | which namespaces and queries a build holds: the built-in ones unless disabled, and over them the document's when a file is configured, there and readable; and what each is compiled or selected from |
| `MapCache.VersionIsRead` | internal/pgxexporter/exporter.go:137-148 | a version is read exactly from a banner that parses, and is the one it parses to |
| `MapCache.LoadResultIs` | internal/pgxexporter/exporter.go:168-188 | the gauge's one series has the path and the file's hash, and is 0 exactly when the file is there and readable, else 1 |
| `MapCache.CacheAgreement` | internal/pgxexporter/exporter.go:127-191 | after any sequence of probes the maps are a from-scratch build for the version last read, with the user file as of the last change of version; before any version is read there are none |
| `Exporter.Exporter.BaseMaps` | internal/pgxexporter/exporter.go:158-164 | the built-in maps of the version, or empty ones when the default metrics are disabled |
| `Exporter.Exporter.Rebuild` | internal/pgxexporter/exporter.go:156-190 | leaves a whole build for the version read, and the gauge telling how the user file went |
| `Exporter.Exporter.LoadUserQueries` | internal/pgxexporter/exporter.go:168-188 | merges the file's document or nothing; the gauge has one series afterwards, 0 exactly when the file is there and readable, else 1 |
| `Exporter.Exporter.RebuildIfChanged` | internal/pgxexporter/exporter.go:154-191 | rebuilds when the version differs or there are no maps, and only then |
| `Exporter.Exporter.CheckMapVersions` | internal/pgxexporter/exporter.go:127-202 | a version that cannot be read changes nothing and is an error; otherwise the maps are checked and the version metric sent |
| `Exporter.Exporter.Connect` | internal/pgxexporter/exporter.go:288-292 | what GetServer does to the connections: this DSN's is kept, opened without maps, or dropped; no other changes |
| `Exporter.Exporter.CheckThenScrape` | internal/pgxexporter/exporter.go:294-299 | the server is scraped with the maps the check left, whether or not the version could be read |
| `Exporter.Exporter.ScrapeDSN` | internal/pgxexporter/exporter.go:287-300 | a DSN that cannot be connected loses its connection; any other has its maps checked and is scraped whether or not its version can be read |
| `Exporter.Exporter.ScrapeAll` | internal/pgxexporter/exporter.go:216-228 | every DSN is scraped once in order; the two counters are those of the reports |
| `Exporter.Exporter.Scrape` | internal/pgxexporter/exporter.go:204-244 | the whole scrape: its DSNs, its metrics, the world after it, and both gauges |
| `Exporter.Exporter.ChooseDsns` | internal/pgxexporter/exporter.go:211-214 | the configured DSNs as they are, or all those discovered once each |
| `Exporter.Exporter.ExpandDSN` | internal/pgxexporter/exporter.go:248-276 | one configured DSN gives itself if it parses, and its databases' URLs if it can be reached and lists them |
| `Exporter.Exporter.DiscoverDatabaseDSNs` | internal/pgxexporter/exporter.go:246-285 | returns without duplicates exactly the parseable configured DSNs, and each reached one with its path replaced by each database that is not excluded |
| `ScrapeRuns.ChoiceIs` | internal/pgxexporter/exporter.go:211-214 | without discovery the configured DSNs; with it, once each, exactly the configured DSNs that parse and those of their URLs whose database was listed and is not excluded |
| `Exporter.ReplacePaths` | internal/pgxexporter/exporter.go:268-275 | overwriting one URL's path in place gives each database's own URL: nothing leaks between iterations |
| `Exporter.ToArray` | internal/pgxexporter/exporter.go:277-284 | the array is filled once per member of the set |
| `Exporter.Contains` | internal/pgxexporter/utils.go:277-284 | true if and only if the element occurs |
| `ScrapeRuns.OutcomeIsExact` | internal/pgxexporter/exporter.go:230-243 | up is 0 when every DSN failed to connect, also for no DSNs, and else 1; error is 1 when some DSN failed to connect, had an enabled settings query fail, or has a namespace in its maps without a connection, with a failing query or with an unreadable row after the first, and else 0; up 0 for some DSNs implies error 1 |
| `ScrapeRuns.WhatAScrapeSends` | internal/pgxexporter/exporter.go:193-200 | a scraped server sends the version with its two labels in order if it was read and the default metrics are on, then the settings if they are on, then every namespace's metrics |
| `ScrapeRuns.CountsDecide` | internal/pgxexporter/exporter.go:230-243 | the comparisons of the two counters give those gauges |
| `ScrapeRuns.GaugeTellsTheLastLoad` | internal/pgxexporter/exporter.go:168-188 | in every run over several servers with a user file, the gauge has no series before the first rebuild and afterwards exactly one, with the path and the hash of the most recent rebuild's file: 0 exactly when that file was there and all its usages known, else 1 |
| `ScrapeRuns.ConnectionsStaySound` | internal/pgxexporter/exporter.go:204-300 | in every run each connection has one server's labels, and maps that are the empty ones, or the from-scratch build for the version read and the file found at the last rebuild of that very connection |
| `ScrapeRuns.NoBuildSince` | internal/pgxexporter/exporter.go:154-155 | a connection has empty maps only when it was not rebuilt since the beginning or since it was last dropped |
| `ScrapeRuns.FirstReadingAfterFailureRebuilds` | internal/pgxexporter/servers.go:38-41 | in every run, after a DSN fails to connect the first scrape of it to connect and read a version rebuilds its maps, whatever the version and whatever listings and scrapes come between |
| `ScrapeRuns.ScrapeExtendsRun` | internal/pgxexporter/exporter.go:204-285 | a whole scrape after a run, with discovery, is a longer run, so what holds of runs holds however often the exporter scrapes |
| `ConcurrentScrapes.LocksAreKept` | internal/pgxexporter/exporter.go:156-190 | in every step the lock is one writer's or any number of readers' |
| `ConcurrentScrapes.StepKeepsInv` | internal/pgxexporter/exporter.go:154-191 | every step of every scrape keeps the account of how far the rebuild is and of what readers have read; with readers the maps do not change |
| `ConcurrentScrapes.PoolStep` | internal/pgxexporter/postgres_server.go:51-57 | in every step each connection of the pool is free or kept by one scrape, and no more than MaxConns are kept |
| `ConcurrentRuns.EveryInterleavingIsSafe` | internal/pgxexporter/exporter.go:154-191 | in every interleaving of any number of scrapes, whatever the unlocked check says: without a writer the triple is the initial one and no rebuild has read the file, or it is the whole build of the last rebuild to read it, for the version that very scrape read and the file it found; a reader reads that triple |
| `ConcurrentRuns.FinishedScrapeSawOneState` | internal/pgxexporter/postgres_server.go:108-126 | every finished scan has read, whole, such a triple of one moment |
| `ConcurrentRuns.LoadWasRead` | internal/pgxexporter/exporter.go:149-172 | the version and the file of the last rebuild are traced to the probe and the reading of one scrape |
| `ConcurrentRuns.TornMapsAreNotSettled` | internal/pgxexporter/queries.go:224-243 | a document merged in part, with a new namespace or query still to come, is not such a triple |
| `ConcurrentRuns.ReadersSeeOneTriple` | internal/pgxexporter/postgres_server.go:109-110 | from lock to unlock a reader sees one unchanging triple |
| `PoolDeadlock.WriterComesNearer` | internal/pgxexporter/exporter.go:156-190 | every step under the write lock comes nearer to the unlocking |
| `PoolDeadlock.FinishWriting` | internal/pgxexporter/exporter.go:156-190 | a writer left alone comes to the unlocking with the whole build for its version and the file it finds |
| `PoolDeadlock.NoDeadlock` | internal/pgxexporter/exporter.go:129-156 | with at most MaxConns scrapes, or with scrapes that want no connection under the read lock, some scrape under way can always take a step, whatever the stale checks have said and with a true one if it is one |
| `PoolDeadlock.FourGetStuck` | internal/pgxexporter/exporter.go:129-156 | a run with true stale checks: while one scrape reads, three others find a new version and wait to write with all the connections, and the first waits for one with the read lock; nothing can move |
| `PoolDeadlock.StuckExactlyWhen` | internal/pgxexporter/postgres_server.go:51-57 | concurrent scrapes of one server, their stale checks true ones, can get stuck if and only if there are more of them than MaxConns and the settings, some built-in table or a user file can make a scan want a connection |
| `DescribePump.StepKeepsInv` | internal/pgxexporter/exporter.go:112-123 | each step of either goroutine keeps what is sent, held and forwarded in agreement, and brings the end one step nearer |
| `DescribePump.NothingIsLost` | internal/pgxexporter/exporter.go:100-124 | in every interleaving Describe returns only when every sent metric's descriptor has been forwarded, in order |
| `DescribePump.NoSendAfterClose` | internal/pgxexporter/exporter.go:121-122 | no send and no second close follows the close |
| `DescribePump.DescribeReturns` | internal/pgxexporter/exporter.go:112-123 | Describe never deadlocks and returns after exactly two steps per metric and three more |
| `ConstLabels.ParseConstLabels` | internal/pgxexporter/utils.go:192-216 | the loop gives the labels of the flag's parts, later ones winning |
| `ConstLabels.TrimmingIsInvisible` | internal/pgxexporter/utils.go:195-198 | the outer trim and the early return change nothing |
| `ConstLabels.OnePart` | internal/pgxexporter/utils.go:200-213 | a flag without a comma gives the label of its one part, if any |
| `ConstLabels.PartWithOneEquals` | internal/pgxexporter/utils.go:202-212 | a part with one "=" gives its two sides without the white space around them, or nothing when one is blank |
| `ConstLabels.PartWithoutOneEquals` | internal/pgxexporter/utils.go:203-206 | a part with no "=" or several gives nothing |
| `ConstLabels.Homomorphism` | internal/pgxexporter/utils.go:200-213 | parsing s "," t is parsing s overridden by parsing t, for all strings |
| `ConstLabels.ParsedLabelsAreClean` | internal/pgxexporter/utils.go:202-212 | every key and value is trimmed, not empty, and free of ',' and '=' |
| `ConstLabels.ParseUndoesRender` | internal/pgxexporter/utils.go:200-213 | a clean label map written in any order parses back to itself |
| `ConstLabels.ParseIsIdempotent` | internal/pgxexporter/utils.go:192-216 | parsing, writing and parsing again is parsing |
| `Versions.Precedence` | internal/pgxexporter/exporter.go:149-154 | versions are totally ordered as section 11 of Semantic Versioning 2.0.0 orders them |
| `Versions.NumeralsAreDecimal` | internal/pgxexporter/exporter.go:199 | the numerals of a printed version are decimal |
| `VersionParsing.MatchIsComplete` | internal/pgxexporter/postgres_exporter.go:39-51 | every banner of the grammar is matched, its dotted numbers exactly |
| `VersionParsing.MatchIsSound` | internal/pgxexporter/postgres_exporter.go:39-51 | whatever is matched is a banner of the grammar |
| `VersionParsing.ShortVersionMeans` | internal/pgxexporter/postgres_exporter.go:51 | a short version parses iff each component is a 64-bit numeral without leading zeros; missing ones are zero |
| `VersionParsing.ParserAcceptsTheGrammar` | internal/pgxexporter/postgres_exporter.go:48-56 | the parser accepts exactly the grammar's banners with such numbers |
| `VersionParsing.ParseUndoesPrint` | internal/pgxexporter/postgres_exporter.go:48-56 | any word of letters, digits and underscores, one to three numerals and any text that does not extend the match parse to the zero-padded triple |
| `VersionParsing.PostgresBanners` | internal/pgxexporter/postgres_exporter.go:39-51 | "PostgreSQL", a blank, one to three decimal numbers below 2 to the 64 and any text that does not extend them parse to the zero-padded triple |
| `VersionParsing.NotABanner` | internal/pgxexporter/postgres_exporter.go:53-55 | a text without a blank is no banner |
| `VersionParsing.ShowRoundTrip` | internal/pgxexporter/exporter.go:198-199 | the short_version label of the version metric reads back as the version |

## Left out

- SQL text and its execution: a query is a token; of the replication queries only the aliases of the position and lag columns are kept.
- Help texts of the built-in columns, which are empty here.
- YAML, URLs, SHA-256, reading files, pgx connecting, pooling and pinging, and the parsing and printing of floats, durations and times: parameters that may answer anything.
- A document whose YAML has the wrong types panics in the source with the lock still held; the model starts from a well-typed document.
- Prometheus's own checks of names, labels and duplicates, and its panics on a bad name: only label arity and identity are modelled.
- A result set with rows but no columns: a missing label would then index out of range, so a result set here has at least one column and readable rows have as many values as columns, as the driver delivers them.
- An error that ends a result set early looks to the source like the end of the rows, and so it does here.
- NewServer ignores the error of parsing the pool configuration; opening a connection is one step that succeeds or fails.
- GetServer and Close hold the Servers mutex throughout, so each is one step; goroutines waiting for it are not modelled. A scrape that keeps a connection never waits for that mutex.
- In the step machines a connection taken and given back without waiting for the lock in between (the ping, the settings, the scan of a namespace) is one step that needs a free connection; listing the databases, which takes one without the lock, is not among the steps.
- Concurrent rebuilds of different servers share the user-queries gauge; what is said of the gauge is said of scrapes one after another.
- Collect's own gauges and counters, the duration gauge and the loggers.
- The settings query, `normaliseUnit` and the metrics of single settings: the settings answer with any metrics, and may fail.
- `WaitForDatabaseReadiness`, `getDataSources`, the HTTP handler, flags, environment variables, `dumpMaps`, `fetchPod`, scripts and images.
- semver's parser is not part of the repository: that it refuses leading zeros and numbers of more than 64 bits, and pads short versions with zeros, is taken from version 3.5.1 of that library.
- Strings are sequences of characters; text that is not valid UTF-8 is not modelled.
- `parseFingerprint` and `loggableDSN`, which only name a server: the fingerprint is a parameter.
