/** The three connections of a server's pool (internal/pgxexporter/postgres_server.go) against its lock: when
    concurrent scrapes can get stuck. A scrape keeps a connection while it waits for the write lock, and a scrape
    with the read lock waits for a connection. */
module PoolDeadlock {
  import opened Wrappers
  import opened Sequences
  import opened Versions
  import opened MetricMaps
  import opened QueryOverrides
  import opened UserQueries
  import opened MapCache
  import opened ConcurrentScrapes
  import opened ConcurrentRuns

  /** The outcome of a stale check is the one the code computes from the maps as they are. */
  ghost predicate ChecksTruly(s: State, t: Tid, a: Action) {
    a.Check? && t in s.pcs && s.pcs[t].Probed? ==> a.stale == IsStale(s.pcs[t].v, s.shared)
  }

  ghost predicate IsStale(v: Version, m: Maps) {
    v != m.version || m.metricMap.None?
  }

  ghost predicate CodeRun(cfg: Config, serverLabels: Labels, tids: set<Tid>, steps: seq<(Tid, Action)>, states: seq<State>) {
    && Interleaving(cfg, serverLabels, tids, steps, states)
    && forall i | 0 <= i < |steps| :: ChecksTruly(states[i], steps[i].0, steps[i].1)
  }

  /** A state some run comes to whose every stale check is a true one. */
  ghost predicate Reachable(cfg: Config, serverLabels: Labels, tids: set<Tid>, s: State) {
    exists steps, states :: CodeRun(cfg, serverLabels, tids, steps, states) && states[|steps|] == s
  }

  lemma StartIsReachable(cfg: Config, serverLabels: Labels, tids: set<Tid>)
    ensures Reachable(cfg, serverLabels, tids, Start(tids))
  {
    assert CodeRun(cfg, serverLabels, tids, [], [Start(tids)]);
  }

  lemma ReachStep(cfg: Config, serverLabels: Labels, tids: set<Tid>, s: State, t: Tid, a: Action, s': State)
    requires Reachable(cfg, serverLabels, tids, s) && Next(cfg, serverLabels, s, t, a, s') && ChecksTruly(s, t, a)
    ensures Reachable(cfg, serverLabels, tids, s')
  {
    var steps, states :| CodeRun(cfg, serverLabels, tids, steps, states) && states[|steps|] == s;
    RunLonger(cfg, serverLabels, tids, steps, states, t, a, s');
  }

  lemma RunLonger(cfg: Config, serverLabels: Labels, tids: set<Tid>, steps: seq<(Tid, Action)>, states: seq<State>,
                  t: Tid, a: Action, s': State)
    requires CodeRun(cfg, serverLabels, tids, steps, states)
    requires Next(cfg, serverLabels, states[|steps|], t, a, s') && ChecksTruly(states[|steps|], t, a)
    ensures CodeRun(cfg, serverLabels, tids, steps + [(t, a)], states + [s'])
  {
    var s := states[|steps|];
    assert Chain(StepOf(cfg, serverLabels), [(t, a)], [s, s']);
    ChainAppend(StepOf(cfg, serverLabels), steps, states, [(t, a)], [s, s']);
    assert [s, s'][1..] == [s'];
    var steps', states' := steps + [(t, a)], states + [s'];
    forall i | 0 <= i < |steps'| ensures ChecksTruly(states'[i], steps'[i].0, steps'[i].1) {
      if i < |steps| {
        assert ChecksTruly(states[i], steps[i].0, steps[i].1);
      }
    }
  }

  lemma ReachableInv(cfg: Config, serverLabels: Labels, tids: set<Tid>, s: State)
    requires Reachable(cfg, serverLabels, tids, s)
    ensures Inv(cfg, serverLabels, s) && PoolInv(s) && s.pcs.Keys == tids
  {
    var steps, states :| CodeRun(cfg, serverLabels, tids, steps, states) && states[|steps|] == s;
    InvHolds(cfg, serverLabels, tids, steps, states, |steps|);
  }

  ghost predicate UnderWay(s: State, t: Tid) {
    t in s.pcs && !s.pcs[t].Idle?
  }

  /** Some scrape is under way, and none that is can take a step. */
  ghost predicate Stuck(cfg: Config, serverLabels: Labels, s: State) {
    && (exists u :: UnderWay(s, u))
    && forall t, a, s' :: Next(cfg, serverLabels, s, t, a, s') ==> !UnderWay(s, t)
  }

  /** Whether a scrape can ever want a connection under the read lock: for the settings, or for a namespace of some maps. */
  ghost predicate WantsConnections(cfg: Config) {
    !cfg.disableSettingsMetrics || BaseTables(cfg) != map[] || cfg.userQueriesPath != ""
  }

  // ---- Few scrapes, or scrapes that want nothing, never get stuck ----

  /** Every step under the write lock comes nearer to the unlocking. */
  lemma WriterComesNearer(cfg: Config, serverLabels: Labels, pc: PC, m: Maps, a: Action, pc': PC, m': Maps)
    requires WriteStep(cfg, serverLabels, pc, m, a, pc', m')
    ensures Phase(pc') < Phase(pc) || (Phase(pc') == Phase(pc) && |LeftOf(pc')| < |LeftOf(pc)|)
  {
    if a.MergeMetric? || a.MergeQuery? {
      OneLess(pc.left, a.key);
    }
  }

  lemma OneLess(left: set<string>, key: string)
    requires key in left
    ensures |left - {key}| < |left|
  {
  }

  /** It keeps to its version and its file. */
  lemma WriterKeepsFile(cfg: Config, serverLabels: Labels, pc: PC, m: Maps, a: Action, pc': PC, m': Maps, found: UserFile)
    requires WriteStep(cfg, serverLabels, pc, m, a, pc', m') && (a.LoadFile? ==> a.file == found)
    ensures Writing(pc) && Writing(pc') && pc'.v == pc.v && FileOf(pc', found) == FileOf(pc, found)
  {
  }

  /** The holder of the write lock can go on up to the unlocking, whatever file it finds. */
  lemma WriterCanGoOn(cfg: Config, serverLabels: Labels, pc: PC, loaded: Option<Load>, m: Maps, found: UserFile)
    returns (a: Action, pc': PC, m': Maps)
    requires WriterInv(cfg, serverLabels, pc, loaded, m) && !pc.Unlocking?
    ensures WriteStep(cfg, serverLabels, pc, m, a, pc', m') && (a.LoadFile? ==> a.file == found)
  {
    match pc
    case Building(v) =>
      var base := TablesCompile(v, serverLabels, BaseTables(cfg));
      a, pc', m' := AssignMaps(base), Overriding(v), m.(metricMap := Some(base));
    case Overriding(v) =>
      a, pc', m' := AssignQueries, Stamping(v), m.(queryOverrides := OverrideMap(v, BaseOverrides(cfg)));
    case Stamping(v) =>
      a, pc', m' := AssignVersion, Loading(v), m.(version := v);
    case Loading(v) =>
      m' := m;
      if Merges(cfg, found) {
        var partial := TablesCompile(v, serverLabels, UserTables(found.content.doc));
        a, pc' := LoadFile(found, partial), MergingMetrics(v, found, m.metricMap.value, partial, partial.Keys);
      } else {
        a, pc' := LoadFile(found, map[]), Unlocking(v, found);
      }
    case MergingMetrics(v, file, base, partial, left) =>
      m' := m;
      if left == {} {
        a, pc' := MetricsMerged, MergingQueries(v, file, UserOverrides(file.content.doc).Keys);
      } else {
        var key :| key in left;
        a, pc' := MergeMetric(key), MergingMetrics(v, file, base, partial, left - {key});
        m' := m.(metricMap := Some(m.metricMap.value[key := partial[key]]));
      }
    case MergingQueries(v, file, left) =>
      m' := m;
      if left == {} {
        a, pc' := QueriesMerged, Unlocking(v, file);
      } else {
        var key :| key in left;
        a, pc' := MergeQuery(key), MergingQueries(v, file, left - {key});
        m' := m.(queryOverrides := m.queryOverrides[key := UserOverrides(file.content.doc)[key]]);
      }
  }

  /** The file of a rebuild that has read it, or the one it is going to find. */
  ghost function FileOf(pc: PC, found: UserFile): UserFile {
    if pc.MergingMetrics? || pc.MergingQueries? || pc.Unlocking? then pc.file else found
  }

  ghost function Phase(pc: PC): nat {
    match pc
    case Building(_) => 6
    case Overriding(_) => 5
    case Stamping(_) => 4
    case Loading(_) => 3
    case MergingMetrics(_, _, _, _, _) => 2
    case MergingQueries(_, _, _) => 1
    case _ => 0
  }

  ghost function LeftOf(pc: PC): set<string> {
    if pc.MergingMetrics? || pc.MergingQueries? then pc.left else {}
  }

  ghost function WrittenBy(s: State, t: Tid, pc: PC, a: Action, m: Maps): State
    requires t in s.pcs
  {
    Moved(s, t, pc).(shared := m, loaded := AfterLoad(s.pcs[t], a, s.loaded))
  }

  lemma WriterMoves(cfg: Config, serverLabels: Labels, s: State) returns (t: Tid, a: Action, s': State)
    requires Inv(cfg, serverLabels, s) && s.writer.Some?
    ensures UnderWay(s, t) && !a.ReadLock? && Next(cfg, serverLabels, s, t, a, s') && ChecksTruly(s, t, a)
  {
    t := s.writer.value;
    var pc := s.pcs[t];
    if pc.Unlocking? {
      a, s' := Unlock, Moved(s, t, WantRead).(writer := None);
    } else {
      var pc', m';
      a, pc', m' := WriterCanGoOn(cfg, serverLabels, pc, s.loaded, s.shared, Missing);
      s' := WrittenBy(s, t, pc', a, m');
    }
  }

  lemma ReaderMoves(cfg: Config, serverLabels: Labels, s: State, t: Tid) returns (a: Action, s': State)
    requires Inv(cfg, serverLabels, s) && t in s.readers
    requires s.free > 0 || (!s.pcs[t].settingsDue && s.pcs[t].left == {})
    ensures UnderWay(s, t) && !a.ReadLock? && Next(cfg, serverLabels, s, t, a, s') && ChecksTruly(s, t, a)
  {
    var pc := s.pcs[t];
    assert ReaderInv(cfg, pc, s.loaded, s.shared);
    if pc.settingsDue {
      a, s' := Settings, Moved(s, t, Reading(pc.snapshot, pc.loaded, false, pc.left, pc.seen));
    } else if pc.left == {} {
      a := ReadUnlock;
      s' := Moved(s, t, Idle).(readers := s.readers - {t}, log := s.log + [Completed(pc.snapshot, pc.loaded, pc.seen)]);
    } else {
      var key :| key in pc.left;
      a := Action.Scan(key);
      s' := Moved(s, t, Reading(pc.snapshot, pc.loaded, false, pc.left - {key}, pc.seen[key := SeenOf(s.shared, key)]));
    }
  }

  /** Without the lock taken, a scrape that keeps a connection moves. */
  lemma HolderMoves(cfg: Config, serverLabels: Labels, s: State, t: Tid) returns (a: Action, s': State)
    requires Inv(cfg, serverLabels, s) && s.writer.None? && s.readers == {} && t in Holders(s.pcs)
    ensures UnderWay(s, t) && !a.ReadLock? && Next(cfg, serverLabels, s, t, a, s') && ChecksTruly(s, t, a)
  {
    var pc := s.pcs[t];
    if pc.WantWrite? {
      a, s' := Lock, Moved(s, t, Building(pc.v)).(writer := Some(t));
    } else {
      var stale := IsStale(pc.v, s.shared);
      a, s' := Check(stale), Moved(s, t, if stale then WantWrite(pc.v) else WantRead);
    }
  }

  /** Without the lock taken some scrape moves; one that takes the read lock does so only when nobody waits to write. */
  lemma SomeoneMoves(cfg: Config, serverLabels: Labels, s: State, u: Tid) returns (t: Tid, a: Action, s': State)
    requires Inv(cfg, serverLabels, s) && PoolInv(s) && s.writer.None? && s.readers == {} && UnderWay(s, u)
    ensures UnderWay(s, t) && Next(cfg, serverLabels, s, t, a, s') && ChecksTruly(s, t, a)
    ensures a.ReadLock? ==> forall w | w in s.pcs :: !s.pcs[w].WantWrite?
  {
    t := u;
    if Holders(s.pcs) != {} {
      t :| t in Holders(s.pcs);
      a, s' := HolderMoves(cfg, serverLabels, s, t);
    } else if s.pcs[u].Pinged? {
      a, s' := Probe(None), Moved(s, u, WantRead);
    } else {
      assert s.pcs[u].WantRead?;
      forall w | w in s.pcs ensures !s.pcs[w].WantWrite? {
        assert w !in Holders(s.pcs);
      }
      a, s' := ReadLock, Moved(s, u, Opened(cfg, s)).(readers := s.readers + {u});
    }
  }

  /** Among at most MaxConns scrapes, a reader finds a connection. */
  lemma ReaderFindsConnection(cfg: Config, serverLabels: Labels, s: State, t: Tid)
    requires Inv(cfg, serverLabels, s) && PoolInv(s) && t in s.readers && |s.pcs| <= MAX_CONNS
    ensures s.free > 0
  {
    var others := s.pcs.Keys - {t};
    assert Holders(s.pcs) <= others;
    Subset(Holders(s.pcs), others);
    assert |others| == |s.pcs.Keys| - 1 && |s.pcs.Keys| == |s.pcs|;
  }

  lemma {:induction false} Subset<T>(a: set<T>, b: set<T>)
    requires a <= b
    ensures |a| <= |b|
  {
    assert b == a + (b - a);
  }

  lemma ReaderWantsNothing(cfg: Config, serverLabels: Labels, s: State, t: Tid)
    requires Inv(cfg, serverLabels, s) && t in s.readers && !WantsConnections(cfg)
    ensures !s.pcs[t].settingsDue && s.pcs[t].left == {}
  {
    assert ReaderInv(cfg, s.pcs[t], s.loaded, s.shared) && Settled(cfg, serverLabels, s.loaded, s.shared);
    if s.loaded.Some? {
      NoTables(cfg, serverLabels, s.loaded.value.version, s.loaded.value.file, s.shared);
    }
  }

  lemma NoTables(cfg: Config, serverLabels: Labels, v: Version, file: UserFile, m: Maps)
    requires IsBuild(cfg, serverLabels, v, file, m) && !WantsConnections(cfg)
    ensures Keys(m) == {}
  {
    EmptyDocument();
    assert !Merges(cfg, file);
    assert BaseTables(cfg) + UserTables(MergedDocument(cfg, file)) == map[];
  }

  /** At most MaxConns scrapes, or any number of scrapes that want no connection under the read lock: while one is
      under way, one that is can take a step, whatever the stale checks have said so far; its own is a true one. It takes
      the read lock only when none waits to write, so nothing changes when a waiting writer bars new readers. */
  lemma NoDeadlock(cfg: Config, serverLabels: Labels, tids: set<Tid>, steps: seq<(Tid, Action)>, states: seq<State>, n: nat, u: Tid)
    returns (t: Tid, a: Action, s': State)
    requires Interleaving(cfg, serverLabels, tids, steps, states) && n <= |steps| && UnderWay(states[n], u)
    requires |tids| <= MAX_CONNS || !WantsConnections(cfg)
    ensures UnderWay(states[n], t) && Next(cfg, serverLabels, states[n], t, a, s') && ChecksTruly(states[n], t, a)
    ensures a.ReadLock? ==> forall w | w in states[n].pcs :: !states[n].pcs[w].WantWrite?
  {
    InvHolds(cfg, serverLabels, tids, steps, states, n);
    t, a, s' := SomeScrapeMoves(cfg, serverLabels, tids, states[n], u);
  }

  lemma SomeScrapeMoves(cfg: Config, serverLabels: Labels, tids: set<Tid>, s: State, u: Tid)
    returns (t: Tid, a: Action, s': State)
    requires Inv(cfg, serverLabels, s) && PoolInv(s) && s.pcs.Keys == tids && UnderWay(s, u)
    requires |tids| <= MAX_CONNS || !WantsConnections(cfg)
    ensures UnderWay(s, t) && Next(cfg, serverLabels, s, t, a, s') && ChecksTruly(s, t, a)
    ensures a.ReadLock? ==> forall w | w in s.pcs :: !s.pcs[w].WantWrite?
  {
    if s.writer.Some? {
      t, a, s' := WriterMoves(cfg, serverLabels, s);
    } else if s.readers != {} {
      t :| t in s.readers;
      if |tids| <= MAX_CONNS {
        assert |s.pcs| == |s.pcs.Keys|;
        ReaderFindsConnection(cfg, serverLabels, s, t);
      } else {
        ReaderWantsNothing(cfg, serverLabels, s, t);
      }
      a, s' := ReaderMoves(cfg, serverLabels, s, t);
    } else {
      t, a, s' := SomeoneMoves(cfg, serverLabels, s, u);
    }
  }

  // ---- Four scrapes can get stuck ----

  /** The holder of the write lock, left alone, comes to the unlocking with a whole build. */
  lemma {:induction false} FinishWriting(cfg: Config, serverLabels: Labels, tids: set<Tid>, s: State, t: Tid, found: UserFile)
    returns (s': State)
    requires Reachable(cfg, serverLabels, tids, s) && s.writer == Some(t) && t in s.pcs && Writing(s.pcs[t])
    ensures Reachable(cfg, serverLabels, tids, s')
    ensures var pc := Unlocking(s.pcs[t].v, FileOf(s.pcs[t], found));
            && s' == s.(pcs := s.pcs[t := pc], shared := s'.shared, loaded := s'.loaded)
            && IsBuild(cfg, serverLabels, pc.v, pc.file, s'.shared)
    decreases Phase(s.pcs[t]), |LeftOf(s.pcs[t])|
  {
    var pc := s.pcs[t];
    ReachableInv(cfg, serverLabels, tids, s);
    if pc.Unlocking? {
      s' := s;
    } else {
      var a, pc', m' := WriterCanGoOn(cfg, serverLabels, pc, s.loaded, s.shared, found);
      WriterComesNearer(cfg, serverLabels, pc, s.shared, a, pc', m');
      WriterKeepsFile(cfg, serverLabels, pc, s.shared, a, pc', m', found);
      var next := WrittenBy(s, t, pc', a, m');
      ReachStep(cfg, serverLabels, tids, s, t, a, next);
      s' := FinishWriting(cfg, serverLabels, tids, next, t, found);
      assert next.pcs[t := s'.pcs[t]] == s.pcs[t := s'.pcs[t]];
    }
  }

  // The versions before and after an upgrade of the server.
  const OLD := Version(12, 0, 0)
  const NEW := Version(13, 0, 0)

  /** An idle scrape that finds the maps stale comes to wait for the write lock, with a connection. */
  lemma Queue(cfg: Config, serverLabels: Labels, tids: set<Tid>, s: State, t: Tid, v: Version) returns (s': State)
    requires Reachable(cfg, serverLabels, tids, s) && t in s.pcs && s.pcs[t].Idle? && s.free > 0 && IsStale(v, s.shared)
    ensures Reachable(cfg, serverLabels, tids, s')
    ensures s' == s.(pcs := s.pcs[t := WantWrite(v)], free := s.free - 1)
  {
    var pinged := Moved(s, t, Pinged);
    ReachStep(cfg, serverLabels, tids, s, t, Ping(true), pinged);
    var probed := Moved(pinged, t, Probed(v));
    ReachStep(cfg, serverLabels, tids, pinged, t, Probe(Some(v)), probed);
    s' := Moved(probed, t, WantWrite(v));
    ReachStep(cfg, serverLabels, tids, probed, t, Check(true), s');
    assert s'.pcs == s.pcs[t := WantWrite(v)];
  }

  /** A file that gives the user's tables a namespace. */
  const SOME_FILE := File("", Parsed(map["namespace" := NamespaceSpec(None, [map["column" := ColumnSpec(None, None)]])]))

  lemma SomeTable()
    ensures Loads(SOME_FILE.content) && "namespace" in UserTables(SOME_FILE.content.doc)
  {
    var columns := map["column" := ColumnSpec(None, None)];
    assert [columns][..0] == [] && Merged([columns]) == map[] + columns;
    assert "column" in Merged([columns]);
  }

  lemma SomeFileHasTables(cfg: Config, serverLabels: Labels, v: Version, m: Maps)
    requires IsBuild(cfg, serverLabels, v, SOME_FILE, m) && (BaseTables(cfg) != map[] || cfg.userQueriesPath != "")
    ensures Keys(m) != {}
  {
    if BaseTables(cfg) != map[] {
      var ns :| ns in BaseTables(cfg);
      assert ns in Keys(m);
    } else {
      SomeTable();
      assert Merges(cfg, SOME_FILE) && "namespace" in Keys(m);
    }
  }

  /** One scrape alone builds the maps, and is about to take the read lock. */
  lemma BuildAlone(cfg: Config, serverLabels: Labels, tids: set<Tid>, t: Tid) returns (s: State)
    requires t in tids
    ensures Reachable(cfg, serverLabels, tids, s)
    ensures s.writer == None && s.readers == {} && s.free == MAX_CONNS && s.pcs == Start(tids).pcs[t := WantRead]
    ensures IsBuild(cfg, serverLabels, OLD, SOME_FILE, s.shared)
  {
    var start := Start(tids);
    StartIsReachable(cfg, serverLabels, tids);
    var queued := Queue(cfg, serverLabels, tids, start, t, OLD);
    var building := Moved(queued, t, Building(OLD)).(writer := Some(t));
    ReachStep(cfg, serverLabels, tids, queued, t, Lock, building);
    var built := FinishWriting(cfg, serverLabels, tids, building, t, SOME_FILE);
    s := Moved(built, t, WantRead).(writer := None);
    ReachStep(cfg, serverLabels, tids, built, t, Unlock, s);
    assert s.pcs == start.pcs[t := WantRead];
  }

  /** With the read lock it still wants a connection. */
  lemma BuildAndOpen(cfg: Config, serverLabels: Labels, tids: set<Tid>, t: Tid) returns (s: State)
    requires t in tids && WantsConnections(cfg)
    ensures Reachable(cfg, serverLabels, tids, s)
    ensures s.writer == None && s.readers == {t} && s.free == MAX_CONNS && t in s.pcs && s.pcs == Start(tids).pcs[t := s.pcs[t]]
    ensures s.shared.version == OLD && s.pcs[t].Reading? && (s.pcs[t].settingsDue || s.pcs[t].left != {})
  {
    var built := BuildAlone(cfg, serverLabels, tids, t);
    s := Moved(built, t, Opened(cfg, built)).(readers := {t});
    ReachStep(cfg, serverLabels, tids, built, t, ReadLock, s);
    assert s.pcs == Start(tids).pcs[t := s.pcs[t]];
    if cfg.disableSettingsMetrics {
      SomeFileHasTables(cfg, serverLabels, OLD, built.shared);
    }
  }

  /** The server is upgraded while one scrape reads. Three others find the maps stale and wait to write with the pool's
      three connections, and the first waits for one with the read lock: no scrape, and no new one, can take a step. */
  lemma FourGetStuck(cfg: Config, serverLabels: Labels, tids: set<Tid>, t: Tid, a: Tid, b: Tid, c: Tid) returns (s: State)
    requires {t, a, b, c} <= tids && a != t && b !in {t, a} && c !in {t, a, b} && WantsConnections(cfg)
    ensures Reachable(cfg, serverLabels, tids, s) && Stuck(cfg, serverLabels, s)
    ensures forall u, action, s' :: !Next(cfg, serverLabels, s, u, action, s')
  {
    s := BuildAndOpen(cfg, serverLabels, tids, t);
    var reading := s.pcs[t];
    s := Queue(cfg, serverLabels, tids, s, a, NEW);
    s := Queue(cfg, serverLabels, tids, s, b, NEW);
    s := Queue(cfg, serverLabels, tids, s, c, NEW);
    assert s.free == 0 && s.pcs[t] == reading && s.shared.version == OLD;
    assert UnderWay(s, t);
    forall u, action, s' ensures !Next(cfg, serverLabels, s, u, action, s') {
      if u in s.pcs {
        assert u == t || s.pcs[u].WantWrite? || s.pcs[u].Idle?;
        NobodyMoves(cfg, serverLabels, s, u, action, s');
      }
    }
  }

  lemma NobodyMoves(cfg: Config, serverLabels: Labels, s: State, u: Tid, a: Action, s': State)
    requires u in s.pcs && s.free == 0 && s.readers != {}
    requires s.pcs[u].WantWrite? || s.pcs[u].Idle? || (s.pcs[u].Reading? && (s.pcs[u].settingsDue || s.pcs[u].left != {}))
    ensures !Next(cfg, serverLabels, s, u, a, s')
  {
  }

  lemma FourOf(tids: set<Tid>) returns (t: Tid, a: Tid, b: Tid, c: Tid)
    requires |tids| > 3
    ensures {t, a, b, c} <= tids && a != t && b !in {t, a} && c !in {t, a, b}
  {
    t :| t in tids;
    var rest := tids - {t};
    assert |rest| > 2;
    a :| a in rest;
    rest := rest - {a};
    assert |rest| > 1;
    b :| b in rest;
    rest := rest - {b};
    assert |rest| > 0;
    c :| c in rest;
  }

  /** When concurrent scrapes of one server can get stuck, their stale checks being true ones: exactly when there are
      more of them than the pool has connections, and scrapes want connections under the read lock at all. */
  lemma StuckExactlyWhen(cfg: Config, serverLabels: Labels, tids: set<Tid>)
    ensures (exists s :: Reachable(cfg, serverLabels, tids, s) && Stuck(cfg, serverLabels, s)) <==>
              |tids| > MAX_CONNS && WantsConnections(cfg)
  {
    if |tids| > MAX_CONNS && WantsConnections(cfg) {
      var t, a, b, c := FourOf(tids);
      var s := FourGetStuck(cfg, serverLabels, tids, t, a, b, c);
    } else if s :| Reachable(cfg, serverLabels, tids, s) && Stuck(cfg, serverLabels, s) {
      var u :| UnderWay(s, u);
      ReachableInv(cfg, serverLabels, tids, s);
      var t, a, s' := SomeScrapeMoves(cfg, serverLabels, tids, s, u);
      assert false;
    }
  }
}
