/** Any number of scrapes of one server at once (Server.Scrape in internal/pgxexporter/postgres_server.go and
    checkMapVersions in internal/pgxexporter/exporter.go), one step at a time. They share the maps under the lock, and
    the connections of the server's pool. */
module ConcurrentScrapes {
  import opened Wrappers
  import opened Sequences
  import opened Versions
  import opened MetricMaps
  import opened Evaluator
  import opened QueryOverrides
  import opened UserQueries
  import opened MapCache

  type Tid = nat

  // The pool's MaxConns.
  const MAX_CONNS: nat := 3

  /** What the scan of one namespace reads of the shared maps. */
  datatype Seen = Seen(mapping: MetricMapNamespace, query: Option<string>)

  /** A rebuild that has read the user's file: for which version, and what the file was. */
  datatype Load = Load(version: Version, file: UserFile)

  /** Where a scrape is. From Probed to Unlocking it keeps the connection it read the version with, from Building
      to Unlocking it holds the write lock, in Reading a read lock. */
  datatype PC =
    | Idle
    | Pinged
    | Probed(v: Version)
    | WantWrite(v: Version)
    | Building(v: Version)
    | Overriding(v: Version)
    | Stamping(v: Version)
    | Loading(v: Version)
    | MergingMetrics(v: Version, file: UserFile, base: MetricMaps, partial: MetricMaps, left: set<string>)
    | MergingQueries(v: Version, file: UserFile, left: set<string>)
    | Unlocking(v: Version, file: UserFile)
    | WantRead
    | Reading(snapshot: Maps, loaded: Option<Load>, settingsDue: bool, left: set<string>, seen: map<string, Seen>)

  /** A scrape that is over: the maps as they were when it took the read lock, and all it read of them. */
  datatype Completed = Completed(snapshot: Maps, loaded: Option<Load>, seen: map<string, Seen>)

  /** `loaded` is the last rebuild to have read the file; `free` counts the idle connections of the pool. */
  datatype State = State(shared: Maps, loaded: Option<Load>, free: int, writer: Option<Tid>, readers: set<Tid>,
                         pcs: map<Tid, PC>, log: seq<Completed>)

  /** One atomic step of scrape `t`. Whether the ping answers, the version read, the outcome of the stale check, the
      order of every loop, the compilations and the file are free. */
  datatype Action =
    | Ping(alive: bool)
    | Probe(version: Option<Version>)
    | Check(stale: bool)
    | Lock
    | AssignMaps(base: MetricMaps)
    | AssignQueries
    | AssignVersion
    | LoadFile(file: UserFile, partial: MetricMaps)
    | MergeMetric(key: string)
    | MetricsMerged
    | MergeQuery(key: string)
    | QueriesMerged
    | Unlock
    | ReadLock
    | Settings
    | Scan(key: string)
    | ReadUnlock

  ghost function Keys(m: Maps): set<string> {
    if m.metricMap.Some? then m.metricMap.value.Keys else {}
  }

  ghost function SeenOf(m: Maps, key: string): Seen
    requires key in Keys(m)
  {
    Seen(m.metricMap.value[key], QueryOf(m.queryOverrides, key))
  }

  /** What a scan of unchanging maps reads in all. */
  ghost function FullView(m: Maps): map<string, Seen> {
    map key | key in Keys(m) :: SeenOf(m, key)
  }

  /** Whether a scrape keeps a connection from this step to the next. */
  predicate Holds(pc: PC) {
    pc.Probed? || pc.WantWrite? || Writing(pc)
  }

  function Held(pc: PC): int {
    if Holds(pc) then 1 else 0
  }

  ghost function Moved(s: State, t: Tid, pc: PC): State
    requires t in s.pcs
  {
    s.(pcs := s.pcs[t := pc], free := s.free + Held(s.pcs[t]) - Held(pc))
  }

  /** A step under the write lock: what it does to the shared maps. */
  ghost predicate WriteStep(cfg: Config, serverLabels: Labels, pc: PC, m: Maps, a: Action, pc': PC, m': Maps) {
    match a
    case AssignMaps(base) =>
      && pc.Building? && IsDescMap(pc.v, serverLabels, BaseTables(cfg), base)
      && pc' == Overriding(pc.v) && m' == m.(metricMap := Some(base))
    case AssignQueries =>
      pc.Overriding? && pc' == Stamping(pc.v) && m' == m.(queryOverrides := OverrideMap(pc.v, BaseOverrides(cfg)))
    case AssignVersion =>
      pc.Stamping? && pc' == Loading(pc.v) && m' == m.(version := pc.v)
    case LoadFile(file, partial) =>
      && pc.Loading? && m.metricMap.Some? && m' == m
      && if Merges(cfg, file) then
           && IsDescMap(pc.v, serverLabels, UserTables(file.content.doc), partial)
           && pc' == MergingMetrics(pc.v, file, m.metricMap.value, partial, partial.Keys)
         else pc' == Unlocking(pc.v, file)
    case MergeMetric(key) =>
      && pc.MergingMetrics? && key in pc.left && key in pc.partial && m.metricMap.Some?
      && pc' == MergingMetrics(pc.v, pc.file, pc.base, pc.partial, pc.left - {key})
      && m' == m.(metricMap := Some(m.metricMap.value[key := pc.partial[key]]))
    case MetricsMerged =>
      && pc.MergingMetrics? && pc.left == {} && Merges(cfg, pc.file)
      && pc' == MergingQueries(pc.v, pc.file, UserOverrides(pc.file.content.doc).Keys) && m' == m
    case MergeQuery(key) =>
      && pc.MergingQueries? && key in pc.left && Merges(cfg, pc.file) && key in UserOverrides(pc.file.content.doc)
      && pc' == MergingQueries(pc.v, pc.file, pc.left - {key})
      && m' == m.(queryOverrides := m.queryOverrides[key := UserOverrides(pc.file.content.doc)[key]])
    case QueriesMerged =>
      pc.MergingQueries? && pc.left == {} && pc' == Unlocking(pc.v, pc.file) && m' == m
    case _ => false
  }

  /** A step that touches neither the maps nor the lock. The ping, the settings and the scan of a namespace take a
      connection and give it back; the probe keeps its own until checkMapVersions returns. */
  ghost predicate LocalStep(pc: PC, m: Maps, free: int, a: Action, pc': PC) {
    match a
    case Ping(alive) => pc.Idle? && free > 0 && pc' == if alive then Pinged else Idle
    case Probe(version) => pc.Pinged? && free > 0 && pc' == if version.Some? then Probed(version.value) else WantRead
    case Check(stale) => pc.Probed? && pc' == if stale then WantWrite(pc.v) else WantRead
    case Settings => pc.Reading? && free > 0 && pc.settingsDue && pc' == Reading(pc.snapshot, pc.loaded, false, pc.left, pc.seen)
    case Scan(key) =>
      && pc.Reading? && free > 0 && !pc.settingsDue && key in pc.left && key in Keys(m)
      && pc' == Reading(pc.snapshot, pc.loaded, false, pc.left - {key}, pc.seen[key := SeenOf(m, key)])
    case _ => false
  }

  /** What a scrape is about to do under its new read lock. */
  ghost function Opened(cfg: Config, s: State): PC {
    Reading(s.shared, s.loaded, !cfg.disableSettingsMetrics, Keys(s.shared), map[])
  }

  ghost predicate Next(cfg: Config, serverLabels: Labels, s: State, t: Tid, a: Action, s': State) {
    && t in s.pcs && t in s'.pcs
    && var pc, pc' := s.pcs[t], s'.pcs[t];
    match a
    case Lock => pc.WantWrite? && s.writer.None? && s.readers == {} && s' == Moved(s, t, Building(pc.v)).(writer := Some(t))
    case Unlock => pc.Unlocking? && s' == Moved(s, t, WantRead).(writer := None)
    case ReadLock => pc.WantRead? && s.writer.None? && s' == Moved(s, t, Opened(cfg, s)).(readers := s.readers + {t})
    case ReadUnlock =>
      && pc.Reading? && !pc.settingsDue && pc.left == {}
      && s' == Moved(s, t, Idle).(readers := s.readers - {t}, log := s.log + [Completed(pc.snapshot, pc.loaded, pc.seen)])
    case _ =>
      || (LocalStep(pc, s.shared, s.free, a, pc') && s' == Moved(s, t, pc'))
      || (WriteStep(cfg, serverLabels, pc, s.shared, a, pc', s'.shared)
          && s' == Moved(s, t, pc').(shared := s'.shared, loaded := AfterLoad(pc, a, s.loaded)))
  }

  ghost function AfterLoad(pc: PC, a: Action, loaded: Option<Load>): Option<Load> {
    if a.LoadFile? && pc.Loading? then Some(Load(pc.v, a.file)) else loaded
  }

  // ---- What every interleaving keeps ----

  predicate Writing(pc: PC) {
    pc.Building? || pc.Overriding? || pc.Stamping? || pc.Loading? || pc.MergingMetrics? || pc.MergingQueries? || pc.Unlocking?
  }

  /** Maps a scrape may be given: the initial ones, or the whole build of the last rebuild to read the file, for its
      version and with its document. */
  ghost predicate Settled(cfg: Config, serverLabels: Labels, loaded: Option<Load>, m: Maps) {
    match loaded
    case None => m == INITIAL
    case Some(l) => IsBuild(cfg, serverLabels, l.version, l.file, m)
  }

  /** How far the holder of the write lock has got with the shared maps. */
  ghost predicate WriterInv(cfg: Config, serverLabels: Labels, pc: PC, loaded: Option<Load>, m: Maps) {
    match pc
    case Building(v) => true
    case Overriding(v) => m.metricMap.Some? && IsDescMap(v, serverLabels, BaseTables(cfg), m.metricMap.value)
    case Stamping(v) =>
      && m.metricMap.Some? && IsDescMap(v, serverLabels, BaseTables(cfg), m.metricMap.value)
      && m.queryOverrides == OverrideMap(v, BaseOverrides(cfg))
    case Loading(v) =>
      && m.metricMap.Some? && IsDescMap(v, serverLabels, BaseTables(cfg), m.metricMap.value)
      && m.queryOverrides == OverrideMap(v, BaseOverrides(cfg)) && m.version == v
    case MergingMetrics(v, file, base, partial, left) =>
      && loaded == Some(Load(v, file))
      && Merges(cfg, file) && left <= partial.Keys
      && IsDescMap(v, serverLabels, BaseTables(cfg), base)
      && IsDescMap(v, serverLabels, UserTables(file.content.doc), partial)
      && m == Maps(v, Some(base + (partial - left)), OverrideMap(v, BaseOverrides(cfg)))
    case MergingQueries(v, file, left) =>
      && loaded == Some(Load(v, file))
      && Merges(cfg, file) && left <= UserOverrides(file.content.doc).Keys
      && m.version == v && m.metricMap.Some?
      && IsDescMap(v, serverLabels, BaseTables(cfg) + UserTables(file.content.doc), m.metricMap.value)
      && m.queryOverrides == OverrideMap(v, BaseOverrides(cfg)) + (UserOverrides(file.content.doc) - left)
    case Unlocking(v, file) => loaded == Some(Load(v, file)) && IsBuild(cfg, serverLabels, v, file, m)
    case _ => false
  }

  ghost predicate ReaderInv(cfg: Config, pc: PC, loaded: Option<Load>, m: Maps) {
    && pc.Reading? && pc.snapshot == m && pc.loaded == loaded
    && pc.left + pc.seen.Keys == Keys(m) && pc.left !! pc.seen.Keys
    && (forall key | key in pc.seen :: key in Keys(m) && pc.seen[key] == SeenOf(m, key))
    && (pc.settingsDue ==> !cfg.disableSettingsMetrics)
  }

  ghost predicate LockInv(s: State) {
    && (forall t | t in s.pcs :: Writing(s.pcs[t]) <==> s.writer == Some(t))
    && (forall t :: t in s.readers <==> t in s.pcs && s.pcs[t].Reading?)
    && (s.writer.Some? ==> s.writer.value in s.pcs && s.readers == {})
  }

  ghost predicate DataInv(cfg: Config, serverLabels: Labels, s: State)
    requires LockInv(s)
  {
    && (s.writer.None? ==> Settled(cfg, serverLabels, s.loaded, s.shared))
    && (s.writer.Some? ==> WriterInv(cfg, serverLabels, s.pcs[s.writer.value], s.loaded, s.shared))
    && (forall t | t in s.readers :: ReaderInv(cfg, s.pcs[t], s.loaded, s.shared))
  }

  ghost predicate LogInv(cfg: Config, serverLabels: Labels, log: seq<Completed>) {
    forall i | 0 <= i < |log| :: Settled(cfg, serverLabels, log[i].loaded, log[i].snapshot) && log[i].seen == FullView(log[i].snapshot)
  }

  ghost function Holders(pcs: map<Tid, PC>): set<Tid> {
    Selected(pcs, Holds)
  }

  /** Every connection is free or kept by one scrape, and no more are kept than there are. */
  ghost predicate PoolInv(s: State) {
    s.free >= 0 && s.free + |Holders(s.pcs)| == MAX_CONNS
  }

  ghost predicate Inv(cfg: Config, serverLabels: Labels, s: State) {
    LockInv(s) && DataInv(cfg, serverLabels, s) && LogInv(cfg, serverLabels, s.log)
  }

  /** What a step of `t` may do to the lock: nothing, or take or leave it in one of its two ways. */
  ghost predicate LockChange(s: State, t: Tid, s': State) {
    && t in s.pcs && s'.pcs.Keys == s.pcs.Keys && s'.pcs == s.pcs[t := s'.pcs[t]]
    && var pc, pc' := s.pcs[t], s'.pcs[t];
    || (Writing(pc) == Writing(pc') && pc.Reading? == pc'.Reading? && s'.writer == s.writer && s'.readers == s.readers)
    || (pc.WantWrite? && Writing(pc') && s.writer.None? && s.readers == {} && s'.writer == Some(t) && s'.readers == {})
    || (Writing(pc) && pc'.WantRead? && s'.writer == None && s'.readers == s.readers)
    || (pc.WantRead? && pc'.Reading? && s.writer.None? && s'.writer == None && s'.readers == s.readers + {t})
    || (pc.Reading? && pc'.Idle? && s'.writer == s.writer && s'.readers == s.readers - {t})
  }

  lemma NextChangesLock(cfg: Config, serverLabels: Labels, s: State, t: Tid, a: Action, s': State)
    requires Next(cfg, serverLabels, s, t, a, s')
    ensures LockChange(s, t, s')
  {
  }

  lemma ChangeKeepsLock(s: State, t: Tid, s': State)
    requires LockInv(s) && LockChange(s, t, s')
    ensures LockInv(s')
  {
  }

  /** The lock is one writer's or any readers', whatever the step. */
  lemma LocksAreKept(cfg: Config, serverLabels: Labels, s: State, t: Tid, a: Action, s': State)
    requires LockInv(s) && Next(cfg, serverLabels, s, t, a, s')
    ensures LockInv(s')
  {
    NextChangesLock(cfg, serverLabels, s, t, a, s');
    ChangeKeepsLock(s, t, s');
  }

  lemma PoolStep(cfg: Config, serverLabels: Labels, s: State, t: Tid, a: Action, s': State)
    requires PoolInv(s) && Next(cfg, serverLabels, s, t, a, s')
    ensures PoolInv(s') && s'.pcs.Keys == s.pcs.Keys
  {
    SelectedAfterUpdate(s.pcs, Holds, t, s'.pcs[t]);
    assert s'.pcs == s.pcs[t := s'.pcs[t]];
  }

  /** Under the write lock every step keeps account of how far the rebuild is. */
  lemma WriteStepKeepsAccount(cfg: Config, serverLabels: Labels, pc: PC, loaded: Option<Load>, m: Maps, a: Action, pc': PC, m': Maps)
    requires WriterInv(cfg, serverLabels, pc, loaded, m) && WriteStep(cfg, serverLabels, pc, m, a, pc', m')
    ensures WriterInv(cfg, serverLabels, pc', AfterLoad(pc, a, loaded), m') && Writing(pc) && Writing(pc')
  {
    match a {
      case LoadFile(file, partial) =>
        if Merges(cfg, file) {
          NothingLeft(m.metricMap.value, partial);
        } else {
          PlainBuild(cfg, serverLabels, pc.v, file, m);
        }
      case MergeMetric(key) =>
        OneMore(pc.base, pc.partial, pc.left, key);
      case MetricsMerged =>
        MetricsAreMerged(cfg, serverLabels, pc, loaded, m);
      case MergeQuery(key) =>
        OneMore(OverrideMap(pc.v, BaseOverrides(cfg)), UserOverrides(pc.file.content.doc), pc.left, key);
      case QueriesMerged =>
        NothingTaken(UserOverrides(pc.file.content.doc));
      case _ =>
    }
  }

  lemma MetricsAreMerged(cfg: Config, serverLabels: Labels, pc: PC, loaded: Option<Load>, m: Maps)
    requires WriterInv(cfg, serverLabels, pc, loaded, m) && pc.MergingMetrics? && pc.left == {}
    ensures WriterInv(cfg, serverLabels, MergingQueries(pc.v, pc.file, UserOverrides(pc.file.content.doc).Keys), loaded, m)
  {
    NothingTaken(pc.partial);
    CompileThenMerge(pc.v, serverLabels, BaseTables(cfg), UserTables(pc.file.content.doc), pc.base, pc.partial);
    NothingLeft(m.queryOverrides, UserOverrides(pc.file.content.doc));
  }

  lemma NothingLeft<V>(base: map<string, V>, m: map<string, V>)
    ensures base + (m - m.Keys) == base
  {
  }

  lemma NothingTaken<V>(m: map<string, V>)
    ensures m - {} == m
  {
  }

  /** Merging one more key of a partial map. */
  lemma OneMore<V>(base: map<string, V>, partial: map<string, V>, left: set<string>, key: string)
    requires key in left && left <= partial.Keys
    ensures (base + (partial - left))[key := partial[key]] == base + (partial - (left - {key}))
  {
  }

  /** Without a document to merge, the built-in maps are the whole build. */
  lemma PlainBuild(cfg: Config, serverLabels: Labels, v: Version, file: UserFile, m: Maps)
    requires !Merges(cfg, file) && m.metricMap.Some?
    requires m == Maps(v, Some(m.metricMap.value), OverrideMap(v, BaseOverrides(cfg)))
    requires IsDescMap(v, serverLabels, BaseTables(cfg), m.metricMap.value)
    ensures IsBuild(cfg, serverLabels, v, file, m)
  {
    EmptyDocument();
    assert BaseTables(cfg) + map[] == BaseTables(cfg);
    assert m.queryOverrides + map[] == m.queryOverrides;
  }

  /** Scanning one more namespace of unchanging maps. */
  lemma ScanKeepsAccount(cfg: Config, pc: PC, loaded: Option<Load>, m: Maps, free: int, a: Action, pc': PC)
    requires ReaderInv(cfg, pc, loaded, m) && LocalStep(pc, m, free, a, pc')
    ensures ReaderInv(cfg, pc', loaded, m)
  {
  }

  lemma OtherScrapesStay(cfg: Config, serverLabels: Labels, s: State, t: Tid, a: Action, s': State)
    requires Next(cfg, serverLabels, s, t, a, s')
    ensures forall r | r in s'.pcs && r != t :: r in s.pcs && s'.pcs[r] == s.pcs[r]
    ensures !Writing(s.pcs[t]) ==> s'.shared == s.shared && s'.loaded == s.loaded
  {
  }

  /** A scrape that reads after its step has either just taken the lock or read something more. */
  lemma OwnReading(cfg: Config, serverLabels: Labels, s: State, t: Tid, a: Action, s': State)
    requires Next(cfg, serverLabels, s, t, a, s') && !Writing(s.pcs[t])
    requires s.pcs[t].Reading? ==> ReaderInv(cfg, s.pcs[t], s.loaded, s.shared)
    requires s'.pcs[t].Reading?
    ensures ReaderInv(cfg, s'.pcs[t], s.loaded, s.shared)
  {
    if !a.ReadLock? {
      ScanKeepsAccount(cfg, s.pcs[t], s.loaded, s.shared, s.free, a, s'.pcs[t]);
    }
  }

  lemma ReaderStep(cfg: Config, serverLabels: Labels, s: State, t: Tid, a: Action, s': State)
    requires Inv(cfg, serverLabels, s) && Next(cfg, serverLabels, s, t, a, s') && !Writing(s.pcs[t])
    ensures s'.shared == s.shared && s'.loaded == s.loaded
    ensures LockInv(s') && DataInv(cfg, serverLabels, s')
  {
    LocksAreKept(cfg, serverLabels, s, t, a, s');
    OtherScrapesStay(cfg, serverLabels, s, t, a, s');
    forall r | r in s'.readers ensures ReaderInv(cfg, s'.pcs[r], s'.loaded, s'.shared) {
      if r != t {
        assert r in s.readers;
      } else {
        OwnReading(cfg, serverLabels, s, t, a, s');
      }
    }
  }

  lemma LogStep(cfg: Config, serverLabels: Labels, s: State, t: Tid, a: Action, s': State)
    requires Inv(cfg, serverLabels, s) && Next(cfg, serverLabels, s, t, a, s')
    ensures LogInv(cfg, serverLabels, s'.log)
    ensures s'.log == s.log ||
            (s.writer.None? && s'.log == s.log + [Completed(s.shared, s.loaded, FullView(s.shared))])
  {
    if a.ReadUnlock? {
      assert t in s.readers && ReaderInv(cfg, s.pcs[t], s.loaded, s.shared);
      assert s.pcs[t].seen == FullView(s.shared);
    }
  }

  lemma WriterStep(cfg: Config, serverLabels: Labels, s: State, t: Tid, a: Action, s': State)
    requires Inv(cfg, serverLabels, s) && Next(cfg, serverLabels, s, t, a, s') && Writing(s.pcs[t])
    ensures LockInv(s') && DataInv(cfg, serverLabels, s')
  {
    LocksAreKept(cfg, serverLabels, s, t, a, s');
    assert s.writer == Some(t);
    if !a.Unlock? {
      WriteStepKeepsAccount(cfg, serverLabels, s.pcs[t], s.loaded, s.shared, a, s'.pcs[t], s'.shared);
    }
  }

  lemma StepKeepsInv(cfg: Config, serverLabels: Labels, s: State, t: Tid, a: Action, s': State)
    requires Inv(cfg, serverLabels, s) && Next(cfg, serverLabels, s, t, a, s')
    ensures Inv(cfg, serverLabels, s')
    ensures s.readers != {} ==> s'.shared == s.shared && s'.loaded == s.loaded
  {
    LogStep(cfg, serverLabels, s, t, a, s');
    if Writing(s.pcs[t]) {
      WriterStep(cfg, serverLabels, s, t, a, s');
    } else {
      ReaderStep(cfg, serverLabels, s, t, a, s');
    }
  }
}
