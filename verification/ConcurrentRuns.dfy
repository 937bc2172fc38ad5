/** Whole interleavings of the scrapes of one server: what the shared maps can be, and where they come from. */
module ConcurrentRuns {
  import opened Wrappers
  import opened Sequences
  import opened Versions
  import opened MetricMaps
  import opened MapCache
  import opened ConcurrentScrapes

  /** A new server, and the scrapes that will share it. */
  ghost function Start(tids: set<Tid>): State {
    State(INITIAL, None, MAX_CONNS, None, {}, map t | t in tids :: Idle, [])
  }

  ghost function StepOf(cfg: Config, serverLabels: Labels): (State, (Tid, Action), State) -> bool {
    (s: State, step: (Tid, Action), s': State) => Next(cfg, serverLabels, s, step.0, step.1, s')
  }

  ghost predicate Interleaving(cfg: Config, serverLabels: Labels, tids: set<Tid>, steps: seq<(Tid, Action)>, states: seq<State>) {
    Chain(StepOf(cfg, serverLabels), steps, states) && states[0] == Start(tids)
  }

  lemma StepAt(cfg: Config, serverLabels: Labels, tids: set<Tid>, steps: seq<(Tid, Action)>, states: seq<State>, i: nat)
    requires Interleaving(cfg, serverLabels, tids, steps, states) && i < |steps|
    ensures Next(cfg, serverLabels, states[i], steps[i].0, steps[i].1, states[i + 1])
  {
    assert StepOf(cfg, serverLabels)(states[i], steps[i], states[i + 1]);
  }

  lemma {:induction false} InvHolds(cfg: Config, serverLabels: Labels, tids: set<Tid>, steps: seq<(Tid, Action)>, states: seq<State>, n: nat)
    requires Interleaving(cfg, serverLabels, tids, steps, states) && n <= |steps|
    ensures Inv(cfg, serverLabels, states[n]) && PoolInv(states[n]) && states[n].pcs.Keys == tids
  {
    if n == 0 {
      assert Holders(states[0].pcs) == {};
    } else {
      InvHolds(cfg, serverLabels, tids, steps, states, n - 1);
      StepAt(cfg, serverLabels, tids, steps, states, n - 1);
      StepKeepsInv(cfg, serverLabels, states[n - 1], steps[n - 1].0, steps[n - 1].1, states[n]);
      PoolStep(cfg, serverLabels, states[n - 1], steps[n - 1].0, steps[n - 1].1, states[n]);
    }
  }

  // ---- Where the maps come from ----

  /** Among the first `n` steps, step `read` is the last to read the user's file, and step `probed` is where that scrape
      read the version it rebuilt for. */
  ghost predicate IsLastLoad(steps: seq<(Tid, Action)>, n: nat, load: Load, probed: nat, read: nat) {
    && probed < read < n <= |steps|
    && steps[read].1.LoadFile? && steps[read].1.file == load.file
    && (forall j | read < j < n :: !steps[j].1.LoadFile?)
    && IsLastProbe(steps, read, steps[read].0, load.version, probed)
  }

  /** Among the first `n` steps, `probed` is the last probe of scrape `t`, and it read `v`. */
  ghost predicate IsLastProbe(steps: seq<(Tid, Action)>, n: nat, t: Tid, v: Version, probed: nat) {
    && probed < n <= |steps| && steps[probed] == (t, Probe(Some(v)))
    && forall j | probed < j < n && steps[j].0 == t :: !steps[j].1.Probe?
  }

  /** The version a scrape is checking or rebuilding the maps for. */
  function VersionOf(pc: PC): Option<Version> {
    if Holds(pc) then Some(pc.v) else None
  }

  lemma VersionIsCarried(cfg: Config, serverLabels: Labels, s: State, t: Tid, a: Action, s': State)
    requires Next(cfg, serverLabels, s, t, a, s') && VersionOf(s'.pcs[t]).Some?
    ensures a == Probe(VersionOf(s'.pcs[t])) || (!a.Probe? && VersionOf(s.pcs[t]) == VersionOf(s'.pcs[t]))
  {
  }

  ghost predicate Carries(s: State, t: Tid, v: Version) {
    t in s.pcs && VersionOf(s.pcs[t]) == Some(v)
  }

  lemma CarriedStep(cfg: Config, serverLabels: Labels, tids: set<Tid>, steps: seq<(Tid, Action)>, states: seq<State>,
                    n: nat, t: Tid, v: Version)
    requires Interleaving(cfg, serverLabels, tids, steps, states) && n < |steps| && Carries(states[n + 1], t, v)
    ensures if steps[n].0 == t && steps[n].1.Probe? then steps[n].1 == Probe(Some(v)) else Carries(states[n], t, v)
  {
    StepAt(cfg, serverLabels, tids, steps, states, n);
    OtherScrapesStay(cfg, serverLabels, states[n], steps[n].0, steps[n].1, states[n + 1]);
    if steps[n].0 == t {
      VersionIsCarried(cfg, serverLabels, states[n], t, steps[n].1, states[n + 1]);
    }
  }

  /** A version carried at step `n` and not at the start comes from a probe. */
  lemma {:induction false} LastProbe(steps: seq<(Tid, Action)>, carried: seq<bool>, n: nat, t: Tid, v: Version)
    returns (probed: nat)
    requires n <= |steps| && |carried| == |steps| + 1 && !carried[0] && carried[n]
    requires forall i | 0 <= i < |steps| && carried[i + 1] ::
               if steps[i].0 == t && steps[i].1.Probe? then steps[i].1 == Probe(Some(v)) else carried[i]
    ensures IsLastProbe(steps, n, t, v, probed)
  {
    probed := n - 1;
    if !(steps[n - 1].0 == t && steps[n - 1].1.Probe?) {
      probed := LastProbe(steps, carried, n - 1, t, v);
    }
  }

  lemma VersionWasRead(cfg: Config, serverLabels: Labels, tids: set<Tid>, steps: seq<(Tid, Action)>,
                       states: seq<State>, n: nat, t: Tid, v: Version)
    returns (probed: nat)
    requires Interleaving(cfg, serverLabels, tids, steps, states) && n <= |steps| && Carries(states[n], t, v)
    ensures IsLastProbe(steps, n, t, v, probed)
  {
    var carried := seq(|states|, i requires 0 <= i < |states| => Carries(states[i], t, v));
    assert !Carries(Start(tids), t, v);
    forall i | 0 <= i < |steps| && carried[i + 1]
      ensures if steps[i].0 == t && steps[i].1.Probe? then steps[i].1 == Probe(Some(v)) else carried[i]
    {
      CarriedStep(cfg, serverLabels, tids, steps, states, i, t, v);
    }
    probed := LastProbe(steps, carried, n, t, v);
  }

  lemma LoadingScrape(cfg: Config, serverLabels: Labels, s: State, t: Tid, a: Action, s': State)
    requires Next(cfg, serverLabels, s, t, a, s')
    ensures a.LoadFile? ==> VersionOf(s.pcs[t]).Some? && s'.loaded == Some(Load(VersionOf(s.pcs[t]).value, a.file))
    ensures !a.LoadFile? ==> s'.loaded == s.loaded
  {
  }

  /** Which steps read the user's file. */
  function LoadMarks(steps: seq<(Tid, Action)>): (marks: seq<bool>)
    ensures |marks| == |steps| && forall i | 0 <= i < |marks| :: marks[i] == steps[i].1.LoadFile?
  {
    seq(|steps|, i requires 0 <= i < |steps| => steps[i].1.LoadFile?)
  }

  lemma LoadedIsLastWrite(cfg: Config, serverLabels: Labels, tids: set<Tid>, steps: seq<(Tid, Action)>, states: seq<State>, n: nat)
    requires Interleaving(cfg, serverLabels, tids, steps, states) && n <= |steps|
    ensures match LastMark(LoadMarks(steps), n)
            case None => states[n].loaded.None?
            case Some(i) => states[n].loaded == states[i + 1].loaded
  {
    var values := seq(|states|, i requires 0 <= i < |states| => states[i].loaded);
    var written := seq(|steps|, i requires 0 <= i < |steps| => states[i + 1].loaded);
    var marks := LoadMarks(steps);
    forall i | 0 <= i < |marks| ensures values[i + 1] == if marks[i] then written[i] else values[i] {
      StepAt(cfg, serverLabels, tids, steps, states, i);
      LoadingScrape(cfg, serverLabels, states[i], steps[i].0, steps[i].1, states[i + 1]);
    }
    LastWrite(marks, written, values, n);
  }

  lemma LoadWasRead(cfg: Config, serverLabels: Labels, tids: set<Tid>, steps: seq<(Tid, Action)>, states: seq<State>, n: nat)
    returns (probed: nat, read: nat)
    requires Interleaving(cfg, serverLabels, tids, steps, states) && n <= |steps|
    ensures states[n].loaded.None? ==> forall j | 0 <= j < n :: !steps[j].1.LoadFile?
    ensures states[n].loaded.Some? ==> IsLastLoad(steps, n, states[n].loaded.value, probed, read)
  {
    probed, read := 0, 0;
    var last := LastMark(LoadMarks(steps), n);
    LoadedIsLastWrite(cfg, serverLabels, tids, steps, states, n);
    if last.Some? {
      read := last.value;
      StepAt(cfg, serverLabels, tids, steps, states, read);
      LoadingScrape(cfg, serverLabels, states[read], steps[read].0, steps[read].1, states[read + 1]);
      probed := VersionWasRead(cfg, serverLabels, tids, steps, states, read, steps[read].0, states[n].loaded.value.version);
    }
  }

  /** What the maps may be after `n` steps: the initial ones when no rebuild has come to the user's file, or else the
      whole build of the last rebuild that has, for the version that scrape read and the file it found. */
  ghost predicate SafeMaps(cfg: Config, serverLabels: Labels, steps: seq<(Tid, Action)>, n: nat, m: Maps)
    requires n <= |steps|
  {
    || (m == INITIAL && forall j | 0 <= j < n :: !steps[j].1.LoadFile?)
    || exists load, probed, read :: IsLastLoad(steps, n, load, probed, read) && IsBuild(cfg, serverLabels, load.version, load.file, m)
  }

  lemma SettledIsSafe(cfg: Config, serverLabels: Labels, tids: set<Tid>, steps: seq<(Tid, Action)>, states: seq<State>, n: nat)
    requires Interleaving(cfg, serverLabels, tids, steps, states) && n <= |steps|
    requires Settled(cfg, serverLabels, states[n].loaded, states[n].shared)
    ensures SafeMaps(cfg, serverLabels, steps, n, states[n].shared)
  {
    var probed, read := LoadWasRead(cfg, serverLabels, tids, steps, states, n);
    if states[n].loaded.Some? {
      assert IsLastLoad(steps, n, states[n].loaded.value, probed, read);
    }
  }

  /** In every interleaving of any number of scrapes, whatever the unlocked stale checks say: when no writer holds the
      lock, and so whenever a scrape is reading, the shared maps are safe; a scrape reads the shared maps and no others. */
  lemma EveryInterleavingIsSafe(cfg: Config, serverLabels: Labels, tids: set<Tid>, steps: seq<(Tid, Action)>,
                                states: seq<State>, n: nat)
    requires Interleaving(cfg, serverLabels, tids, steps, states) && n <= |steps|
    ensures states[n].writer.None? ==> SafeMaps(cfg, serverLabels, steps, n, states[n].shared)
    ensures forall t | t in states[n].pcs && states[n].pcs[t].Reading? ::
              states[n].writer.None? && states[n].pcs[t].snapshot == states[n].shared
  {
    InvHolds(cfg, serverLabels, tids, steps, states, n);
    if states[n].writer.None? {
      SettledIsSafe(cfg, serverLabels, tids, steps, states, n);
    }
  }

  lemma LogGrows(cfg: Config, serverLabels: Labels, tids: set<Tid>, steps: seq<(Tid, Action)>, states: seq<State>, n: nat)
    requires Interleaving(cfg, serverLabels, tids, steps, states) && n < |steps|
    ensures var s, s' := states[n], states[n + 1];
            s'.log == s.log || (s.writer.None? && s'.log == s.log + [Completed(s.shared, s.loaded, FullView(s.shared))])
  {
    InvHolds(cfg, serverLabels, tids, steps, states, n);
    StepAt(cfg, serverLabels, tids, steps, states, n);
    LogStep(cfg, serverLabels, states[n], steps[n].0, steps[n].1, states[n + 1]);
  }

  lemma {:induction false} LoggedAt(cfg: Config, serverLabels: Labels, tids: set<Tid>, steps: seq<(Tid, Action)>,
                                    states: seq<State>, n: nat, k: nat)
    returns (m: nat)
    requires Interleaving(cfg, serverLabels, tids, steps, states) && n <= |steps| && k < |states[n].log|
    ensures m < n && states[m].writer.None?
    ensures states[n].log[k] == Completed(states[m].shared, states[m].loaded, FullView(states[m].shared))
  {
    assert n > 0;
    LogGrows(cfg, serverLabels, tids, steps, states, n - 1);
    if k < |states[n - 1].log| {
      m := LoggedAt(cfg, serverLabels, tids, steps, states, n - 1, k);
    } else {
      m := n - 1;
    }
  }

  /** Every finished scrape has read, whole, the safe maps of one moment without a writer. */
  lemma FinishedScrapeSawOneState(cfg: Config, serverLabels: Labels, tids: set<Tid>, steps: seq<(Tid, Action)>,
                                  states: seq<State>, n: nat, k: nat)
    returns (m: nat)
    requires Interleaving(cfg, serverLabels, tids, steps, states) && n <= |steps| && k < |states[n].log|
    ensures m < n && SafeMaps(cfg, serverLabels, steps, m, states[m].shared)
    ensures states[n].log[k].snapshot == states[m].shared && states[n].log[k].seen == FullView(states[m].shared)
  {
    m := LoggedAt(cfg, serverLabels, tids, steps, states, n, k);
    EveryInterleavingIsSafe(cfg, serverLabels, tids, steps, states, m);
  }

  /** A document merged in part is not safe: with a namespace or a query still to come that the maps do not have, they
      are not the build the last rebuild is making. */
  lemma TornMapsAreNotSettled(cfg: Config, serverLabels: Labels, pc: PC, loaded: Option<Load>, m: Maps, key: string)
    requires WriterInv(cfg, serverLabels, pc, loaded, m)
    requires (pc.MergingMetrics? && key in pc.left && key !in pc.base) ||
             (pc.MergingQueries? && key in pc.left && key !in BaseOverrides(cfg))
    ensures !Settled(cfg, serverLabels, loaded, m)
  {
    if pc.MergingMetrics? {
      assert key in pc.partial && key !in m.metricMap.value;
    } else {
      assert key !in m.queryOverrides;
    }
  }

  /** From taking the read lock to releasing it, a scrape sees one unchanging triple. */
  lemma {:induction false} ReadersSeeOneTriple(cfg: Config, serverLabels: Labels, tids: set<Tid>, steps: seq<(Tid, Action)>,
                                               states: seq<State>, t: Tid, i: nat, j: nat)
    requires Interleaving(cfg, serverLabels, tids, steps, states) && i <= j <= |steps|
    requires forall k | i <= k <= j :: t in states[k].pcs && states[k].pcs[t].Reading?
    ensures states[j].shared == states[i].shared
  {
    if i < j {
      ReadersSeeOneTriple(cfg, serverLabels, tids, steps, states, t, i, j - 1);
      InvHolds(cfg, serverLabels, tids, steps, states, j - 1);
      assert t in states[j - 1].readers;
      StepAt(cfg, serverLabels, tids, steps, states, j - 1);
      StepKeepsInv(cfg, serverLabels, states[j - 1], steps[j - 1].0, steps[j - 1].1, states[j]);
    }
  }
}
