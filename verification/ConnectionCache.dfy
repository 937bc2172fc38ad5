/** The connections kept between scrapes (internal/pgxexporter/servers.go), as a state that GetServer steps. */
module ConnectionCache {
  import opened Wrappers

  /** `pools` tells which DSN each pool was opened for, ever; `evicted` holds the pools no longer in `entries`. */
  datatype Cache<S> = Cache(entries: map<string, S>, pools: map<S, string>, evicted: set<S>)

  /** A call of GetServer: what opening a connection would give, whether the ping answers, and the result. */
  datatype Call<S> = Call(dsn: string, opening: Option<S>, alive: bool, result: Option<S>)

  ghost predicate Step<S>(c: Cache<S>, call: Call<S>, c': Cache<S>) {
    var d := call.dsn;
    if d in c.entries then
      if call.alive then c' == c && call.result == Some(c.entries[d])
      else c' == c.(entries := c.entries - {d}, evicted := c.evicted + {c.entries[d]}) && call.result == None
    else
      match call.opening
      case None => c' == c && call.result == None
      case Some(s) =>
        && s !in c.pools
        && if call.alive then c' == c.(entries := c.entries[d := s], pools := c.pools[s := d]) && call.result == Some(s)
           else c' == c.(pools := c.pools[s := d], evicted := c.evicted + {s}) && call.result == None
  }

  /** Each entry was opened for its own DSN, and a pool is an entry or evicted, never both. */
  ghost predicate Consistent<S>(c: Cache<S>) {
    && (forall d | d in c.entries :: c.entries[d] in c.pools && c.pools[c.entries[d]] == d && c.entries[d] !in c.evicted)
    && (forall s | s in c.evicted :: s in c.pools)
    && (forall s | s in c.pools && s !in c.evicted :: c.pools[s] in c.entries && c.entries[c.pools[s]] == s)
  }

  /** What one call does: success returns the pool the DSN is mapped to, failure leaves the DSN without one,
      and no other DSN notices. */
  lemma StepIsSafe<S>(c: Cache<S>, call: Call<S>, c': Cache<S>)
    requires Consistent(c) && Step(c, call, c')
    ensures Consistent(c')
    ensures call.result.Some? ==> call.alive && call.dsn in c'.entries && c'.entries[call.dsn] == call.result.value
    ensures call.result.None? ==> call.dsn !in c'.entries
    ensures call.result.Some? <==> call.alive && (call.dsn in c.entries || call.opening.Some?)
    ensures forall d | d != call.dsn :: (d in c'.entries <==> d in c.entries) && (d in c.entries ==> c'.entries[d] == c.entries[d])
  {
  }

  lemma {:induction false} EntriesAreDistinct<S>(entries: map<string, S>, pools: map<S, string>)
    requires forall d | d in entries :: entries[d] in pools && pools[entries[d]] == d
    ensures |entries.Values| == |entries|
    decreases |entries|
  {
    if entries != map[] {
      var d :| d in entries;
      var rest := entries - {d};
      EntriesAreDistinct(rest, pools);
      forall v | v in entries.Values ensures v in rest.Values + {entries[d]} {
        var k :| k in entries && entries[k] == v;
        assert k != d ==> k in rest && rest[k] == v;
      }
      assert forall k | k in rest :: rest[k] == entries[k] && entries[k] in entries.Values;
      assert entries.Values == rest.Values + {entries[d]};
      assert entries.Keys == rest.Keys + {d};
    }
  }

  /** Pools opened are pools kept plus pools evicted. An evicted pool is one nothing closes. */
  lemma PoolsAreConserved<S>(c: Cache<S>)
    requires Consistent(c)
    ensures c.pools.Keys == c.entries.Values + c.evicted && c.entries.Values !! c.evicted
    ensures |c.pools| == |c.entries| + |c.evicted|
  {
    EntriesAreDistinct(c.entries, c.pools);
    forall s | s in c.pools && s !in c.evicted ensures s in c.entries.Values {
      assert c.pools[s] in c.entries;
    }
    assert c.pools.Keys == c.entries.Values + c.evicted;
    assert |c.pools.Keys| == |c.entries.Values| + |c.evicted|;
  }

  // ---- Any number of calls ----

  ghost predicate Run<S>(calls: seq<Call<S>>, states: seq<Cache<S>>) {
    && |states| == |calls| + 1 && states[0] == Cache(map[], map[], {})
    && forall i | 0 <= i < |calls| :: Step(states[i], calls[i], states[i + 1])
  }

  lemma {:induction false} RunsStayConsistent<S>(calls: seq<Call<S>>, states: seq<Cache<S>>, n: nat)
    requires Run(calls, states) && n <= |calls|
    ensures Consistent(states[n])
  {
    if n > 0 {
      RunsStayConsistent(calls, states, n - 1);
      StepIsSafe(states[n - 1], calls[n - 1], states[n]);
    }
  }

  /** The same server is returned until a ping fails. */
  lemma {:induction false} SameServerUntilPingFails<S>(calls: seq<Call<S>>, states: seq<Cache<S>>, i: nat, j: nat)
    requires Run(calls, states) && i < j < |calls|
    requires calls[i].dsn == calls[j].dsn && calls[i].result.Some?
    requires forall k | i < k <= j && calls[k].dsn == calls[i].dsn :: calls[k].alive
    ensures calls[j].result == calls[i].result
  {
    KeptEntry(calls, states, i, j);
    assert Step(states[j], calls[j], states[j + 1]);
  }

  lemma {:induction false} KeptEntry<S>(calls: seq<Call<S>>, states: seq<Cache<S>>, i: nat, n: nat)
    requires Run(calls, states) && i < n <= |calls| && calls[i].result.Some?
    requires forall k | i < k < n && calls[k].dsn == calls[i].dsn :: calls[k].alive
    ensures calls[i].dsn in states[n].entries && states[n].entries[calls[i].dsn] == calls[i].result.value
  {
    RunsStayConsistent(calls, states, n - 1);
    StepIsSafe(states[n - 1], calls[n - 1], states[n]);
    if i < n - 1 {
      KeptEntry(calls, states, i, n - 1);
      assert Step(states[n - 1], calls[n - 1], states[n]);
    }
  }

  /** After a failed call, the next server returned for that DSN is none of those opened before. */
  lemma {:induction false} NewServerAfterFailure<S>(calls: seq<Call<S>>, states: seq<Cache<S>>, i: nat, j: nat)
    requires Run(calls, states) && i < j < |calls|
    requires calls[i].dsn == calls[j].dsn && calls[i].result.None? && calls[j].result.Some?
    ensures calls[j].result.value !in states[i + 1].pools
  {
    OnlyNewEntries(calls, states, i, j + 1);
    RunsStayConsistent(calls, states, j);
    StepIsSafe(states[j], calls[j], states[j + 1]);
  }

  lemma {:induction false} OnlyNewEntries<S>(calls: seq<Call<S>>, states: seq<Cache<S>>, i: nat, n: nat)
    requires Run(calls, states) && i < n <= |calls| && calls[i].result.None?
    ensures states[i + 1].pools.Keys <= states[n].pools.Keys
    ensures calls[i].dsn in states[n].entries ==> states[n].entries[calls[i].dsn] !in states[i + 1].pools
  {
    RunsStayConsistent(calls, states, n - 1);
    StepIsSafe(states[n - 1], calls[n - 1], states[n]);
    if i < n - 1 {
      OnlyNewEntries(calls, states, i, n - 1);
      assert Step(states[n - 1], calls[n - 1], states[n]);
    }
  }
}
