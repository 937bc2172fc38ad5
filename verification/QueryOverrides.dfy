/** makeQueryOverrideMap (internal/pgxexporter/queries.go): one query per namespace, chosen by version. */
module QueryOverrides {
  import opened Wrappers
  import opened Sequences
  import opened Versions

  /** A version's query. Of its text only the columns it adds to the view's own are kept:
      the current log position and the replication lag. */
  datatype OverrideQuery = OverrideQuery(versionRange: Range, query: string, position: Option<string>, lag: Option<string>)

  type OverrideTable = map<string, seq<OverrideQuery>>

  /** The first entry whose range holds the version. */
  ghost function FirstMatch(v: Version, entries: seq<OverrideQuery>): (r: Option<OverrideQuery>)
    ensures r.Some? ==> r.value in entries && r.value.versionRange(v)
    ensures r.None? <==> forall e | e in entries :: !e.versionRange(v)
  {
    if entries == [] then None
    else if entries[0].versionRange(v) then Some(entries[0])
    else FirstMatch(v, entries[1..])
  }

  ghost function QueryFor(v: Version, entries: seq<OverrideQuery>): string {
    match FirstMatch(v, entries)
    case None => ""
    case Some(e) => e.query
  }

  /** Entry `i` is the first whose range holds the version. */
  ghost predicate IsFirst(v: Version, entries: seq<OverrideQuery>, i: int) {
    0 <= i < |entries| && entries[i].versionRange(v) && forall j | 0 <= j < i :: !entries[j].versionRange(v)
  }

  /** `query` is the query of the first entry to match, or empty when none does. */
  ghost predicate Selects(v: Version, entries: seq<OverrideQuery>, query: string) {
    || (query == "" && forall i | 0 <= i < |entries| :: !entries[i].versionRange(v))
    || exists i :: IsFirst(v, entries, i) && query == entries[i].query
  }

  lemma {:induction false} QueryIsSelected(v: Version, entries: seq<OverrideQuery>)
    ensures Selects(v, entries, QueryFor(v, entries))
  {
    if entries == [] {
    } else if entries[0].versionRange(v) {
      assert IsFirst(v, entries, 0);
    } else {
      var rest := entries[1..];
      QueryIsSelected(v, rest);
      if i :| IsFirst(v, rest, i) && QueryFor(v, rest) == rest[i].query {
        assert IsFirst(v, entries, i + 1);
      } else {
        assert forall i | 0 < i < |entries| :: entries[i] == rest[i - 1];
      }
    }
  }

  /** Every namespace of the table keeps the query of its first match, or is disabled by an empty one. */
  ghost function OverrideMap(v: Version, table: OverrideTable): map<string, string> {
    map ns | ns in table :: QueryFor(v, table[ns])
  }

  method MakeQueryOverrideMap(pgVersion: Version, queryOverrides: OverrideTable) returns (resultMap: map<string, string>)
    ensures resultMap == OverrideMap(pgVersion, queryOverrides)
    ensures resultMap.Keys == queryOverrides.Keys
    ensures forall ns | ns in resultMap :: Selects(pgVersion, queryOverrides[ns], resultMap[ns])
  {
    resultMap := map[];
    var names := RangeOver(queryOverrides.Keys);
    for i := 0 to |names|
      invariant forall ns :: ns in resultMap <==> ns in names[..i]
      invariant forall ns | ns in resultMap :: ns in queryOverrides && resultMap[ns] == QueryFor(pgVersion, queryOverrides[ns])
    {
      var name := names[i];
      assert name in names && names[..i + 1] == names[..i] + [name];
      var query := MatchingQuery(pgVersion, queryOverrides[name]);
      resultMap := resultMap[name := query];
    }
    assert names[..|names|] == names;
    forall ns | ns in resultMap ensures Selects(pgVersion, queryOverrides[ns], resultMap[ns]) {
      QueryIsSelected(pgVersion, queryOverrides[ns]);
    }
  }

  /** The inner loop, which leaves at the first match. */
  method MatchingQuery(pgVersion: Version, overrideDef: seq<OverrideQuery>) returns (query: string)
    ensures query == QueryFor(pgVersion, overrideDef)
    ensures || (query == "" && forall i | 0 <= i < |overrideDef| :: !overrideDef[i].versionRange(pgVersion))
            || exists i :: 0 <= i < |overrideDef| && overrideDef[i].versionRange(pgVersion) && query == overrideDef[i].query &&
                           forall j | 0 <= j < i :: !overrideDef[j].versionRange(pgVersion)
  {
    var matched := false;
    query := "";
    for i := 0 to |overrideDef|
      invariant !matched
      invariant forall j | 0 <= j < i :: !overrideDef[j].versionRange(pgVersion)
      invariant FirstMatch(pgVersion, overrideDef) == FirstMatch(pgVersion, overrideDef[i..])
    {
      if overrideDef[i].versionRange(pgVersion) {
        query := overrideDef[i].query;
        matched := true;
        break;
      }
      assert overrideDef[i..][1..] == overrideDef[i + 1..];
    }
    if !matched {
      query := "";
    }
  }

  /** When no two different entries match, the order of the entries does not matter. */
  lemma SelectionIgnoresOrder(v: Version, a: seq<OverrideQuery>, b: seq<OverrideQuery>)
    requires forall e :: e in a <==> e in b
    requires forall d, e | d in a && e in a && d.versionRange(v) && e.versionRange(v) :: d == e
    ensures FirstMatch(v, a) == FirstMatch(v, b)
  {
  }
}
