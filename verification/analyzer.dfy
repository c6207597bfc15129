/** `analyze_user_policies`: fetch the user's groups, scan every compartment
    of the tenancy plus the root, keep the relevant statements and group
    them for the report. */
module Analyzer {
  import opened Maybe
  import opened Text
  import opened Resolver
  import opened Filter
  import opened Grouping

  /** The identity service as the analyzer sees it; `None` is a call that
      raised. `groupsOf` stands for `get_user_groups` (the membership list
      followed by one `get_group` per membership), giving group names. */
  datatype Gateway = Gateway(
    env: Env,
    compartments: Option<seq<String>>,
    groupsOf: String -> Option<seq<String>>,
    policiesIn: String -> Option<seq<Policy>>)

  /** How an analysis ends: no groups (nothing else is fetched), or the
      compartments scanned, the flat records and the grouped report. */
  datatype Outcome =
    | NoGroups
    | Scanned(scanned: seq<String>, records: seq<Record>, report: seq<Entry>)

  /** The outcome and the resolver cache afterwards. */
  datatype Analysis = Analysis(outcome: Outcome, cache: Cache)

  /** `get_user_groups`: any failure yields no groups. */
  function UserGroups(gw: Gateway, userId: String): seq<String> {
    gw.groupsOf(userId).GetOr([])
  }

  /** The identifiers scanned: the listed compartments (none when listing
      failed) followed by the tenancy, which is always scanned last. */
  function ScanList(gw: Gateway): (ids: seq<String>)
    ensures |ids| >= 1 && ids[|ids| - 1] == gw.env.tenancy
    ensures gw.compartments.Some? ==> ids[..|ids| - 1] == gw.compartments.value
    ensures gw.compartments.None? ==> ids == [gw.env.tenancy]
  {
    gw.compartments.GetOr([]) + [gw.env.tenancy]
  }

  /** The loop over compartments: fetch each one's policies (a failed fetch
      gives none) and filter them, threading the resolver cache. */
  function Scan(cache: Cache, env: Env, policiesIn: String -> Option<seq<Policy>>,
                ids: seq<String>, groups: seq<String>): (r: Filtered)
    ensures Extends(cache, r.cache)
    ensures Faithful(env, cache) ==> Faithful(env, r.cache)
    decreases |ids|
  {
    if ids == [] then Filtered([], cache)
    else
      var f := FilterPolicies(cache, env, policiesIn(ids[0]).GetOr([]), groups);
      var rest := Scan(f.cache, env, policiesIn, ids[1..], groups);
      Filtered(f.records + rest.records, rest.cache)
  }

  /** The scan without a cache: each compartment's records in scan order. */
  function ScanRef(env: Env, policiesIn: String -> Option<seq<Policy>>, ids: seq<String>, groups: seq<String>): seq<Record>
    decreases |ids|
  {
    if ids == [] then []
    else RecordsRef(env, policiesIn(ids[0]).GetOr([]), groups) + ScanRef(env, policiesIn, ids[1..], groups)
  }

  /** The number of relevant statements over the compartments scanned. */
  function ScanCount(policiesIn: String -> Option<seq<Policy>>, ids: seq<String>, groups: seq<String>): nat
    decreases |ids|
  {
    if ids == [] then 0
    else CountRelevant(policiesIn(ids[0]).GetOr([]), groups) + ScanCount(policiesIn, ids[1..], groups)
  }

  /** The whole analysis of one user. */
  function Analyze(gw: Gateway, cache: Cache, userId: String): (r: Analysis)
    ensures r.outcome.NoGroups? <==> UserGroups(gw, userId) == []
    ensures r.outcome.NoGroups? ==> r.cache == cache
    ensures r.outcome.Scanned? ==> r.outcome.scanned == ScanList(gw)
    ensures r.outcome.Scanned? ==> Total(r.outcome.report) == |r.outcome.records|
    ensures Extends(cache, r.cache)
    ensures Faithful(gw.env, cache) ==> Faithful(gw.env, r.cache)
  {
    var groups := UserGroups(gw, userId);
    if groups == [] then Analysis(NoGroups, cache)
    else
      var ids := ScanList(gw);
      var res := Scan(cache, gw.env, gw.policiesIn, ids, groups);
      Analysis(Scanned(ids, res.records, Group(res.records)), res.cache)
  }

  /** With a faithful cache, the scan yields the cache-free records. */
  lemma {:induction false} ScanIsReference(cache: Cache, env: Env, policiesIn: String -> Option<seq<Policy>>,
                                           ids: seq<String>, groups: seq<String>)
    requires Faithful(env, cache)
    ensures Scan(cache, env, policiesIn, ids, groups).records == ScanRef(env, policiesIn, ids, groups)
    decreases |ids|
  {
    if ids != [] {
      var policies := policiesIn(ids[0]).GetOr([]);
      var f := FilterPolicies(cache, env, policies, groups);
      FilterIsReference(cache, env, policies, groups);
      ScanIsReference(f.cache, env, policiesIn, ids[1..], groups);
    }
  }

  /** One record per relevant statement over all compartments scanned. */
  lemma {:induction false} ScanCountsRelevant(cache: Cache, env: Env, policiesIn: String -> Option<seq<Policy>>,
                                              ids: seq<String>, groups: seq<String>)
    ensures |Scan(cache, env, policiesIn, ids, groups).records| == ScanCount(policiesIn, ids, groups)
    decreases |ids|
  {
    if ids != [] {
      var f := FilterPolicies(cache, env, policiesIn(ids[0]).GetOr([]), groups);
      ScanCountsRelevant(f.cache, env, policiesIn, ids[1..], groups);
    }
  }

  /** One step of the compartment loop. */
  lemma ScanStep(cache: Cache, env: Env, policiesIn: String -> Option<seq<Policy>>,
                 ids: seq<String>, groups: seq<String>)
    requires ids != []
    ensures var f := FilterPolicies(cache, env, policiesIn(ids[0]).GetOr([]), groups);
            var rest := Scan(f.cache, env, policiesIn, ids[1..], groups);
            Scan(cache, env, policiesIn, ids, groups) == Filtered(f.records + rest.records, rest.cache)
  {
  }

  /** A compartment whose policy fetch fails contributes no records, leaves
      the cache alone and does not stop the compartments after it. */
  lemma {:induction false} FailedFetchIsSkipped(cache: Cache, env: Env, policiesIn: String -> Option<seq<Policy>>,
                                                a: seq<String>, id: String, b: seq<String>, groups: seq<String>)
    requires policiesIn(id).None?
    ensures Scan(cache, env, policiesIn, a + [id] + b, groups) == Scan(cache, env, policiesIn, a + b, groups)
    decreases |a|
  {
    if a == [] {
      assert a + [id] + b == [id] + b && ([id] + b)[1..] == b && a + b == b;
      ScanStep(cache, env, policiesIn, [id] + b, groups);
      assert FilterPolicies(cache, env, [], groups) == Filtered([], cache);
    } else {
      var with := a + [id] + b;
      var without := a + b;
      assert with[0] == without[0] == a[0];
      assert with[1..] == a[1..] + [id] + b && without[1..] == a[1..] + b;
      var f := FilterPolicies(cache, env, policiesIn(a[0]).GetOr([]), groups);
      FailedFetchIsSkipped(f.cache, env, policiesIn, a[1..], id, b, groups);
      ScanStep(cache, env, policiesIn, with, groups);
      ScanStep(cache, env, policiesIn, without, groups);
    }
  }

  /** With a faithful cache (a fresh analyzer's empty one, say), the report
      is the cache-free scan grouped by first-seen key. */
  lemma AnalyzeIsReference(gw: Gateway, cache: Cache, userId: String)
    requires Faithful(gw.env, cache)
    requires UserGroups(gw, userId) != []
    ensures var r := Analyze(gw, cache, userId);
            && r.outcome.Scanned?
            && r.outcome.records == ScanRef(gw.env, gw.policiesIn, ScanList(gw), UserGroups(gw, userId))
            && r.outcome.report == GroupRef(r.outcome.records)
  {
    ScanIsReference(cache, gw.env, gw.policiesIn, ScanList(gw), UserGroups(gw, userId));
    GroupIsReference(Analyze(gw, cache, userId).outcome.records);
  }

  /** A compartment whose policies cannot be fetched is still listed as
      scanned, but the records and the report are those of a tenancy
      without it. */
  lemma FailedCompartmentDoesNotAbort(gw: Gateway, cache: Cache, userId: String,
                                      a: seq<String>, id: String, b: seq<String>)
    requires gw.compartments == Some(a + [id] + b)
    requires gw.policiesIn(id).None?
    requires UserGroups(gw, userId) != []
    ensures var r := Analyze(gw, cache, userId);
            var without := Analyze(gw.(compartments := Some(a + b)), cache, userId);
            && id in r.outcome.scanned
            && r.outcome.records == without.outcome.records
            && r.outcome.report == without.outcome.report
            && r.cache == without.cache
  {
    var groups := UserGroups(gw, userId);
    var gw' := gw.(compartments := Some(a + b));
    assert ScanList(gw) == a + [id] + (b + [gw.env.tenancy]);
    assert ScanList(gw') == a + (b + [gw.env.tenancy]);
    FailedFetchIsSkipped(cache, gw.env, gw.policiesIn, a, id, b + [gw.env.tenancy], groups);
    assert ScanList(gw)[|a|] == id;
  }
}
