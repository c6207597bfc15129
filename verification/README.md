# OCI user policy analyzer — the policy-relevance engine in Dafny

The OCI policy analyzer is a command-line tool. Given a user's OCID, it lists
every IAM policy statement in the tenancy that names one of the user's
groups. Before printing, it rewrites the compartment OCIDs inside those
statements into compartment names. This project models the deterministic core
of `oci-policy-analyzer.py` and proves properties of it:

- **Resolver** (`get_compartment_name`, module `Resolver`): a memoising
  lookup of compartment names. It checks the cache first, then maps the
  tenancy OCID to `root`, then asks the identity service. The cache is
  threaded as a `map`. The service is a pure function returning `Option`,
  where `None` is a call that raised.
- **Matcher** (the group test in `filter_policies_for_groups`, module
  `Matcher`): after lower-casing, it looks for `group g`, `group 'g'` or
  `group "g"` by plain substring containment. There is no word boundary.
- **Annotator** (`translate_compartment_ids_in_statement`, module
  `Annotator`): it runs the case-insensitive
  `compartment\s+(ocid1\.compartment\.[a-zA-Z0-9\._-]+)` rewrite of
  `re.sub`. The regex becomes a hand-written left-to-right scanner that
  threads the resolver cache.
- **Aggregator** (`filter_policies_for_groups` and `analyze_user_policies`,
  modules `Filter`, `Analyzer` and `Grouping`): it produces one record per
  relevant statement. The scan covers the listed compartments followed by
  the tenancy. A failed fetch counts as an empty list. The report is
  grouped by (policy name, compartment name) in first-seen key order.
- **Argument check** of `main` (module `Cli`).

Each memoised operation has a partner that uses no cache: `NameOf`,
`AnnotateRef`, `RecordsRef` and `ScanRef`. The grouping loop `Group`
involves no cache; its partner is `GroupRef`, an independent definition
built from the first-seen keys and each key's statements in order. The predicate
`Faithful` says that every cache entry is what a fresh lookup would give. A
fresh analyzer's empty cache is faithful, and every operation keeps the cache
faithful. The lemmas show that, under a faithful cache, memoisation never
changes a result.

The module `Scenarios` holds worked examples over a concrete tenancy: one
compartment "Finance" with one policy, and one compartment "Ops" whose
policies cannot be fetched.

## Model

| member | source | states |
|---|---|---|
| Resolver.Resolve | oci-policy-analyzer.py:31-47 | A cached id returns its cached name and leaves the cache alone. Otherwise the tenancy becomes "root", the service's answer is returned, or on failure the raw id is returned. Only "root" and successful answers are stored. The service is asked exactly when the id is neither cached nor the tenancy. Old entries are never overwritten, the cache gains at most this id, and a faithful cache stays faithful and yields the cache-free name. |
| Resolver.ResolveAgain | oci-policy-analyzer.py:33-34 | Once an id has been stored, asking again returns the same name, changes nothing and makes no service call. |
| Resolver.FailureIsRetried | oci-policy-analyzer.py:45-47 | A failed lookup returns the raw id and leaves the cache unchanged, so the next request for that id calls the service again. |
| Resolver.TenancyIsRoot | oci-policy-analyzer.py:37-38 | Under a faithful cache, the tenancy OCID resolves to "root" without a service call, and "root" is then cached for it. |
| Resolver.EmptyIsFaithful | oci-policy-analyzer.py:25 | The empty cache a new analyzer starts with is faithful. |
| Text.ContainsIff | oci-policy-analyzer.py:137 | The substring test `p in s` holds exactly when `p` occurs at some index of `s`. |
| Text.LowerIdempotent | oci-policy-analyzer.py:132-134 | Lower-casing twice is lower-casing once. |
| Matcher.Patterns | oci-policy-analyzer.py:131-135 | The three surface forms built from the lower-cased group name. It has no contract of its own: `Matcher.RelevantIff` spells the forms out. |
| Matcher.Mentions | oci-policy-analyzer.py:127-137 | The `any(...)` test for one group. It has no contract of its own: `Matcher.MentionsLowerStatement`, `Matcher.MentionsLowerGroup` and `Matcher.PrefixOfLongerNameMatches` state its behaviour. |
| Matcher.IsRelevant | oci-policy-analyzer.py:129-144 | Whether the loop over the group names records the statement. It has no contract of its own: `Matcher.RelevantIff` and `Matcher.RelevantIffMentions` characterise it. |
| Matcher.FirstMentioned | oci-policy-analyzer.py:129-144 | The loop with its `break` stops at the first group the statement mentions, and no earlier group is mentioned. It finds none exactly when no group is mentioned. |
| Matcher.RelevantIff | oci-policy-analyzer.py:127-137 | A statement is reported iff its lower-cased text contains `group g`, `group 'g'` or `group "g"` (with g lower-cased) at some index, for some group name g. No group names means nothing is reported. |
| Matcher.RelevantIffMentions | oci-policy-analyzer.py:129-137 | A statement is reported iff it mentions some listed group, whichever group the loop tries first. |
| Matcher.RelevanceUsesOnlyTheSet | oci-policy-analyzer.py:158 | Relevance depends only on the set of group names: their order and repetitions do not matter. |
| Matcher.MentionsLowerStatement | oci-policy-analyzer.py:127 | Mentioning a group is insensitive to the statement's letter case. |
| Matcher.MentionsLowerGroup | oci-policy-analyzer.py:132-134 | Mentioning a group is insensitive to the group name's letter case. |
| Matcher.RelevanceIgnoresCase | oci-policy-analyzer.py:127-135 | Lower-casing the statement, or every group name, changes no relevance verdict. |
| Matcher.PrefixOfLongerNameMatches | oci-policy-analyzer.py:131-137 | There is no word boundary: `group NAME` followed by any text is relevant for NAME. |
| Matcher.NoGroupWordNoMatch | oci-policy-analyzer.py:131-137 | A statement without `group ` (any case) is never relevant. |
| Matcher.AdminMatchesAdministrators | oci-policy-analyzer.py:130-137 | The group `Admin` makes a statement about `group Administrators` relevant. |
| Annotator.SpanOf | oci-policy-analyzer.py:108 | A greedy `+` run consumes the longest prefix whose characters all fit the class. |
| Annotator.MatchAt | oci-policy-analyzer.py:108 | A match found at the start of a text really is one: the keyword in any case, at least one whitespace, the id prefix in any case, and at least one id character. The id run cannot be extended. |
| Annotator.MatchAtComplete | oci-policy-analyzer.py:108 | Whenever the pattern can match at the start of a text, a match is found, with the same whitespace run and an id at least as long as any other. |
| Annotator.Annotate | oci-policy-analyzer.py:105-115 | The rewrite only adds cache entries, and it keeps a faithful cache faithful. |
| Annotator.AnnotateIsReference | oci-policy-analyzer.py:110-115 | Under a faithful cache, the memoised rewrite yields the same text as resolving every captured id afresh. |
| Annotator.NoMatchUnchanged | oci-policy-analyzer.py:115 | A statement in which the pattern matches nowhere comes back unchanged, and so does the cache. |
| Annotator.CopyUntilMatch | oci-policy-analyzer.py:115 | Text before the first position where a match starts is copied character for character. |
| Annotator.LeftmostMatchRewritten | oci-policy-analyzer.py:110-115 | The leftmost match is replaced by `compartment ` plus the resolved name of its id. The text before it is kept, and scanning resumes after the match, so matches never overlap. |
| Annotator.NoMatchInPrefix | oci-policy-analyzer.py:108 | No match starts inside text that does not contain the keyword when the keyword follows it. |
| Annotator.SingleIdentifierRewritten | oci-policy-analyzer.py:105-115 | One compartment OCID, after the keyword in any case and any whitespace run, becomes `compartment ` plus its resolved name, provided no match starts before the keyword. The text before may itself contain the word (`manage compartments in compartment ...`). Everything around the match is untouched, and the cache is the resolver's. |
| Filter.RelevantOnly | oci-policy-analyzer.py:125-144 | Exactly the relevant statements of a policy are kept. |
| Filter.FilterStatements | oci-policy-analyzer.py:125-144 | One record per relevant statement, each carrying the policy's name and compartment name. The cache only grows and stays faithful. |
| Filter.OneRecordPerStatement | oci-policy-analyzer.py:137-144 | A relevant statement yields exactly one record holding its annotation, even when it names several groups. |
| Filter.FilterPolicies | oci-policy-analyzer.py:117-146 | The number of records equals the number of relevant statements over all policies. The cache only grows and stays faithful. |
| Filter.RecordsFor | oci-policy-analyzer.py:138-143 | The reference records: each statement with the fresh annotation, in statement order. |
| Filter.FilterStatementsIsReference | oci-policy-analyzer.py:125-144 | Under a faithful cache, a policy's records are its relevant statements in order, each annotated. |
| Filter.FilterIsReference | oci-policy-analyzer.py:117-146 | Under a faithful cache, the records follow policy order, then statement order. Each carries the policy's resolved compartment name. |
| Grouping.FirstSeenSpec | oci-policy-analyzer.py:183-187 | The report's keys are distinct, and they are exactly the keys of the records. |
| Grouping.InsertNew | oci-policy-analyzer.py:185 | A record with a new key opens a new entry at the end of the report. |
| Grouping.InsertExisting | oci-policy-analyzer.py:185 | A record with a known key appends its statement to that key's entry and leaves every other entry alone. |
| Grouping.GroupIsReference | oci-policy-analyzer.py:183-187 | The grouping loop yields one entry per key in first-seen order. Each entry holds the in-order subsequence of statements with that key. |
| Grouping.InsertTotal | oci-policy-analyzer.py:185 | Each step of the loop adds exactly one statement to the report. |
| Grouping.Group | oci-policy-analyzer.py:183-185 | The `defaultdict` loop. Its report's lists together hold as many statements as there are records, so nothing is dropped or de-duplicated, and no key appears twice. Key order and list contents are stated by `Grouping.GroupIsReference`. |
| Grouping.Insert | oci-policy-analyzer.py:185 | One `append` to the key's list. It has no contract of its own: `Grouping.InsertNew`, `Grouping.InsertExisting` and `Grouping.InsertTotal` state what it does. |
| Grouping.InsertKeepsKeysDistinct | oci-policy-analyzer.py:185 | One insertion never makes a key appear twice in the report. |
| Grouping.SameKeyStaysTogether | oci-policy-analyzer.py:183-185 | Two records of the same policy and compartment share one entry, in order, even when their texts are equal. |
| Grouping.SelectAbsent | oci-policy-analyzer.py:183-185 | A key no record carries collects no statements. |
| Analyzer.UserGroups | oci-policy-analyzer.py:69-94 | `get_user_groups` as the names of the user's groups: a failed fetch gives none. It has no contract of its own: `Analyzer.Analyze`, `Scenarios.NoGroupsReport` and `Scenarios.FailedGroupsReport` state its effect. |
| Analyzer.ScanList | oci-policy-analyzer.py:161-162 | The listed compartments are scanned in order, then the tenancy last. When listing fails, only the tenancy is scanned. |
| Analyzer.Scan | oci-policy-analyzer.py:169-172 | The compartment loop only adds cache entries, and it keeps a faithful cache faithful. |
| Analyzer.ScanIsReference | oci-policy-analyzer.py:169-172 | Under a faithful cache, the scan's records are each compartment's cache-free records, concatenated in scan order. |
| Analyzer.ScanCountsRelevant | oci-policy-analyzer.py:169-172 | The scan yields one record per relevant statement over all compartments scanned. |
| Analyzer.ScanStep | oci-policy-analyzer.py:169-172 | One compartment's records come before those of the compartments after it. |
| Analyzer.FailedFetchIsSkipped | oci-policy-analyzer.py:96-103 | A compartment whose policies cannot be fetched adds no records and leaves the cache alone. The scan goes on exactly as if it were absent. |
| Analyzer.Analyze | oci-policy-analyzer.py:148-195 | No groups ends the analysis before anything else is fetched, and the cache is untouched. Otherwise the scan list is scanned, and the report's statement count equals the record count. The cache only grows and stays faithful. |
| Analyzer.AnalyzeIsReference | oci-policy-analyzer.py:148-187 | Under a faithful cache, the records are the cache-free scan. The report is those records grouped by first-seen key. |
| Analyzer.FailedCompartmentDoesNotAbort | oci-policy-analyzer.py:160-172 | A compartment whose fetch fails is still scanned. The records, the report and the cache equal those of a tenancy without it. |
| Cli.ParseArgs | oci-policy-analyzer.py:199-209 | The command starts iff it gets exactly one argument and that argument starts with `ocid1.user.`. A wrong count gives the usage error, and a bad prefix gives the user-id error. |
| Scenarios.StatementAnnotated | oci-policy-analyzer.py:110-115 | `allow group Admins to manage all-resources in compartment ocid1.compartment.aaa` becomes `... in compartment Finance`. |
| Scenarios.StatementIsRelevant | oci-policy-analyzer.py:127-137 | That statement is relevant to the group `Admins`. |
| Scenarios.FinanceFiltered | oci-policy-analyzer.py:117-146 | The one Finance policy gives one annotated record, and the cache remembers Finance. |
| Scenarios.FinanceScanned | oci-policy-analyzer.py:169-172 | Scanning Finance, then the tenancy (which has no policies), gives that one record. |
| Scenarios.FinanceReport | oci-policy-analyzer.py:148-187 | The full analysis of the example user: scanned Finance then the tenancy, one record, and one report entry (FinPolicy, Finance). |
| Scenarios.OpsIsSkipped | oci-policy-analyzer.py:101-103 | Listing Ops, whose fetch fails, changes neither the records, nor the report, nor the cache. |
| Scenarios.OpsIsListed | oci-policy-analyzer.py:161-162 | Ops is still among the compartments scanned. |
| Scenarios.OpsFailureDoesNotAbort | oci-policy-analyzer.py:169-172 | The full analysis with Ops listed first: Ops is scanned, and the report is that of Finance alone. |
| Scenarios.NoGroupsReport | oci-policy-analyzer.py:153-156 | A user whose membership list is empty: nothing is scanned, nothing is reported, and the cache is untouched. |
| Scenarios.FailedGroupsReport | oci-policy-analyzer.py:90-92 | A user whose memberships cannot be fetched ends the same way as a user without groups. |

### Resolver order and pattern case

- The resolver checks the cache before the tenancy test
  (`oci-policy-analyzer.py:33-38`).
- It caches only the tenancy's "root" and successful answers. It never caches
  a failure's fallback, so a failed id is looked up again on every request
  (`Resolver.FailureIsRetried`).
- Only "root" is ever stored for the tenancy. So under a faithful cache, the
  cache-first order gives the same answer as a tenancy-first order
  (`Resolver.TenancyIsRoot`).
- `re.IGNORECASE` applies to the whole pattern
  (`oci-policy-analyzer.py:115`), so `ocid1.compartment.` is matched in any
  letter case too, as well as the keyword.

## Left out

- The OCI SDK, the config file and client construction (`__init__`, lines 14-29) are not modelled. The identity service's calls are pure `Option`-returning functions in `Env` and `Gateway`, so the model assumes the service answers the same way every time it is asked.
- Analyzer.UserGroups: the membership listing and the per-group `get_group` calls (lines 69-94) are one function from a user to `Option` of group names. Any failure yields no groups, and partial results are discarded, as the code does.
- All `print` output, the warning and error messages, and the report formatting (lines 150, 179-195 beyond the grouping) are left out. The model returns the records and the grouped report instead.
- The separate "no relevant statements" message (lines 175-177) is not a separate outcome: it is the `Scanned` outcome with no records.
- `sys.exit`, the `KeyboardInterrupt` handler and the `__main__` plumbing (lines 202, 209-221) are left out. `Cli.ParseArgs` returns the error instead of exiting.
- Text.Lower: lower-cases ASCII letters only. Python's `str.lower()` also lower-cases other Unicode letters, so statements or group names with non-ASCII capitals are outside the model.
- Annotator.MatchAt: `\s` is ASCII whitespace only (code points 9-13 and 28-32). Under `re.IGNORECASE`, ASCII letters are matched against their ASCII case partners only. Python's Unicode `\s` and its case-insensitive matches of non-ASCII letters (such as U+212A KELVIN SIGN against `k`) are outside the model.
- The iteration order of the `group_names` set is not modelled. The names are a sequence, and `Matcher.RelevanceUsesOnlyTheSet` shows that the order does not change the result.
- `defaultdict` iteration order is taken to be insertion order, as Python guarantees since 3.7.
- Filter.RelevantOnly: its contract states which statements are kept. That the order is kept follows from its definition and is used through `Filter.FilterStatementsIsReference`.
