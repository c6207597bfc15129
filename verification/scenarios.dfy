/** Worked examples: a one-compartment tenancy where the user's group is
    named in a policy statement that points at the compartment by id. */
module Scenarios {
  import opened Maybe
  import opened Text
  import opened Resolver
  import opened Matcher
  import opened Annotator
  import opened Filter
  import opened Grouping
  import opened Analyzer

  const Tenancy: String := "ocid1.tenancy.oc1..root"
  const Finance: String := IdPrefix + "aaa"
  const Ops: String := IdPrefix + "ops"
  const User: String := "ocid1.user.oc1..someone"
  const Loner: String := "ocid1.user.oc1..loner"

  /** The words between the group name and the compartment reference, in
      two pieces: `Verb` holds no `c`, and `Ending` is shorter than the
      keyword, so no occurrence of the keyword fits before the reference. */
  const Verb: String := " to manage all-res"
  const Ending: String := "ources in "
  const Middle: String := Verb + Ending

  /** "allow group Admins to manage all-resources in " */
  const Lead: String := "allow " + "group " + "Admins" + Middle

  /** "allow group Admins to manage all-resources in compartment ocid1.compartment.aaa" */
  const Statement: String := Lead + "compartment" + " " + Finance

  /** "allow group Admins to manage all-resources in compartment Finance" */
  const Expected: String := Lead + "compartment " + "Finance"

  /** `get_compartment` of the example: only "Finance" has a name. */
  function CompartmentName(id: String): Option<String> {
    if id == Finance then Some("Finance") else None
  }

  /** `get_user_groups` of the example: "Admins" is the only group of
      `User`, `Loner` belongs to no group, and the membership listing fails
      for everybody else. */
  function GroupsOf(user: String): Option<seq<String>> {
    if user == User then Some(["Admins"])
    else if user == Loner then Some([])
    else None
  }

  /** `list_policies` of the example: "Finance" holds one policy, the
      policies of "Ops" cannot be fetched, every other compartment has none. */
  function PoliciesIn(id: String): Option<seq<Policy>> {
    if id == Finance then Some([Policy("FinPolicy", Finance, [Statement])])
    else if id == Ops then None
    else Some([])
  }

  /** The identity service of the example, listing `listed` as the
      tenancy's compartments. */
  function Service(listed: seq<String>): Gateway {
    Gateway(Env(Tenancy, CompartmentName), Some(listed), GroupsOf, PoliciesIn)
  }

  /** No character of `s` lower-cases to `c`. */
  predicate NoC(s: String) {
    forall i :: 0 <= i < |s| ==> LowerChar(s[i]) != 'c'
  }

  /** Text made of pieces without a `c` has none. */
  lemma NoCAppend(a: String, b: String)
    requires NoC(a) && NoC(b)
    ensures NoC(a + b)
  {
    forall i | 0 <= i < |a + b| ensures LowerChar((a + b)[i]) != 'c' {
      if i >= |a| {
        assert (a + b)[i] == b[i - |a|];
      }
    }
  }

  lemma PiecesHaveNoC()
    ensures NoC("allow ") && NoC("group ") && NoC("Admins") && NoC(Verb)
    ensures |Ending| < |Keyword|
  {
  }

  /** No occurrence of the keyword fits in the lead-in: every `c` it holds
      lies in `Ending`, too close to its end. */
  lemma LeadChars()
    ensures forall i :: 0 <= i && i + |Keyword| <= |Lead| ==> LowerChar(Lead[i]) != 'c'
  {
    PiecesHaveNoC();
    var reach := "allow " + "group " + "Admins" + Verb;
    NoCAppend("allow ", "group ");
    NoCAppend("allow " + "group ", "Admins");
    NoCAppend("allow " + "group " + "Admins", Verb);
    assert Lead == reach + Ending;
    forall i | 0 <= i && i + |Keyword| <= |Lead| ensures LowerChar(Lead[i]) != 'c' {
      assert Lead[i] == reach[i];
    }
  }

  /** The lead-in never names the keyword. */
  lemma LeadHasNoKeyword()
    ensures !Contains(Lower(Lead), Keyword)
  {
    LeadChars();
    ContainsIff(Lower(Lead), Keyword);
    assert Keyword[0] == 'c';
    forall i | 0 <= i && i + |Keyword| <= |Lead| ensures !OccursAt(Lower(Lead), Keyword, i) {
      assert Lower(Lead)[i..i + |Keyword|][0] == LowerChar(Lead[i]);
    }
  }

  /** The keyword as written in the statement. */
  lemma KeywordAsWritten()
    ensures Lower("compartment") == Keyword
  {
  }

  /** The example's identifier has the shape the pattern captures. */
  lemma FinanceIsCompartmentId()
    ensures IsCompartmentId(Finance)
  {
    assert Finance[..|IdPrefix|] == IdPrefix;
    assert Lower(IdPrefix) == IdPrefix;
  }

  /** The statement is rewritten to `Expected`. */
  lemma StatementAnnotated(cache: Cache)
    requires cache == map[Finance := "Finance"]
    ensures Annotate(cache, Service([Finance]).env, Statement) == Annotated(Expected, cache)
  {
    LeadHasNoKeyword();
    KeywordAsWritten();
    FinanceIsCompartmentId();
    assert Statement == Lead + "compartment" + " " + Finance + [];
    var t := "compartment" + " " + Finance + [];
    assert Lead + "compartment" + " " + Finance + [] == Lead + t;
    assert t[..|Keyword|] == "compartment";
    NoMatchInPrefix(Lead, t);
    SingleIdentifierRewritten(cache, Service([Finance]).env, Lead, "compartment", " ", Finance, []);
    assert Expected == Lead + "compartment " + "Finance" + [];
  }

  /** The statement names the user's group. */
  lemma StatementIsRelevant()
    ensures IsRelevant(Statement, ["Admins"])
  {
    var post := Middle + "compartment" + " " + Finance;
    assert Statement == "allow " + "group " + "Admins" + [] + post;
    PrefixOfLongerNameMatches("allow ", "Admins", [], post);
  }

  /** The one policy of "Finance" yields one record, and resolving the
      compartment fills the cache. */
  lemma FinanceFiltered()
    ensures FilterPolicies(map[], Service([Finance]).env, [Policy("FinPolicy", Finance, [Statement])], ["Admins"])
         == Filtered([Record("FinPolicy", "Finance", Expected)], map[Finance := "Finance"])
  {
    var env := Service([Finance]).env;
    var cache := map[Finance := "Finance"];
    assert Finance != Tenancy;
    assert Resolve(map[], env, Finance) == Resolved("Finance", cache, true);
    StatementIsRelevant();
    StatementAnnotated(cache);
    var rec := Record("FinPolicy", "Finance", Expected);
    assert FilterStatements(cache, env, "FinPolicy", "Finance", [Statement], ["Admins"]) == Filtered([rec], cache);
  }

  /** Scanning "Finance" and then the tenancy, which holds no policies. */
  lemma FinanceScanned()
    ensures Scan(map[], Service([Finance]).env, PoliciesIn, [Finance, Tenancy], ["Admins"])
         == Filtered([Record("FinPolicy", "Finance", Expected)], map[Finance := "Finance"])
  {
    var env := Service([Finance]).env;
    var cache := map[Finance := "Finance"];
    var groups := ["Admins"];
    FinanceFiltered();
    assert Finance != Tenancy;
    assert Tenancy != Ops;
    assert PoliciesIn(Tenancy) == Some([]);
    assert Scan(cache, env, PoliciesIn, [Tenancy], groups) == Filtered([], cache);
    ScanStep(map[], env, PoliciesIn, [Finance, Tenancy], groups);
    assert [Finance, Tenancy][1..] == [Tenancy];
  }

  /** The tenancy's policies in "Finance" alone: the report holds one key,
      ("FinPolicy", "Finance"), with the annotated statement; the cache
      remembers the one compartment resolved. */
  lemma FinanceReport()
    ensures Analyze(Service([Finance]), map[], User)
         == Analysis(Scanned([Finance, Tenancy],
                             [Record("FinPolicy", "Finance", Expected)],
                             [Entry(Key("FinPolicy", "Finance"), [Expected])]),
                     map[Finance := "Finance"])
  {
    var gw := Service([Finance]);
    assert UserGroups(gw, User) == ["Admins"];
    assert ScanList(gw) == [Finance, Tenancy];
    FinanceScanned();
    var rec := Record("FinPolicy", "Finance", Expected);
    assert Group([rec]) == [Entry(Key("FinPolicy", "Finance"), [Expected])];
  }

  /** "Ops" is listed first but its policies cannot be fetched: the scan
      still covers it and carries on, and the report is the one above. */
  lemma OpsFailureDoesNotAbort()
    ensures Analyze(Service([Ops, Finance]), map[], User)
         == Analysis(Scanned([Ops, Finance, Tenancy],
                             [Record("FinPolicy", "Finance", Expected)],
                             [Entry(Key("FinPolicy", "Finance"), [Expected])]),
                     map[Finance := "Finance"])
  {
    OpsIsSkipped();
    OpsIsListed();
    FinanceReport();
  }

  /** Leaving "Ops" out of the listing changes neither the records, nor
      the report, nor the cache. */
  lemma OpsIsSkipped()
    ensures var r := Analyze(Service([Ops, Finance]), map[], User);
            var w := Analyze(Service([Finance]), map[], User);
            r.outcome.records == w.outcome.records && r.outcome.report == w.outcome.report && r.cache == w.cache
  {
    var gw := Service([Ops, Finance]);
    var none: seq<String> := [];
    OpsFetchFails();
    assert none + [Ops] + [Finance] == [Ops, Finance];
    assert UserGroups(gw, User) == ["Admins"];
    FailedCompartmentDoesNotAbort(gw, map[], User, none, Ops, [Finance]);
    assert none + [Finance] == [Finance];
    assert gw.(compartments := Some(none + [Finance])) == Service([Finance]);
  }

  /** "Ops" is still among the compartments scanned. */
  lemma OpsIsListed()
    ensures var r := Analyze(Service([Ops, Finance]), map[], User);
            r.outcome.Scanned? && r.outcome.scanned == [Ops, Finance, Tenancy]
  {
    assert UserGroups(Service([Ops, Finance]), User) == ["Admins"];
    assert ScanList(Service([Ops, Finance])) == [Ops, Finance, Tenancy];
  }

  /** The policies of "Ops" cannot be fetched. */
  lemma OpsFetchFails()
    ensures PoliciesIn(Ops).None?
  {
    assert Ops[|IdPrefix|] != Finance[|IdPrefix|];
  }

  /** A user without groups: nothing is scanned and nothing is reported. */
  lemma NoGroupsReport(listed: seq<String>)
    ensures Analyze(Service(listed), map[], Loner) == Analysis(NoGroups, map[])
  {
  }

  /** A user whose memberships cannot be fetched is treated like one
      without groups. */
  lemma FailedGroupsReport(listed: seq<String>)
    ensures Analyze(Service(listed), map[], "ocid1.user.oc1..nobody") == Analysis(NoGroups, map[])
  {
  }
}
