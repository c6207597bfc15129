/** `filter_policies_for_groups`: the statements of a list of policies that
    name one of the user's groups, each annotated, tagged with its policy's
    name and compartment name. */
module Filter {
  import opened Text
  import opened Resolver
  import opened Matcher
  import opened Annotator

  /** A policy as the identity service lists it. */
  datatype Policy = Policy(name: String, compartmentId: String, statements: seq<String>)

  /** One reported statement: (policy name, compartment name, annotated text). */
  datatype Record = Record(policyName: String, compartmentName: String, statement: String)

  /** The records found and the resolver cache afterwards. */
  datatype Filtered = Filtered(records: seq<Record>, cache: Cache)

  /** The statements of `statements` that are relevant, in their order. */
  function RelevantOnly(statements: seq<String>, groups: seq<String>): (r: seq<String>)
    ensures |r| <= |statements|
    ensures forall s :: s in r <==> s in statements && IsRelevant(s, groups)
    decreases |statements|
  {
    if statements == [] then []
    else if IsRelevant(statements[0], groups) then [statements[0]] + RelevantOnly(statements[1..], groups)
    else RelevantOnly(statements[1..], groups)
  }

  /** How many relevant statements a list of policies holds. */
  function CountRelevant(policies: seq<Policy>, groups: seq<String>): nat
    decreases |policies|
  {
    if policies == [] then 0
    else |RelevantOnly(policies[0].statements, groups)| + CountRelevant(policies[1..], groups)
  }

  /** The inner loop over one policy's statements: a relevant statement is
      annotated and recorded once, however many groups it names. */
  function FilterStatements(cache: Cache, env: Env, policyName: String, compartmentName: String,
                            statements: seq<String>, groups: seq<String>): (r: Filtered)
    ensures Extends(cache, r.cache)
    ensures Faithful(env, cache) ==> Faithful(env, r.cache)
    ensures |r.records| == |RelevantOnly(statements, groups)|
    ensures forall i :: 0 <= i < |r.records| ==>
      r.records[i].policyName == policyName && r.records[i].compartmentName == compartmentName
    decreases |statements|
  {
    if statements == [] then Filtered([], cache)
    else if IsRelevant(statements[0], groups) then
      var a := Annotate(cache, env, statements[0]);
      var rest := FilterStatements(a.cache, env, policyName, compartmentName, statements[1..], groups);
      Filtered([Record(policyName, compartmentName, a.text)] + rest.records, rest.cache)
    else
      FilterStatements(cache, env, policyName, compartmentName, statements[1..], groups)
  }

  /** A relevant statement yields exactly one record, its annotation, even
      when it names several of the groups. */
  lemma OneRecordPerStatement(cache: Cache, env: Env, policyName: String, compartmentName: String,
                              statement: String, groups: seq<String>)
    requires IsRelevant(statement, groups)
    ensures var a := Annotate(cache, env, statement);
            var f := FilterStatements(cache, env, policyName, compartmentName, [statement], groups);
            f == Filtered([Record(policyName, compartmentName, a.text)], a.cache)
  {
    var a := Annotate(cache, env, statement);
    assert [statement][1..] == [];
    assert FilterStatements(a.cache, env, policyName, compartmentName, [], groups) == Filtered([], a.cache);
  }

  /** The outer loop: each policy's compartment name is resolved first (even
      when none of its statements is relevant), then its statements are
      filtered; records follow policy order, then statement order. */
  function FilterPolicies(cache: Cache, env: Env, policies: seq<Policy>, groups: seq<String>): (r: Filtered)
    ensures Extends(cache, r.cache)
    ensures Faithful(env, cache) ==> Faithful(env, r.cache)
    ensures |r.records| == CountRelevant(policies, groups)
    decreases |policies|
  {
    if policies == [] then Filtered([], cache)
    else
      var p := policies[0];
      var c := Resolve(cache, env, p.compartmentId);
      var f := FilterStatements(c.cache, env, p.name, c.name, p.statements, groups);
      var rest := FilterPolicies(f.cache, env, policies[1..], groups);
      Filtered(f.records + rest.records, rest.cache)
  }

  /** Each of `statements`, annotated without a cache, as a record of the
      given policy and compartment. */
  function RecordsFor(env: Env, policyName: String, compartmentName: String, statements: seq<String>): (r: seq<Record>)
    ensures |r| == |statements|
    ensures forall i :: 0 <= i < |r| ==> r[i] == Record(policyName, compartmentName, AnnotateRef(env, statements[i]))
    decreases |statements|
  {
    if statements == [] then []
    else
      var head := Record(policyName, compartmentName, AnnotateRef(env, statements[0]));
      [head] + RecordsFor(env, policyName, compartmentName, statements[1..])
  }

  /** The records of one policy without any cache: its relevant statements,
      in order, each with the reference annotation. */
  function PolicyRecords(env: Env, p: Policy, groups: seq<String>): seq<Record> {
    RecordsFor(env, p.name, NameOf(env, p.compartmentId), RelevantOnly(p.statements, groups))
  }

  /** The records of all policies without any cache. */
  function RecordsRef(env: Env, policies: seq<Policy>, groups: seq<String>): seq<Record>
    decreases |policies|
  {
    if policies == [] then [] else PolicyRecords(env, policies[0], groups) + RecordsRef(env, policies[1..], groups)
  }

  /** With a faithful cache, one policy's statements yield exactly its
      relevant statements, in order, each annotated. */
  lemma {:induction false} FilterStatementsIsReference(cache: Cache, env: Env, policyName: String, compartmentName: String,
                                                       statements: seq<String>, groups: seq<String>)
    requires Faithful(env, cache)
    ensures FilterStatements(cache, env, policyName, compartmentName, statements, groups).records
         == RecordsFor(env, policyName, compartmentName, RelevantOnly(statements, groups))
    decreases |statements|
  {
    if statements != [] {
      if IsRelevant(statements[0], groups) {
        var a := Annotate(cache, env, statements[0]);
        AnnotateIsReference(cache, env, statements[0]);
        FilterStatementsIsReference(a.cache, env, policyName, compartmentName, statements[1..], groups);
        var rel := RelevantOnly(statements, groups);
        assert rel == [statements[0]] + RelevantOnly(statements[1..], groups);
        assert rel[1..] == RelevantOnly(statements[1..], groups);
      } else {
        FilterStatementsIsReference(cache, env, policyName, compartmentName, statements[1..], groups);
      }
    }
  }

  /** With a faithful cache, filtering yields the cache-free records. */
  lemma {:induction false} FilterIsReference(cache: Cache, env: Env, policies: seq<Policy>, groups: seq<String>)
    requires Faithful(env, cache)
    ensures FilterPolicies(cache, env, policies, groups).records == RecordsRef(env, policies, groups)
    decreases |policies|
  {
    if policies != [] {
      var p := policies[0];
      var c := Resolve(cache, env, p.compartmentId);
      var f := FilterStatements(c.cache, env, p.name, c.name, p.statements, groups);
      FilterStatementsIsReference(c.cache, env, p.name, c.name, p.statements, groups);
      FilterIsReference(f.cache, env, policies[1..], groups);
    }
  }
}
