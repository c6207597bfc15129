/** The relevance test inside `filter_policies_for_groups`: does a policy
    statement name one of the user's groups? */
module Matcher {
  import opened Maybe
  import opened Text

  /** The word every pattern starts with, followed by exactly one space. */
  const GroupWord: String := "group "

  /** The three surface forms looked for, built from the lower-cased group
      name: `group NAME`, `group 'NAME'` and `group "NAME"`. */
  function Patterns(group: String): seq<String> {
    var g := Lower(group);
    [GroupWord + g, GroupWord + "'" + g + "'", GroupWord + "\"" + g + "\""]
  }

  /** The lower-cased statement contains one of the patterns of `group`:
      a plain substring test, with no word boundary after the name. */
  predicate Mentions(statement: String, group: String) {
    var s := Lower(statement);
    var ps := Patterns(group);
    Contains(s, ps[0]) || Contains(s, ps[1]) || Contains(s, ps[2])
  }

  /** The loop over the group names with its `break`: the index of the
      first group the statement mentions, if any. */
  function FirstMentioned(statement: String, groups: seq<String>): (r: Option<nat>)
    ensures r.Some? ==> r.value < |groups| && Mentions(statement, groups[r.value])
    ensures r.Some? ==> forall j :: 0 <= j < r.value ==> !Mentions(statement, groups[j])
    ensures r.None? <==> forall g :: g in groups ==> !Mentions(statement, g)
    decreases |groups|
  {
    if groups == [] then None
    else if Mentions(statement, groups[0]) then Some(0)
    else
      match FirstMentioned(statement, groups[1..])
      case Some(i) => Some(i + 1)
      case None => None
  }

  /** The statement is reported for this user. */
  predicate IsRelevant(statement: String, groups: seq<String>) {
    FirstMentioned(statement, groups).Some?
  }

  /** Relevance, stated without the loop: after lower-casing, the statement
      contains `group g`, `group 'g'` or `group "g"` for some listed g.
      With no groups nothing is relevant. */
  lemma RelevantIff(statement: String, groups: seq<String>)
    ensures IsRelevant(statement, groups) <==>
      exists g, i :: g in groups && (var s := Lower(statement); var n := Lower(g);
        OccursAt(s, GroupWord + n, i) || OccursAt(s, GroupWord + "'" + n + "'", i) || OccursAt(s, GroupWord + "\"" + n + "\"", i))
    ensures groups == [] ==> !IsRelevant(statement, groups)
  {
    var s := Lower(statement);
    forall g | g in groups
      ensures Mentions(statement, g) <==> exists i ::
        (var n := Lower(g); OccursAt(s, GroupWord + n, i) || OccursAt(s, GroupWord + "'" + n + "'", i) || OccursAt(s, GroupWord + "\"" + n + "\"", i))
    {
      var ps := Patterns(g);
      ContainsIff(s, ps[0]);
      ContainsIff(s, ps[1]);
      ContainsIff(s, ps[2]);
    }
  }

  /** The order in which the names are tried, and repeated names, do not
      matter: relevance depends only on the set of group names. */
  lemma RelevanceUsesOnlyTheSet(statement: String, a: seq<String>, b: seq<String>)
    requires forall g :: g in a <==> g in b
    ensures IsRelevant(statement, a) == IsRelevant(statement, b)
  {
  }

  /** A statement is relevant exactly when it mentions some listed group. */
  lemma RelevantIffMentions(statement: String, groups: seq<String>)
    ensures IsRelevant(statement, groups) <==> exists g :: g in groups && Mentions(statement, g)
  {
  }

  /** Lower-casing the statement first changes nothing. */
  lemma MentionsLowerStatement(statement: String, group: String)
    ensures Mentions(Lower(statement), group) == Mentions(statement, group)
  {
    LowerIdempotent(statement);
  }

  /** Lower-casing the group name first changes nothing. */
  lemma MentionsLowerGroup(statement: String, group: String)
    ensures Mentions(statement, Lower(group)) == Mentions(statement, group)
  {
    LowerIdempotent(group);
    assert Patterns(Lower(group)) == Patterns(group);
  }

  /** Matching ignores case on both sides. */
  lemma RelevanceIgnoresCase(statement: String, groups: seq<String>)
    ensures IsRelevant(Lower(statement), groups) == IsRelevant(statement, groups)
    ensures IsRelevant(statement, seq(|groups|, i requires 0 <= i < |groups| => Lower(groups[i]))) == IsRelevant(statement, groups)
  {
    var lowered := seq(|groups|, i requires 0 <= i < |groups| => Lower(groups[i]));
    RelevantIffMentions(statement, groups);
    RelevantIffMentions(Lower(statement), groups);
    RelevantIffMentions(statement, lowered);
    forall g | g in groups ensures Mentions(Lower(statement), g) == Mentions(statement, g) {
      MentionsLowerStatement(statement, g);
    }
    if IsRelevant(statement, groups) {
      var g :| g in groups && Mentions(statement, g);
      var i :| 0 <= i < |groups| && groups[i] == g;
      MentionsLowerGroup(statement, g);
      assert lowered[i] in lowered;
    }
    if IsRelevant(statement, lowered) {
      var g :| g in lowered && Mentions(statement, g);
      var i :| 0 <= i < |lowered| && lowered[i] == g;
      MentionsLowerGroup(statement, groups[i]);
      assert groups[i] in groups;
    }
  }

  /** The test is a substring test: a group called `Admin` also makes a
      statement about the group `Administrators` relevant. */
  lemma PrefixOfLongerNameMatches(pre: String, name: String, rest: String, post: String)
    ensures IsRelevant(pre + "group " + name + rest + post, [name])
  {
    var s := pre + "group " + name + rest + post;
    LowerAppend(pre + "group " + name, rest + post);
    LowerAppend(pre, "group " + name);
    LowerAppend("group ", name);
    assert Lower("group ") == "group ";
    assert Lower(s) == Lower(pre) + ("group " + Lower(name)) + Lower(rest + post);
    ContainsMiddle(Lower(pre), "group " + Lower(name), Lower(rest + post));
  }
  /** Every pattern begins with `group ` and a single space, so a statement
      without that word followed by a space is never relevant. */
  lemma NoGroupWordNoMatch(statement: String, groups: seq<String>)
    requires !Contains(Lower(statement), GroupWord)
    ensures !IsRelevant(statement, groups)
  {
    var s := Lower(statement);
    forall g | g in groups ensures !Mentions(statement, g) {
      var n := Lower(g);
      ContainsStart(s, GroupWord, n);
      ContainsStart(s, GroupWord, "'" + n + "'");
      ContainsStart(s, GroupWord, "\"" + n + "\"");
      assert GroupWord + "'" + n + "'" == GroupWord + ("'" + n + "'");
      assert GroupWord + "\"" + n + "\"" == GroupWord + ("\"" + n + "\"");
    }
  }

  /** A group named `Admin` also makes a statement about `group Administrators`
      relevant. */
  lemma AdminMatchesAdministrators()
    ensures IsRelevant("Allow " + "group " + "Admin" + "istrators" + " to read all-resources in tenancy", ["Admin"])
  {
    PrefixOfLongerNameMatches("Allow ", "Admin", "istrators", " to read all-resources in tenancy");
  }
}
