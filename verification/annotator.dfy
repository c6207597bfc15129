/** `translate_compartment_ids_in_statement`: every case-insensitive match of
    `compartment\s+(ocid1\.compartment\.[a-zA-Z0-9\._-]+)` is replaced,
    leftmost first and without overlap, by `compartment ` followed by the
    resolved name of the captured identifier. */
module Annotator {
  import opened Maybe
  import opened Text
  import opened Resolver

  /** The keyword the pattern starts with, and the fixed start of a
      compartment identifier; both are matched ignoring case. */
  const Keyword: String := "compartment"
  const IdPrefix: String := "ocid1.compartment."

  /** `s` starts with the lower-case literal `lit`, ignoring case. */
  predicate StartsWithCi(s: String, lit: String) {
    |lit| <= |s| && Lower(s[..|lit|]) == lit
  }

  /** The length of the longest prefix of `s` whose characters satisfy `f`:
      what a greedy `[...]+` or `\s+` consumes. */
  function SpanOf(s: String, f: char -> bool): (n: nat)
    ensures n <= |s|
    ensures forall i :: 0 <= i < n ==> f(s[i])
    ensures n < |s| ==> !f(s[n])
    decreases |s|
  {
    if s != [] && f(s[0]) then 1 + SpanOf(s[1..], f) else 0
  }

  /** A match anchored at the start of the text: `spaces` whitespace
      characters after the keyword and `tail` identifier characters after
      `ocid1.compartment.`. */
  datatype Match = Match(spaces: nat, tail: nat) {
    /** Where the captured identifier starts. */
    function IdStart(): nat { |Keyword| + spaces }
    /** One past the last character of the match. */
    function End(): nat { |Keyword| + spaces + |IdPrefix| + tail }
  }

  /** The pattern matches `s[..End]` using `w` whitespace characters and `n`
      identifier characters after the fixed identifier prefix. */
  predicate MatchesWith(s: String, w: nat, n: nat) {
    var k := |Keyword| + w;
    var e := k + |IdPrefix| + n;
    && 1 <= w && 1 <= n && e <= |s|
    && StartsWithCi(s, Keyword)
    && (forall i :: |Keyword| <= i < k ==> IsSpace(s[i]))
    && StartsWithCi(s[k..], IdPrefix)
    && (forall i :: k + |IdPrefix| <= i < e ==> IsIdChar(s[i]))
  }

  /** The regular expression tried at the start of `s`. The whitespace run
      can only end where `o` begins, so it is the maximal run; the identifier
      run is greedy. */
  function MatchAt(s: String): (r: Option<Match>)
    ensures r.Some? ==> MatchesWith(s, r.value.spaces, r.value.tail)
    ensures r.Some? ==> r.value.End() == |s| || !IsIdChar(s[r.value.End()])
  {
    if !StartsWithCi(s, Keyword) then None
    else
      var w := SpanOf(s[|Keyword|..], IsSpace);
      var k := |Keyword| + w;
      if w == 0 || !StartsWithCi(s[k..], IdPrefix) then None
      else
        var n := SpanOf(s[k + |IdPrefix|..], IsIdChar);
        if n == 0 then None else Some(Match(w, n))
  }

  /** Whenever the pattern can match at the start of `s`, `MatchAt` finds a
      match with the same whitespace run and the longest identifier. */
  lemma MatchAtComplete(s: String, w: nat, n: nat)
    requires MatchesWith(s, w, n)
    ensures MatchAt(s).Some?
    ensures MatchAt(s).value.spaces == w && MatchAt(s).value.tail >= n
  {
    var t := s[|Keyword|..];
    var k := |Keyword| + w;
    assert t[w] == s[k] && LowerChar(s[k]) == Lower(s[k..][..|IdPrefix|])[0] == IdPrefix[0];
    assert forall i :: 0 <= i < w ==> IsSpace(t[i]) by {
      forall i | 0 <= i < w ensures IsSpace(t[i]) {
        assert t[i] == s[|Keyword| + i];
      }
    }
    assert SpanOf(t, IsSpace) == w;
    var u := s[k + |IdPrefix|..];
    assert forall i :: 0 <= i < n ==> IsIdChar(u[i]) by {
      forall i | 0 <= i < n ensures IsIdChar(u[i]) {
        assert u[i] == s[k + |IdPrefix| + i];
      }
    }
  }

  /** No match of the pattern starts anywhere in `s`. */
  predicate NoMatch(s: String) {
    forall i :: 0 <= i < |s| ==> MatchAt(s[i..]).None?
  }

  /** The rewritten text and the resolver cache after it. */
  datatype Annotated = Annotated(text: String, cache: Cache)

  /** The `re.sub` scan: at each position either the pattern matches and the
      whole match is replaced, or one character is copied. Each captured
      identifier goes through the resolver, whose cache is threaded along. */
  function Annotate(cache: Cache, env: Env, s: String): (r: Annotated)
    ensures Extends(cache, r.cache)
    ensures Faithful(env, cache) ==> Faithful(env, r.cache)
    decreases |s|
  {
    if s == [] then Annotated([], cache)
    else
      match MatchAt(s)
      case Some(m) =>
        var res := Resolve(cache, env, s[m.IdStart()..m.End()]);
        var rest := Annotate(res.cache, env, s[m.End()..]);
        Annotated("compartment " + res.name + rest.text, rest.cache)
      case None =>
        var rest := Annotate(cache, env, s[1..]);
        Annotated([s[0]] + rest.text, rest.cache)
  }

  /** The same rewrite with every identifier replaced by the name it stands
      for, no cache involved. */
  function AnnotateRef(env: Env, s: String): String
    decreases |s|
  {
    if s == [] then []
    else
      match MatchAt(s)
      case Some(m) => "compartment " + NameOf(env, s[m.IdStart()..m.End()]) + AnnotateRef(env, s[m.End()..])
      case None => [s[0]] + AnnotateRef(env, s[1..])
  }

  /** With a faithful cache, memoisation never changes the rewritten text. */
  lemma {:induction false} AnnotateIsReference(cache: Cache, env: Env, s: String)
    requires Faithful(env, cache)
    ensures Annotate(cache, env, s).text == AnnotateRef(env, s)
    decreases |s|
  {
    if s != [] {
      match MatchAt(s)
      case Some(m) =>
        var res := Resolve(cache, env, s[m.IdStart()..m.End()]);
        AnnotateIsReference(res.cache, env, s[m.End()..]);
      case None =>
        AnnotateIsReference(cache, env, s[1..]);
    }
  }

  /** A statement with no match is returned unchanged, and the cache too. */
  lemma {:induction false} NoMatchUnchanged(cache: Cache, env: Env, s: String)
    requires NoMatch(s)
    ensures Annotate(cache, env, s) == Annotated(s, cache)
    decreases |s|
  {
    if s != [] {
      assert s[0..] == s;
      assert NoMatch(s[1..]) by {
        forall i | 0 <= i < |s[1..]| ensures MatchAt(s[1..][i..]).None? {
          assert s[1..][i..] == s[i + 1..];
        }
      }
      NoMatchUnchanged(cache, env, s[1..]);
    }
  }

  /** Where no match starts, one character is copied and the scan moves on. */
  lemma CopyStep(cache: Cache, env: Env, s: String)
    requires s != [] && MatchAt(s).None?
    ensures var r := Annotate(cache, env, s[1..]);
            Annotate(cache, env, s) == Annotated([s[0]] + r.text, r.cache)
  {
  }

  /** No match starts before index `n` of `s`. */
  predicate NoMatchBefore(s: String, n: int) {
    n <= |s| && forall i :: 0 <= i < n ==> MatchAt(s[i..]).None?
  }

  /** Where a match starts, it is replaced and the scan resumes after it. */
  lemma ReplaceStep(cache: Cache, env: Env, s: String)
    requires MatchAt(s).Some?
    ensures var m := MatchAt(s).value;
            var res := Resolve(cache, env, s[m.IdStart()..m.End()]);
            var rest := Annotate(res.cache, env, s[m.End()..]);
            Annotate(cache, env, s) == Annotated("compartment " + res.name + rest.text, rest.cache)
  {
  }

  /** Dropping the first character keeps the absence of matches. */
  lemma NoMatchBeforeTail(s: String, n: nat)
    requires n > 0 && NoMatchBefore(s, n)
    ensures NoMatchBefore(s[1..], n - 1)
  {
    forall i | 0 <= i < n - 1 ensures MatchAt(s[1..][i..]).None? {
      assert s[1..][i..] == s[i + 1..];
    }
  }

  /** Text before the leftmost match is copied character for character. */
  lemma {:induction false} CopyUntilMatch(cache: Cache, env: Env, s: String, n: nat)
    requires NoMatchBefore(s, n)
    ensures var r := Annotate(cache, env, s[n..]);
            Annotate(cache, env, s) == Annotated(s[..n] + r.text, r.cache)
    decreases n
  {
    if n > 0 {
      var r := Annotate(cache, env, s[n..]);
      var inner := Annotate(cache, env, s[1..]);
      assert inner == Annotated(s[1..][..n - 1] + r.text, r.cache) by {
        NoMatchBeforeTail(s, n);
        CopyUntilMatch(cache, env, s[1..], n - 1);
        assert s[1..][n - 1..] == s[n..];
      }
      assert Annotate(cache, env, s) == Annotated([s[0]] + inner.text, inner.cache) by {
        assert MatchAt(s).None? by {
          assert s[0..] == s;
        }
        CopyStep(cache, env, s);
      }
      HeadThenRest(s, n, r.text);
    }
  }

  lemma HeadThenRest(s: String, n: nat, t: String)
    requires 0 < n <= |s|
    ensures [s[0]] + (s[1..][..n - 1] + t) == s[..n] + t
  {
    assert [s[0]] + s[1..][..n - 1] == s[..n];
  }

  lemma ConcatAssoc(a: String, b: String, c: String, d: String)
    ensures a + (b + c + d) == a + b + c + d
  {
  }

  /** The leftmost match is replaced by `compartment ` and the resolved
      name; the text before it is kept and the scan resumes after it. */
  lemma LeftmostMatchRewritten(cache: Cache, env: Env, a: String, b: String)
    requires NoMatchBefore(a + b, |a|)
    requires MatchAt(b).Some?
    ensures var m := MatchAt(b).value;
            var res := Resolve(cache, env, b[m.IdStart()..m.End()]);
            var rest := Annotate(res.cache, env, b[m.End()..]);
            Annotate(cache, env, a + b) == Annotated(a + "compartment " + res.name + rest.text, rest.cache)
  {
    var m := MatchAt(b).value;
    var res := Resolve(cache, env, b[m.IdStart()..m.End()]);
    var rest := Annotate(res.cache, env, b[m.End()..]);
    ReplaceStep(cache, env, b);
    var r := Annotate(cache, env, b);
    assert r.text == "compartment " + res.name + rest.text && r.cache == rest.cache;
    CopyUntilMatch(cache, env, a + b, |a|);
    assert (a + b)[|a|..] == b;
    assert (a + b)[..|a|] == a;
    assert Annotate(cache, env, a + b) == Annotated(a + r.text, r.cache);
    ConcatAssoc(a, "compartment ", res.name, rest.text);
  }
  /** A compartment identifier as the pattern captures it: the prefix
      `ocid1.compartment.` in any letter case, then at least one identifier
      character. */
  predicate IsCompartmentId(id: String) {
    && |id| > |IdPrefix|
    && StartsWithCi(id, IdPrefix)
    && forall i :: |IdPrefix| <= i < |id| ==> IsIdChar(id[i])
  }

  /** No letter of `compartment` after the first is a `c`, so no occurrence
      of the keyword can start inside another. */
  lemma KeywordHasNoInnerC(d: int)
    requires 1 <= d < |Keyword|
    ensures Keyword[d] != 'c'
  {
    assert Keyword == ['c', 'o', 'm', 'p', 'a', 'r', 't', 'm', 'e', 'n', 't'];
  }

  /** When text that never names the keyword is followed by the keyword
      itself, the keyword does not start inside that text. */
  lemma KeywordNotInside(a: String, t: String, i: int)
    requires !Contains(Lower(a), Keyword)
    requires |t| >= |Keyword| && Lower(t[..|Keyword|]) == Keyword
    requires 0 <= i < |a|
    ensures !StartsWithCi((a + t)[i..], Keyword)
  {
    var s := (a + t)[i..];
    if i + |Keyword| <= |a| {
      assert s[..|Keyword|] == a[i..i + |Keyword|];
      assert Lower(a)[i..i + |Keyword|] == Lower(a[i..i + |Keyword|]);
      ContainsIff(Lower(a), Keyword);
      assert !OccursAt(Lower(a), Keyword, i);
    } else {
      var d := |a| - i;
      KeywordHasNoInnerC(d);
      assert s[d] == t[0];
      assert LowerChar(t[0]) == Lower(t[..|Keyword|])[0] == 'c';
    }
  }

  /** ... and so no match starts inside it. */
  lemma NoMatchInPrefix(a: String, t: String)
    requires !Contains(Lower(a), Keyword)
    requires |t| >= |Keyword| && Lower(t[..|Keyword|]) == Keyword
    ensures NoMatchBefore(a + t, |a|)
  {
    forall i | 0 <= i < |a| ensures MatchAt((a + t)[i..]).None? {
      KeywordNotInside(a, t, i);
    }
  }

  /** One identifier, written after the keyword in any letter case and any
      whitespace, is replaced by `compartment ` and its resolved name; the
      text around it is kept as it was. The text before it may contain the
      keyword (`manage compartments in compartment ...`) as long as no match
      starts there; `NoMatchInPrefix` is one way to show that. */
  lemma SingleIdentifierRewritten(cache: Cache, env: Env, a: String, kw: String, ws: String, id: String, b: String)
    requires NoMatchBefore(a + kw + ws + id + b, |a|)
    requires |kw| == |Keyword| && Lower(kw) == Keyword
    requires |ws| >= 1 && forall i :: 0 <= i < |ws| ==> IsSpace(ws[i])
    requires IsCompartmentId(id)
    requires b == [] || !IsIdChar(b[0])
    requires NoMatch(b)
    ensures var res := Resolve(cache, env, id);
            Annotate(cache, env, a + kw + ws + id + b) == Annotated(a + "compartment " + res.name + b, res.cache)
  {
    var t := kw + ws + id + b;
    assert a + kw + ws + id + b == a + t;
    assert t[..|Keyword|] == kw;
    var k := |Keyword| + |ws|;
    var e := k + |id|;
    assert t[k..][..|IdPrefix|] == id[..|IdPrefix|];
    assert MatchesWith(t, |ws|, |id| - |IdPrefix|);
    MatchAtComplete(t, |ws|, |id| - |IdPrefix|);
    var m := MatchAt(t).value;
    assert e < |t| ==> t[e] == b[0] && !IsIdChar(t[e]);
    assert m.End() == e;
    assert t[m.IdStart()..m.End()] == id;
    assert t[m.End()..] == b;
    LeftmostMatchRewritten(cache, env, a, t);
    var res := Resolve(cache, env, id);
    NoMatchUnchanged(res.cache, env, b);
  }
}
