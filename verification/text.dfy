/** Character and string helpers standing in for Python's `str.lower()`,
    the regular-expression class `\s` and the substring test `p in s`.
    Only the ASCII range is modelled. */
module Text {

  type String = seq<char>

  /** `str.lower()` on one character: 'A'..'Z' become 'a'..'z', everything
      else is kept. */
  function LowerChar(c: char): char {
    if 'A' <= c <= 'Z' then (c as int - 'A' as int + 'a' as int) as char else c
  }

  /** `str.lower()` on a whole string. */
  function Lower(s: String): String {
    seq(|s|, i requires 0 <= i < |s| => LowerChar(s[i]))
  }

  /** Characters that Python's `\s` matches in the ASCII range:
      tab, line feed, vertical tab, form feed, carriage return,
      the four information separators 0x1C..0x1F, and space. */
  predicate IsSpace(c: char) {
    9 <= c as int <= 13 || 28 <= c as int <= 32
  }

  /** The character class `[a-zA-Z0-9\._-]` of a compartment identifier. */
  predicate IsIdChar(c: char) {
    'a' <= c <= 'z' || 'A' <= c <= 'Z' || '0' <= c <= '9' || c == '.' || c == '_' || c == '-'
  }

  /** `p` occurs in `s` starting at index `i`. */
  predicate OccursAt(s: String, p: String, i: int) {
    0 <= i && i + |p| <= |s| && s[i..i + |p|] == p
  }

  /** Python's `p in s`: a scan over the start positions of `s`. */
  predicate Contains(s: String, p: String)
    decreases |s|
  {
    p <= s || (|s| > 0 && Contains(s[1..], p))
  }

  /** An occurrence at a known index is found by the scan. */
  lemma {:induction false} OccurrenceFound(s: String, p: String, i: int)
    requires OccursAt(s, p, i)
    ensures Contains(s, p)
    decreases i
  {
    if i > 0 {
      assert s[1..][i - 1..i - 1 + |p|] == s[i..i + |p|];
      OccurrenceFound(s[1..], p, i - 1);
    } else {
      assert s[..|p|] == p;
    }
  }

  /** What the scan finds is an occurrence at some index. */
  lemma {:induction false} FoundIsOccurrence(s: String, p: String) returns (i: int)
    requires Contains(s, p)
    ensures OccursAt(s, p, i)
    decreases |s|
  {
    if p <= s {
      i := 0;
      assert s[..|p|] == p;
    } else {
      var j := FoundIsOccurrence(s[1..], p);
      assert s[1..][j..j + |p|] == s[j + 1..j + 1 + |p|];
      i := j + 1;
    }
  }

  /** The scan agrees with the positional definition of a substring. */
  lemma ContainsIff(s: String, p: String)
    ensures Contains(s, p) <==> exists i :: OccursAt(s, p, i)
  {
    if Contains(s, p) {
      var i := FoundIsOccurrence(s, p);
    }
    if i :| OccursAt(s, p, i) {
      OccurrenceFound(s, p, i);
    }
  }

  /** A string contains anything it is built around. */
  lemma ContainsMiddle(a: String, p: String, b: String)
    ensures Contains(a + p + b, p)
  {
    assert (a + p + b)[|a|..|a| + |p|] == p;
    assert OccursAt(a + p + b, p, |a|);
    ContainsIff(a + p + b, p);
  }

  /** Whatever contains `p + q` contains `p`. */
  lemma ContainsStart(s: String, p: String, q: String)
    ensures Contains(s, p + q) ==> Contains(s, p)
  {
    ContainsIff(s, p + q);
    ContainsIff(s, p);
    if i :| OccursAt(s, p + q, i) {
      assert s[i..i + |p|] == (p + q)[..|p|] == p;
      assert OccursAt(s, p, i);
    }
  }

  /** Lower-casing commutes with concatenation. */
  lemma LowerAppend(a: String, b: String)
    ensures Lower(a + b) == Lower(a) + Lower(b)
  {
  }

  /** Lower-casing twice is lower-casing once. */
  lemma LowerIdempotent(s: String)
    ensures Lower(Lower(s)) == Lower(s)
  {
  }
}
