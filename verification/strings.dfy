/**
 * The three operations on Java strings that the commands rely on:
 * `startsWith`, `indexOf` (first occurrence, or -1) and `contains`.
 */
module Strings {

  /** `pat` occurs in `s` starting at index `i`. */
  predicate OccursAt(s: string, pat: string, i: nat) {
    i + |pat| <= |s| && s[i..i + |pat|] == pat
  }

  /** `String.startsWith`. */
  predicate StartsWith(s: string, prefix: string) {
    OccursAt(s, prefix, 0)
  }

  /** The first index at or after `from` where `pat` occurs in `s`, or -1. */
  function IndexFrom(s: string, pat: string, from: nat): (r: int)
    decreases |s| + 1 - from
    ensures r == -1 || (from <= r && OccursAt(s, pat, r))
    ensures forall j: nat | from <= j && (r == -1 || j < r) :: !OccursAt(s, pat, j)
  {
    if from + |pat| > |s| then -1
    else if s[from..from + |pat|] == pat then from
    else IndexFrom(s, pat, from + 1)
  }

  /** `String.indexOf`: the first occurrence of `pat` in `s`, or -1. */
  function IndexOf(s: string, pat: string): (r: int)
    ensures r == -1 <==> forall j: nat :: !OccursAt(s, pat, j)
    ensures r != -1 ==> 0 <= r && OccursAt(s, pat, r) && forall j: nat | j < r :: !OccursAt(s, pat, j)
  {
    IndexFrom(s, pat, 0)
  }

  /** `String.contains`. */
  predicate Contains(s: string, pat: string) {
    IndexOf(s, pat) >= 0
  }

  /** `indexOf` finds the occurrence that no earlier occurrence precedes. */
  lemma IndexOfIsFirst(s: string, pat: string, k: nat)
    requires OccursAt(s, pat, k)
    requires forall j: nat | j < k :: !OccursAt(s, pat, j)
    ensures IndexOf(s, pat) == k
  {
  }

  /** Every string contains itself and the empty string. */
  lemma ContainsSelfAndEmpty(s: string)
    ensures Contains(s, s) && Contains(s, "")
  {
    assert OccursAt(s, s, 0);
    assert OccursAt(s, "", 0);
  }

  /** Containment is transitive: a text inside a text inside `a` is inside `a`. */
  lemma ContainsTransitive(a: string, b: string, c: string)
    requires Contains(a, b) && Contains(b, c)
    ensures Contains(a, c)
  {
    var i := IndexOf(a, b);
    var j := IndexOf(b, c);
    assert i + j + |c| <= |a|;
    forall k | 0 <= k < |c|
      ensures a[i + j + k] == c[k]
    {
      assert a[i..i + |b|][j + k] == b[j + k];
      assert b[j..j + |c|][k] == c[k];
    }
    assert a[i + j..i + j + |c|] == c;
    assert OccursAt(a, c, i + j);
  }
}
