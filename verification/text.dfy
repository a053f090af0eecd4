/** Ordinal, case-insensitive string comparison as used by the hub
    (`StringComparison.OrdinalIgnoreCase`), with an ASCII-only case fold. */
module Text {

  /** Folds one character to upper case; characters outside `a`..`z` are their own fold. */
  function Fold(c: char): (f: char)
    ensures 'a' <= c <= 'z' ==> 'A' <= f <= 'Z' && f as int == c as int - 32
    ensures !('a' <= c <= 'z') ==> f == c
    ensures !('a' <= f <= 'z')
  {
    if 'a' <= c <= 'z' then (c as int - 32) as char else c
  }

  /** `a.Equals(b, OrdinalIgnoreCase)`: same length, equal character by character after folding. */
  predicate EqualsIgnoreCase(a: string, b: string): (eq: bool)
    ensures a == b ==> eq
    ensures eq ==> |a| == |b|
  {
    |a| == |b| && forall i :: 0 <= i < |a| ==> Fold(a[i]) == Fold(b[i])
  }

  /** `s.Contains(t, OrdinalIgnoreCase)`: some window of `s` equals `t` ignoring case. */
  predicate ContainsIgnoreCase(s: string, t: string): (c: bool)
    ensures c ==> |t| <= |s|
  {
    exists i | 0 <= i <= |s| - |t| :: MatchesAt(s, t, i)
  }

  /** `t` occurs in `s` at offset `i`, ignoring case. */
  predicate MatchesAt(s: string, t: string, i: int) {
    0 <= i <= |s| - |t| && EqualsIgnoreCase(s[i..i + |t|], t)
  }

  /** The empty term occurs in every string. */
  lemma EmptyContained(s: string)
    ensures ContainsIgnoreCase(s, "")
  {
    assert MatchesAt(s, "", 0);
  }

  /** Every string contains itself; matching is case-blind in the term. */
  lemma ContainsSelfAnyCase(s: string, t: string)
    requires EqualsIgnoreCase(s, t)
    ensures ContainsIgnoreCase(s, t)
  {
    assert s[0..|t|] == s;
    assert MatchesAt(s, t, 0);
  }
}
