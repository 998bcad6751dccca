/**
 * Separator normalisation: the pair of `Replace` calls that every builder
 * applies to every path string before doing anything else with it.
 */
module Separators {

  const ForwardSlash: char := '/'
  const Backslash: char := '\\'

  /** The two characters the builders recognise as path separators. */
  predicate IsSlash(c: char) {
    c == ForwardSlash || c == Backslash
  }

  /** `s.Replace(a, b)` for a single character: every `a` becomes `b`. */
  function ReplaceChar(s: string, a: char, b: char): (r: string)
    ensures |r| == |s|
    ensures forall i :: 0 <= i < |s| ==> r[i] == (if s[i] == a then b else s[i])
    decreases |s|
  {
    if |s| == 0 then []
    else ReplaceChar(s[..|s| - 1], a, b) + [if s[|s| - 1] == a then b else s[|s| - 1]]
  }

  /** Every separator character that occurs in `s` is `slash`. */
  predicate OnlySeparator(s: string, slash: char) {
    forall i :: 0 <= i < |s| && IsSlash(s[i]) ==> s[i] == slash
  }

  /**
   * `s.Replace('/', slash).Replace('\\', slash)`: every separator becomes
   * `slash`, every other character stays where it was.
   */
  function Normalize(s: string, slash: char): (r: string)
    ensures |r| == |s|
    ensures forall i :: 0 <= i < |s| && !IsSlash(s[i]) ==> r[i] == s[i]
    ensures forall i :: 0 <= i < |s| && IsSlash(s[i]) ==> r[i] == slash
    ensures OnlySeparator(r, slash)
  {
    ReplaceChar(ReplaceChar(s, ForwardSlash, slash), Backslash, slash)
  }

  /** A string that already uses only `slash` is left as it is. */
  lemma NormalizeFixesNormalized(s: string, slash: char)
    requires OnlySeparator(s, slash)
    ensures Normalize(s, slash) == s
  {
    var r := Normalize(s, slash);
    assert forall i :: 0 <= i < |s| ==> r[i] == s[i];
  }

  /** Normalising twice is normalising once. */
  lemma NormalizeIdempotent(s: string, slash: char)
    ensures Normalize(Normalize(s, slash), slash) == Normalize(s, slash)
  {
    NormalizeFixesNormalized(Normalize(s, slash), slash);
  }

  /** The separator that is not `slash`. */
  function OtherSeparator(slash: char): char {
    if slash == ForwardSlash then Backslash else ForwardSlash
  }

  /** With a separator as the chosen one, the other separator never survives. */
  lemma OnlySeparatorExcludesOther(s: string, slash: char)
    requires IsSlash(slash) && OnlySeparator(s, slash)
    ensures OtherSeparator(slash) !in s
    ensures slash == ForwardSlash ==> Backslash !in s
    ensures slash == Backslash ==> ForwardSlash !in s
  {
  }
}
