/**
 * A small explicit model of `Path.GetExtension`, which `TerminateWithSlash`
 * uses to tell files from directories: scanning from the end, the first `.`
 * found before any `/`, `\` or `:` starts the extension, unless that `.` is
 * the last character of the string.
 */
module PathExtension {

  /** The characters at which the backward scan for a `.` stops. */
  predicate IsStop(c: char) {
    c == '/' || c == '\\' || c == ':'
  }

  /**
   * The backward scan over `s[..i]`: the index of the `.` it meets first,
   * or -1 when it meets a stop character or the start of the string first.
   */
  function ScanBack(s: string, i: nat): (k: int)
    requires i <= |s|
    ensures -1 <= k < i
    ensures k >= 0 ==> s[k] == '.' && forall j :: k < j < i ==> s[j] != '.' && !IsStop(s[j])
    decreases i
  {
    if i == 0 then -1
    else if s[i - 1] == '.' then i - 1
    else if IsStop(s[i - 1]) then -1
    else ScanBack(s, i - 1)
  }

  /**
   * `Path.GetExtension(s)`: the suffix from the `.` the backward scan finds,
   * or empty when it finds none or that `.` is the final character.
   */
  function Extension(s: string): (e: string)
    ensures e != [] ==> 2 <= |e| <= |s| && e == s[|s| - |e|..] && e[0] == '.'
  {
    var k := ScanBack(s, |s|);
    if k < 0 || k == |s| - 1 then [] else s[k..]
  }

  /** Position `k` of `s` holds the `.` that starts a non-empty extension. */
  predicate ExtensionStartsAt(s: string, k: int) {
    && 0 <= k < |s| - 1
    && s[k] == '.'
    && forall j :: k < j < |s| ==> s[j] != '.' && !IsStop(s[j])
  }

  /** The scan finds every `.` that has neither a `.` nor a stop character after it. */
  lemma {:induction false} ScanBackFinds(s: string, i: nat, k: int)
    requires 0 <= k < i <= |s| && s[k] == '.'
    requires forall j :: k < j < i ==> s[j] != '.' && !IsStop(s[j])
    ensures ScanBack(s, i) == k
    decreases i
  {
    if k < i - 1 {
      ScanBackFinds(s, i - 1, k);
    }
  }

  /**
   * The extension is non-empty exactly when some `.` that is not the final
   * character has neither a `.` nor a stop character after it, and then the
   * extension is the suffix starting at that `.`.
   */
  lemma ExtensionCharacterized(s: string)
    ensures Extension(s) != [] <==> exists k :: ExtensionStartsAt(s, k)
    ensures forall k :: ExtensionStartsAt(s, k) ==> Extension(s) == s[k..]
  {
    var e := Extension(s);
    if e != [] {
      assert ExtensionStartsAt(s, |s| - |e|);
    }
    forall k | ExtensionStartsAt(s, k)
      ensures Extension(s) == s[k..]
    {
      ScanBackFinds(s, |s|, k);
    }
  }
}
