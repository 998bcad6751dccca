/**
 * The fixed post-processing every builder applies to a path string:
 * normalise the separators, then terminate directories if asked to,
 * then collapse separator runs if asked to.
 */
module Pipeline {
  import opened Separators
  import opened PathExtension
  import opened Slashes

  /** Collapsing only deletes characters, so it never brings back a foreign separator. */
  lemma {:induction false} CollapseKeepsOnlySeparator(s: string, slash: char)
    requires OnlySeparator(s, slash)
    ensures OnlySeparator(Collapse(s, slash), slash)
    decreases |s|
  {
    if |s| > 0 {
      var x, c := s[..|s| - 1], s[|s| - 1];
      assert s == x + [c];
      assert OnlySeparator(x, slash);
      CollapseKeepsOnlySeparator(x, slash);
      CollapseSnoc(x, c, slash);
    }
  }

  /** Terminating appends at most the chosen separator itself. */
  lemma TerminateKeepsOnlySeparator(s: string, slash: char)
    requires OnlySeparator(s, slash)
    ensures OnlySeparator(TerminateWithSlash(s, slash), slash)
  {
    var t := TerminateWithSlash(s, slash);
    if t != s {
      forall i | 0 <= i < |t| && IsSlash(t[i])
        ensures t[i] == slash
      {
        if i < |s| {
          assert t[i] == s[i];
        }
      }
    }
  }

  /**
   * The body of `Format` and the tail of both `Create` methods: normalise,
   * then `TerminateWithSlash` if `terminate`, then `Trim` if `trim`.
   */
  function FormatString(s: string, slash: char, terminate: bool, trim: bool): (r: string)
    ensures OnlySeparator(r, slash)
    ensures trim ==> NoDoubled(r, slash)
    ensures !trim ==> r == Normalize(s, slash) || (terminate && r == Normalize(s, slash) + [slash])
  {
    var n := Normalize(s, slash);
    TerminateKeepsOnlySeparator(n, slash);
    var t := if terminate then TerminateWithSlash(n, slash) else n;
    CollapseKeepsOnlySeparator(t, slash);
    CollapseNoDoubled(t, slash);
    if trim then Collapse(t, slash) else t
  }

  /**
   * The preparation `Create` gives each of its input paths before resolving
   * them: normalise, then `TerminateWithSlash` if `terminate`.
   */
  function Prepare(s: string, slash: char, terminate: bool): (r: string)
    ensures OnlySeparator(r, slash)
    ensures r == Normalize(s, slash) || (terminate && r == Normalize(s, slash) + [slash])
  {
    var n := Normalize(s, slash);
    TerminateKeepsOnlySeparator(n, slash);
    if terminate then TerminateWithSlash(n, slash) else n
  }

  /** Formatting a formatted string changes nothing. */
  lemma FormatIdempotent(s: string, slash: char, terminate: bool, trim: bool)
    requires IsSlash(slash)
    ensures FormatString(FormatString(s, slash, terminate, trim), slash, terminate, trim)
         == FormatString(s, slash, terminate, trim)
  {
    var n := Normalize(s, slash);
    var t := if terminate then TerminateWithSlash(n, slash) else n;
    var x := FormatString(s, slash, terminate, trim);
    NormalizeFixesNormalized(x, slash);
    if terminate {
      TerminateIdempotent(n, slash);
      TerminatedShape(n, slash);
      if trim {
        TerminateAfterCollapse(t, slash);
      }
    }
    if trim {
      CollapseIdempotent(t, slash);
    }
  }

  /**
   * Formatting a prepared path gives what formatting the raw path gives, so
   * the preparation `Create` applies to its start is absorbed by the final
   * formatting.
   */
  lemma FormatAbsorbsPrepare(s: string, slash: char, terminate: bool, trim: bool)
    ensures FormatString(Prepare(s, slash, terminate), slash, terminate, trim)
         == FormatString(s, slash, terminate, trim)
  {
    var p := Prepare(s, slash, terminate);
    NormalizeFixesNormalized(p, slash);
    if terminate {
      TerminateIdempotent(Normalize(s, slash), slash);
    }
  }
}
