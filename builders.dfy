/**
 * The three fluent builders. Each keeps its options in mutable fields that
 * chained setters assign (every setter returns the builder itself); the
 * terminal `Format`/`Create` rewrites the input fields and returns the
 * post-processed result. The two library resolution calls are parameters:
 * `None` from one of them is the exception the library would throw.
 */
module PathBuilder {
  import opened Wrappers
  import opened Separators
  import opened Slashes
  import opened Pipeline

  /**
   * Folds the resolution step over `steps`, each step resolved against the
   * previous result; stops at the first step that fails.
   */
  function ResolveAll(resolveStep: (string, string) -> Option<string>, current: string, steps: seq<string>): (r: Option<string>)
    ensures steps == [] ==> r == Some(current)
    ensures |steps| > 0 && resolveStep(current, steps[0]).None? ==> r.None?
    decreases |steps|
  {
    if |steps| == 0 then Some(current)
    else
      match resolveStep(current, steps[0])
      case None => None
      case Some(next) => ResolveAll(resolveStep, next, steps[1..])
  }

  /** One more `GoTo` resolves that entry against what the earlier ones produced. */
  lemma {:induction false} ResolveAllSnoc(resolveStep: (string, string) -> Option<string>, current: string, steps: seq<string>, last: string)
    ensures ResolveAll(resolveStep, current, steps + [last]) ==
      match ResolveAll(resolveStep, current, steps)
      case None => None
      case Some(p) => resolveStep(p, last)
    decreases |steps|
  {
    if |steps| == 0 {
      assert ([] + [last])[1..] == [];
    } else {
      assert (steps + [last])[1..] == steps[1..] + [last];
      match resolveStep(current, steps[0])
      case None =>
      case Some(next) => ResolveAllSnoc(resolveStep, next, steps[1..], last);
    }
  }

  /**
   * The two `Replace` calls, then `TerminateWithSlash` if `terminate`: what
   * `Create` does to each of its input paths before resolving them.
   */
  method Convert(s: string, slash: char, terminate: bool) returns (conv: string)
    ensures conv == Prepare(s, slash, terminate)
    ensures OnlySeparator(conv, slash)
  {
    conv := ReplaceChar(s, ForwardSlash, slash);
    conv := ReplaceChar(conv, Backslash, slash);
    if terminate {
      conv := TerminateWithSlash(conv, slash);
    }
  }

  /**
   * The `foreach` that builds `convertedGoTo`: every entry converted on its
   * own, in the same order.
   */
  method ConvertAll(entries: seq<string>, slash: char, terminate: bool) returns (converted: seq<string>)
    ensures |converted| == |entries|
    ensures forall i :: 0 <= i < |entries| ==> converted[i] == Prepare(entries[i], slash, terminate)
  {
    converted := [];
    for i := 0 to |entries|
      invariant |converted| == i
      invariant forall j :: 0 <= j < i ==> converted[j] == Prepare(entries[j], slash, terminate)
    {
      var conv := Convert(entries[i], slash, terminate);
      converted := converted + [conv];
    }
  }

  /**
   * The two `Replace` calls, then `TerminateWithSlash` if `terminate`, then
   * `Trim` if `trim`: the tail of `Format` and of both `Create` methods.
   */
  method PostProcess(s: string, slash: char, terminate: bool, trim: bool) returns (result: string)
    ensures result == FormatString(s, slash, terminate, trim)
    ensures OnlySeparator(result, slash)
    ensures trim ==> NoDoubled(result, slash)
  {
    result := ReplaceChar(s, ForwardSlash, slash);
    result := ReplaceChar(result, Backslash, slash);
    if terminate {
      result := TerminateWithSlash(result, slash);
    }
    if trim {
      result := Trim(result, slash);
    }
  }

  /**
   * The `foreach` over the converted entries: each entry is resolved
   * against the previous result, starting from `start`.
   */
  method Fold(resolveStep: (string, string) -> Option<string>, start: string, steps: seq<string>)
    returns (r: Option<string>)
    ensures r == ResolveAll(resolveStep, start, steps)
    ensures steps == [] ==> r == Some(start)
  {
    var result := start;
    for i := 0 to |steps|
      invariant ResolveAll(resolveStep, start, steps) == ResolveAll(resolveStep, result, steps[i..])
    {
      assert steps[i..][1..] == steps[i + 1..];
      var next := resolveStep(result, steps[i]);
      if next.None? {
        return None;
      }
      result := next.value;
    }
    assert steps[|steps|..] == [];
    r := Some(result);
  }

  class FormatPathBuilder {
    var path: string
    var slash: char
    var terminateDirsWithSlash: bool
    var trimSlashes: bool

    /** The separator is always one of the two path separators. */
    ghost predicate Valid()
      reads this
    {
      IsSlash(slash)
    }

    constructor (str: string)
      ensures Valid()
      ensures path == str && slash == ForwardSlash && !terminateDirsWithSlash && !trimSlashes
    {
      path := str;
      slash := ForwardSlash;
      terminateDirsWithSlash := false;
      trimSlashes := false;
    }

    method UseBackslashes() returns (self: FormatPathBuilder)
      modifies this`slash
      ensures self == this && slash == Backslash && Valid()
    {
      slash := Backslash;
      self := this;
    }

    method UseForwardslashes() returns (self: FormatPathBuilder)
      modifies this`slash
      ensures self == this && slash == ForwardSlash && Valid()
    {
      slash := ForwardSlash;
      self := this;
    }

    method TerminateDirsWithSlash() returns (self: FormatPathBuilder)
      modifies this`terminateDirsWithSlash
      ensures self == this && terminateDirsWithSlash
    {
      terminateDirsWithSlash := true;
      self := this;
    }

    method TrimSlashes() returns (self: FormatPathBuilder)
      modifies this`trimSlashes
      ensures self == this && trimSlashes
    {
      trimSlashes := true;
      self := this;
    }

    /** Formats `path` in place and returns it. */
    method Format() returns (r: string)
      requires Valid()
      modifies this`path
      ensures r == path == FormatString(old(path), slash, terminateDirsWithSlash, trimSlashes)
      ensures OnlySeparator(r, slash) && OtherSeparator(slash) !in r
    {
      path := PostProcess(path, slash, terminateDirsWithSlash, trimSlashes);
      r := path;
      OnlySeparatorExcludesOther(r, slash);
    }
  }

  /** Because `Format` stores its result in `path`, a second call returns the same string. */
  method FormatTwice(b: FormatPathBuilder) returns (first: string, second: string)
    requires b.Valid()
    modifies b`path
    ensures first == second == FormatString(old(b.path), b.slash, b.terminateDirsWithSlash, b.trimSlashes)
  {
    first := b.Format();
    second := b.Format();
    FormatIdempotent(old(b.path), b.slash, b.terminateDirsWithSlash, b.trimSlashes);
  }

  class RelativePathBuilder {
    var from: string
    var to: string
    var slash: char
    var terminateDirsWithSlash: bool
    var trimSlashes: bool

    /** The separator is always one of the two path separators. */
    ghost predicate Valid()
      reads this
    {
      IsSlash(slash)
    }

    constructor ()
      ensures Valid()
      ensures from == "" && to == "" && slash == ForwardSlash && !terminateDirsWithSlash && !trimSlashes
    {
      from := "";
      to := "";
      slash := ForwardSlash;
      terminateDirsWithSlash := false;
      trimSlashes := false;
    }

    method From(path: string) returns (self: RelativePathBuilder)
      modifies this`from
      ensures self == this && from == path
    {
      from := path;
      self := this;
    }

    method To(path: string) returns (self: RelativePathBuilder)
      modifies this`to
      ensures self == this && to == path
    {
      to := path;
      self := this;
    }

    method UseBackslashes() returns (self: RelativePathBuilder)
      modifies this`slash
      ensures self == this && slash == Backslash && Valid()
    {
      slash := Backslash;
      self := this;
    }

    method UseForwardslashes() returns (self: RelativePathBuilder)
      modifies this`slash
      ensures self == this && slash == ForwardSlash && Valid()
    {
      slash := ForwardSlash;
      self := this;
    }

    method TerminateDirsWithSlash() returns (self: RelativePathBuilder)
      modifies this`terminateDirsWithSlash
      ensures self == this && terminateDirsWithSlash
    {
      terminateDirsWithSlash := true;
      self := this;
    }

    method TrimSlashes() returns (self: RelativePathBuilder)
      modifies this`trimSlashes
      ensures self == this && trimSlashes
    {
      trimSlashes := true;
      self := this;
    }

    /**
     * Prepares `from` and `to` in place, asks `makeRelativeUri` for the
     * relative path between them and post-processes its answer.
     */
    method Create(makeRelativeUri: (string, string) -> Option<string>) returns (r: Option<string>)
      requires Valid()
      modifies this`from, this`to
      ensures from == Prepare(old(from), slash, terminateDirsWithSlash)
      ensures to == Prepare(old(to), slash, terminateDirsWithSlash)
      ensures r == match makeRelativeUri(from, to)
                   case None => None
                   case Some(u) => Some(FormatString(u, slash, terminateDirsWithSlash, trimSlashes))
      ensures r.Some? ==> OnlySeparator(r.value, slash) && OtherSeparator(slash) !in r.value
    {
      from := Convert(from, slash, terminateDirsWithSlash);
      to := Convert(to, slash, terminateDirsWithSlash);

      var uri := makeRelativeUri(from, to);
      if uri.None? {
        return None;
      }
      var result := PostProcess(uri.value, slash, terminateDirsWithSlash, trimSlashes);
      OnlySeparatorExcludesOther(result, slash);
      r := Some(result);
    }
  }

  class AbsolutePathBuilder {
    var start: string
    var goTo: seq<string>
    var slash: char
    var terminateDirsWithSlash: bool
    var trimSlashes: bool

    /** The separator is always one of the two path separators. */
    ghost predicate Valid()
      reads this
    {
      IsSlash(slash)
    }

    constructor ()
      ensures Valid()
      ensures start == "" && goTo == [] && slash == ForwardSlash && !terminateDirsWithSlash && !trimSlashes
    {
      start := "";
      goTo := [];
      slash := ForwardSlash;
      terminateDirsWithSlash := false;
      trimSlashes := false;
    }

    method StartAt(path: string) returns (self: AbsolutePathBuilder)
      modifies this`start
      ensures self == this && start == path
    {
      start := path;
      self := this;
    }

    method GoTo(path: string) returns (self: AbsolutePathBuilder)
      modifies this`goTo
      ensures self == this && goTo == old(goTo) + [path]
    {
      goTo := goTo + [path];
      self := this;
    }

    method UseBackslashes() returns (self: AbsolutePathBuilder)
      modifies this`slash
      ensures self == this && slash == Backslash && Valid()
    {
      slash := Backslash;
      self := this;
    }

    method UseForwardslashes() returns (self: AbsolutePathBuilder)
      modifies this`slash
      ensures self == this && slash == ForwardSlash && Valid()
    {
      slash := ForwardSlash;
      self := this;
    }

    method TerminateDirsWithSlash() returns (self: AbsolutePathBuilder)
      modifies this`terminateDirsWithSlash
      ensures self == this && terminateDirsWithSlash
    {
      terminateDirsWithSlash := true;
      self := this;
    }

    method TrimSlashes() returns (self: AbsolutePathBuilder)
      modifies this`trimSlashes
      ensures self == this && trimSlashes
    {
      trimSlashes := true;
      self := this;
    }

    /**
     * Prepares `start` and every `goTo` entry in place, folds
     * `resolveStep` over the entries starting from `start`, and
     * post-processes the final path.
     */
    method Create(resolveStep: (string, string) -> Option<string>) returns (r: Option<string>)
      requires Valid()
      modifies this`start, this`goTo
      ensures start == Prepare(old(start), slash, terminateDirsWithSlash)
      ensures |goTo| == |old(goTo)|
      ensures forall i :: 0 <= i < |goTo| ==> goTo[i] == Prepare(old(goTo)[i], slash, terminateDirsWithSlash)
      ensures r == match ResolveAll(resolveStep, start, goTo)
                   case None => None
                   case Some(p) => Some(FormatString(p, slash, terminateDirsWithSlash, trimSlashes))
      ensures r.Some? ==> OnlySeparator(r.value, slash) && OtherSeparator(slash) !in r.value
      ensures old(goTo) == [] ==> r == Some(FormatString(old(start), slash, terminateDirsWithSlash, trimSlashes))
    {
      start := Convert(start, slash, terminateDirsWithSlash);
      assert start == Prepare(old(start), slash, terminateDirsWithSlash);

      goTo := ConvertAll(goTo, slash, terminateDirsWithSlash);

      var resolved := Fold(resolveStep, start, goTo);
      if resolved.None? {
        return None;
      }
      var result := PostProcess(resolved.value, slash, terminateDirsWithSlash, trimSlashes);
      OnlySeparatorExcludesOther(result, slash);
      r := Some(result);
      if old(goTo) == [] {
        FormatAbsorbsPrepare(old(start), slash, terminateDirsWithSlash, trimSlashes);
      }
    }
  }
}
