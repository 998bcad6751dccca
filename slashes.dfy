/**
 * The two private helpers of `PathBuilder`: `Trim`, which collapses runs of
 * the separator, and `TerminateWithSlash`, which marks directories.
 */
module Slashes {
  import opened PathExtension

  /**
   * No two neighbouring characters of `s` are both `chr`. The second index
   * `j` stands for `i + 1` so that `s[j]` can serve as a trigger; the form
   * with `s[i + 1]` lets the solver instantiate the quantifier endlessly.
   */
  ghost predicate NoDoubled(s: string, chr: char) {
    forall i, j :: 0 <= i < j < |s| && j == i + 1 ==> !(s[i] == chr && s[j] == chr)
  }

  /** `s` with every `chr` deleted. */
  function RemoveAll(s: string, chr: char): (r: string)
    ensures chr !in r
    ensures forall c :: c != chr ==> multiset(r)[c] == multiset(s)[c]
    decreases |s|
  {
    if |s| == 0 then []
    else
      assert s == s[..|s| - 1] + [s[|s| - 1]];
      RemoveAll(s[..|s| - 1], chr) + (if s[|s| - 1] == chr then [] else [s[|s| - 1]])
  }

  /**
   * What `Trim` computes, read from the end of the string: a `chr` that
   * follows another `chr` is dropped, every other character is kept.
   */
  function Collapse(s: string, chr: char): (r: string)
    ensures |r| <= |s|
    ensures |s| > 0 ==> |r| > 0 && r[|r| - 1] == s[|s| - 1]
    decreases |s|
  {
    if |s| == 0 then []
    else if |s| >= 2 && s[|s| - 1] == chr && s[|s| - 2] == chr then Collapse(s[..|s| - 1], chr)
    else Collapse(s[..|s| - 1], chr) + [s[|s| - 1]]
  }

  /**
   * `Trim(str, chr)`: one left-to-right scan that copies a `chr` only when
   * the previous character was not one.
   */
  method Trim(str: string, chr: char) returns (result: string)
    ensures result == Collapse(str, chr)
  {
    result := "";
    var lastWasChr := false;
    for i := 0 to |str|
      invariant result == Collapse(str[..i], chr)
      invariant lastWasChr == (i > 0 && str[i - 1] == chr)
    {
      var c := str[i];
      assert str[..i + 1][..i] == str[..i];
      if c == chr && lastWasChr == false {
        result := result + [c];
        lastWasChr := true;
      } else if c == chr && lastWasChr == true {
        continue;
      } else {
        result := result + [c];
        lastWasChr := false;
      }
    }
    assert str[..|str|] == str;
  }

  /** `Collapse` of a string extended by one character, in terms of the string. */
  lemma CollapseSnoc(x: string, c: char, chr: char)
    ensures Collapse(x + [c], chr) ==
      if |x| > 0 && c == chr && x[|x| - 1] == chr then Collapse(x, chr) else Collapse(x, chr) + [c]
  {
    assert (x + [c])[..|x|] == x;
  }

  /** `RemoveAll` of a string extended by one character, in terms of the string. */
  lemma RemoveAllSnoc(x: string, c: char, chr: char)
    ensures RemoveAll(x + [c], chr) == RemoveAll(x, chr) + (if c == chr then [] else [c])
  {
    assert (x + [c])[..|x|] == x;
  }

  /** After collapsing, no two `chr` are adjacent. */
  lemma {:induction false} CollapseNoDoubled(s: string, chr: char)
    ensures NoDoubled(Collapse(s, chr), chr)
    decreases |s|
  {
    if |s| > 0 {
      CollapseNoDoubled(s[..|s| - 1], chr);
    }
  }

  /** Collapsing changes nothing but the separators: the other characters stay, in order. */
  lemma {:induction false} CollapseKeepsOthers(s: string, chr: char)
    ensures RemoveAll(Collapse(s, chr), chr) == RemoveAll(s, chr)
    decreases |s|
  {
    if |s| > 0 {
      var x, c := s[..|s| - 1], s[|s| - 1];
      assert s == x + [c];
      CollapseKeepsOthers(x, chr);
      CollapseSnoc(x, c, chr);
      RemoveAllSnoc(x, c, chr);
      RemoveAllSnoc(Collapse(x, chr), c, chr);
    }
  }

  /** A string without doubled `chr` is returned unchanged. */
  lemma {:induction false} CollapseFixesNoDoubled(s: string, chr: char)
    requires NoDoubled(s, chr)
    ensures Collapse(s, chr) == s
    decreases |s|
  {
    if |s| > 0 {
      var s' := s[..|s| - 1];
      assert NoDoubled(s', chr);
      CollapseFixesNoDoubled(s', chr);
      assert s' + [s[|s| - 1]] == s;
    }
  }

  /** Collapsing twice is collapsing once. */
  lemma CollapseIdempotent(s: string, chr: char)
    ensures Collapse(Collapse(s, chr), chr) == Collapse(s, chr)
  {
    CollapseNoDoubled(s, chr);
    CollapseFixesNoDoubled(Collapse(s, chr), chr);
  }

  /** `k` copies of `chr` in a row. */
  function Run(chr: char, k: nat): (r: string)
    ensures |r| == k && forall i :: 0 <= i < k ==> r[i] == chr
  {
    seq(k, _ => chr)
  }

  /** A run of one or more `chr` becomes exactly one `chr`: never more, never dropped. */
  lemma {:induction false} CollapseRun(chr: char, k: nat)
    requires k >= 1
    ensures Collapse(Run(chr, k), chr) == [chr]
    decreases k
  {
    if k > 1 {
      assert Run(chr, k)[..k - 1] == Run(chr, k - 1);
      CollapseRun(chr, k - 1);
    }
  }

  /**
   * Collapsing works run by run: around any non-`chr` character the two
   * sides are collapsed separately. With `CollapseRun` this fixes `Collapse`
   * on every string.
   */
  lemma {:induction false} CollapseSplit(a: string, c: char, b: string, chr: char)
    requires c != chr
    ensures Collapse(a + [c] + b, chr) == Collapse(a, chr) + [c] + Collapse(b, chr)
    decreases |b|
  {
    if |b| == 0 {
      assert a + [c] + b == a + [c];
      CollapseSnoc(a, c, chr);
    } else {
      var b', d := b[..|b| - 1], b[|b| - 1];
      var x' := a + [c] + b';
      assert b == b' + [d];
      assert a + [c] + b == x' + [d];
      assert x'[|x'| - 1] == if |b'| > 0 then b'[|b'| - 1] else c;
      CollapseSplit(a, c, b', chr);
      CollapseSnoc(x', d, chr);
      CollapseSnoc(b', d, chr);
      if !(|b'| > 0 && d == chr && b'[|b'| - 1] == chr) {
        assert Collapse(a, chr) + [c] + Collapse(b', chr) + [d]
            == Collapse(a, chr) + [c] + (Collapse(b', chr) + [d]);
      }
    }
  }

  /**
   * With a stop character as `chr`, collapsing keeps an extension `q`: it
   * holds no `chr`, so it passes through unchanged behind the collapsed `a`.
   */
  lemma CollapseKeepsExtension(a: string, q: string, chr: char)
    requires IsStop(chr) && ExtensionStartsAt(q, 0)
    ensures ExtensionStartsAt(Collapse(a + q, chr), |Collapse(a, chr)|)
  {
    assert q[0] != chr && NoDoubled(q[1..], chr);
    CollapseBeforeUndoubled(a, q, chr);
    ExtensionStartsAtShift(Collapse(a, chr), q);
  }

  /** A tail that starts with another character and has no doubled `chr` is copied as it is. */
  lemma CollapseBeforeUndoubled(a: string, q: string, chr: char)
    requires |q| > 0 && q[0] != chr && NoDoubled(q[1..], chr)
    ensures Collapse(a + q, chr) == Collapse(a, chr) + q
  {
    var b := q[1..];
    assert a + q == a + [q[0]] + b;
    calc {
      Collapse(a + q, chr);
      Collapse(a + [q[0]] + b, chr);
      { CollapseSplit(a, q[0], b, chr); }
      Collapse(a, chr) + [q[0]] + Collapse(b, chr);
      { CollapseFixesNoDoubled(b, chr); }
      Collapse(a, chr) + [q[0]] + b;
      { assert [q[0]] + b == q; }
      Collapse(a, chr) + q;
    }
  }

  /** An extension keeps its place at the end of a string when text is put before it. */
  lemma ExtensionStartsAtShift(p: string, q: string)
    requires ExtensionStartsAt(q, 0)
    ensures ExtensionStartsAt(p + q, |p|)
  {
    var t := p + q;
    forall j | |p| < j < |t|
      ensures t[j] != '.' && !IsStop(t[j])
    {
      assert t[j] == q[j - |p|];
    }
  }

  /**
   * `TerminateWithSlash(str, slash)`: append `slash` unless `str` is empty,
   * has an extension, or already ends with `slash`.
   */
  function TerminateWithSlash(str: string, slash: char): (r: string)
    ensures r == str || r == str + [slash]
    ensures r == str <==> (|str| == 0 || Extension(str) != [] || str[|str| - 1] == slash)
  {
    if |str| <= 0 then str
    else if Extension(str) != [] then str
    else if str[|str| - 1] == slash then str
    else str + [slash]
  }

  /** Every result is empty, has an extension, or ends with `slash`. */
  lemma TerminatedShape(str: string, slash: char)
    ensures var r := TerminateWithSlash(str, slash);
      |r| == 0 || Extension(r) != [] || r[|r| - 1] == slash
  {
  }

  /** Terminating twice is terminating once. */
  lemma TerminateIdempotent(str: string, slash: char)
    ensures TerminateWithSlash(TerminateWithSlash(str, slash), slash) == TerminateWithSlash(str, slash)
  {
    TerminatedShape(str, slash);
  }

  /**
   * A string that is empty, has an extension or ends with `slash` stays
   * terminated after its `slash` runs are collapsed.
   */
  lemma TerminateAfterCollapse(y: string, slash: char)
    requires IsStop(slash)
    requires |y| == 0 || Extension(y) != [] || y[|y| - 1] == slash
    ensures TerminateWithSlash(Collapse(y, slash), slash) == Collapse(y, slash)
  {
    if |y| > 0 && Extension(y) != [] {
      CollapseKeepsHasExtension(y, slash);
    }
  }

  /** With a stop character as `chr`, a string with an extension keeps one after collapsing. */
  lemma CollapseKeepsHasExtension(y: string, chr: char)
    requires IsStop(chr) && Extension(y) != []
    ensures Extension(Collapse(y, chr)) != []
  {
    var k := |y| - |Extension(y)|;
    assert ExtensionStartsAt(y, k) by {
      ExtensionCharacterized(y);
    }
    var a, q := y[..k], y[k..];
    assert y == a + q;
    assert ExtensionStartsAt(q, 0);
    CollapseKeepsExtension(a, q, chr);
    ExtensionCharacterized(Collapse(y, chr));
  }
}
