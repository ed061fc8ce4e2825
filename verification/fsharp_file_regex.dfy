/**
 * The regular expression `/\.(fs|fsi)$/` that the plugin uses to recognise
 * F# source and signature files. It has no `g` or `m` flag, so `$` anchors
 * at the end of the whole string and `test` carries no state between calls.
 * `Test` and `Replace` follow the regex engine: scan left to right for the
 * first index at which the pattern matches. The lemmas give the closed form:
 * only a trailing `.fs` / `.fsi` is ever recognised or rewritten.
 */
module FsharpFileRegex {
  import opened JsString

  /** The pattern matches at index `i`: a dot, `fs` or `fsi`, then the end of the string. */
  predicate MatchesAt(s: string, i: int) {
    0 <= i <= |s| && (s[i..] == ".fs" || s[i..] == ".fsi")
  }

  /** The leftmost index at or after `from` where the pattern matches, or -1. */
  function FirstMatchFrom(s: string, from: nat): (r: int)
    requires from <= |s|
    ensures r == -1 || (from <= r && MatchesAt(s, r))
    ensures r == -1 ==> forall i :: from <= i ==> !MatchesAt(s, i)
    ensures r != -1 ==> forall i :: from <= i < r ==> !MatchesAt(s, i)
    decreases |s| - from
  {
    if MatchesAt(s, from) then from
    else if from == |s| then -1
    else FirstMatchFrom(s, from + 1)
  }

  /** `fsharpFileRegex.test(s)`: the regex recognises exactly the strings that end in `.fs` or `.fsi`. */
  predicate Test(s: string)
    ensures Test(s) <==> (EndsWith(s, ".fs") || EndsWith(s, ".fsi"))
  {
    var i := FirstMatchFrom(s, 0);
    assert EndsWith(s, ".fs") ==> MatchesAt(s, |s| - 3);
    assert EndsWith(s, ".fsi") ==> MatchesAt(s, |s| - 4);
    if i == -1 then false else MatchPositions(s, i); true
  }

  /**
   * `s.replace(fsharpFileRegex, replacement)`: the leftmost match, which runs to the end, is
   * replaced, so only a trailing `.fs` / `.fsi` is rewritten and anything else is left alone.
   */
  function Replace(s: string, replacement: string): (r: string)
    ensures EndsWith(s, ".fs") ==> r == s[..|s| - 3] + replacement
    ensures EndsWith(s, ".fsi") ==> r == s[..|s| - 4] + replacement
    ensures !EndsWith(s, ".fs") && !EndsWith(s, ".fsi") ==> r == s
  {
    FsAndFsiDisjoint(s);
    var i := FirstMatchFrom(s, 0);
    assert EndsWith(s, ".fs") ==> MatchesAt(s, |s| - 3);
    assert EndsWith(s, ".fsi") ==> MatchesAt(s, |s| - 4);
    if i == -1 then s else MatchPositions(s, i); s[..i] + replacement
  }

  /** The trailing-extension rewrite the plugin applies everywhere: `.fs` / `.fsi` at the end becomes `.js`. */
  function ToJs(s: string): string {
    Replace(s, ".js")
  }

  /** A match can only sit three or four characters before the end. */
  lemma MatchPositions(s: string, i: int)
    requires MatchesAt(s, i)
    ensures (i == |s| - 3 && EndsWith(s, ".fs")) || (i == |s| - 4 && EndsWith(s, ".fsi"))
  {
  }

  /** Strings ending in `.fs` and in `.fsi` are disjoint: the last characters differ. */
  lemma FsAndFsiDisjoint(s: string)
    ensures !(EndsWith(s, ".fs") && EndsWith(s, ".fsi"))
  {
    assert EndsWith(s, ".fs") ==> s[|s| - 1] == ".fs"[2];
    assert EndsWith(s, ".fsi") ==> s[|s| - 1] == ".fsi"[3];
  }

  /** Rewriting an F# file name gives a `.js` name that the regex no longer recognises. */
  lemma ToJsLeavesFsharp(s: string)
    requires Test(s)
    ensures EndsWith(ToJs(s), ".js")
    ensures !Test(ToJs(s))
  {
    var r := ToJs(s);
    assert r[|r| - 3..] == ".js";
    FsAndFsiDisjoint(r);
  }
}
