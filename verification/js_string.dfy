/**
 * The parts of JavaScript's `String.prototype` that the plugin relies on,
 * over strings as sequences of characters: `startsWith`, `endsWith`,
 * `indexOf`, `replace` with a string pattern (first occurrence only) and
 * `trimEnd`.
 */
module JsString {

  /** `s.startsWith(prefix)` */
  predicate StartsWith(s: string, prefix: string) {
    |prefix| <= |s| && s[..|prefix|] == prefix
  }

  /** `s.endsWith(suffix)` */
  predicate EndsWith(s: string, suffix: string) {
    |suffix| <= |s| && s[|s| - |suffix|..] == suffix
  }

  /** `pattern` occurs in `s` starting at index `i`. */
  predicate OccursAt(s: string, pattern: string, i: int) {
    0 <= i && i + |pattern| <= |s| && s[i..i + |pattern|] == pattern
  }

  /** `s.indexOf(pattern, from)`: the first occurrence at or after `from`, or -1. */
  function IndexOfFrom(s: string, pattern: string, from: nat): (r: int)
    requires from <= |s|
    ensures r == -1 || (from <= r && OccursAt(s, pattern, r))
    ensures r == -1 ==> forall i :: from <= i ==> !OccursAt(s, pattern, i)
    ensures r != -1 ==> forall i :: from <= i < r ==> !OccursAt(s, pattern, i)
    decreases |s| - from
  {
    if from + |pattern| > |s| then -1
    else if s[from..from + |pattern|] == pattern then from
    else IndexOfFrom(s, pattern, from + 1)
  }

  /** `s.indexOf(pattern)`: the index of the first occurrence, or -1 when there is none. */
  function IndexOf(s: string, pattern: string): (r: int)
    ensures r == -1 <==> forall i :: !OccursAt(s, pattern, i)
    ensures r != -1 ==> OccursAt(s, pattern, r)
    ensures forall i :: 0 <= i < r ==> !OccursAt(s, pattern, i)
  {
    IndexOfFrom(s, pattern, 0)
  }

  /**
   * `s.replace(pattern, replacement)` with a string pattern: only the FIRST
   * occurrence is replaced. The replacements the plugin uses contain no `$`,
   * so JavaScript's replacement patterns play no part.
   */
  function ReplaceFirst(s: string, pattern: string, replacement: string): (r: string)
    ensures (forall i :: !OccursAt(s, pattern, i)) ==> r == s
    ensures forall i :: OccursAt(s, pattern, i) && (forall j :: 0 <= j < i ==> !OccursAt(s, pattern, j)) ==>
              r == s[..i] + replacement + s[i + |pattern|..]
  {
    var i := IndexOf(s, pattern);
    if i == -1 then s else s[..i] + replacement + s[i + |pattern|..]
  }

  /** The characters `trimEnd` removes: ECMAScript's WhiteSpace and LineTerminator. */
  predicate IsWhiteSpace(c: char) {
    || c in {'\t', '\n', '\U{000B}', '\U{000C}', '\r', ' ', '\U{00A0}', '\U{1680}'}
    || ('\U{2000}' <= c <= '\U{200A}')
    || c in {'\U{2028}', '\U{2029}', '\U{202F}', '\U{205F}', '\U{3000}', '\U{FEFF}'}
  }

  /** `s.trimEnd()`: the longest prefix of `s` after which only white space follows. */
  function TrimEnd(s: string): (r: string)
    ensures |r| <= |s| && r == s[..|r|]
    ensures forall i :: |r| <= i < |s| ==> IsWhiteSpace(s[i])
    ensures |r| == 0 || !IsWhiteSpace(r[|r| - 1])
  {
    if |s| > 0 && IsWhiteSpace(s[|s| - 1]) then TrimEnd(s[..|s| - 1]) else s
  }

  /** `trimEnd` is the identity on a string whose last character is not white space. */
  lemma TrimEndNoOp(s: string)
    requires |s| > 0 && !IsWhiteSpace(s[|s| - 1])
    ensures TrimEnd(s) == s
  {
  }

  /**
   * When the only occurrence of `pattern` is the one that ends `s`,
   * replacing the first occurrence rewrites exactly that suffix.
   */
  lemma ReplaceFirstOfSoleSuffix(s: string, pattern: string, replacement: string)
    ensures EndsWith(s, pattern) && (forall i :: 0 <= i < |s| - |pattern| ==> !OccursAt(s, pattern, i)) ==>
              ReplaceFirst(s, pattern, replacement) == s[..|s| - |pattern|] + replacement
  {
  }

  /** Only the first occurrence is replaced: a later occurrence survives. */
  lemma ReplaceFirstKeepsLaterOccurrence()
    ensures ReplaceFirst("a.js.js", ".js", ".fs") == "a.fs.js"
  {
    var s := "a.js.js";
    assert s[1..4] == ".js";
    assert s[0..3] != ".js" by { assert s[0..3][0] == 'a'; }
    assert IndexOfFrom(s, ".js", 0) == 1;
    assert s[..1] + ".fs" + s[4..] == "a.fs.js";
  }
}
