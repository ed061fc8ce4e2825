/**
 * The parts of JavaScript's `Array.prototype` that the plugin relies on:
 * `includes` is sequence membership, `indexOf` returns the first index or
 * -1, and `filter((f, idx) => idx >= k)` keeps the elements whose index is
 * at least `k`.
 */
module JsArray {

  /** `s.indexOf(x)`: the index of the first element equal to `x`, or -1. */
  function IndexOf<T(==)>(s: seq<T>, x: T): (r: int)
    ensures -1 <= r < |s|
    ensures r == -1 <==> x !in s
    ensures r != -1 ==> s[r] == x && x !in s[..r]
  {
    if |s| == 0 then -1
    else if s[0] == x then 0
    else
      var k := IndexOf(s[1..], x);
      if k == -1 then -1
      else
        assert s[..k + 1] == [s[0]] + s[1..][..k];
        k + 1
  }

  /**
   * The elements of `s` whose index, counted from `base`, is at least `k`,
   * in order: the callback `(f, idx) => idx >= k` applied with `idx`
   * running from `base`.
   */
  function KeepIndexAtLeast<T>(s: seq<T>, k: int, base: int): seq<T>
    decreases |s|
  {
    if |s| == 0 then []
    else (if base >= k then [s[0]] else []) + KeepIndexAtLeast(s[1..], k, base + 1)
  }

  /** `s.filter((f, idx) => idx >= k)` */
  function FilterIndexAtLeast<T>(s: seq<T>, k: int): seq<T> {
    KeepIndexAtLeast(s, k, 0)
  }

  lemma {:induction false} KeepIndexAtLeastIsSuffix<T>(s: seq<T>, k: int, base: int)
    ensures KeepIndexAtLeast(s, k, base) ==
              if k <= base then s else if k - base >= |s| then [] else s[k - base..]
    decreases |s|
  {
    if |s| > 0 {
      KeepIndexAtLeastIsSuffix(s[1..], k, base + 1);
      if k <= base {
        assert [s[0]] + s[1..] == s;
      } else if k - base < |s| {
        assert s[1..][k - base - 1..] == s[k - base..];
      }
    }
  }

  /**
   * Filtering by index keeps a suffix: the whole sequence for a negative
   * (or zero) bound, nothing past the end, and `s[k..]` in between.
   */
  lemma FilterIndexAtLeastIsSuffix<T>(s: seq<T>, k: int)
    ensures k <= 0 ==> FilterIndexAtLeast(s, k) == s
    ensures 0 <= k <= |s| ==> FilterIndexAtLeast(s, k) == s[k..]
    ensures k >= |s| ==> FilterIndexAtLeast(s, k) == []
  {
    KeepIndexAtLeastIsSuffix(s, k, 0);
  }
}
