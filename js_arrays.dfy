/**
 * The index arithmetic of JavaScript's `Array.prototype.slice` and `splice`,
 * which the editors use to insert and delete: a negative index counts from the
 * end, and every index is clamped into `0..length`.
 */
module JsArrays {

  /** How `slice` and `splice` normalise an index `i` against a length `n`. */
  function RelativeIndex(i: int, n: nat): (k: nat)
    ensures k <= n
    ensures 0 <= i <= n ==> k == i
    ensures i > n ==> k == n
    ensures i < 0 ==> k == if n + i < 0 then 0 else n + i
  {
    if i < 0 then (if n + i < 0 then 0 else n + i)
    else if i > n then n
    else i
  }

  /** `s` without its element at `k`. */
  function Delete<T>(s: seq<T>, k: nat): (r: seq<T>)
    requires k < |s|
    ensures |r| == |s| - 1
    ensures forall j :: 0 <= j < k ==> r[j] == s[j]
    ensures forall j :: k <= j < |r| ==> r[j] == s[j + 1]
    ensures multiset(r) + multiset{s[k]} == multiset(s)
  {
    assert s == s[..k] + [s[k]] + s[k+1..];
    s[..k] + s[k+1..]
  }

  /** `x` inserted between the two slices of `s` at `i` (JavaScript slice rules). */
  function InsertAt<T>(s: seq<T>, i: int, x: T): (r: seq<T>)
    ensures |r| == |s| + 1
    ensures r[RelativeIndex(i, |s|)] == x
    ensures forall j :: 0 <= j < RelativeIndex(i, |s|) ==> r[j] == s[j]
    ensures forall j :: RelativeIndex(i, |s|) <= j < |s| ==> r[j + 1] == s[j]
    ensures Delete(r, RelativeIndex(i, |s|)) == s
    ensures multiset(r) == multiset(s) + multiset{x}
  {
    var k := RelativeIndex(i, |s|);
    var r := s[..k] + [x] + s[k..];
    assert Delete(r, k) == s by {
      assert r[..k] == s[..k];
      assert r[k+1..] == s[k..];
      assert s == s[..k] + s[k..];
    }
    assert s == s[..k] + s[k..];
    r
  }

  /**
   * A copy of `s` after `splice(i, 1)`: deletes the element at the normalised
   * index, if any. A negative index counts back from the end and is clamped
   * at 0, so one below `-|s|` deletes the first element.
   */
  function SpliceOne<T>(s: seq<T>, i: int): (r: seq<T>)
    ensures 0 <= i < |s| ==> r == Delete(s, i)
    ensures i >= |s| ==> r == s
    ensures |s| == 0 ==> r == s
    ensures -|s| <= i < 0 ==> r == Delete(s, |s| + i)
    ensures |s| > 0 && i < -|s| ==> r == Delete(s, 0)
  {
    var k := RelativeIndex(i, |s|);
    if k < |s| then Delete(s, k) else s
  }
}
