/** What it means for a stretch of an array to be sorted and rearranged. */
module SortSpec {

  /** `cmp` says negative, zero or positive, consistently with one total preorder. */
  ghost predicate Comparison<T(!new)>(cmp: (T, T) -> int) {
    && (forall x: T, y: T :: cmp(x, y) < 0 <==> cmp(y, x) > 0)
    && (forall x: T, y: T, z: T :: cmp(x, y) <= 0 && cmp(y, z) <= 0 ==> cmp(x, z) <= 0)
  }

  ghost predicate Sorted<T(!new)>(s: seq<T>, lo: int, hi: int, cmp: (T, T) -> int)
    requires 0 <= lo <= hi <= |s|
  {
    forall i, j :: lo <= i < j < hi ==> cmp(s[i], s[j]) <= 0
  }

  /** From s to t, places lo to hi were permuted and all others kept. */
  ghost predicate Rearranged<T>(s: seq<T>, t: seq<T>, lo: int, hi: int) {
    && |s| == |t| && 0 <= lo <= hi <= |s| && s[..lo] == t[..lo] && s[hi..] == t[hi..]
    && multiset(s[lo..hi]) == multiset(t[lo..hi])
  }

  lemma Unchanged<T>(s: seq<T>, lo: int, hi: int)
    requires 0 <= lo <= hi <= |s|
    ensures Rearranged(s, s, lo, hi)
  {
  }

  lemma Chain<T>(s: seq<T>, t: seq<T>, u: seq<T>, lo: int, hi: int)
    requires Rearranged(s, t, lo, hi) && Rearranged(t, u, lo, hi)
    ensures Rearranged(s, u, lo, hi)
  {
  }

  /** Widening the stretch. */
  lemma Widen<T>(s: seq<T>, t: seq<T>, lo: int, hi: int, lo': int, hi': int)
    requires Rearranged(s, t, lo, hi) && 0 <= lo' <= lo && hi <= hi' <= |s|
    ensures Rearranged(s, t, lo', hi')
  {
    assert s[..lo'] == s[..lo][..lo'] && t[..lo'] == t[..lo][..lo'];
    assert s[hi'..] == s[hi..][hi' - hi..] && t[hi'..] == t[hi..][hi' - hi..];
    assert s[lo'..hi'] == s[..lo][lo'..] + s[lo..hi] + s[hi..][..hi' - hi];
    assert t[lo'..hi'] == t[..lo][lo'..] + t[lo..hi] + t[hi..][..hi' - hi];
  }

  function Swapped<T>(s: seq<T>, i: int, j: int): (t: seq<T>)
    requires 0 <= i < |s| && 0 <= j < |s|
  {
    s[i := s[j]][j := s[i]]
  }

  /** One more swap inside the stretch. */
  lemma SwapRearranges<T>(s0: seq<T>, s: seq<T>, i: int, j: int, lo: int, hi: int)
    requires Rearranged(s0, s, lo, hi) && lo <= i < hi && lo <= j < hi
    ensures Rearranged(s0, Swapped(s, i, j), lo, hi)
  {
    var x := s[lo..hi];
    assert Swapped(s, i, j)[lo..hi] == x[i - lo := x[j - lo]][j - lo := x[i - lo]];
  }

  /** Whatever stood in the stretch of t stood in that of s. */
  lemma Kept<T>(s: seq<T>, t: seq<T>, lo: int, hi: int, j: int) returns (i: int)
    requires Rearranged(s, t, lo, hi) && lo <= j < hi
    ensures lo <= i < hi && s[i] == t[j]
  {
    assert t[lo..hi][j - lo] in multiset(s[lo..hi]);
    var k :| 0 <= k < |s[lo..hi]| && s[lo..hi][k] == t[j];
    i := lo + k;
  }
}
