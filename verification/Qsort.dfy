/** Bentley and McIlroy's quicksort: equal keys collected at both ends of the stretch, then swapped into the middle. */
module Qsort {
  import opened SortSpec

  method Swap<T>(a: array<T>, i: int, j: int)
    requires 0 <= i < a.Length && 0 <= j < a.Length
    modifies a
    ensures a[..] == Swapped(old(a[..]), i, j)
  {
    var t := a[i];
    a[i] := a[j];
    a[j] := t;
  }

  /** Blocks of n elements at i and j exchanged. */
  ghost predicate Exchanged<T>(s: seq<T>, t: seq<T>, i: int, j: int, n: int)
    requires 0 <= n && 0 <= i && i + n <= j && j + n <= |s|
  {
    && |t| == |s|
    && (forall k :: i <= k < i + n ==> t[k] == s[k + (j - i)])
    && (forall k :: j <= k < j + n ==> t[k] == s[k - (j - i)])
    && (forall k :: 0 <= k < |s| && !(i <= k < i + n) && !(j <= k < j + n) ==> t[k] == s[k])
  }

  lemma ExchangedNone<T>(s: seq<T>, i: int, j: int)
    requires 0 <= i <= j <= |s|
    ensures Exchanged(s, s, i, j, 0)
  {
  }

  lemma ExchangedMore<T>(s: seq<T>, t: seq<T>, i: int, j: int, n: int)
    requires 0 <= n && 0 <= i && i + n < j && j + n < |s| && Exchanged(s, t, i, j, n)
    ensures Exchanged(s, Swapped(t, i + n, j + n), i, j, n + 1)
  {
  }

  /** `vecswap` */
  method VecSwap<T>(a: array<T>, i: int, j: int, n: int)
    requires 0 <= n && 0 <= i && i + n <= j && j + n <= a.Length
    modifies a
    ensures Exchanged(old(a[..]), a[..], i, j, n)
    ensures Rearranged(old(a[..]), a[..], i, j + n)
  {
    hide Rearranged, Exchanged, Swapped;
    Unchanged(a[..], i, j + n);
    ExchangedNone(a[..], i, j);
    var k := 0;
    while k < n
      invariant 0 <= k <= n && Exchanged(old(a[..]), a[..], i, j, k)
      invariant Rearranged(old(a[..]), a[..], i, j + n)
    {
      SwapRearranges(old(a[..]), a[..], i + k, j + k, i, j + n);
      ExchangedMore(old(a[..]), a[..], i, j, k);
      Swap(a, i + k, j + k);
      k := k + 1;
    }
  }

  ghost predicate Between<T(!new)>(x: T, y: T, z: T, cmp: (T, T) -> int) {
    (cmp(x, y) <= 0 && cmp(y, z) <= 0) || (cmp(z, y) <= 0 && cmp(y, x) <= 0)
  }

  /** `med3`: the middle one of three places. */
  function Med3<T(!new)>(s: seq<T>, x: int, y: int, z: int, cmp: (T, T) -> int): (m: int)
    requires 0 <= x < |s| && 0 <= y < |s| && 0 <= z < |s| && Comparison(cmp)
    ensures
      || (m == x && Between(s[y], s[x], s[z], cmp))
      || (m == y && Between(s[x], s[y], s[z], cmp))
      || (m == z && Between(s[x], s[z], s[y], cmp))
  {
    if cmp(s[x], s[y]) < 0 then
      if cmp(s[y], s[z]) < 0 then y else if cmp(s[x], s[z]) < 0 then z else x
    else
      if cmp(s[y], s[z]) > 0 then y else if cmp(s[x], s[z]) < 0 then x else z
  }

  /** While element pl sinks, all pairs but those it is the upper one of are in order. */
  ghost predicate Sinking<T(!new)>(s: seq<T>, lo: int, pl: int, pm: int, cmp: (T, T) -> int) {
    && 0 <= lo <= pl <= pm < |s|
    && forall i, j :: lo <= i < j <= pm && j != pl ==> cmp(s[i], s[j]) <= 0
  }

  lemma Sink<T(!new)>(s: seq<T>, lo: int, pl: int, pm: int, cmp: (T, T) -> int)
    requires Comparison(cmp) && Sinking(s, lo, pl, pm, cmp) && pl > lo && cmp(s[pl - 1], s[pl]) > 0
    ensures Sinking(Swapped(s, pl, pl - 1), lo, pl - 1, pm, cmp)
  {
    var t := Swapped(s, pl, pl - 1);
    forall i, j | lo <= i < j <= pm && j != pl - 1 ensures cmp(t[i], t[j]) <= 0 {
      if j == pl {
        assert i != pl - 1 ==> cmp(s[i], s[pl - 1]) <= 0;
      }
    }
  }

  lemma Settled<T(!new)>(s: seq<T>, lo: int, pl: int, pm: int, cmp: (T, T) -> int)
    requires Comparison(cmp) && Sinking(s, lo, pl, pm, cmp) && (pl > lo ==> cmp(s[pl - 1], s[pl]) <= 0)
    ensures Sorted(s, lo, pm + 1, cmp)
  {
    forall i, j | lo <= i < j < pm + 1 ensures cmp(s[i], s[j]) <= 0 {
      if j == pl && i < pl - 1 { assert cmp(s[i], s[pl - 1]) <= 0; }
    }
  }

  lemma SinkingStart<T(!new)>(s: seq<T>, lo: int, pm: int, cmp: (T, T) -> int)
    requires 0 <= lo <= pm < |s| && Sorted(s, lo, pm, cmp)
    ensures Sinking(s, lo, pm, pm, cmp)
  {
  }

  /** Element pm goes down past the larger ones before it. */
  method SinkDown<T(!new)>(a: array<T>, lo: int, hi: int, pm: int, cmp: (T, T) -> int)
    requires 0 <= lo <= pm < hi <= a.Length && Comparison(cmp) && Sorted(a[..], lo, pm, cmp)
    modifies a
    ensures Sorted(a[..], lo, pm + 1, cmp) && Rearranged(old(a[..]), a[..], lo, hi)
  {
    hide Comparison, Rearranged, Sinking, Sorted, Swapped;
    Unchanged(a[..], lo, hi);
    SinkingStart(a[..], lo, pm, cmp);
    var pl := pm;
    while pl > lo && cmp(a[pl - 1], a[pl]) > 0
      invariant lo <= pl <= pm && Rearranged(old(a[..]), a[..], lo, hi) && Sinking(a[..], lo, pl, pm, cmp)
    {
      Sink(a[..], lo, pl, pm, cmp);
      SwapRearranges(old(a[..]), a[..], pl, pl - 1, lo, hi);
      Swap(a, pl, pl - 1);
      pl := pl - 1;
    }
    Settled(a[..], lo, pl, pm, cmp);
  }

  /** Insertion sort, by swapping neighbours. */
  method InsertionSort<T(!new)>(a: array<T>, lo: int, hi: int, cmp: (T, T) -> int)
    requires 0 <= lo <= hi <= a.Length && Comparison(cmp)
    modifies a
    ensures Sorted(a[..], lo, hi, cmp) && Rearranged(old(a[..]), a[..], lo, hi)
  {
    assert lo < hi ==> Sorted(a[..], lo, lo + 1, cmp);
    assert lo == hi ==> Sorted(a[..], lo, hi, cmp);
    Unchanged(a[..], lo, hi);
    var pm := lo + 1;
    while pm < hi
      invariant lo + 1 <= pm && (pm <= hi || hi == lo)
      invariant Sorted(a[..], lo, Min(pm, hi), cmp) && Rearranged(old(a[..]), a[..], lo, hi)
    {
      ghost var s := a[..];
      SinkDown(a, lo, hi, pm, cmp);
      Chain(old(a[..]), s, a[..], lo, hi);
      pm := pm + 1;
    }
  }

  /** The pivot's place: the middle for 7 elements, the median of three up to 40, a median of medians above. */
  method ChoosePivot<T(!new)>(a: array<T>, lo: int, n: int, cmp: (T, T) -> int) returns (pm: int)
    requires 7 <= n && 0 <= lo && lo + n <= a.Length && Comparison(cmp)
    ensures lo <= pm < lo + n
  {
    hide Comparison, Between;
    pm := lo + n / 2;
    if n > 7 {
      var pl, pn := lo, lo + (n - 1);
      if n > 40 {
        var d := n / 8;
        pl := Med3(a[..], pl, pl + d, pl + 2 * d, cmp);
        pm := Med3(a[..], pm - d, pm, pm + d, cmp);
        pn := Med3(a[..], pn - 2 * d, pn - d, pn, cmp);
      }
      pm := Med3(a[..], pl, pm, pn, cmp);
    }
  }

  /** Equal, smaller, not looked at, larger, equal: the five parts while partitioning around the first element. */
  ghost predicate Parts<T(!new)>(s: seq<T>, lo: int, hi: int, pa: int, pb: int, pc: int, pd: int, cmp: (T, T) -> int) {
    && 0 <= lo < pa <= pb <= pc + 1 <= pd + 1 <= hi <= |s|
    && (forall k :: lo <= k < pa ==> cmp(s[k], s[lo]) == 0)
    && (forall k :: pa <= k < pb ==> cmp(s[k], s[lo]) < 0)
    && (forall k :: pc < k <= pd ==> cmp(s[k], s[lo]) > 0)
    && (forall k :: pd < k < hi ==> cmp(s[k], s[lo]) == 0)
  }

  lemma Equal<T(!new)>(s: seq<T>, lo: int, hi: int, pa: int, pb: int, pc: int, pd: int, cmp: (T, T) -> int)
    requires Parts(s, lo, hi, pa, pb, pc, pd, cmp) && pb <= pc
    ensures cmp(s[pb], s[lo]) == 0 ==> Parts(Swapped(s, pa, pb), lo, hi, pa + 1, pb + 1, pc, pd, cmp)
    ensures cmp(s[pc], s[lo]) == 0 ==> Parts(Swapped(s, pc, pd), lo, hi, pa, pb, pc - 1, pd - 1, cmp)
  {
  }

  /** Passes over elements up to the pivot, moving equal ones to the lower end. */
  method ScanUp<T(!new)>(a: array<T>, lo: int, hi: int, pa0: int, pb0: int, pc: int, pd: int, cnt: int,
      cmp: (T, T) -> int)
    returns (pa: int, pb: int, swap_cnt: int)
    requires Parts(a[..], lo, hi, pa0, pb0, pc, pd, cmp)
    modifies a
    ensures Parts(a[..], lo, hi, pa, pb, pc, pd, cmp) && Rearranged(old(a[..]), a[..], lo, hi)
    ensures pb >= pb0 && (pb <= pc ==> cmp(a[..][pb], a[..][lo]) > 0)
  {
    pa, pb, swap_cnt := pa0, pb0, cnt;
    while pb <= pc && cmp(a[pb], a[lo]) <= 0
      invariant Parts(a[..], lo, hi, pa, pb, pc, pd, cmp) && Rearranged(old(a[..]), a[..], lo, hi) && pb >= pb0
    {
      hide Rearranged;
      if cmp(a[pb], a[lo]) == 0 {
        swap_cnt := 1;
        Equal(a[..], lo, hi, pa, pb, pc, pd, cmp);
        SwapRearranges(old(a[..]), a[..], pa, pb, lo, hi);
        Swap(a, pa, pb);
        pa := pa + 1;
      }
      pb := pb + 1;
    }
  }

  /** Passes over elements down to the pivot, moving equal ones to the upper end. */
  method ScanDown<T(!new)>(a: array<T>, lo: int, hi: int, pa: int, pb: int, pc0: int, pd0: int, cnt: int,
      cmp: (T, T) -> int)
    returns (pc: int, pd: int, swap_cnt: int)
    requires Parts(a[..], lo, hi, pa, pb, pc0, pd0, cmp) && (pb <= pc0 ==> cmp(a[..][pb], a[..][lo]) > 0)
    modifies a
    ensures Parts(a[..], lo, hi, pa, pb, pc, pd, cmp) && Rearranged(old(a[..]), a[..], lo, hi)
    ensures pc <= pc0 && (pb <= pc ==> cmp(a[..][pc], a[..][lo]) < 0 < cmp(a[..][pb], a[..][lo]))
  {
    pc, pd, swap_cnt := pc0, pd0, cnt;
    while pb <= pc && cmp(a[pc], a[lo]) >= 0
      invariant Parts(a[..], lo, hi, pa, pb, pc, pd, cmp) && Rearranged(old(a[..]), a[..], lo, hi)
      invariant pc <= pc0 && (pb <= pc ==> cmp(a[..][pb], a[..][lo]) > 0)
    {
      hide Rearranged;
      if cmp(a[pc], a[lo]) == 0 {
        swap_cnt := 1;
        Equal(a[..], lo, hi, pa, pb, pc, pd, cmp);
        SwapRearranges(old(a[..]), a[..], pc, pd, lo, hi);
        Swap(a, pc, pd);
        pd := pd - 1;
      }
      pc := pc - 1;
    }
  }

  lemma Begin<T(!new)>(s: seq<T>, lo: int, hi: int, cmp: (T, T) -> int)
    requires Comparison(cmp) && 0 <= lo && lo + 1 < hi <= |s|
    ensures Parts(s, lo, hi, lo + 1, lo + 1, hi - 1, hi - 1, cmp)
  {
  }

  lemma Ends<T(!new)>(s: seq<T>, lo: int, hi: int, pa: int, pb: int, pc: int, pd: int, cmp: (T, T) -> int)
    requires Parts(s, lo, hi, pa, pb, pc, pd, cmp)
    ensures 0 <= lo < pa <= pb <= pc + 1 <= pd + 1 <= hi <= |s|
  {
  }

  lemma Cross<T(!new)>(s: seq<T>, lo: int, hi: int, pa: int, pb: int, pc: int, pd: int, cmp: (T, T) -> int)
    requires Parts(s, lo, hi, pa, pb, pc, pd, cmp) && pb <= pc && cmp(s[pc], s[lo]) < 0 < cmp(s[pb], s[lo])
    ensures Parts(Swapped(s, pb, pc), lo, hi, pa, pb + 1, pc - 1, pd, cmp)
  {
  }

  /** The partition loop; swap_cnt tells whether it moved anything. */
  method Partition<T(!new)>(a: array<T>, lo: int, hi: int, cmp: (T, T) -> int)
    returns (pa: int, pb: int, pc: int, pd: int, swap_cnt: int)
    requires 0 <= lo && lo + 1 < hi <= a.Length && Comparison(cmp)
    modifies a
    ensures Parts(a[..], lo, hi, pa, pb, pc, pd, cmp) && pb == pc + 1 && Rearranged(old(a[..]), a[..], lo, hi)
  {
    hide Rearranged, Parts, Comparison, Swapped;
    Unchanged(a[..], lo, hi);
    Begin(a[..], lo, hi, cmp);
    swap_cnt := 0;
    pa, pb := lo + 1, lo + 1;
    pc, pd := hi - 1, hi - 1;
    while true
      invariant Parts(a[..], lo, hi, pa, pb, pc, pd, cmp) && Rearranged(old(a[..]), a[..], lo, hi)
      decreases pc - pb
    {
      ghost var s := a[..];
      pa, pb, swap_cnt := ScanUp(a, lo, hi, pa, pb, pc, pd, swap_cnt, cmp);
      Chain(old(a[..]), s, a[..], lo, hi);
      s := a[..];
      pc, pd, swap_cnt := ScanDown(a, lo, hi, pa, pb, pc, pd, swap_cnt, cmp);
      Chain(old(a[..]), s, a[..], lo, hi);
      Ends(a[..], lo, hi, pa, pb, pc, pd, cmp);
      if pb > pc { break; }
      Cross(a[..], lo, hi, pa, pb, pc, pd, cmp);
      SwapRearranges(old(a[..]), a[..], pb, pc, lo, hi);
      Swap(a, pb, pc);
      swap_cnt := 1;
      pb := pb + 1;
      pc := pc - 1;
    }
  }

  /** Smaller, equal and larger than v. */
  ghost predicate ThreeWay<T(!new)>(s: seq<T>, lo: int, l: int, h: int, hi: int, v: T, cmp: (T, T) -> int) {
    && 0 <= lo <= l < h <= hi <= |s|
    && (forall k :: lo <= k < l ==> cmp(s[k], v) < 0)
    && (forall k :: l <= k < h ==> cmp(s[k], v) == 0)
    && (forall k :: h <= k < hi ==> cmp(s[k], v) > 0)
  }

  function Min(x: int, y: int): int {
    if x < y then x else y
  }

  lemma Gathered<T(!new)>(s: seq<T>, t: seq<T>, u: seq<T>, lo: int, hi: int, pa: int, pb: int, pc: int, pd: int,
      cmp: (T, T) -> int)
    requires Parts(s, lo, hi, pa, pb, pc, pd, cmp) && pb == pc + 1
    requires var r := Min(pa - lo, pb - pa); Exchanged(s, t, lo, pb - r, r)
    requires var r := Min(pd - pc, hi - pd - 1); Exchanged(t, u, pb, hi - r, r)
    ensures ThreeWay(u, lo, lo + (pb - pa), hi - (pd - pc), hi, s[lo], cmp)
  {
    var l, h, r, q := lo + (pb - pa), hi - (pd - pc), Min(pa - lo, pb - pa), Min(pd - pc, hi - pd - 1);
    forall k | lo <= k < l ensures cmp(u[k], s[lo]) < 0 {
      assert u[k] == t[k];
    }
    forall k | l <= k < h ensures cmp(u[k], s[lo]) == 0 {
      if k < pb {
        assert u[k] == t[k] && t[k] == s[if k < pb - r then k else k - (pb - r - lo)];
      } else {
        assert u[k] == t[if k < pb + q then k + (hi - q - pb) else k];
      }
    }
  }

  /** The two block swaps; t is what the array holds between them. */
  method SwapEnds<T(!new)>(a: array<T>, lo: int, hi: int, pa: int, pb: int, pc: int, pd: int) returns (ghost t: seq<T>)
    requires 0 <= lo <= pa <= pb == pc + 1 <= pd + 1 <= hi <= a.Length
    modifies a
    ensures var r := Min(pa - lo, pb - pa); Exchanged(old(a[..]), t, lo, pb - r, r)
    ensures var q := Min(pd - pc, hi - pd - 1); Exchanged(t, a[..], pb, hi - q, q)
    ensures Rearranged(old(a[..]), a[..], lo, hi)
  {
    hide Rearranged, Exchanged;
    ghost var s := a[..];
    var r := Min(pa - lo, pb - pa);
    VecSwap(a, lo, pb - r, r);
    t := a[..];
    Widen(s, t, lo, pb, lo, hi);
    r := Min(pd - pc, hi - pd - 1);
    VecSwap(a, pb, hi - r, r);
    Widen(t, a[..], pb, hi, lo, hi);
    Chain(s, t, a[..], lo, hi);
  }

  /** The equal elements are brought into the middle. */
  method GatherEqual<T(!new)>(a: array<T>, lo: int, hi: int, pa: int, pb: int, pc: int, pd: int, cmp: (T, T) -> int)
    requires Parts(a[..], lo, hi, pa, pb, pc, pd, cmp) && pb == pc + 1
    modifies a
    ensures ThreeWay(a[..], lo, lo + (pb - pa), hi - (pd - pc), hi, old(a[lo]), cmp)
    ensures Rearranged(old(a[..]), a[..], lo, hi)
  {
    hide Rearranged, Exchanged, ThreeWay, Parts;
    Ends(a[..], lo, hi, pa, pb, pc, pd, cmp);
    ghost var t := SwapEnds(a, lo, hi, pa, pb, pc, pd);
    Gathered(old(a[..]), t, a[..], lo, hi, pa, pb, pc, pd, cmp);
  }

  /** Splits at least seven elements in three, or finds nothing to swap and sorts them by insertion. */
  method Split<T(!new)>(a: array<T>, lo: int, hi: int, cmp: (T, T) -> int)
    returns (l: int, h: int, sorted: bool, ghost v: T)
    requires 0 <= lo && lo + 7 <= hi <= a.Length && Comparison(cmp)
    modifies a
    ensures Rearranged(old(a[..]), a[..], lo, hi)
    ensures if sorted then Sorted(a[..], lo, hi, cmp) else ThreeWay(a[..], lo, l, h, hi, v, cmp)
  {
    hide Rearranged, Comparison, ThreeWay, Parts;
    var pm := ChoosePivot(a, lo, hi - lo, cmp);
    Started(a[..], lo, hi, cmp);
    SwapRearranges(a[..], a[..], lo, pm, lo, hi);
    Swap(a, lo, pm);
    ghost var s := a[..];
    var pa, pb, pc, pd, swap_cnt := Partition(a, lo, hi, cmp);
    Chain(old(a[..]), s, a[..], lo, hi);
    s := a[..];
    l, h := lo + (pb - pa), hi - (pd - pc);
    sorted, v := swap_cnt == 0, a[lo];
    if sorted {
      InsertionSort(a, lo, hi, cmp);
    } else {
      GatherEqual(a, lo, hi, pa, pb, pc, pd, cmp);
    }
    Chain(old(a[..]), s, a[..], lo, hi);
  }

  /** The elements before lo are in their final places. */
  ghost predicate Done<T(!new)>(s: seq<T>, lo0: int, lo: int, hi: int, cmp: (T, T) -> int) {
    0 <= lo0 <= lo <= hi <= |s| && forall i, j :: lo0 <= i < lo && i < j < hi ==> cmp(s[i], s[j]) <= 0
  }

  lemma DoneKept<T(!new)>(s: seq<T>, t: seq<T>, lo0: int, lo: int, hi: int, cmp: (T, T) -> int)
    requires Done(s, lo0, lo, hi, cmp) && Rearranged(s, t, lo, hi)
    ensures Done(t, lo0, lo, hi, cmp)
  {
    forall i, j | lo0 <= i < lo && i < j < hi ensures cmp(t[i], t[j]) <= 0 {
      assert t[i] == t[..lo][i] == s[..lo][i];
      if j < lo {
        assert t[j] == t[..lo][j] == s[..lo][j];
      } else {
        var k := Kept(s, t, lo, hi, j);
      }
    }
  }

  lemma DoneMore<T(!new)>(s: seq<T>, lo0: int, lo: int, l: int, h: int, hi: int, v: T, cmp: (T, T) -> int)
    requires Comparison(cmp) && Done(s, lo0, lo, hi, cmp) && ThreeWay(s, lo, l, h, hi, v, cmp) && Sorted(s, lo, l, cmp)
    ensures Done(s, lo0, h, hi, cmp)
  {
    forall i, j | lo0 <= i < h && i < j < hi ensures cmp(s[i], s[j]) <= 0 {
      if i >= lo && j >= l { assert cmp(s[i], v) <= 0 && cmp(v, s[j]) <= 0; }
    }
  }

  lemma ThreeWayKept<T(!new)>(s: seq<T>, t: seq<T>, lo: int, l: int, h: int, hi: int, v: T, cmp: (T, T) -> int)
    requires ThreeWay(s, lo, l, h, hi, v, cmp) && Rearranged(s, t, lo, l)
    ensures ThreeWay(t, lo, l, h, hi, v, cmp)
  {
    forall k | lo <= k < l ensures cmp(t[k], v) < 0 {
      var i := Kept(s, t, lo, l, k);
    }
    forall k | l <= k < hi ensures t[k] == s[k] {
      assert t[k] == t[l..][k - l] == s[l..][k - l];
    }
  }

  lemma Started<T(!new)>(s: seq<T>, lo: int, hi: int, cmp: (T, T) -> int)
    requires 0 <= lo <= hi <= |s|
    ensures Done(s, lo, lo, hi, cmp) && Rearranged(s, s, lo, hi)
  {
  }

  lemma DoneAll<T(!new)>(s: seq<T>, lo0: int, lo: int, hi: int, cmp: (T, T) -> int)
    requires Done(s, lo0, lo, hi, cmp) && hi - lo <= 1
    ensures Sorted(s, lo0, hi, cmp)
  {
  }

  lemma Onward<T(!new)>(s0: seq<T>, s: seq<T>, t: seq<T>, lo0: int, lo: int, hi: int, cmp: (T, T) -> int)
    requires Done(s, lo0, lo, hi, cmp) && Rearranged(s0, s, lo0, hi) && Rearranged(s, t, lo, hi)
    ensures Done(t, lo0, lo, hi, cmp) && Rearranged(s0, t, lo0, hi)
  {
    hide Rearranged;
    DoneKept(s, t, lo0, lo, hi, cmp);
    Widen(s, t, lo, hi, lo0, hi);
    Chain(s0, s, t, lo0, hi);
  }

  /** Once the smaller elements are sorted, everything up to the larger ones is done. */
  lemma LowerSorted<T(!new)>(s0: seq<T>, s: seq<T>, t: seq<T>, lo0: int, lo: int, l: int, h: int, hi: int, v: T,
      cmp: (T, T) -> int)
    requires Comparison(cmp) && Done(s, lo0, lo, hi, cmp) && Rearranged(s0, s, lo0, hi)
    requires ThreeWay(s, lo, l, h, hi, v, cmp)
    requires if l - lo > 1 then Rearranged(s, t, lo, l) && Sorted(t, lo, l, cmp) else t == s
    ensures Done(t, lo0, h, hi, cmp) && Rearranged(s0, t, lo0, hi)
  {
    hide Comparison, Rearranged;
    if l - lo > 1 {
      ThreeWayKept(s, t, lo, l, h, hi, v, cmp);
      Widen(s, t, lo, l, lo, hi);
      Onward(s0, s, t, lo0, lo, hi, cmp);
    }
    DoneMore(t, lo0, lo, l, h, hi, v, cmp);
  }

  /** `qsort` on the n elements from lo on: the left part by recursion, the right part by going round again. */
  method Qsort<T(!new)>(a: array<T>, lo0: int, n0: int, cmp: (T, T) -> int)
    requires 0 <= lo0 && 0 <= n0 && lo0 + n0 <= a.Length && Comparison(cmp)
    modifies a
    ensures Sorted(a[..], lo0, lo0 + n0, cmp) && Rearranged(old(a[..]), a[..], lo0, lo0 + n0)
    decreases n0
  {
    hide Rearranged, Comparison, Sorted, Done;
    var lo, hi := lo0, lo0 + n0;
    Started(a[..], lo0, hi, cmp);
    while true
      invariant Done(a[..], lo0, lo, hi, cmp) && Rearranged(old(a[..]), a[..], lo0, hi) && lo0 <= lo <= hi
      decreases hi - lo
    {
      ghost var s := a[..];
      if hi - lo < 7 {
        InsertionSort(a, lo, hi, cmp);
        Finish(old(a[..]), s, a[..], lo0, lo, hi, cmp);
        return;
      }
      var l, h, sorted, v := Split(a, lo, hi, cmp);
      if sorted {
        Finish(old(a[..]), s, a[..], lo0, lo, hi, cmp);
        return;
      }
      Onward(old(a[..]), s, a[..], lo0, lo, hi, cmp);
      s := a[..];
      if l - lo > 1 {
        Qsort(a, lo, l - lo, cmp);
      }
      LowerSorted(old(a[..]), s, a[..], lo0, lo, l, h, hi, v, cmp);
      if hi - h <= 1 {
        DoneAll(a[..], lo0, h, hi, cmp);
        return;
      }
      lo := h;
    }
  }

  lemma Finish<T(!new)>(s0: seq<T>, s: seq<T>, t: seq<T>, lo0: int, lo: int, hi: int, cmp: (T, T) -> int)
    requires Done(s, lo0, lo, hi, cmp) && Rearranged(s0, s, lo0, hi) && Rearranged(s, t, lo, hi)
    requires Sorted(t, lo, hi, cmp)
    ensures Sorted(t, lo0, hi, cmp) && Rearranged(s0, t, lo0, hi)
  {
    hide Rearranged;
    Onward(s0, s, t, lo0, lo, hi, cmp);
  }
}
