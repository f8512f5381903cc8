/** The physical page allocator: boundary tags, an end-of-chunk bitmap and nine bins of free chunks. */
module Pages {
  import opened Words
  import opened Seqs
  import opened PageLayout
  import opened BinList

  const NUM_BINS := 9
  const LAST_BIN_SIZE := 256

  /** The bin of a chunk: the position of the highest bit of its size, at most the last bin. */
  ghost function BinOf(size: int): (b: int)
    ensures 0 <= b < NUM_BINS
  {
    HighBit(size, NUM_BINS - 1)
  }

  ghost function HighBit(size: int, i: nat): (b: int)
    ensures 0 <= b <= i && (b == 0 || Pow2(b) <= size) && (b < i ==> size < Pow2(b + 1))
  {
    if i == 0 || size >= Pow2(i) then i else HighBit(size, i - 1)
  }

  lemma HighBitUnique(size: int, i: nat, b: nat)
    requires b <= i && (b == 0 || Pow2(b) <= size) && (b < i ==> size < Pow2(b + 1))
    ensures HighBit(size, i) == b
  {
    var c := HighBit(size, i);
    if b < c { Pow2Mono(b + 1, c); }
    if c < b { Pow2Mono(c + 1, b); }
  }

  /** A chunk in a lower bin than n's is smaller than n. */
  lemma LowerBin(size: int, n: int)
    requires BinOf(size) < BinOf(n)
    ensures size < n
  {
    Pow2Mono(BinOf(size) + 1, BinOf(n));
  }

  /** `find_bin` */
  method FindBin(size: int) returns (b: int)
    requires size >= 1
    ensures b == BinOf(size)
  {
    assert Pow2(4) == 16 && Pow2(8) == 256;
    if size >= LAST_BIN_SIZE {
      return NUM_BINS - 1;
    }
    var i := NUM_BINS - 2;
    while i > 0
      invariant 0 <= i <= NUM_BINS - 2 && size < Pow2(i + 1)
    {
      BitSet(size, Pow2(i));
      if (size / Pow2(i)) % 2 != 0 {
        HighBitUnique(size, NUM_BINS - 1, i);
        return i;
      }
      i := i - 1;
    }
    HighBitUnique(size, NUM_BINS - 1, 0);
    return 0;
  }

  /** Below 2 * p, the bit worth p is set just when the number reaches p. */
  lemma BitSet(size: int, p: int)
    requires p > 0 && 1 <= size < 2 * p
    ensures (size / p) % 2 != 0 <==> size >= p
  {
  }

  // ----- what the bins hold -----

  ghost predicate Linked(bins: seq<int>, head: seq<Head>, lists: seq<seq<int>>) {
    && |bins| == |lists| == NUM_BINS
    && forall b :: 0 <= b < NUM_BINS ==> Cyclic(bins[b], head, lists[b]) && NoDup(lists[b])
  }

  /** The lists hold exactly the chunks of F, each in the bin of its size. */
  ghost predicate Located(lists: seq<seq<int>>, F: map<int, int>) {
    && |lists| == NUM_BINS
    && (forall b, s :: 0 <= b < NUM_BINS && s in lists[b] ==> s in F && BinOf(F[s]) == b)
    && (forall s :: s in F ==> s in lists[BinOf(F[s])])
  }

  ghost predicate Sized(head: seq<Head>, F: map<int, int>) {
    forall s :: s in F ==> 0 <= s < |head| && head[s].size == F[s] && F[s] >= 1
  }

  /** The bins file exactly the chunks of F. */
  ghost predicate Filed(bins: seq<int>, head: seq<Head>, lists: seq<seq<int>>, F: map<int, int>) {
    Linked(bins, head, lists) && Located(lists, F) && Sized(head, F)
  }

  /** Touching only pages of one bin's chunks, or of none, leaves the other bins linked. */
  lemma OtherBins(bins: seq<int>, head: seq<Head>, head': seq<Head>, lists: seq<seq<int>>, F: map<int, int>, b: int,
      touched: set<int>)
    requires Linked(bins, head, lists) && Located(lists, F) && 0 <= b < NUM_BINS && SameBut(head, head', touched)
    requires forall p :: p in touched ==> p !in F || BinOf(F[p]) == b
    ensures forall c :: 0 <= c < NUM_BINS && c != b ==> Cyclic(bins[c], head', lists[c]) && NoDup(lists[c])
  {
    forall c | 0 <= c < NUM_BINS && c != b
      ensures Cyclic(bins[c], head', lists[c])
    {
      forall i | 0 <= i < |lists[c]| ensures lists[c][i] !in touched {
        assert lists[c][i] in lists[c];
      }
      CyclicFrame(bins[c], head, head', lists[c], touched);
    }
  }

  /** The memory after `bin_insert`. */
  ghost predicate InsertedIn(head: seq<Head>, head': seq<Head>, list: seq<int>, x: int, size: int)
    requires forall i :: 0 <= i < |list| ==> 0 <= list[i] < |head|
  {
    if list == [] then 0 <= x < |head| && SameBut(head, head', {x}) && head'[x] == Head(size, x, x)
    else
      var h, t := list[0], list[|list| - 1];
      && 0 <= x < |head| && SameBut(head, head', {h, t, x}) && head'[x] == Head(size, t, h)
      && head'[h] == Head(head[h].size, x, if h == t then x else head[h].next)
      && head'[t] == Head(head[t].size, if h == t then x else head[t].prev, x)
  }

  lemma LinkedMore(bins: seq<int>, head: seq<Head>, lists: seq<seq<int>>, F: map<int, int>, head': seq<Head>, b: int,
      x: int, size: int)
    requires Linked(bins, head, lists) && Located(lists, F) && x !in F && b == BinOf(size)
    requires InsertedIn(head, head', lists[b], x, size)
    ensures Linked(bins[b := x], head', lists[b := [x] + lists[b]])
  {
    var list := lists[b];
    var touched := if list == [] then {x} else {list[0], list[|list| - 1], x};
    assert forall c :: 0 <= c < NUM_BINS && c != b ==> Cyclic(bins[c], head', lists[c]) && NoDup(lists[c]) by {
      assert list != [] ==> list[0] in list && list[|list| - 1] in list;
      OtherBins(bins, head, head', lists, F, b, touched);
    }
    assert Cyclic(x, head', [x] + list) && NoDup([x] + list) by {
      assert x !in list;
      if list != [] { Inserted(head, head', list, x, size); }
    }
  }

  /** A chunk outside F is filed in front of its bin. */
  lemma FiledMore(bins: seq<int>, head: seq<Head>, lists: seq<seq<int>>, F: map<int, int>, head': seq<Head>, b: int,
      x: int, size: int)
    requires Filed(bins, head, lists, F) && x !in F && size >= 1 && b == BinOf(size)
    requires InsertedIn(head, head', lists[b], x, size)
    ensures Filed(bins[b := x], head', lists[b := [x] + lists[b]], F[x := size])
  {
    LinkedMore(bins, head, lists, F, head', b, x, size);
    LocatedMore(lists, F, b, x, size);
    assert Sized(head', F[x := size]);
  }

  lemma LocatedMore(lists: seq<seq<int>>, F: map<int, int>, b: int, x: int, size: int)
    requires Located(lists, F) && x !in F && b == BinOf(size)
    ensures Located(lists[b := [x] + lists[b]], F[x := size])
  {
    var l', F' := lists[b := [x] + lists[b]], F[x := size];
  }

  /** The memory after `bin_delete`. */
  ghost predicate DeletedFrom(head: seq<Head>, head': seq<Head>, list: seq<int>, k: int)
    requires 0 <= k < |list| && forall i :: 0 <= i < |list| ==> 0 <= list[i] < |head|
  {
    if |list| == 1 then head' == head
    else
      var n, p := list[Nx(k, |list|)], list[Pv(k, |list|)];
      && SameBut(head, head', {n, p})
      && head'[n] == Head(head[n].size, p, if n == p then n else head[n].next)
      && head'[p] == Head(head[p].size, if n == p then p else head[p].prev, n)
  }

  lemma NoneLeft(list: seq<int>)
    ensures list == [] ==> NoDup(list)
  {
  }

  lemma BinCyclic(bins: seq<int>, head: seq<Head>, lists: seq<seq<int>>, b: int)
    requires Linked(bins, head, lists) && 0 <= b < NUM_BINS
    ensures |bins| == |lists| == NUM_BINS && Cyclic(bins[b], head, lists[b]) && NoDup(lists[b])
    ensures lists[b] != [] ==> Cyclic(lists[b][0], head, lists[b])
  {
  }

  lemma LinkedWith(bins: seq<int>, head: seq<Head>, lists: seq<seq<int>>, b: int, start: int, list: seq<int>)
    requires |bins| == |lists| == NUM_BINS && 0 <= b < NUM_BINS
    requires forall c :: 0 <= c < NUM_BINS && c != b ==> Cyclic(bins[c], head, lists[c]) && NoDup(lists[c])
    requires Cyclic(start, head, list) && NoDup(list)
    ensures Linked(bins[b := start], head, lists[b := list])
  {
    hide Cyclic, NoDup;
  }

  lemma LinkedLess(bins: seq<int>, head: seq<Head>, lists: seq<seq<int>>, F: map<int, int>, head': seq<Head>, b: int,
      k: int)
    requires Linked(bins, head, lists) && Located(lists, F) && 0 <= b < NUM_BINS && 0 <= k < |lists[b]|
    requires DeletedFrom(head, head', lists[b], k)
    ensures var l' := Without(lists[b], k);
      Linked(bins[b := if l' == [] then BAD else l'[0]], head', lists[b := l'])
  {
    hide NoDup, Linked;
    var list, l' := lists[b], Without(lists[b], k);
    BinCyclic(bins, head, lists, b);
    var n, p := list[Nx(k, |list|)], list[Pv(k, |list|)];
    assert forall c :: 0 <= c < NUM_BINS && c != b ==> Cyclic(bins[c], head', lists[c]) && NoDup(lists[c]) by {
      assert n in list && p in list;
      OtherBins(bins, head, head', lists, F, b, {n, p});
    }
    assert Cyclic(if l' == [] then BAD else l'[0], head', l') && NoDup(l') by {
      if |list| > 1 { Deleted(head, head', list, k); } else { NoneLeft(l'); }
    }
    LinkedWith(bins, head', lists, b, if l' == [] then BAD else l'[0], l');
  }

  /** The chunk at place k of its bin is taken out. */
  lemma FiledLess(bins: seq<int>, head: seq<Head>, lists: seq<seq<int>>, F: map<int, int>, head': seq<Head>, b: int,
      k: int)
    requires Filed(bins, head, lists, F) && 0 <= b < NUM_BINS && 0 <= k < |lists[b]|
    requires DeletedFrom(head, head', lists[b], k)
    ensures var l' := Without(lists[b], k);
      Filed(bins[b := if l' == [] then BAD else l'[0]], head', lists[b := l'], F - {lists[b][k]})
  {
    LinkedLess(bins, head, lists, F, head', b, k);
    LocatedLess(lists, F, b, k);
    assert Sized(head', F - {lists[b][k]});
  }

  lemma LocatedLess(lists: seq<seq<int>>, F: map<int, int>, b: int, k: int)
    requires Located(lists, F) && 0 <= b < NUM_BINS && 0 <= k < |lists[b]| && NoDup(lists[b])
    ensures Located(lists[b := Without(lists[b], k)], F - {lists[b][k]})
  {
    var list := lists[b];
    var l', F' := lists[b := Without(list, k)], F - {list[k]};
    WithoutElements(list, k);
    assert list[k] in list;
    forall c, s | 0 <= c < NUM_BINS && s in l'[c]
      ensures s in F' && BinOf(F'[s]) == c
    {
      if c == b {
        assert s in Without(list, k);
      } else {
        assert BinOf(F[s]) == c;
      }
    }
  }

  lemma WithoutElements(list: seq<int>, k: int)
    requires 0 <= k < |list| && NoDup(list)
    ensures forall s :: s in Without(list, k) <==> s in list && s != list[k]
  {
    var l' := Without(list, k);
    forall s | s in list && s != list[k] ensures s in l' {
      var i :| 0 <= i < |list| && list[i] == s;
      assert l'[if i < k then i else i - 1] == s;
    }
  }

  /** What a chunk's head says about its place in the list. */
  lemma Neighbours(start: int, head: seq<Head>, list: seq<int>, k: int)
    requires Cyclic(start, head, list) && NoDup(list) && 0 <= k < |list|
    ensures var n, p := list[Nx(k, |list|)], list[Pv(k, |list|)];
      && 0 <= n < |head| && 0 <= p < |head| && head[list[k]].next == n && head[list[k]].prev == p
      && (n == list[k] <==> |list| == 1) && (start == list[k] <==> k == 0) && (|list| == 1 ==> p == n)
      && (k == 0 && |list| > 1 ==> n == Without(list, 0)[0])
  {
    var m := |list|;
    assert k == Nx(Pv(k, m), m);
    Differ(list, k, Nx(k, m));
    Differ(list, 0, k);
  }

  /** Where a chunk is filed, and its neighbours there. */
  lemma PlaceInBin(bins: seq<int>, head: seq<Head>, lists: seq<seq<int>>, F: map<int, int>, b: int, x: int)
    returns (k: int)
    requires Filed(bins, head, lists, F) && x in F && b == BinOf(F[x])
    ensures 0 <= x < |head| && |bins| == |lists| == NUM_BINS && 0 <= k < |lists[b]| && lists[b][k] == x
    ensures forall i :: 0 <= i < |lists[b]| ==> 0 <= lists[b][i] < |head|
    ensures var list := lists[b];
      var n, p := list[Nx(k, |list|)], list[Pv(k, |list|)];
      && 0 <= n < |head| && 0 <= p < |head| && head[x].next == n && head[x].prev == p
      && (n == x <==> |list| == 1) && (bins[b] == x <==> k == 0) && (|list| == 1 ==> p == n)
      && (k == 0 && |list| > 1 ==> n == Without(list, 0)[0])
      && (|list| > 1 && k > 0 ==> bins[b] == Without(list, k)[0]) && (|list| == 1 <==> Without(list, k) == [])
  {
    k :| 0 <= k < |lists[b]| && lists[b][k] == x;
    Neighbours(bins[b], head, lists[b], k);
  }

  // ----- boundary tags -----

  /** The bits of a chunk's first and last page tell whether it is allocated; a free chunk's foot holds its size.
      Bit p + 1 belongs to page p. */
  ghost predicate TagOk(bits: seq<bool>, foot: seq<int>, l: Layout, N: int, s: int)
    requires |bits| == N + 2 && |foot| == N && s in l.size
  {
    var e := s + l.size[s];
    && 0 <= s < e <= N && bits[s + 1] == (s !in l.free) && bits[e] == (s !in l.free)
    && (s in l.free ==> foot[e - 1] == l.size[s])
  }

  /** The pages before the first and after the last count as allocated. */
  ghost predicate Tagged(bits: seq<bool>, foot: seq<int>, l: Layout, N: int) {
    && |bits| == N + 2 && |foot| == N && N >= 0 && bits[0] && bits[N + 1]
    && forall s :: s in l.size ==> TagOk(bits, foot, l, N, s)
  }

  lemma TakenTagged(bits: seq<bool>, foot: seq<int>, l: Layout, N: int, s: int, n: int)
    requires Tiled(l, N) && Tagged(bits, foot, l, N) && s in l.free && 1 <= n < l.size[s]
    ensures var k := l.size[s];
      Tagged(bits[s + n + 1 := false][s + k := false][s + 1 := true][s + n := true], foot[s + k - 1 := k - n],
        Taken(l, s, n), N)
  {
    var k, t := l.size[s], Taken(l, s, n);
    var bits' := bits[s + n + 1 := false][s + k := false][s + 1 := true][s + n := true];
    var foot' := foot[s + k - 1 := k - n];
    forall c | c in t.size ensures TagOk(bits', foot', t, N, c) {
      if c != s && c != s + n {
        assert TagOk(bits, foot, l, N, c);
        assert if c < s then c + l.size[c] <= s else c >= s + k;
      }
    }
  }

  lemma TakenWholeTagged(bits: seq<bool>, foot: seq<int>, l: Layout, N: int, s: int)
    requires Tiled(l, N) && Tagged(bits, foot, l, N) && s in l.free
    ensures Tagged(bits[s + 1 := true][s + l.size[s] := true], foot, Taken(l, s, l.size[s]), N)
  {
    var t := Taken(l, s, l.size[s]);
    forall c | c in t.size ensures TagOk(bits[s + 1 := true][s + l.size[s] := true], foot, t, N, c) {
      assert TagOk(bits, foot, l, N, c);
      assert if c < s then c + l.size[c] <= s else c == s || c >= s + l.size[s];
    }
  }

  /** A chunk outside the pages from a up to e, whose end bits are rewritten. */
  lemma TagElsewhere(bits: seq<bool>, foot: seq<int>, l: Layout, t: Layout, N: int, a: int, e: int, c: int)
    requires |bits| == N + 2 && |foot| == N && 0 <= a < e <= N && c in l.size && c in t.size
    requires TagOk(bits, foot, l, N, c) && t.size[c] == l.size[c] && (c in t.free <==> c in l.free)
    requires if c < a then c + t.size[c] <= a else c >= e
    ensures TagOk(bits[a + 1 := false][e := false], foot[e - 1 := e - a], t, N, c)
  {
  }

  /** Where the chunks are after a release. */
  lemma ReleasedAround(l: Layout, N: int, s: int, a: int)
    requires Tiled(l, N) && Coalesced(l) && s in l.size && s !in l.free && Front(l, s, a)
    ensures var e, t := Back(l, s), Released(l, s, a);
      && 0 <= a < e <= N && a in t.size && a in t.free && t.size[a] == e - a
      && forall c :: c in t.size && c != a ==>
        && c in l.size && t.size[c] == l.size[c] && (c in t.free <==> c in l.free)
        && if c < a then c + t.size[c] <= a else c >= e
  {
    ReleasedChunks(l, N, s, a);
    ReleasedBounded(l, N, s, a);
    ReleasedApart(l, N, s, a);
  }

  lemma ReleasedTagged(bits: seq<bool>, foot: seq<int>, l: Layout, N: int, s: int, a: int)
    requires Tiled(l, N) && Coalesced(l) && Tagged(bits, foot, l, N) && s in l.size && s !in l.free && Front(l, s, a)
    ensures var e := Back(l, s);
      0 <= a < e <= N && Tagged(bits[a + 1 := false][e := false], foot[e - 1 := e - a], Released(l, s, a), N)
  {
    hide Released, Back, Tiled, Coalesced, Front;
    ReleasedAround(l, N, s, a);
    var e, t := Back(l, s), Released(l, s, a);
    forall c | c in t.size ensures TagOk(bits[a + 1 := false][e := false], foot[e - 1 := e - a], t, N, c) {
      if c != a { TagElsewhere(bits, foot, l, t, N, a, e, c); }
    }
  }

  lemma TakenFree(l: Layout, N: int, s: int, n: int)
    requires Tiled(l, N) && s in l.free && 1 <= n <= l.size[s]
    ensures var k, F := l.size[s], FreeMap(l) - {s};
      FreeMap(Taken(l, s, n)) == if k == n then F else F[s + n := k - n]
    ensures s in FreeMap(l) && (n < l.size[s] ==> s + n !in FreeMap(l))
  {
  }

  lemma ReleasedFree(l: Layout, N: int, s: int, a: int)
    requires Tiled(l, N) && Coalesced(l) && s in l.size && s !in l.free && Front(l, s, a)
    ensures FreeMap(Released(l, s, a)) == (FreeMap(l) - {a} - {s + l.size[s]})[a := Back(l, s) - a]
  {
    hide Tiled, Coalesced, Front, Back;
    ReleasedChunks(l, N, s, a);
    FreeEnd(l, N, s, a);
    var t, F := Released(l, s, a), (FreeMap(l) - {a} - {s + l.size[s]})[a := Back(l, s) - a];
    forall k ensures k in FreeMap(t) <==> k in F { }
    forall k | k in F ensures FreeMap(t)[k] == F[k] { }
  }

  lemma FreeEnd(l: Layout, N: int, s: int, a: int)
    requires Tiled(l, N) && Coalesced(l) && s in l.size && s !in l.free && Front(l, s, a)
    ensures l.free <= l.size.Keys && (a != s ==> a in l.free) && a != s + l.size[s]
  {
  }

  lemma NothingFiled(bins: seq<int>, head: seq<Head>, lists: seq<seq<int>>)
    requires |bins| == |lists| == NUM_BINS && forall b :: 0 <= b < NUM_BINS ==> bins[b] == BAD && lists[b] == []
    ensures Filed(bins, head, lists, map[])
  {
  }

  /** All pages in one free chunk. */
  lemma OneChunk(bits: seq<bool>, foot: seq<int>, n: int)
    requires n >= 1 && |bits| == n + 2 && |foot| == n && bits[0] && bits[n + 1] && !bits[1] && !bits[n]
    requires foot[n - 1] == n
    ensures var l := Layout(map[0 := n], {0});
      && Tiled(l, n) && Coalesced(l) && Tagged(bits, foot, l, n) && FreeMap(l) == map[0 := n] && Live(l) == map[]
      && forall p :: FreePage(l, p) <==> 0 <= p < n
  {
    var l := Layout(map[0 := n], {0});
    forall p ensures FreePage(l, p) <==> 0 <= p < n {
      if 0 <= p < n { assert Inside(l, 0, p); }
    }
  }

  lemma BinEmpty(bins: seq<int>, head: seq<Head>, lists: seq<seq<int>>, F: map<int, int>, b: int)
    requires Filed(bins, head, lists, F) && 0 <= b < NUM_BINS
    ensures |bins| == |lists| == NUM_BINS && (bins[b] == BAD <==> lists[b] == [])
    ensures bins[b] == BAD ==> forall s :: s in F ==> BinOf(F[s]) != b
  {
    if lists[b] != [] { assert lists[b][0] >= 0; }
  }

  lemma BinFirst(bins: seq<int>, head: seq<Head>, lists: seq<seq<int>>, F: map<int, int>, b: int)
    requires Filed(bins, head, lists, F) && 0 <= b < NUM_BINS && bins[b] != BAD
    ensures |lists[b]| > 0 && bins[b] == lists[b][0]
  {
  }

  /** What the head of the chunk at place i of bin b says. */
  lemma BinPlace(bins: seq<int>, head: seq<Head>, lists: seq<seq<int>>, F: map<int, int>, b: int, i: int)
    requires Filed(bins, head, lists, F) && 0 <= b < NUM_BINS && 0 <= i < |lists[b]|
    ensures var list := lists[b]; var s := list[i];
      && s in F && BinOf(F[s]) == b && 0 <= s < |head| && head[s].size == F[s] && head[s].next == list[Nx(i, |list|)]
      && (list[Nx(i, |list|)] == list[0] <==> i + 1 == |list|)
  {
    assert lists[b][i] in lists[b];
    Neighbours(bins[b], head, lists[b], i);
    Differ(lists[b], 0, Nx(i, |lists[b]|));
  }

  lemma BinHolds(lists: seq<seq<int>>, F: map<int, int>, b: int, s: int)
    requires Located(lists, F) && s in F && BinOf(F[s]) == b
    ensures 0 <= b < NUM_BINS && s in lists[b]
  {
  }

  /** A page that no filed chunk starts at is not looked at. */
  lemma UnfiledPage(bins: seq<int>, head: seq<Head>, head': seq<Head>, lists: seq<seq<int>>, F: map<int, int>, p: int)
    requires Linked(bins, head, lists) && Located(lists, F) && p !in F && SameBut(head, head', {p})
    ensures Linked(bins, head', lists)
  {
    OtherBins(bins, head, head', lists, F, 0, {p});
    OtherBins(bins, head, head', lists, F, 1, {p});
  }

  lemma ReleasedTiled(l: Layout, N: int, s: int, a: int)
    requires Tiled(l, N) && Coalesced(l) && s in l.size && s !in l.free && Front(l, s, a)
    ensures Tiled(Released(l, s, a), N) && Coalesced(Released(l, s, a))
  {
    ReleasedBounded(l, N, s, a);
    ReleasedChained(l, N, s, a);
    ReleasedApart(l, N, s, a);
    ReleasedCoalesced(l, N, s, a);
  }

  /** What the tags just before page s tell: whether a free chunk ends there, and where it starts. */
  lemma Before(bits: seq<bool>, foot: seq<int>, l: Layout, N: int, s: int)
    requires Tiled(l, N) && Tagged(bits, foot, l, N) && s in l.size
    ensures bits[s] ==> Front(l, s, s)
    ensures !bits[s] ==> s > 0 && var a := s - foot[s - 1]; a in l.free && Front(l, s, a) && l.size[a] == foot[s - 1]
  {
    if s > 0 {
      var c := Cover(l, N, s - 1);
      assert c + l.size[c] == s && TagOk(bits, foot, l, N, c);
      forall k | k in l.free && k in l.size && k + l.size[k] == s ensures k == c {
      }
    }
  }

  lemma ChunkRun(l: Layout, N: int, s: int, n: int)
    requires Tiled(l, N) && s in l.free && n <= l.size[s]
    ensures Run(l, s, n)
  {
    forall p | s <= p < s + n ensures FreePage(l, p) {
      assert Inside(l, s, p);
    }
  }

  /** When every free chunk is too small, there is no run. */
  lemma NoRun(l: Layout, N: int, a: int, n: int)
    requires Tiled(l, N) && Coalesced(l) && n >= 1
    requires forall s :: s in l.free && s in l.size && BinOf(n) <= BinOf(l.size[s]) ==> l.size[s] < n
    ensures !Run(l, a, n)
  {
    if Run(l, a, n) {
      var s := RunInChunk(l, N, a, n);
      if BinOf(l.size[s]) < BinOf(n) { LowerBin(l.size[s], n); }
    }
  }

  class PageAllocator {
    const N: int
    const bins: array<int>
    const bitmap: array<bool>
    const head: array<Head>
    const foot: array<int>
    ghost var lists: seq<seq<int>>
    ghost var layout: Layout

    ghost predicate Shape()
    {
      && N >= 1 && bins.Length == NUM_BINS && bitmap.Length == N + 2 && head.Length == foot.Length == N
      && bins != foot
    }

    /** `mm_init`: one free chunk of n pages. */
    constructor (n: int)
      requires n >= 1
      ensures Valid() && N == n && fresh(bins) && fresh(bitmap) && fresh(head) && fresh(foot)
      ensures Live(layout) == map[] && forall p :: FreePage(layout, p) <==> 0 <= p < n
    {
      hide Linked, Located, Sized, Tiled, Coalesced, Tagged, Live, FreePage, FreeMap;
      N := n;
      bins := new int[NUM_BINS](i => BAD);
      bitmap := new bool[n + 2](i => i == 0 || i == n + 1);
      head := new Head[n](i => Head(0, BAD, BAD));
      foot := new int[n](i => 0);
      lists := seq(NUM_BINS, i => []);
      layout := Layout(map[0 := n], {0});
      new;
      NothingFiled(bins[..], head[..], lists);
      AddToBins(0, n, map[]);
      OneChunk(bitmap[..], foot[..], n);
    }

    /** `bin_insert` */
    method BinInsert(b: int, x: int, size: int, ghost F: map<int, int>)
      requires Shape() && Filed(bins[..], head[..], lists, F)
      requires x !in F && 0 <= x < N && size >= 1 && b == BinOf(size)
      modifies bins, head, this`lists
      ensures Filed(bins[..], head[..], lists, F[x := size])
    {
      ghost var bins0, head0 := bins[..], head[..];
      if bins[b] == BAD {
        head[x] := Head(size, x, x);
      } else {
        var h := bins[b];
        assert h == lists[b][0] && h in F;
        var t := head[h].prev;
        assert t == lists[b][|lists[b]| - 1] && t in lists[b] && t in F;
        head[h] := head[h].(prev := x);
        head[x] := Head(size, t, h);
        head[t] := head[t].(next := x);
      }
      bins[b] := x;
      FiledMore(bins0, head0, lists, F, head[..], b, x, size);
      lists := lists[b := [x] + lists[b]];
    }

    /** `bin_delete` */
    method BinDelete(b: int, x: int, ghost F: map<int, int>)
      requires Shape() && Filed(bins[..], head[..], lists, F)
      requires x in F && b == BinOf(F[x])
      modifies bins, head, this`lists
      ensures Filed(bins[..], head[..], lists, F - {x})
    {
      hide Filed, NoDup, Without;
      ghost var bins0, head0 := bins[..], head[..];
      ghost var k := PlaceInBin(bins0, head0, lists, F, b, x);
      var next := head[x].next;
      if bins[b] == x {
        bins[b] := if next == x then BAD else next;
      }
      if next != x {
        var prev := head[x].prev;
        head[next] := head[next].(prev := prev);
        head[prev] := head[prev].(next := next);
      }
      ghost var l' := Without(lists[b], k);
      assert bins[..] == bins0[b := if l' == [] then BAD else l'[0]];
      FiledLess(bins0, head0, lists, F, head[..], b, k);
      lists := lists[b := l'];
    }

    /** `add_to_bins` */
    method AddToBins(pn: int, size: int, ghost F: map<int, int>)
      requires Shape() && Filed(bins[..], head[..], lists, F)
      requires pn !in F && 0 <= pn && size >= 1 && pn + size <= N
      modifies bins, head, foot, bitmap, this`lists
      ensures Filed(bins[..], head[..], lists, F[pn := size])
      ensures bitmap[..] == old(bitmap[..])[pn + 1 := false][pn + size := false]
      ensures foot[..] == old(foot[..])[pn + size - 1 := size]
    {
      hide Linked, Located, Sized;
      bitmap[pn + 1] := false;
      bitmap[pn + (size - 1) + 1] := false;
      var b := FindBin(size);
      BinInsert(b, pn, size, F);
      foot[pn + (size - 1)] := size;
    }

    /** `remove_from_bins` */
    method RemoveFromBins(pn: int, ghost F: map<int, int>)
      requires Shape() && Filed(bins[..], head[..], lists, F) && pn in F
      modifies bins, head, this`lists
      ensures Filed(bins[..], head[..], lists, F - {pn})
    {
      var size := head[..][pn].size;
      var b := FindBin(size);
      BinDelete(b, pn, F);
    }

    ghost predicate Valid()
      reads this, bins, bitmap, head, foot
    {
      && Shape() && Tiled(layout, N) && Coalesced(layout)
      && Filed(bins[..], head[..], lists, FreeMap(layout))
      && Tagged(bitmap[..], foot[..], layout, N)
    }

    /** `set_page_inuse` of the first and the last page of a chunk. */
    method SetInUse(s: int, n: int)
      requires Shape() && 0 <= s && 1 <= n && s + n <= N
      modifies bitmap
      ensures bitmap[..] == old(bitmap[..])[s + 1 := true][s + n := true]
    {
      bitmap[s + 1] := true;
      bitmap[s + (n - 1) + 1] := true;
    }

    /** Takes the first n pages of free chunk s; the rest is filed again. */
    method TakePart(b: int, s: int, n: int, size: int)
      requires Valid() && s in layout.free && 1 <= n < size == layout.size[s] && b == BinOf(size)
      modifies bins, head, foot, bitmap, this`lists, this`layout
      ensures Valid() && layout == Taken(old(layout), s, n)
    {
      hide Linked, Located, Sized, Coalesced, Tagged;
      ghost var l, F := layout, FreeMap(layout);
      assert s in F && s + n !in F by { TakenFree(l, N, s, n); }
      BinDelete(b, s, F);
      AddToBins(s + n, size - n, F - {s});
      SetInUse(s, n);
      layout := Taken(l, s, n);
      assert FreeMap(layout) == (F - {s})[s + n := size - n] by { TakenFree(l, N, s, n); }
      assert Tagged(bitmap[..], foot[..], layout, N) by { TakenTagged(old(bitmap[..]), old(foot[..]), l, N, s, n); }
      TakenTiled(l, N, s, n);
      TakenCoalesced(l, N, s, n);
    }

    /** Takes free chunk s as it is. */
    method TakeWhole(b: int, s: int, n: int)
      requires Valid() && s in layout.free && n == layout.size[s] && b == BinOf(n)
      modifies bins, head, foot, bitmap, this`lists, this`layout
      ensures Valid() && layout == Taken(old(layout), s, n)
    {
      hide Linked, Located, Sized;
      ghost var l, F := layout, FreeMap(layout);
      assert s in F by { TakenFree(l, N, s, n); }
      BinDelete(b, s, F);
      SetInUse(s, n);
      layout := Taken(l, s, n);
      assert FreeMap(layout) == F - {s} by { TakenFree(l, N, s, n); }
      assert Tagged(bitmap[..], foot[..], layout, N) by { TakenWholeTagged(old(bitmap[..]), old(foot[..]), l, N, s); }
      TakenTiled(l, N, s, n);
      TakenCoalesced(l, N, s, n);
    }

    /** `alloc_from_bin`: the first chunk of the bin with at least n pages. */
    method AllocFromBin(b: int, n: int) returns (r: int)
      requires Valid() && 0 <= b < NUM_BINS && n >= 1
      modifies bins, head, foot, bitmap, this`lists, this`layout
      ensures Valid()
      ensures r == BAD ==> layout == old(layout)
      ensures r == BAD ==>
        forall s :: s in layout.free && s in layout.size && BinOf(layout.size[s]) == b ==> layout.size[s] < n
      ensures r != BAD ==> r in old(layout).free && r in old(layout).size && n <= old(layout).size[r]
      ensures r != BAD ==> layout == Taken(old(layout), r, n)
    {
      hide Linked, Located, Sized, Tiled, Coalesced, Tagged;
      BinEmpty(bins[..], head[..], lists, FreeMap(layout), b);
      if bins[..][b] == BAD {
        assert forall s :: s in layout.free && s in layout.size ==> s in FreeMap(layout);
        return BAD;
      }
      ghost var list, i := lists[b], 0;
      var this_chunk, end := bins[b], bins[b];
      BinFirst(bins[..], head[..], lists, FreeMap(layout), b);
      while true
        invariant Valid() && layout == old(layout) && |lists| == NUM_BINS && lists[b] == list && 0 <= i < |list|
        invariant this_chunk == list[i] && end == list[0]
        invariant forall j :: 0 <= j < i ==> list[j] in layout.size && layout.size[list[j]] < n
        decreases |list| - i
      {
        BinPlace(bins[..], head[..], lists, FreeMap(layout), b, i);
        var this_size := head[..][this_chunk].size;
        var next := head[..][this_chunk].next;
        if this_size > n {
          TakePart(b, this_chunk, n, this_size);
          return this_chunk;
        } else if this_size == n {
          TakeWhole(b, this_chunk, n);
          return this_chunk;
        }
        this_chunk := next;
        if this_chunk == end {
          break;
        }
        i := i + 1;
      }
      forall s | s in layout.free && s in layout.size && BinOf(layout.size[s]) == b ensures layout.size[s] < n {
        BinHolds(lists, FreeMap(layout), b, s);
      }
      return BAD;
    }

    /** The owner of an allocated page may write anything there: the allocator does not look at it. */
    method Scribble(p: int, h: Head, f: int)
      requires Valid() && LivePage(layout, p)
      modifies head, foot
      ensures Valid()
    {
      hide Cyclic, NoDup, Coalesced;
      ghost var F := FreeMap(layout);
      ghost var s :| s in Live(layout) && s <= p < s + Live(layout)[s];
      assert 0 <= s && s + layout.size[s] <= N && p !in F;
      head[p] := h;
      foot[p] := f;
      assert Linked(bins[..], head[..], lists) by { UnfiledPage(bins[..], old(head[..]), head[..], lists, F, p); }
      forall c | c in layout.size ensures TagOk(bitmap[..], foot[..], layout, N, c) {
        assert TagOk(bitmap[..], old(foot[..]), layout, N, c);
      }
    }

    /** `alloc_user_pages`: fails exactly when there are no n consecutive free pages. */
    method AllocUserPages(n: int) returns (r: int)
      requires Valid() && n >= 1
      modifies bins, head, foot, bitmap, this`lists, this`layout
      ensures Valid()
      ensures r == BAD <==> forall a :: !Run(old(layout), a, n)
      ensures r == BAD ==> layout == old(layout)
      ensures r != BAD ==> Run(old(layout), r, n) && Live(layout) == Live(old(layout))[r := n]
      ensures r != BAD ==> forall p :: FreePage(layout, p) <==> FreePage(old(layout), p) && !(r <= p < r + n)
    {
      ghost var l := layout;
      var bn := FindBin(n);
      ghost var first := bn;
      while bn < NUM_BINS
        invariant first <= bn <= NUM_BINS && Valid() && layout == l
        invariant forall s :: s in l.free && s in l.size && first <= BinOf(l.size[s]) < bn ==> l.size[s] < n
      {
        r := AllocFromBin(bn, n);
        if r != BAD {
          ChunkRun(l, N, r, n);
          TakenLive(l, N, r, n);
          forall p ensures FreePage(layout, p) <==> FreePage(l, p) && !(r <= p < r + n) {
            TakenPages(l, N, r, n, p);
          }
          return r;
        }
        bn := bn + 1;
      }
      forall a ensures !Run(l, a, n) {
        NoRun(l, N, a, n);
      }
      return BAD;
    }

    /** Unfiles the free chunk that ends just before page pn, if there is one. */
    method MergeFront(pn: int, n: int) returns (final_pn: int, final_size: int)
      requires Valid() && pn in layout.size && pn !in layout.free && layout.size[pn] == n
      modifies bins, head, this`lists
      ensures Front(layout, pn, final_pn) && final_size == pn + n - final_pn
      ensures Filed(bins[..], head[..], lists, FreeMap(layout) - {final_pn})
    {
      hide Linked, Located;
      ghost var F := FreeMap(layout);
      Before(bitmap[..], foot[..], layout, N, pn);
      final_pn, final_size := pn, n;
      var prev_inuse := bitmap[..][pn - 1 + 1];
      if !prev_inuse {
        var prev_size := foot[..][pn - 1];
        var prev_pn := pn - prev_size;
        RemoveFromBins(prev_pn, F);
        final_pn := prev_pn;
        final_size := final_size + prev_size;
      } else {
        assert F - {pn} == F;
      }
    }

    /** Unfiles the free chunk that starts at page next_pn, if there is one. */
    method MergeBack(pn: int, next_pn: int, size: int, ghost F: map<int, int>) returns (final_size: int)
      requires Shape() && Tiled(layout, N) && Tagged(bitmap[..], foot[..], layout, N)
      requires pn in layout.size && pn !in layout.free && next_pn == pn + layout.size[pn]
      requires Filed(bins[..], head[..], lists, F) && (next_pn in FreeMap(layout) <==> next_pn in F)
      requires next_pn in F ==> F[next_pn] == layout.size[next_pn]
      modifies bins, head, this`lists
      ensures final_size == size + Back(layout, pn) - next_pn
      ensures Filed(bins[..], head[..], lists, F - {next_pn})
    {
      hide Linked, Located;
      assert next_pn in layout.size ==> TagOk(bitmap[..], foot[..], layout, N, next_pn);
      final_size := size;
      var next_inuse := bitmap[..][next_pn + 1];
      if !next_inuse {
        var next_size := head[..][next_pn].size;
        RemoveFromBins(next_pn, F);
        final_size := final_size + next_size;
      } else {
        assert F - {next_pn} == F;
      }
    }

    /** `free_user_pages`: gives a live range back. */
    method FreeUserPages(pn: int, n: int)
      requires Valid() && pn in Live(layout) && Live(layout)[pn] == n
      modifies bins, head, foot, bitmap, this`lists, this`layout
      ensures Valid() && Live(layout) == Live(old(layout)) - {pn}
      ensures forall p :: FreePage(layout, p) <==> FreePage(old(layout), p) || pn <= p < pn + n
    {
      hide Linked, Located, Sized;
      ghost var l, F := layout, FreeMap(layout);
      var final_pn, final_size := MergeFront(pn, n);
      final_size := MergeBack(pn, pn + n, final_size, F - {final_pn});
      Merge(pn, final_pn, final_size);
      ReleasedLive(l, N, pn, final_pn);
      forall p ensures FreePage(layout, p) <==> FreePage(l, p) || pn <= p < pn + n {
        ReleasedPages(l, N, pn, final_pn, p);
      }
    }

    /** Files the merged chunk. */
    method Merge(pn: int, final_pn: int, final_size: int)
      requires Shape() && Tiled(layout, N) && Coalesced(layout) && Tagged(bitmap[..], foot[..], layout, N)
      requires pn in layout.size && pn !in layout.free && Front(layout, pn, final_pn)
      requires final_size == Back(layout, pn) - final_pn
      requires Filed(bins[..], head[..], lists, FreeMap(layout) - {final_pn} - {pn + layout.size[pn]})
      modifies bins, head, foot, bitmap, this`lists, this`layout
      ensures Valid() && layout == Released(old(layout), pn, final_pn)
    {
      hide Linked, Located, Sized, Tiled, Coalesced, Tagged, Front;
      ghost var l, F := layout, FreeMap(layout) - {final_pn} - {pn + layout.size[pn]};
      assert 0 <= final_pn < Back(l, pn) <= N by { ReleasedTagged(bitmap[..], foot[..], l, N, pn, final_pn); }
      AddToBins(final_pn, final_size, F);
      layout := Released(l, pn, final_pn);
      assert Filed(bins[..], head[..], lists, FreeMap(layout)) by { ReleasedFree(l, N, pn, final_pn); }
      assert Tagged(bitmap[..], foot[..], layout, N) by {
        ReleasedTagged(old(bitmap[..]), old(foot[..]), l, N, pn, final_pn);
      }
      ReleasedTiled(l, N, pn, final_pn);
    }
  }
}
