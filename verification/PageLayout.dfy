/** Physical pages cut into chunks: the layout that the page allocator maintains. */
module PageLayout {

  /** Chunk sizes by first page, and which chunks are free. */
  datatype Layout = Layout(size: map<int, int>, free: set<int>)

  /** Every chunk lies within the N pages, */
  ghost predicate Bounded(l: Layout, N: int) {
    l.free <= l.size.Keys && forall s :: s in l.size ==> 0 <= s && l.size[s] > 0 && s + l.size[s] <= N
  }

  /** the next chunk starts where it ends, */
  ghost predicate Chained(l: Layout, N: int) {
    (N == 0 || 0 in l.size) && forall s :: s in l.size ==> s + l.size[s] == N || s + l.size[s] in l.size
  }

  /** and no chunk starts inside another. */
  ghost predicate Apart(l: Layout) {
    forall s, k :: s in l.size && k in l.size && s < k ==> s + l.size[s] <= k
  }

  ghost predicate Tiled(l: Layout, N: int) {
    Bounded(l, N) && Chained(l, N) && Apart(l)
  }

  /** Free chunks never touch. */
  ghost predicate Coalesced(l: Layout) {
    forall s :: s in l.free && s in l.size ==> s + l.size[s] !in l.free
  }

  ghost predicate Inside(l: Layout, s: int, p: int) {
    s in l.size && s <= p < s + l.size[s]
  }

  ghost predicate FreePage(l: Layout, p: int) {
    exists s :: s in l.free && Inside(l, s, p)
  }

  /** The allocated chunks. */
  ghost function Live(l: Layout): map<int, int> {
    map s | s in l.size && s !in l.free :: l.size[s]
  }

  lemma {:induction false} Cover(l: Layout, N: int, p: int) returns (s: int)
    requires Tiled(l, N) && 0 <= p < N
    ensures Inside(l, s, p)
    decreases p
  {
    if p == 0 {
      s := 0;
    } else {
      s := Cover(l, N, p - 1);
      if p == s + l.size[s] { s := p; }
    }
  }

  /** n consecutive free pages lie in one free chunk. */
  lemma {:induction false} RunInChunk(l: Layout, N: int, a: int, n: int) returns (s: int)
    requires Tiled(l, N) && Coalesced(l) && n >= 1
    requires forall p :: a <= p < a + n ==> FreePage(l, p)
    ensures s in l.free && s in l.size && s <= a && a + n <= s + l.size[s]
    decreases n
  {
    assert FreePage(l, a + n - 1);
    if n == 1 {
      s :| s in l.free && Inside(l, s, a);
    } else {
      s := RunInChunk(l, N, a, n - 1);
      var k :| k in l.free && Inside(l, k, a + n - 1);
      assert Inside(l, s, a + n - 2);
    }
  }

  // ----- allocation -----

  /** The first n pages of free chunk s become a live chunk. */
  ghost function Taken(l: Layout, s: int, n: int): Layout
    requires s in l.size
  {
    if l.size[s] == n then Layout(l.size, l.free - {s})
    else Layout(l.size[s := n][s + n := l.size[s] - n], l.free - {s} + {s + n})
  }

  /** Which chunks there are after an allocation. */
  lemma TakenChunks(l: Layout, N: int, s: int, n: int)
    requires Tiled(l, N) && s in l.free && 1 <= n <= l.size[s]
    ensures var t, e := Taken(l, s, n), s + l.size[s];
      && (forall k :: k in t.size <==> k in l.size || (k == s + n && n < l.size[s]))
      && (forall k :: k in t.size && k != s && !(k == s + n && n < l.size[s]) ==> t.size[k] == l.size[k])
      && t.size[s] == n && (n < l.size[s] ==> t.size[s + n] == l.size[s] - n && s + n !in l.size)
      && (forall k :: k in t.free <==> (k in l.free && k != s) || (k == s + n && n < l.size[s]))
      && (forall k :: k in l.size ==> l.size[k] > 0 && (k != s ==> k + l.size[k] <= s || e <= k))
  {
  }

  lemma TakenTiled(l: Layout, N: int, s: int, n: int)
    requires Tiled(l, N) && s in l.free && 1 <= n <= l.size[s]
    ensures Tiled(Taken(l, s, n), N)
  {
    TakenBounded(l, N, s, n);
    TakenChained(l, N, s, n);
    TakenApart(l, N, s, n);
  }

  lemma TakenBounded(l: Layout, N: int, s: int, n: int)
    requires Tiled(l, N) && s in l.free && 1 <= n <= l.size[s]
    ensures Bounded(Taken(l, s, n), N)
  {
    hide Taken, Chained, Apart;
    TakenChunks(l, N, s, n);
    assert forall k :: k in Taken(l, s, n).free ==> k in Taken(l, s, n).size;
  }

  lemma TakenChained(l: Layout, N: int, s: int, n: int)
    requires Tiled(l, N) && s in l.free && 1 <= n <= l.size[s]
    ensures Chained(Taken(l, s, n), N)
  {
    hide Taken, Apart;
    TakenChunks(l, N, s, n);
    var t := Taken(l, s, n);
    forall k | k in t.size ensures k + t.size[k] == N || k + t.size[k] in t.size {
      if k in l.size { assert k + l.size[k] == N || k + l.size[k] in l.size; }
      assert s + l.size[s] == N || s + l.size[s] in l.size;
    }
  }

  lemma TakenApart(l: Layout, N: int, s: int, n: int)
    requires Tiled(l, N) && s in l.free && 1 <= n <= l.size[s]
    ensures Apart(Taken(l, s, n))
  {
    hide Taken, Chained;
    TakenChunks(l, N, s, n);
    var t := Taken(l, s, n);
    forall j, k | j in t.size && k in t.size && j < k ensures j + t.size[j] <= k {
      if j in l.size && k in l.size { assert j + l.size[j] <= k; }
    }
  }

  lemma TakenCoalesced(l: Layout, N: int, s: int, n: int)
    requires Tiled(l, N) && Coalesced(l) && s in l.free && 1 <= n <= l.size[s]
    ensures Coalesced(Taken(l, s, n))
  {
  }

  lemma TakenPages(l: Layout, N: int, s: int, n: int, p: int)
    requires Tiled(l, N) && s in l.free && 1 <= n <= l.size[s]
    ensures FreePage(Taken(l, s, n), p) <==> FreePage(l, p) && !(s <= p < s + n)
  {
    var t := Taken(l, s, n);
    if FreePage(l, p) && !(s <= p < s + n) {
      var k :| k in l.free && Inside(l, k, p);
      assert Inside(t, if k == s then s + n else k, p);
    }
    if FreePage(t, p) {
      var k :| k in t.free && Inside(t, k, p);
      assert Inside(l, if k == s + n && l.size[s] != n then s else k, p);
    }
  }

  lemma TakenLive(l: Layout, N: int, s: int, n: int)
    requires Tiled(l, N) && s in l.free && 1 <= n <= l.size[s]
    ensures Live(Taken(l, s, n)) == Live(l)[s := n]
  {
  }

  // ----- release -----

  /** The free chunk that ends where s starts, if there is one: else s itself. */
  ghost predicate Front(l: Layout, s: int, a: int) {
    && a in l.size
    && ((a == s && forall k :: k in l.free && k in l.size ==> k + l.size[k] != s)
        || (a in l.free && a + l.size[a] == s))
  }

  /** Where the chunk that s becomes part of ends. */
  ghost function Back(l: Layout, s: int): int
    requires s in l.size
  {
    var e := s + l.size[s];
    if e in l.free && e in l.size then e + l.size[e] else e
  }

  /** Live chunk s is freed and merged with its free neighbours, starting at a. */
  ghost function Released(l: Layout, s: int, a: int): Layout
    requires s in l.size
  {
    var e := s + l.size[s];
    Layout((l.size - {s} - (if e in l.free then {e} else {}))[a := Back(l, s) - a], l.free - {e} + {a})
  }

  /** Which chunks there are after a release. */
  lemma ReleasedChunks(l: Layout, N: int, s: int, a: int)
    requires Tiled(l, N) && Coalesced(l) && s in l.size && s !in l.free && Front(l, s, a)
    ensures var t, e := Released(l, s, a), s + l.size[s];
      && (forall k :: k in t.size <==> k == a || (k in l.size && k != s && !(k == e && e in l.free)))
      && (forall k :: k in t.size && k != a ==> t.size[k] == l.size[k])
      && (forall k :: k in t.free <==> k == a || (k in l.free && k != e))
      && t.size[a] == Back(l, s) - a && Back(l, s) >= e && a <= s
      && (Back(l, s) == N || (Back(l, s) in l.size && Back(l, s) !in l.free))
  {
  }

  lemma ReleasedBounded(l: Layout, N: int, s: int, a: int)
    requires Tiled(l, N) && Coalesced(l) && s in l.size && s !in l.free && Front(l, s, a)
    ensures Bounded(Released(l, s, a), N)
  {
    ReleasedChunks(l, N, s, a);
  }

  lemma ReleasedChained(l: Layout, N: int, s: int, a: int)
    requires Tiled(l, N) && Coalesced(l) && s in l.size && s !in l.free && Front(l, s, a)
    ensures Chained(Released(l, s, a), N)
  {
    var t, e := Released(l, s, a), s + l.size[s];
    ReleasedChunks(l, N, s, a);
    forall k | k in t.size ensures k + t.size[k] == N || k + t.size[k] in t.size {
      if k != a {
        var next := k + l.size[k];
        assert next == N || next in l.size;
        assert next == s ==> k !in l.free;
        assert next == e ==> k == s;
      }
    }
  }

  lemma ReleasedApart(l: Layout, N: int, s: int, a: int)
    requires Tiled(l, N) && Coalesced(l) && s in l.size && s !in l.free && Front(l, s, a)
    ensures Apart(Released(l, s, a))
  {
    ReleasedChunks(l, N, s, a);
  }

  lemma ReleasedCoalesced(l: Layout, N: int, s: int, a: int)
    requires Tiled(l, N) && Coalesced(l) && s in l.size && s !in l.free && Front(l, s, a)
    ensures Coalesced(Released(l, s, a))
  {
    ReleasedChunks(l, N, s, a);
  }

  lemma ReleasedPages(l: Layout, N: int, s: int, a: int, p: int)
    requires Tiled(l, N) && Coalesced(l) && s in l.size && s !in l.free && Front(l, s, a)
    ensures FreePage(Released(l, s, a), p) <==> FreePage(l, p) || s <= p < s + l.size[s]
  {
    if FreePage(l, p) || s <= p < s + l.size[s] { ReleasedMore(l, N, s, a, p); }
    if FreePage(Released(l, s, a), p) { ReleasedOnly(l, N, s, a, p); }
  }

  lemma ReleasedMore(l: Layout, N: int, s: int, a: int, p: int)
    requires Tiled(l, N) && Coalesced(l) && s in l.size && s !in l.free && Front(l, s, a)
    requires FreePage(l, p) || s <= p < s + l.size[s]
    ensures FreePage(Released(l, s, a), p)
  {
    hide Released, Coalesced, Chained;
    ReleasedChunks(l, N, s, a);
    var t, e := Released(l, s, a), s + l.size[s];
    if s <= p < e {
      assert Inside(t, a, p);
    } else {
      var k :| k in l.free && Inside(l, k, p);
      assert Inside(t, if k == e then a else k, p);
    }
  }

  lemma ReleasedOnly(l: Layout, N: int, s: int, a: int, p: int)
    requires Tiled(l, N) && Coalesced(l) && s in l.size && s !in l.free && Front(l, s, a)
    requires FreePage(Released(l, s, a), p)
    ensures FreePage(l, p) || s <= p < s + l.size[s]
  {
    hide Released, Coalesced, Chained;
    ReleasedChunks(l, N, s, a);
    var t, e := Released(l, s, a), s + l.size[s];
    var k :| k in t.free && Inside(t, k, p);
    if k != a {
      assert Inside(l, k, p);
    } else if a <= p < s {
      assert Inside(l, a, p);
    } else if p >= e {
      assert Inside(l, e, p);
    }
  }

  lemma ReleasedLive(l: Layout, N: int, s: int, a: int)
    requires Tiled(l, N) && Coalesced(l) && s in l.size && s !in l.free && Front(l, s, a)
    ensures Live(Released(l, s, a)) == Live(l) - {s}
  {
  }

  // ----- what clients see -----

  ghost predicate LivePage(l: Layout, p: int) {
    exists s :: s in Live(l) && s <= p < s + Live(l)[s]
  }

  /** Every page is free or allocated, never both. */
  lemma Partition(l: Layout, N: int, p: int)
    requires Tiled(l, N) && 0 <= p < N
    ensures LivePage(l, p) <==> !FreePage(l, p)
  {
    var s := Cover(l, N, p);
    if s in l.free {
      assert FreePage(l, p);
    } else {
      assert s in Live(l) && s <= p < s + Live(l)[s];
    }
  }

  /** Allocated ranges lie within the N pages and do not overlap. */
  lemma LiveApart(l: Layout, N: int, s: int, k: int)
    requires Tiled(l, N) && s in Live(l) && k in Live(l) && s != k
    ensures 0 <= s && Live(l)[s] > 0 && s + Live(l)[s] <= N
    ensures s + Live(l)[s] <= k || k + Live(l)[k] <= s
  {
  }

  /** n consecutive free pages, starting at a. */
  ghost predicate Run(l: Layout, a: int, n: int) {
    forall p :: a <= p < a + n ==> FreePage(l, p)
  }

  /** The free chunks, with their sizes. */
  ghost function FreeMap(l: Layout): map<int, int> {
    map s | s in l.size && s in l.free :: l.size[s]
  }
}
