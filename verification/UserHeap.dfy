/** The user-space heap: blocks one after the other, found by their sizes, merged with their neighbours when freed. */
module UserHeap {
  import opened PageLayout
  import opened HeapTags
  import opened Words

  /** `chunksize` in units of 16 bytes */
  const CHUNK := 256

  // ----- requests -----

  /** `round_up(size, 16)` in 32-bit arithmetic */
  function RoundUp(size: nat): nat {
    Wrap(16 * (Wrap(size + 15) / 16))
  }

  /** The block size that `_malloc` looks for. */
  function Asize(size: nat): nat {
    Wrap(RoundUp(size) + 16)
  }

  /** The largest request whose block size does not wrap. */
  const MAX_REQUEST := 0xFFFF_FFE0

  /** The block has room for the request, a header and a footer exactly when the request is not too large; the block is
      the smallest such, but for the alignment to 16. */
  lemma RequestFits(size: nat)
    requires 0 < size < WORD
    ensures size <= MAX_REQUEST <==> Asize(size) >= size + 16
    ensures size <= MAX_REQUEST ==> Asize(size) % 16 == 0 && 32 <= Asize(size) < size + 32
    ensures size > MAX_REQUEST ==> Asize(size) == if size <= MAX_REQUEST + 16 then 0 else 16
  {
    Wraps(size + 15);
    var q := Wrap(size + 15) / 16;
    assert 16 * q <= Wrap(size + 15) < 16 * q + 16;
    Wraps(16 * q);
    Wraps(RoundUp(size) + 16);
  }

  lemma Wraps(x: nat)
    requires x < 2 * WORD
    ensures Wrap(x) == if x < WORD then x else x - WORD
  {
  }

  /** A request of 2^32 - 16 bytes gets a block size of 0. */
  lemma TooLarge()
    ensures Asize(0xFFFF_FFF0) == 0
  {
  }

  // ----- payloads -----

  /** The pointer to the payload of the block at unit u, and the block that a pointer is for. */
  function Ptr(u: int): int { 16 * u + 16 }

  function BlockOf(bp: int): int { bp / 16 - 1 }

  /** What a block of the given size, which starts at unit u, has between its header and its footer. */
  ghost function Payload(mem: Bytes, u: int, size: int): Bytes
    requires 0 <= u && 1 <= size && 16 * (u + size) <= |mem|
  {
    mem[16 * u + 16..16 * (u + size)]
  }

  ghost predicate InHeap(mem: Bytes, live: map<int, int>) {
    forall u :: u in live ==> 0 <= u && 1 <= live[u] && 16 * (u + live[u]) + 16 <= |mem|
  }

  /** The payloads of live blocks are what they were. */
  ghost predicate PayloadsKept(mem: Bytes, mem': Bytes, live: map<int, int>) {
    && InHeap(mem, live) && InHeap(mem', live)
    && forall u :: u in live ==> Payload(mem', u, live[u]) == Payload(mem, u, live[u])
  }

  lemma KeptSame(mem: Bytes, live: map<int, int>)
    requires InHeap(mem, live)
    ensures PayloadsKept(mem, mem, live)
  {
  }

  lemma KeptChain(m: Bytes, m1: Bytes, m2: Bytes, live: map<int, int>, live': map<int, int>)
    requires PayloadsKept(m, m1, live) && PayloadsKept(m1, m2, live')
    requires forall u :: u in live ==> u in live' && live'[u] == live[u]
    ensures PayloadsKept(m, m2, live)
  {
  }

  lemma KeptFewer(m: Bytes, m': Bytes, live: map<int, int>, live': map<int, int>)
    requires PayloadsKept(m, m', live) && forall u :: u in live' ==> u in live && live[u] == live'[u]
    ensures PayloadsKept(m, m', live')
  {
  }

  lemma PtrInHeap(mem: Bytes, live: map<int, int>, u: int, n: int)
    requires InHeap(mem, live) && u in live && n <= 16 * live[u] - 16
    ensures 0 <= Ptr(u) && Ptr(u) + n <= |mem|
  {
  }

  /** The first bytes of a payload that is kept. */
  lemma SliceKept(m: Bytes, m': Bytes, live: map<int, int>, u: int, n: int)
    requires PayloadsKept(m, m', live) && u in live && 0 <= n <= 16 * live[u] - 16
    ensures 0 <= Ptr(u) && Ptr(u) + n <= |m| && Ptr(u) + n <= |m'|
    ensures m'[Ptr(u)..Ptr(u) + n] == m[Ptr(u)..Ptr(u) + n]
  {
    assert m'[Ptr(u)..Ptr(u) + n] == Payload(m', u, live[u])[..n];
    assert m[Ptr(u)..Ptr(u) + n] == Payload(m, u, live[u])[..n];
  }

  /** One more byte is copied. */
  lemma OneMore(m: Bytes, m1: Bytes, m2: Bytes, from: int, to: int, i: int)
    requires 0 <= i && 0 <= from && 0 <= to && from + i < |m| && to + i < |m1| && from + i < |m1|
    requires m1[from..from + (i + 1)] == m[from..from + (i + 1)] && m1[to..to + i] == m[from..from + i]
    requires m2 == m1[to + i := m1[from + i]]
    ensures m2[to..to + (i + 1)] == m[from..from + (i + 1)]
  {
    assert m1[from + i] == m1[from..from + (i + 1)][i] == m[from + i];
    assert m2[to..to + (i + 1)] == m1[to..to + i] + [m1[from + i]];
    assert m[from..from + (i + 1)] == m[from..from + i] + [m[from + i]];
  }

  /** Blocks outside the units that change keep their payloads. */
  lemma KeptOutside(mem: Bytes, mem': Bytes, a: int, e: int, live: map<int, int>)
    requires InHeap(mem, live) && UnitsSame(mem, mem', a, e)
    requires forall u :: u in live ==> u + live[u] <= a || e <= u
    ensures PayloadsKept(mem, mem', live)
  {
  }

  lemma LiveInHeap(mem: Bytes, l: Layout, N: int)
    requires Tagged(mem, l, N)
    ensures InHeap(mem, Live(l)) && |mem| == 16 * N + 16
  {
  }

  lemma TiledHeap(mem: Bytes, l: Layout, N: int)
    requires Tagged(mem, l, N)
    ensures |mem| == 16 * N + 16 && N >= 0 && Tiled(l, N)
  {
  }

  // ----- layouts -----

  ghost predicate Large(l: Layout) {
    forall u :: u in l.size ==> l.size[u] >= 2
  }

  /** No free block has n units. */
  ghost predicate NoFit(l: Layout, n: int) {
    forall u :: u in l.free && u in l.size ==> l.size[u] < n
  }

  /** How many units of a free block are taken for n: all of them if what remains would be too small for a block. */
  function Cut(size: int, n: int): int {
    if size - n >= 2 then n else size
  }

  /** The same blocks, but s counts as free. */
  ghost function Marked(l: Layout, s: int): Layout {
    Layout(l.size, l.free + {s})
  }

  /** A live block of n units after the last one. */
  ghost function Extended(l: Layout, N: int, n: int): Layout {
    Layout(l.size[N := n], l.free)
  }

  lemma MarkedTagged(mem: Bytes, mem': Bytes, l: Layout, N: int, s: int)
    requires Tagged(mem, l, N) && s in l.size && s !in l.free
    requires UnitsSame(mem, mem', s, s + l.size[s]) && Ends(mem', s, l.size[s], false)
    ensures Tagged(mem', Marked(l, s), N)
  {
    hide Ends, UnitsSame, Framed;
    Retagged(mem, mem', l, Marked(l, s), N, s, s + l.size[s]);
  }

  lemma TakenTagged(mem: Bytes, mem': Bytes, l: Layout, N: int, s: int, n: int)
    requires Tagged(mem, l, N) && s in l.free && s in l.size && 1 <= n <= l.size[s]
    requires UnitsSame(mem, mem', s, s + l.size[s]) && Ends(mem', s, n, true)
    requires n < l.size[s] ==> Ends(mem', s + n, l.size[s] - n, false)
    ensures Tagged(mem', Taken(l, s, n), N)
  {
    hide Ends, UnitsSame, Framed, Taken, Tiled;
    TiledHeap(mem, l, N);
    BlockTag(mem, l, N, s);
    TakenTiled(l, N, s, n);
    TakenChunks(l, N, s, n);
    Retagged(mem, mem', l, Taken(l, s, n), N, s, s + l.size[s]);
  }

  lemma ReleasedTagged(mem: Bytes, mem': Bytes, l: Layout, N: int, s: int, a: int)
    requires Tagged(mem, Marked(l, s), N) && Tiled(l, N) && Coalesced(l)
    requires s in l.size && s !in l.free && Front(l, s, a)
    requires UnitsSame(mem, mem', a, Back(l, s)) && Ends(mem', a, Back(l, s) - a, false)
    ensures Tagged(mem', Released(l, s, a), N)
  {
    hide Ends, UnitsSame, Framed;
    ReleasedChunks(l, N, s, a);
    ReleasedTiled(l, N, s, a);
    Retagged(mem, mem', Marked(l, s), Released(l, s, a), N, a, Back(l, s));
  }

  lemma ReleasedTiled(l: Layout, N: int, s: int, a: int)
    requires Tiled(l, N) && Coalesced(l) && s in l.size && s !in l.free && Front(l, s, a)
    ensures Tiled(Released(l, s, a), N) && 0 <= a <= Back(l, s) <= N && (Large(l) ==> Large(Released(l, s, a)))
  {
    ReleasedBounded(l, N, s, a);
    ReleasedChained(l, N, s, a);
    ReleasedApart(l, N, s, a);
    ReleasedChunks(l, N, s, a);
  }

  /** The live blocks other than s lie outside the block that s becomes part of. */
  lemma ReleasedOutside(l: Layout, N: int, s: int, a: int)
    requires Tiled(l, N) && Coalesced(l) && s in l.size && s !in l.free && Front(l, s, a)
    ensures forall u :: u in Live(l) && u != s ==> u + l.size[u] <= a || Back(l, s) <= u
  {
  }

  /** The header at a block or at the end. */
  lemma HeaderAt(mem: Bytes, l: Layout, N: int, u: int)
    requires Tagged(mem, l, N) && (u in l.size || u == N || u == 0)
    ensures 0 <= u <= N && 8 * Header(u) + 8 <= |mem| && (u in l.size || u == N)
    ensures SizeOf(WordAt(mem, Header(u))) == if u in l.size then l.size[u] else 0
    ensures u in l.size ==> (IsAlloc(WordAt(mem, Header(u))) <==> u !in l.free) && 0 < l.size[u] <= N - u
    ensures u in l.size ==> u + l.size[u] in l.size || u + l.size[u] == N
  {
    hide WordAt;
    TagParts(0, true);
    if u in l.size { TagParts(l.size[u], u !in l.free); }
  }

  lemma BlockTag(mem: Bytes, l: Layout, N: int, u: int)
    requires Tagged(mem, l, N) && u in l.size
    ensures 0 <= u && u + l.size[u] <= N && |mem| == 16 * N + 16 && SizeOf(WordAt(mem, Header(u))) == l.size[u]
  {
    hide WordAt;
    TagParts(l.size[u], u !in l.free);
  }

  lemma SizeRead(mem: Bytes, u: int, size: nat, alloc: bool)
    requires Ends(mem, u, size, alloc)
    ensures 8 * Header(u) + 8 <= |mem| && SizeOf(WordAt(mem, Header(u))) == size
  {
    TagParts(size, alloc);
  }

  lemma SameJoined(m: Bytes, m1: Bytes, m2: Bytes, a: int, b: int, e: int)
    requires UnitsSame(m, m1, a, b) && UnitsSame(m1, m2, b, e) && a <= b <= e
    ensures UnitsSame(m, m2, a, e)
  {
  }

  lemma SameNone(m: Bytes, a: int, e: int)
    ensures UnitsSame(m, m, a, e)
  {
  }

  /** The block after s, */
  lemma NextTag(mem: Bytes, l: Layout, N: int, s: int)
    requires Tagged(mem, Marked(l, s), N) && Tiled(l, N) && s in l.size && s !in l.free
    ensures var e := s + l.size[s];
      && 0 <= s < e <= N && SizeOf(WordAt(mem, Header(s))) == l.size[s] && Ends(mem, s, l.size[s], false)
      && (IsAlloc(WordAt(mem, Header(e))) <==> Back(l, s) == e)
      && (!IsAlloc(WordAt(mem, Header(e))) ==> e + SizeOf(WordAt(mem, Header(e))) == Back(l, s))
  {
    hide WordAt, SizeOf, IsAlloc;
    BlockTag(mem, Marked(l, s), N, s);
    HeaderAt(mem, Marked(l, s), N, s + l.size[s]);
    EndAlloc(mem, Marked(l, s), N);
  }

  lemma EndAlloc(mem: Bytes, l: Layout, N: int)
    requires Tagged(mem, l, N)
    ensures 8 * Header(N) + 8 <= |mem| && IsAlloc(WordAt(mem, Header(N))) && IsAlloc(WordAt(mem, Footer(0)))
  {
    TagParts(0, true);
  }

  /** and the one before it. */
  lemma PrevTag(mem: Bytes, l: Layout, N: int, s: int) returns (p: int)
    requires Tagged(mem, Marked(l, s), N) && Tiled(l, N) && s in l.size && s !in l.free
    ensures 0 <= s <= N && |mem| == 16 * N + 16
    ensures var prev := s - SizeOf(WordAt(mem, Footer(s)));
      && (IsAlloc(WordAt(mem, Footer(s))) ==> Front(l, s, s))
      && (!IsAlloc(WordAt(mem, Footer(s))) ==>
            0 <= prev < s && Front(l, s, prev) && SizeOf(WordAt(mem, Header(prev))) == s - prev)
  {
    hide WordAt, SizeOf, IsAlloc;
    p := Neighbours(mem, Marked(l, s), N, s);
    EndAlloc(mem, Marked(l, s), N);
    if s > 0 {
      TagParts(l.size[p], p !in Marked(l, s).free);
      BlockTag(mem, Marked(l, s), N, p);
      OneBefore(l, N, s, p);
    }
  }

  lemma OneBefore(l: Layout, N: int, s: int, p: int)
    requires Tiled(l, N) && s in l.size && p in l.size && p + l.size[p] == s
    ensures forall k :: k in l.size && k + l.size[k] == s ==> k == p
  {
  }

  /** The heap has grown by a free block. */
  lemma ExtendedTagged(mem: Bytes, mem': Bytes, l: Layout, N: int, n: int)
    requires Tagged(mem, l, N) && n >= 2 && |mem'| == 16 * (N + n) + 16 && mem'[..16 * N + 8] == mem[..16 * N + 8]
    requires Ends(mem', N, n, false) && WordAt(mem', Header(N + n)) == Tag(0, true)
    ensures Tagged(mem', Marked(Extended(l, N, n), N), N + n)
  {
    hide WordAt;
    var l' := Marked(Extended(l, N, n), N);
    forall i | 0 <= i < 16 * N + 8 ensures mem'[i] == mem[i] { assert mem'[..16 * N + 8][i] == mem[..16 * N + 8][i]; }
    WordSame(mem, mem', Footer(0));
    forall u | u in l'.size ensures Ends(mem', u, l'.size[u], u !in l'.free) {
      if u != N {
        WordSame(mem, mem', Header(u));
        WordSame(mem, mem', Footer(u + l.size[u]));
      }
    }
  }

  lemma ExtendedLayout(l: Layout, N: int, n: int)
    requires Tiled(l, N) && Coalesced(l) && Large(l) && n >= 2 && N >= 0
    ensures var l' := Extended(l, N, n);
      && Tiled(l', N + n) && Coalesced(l') && Large(l') && N in l'.size && N !in l'.free
      && N !in Live(l) && Live(l') == Live(l)[N := n]
  {
    assert forall u :: u in l.free ==> u in l.size && u < N;
  }

  lemma ExtendedKept(mem: Bytes, mem': Bytes, l: Layout, N: int)
    requires Tagged(mem, l, N) && |mem'| >= |mem| && mem'[..16 * N + 8] == mem[..16 * N + 8]
    ensures PayloadsKept(mem, mem', Live(l))
  {
    forall u | u in Live(l) ensures Payload(mem', u, Live(l)[u]) == Payload(mem, u, Live(l)[u]) {
      var k := Live(l)[u];
      assert Payload(mem', u, k) == mem'[..16 * N + 8][16 * u + 16..16 * (u + k)];
      assert Payload(mem, u, k) == mem[..16 * N + 8][16 * u + 16..16 * (u + k)];
    }
  }

  /** What a release does to the live blocks. */
  lemma ReleasedKept(mem: Bytes, mem': Bytes, l: Layout, N: int, s: int, a: int)
    requires Tiled(l, N) && Coalesced(l) && s in l.size && s !in l.free && Front(l, s, a) && InHeap(mem, Live(l))
    requires UnitsSame(mem, mem', a, Back(l, s))
    ensures Live(Released(l, s, a)) == Live(l) - {s} && PayloadsKept(mem, mem', Live(l) - {s})
    ensures var t := Released(l, s, a); 0 <= a && a in t.size && a in t.free && t.size[a] >= l.size[s]
  {
    ReleasedLive(l, N, s, a);
    ReleasedOutside(l, N, s, a);
    ReleasedChunks(l, N, s, a);
    KeptOutside(mem, mem', a, Back(l, s), Live(l) - {s});
  }

  /** Whether the heap, of so many bytes, can grow by n units: `mem_sbrk` takes a signed number. */
  predicate CanGrow(bytes: int, limit: int, n: int, granted: bool) {
    granted && 16 * n < 0x8000_0000 && bytes + 16 * n <= limit
  }

  /** No free block before u has n units. */
  ghost predicate FirstFit(l: Layout, n: int, u: int) {
    forall v :: v in l.free && v in l.size && v < u ==> l.size[v] < n
  }

  lemma FirstFitNone(mem: Bytes, l: Layout, N: int, n: int)
    requires Tagged(mem, l, N)
    ensures FirstFit(l, n, 0)
  {
  }

  lemma FirstFitMore(mem: Bytes, l: Layout, N: int, n: int, u: int)
    requires Tagged(mem, l, N) && u in l.size && FirstFit(l, n, u) && (u in l.free ==> l.size[u] < n)
    ensures FirstFit(l, n, u + l.size[u])
  {
  }

  lemma FirstFitEnd(mem: Bytes, l: Layout, N: int, n: int, u: int)
    requires Tagged(mem, l, N) && u !in l.size && u == N && FirstFit(l, n, u)
    ensures NoFit(l, n)
  {
  }

  /** How many units the heap is extended by for a request. */
  function Extent(size: nat): nat {
    if Asize(size) / 16 > CHUNK then Asize(size) / 16 else CHUNK
  }

  /** Some free block has so many bytes. */
  ghost predicate Fits(l: Layout, bytes: int) {
    exists u :: u in l.free && u in l.size && 16 * l.size[u] >= bytes
  }

  /** How a request goes, in bytes: a block takes the request rounded up to 16 and 16 more. When a free block has as
      many, it is used; otherwise the heap must grow by the larger of that and 4096, which the system grants or not, and
      which must stay below 2^31 and within the limit. */
  ghost predicate Served(l: Layout, before: int, after: int, limit: int, size: nat, granted: bool, bp: int) {
    var need := if size <= MAX_REQUEST then (size + 15) / 16 * 16 + 16 else if size <= MAX_REQUEST + 16 then 0 else 16;
    var growth := if need > 4096 then need else 4096;
    if size == 0 then bp == 0 && after == before
    else if Fits(l, need) then bp != 0 && after == before
    else
      && (bp != 0 <==> granted && growth < 0x8000_0000 && before + growth <= limit)
      && after == before + if bp != 0 then growth else 0
  }

  /** Which block serves a request of at most MAX_REQUEST bytes: the first free one that is large enough, if there is
      one, with as many bytes as are needed, or 16 more when these would be too few for a block. */
  ghost predicate WellPlaced(l: Layout, u: int, units: int, size: nat) {
    var need := (size + 15) / 16 * 16 + 16;
    && need <= 16 * units <= need + 16
    && (Fits(l, need) ==>
         && u in l.free && u in l.size && 16 * l.size[u] >= need && 16 * (l.size[u] - units) != 16
         && forall v :: v in l.free && v in l.size && v < u ==> 16 * l.size[v] < need)
  }

  lemma AsizeInBytes(size: nat)
    requires 0 < size < WORD
    ensures Asize(size) == if size <= MAX_REQUEST then (size + 15) / 16 * 16 + 16
      else if size <= MAX_REQUEST + 16 then 0 else 16
    ensures 16 * (Asize(size) / 16) == Asize(size)
    ensures 16 * Extent(size) == if Asize(size) > 4096 then Asize(size) else 4096
  {
    RequestFits(size);
    Wraps(size + 15);
    var q := Wrap(size + 15) / 16;
    assert 16 * q <= Wrap(size + 15) < 16 * q + 16;
    Wraps(16 * q);
    Wraps(RoundUp(size) + 16);
  }

  /** A request that is too large and for which nothing is found. */
  lemma NothingServed(l: Layout, before: int, limit: int, size: nat, granted: bool)
    requires size < WORD
    ensures size > MAX_REQUEST && !Fits(l, Asize(size)) && !(granted && before + 4096 <= limit) ==>
      forall after, bp :: Served(l, before, after, limit, size, granted, bp) ==> bp == 0
    ensures size == 0 ==> Served(l, before, before, limit, size, granted, 0)
  {
    if size > 0 { AsizeInBytes(size); }
  }

  lemma FitsUnits(l: Layout, n: int)
    ensures Fits(l, 16 * n) <==> !NoFit(l, n)
  {
  }

  /** Prologue and epilogue alone */
  lemma StartTagged(mem: Bytes)
    requires mem == ToBytes(Tag(0, true), 8) + ToBytes(Tag(0, true), 8)
    ensures Tagged(mem, Layout(map[], {}), 0)
  {
    TagFits(0, true);
    BytesBack(Tag(0, true), 8);
    assert mem[0..8] == ToBytes(Tag(0, true), 8) && mem[8..16] == ToBytes(Tag(0, true), 8);
  }

  lemma GrownSame(m: Bytes, m1: Bytes, m2: Bytes, m3: Bytes, N: int, n: int)
    requires N >= 0 && |m| == 16 * N + 16 && n >= 2 && |m1| == |m| + 16 * n && m1[..|m|] == m
    requires UnitsSame(m1, m2, N, N + n) && m3 == Write(m2, Header(N + n), Tag(0, true))
    ensures |m3| == 16 * (N + n) + 16 && m3[..16 * N + 8] == m[..16 * N + 8]
    ensures WordAt(m3, Header(N + n)) == Tag(0, true) && (Ends(m2, N, n, false) ==> Ends(m3, N, n, false))
  {
    TagFits(0, true);
    Written(m2, Header(N + n), Tag(0, true));
    forall i | 0 <= i < 16 * N + 8 ensures m3[i] == m[i] { assert m1[..|m|][i] == m[i]; }
    WordSame(m2, m3, Header(N));
    WordSame(m2, m3, Footer(N + n));
  }

  lemma MarkedInHeap(mem: Bytes, l: Layout, N: int, s: int)
    requires Tagged(mem, Marked(l, s), N)
    ensures InHeap(mem, Live(l))
  {
  }

  /** The block that was placed is live. */
  lemma PlacedLive(mem: Bytes, l: Layout, N: int, u: int, n: int)
    requires Tagged(mem, l, N) && u in l.free && u in l.size && 1 <= n <= l.size[u]
    requires l.size[u] >= 2
    ensures var k := Cut(l.size[u], n);
      k >= n && (n == 1 ==> k <= 2) && u !in Live(l) && Live(Taken(l, u, k)) == Live(l)[u := k] && 0 <= u
  {
    TakenLive(l, N, u, Cut(l.size[u], n));
  }

  lemma BlocksApart(l: Layout, N: int, s: int)
    requires Tiled(l, N) && s in l.size
    ensures forall u :: u in l.size ==> l.size[u] > 0 && (u != s ==> u + l.size[u] <= s || s + l.size[s] <= u)
  {
  }

  lemma StoredEnds(mem: Bytes, u: int, size: int, i: int, b: Byte)
    requires Ends(mem, u, size, true) && 16 * u + 16 <= i < 16 * (u + size)
    ensures Ends(mem[i := b], u, size, true) && UnitsSame(mem, mem[i := b], u, u + size)
  {
    WordSame(mem, mem[i := b], Header(u));
    WordSame(mem, mem[i := b], Footer(u + size));
  }

  /** Writing a byte of a payload leaves the tags and the other payloads alone. */
  lemma StoredTagged(mem: Bytes, l: Layout, N: int, u: int, i: int, b: Byte)
    requires Tagged(mem, l, N) && u in Live(l) && 16 * u + 16 <= i < 16 * (u + l.size[u])
    ensures 0 <= i < |mem| && Tagged(mem[i := b], l, N) && PayloadsKept(mem, mem[i := b], Live(l) - {u})
  {
    hide Ends, UnitsSame, Framed, Tiled;
    TiledHeap(mem, l, N);
    BlockTag(mem, l, N, u);
    var mem' := mem[i := b];
    StoredEnds(mem, u, l.size[u], i, b);
    BlocksApart(l, N, u);
    Retagged(mem, mem', l, l, N, u, u + l.size[u]);
    LiveInHeap(mem, l, N);
    KeptOutside(mem, mem', u, u + l.size[u], Live(l) - {u});
  }

  /** The live blocks other than the one that a pointer, if it is not null, is for. */
  ghost function Others(live: map<int, int>, bp: int): map<int, int> {
    if bp == 0 then live else live - {BlockOf(bp)}
  }

  /** How many bytes are copied: the old payload, or as much of it as is asked for. */
  ghost function Copied(l: Layout, ptr: int, size: nat): int
    requires BlockOf(ptr) in Live(l)
  {
    var payload := 16 * Live(l)[BlockOf(ptr)] - 16;
    if size < payload then size else payload
  }

  /** The n bytes at q are those that were at p. */
  ghost predicate SameData(mem: Bytes, p: int, mem': Bytes, q: int, n: int) {
    0 <= p && 0 <= q && 0 <= n && p + n <= |mem| && q + n <= |mem'| && mem'[q..q + n] == mem[p..p + n]
  }

  lemma LargeAt(l: Layout, u: int)
    ensures Large(l) && u in l.size ==> l.size[u] >= 2
  {
  }

  lemma AsizeOfNone()
    ensures Asize(0) == 16
  {
  }

  lemma TakenLarge(l: Layout, u: int, n: int)
    requires Large(l) && u in l.size && 1 <= n <= l.size[u]
    ensures n >= 2 ==> Large(Taken(l, u, Cut(l.size[u], n)))
  {
  }

  /** The live blocks do not notice. */
  lemma PlacedKept(mem: Bytes, mem': Bytes, l: Layout, N: int, u: int)
    requires Tagged(mem, l, N) && u in l.free && u in l.size && UnitsSame(mem, mem', u, u + l.size[u])
    ensures PayloadsKept(mem, mem', Live(l))
  {
    LiveInHeap(mem, l, N);
    KeptOutside(mem, mem', u, u + l.size[u], Live(l));
  }

  /** Taking nothing of a free block writes the footer before it: the heap stays in order only if that is the last word
      of the prologue. */
  lemma PlacedNothing(mem: Bytes, m: Bytes, mem': Bytes, l: Layout, N: int, u: int)
    requires Tagged(mem, l, N) && Coalesced(l) && u in l.free && u in l.size
    requires SameBut(mem, m, 16 * u, 16 * u + 16) && Ends(m, u, 0, true)
    requires UnitsSame(m, mem', u, u + l.size[u]) && Ends(mem', u, l.size[u], false)
    ensures Tagged(mem', l, N) <==> u == 0
  {
    hide WordAt;
    WordSame(m, mem', Footer(u));
    if u == 0 {
      WordSame(mem, mem', Header(N));
      forall v | v in l.size ensures Ends(mem', v, l.size[v], v !in l.free) {
        if v != u {
          WordSame(mem, mem', Header(v));
          WordSame(mem, mem', Footer(v + l.size[v]));
        }
      }
    } else {
      var p := Cover(l, N, u - 1);
      assert p + l.size[p] == u;
      assert Ends(mem, p, l.size[p], p !in l.free);
      TagParts(0, true);
      TagParts(l.size[p], p !in l.free);
    }
  }

  class Heap {
    /** How many bytes the heap may take. */
    const limit: int
    var mem: Bytes
    ghost var layout: Layout

    ghost function N(): int
      reads this`mem
    {
      |mem| / 16 - 1
    }

    ghost predicate Fine(l: Layout)
      reads this`mem
    {
      |mem| <= limit < WORD && Tagged(mem, l, N())
    }

    ghost predicate Valid()
      reads this
    {
      Fine(layout) && Coalesced(layout) && Large(layout)
    }

    /** A pointer that was handed out and not freed. */
    ghost predicate IsLive(bp: int)
      reads this
    {
      BlockOf(bp) in Live(layout) && bp == Ptr(BlockOf(bp))
    }

    method WriteTags(u: int, size: int, alloc: bool)
      requires 0 <= u && 0 <= size && 16 * (u + size) + 16 <= |mem| < WORD
      modifies this`mem
      ensures Ends(mem, u, size, alloc) && |mem| == |old(mem)|
      ensures size >= 1 ==> UnitsSame(old(mem), mem, u, u + size)
      ensures size == 0 ==> SameBut(old(mem), mem, 16 * u, 16 * u + 16)
    {
      TiedEnds(mem, u, size, alloc);
      WriteHeader(u, size, alloc);
      WriteFooter(u, size, alloc);
    }

    method WriteHeader(u: int, size: int, alloc: bool)
      requires 0 <= u && 0 <= size && 16 * u + 16 <= |mem| && 16 * size < WORD
      modifies this`mem
      ensures mem == Write(old(mem), Header(u), Tag(size, alloc)) && WordAt(mem, Header(u)) == Tag(size, alloc)
    {
      TagFits(size, alloc);
      Written(mem, Header(u), Tag(size, alloc));
      mem := Write(mem, Header(u), Tag(size, alloc));
    }

    /** The footer's place is found through the header. */
    method WriteFooter(u: int, size: int, alloc: bool)
      requires 0 <= u && 0 <= size && 16 * (u + size) + 16 <= |mem| && WordAt(mem, Header(u)) == Tag(size, alloc)
      modifies this`mem
      ensures mem == Write(old(mem), Footer(u + size), Tag(size, alloc))
    {
      TagParts(size, alloc);
      mem := Write(mem, Footer(u + SizeOf(WordAt(mem, Header(u)))), Tag(size, alloc));
    }

    /** `find_fit`: the first free block of at least n units, -1 when there is none. */
    method FindFit(n: int) returns (u: int)
      requires Valid()
      ensures u == -1 ==> NoFit(layout, n)
      ensures u != -1 ==> u in layout.free && u in layout.size && layout.size[u] >= n
      ensures u != -1 ==> FirstFit(layout, n, u)
    {
      hide WordAt, SizeOf, IsAlloc, Tagged;
      u := 0;
      HeaderAt(mem, layout, N(), u);
      FirstFitNone(mem, layout, N(), n);
      while SizeOf(WordAt(mem, Header(u))) > 0
        invariant 0 <= u <= N() && (u in layout.size || u == N()) && 8 * Header(u) + 8 <= |mem|
        invariant SizeOf(WordAt(mem, Header(u))) == if u in layout.size then layout.size[u] else 0
        invariant FirstFit(layout, n, u)
        decreases N() - u
      {
        HeaderAt(mem, layout, N(), u);
        if !IsAlloc(WordAt(mem, Header(u))) && n <= SizeOf(WordAt(mem, Header(u))) {
          return u;
        }
        FirstFitMore(mem, layout, N(), n, u);
        HeaderAt(mem, layout, N(), u + layout.size[u]);
        u := u + SizeOf(WordAt(mem, Header(u)));
      }
      HeaderAt(mem, layout, N(), u);
      FirstFitEnd(mem, layout, N(), n, u);
      return -1;
    }

    /** `place`: the first n units of a free block become live, or all of it when the rest would be too small. Nothing
        makes n at least 2 but the caller; when it is 0, the block stays free and the footer before is overwritten. */
    method Place(u: int, n: int)
      requires Valid() && u in layout.free && u in layout.size && 0 <= n <= layout.size[u]
      modifies this
      ensures |mem| == |old(mem)| && Coalesced(layout)
      ensures n >= 1 ==> Fine(layout) && layout == Taken(old(layout), u, Cut(old(layout).size[u], n))
      ensures n >= 1 ==> PayloadsKept(old(mem), mem, Live(old(layout)))
      ensures n >= 2 ==> Valid()
      ensures n == 0 ==> layout == old(layout) && (Fine(layout) <==> u == 0)
    {
      hide Ends, UnitsSame, WordAt, Framed, Tagged, Tiled, Coalesced, SameBut, Large, SizeOf, Taken;
      ghost var l, k := layout, Cut(layout.size[u], n);
      BlockTag(mem, l, N(), u);
      TiledHeap(mem, l, N());
      LargeAt(l, u);
      var csize := SizeOf(WordAt(mem, Header(u)));
      if csize - n >= 2 {
        WriteTags(u, n, true);
        SizeRead(mem, u, n, true);
        var next := u + SizeOf(WordAt(mem, Header(u)));
        ghost var m := mem;
        WriteTags(next, csize - n, false);
        if n == 0 {
          PlacedNothing(old(mem), m, mem, l, N(), u);
          return;
        }
        EndsSame(m, mem, next, next + (csize - n), u, n, true);
        SameJoined(old(mem), m, mem, u, u + n, u + csize);
      } else {
        WriteTags(u, csize, true);
      }
      TakenCoalesced(l, N(), u, k);
      TakenTagged(old(mem), mem, l, N(), u, k);
      TakenLarge(l, u, n);
      PlacedKept(old(mem), mem, l, N(), u);
      layout := Taken(l, u, k);
    }

    /** `coalesce` of block s, whose tags already say that it is free. */
    method Coalesce(s: int) returns (a: int)
      requires Fine(Marked(layout, s)) && Tiled(layout, N()) && Coalesced(layout) && Large(layout)
      requires s in layout.size && s !in layout.free
      modifies this
      ensures Valid() && |mem| == |old(mem)| && Front(old(layout), s, a) && layout == Released(old(layout), s, a)
      ensures UnitsSame(old(mem), mem, a, Back(old(layout), s))
    {
      hide Ends, UnitsSame, WordAt, Framed, Released, Back, Tiled, Coalesced, Large, SizeOf, IsAlloc, Tagged, Front;
      ghost var l := layout;
      ghost var p := PrevTag(mem, l, N(), s);
      NextTag(mem, l, N(), s);
      var size := SizeOf(WordAt(mem, Header(s)));
      var next, prev := s + size, s - SizeOf(WordAt(mem, Footer(s)));
      var prev_alloc, next_alloc := IsAlloc(WordAt(mem, Footer(s))), IsAlloc(WordAt(mem, Header(next)));
      if next_alloc && prev_alloc {
        a := s;
        SameNone(mem, a, next);
      } else {
        if !next_alloc {
          size := size + SizeOf(WordAt(mem, Header(next)));
        }
        a := s;
        if !prev_alloc {
          size := size + SizeOf(WordAt(mem, Header(prev)));
          a := prev;
        }
        ReleasedTiled(l, N(), s, a);
        WriteTags(a, size, false);
      }
      ReleasedTiled(l, N(), s, a);
      ReleasedCoalesced(l, N(), s, a);
      ReleasedTagged(old(mem), mem, l, N(), s, a);
      layout := Released(l, s, a);
    }

    /** `mem_init` and the first words of `mm_init`, and the first extension of the heap, which may be refused. */
    constructor (limit: int, granted: bool)
      requires 16 <= limit < WORD
      ensures Valid() && this.limit == limit && Live(layout) == map[]
      ensures |mem| == if granted && 16 + 4096 <= limit then 16 + 4096 else 16
    {
      this.limit := limit;
      mem := ToBytes(Tag(0, true), 8) + ToBytes(Tag(0, true), 8);
      layout := Layout(map[], {});
      new;
      StartTagged(mem);
      var u := ExtendHeap(CHUNK, granted);
    }

    /** `mem_sbrk`: the new bytes are what they happen to be. */
    method Sbrk(n: int, granted: bool) returns (ok: bool)
      requires n >= 0
      modifies this`mem
      ensures ok <==> CanGrow(|old(mem)|, limit, n, granted)
      ensures if ok then |mem| == |old(mem)| + 16 * n && mem[..|old(mem)|] == old(mem) else mem == old(mem)
    {
      ok := CanGrow(|mem|, limit, n, granted);
      if ok {
        assert |ToBytes(0, 16 * n)| == 16 * n;
        var more: Bytes :| |more| == 16 * n;
        mem := mem + more;
      }
    }

    /** `extend_heap` by n units */
    method ExtendHeap(n: int, granted: bool) returns (u: int)
      requires Valid() && n >= 2
      modifies this
      ensures Valid() && (u != -1 <==> CanGrow(|old(mem)|, limit, n, granted))
      ensures u == -1 ==> mem == old(mem) && layout == old(layout)
      ensures u != -1 ==> u in layout.free && u in layout.size && layout.size[u] >= n && |mem| == |old(mem)| + 16 * n
      ensures Live(layout) == Live(old(layout)) && PayloadsKept(old(mem), mem, Live(old(layout)))
    {
      hide Ends, WordAt, Write, Framed, Payload, Taken, Released, PayloadsKept, Tagged, Tiled, Coalesced, Large,
        UnitsSame;
      ghost var l, M, m := layout, N(), mem;
      LiveInHeap(mem, l, M);
      TiledHeap(mem, l, M);
      KeptSame(mem, Live(l));
      var block := |mem| / 16 - 1;
      var ok := Sbrk(n, granted);
      if !ok {
        return -1;
      }
      ghost var m1 := mem;
      WriteTags(block, n, false);
      ghost var m2 := mem;
      WriteHeader(block + n, 0, true);
      GrownSame(m, m1, m2, mem, M, n);
      ExtendedTagged(m, mem, l, M, n);
      ExtendedLayout(l, M, n);
      ExtendedKept(m, mem, l, M);
      layout := Extended(l, M, n);
      ghost var m3, l1 := mem, layout;
      MarkedInHeap(m3, l1, M + n, M);
      u := Coalesce(block);
      ReleasedKept(m3, mem, l1, M + n, M, u);
      assert Live(l1) - {M} == Live(l);
      KeptChain(m, m3, mem, Live(l), Live(l));
    }

    /** `_malloc`; the result is 0 when there is no block. For a request that is too large the pointer is for a block
        without room, or for one that is still free. */
    method Malloc(size: nat, granted: bool) returns (bp: int)
      requires Valid() && size < WORD
      modifies this
      ensures size <= MAX_REQUEST || bp == 0 ==> Valid()
      ensures Served(old(layout), |old(mem)|, |mem|, limit, size, granted, bp)
      ensures bp != 0 && size <= MAX_REQUEST ==>
        IsLive(bp) && WellPlaced(old(layout), BlockOf(bp), Live(layout)[BlockOf(bp)], size)
      ensures bp == 0 ==> mem == old(mem) && layout == old(layout)
      ensures size <= MAX_REQUEST || Asize(size) == 16 ==> PayloadsKept(old(mem), mem, Live(old(layout)))
      ensures bp != 0 && (size <= MAX_REQUEST || Asize(size) == 16) ==> var u := BlockOf(bp);
        && u !in Live(old(layout)) && IsLive(bp) && Live(layout) == Live(old(layout))[u := Live(layout)[u]]
        && (16 * Live(layout)[u] - 16 >= size <==> size <= MAX_REQUEST) && Fine(layout)
      ensures bp != 0 && Asize(size) == 0 ==>
        BlockOf(bp) in layout.free && Live(layout) == Live(old(layout)) && (Fine(layout) <==> BlockOf(bp) == 0)
    {
      hide Tagged, PayloadsKept, Taken, Asize, Tiled, Coalesced, Large;
      LiveInHeap(mem, layout, N());
      KeptSame(mem, Live(layout));
      if size == 0 {
        AsizeOfNone();
        return 0;
      }
      RequestFits(size);
      AsizeInBytes(size);
      var n := Asize(size) / 16;
      FitsUnits(layout, n);
      ghost var m, l := mem, layout;
      var block := FindFit(n);
      if block == -1 {
        block := ExtendHeap(Extent(size), granted);
        if block == -1 {
          return 0;
        }
      }
      ghost var m1, l1 := mem, layout;
      LargeAt(layout, block);
      Place(block, n);
      if n >= 1 {
        PlacedLive(m1, l1, N(), block, n);
        KeptChain(m, m1, mem, Live(l), Live(l1));
      }
      bp := Ptr(block);
    }

    /** `_free`; the null pointer is ignored. */
    method Free(bp: int)
      requires Valid() && (bp != 0 ==> IsLive(bp))
      modifies this
      ensures Valid() && |mem| == |old(mem)|
      ensures bp == 0 ==> mem == old(mem) && layout == old(layout)
      ensures bp != 0 ==>
        Live(layout) == Live(old(layout)) - {BlockOf(bp)} && PayloadsKept(old(mem), mem, Live(layout))
    {
      hide Ends, WordAt, Framed, Payload, Taken, Released, UnitsSame, PayloadsKept, Tagged, Tiled, Coalesced, Large;
      if bp == 0 {
        return;
      }
      var block := BlockOf(bp);
      ghost var l, m := layout, mem;
      LiveInHeap(mem, l, N());
      TiledHeap(mem, l, N());
      BlockTag(mem, l, N(), block);
      var size := SizeOf(WordAt(mem, Header(block)));
      WriteTags(block, size, false);
      ghost var m1 := mem;
      MarkedTagged(m, m1, l, N(), block);
      BlocksApart(l, N(), block);
      KeptOutside(m, m1, block, block + size, Live(l) - {block});
      MarkedInHeap(m1, l, N(), block);
      var a := Coalesce(block);
      ReleasedKept(m1, mem, l, N(), block, a);
      KeptChain(m, m1, mem, Live(l) - {block}, Live(l) - {block});
    }

    /** A client writes byte i of its block. */
    method Store(bp: int, i: int, b: Byte)
      requires Valid() && IsLive(bp) && 0 <= i < 16 * Live(layout)[BlockOf(bp)] - 16
      modifies this`mem
      ensures Valid() && mem == old(mem)[bp + i := b] && PayloadsKept(old(mem), mem, Live(layout) - {BlockOf(bp)})
    {
      hide Ends, WordAt, Framed;
      ghost var u := BlockOf(bp);
      StoredTagged(mem, layout, N(), u, bp + i, b);
      mem := mem[bp + i := b];
    }

    /** `memcpy` from one block to another */
    method Copy(to: int, from: int, n: int)
      requires Valid() && IsLive(to) && IsLive(from) && to != from && 0 <= n
      requires n <= 16 * Live(layout)[BlockOf(to)] - 16 && n <= 16 * Live(layout)[BlockOf(from)] - 16
      modifies this`mem
      ensures Valid() && |mem| == |old(mem)| && PayloadsKept(old(mem), mem, Live(layout) - {BlockOf(to)})
      ensures InHeap(mem, Live(layout)) && mem[to..to + n] == old(mem)[from..from + n]
    {
      hide Tagged, PayloadsKept, Tiled, Coalesced, Large, Payload, BlockOf, Ptr;
      ghost var m, rest := mem, Live(layout) - {BlockOf(to)};
      LiveInHeap(mem, layout, N());
      PtrInHeap(mem, Live(layout), BlockOf(from), n);
      PtrInHeap(mem, Live(layout), BlockOf(to), n);
      KeptSame(mem, rest);
      var i := 0;
      while i < n
        invariant 0 <= i <= n && Valid() && |mem| == |m| && PayloadsKept(m, mem, rest)
        invariant mem[to..to + i] == m[from..from + i]
      {
        ghost var m1 := mem;
        SliceKept(m, mem, rest, BlockOf(from), i + 1);
        Store(to, i, mem[from + i]);
        KeptChain(m, m1, mem, rest, rest);
        OneMore(m, m1, mem, from, to, i);
        i := i + 1;
      }
    }

    /** What `_realloc` does once it has a new block: the data move there, and the old block is freed. */
    method Move(ptr: int, newptr: int, size: nat)
      requires Valid() && IsLive(ptr) && IsLive(newptr) && ptr != newptr
      requires 16 * Live(layout)[BlockOf(newptr)] - 16 >= size
      modifies this
      ensures Valid() && Live(layout) == Live(old(layout)) - {BlockOf(ptr)} && |mem| == |old(mem)|
      ensures PayloadsKept(old(mem), mem, Live(old(layout)) - {BlockOf(ptr)} - {BlockOf(newptr)})
      ensures SameData(old(mem), ptr, mem, newptr, Copied(old(layout), ptr, size))
    {
      hide Tagged, PayloadsKept, WordAt;
      ghost var m, live, n := mem, Live(layout), Copied(layout, ptr, size);
      ghost var rest := live - {BlockOf(ptr)} - {BlockOf(newptr)};
      LiveInHeap(mem, layout, N());
      BlockTag(mem, layout, N(), BlockOf(ptr));
      var copysize := 16 * SizeOf(WordAt(mem, Header(BlockOf(ptr)))) - 16;
      if size < copysize {
        copysize := size;
      }
      Copy(newptr, ptr, copysize);
      ghost var m1 := mem;
      Free(ptr);
      SliceKept(m1, mem, Live(layout), BlockOf(newptr), n);
      KeptFewer(m, m1, live - {BlockOf(newptr)}, rest);
      KeptChain(m, m1, mem, rest, Live(layout));
    }

    /** `_realloc`; the result is 0 when the block was only freed or nothing was done. A request that is too large must
        not come to the copy. */
    method Realloc(ptr: int, size: nat, granted: bool) returns (newptr: int)
      requires Valid() && (ptr != 0 ==> IsLive(ptr)) && size < WORD
      requires size <= MAX_REQUEST || ptr == 0 ||
        (!Fits(layout, Asize(size)) && !(granted && |mem| + 4096 <= limit))
      modifies this
      ensures size <= MAX_REQUEST || newptr == 0 ==> Valid()
      ensures size == 0 ==> newptr == 0 && Live(layout) == if ptr == 0 then Live(old(layout))
        else Live(old(layout)) - {BlockOf(ptr)}
      ensures size != 0 && newptr == 0 ==> mem == old(mem) && layout == old(layout)
      ensures Served(old(layout), |old(mem)|, |mem|, limit, size, granted, newptr)
      ensures newptr != 0 && size <= MAX_REQUEST ==>
        IsLive(newptr) && WellPlaced(old(layout), BlockOf(newptr), Live(layout)[BlockOf(newptr)], size)
      ensures newptr != 0 && size <= MAX_REQUEST ==> var u := BlockOf(newptr);
        && u !in Live(old(layout)) && IsLive(newptr) && 16 * Live(layout)[u] - 16 >= size
        && Live(layout) == Others(Live(old(layout)), ptr)[u := Live(layout)[u]]
      ensures size <= MAX_REQUEST || newptr == 0 || Asize(size) == 16 ==>
        PayloadsKept(old(mem), mem, Others(Live(old(layout)), ptr))
      ensures newptr != 0 && size > MAX_REQUEST && Asize(size) == 16 ==> var u := BlockOf(newptr);
        && u !in Live(old(layout)) && IsLive(newptr) && 16 * Live(layout)[u] - 16 < size
        && Live(layout) == Live(old(layout))[u := Live(layout)[u]] && Fine(layout)
      ensures newptr != 0 && size > MAX_REQUEST && Asize(size) == 0 ==>
        BlockOf(newptr) in layout.free && Live(layout) == Live(old(layout)) && (Fine(layout) <==> BlockOf(newptr) == 0)
      ensures newptr != 0 && ptr != 0 ==> SameData(old(mem), ptr, mem, newptr, Copied(old(layout), ptr, size))
    {
      hide Tagged, PayloadsKept, WordAt, Asize, Served, WellPlaced, Fits;
      ghost var m, l := mem, layout;
      NothingServed(l, |m|, limit, size, granted);
      newptr := 0;
      if size == 0 {
        LiveInHeap(mem, layout, N());
        KeptSame(mem, Live(layout));
        Free(ptr);
        return;
      }
      newptr := Malloc(size, granted);
      if newptr == 0 || ptr == 0 {
        LiveInHeap(m, l, |m| / 16 - 1);
        KeptSame(m, Live(l));
        if size <= MAX_REQUEST || newptr == 0 || Asize(size) == 16 {
          KeptFewer(m, mem, Live(l), Others(Live(l), ptr));
        }
        return;
      }
      ghost var m1, l1 := mem, layout;
      assert Live(l1) - {BlockOf(newptr)} == Live(l);
      SliceKept(m, m1, Live(l), BlockOf(ptr), Copied(l, ptr, size));
      Move(ptr, newptr, size);
      KeptFewer(m, m1, Live(l), Others(Live(l), ptr));
      KeptChain(m, m1, mem, Others(Live(l), ptr), Live(l1) - {BlockOf(ptr)} - {BlockOf(newptr)});
    }
  }
}
