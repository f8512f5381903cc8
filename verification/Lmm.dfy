/** The list memory manager: regions with address-ordered free lists, kept in the free memory itself. */
module Lmm {
  import opened Words
  import opened Alignment
  import opened LmmBlocks
  import opened LmmCells

  /** `struct lmm_region`; nodes is the first free block's address, 0 when there is none. */
  class Region {
    const min: int
    const max: int
    const flags: bv32
    var nodes: int
    var free: int
    ghost var list: seq<Block>

    constructor (min: int, max: int, flags: bv32)
      requires 0 <= min < max < WORD
      ensures this.min == min && this.max == max && this.flags == flags && Valid(map[]) && list == []
    {
      this.min, this.max, this.flags, nodes, free, list := min, max, flags, 0, 0, [];
    }

    /** The list is the ascending list of maximal free blocks, and free is their total size. */
    ghost predicate Valid(mem: Mem)
      reads this
    {
      && 0 <= min <= max < WORD && Normal(list) && Within(list, min, max)
      && Seg(mem, nodes, list, 0) && free == Sum(list)
    }
  }

  /** All of the flags asked for are among a region's. */
  predicate HasFlags(have: bv32, flags: bv32) {
    flags & !have == 0
  }

  function Down(x: int): int {
    x - x % ALIGN
  }

  function Up(x: int): int {
    Down(x + ALIGN - 1)
  }

  lemma Masked(have: bv32, flags: bv32)
    ensures flags & !have == 0 ==> have & flags == flags
  {
  }

  lemma Covered(have: bv32, flags: bv32)
    ensures have & flags == flags ==> flags & !have == 0
  {
  }

  /** A region has the flags exactly when those asked for are those that both have. */
  lemma FlagsMean(have: bv32, flags: bv32)
    ensures HasFlags(have, flags) <==> have & flags == flags
  {
    Masked(have, flags);
    Covered(have, flags);
  }

  /** The next multiples of 8 on both sides. */
  lemma WholeUnits(x: int)
    ensures Down(x) % 8 == 0 && Down(x) <= x < Down(x) + 8
    ensures Up(x) % 8 == 0 && x <= Up(x) < x + 8
  {
  }

  /** Block b can give size bytes at a, as asked for. */
  ghost predicate Suits(b: Block, a: int, size: int, m: int, ofs: int, lo: int, hi: int)
    requires m > 0
  {
    b.addr <= a && a + size <= End(b) && lo <= a && a + size <= hi && a % m == ofs % m
  }

  /** Some address in free memory is as asked for. */
  ghost predicate Possible(s: seq<Block>, a: int, size: int, m: int, ofs: int, lo: int, hi: int)
    requires m > 0
  {
    lo <= a && a + size <= hi && a % m == ofs % m && forall x :: a <= x < a + size ==> Has(s, x)
  }

  lemma PossibleSuits(s: seq<Block>, a: int, size: int, m: int, ofs: int, lo: int, hi: int)
    requires Normal(s) && size >= 1 && m > 0
    ensures Possible(s, a, size, m, ofs, lo, hi) <==> exists i :: 0 <= i < |s| && Suits(s[i], a, size, m, ofs, lo, hi)
  {
    if Possible(s, a, size, m, ofs, lo, hi) {
      var i := OneBlock(s, a, size);
      assert Suits(s[i], a, size, m, ofs, lo, hi);
    }
    if i :| 0 <= i < |s| && Suits(s[i], a, size, m, ofs, lo, hi) {
      forall x | a <= x < a + size ensures Has(s, x) { assert In(s[i], x); }
    }
  }

  /** The first address that could do in a block decides about the block, and when it is past the upper bound about all
      later blocks. */
  lemma Candidate(s: seq<Block>, k: int, addr: int, size: int, m: int, ofs: int, lo: int, hi: int)
    requires Normal(s) && 0 <= k < |s| && m > 0 && size >= 1 && NoneBefore(s, k, size, m, ofs, lo, hi)
    requires LeastFrom(addr, if s[k].addr < lo then lo else s[k].addr, m, ofs)
    ensures addr + size > End(s[k]) ==> NoneBefore(s, k + 1, size, m, ofs, lo, hi)
    ensures addr + size <= End(s[k]) && addr + size > hi ==> NoneBefore(s, |s|, size, m, ofs, lo, hi)
    ensures addr + size <= End(s[k]) && addr + size <= hi ==> Suits(s[k], addr, size, m, ofs, lo, hi)
  {
  }

  /** No possible address is lower. */
  ghost predicate Lowest(s: seq<Block>, addr: int, size: int, m: int, ofs: int, lo: int, hi: int)
    requires m > 0
  {
    forall a :: Possible(s, a, size, m, ofs, lo, hi) ==> addr <= a
  }

  /** The first address that could do in the first block that can give what is asked for. */
  lemma FirstIsLowest(s: seq<Block>, k: int, addr: int, size: int, m: int, ofs: int, lo: int, hi: int)
    requires Normal(s) && 0 <= k < |s| && m > 0 && size >= 1 && NoneBefore(s, k, size, m, ofs, lo, hi)
    requires LeastFrom(addr, if s[k].addr < lo then lo else s[k].addr, m, ofs)
    requires Suits(s[k], addr, size, m, ofs, lo, hi)
    ensures Lowest(s, addr, size, m, ofs, lo, hi)
  {
    forall a | Possible(s, a, size, m, ofs, lo, hi) ensures addr <= a {
      PossibleSuits(s, a, size, m, ofs, lo, hi);
      var i :| 0 <= i < |s| && Suits(s[i], a, size, m, ofs, lo, hi);
      assert i >= k;
    }
  }

  /** The bytes an allocation takes: whole units. */
  lemma Units(b: Block, a: int, size: int)
    requires Good(b) && size >= 1 && b.addr <= a && a + size <= End(b)
    ensures Aligned(Down(a)) && Aligned(Up(a + size)) && b.addr <= Down(a) <= a && a + size <= Up(a + size) <= End(b)
    ensures Up(a + size) == Down(a) + Up(a % ALIGN + size)
  {
    DownWithin(b.addr, a);
    UpWithin(a + size, End(b));
    UpFrom(a, size);
  }

  lemma DownWithin(x: int, a: int)
    requires Aligned(x) && x <= a
    ensures Aligned(Down(a)) && x <= Down(a) <= a
  {
  }

  lemma UpWithin(e: int, y: int)
    requires Aligned(y) && e <= y
    ensures Aligned(Up(e)) && e <= Up(e) <= y
  {
  }

  lemma UpFrom(a: int, size: int)
    ensures Up(a + size) == Down(a) + Up(a % ALIGN + size)
  {
  }

  /** Every list without its bytes from a up to e. */
  ghost predicate AllGone(ls: seq<seq<Block>>, ls': seq<seq<Block>>, a: int, e: int) {
    |ls'| == |ls| && forall i :: 0 <= i < |ls| ==> Gone(ls[i], ls'[i], a, e)
  }

  /** No byte is free in two regions. */
  ghost predicate Foreign(ls: seq<seq<Block>>) {
    forall i, j, x :: 0 <= i < |ls| && 0 <= j < |ls| && Has(ls[i], x) && Has(ls[j], x) ==> i == j
  }

  /** The bytes from a up to e, all free and in list `at`, are gone. */
  ghost predicate OneGone(ls: seq<seq<Block>>, ls': seq<seq<Block>>, at: int, a: int, e: int) {
    && |ls'| == |ls| && 0 <= at < |ls| && AllFree(ls[at], a, e) && Gone(ls[at], ls'[at], a, e)
    && forall i :: 0 <= i < |ls| && i != at ==> ls'[i] == ls[i] && NoneFree(ls[i], a, e)
  }

  lemma OnlyThere(ls: seq<seq<Block>>, at: int, a: int, e: int)
    requires Foreign(ls) && 0 <= at < |ls| && AllFree(ls[at], a, e)
    ensures forall i :: 0 <= i < |ls| && i != at ==> NoneFree(ls[i], a, e)
  {
  }

  /** What is asked for within the run's first bytes is their start, and only there. */
  lemma OnePossible(ls: seq<seq<Block>>, at: int, rstart: int, size: int, e: int, n: int)
    requires Foreign(ls) && 0 <= at < |ls| && 0 < size <= n && e == rstart + size && FreeRun(ls[at], rstart, n)
    requires Aligned(rstart)
    ensures Pow2(0) == 1 && Down(rstart) == rstart && Possible(ls[at], rstart, size, 1, 0, rstart, e)
    ensures forall i, a :: 0 <= i < |ls| && Possible(ls[i], a, size, 1, 0, rstart, e) ==> i == at && a == rstart
  {
    assert Has(ls[at], rstart);
  }

  /** One more run is gone. */
  lemma RunGone(ls0: seq<seq<Block>>, ls1: seq<seq<Block>>, ls2: seq<seq<Block>>, a: int, low: int, from: int, r: int,
      e: int, at: int)
    requires AllGone(ls0, ls1, a, low) && a <= from <= low && from <= r < e && OneGone(ls1, ls2, at, r, e)
    requires forall i :: 0 <= i < |ls1| ==> NoneFree(ls1[i], from, r)
    ensures low <= r && AllGone(ls0, ls2, a, e)
  {
    assert Has(ls1[at], r) && Gone(ls0[at], ls1[at], a, low);
    forall i | 0 <= i < |ls0| ensures Gone(ls0[i], ls2[i], a, e) {
      assert Gone(ls0[i], ls1[i], a, low) && NoneFree(ls1[i], from, r);
    }
  }

  /** Nothing is left to remove. */
  lemma AllRemoved(ls0: seq<seq<Block>>, ls1: seq<seq<Block>>, a: int, low: int, from: int, r: int, e: int)
    requires AllGone(ls0, ls1, a, low) && a <= from <= low <= e <= r
    requires forall i :: 0 <= i < |ls1| ==> NoneFree(ls1[i], from, r)
    ensures AllGone(ls0, ls1, a, e)
  {
    forall i | 0 <= i < |ls0| ensures Gone(ls0[i], ls1[i], a, e) {
      assert Gone(ls0[i], ls1[i], a, low) && NoneFree(ls1[i], from, r);
    }
  }

  lemma SameFlags(flags: bv32)
    ensures HasFlags(flags, flags)
  {
  }

  lemma UpMono(x: int, y: int)
    requires x <= y
    ensures x <= Up(x) <= Up(y) < y + ALIGN && Aligned(Up(x)) && (Aligned(x) ==> Up(x) == x)
    ensures (Aligned(y) ==> Up(y) == y) && (x < y ==> Aligned(x) ==> x < Up(y))
  {
  }

  lemma NoneGone(ls: seq<seq<Block>>, a: int)
    ensures AllGone(ls, ls, a, a)
  {
  }

  /** `(vm_offset_t)-1` */
  const NONE := WORD - 1

  lemma NoneThere(s: seq<Block>, mem: Mem, x: int, min: int, max: int, start: int, lowest: int)
    requires Normal(s) && Seg(mem, x, s, 0) && Within(s, min, max) && (x == 0 || max <= start || min > lowest)
    ensures NoneFree(s, start, lowest)
  {
    SegHead(mem, x, s, 0);
    if x == 0 && s != [] { GoodBlocks(s); }
  }

  lemma BlockWithin(s: seq<Block>, k: int, min: int, max: int)
    requires Within(s, min, max) && 0 <= k
    ensures k < |s| ==> min <= s[k].addr && End(s[k]) <= max
  {
  }

  /** Where the search for an address in block b starts. */
  function Start(b: Block, lo: int): int {
    if b.addr < lo then lo else b.addr
  }

  /** The sum that is compared with the size of block b stays below 2^32. */
  ghost predicate Tested(b: Block, size: int, m: int, ofs: int, lo: int)
    requires m > 0
  {
    size <= b.size ==> forall r :: LeastFrom(r, Start(b, lo), m, ofs) ==> r - b.addr + size < WORD
  }

  ghost predicate AllTested(s: seq<Block>, size: int, m: int, ofs: int, lo: int)
    requires m > 0
  {
    forall k :: 0 <= k < |s| ==> Tested(s[k], size, m, ofs, lo)
  }

  /** Then the 32-bit comparisons give the right answers, whether or not the address itself wraps. */
  lemma SumsFit(addr: int, r: int, node: int, size: int, length: int)
    requires 0 < node <= r && 1 <= size <= length && node + length < WORD && addr == Wrap(r) && r - node + size < WORD
    ensures Wrap(addr - node + size) == r - node + size
    ensures r - node + size <= length ==> addr == r && Wrap(addr + size) == addr + size
  {
  }

  /** For an address that does not wrap, the comparison with the size of the block gives the right answer exactly when
      the sum is below 2^32. */
  lemma SumTest(addr: int, node: int, size: int, length: int)
    requires 0 < node <= addr < WORD && 1 <= size <= length && node + length <= WORD
    ensures var d := addr - node + size; (Wrap(d) <= length <==> d <= length) <==> d < WORD
  {
  }

  /** An input on which it does not: the request is let through although it does not fit. */
  lemma SumWraps()
    ensures var node, length, addr, size := 8, 0xC000_0000, 0x8000_0008, 0x8000_0000;
      && node + length < WORD && size <= length
      && addr + size > node + length && Wrap(addr - node + size) <= length
  {
    SumTest(0x8000_0008, 8, 0x8000_0000, 0xC000_0000);
  }

  /** Without a lower bound, or with one that leaves room for the request, every comparison is right. */
  lemma RoomEnough(b: Block, size: int, m: int, ofs: int, lo: int)
    requires Good(b) && m > 0 && lo >= 0 && lo + size + m <= WORD
    ensures Tested(b, size, m, ofs, lo)
  {
    forall r | LeastFrom(r, Start(b, lo), m, ofs) ensures r - b.addr + size < WORD {
      LeastBelow(r, Start(b, lo), m, ofs);
    }
  }

  /** A run of free bytes lies in its region. */
  lemma RunWithin(s: seq<Block>, min: int, max: int, a: int, size: int)
    requires Within(s, min, max) && FreeRun(s, a, size)
    ensures min <= a && a + size <= max && size > 0
  {
    assert Has(s, a) && Has(s, a + size - 1);
  }

  /** The bytes from a on, size of them, are free, and the next one is not. */
  ghost predicate FreeRun(s: seq<Block>, a: int, size: int) {
    size > 0 && AllFree(s, a, a + size) && !Has(s, a + size)
  }

  /** The blocks before k end by start. */
  lemma FirstFree(s: seq<Block>, k: int, start: int, lowest: int)
    requires Normal(s) && 0 <= k <= |s| && forall i :: 0 <= i < k ==> End(s[i]) <= start
    ensures k == |s| || s[k].addr >= lowest ==> NoneFree(s, start, lowest)
    ensures k < |s| && End(s[k]) > start ==>
      var a := if s[k].addr > start then s[k].addr else start;
      FreeRun(s, a, End(s[k]) - a) && NoneFree(s, start, a)
  {
    hide Aligned;
    if k < |s| && End(s[k]) > start {
      var a := if s[k].addr > start then s[k].addr else start;
      forall x | a <= x < End(s[k]) ensures Has(s, x) { assert In(s[k], x); }
      forall i | 0 <= i < |s| ensures !In(s[i], End(s[k])) { }
    }
  }

  lemma UnitsOf(a: int, size: int)
    requires 0 < Down(a) && size >= 1
    ensures Aligned(Down(a)) && Aligned(Up(a + size)) && 0 <= Down(a) <= a && a + size <= Up(a + size)
    ensures Down(a) < Up(a + size)
    ensures Up(a + size) == Down(a) + Up(a % ALIGN + size) && Up(a % ALIGN + size) > 0
  {
    UpFrom(a, size);
    UpMono(a + size, a + size);
  }

  ghost predicate CellsFreed(mem: Mem, mem': Mem, x: int, x': int, prev: int, next: int, node: int, size: int)
    requires (prev != 0 ==> prev in mem) && (next != 0 ==> next in mem)
  {
    var pt, nt := prev != 0 && prev + mem[prev].size >= node, next != 0 && node + size >= next;
    var after, n := if nt then mem[next].next else next, size + if nt then mem[next].size else 0;
    && (if pt then
          x' == x && prev in mem' && mem'[prev] == Cell(if nt then after else mem[prev].next, mem[prev].size + n)
        else
          && node in mem' && mem'[node] == Cell(after, n)
          && (if prev == 0 then x' == node
              else x' == x && (prev != node ==> prev in mem' && mem'[prev] == Cell(node, mem[prev].size))))
    && forall y :: y in mem && y != node && (prev == 0 || y != prev) ==> y in mem' && mem'[y] == mem[y]
  }

  /** The free bytes and those from a up to e. */
  ghost predicate Grown(s: seq<Block>, t: seq<Block>, a: int, e: int) {
    forall x :: Has(t, x) <==> Has(s, x) || a <= x < e
  }

  lemma PlaceIs(s: seq<Block>, k: int, a: int)
    requires Normal(s) && 0 <= k <= |s| && (forall i :: 0 <= i < k ==> s[i].addr < a) && (k < |s| ==> s[k].addr >= a)
    ensures k == Place(s, a)
  {
    Placed(s, a);
    var p := Place(s, a);
    assert k < |s| ==> (s[k].addr < a <==> k < p);
    assert k > 0 ==> (s[k - 1].addr < a <==> k - 1 < p);
  }

  lemma FreedSpliced(mem: Mem, mem': Mem, x: int, x': int, s: seq<Block>, k: int, a: int, e: int)
    requires Normal(s) && Seg(mem, x, s, 0) && Fits(s, k, a, e)
    requires forall i :: 0 <= i < |s| ==> s[i].addr in mem && mem[s[i].addr].size == s[i].size
    requires CellsFreed(mem, mem', x, x', if k == 0 then 0 else s[k - 1].addr, Head(s[k..], 0), a, e - a)
    ensures Seg(mem', x', Added(s, k, a, e), 0)
  {
    hide Normal, Fits, CellsFreed, Lower, Upper, Merged, Linked;
    FitsOrder(s, k, a, e);
    var l, u, m := Lower(s, k, a), Upper(s, k, e), Merged(s, k, a, e);
    MergedParts(s, k, a, e);
    Slices(s, l, k, u);
    var pre, mid, post := s[..l], s[l..k] + s[k..u], s[u..];
    SegHead(mem, x, s, 0);
    FreedCell(mem, mem', x, x', s, k, a, e);
    FreedLink(mem, mem', x, x', s, k, a, e);
    OneSeg(mem', m, Head(post, 0));
    Spliced(mem, mem', x, x', pre, mid, [m], post);
  }

  lemma OneSeg(mem: Mem, b: Block, y: int)
    requires b.addr in mem && mem[b.addr] == Cell(y, b.size)
    ensures Seg(mem, b.addr, [b], y)
  {
    assert [b][1..] == [];
  }

  lemma PrevBefore(s: seq<Block>, k: int, a: int, e: int)
    requires Normal(s) && Fits(s, k, a, e)
    ensures k > 0 ==> 0 < s[k - 1].addr < a
  {
  }

  lemma FitsOrder(s: seq<Block>, k: int, a: int, e: int)
    requires Fits(s, k, a, e)
    ensures a < e && 0 <= k <= |s|
  {
  }

  /** The grown block's cell. */
  lemma FreedCell(mem: Mem, mem': Mem, x: int, x': int, s: seq<Block>, k: int, a: int, e: int)
    requires Normal(s) && Seg(mem, x, s, 0) && Fits(s, k, a, e)
    requires forall i :: 0 <= i < |s| ==> s[i].addr in mem && mem[s[i].addr].size == s[i].size
    requires CellsFreed(mem, mem', x, x', if k == 0 then 0 else s[k - 1].addr, Head(s[k..], 0), a, e - a)
    ensures var m := Merged(s, k, a, e); m.addr in mem' && mem'[m.addr] == Cell(Head(s[Upper(s, k, e)..], 0), m.size)
  {
    hide Aligned, Normal, Seg;
    GoodBlocks(s);
    if k < |s| {
      SegNext(mem, x, s, 0, k);
      assert s[k..][0] == s[k];
    }
    if k > 0 { SegNext(mem, x, s, 0, k - 1); }
  }

  /** The other cells, */
  lemma FreedOthers(mem: Mem, mem': Mem, x: int, x': int, s: seq<Block>, k: int, a: int, e: int, i: int)
    requires Normal(s) && Fits(s, k, a, e) && forall j :: 0 <= j < |s| ==> s[j].addr in mem
    requires CellsFreed(mem, mem', x, x', if k == 0 then 0 else s[k - 1].addr, Head(s[k..], 0), a, e - a)
    requires 0 <= i < |s| && (i < k - 1 || i >= Upper(s, k, e))
    ensures s[i].addr in mem' && mem'[s[i].addr] == mem[s[i].addr]
  {
    hide Aligned;
    assert i < k ==> End(s[i]) <= a;
    assert k > 0 && i != k - 1 ==> s[i].addr != s[k - 1].addr;
  }

  /** and the pointer to the grown block. */
  lemma FreedLink(mem: Mem, mem': Mem, x: int, x': int, s: seq<Block>, k: int, a: int, e: int)
    requires Normal(s) && Seg(mem, x, s, 0) && Fits(s, k, a, e)
    requires forall i :: 0 <= i < |s| ==> s[i].addr in mem && mem[s[i].addr].size == s[i].size
    requires CellsFreed(mem, mem', x, x', if k == 0 then 0 else s[k - 1].addr, Head(s[k..], 0), a, e - a)
    ensures var l, u, m := Lower(s, k, a), Upper(s, k, e), Merged(s, k, a, e);
      && (forall i :: 0 <= i < |s[u..]| ==> s[u..][i].addr in mem' && mem'[s[u..][i].addr] == mem[s[u..][i].addr])
      && if s[..l] == [] then x' == m.addr else x' == x && Linked(mem, mem', s[..l], m.addr)
  {
    hide Normal, Good, Aligned;
    var l, u := Lower(s, k, a), Upper(s, k, e);
    PrevBefore(s, k, a, e);
    SegHead(mem, x, s, 0);
    if l > 0 {
      SegNext(mem, x, s, 0, l - 1);
      if l < |s| { assert s[l..][0] == s[l]; }
      assert s[..l][l - 1] == s[l - 1];
    }
    if k < |s| { assert s[k..][0] == s[k]; }
    forall i | 0 <= i < |s| && (i < k - 1 || i >= u) ensures s[i].addr in mem' && mem'[s[i].addr] == mem[s[i].addr] {
      FreedOthers(mem, mem', x, x', s, k, a, e, i);
    }
  }

  lemma FreedOutside(mem: Mem, mem': Mem, x: int, x': int, s: seq<Block>, k: int, a: int, e: int, min: int, max: int)
    requires Within(s, min, max) && 0 <= k <= |s| && min <= a < e <= max
    requires forall i :: 0 <= i < |s| ==> Good(s[i]) && s[i].addr in mem
    requires CellsFreed(mem, mem', x, x', if k == 0 then 0 else s[k - 1].addr, Head(s[k..], 0), a, e - a)
    ensures KeptOutside(mem, mem', min, max)
  {
  }

  lemma RegionKept(r: Region, mem: Mem, mem': Mem, min: int, max: int)
    requires r.Valid(mem) && KeptOutside(mem, mem', min, max) && (r.max <= min || max <= r.min)
    ensures r.Valid(mem')
  {
    GoodBlocks(r.list);
    SegHead(mem, r.nodes, r.list, 0);
    forall i | 0 <= i < |r.list| ensures r.list[i].addr in mem' && mem'[r.list[i].addr] == mem[r.list[i].addr] {
      assert r.min <= r.list[i].addr < r.max;
    }
    SegFrame(mem, mem', r.nodes, r.list, 0);
  }

  lemma OutOfBounds(s: seq<Block>, min: int, max: int, size: int, m: int, ofs: int, lo: int, hi: int)
    requires Within(s, min, max) && size >= 1 && m > 0
    ensures min >= hi || max <= lo ==> forall a :: !Possible(s, a, size, m, ofs, lo, hi)
  {
    if min >= hi || max <= lo {
      forall a ensures !Possible(s, a, size, m, ofs, lo, hi) {
        assert Has(s, a) ==> min <= a < max;
      }
    }
  }

  /** The cursor of a walk over the list: block k's address, 0 at the end, and the one before. */
  ghost predicate At(s: seq<Block>, k: int, prev: int, node: int) {
    0 <= k <= |s| && node == Head(s[k..], 0) && prev == if k == 0 then 0 else s[k - 1].addr
  }

  lemma AtBlock(s: seq<Block>, k: int, prev: int, node: int)
    requires At(s, k, prev, node) && k < |s|
    ensures 0 <= k && node == s[k].addr
  {
  }

  lemma GoodBlocks(s: seq<Block>)
    requires Normal(s)
    ensures forall i :: 0 <= i < |s| ==> Good(s[i])
  {
  }

  /** What the cells say about block k and the one before. */
  lemma BlockAt(mem: Mem, x: int, s: seq<Block>, k: int)
    requires Seg(mem, x, s, 0) && Normal(s) && 0 <= k < |s|
    ensures var b := s[k]; b.addr > 0 && b.addr in mem && mem[b.addr] == Cell(Head(s[k + 1..], 0), b.size)
    ensures if k == 0 then x == s[0].addr
      else var p := s[k - 1].addr; 0 < p < s[k].addr && p in mem && mem[p].next == s[k].addr
  {
    SegHead(mem, x, s, 0);
    SegNext(mem, x, s, 0, k);
    if k > 0 {
      SegNext(mem, x, s, 0, k - 1);
      assert s[k..][0] == s[k];
    }
  }

  lemma NodeAt(mem: Mem, x: int, s: seq<Block>, k: int, node: int)
    requires Seg(mem, x, s, 0) && 0 <= k <= |s| && node == Head(s[k..], 0) && node != 0
    ensures k < |s| && node == s[k].addr && node in mem && mem[node].size == s[k].size
    ensures mem[node].next == Head(s[k + 1..], 0)
  {
    SegHead(mem, x, s, 0);
    if k < |s| { SegNext(mem, x, s, 0, k); }
  }

  ghost predicate NoneBefore(s: seq<Block>, k: int, size: int, m: int, ofs: int, lo: int, hi: int)
    requires m > 0
  {
    forall i, a :: 0 <= i < k && i < |s| ==> !Suits(s[i], a, size, m, ofs, lo, hi)
  }

  lemma NoneStart(s: seq<Block>, size: int, m: int, ofs: int, lo: int, hi: int)
    requires m > 0
    ensures NoneBefore(s, 0, size, m, ofs, lo, hi)
  {
  }

  lemma TooSmall(s: seq<Block>, k: int, size: int, m: int, ofs: int, lo: int, hi: int)
    requires m > 0 && 0 <= k < |s| && s[k].size < size && NoneBefore(s, k, size, m, ofs, lo, hi)
    ensures NoneBefore(s, k + 1, size, m, ofs, lo, hi)
  {
  }

  lemma SuitsPositive(b: Block, a: int, size: int, m: int, ofs: int, lo: int, hi: int)
    requires m > 0 && Good(b) && Suits(b, a, size, m, ofs, lo, hi)
    ensures a > 0
  {
  }

  lemma NonePossible(s: seq<Block>, size: int, m: int, ofs: int, lo: int, hi: int)
    requires Normal(s) && size >= 1 && m > 0 && NoneBefore(s, |s|, size, m, ofs, lo, hi)
    ensures forall a :: !Possible(s, a, size, m, ofs, lo, hi)
  {
    forall a ensures !Possible(s, a, size, m, ofs, lo, hi) { PossibleSuits(s, a, size, m, ofs, lo, hi); }
  }

  ghost predicate AllFree(s: seq<Block>, a: int, e: int) {
    forall x :: a <= x < e ==> Has(s, x)
  }

  ghost predicate NoneFree(s: seq<Block>, a: int, e: int) {
    forall x :: a <= x < e ==> !Has(s, x)
  }

  /** What was taken from a list and given back leaves the list as it was. */
  lemma Restored(s: seq<Block>, t: seq<Block>, u: seq<Block>, a: int, e: int)
    requires Normal(s) && Normal(u) && AllFree(s, a, e) && Gone(s, t, a, e) && Grown(t, u, a, e)
    ensures u == s
  {
    Canonical(u, s);
  }

  /** What was taken lay in the region and is not free any more. */
  lemma TakenWithin(s: seq<Block>, t: seq<Block>, min: int, max: int, a: int, size: int)
    requires Normal(s) && Within(s, min, max) && size >= 1
    requires AllFree(s, Down(a), Up(a + size)) && Gone(s, t, Down(a), Up(a + size))
    ensures min <= Down(a) && 0 < Down(a) && Up(a + size) <= max && NoneFree(t, Down(a), Up(a + size))
  {
    assert Down(a) <= a < Up(a + size);
    assert Has(s, Down(a)) && Has(s, Up(a + size) - 1);
  }

  /** The free bytes but those from a up to e. */
  ghost predicate Gone(s: seq<Block>, t: seq<Block>, a: int, e: int) {
    forall x :: Has(t, x) <==> Has(s, x) && !(a <= x < e)
  }

  lemma TakenBytes(s: seq<Block>, k: int, a: int, size: int, m: int, ofs: int, lo: int, hi: int)
    requires Normal(s) && 0 <= k < |s| && m > 0 && size >= 1 && Suits(s[k], a, size, m, ofs, lo, hi)
    ensures Possible(s, a, size, m, ofs, lo, hi) && Gone(s, Cut(s, k, Down(a), Up(a + size)), Down(a), Up(a + size))
    ensures a > 0
    ensures Aligned(Down(a)) && Aligned(Up(a + size)) && s[k].addr <= Down(a) < Up(a + size) <= End(s[k])
    ensures Up(a + size) == Down(a) + Up(a % ALIGN + size) && AllFree(s, Down(a), Up(a + size))
  {
    PossibleSuits(s, a, size, m, ofs, lo, hi);
    Units(s[k], a, size);
    forall x | Down(a) <= x < Up(a + size) ensures Has(s, x) { assert In(s[k], x); }
    forall x ensures Has(Cut(s, k, Down(a), Up(a + size)), x) <==> Has(s, x) && !(Down(a) <= x < Up(a + size)) {
      CutHas(s, k, Down(a), Up(a + size), x);
    }
  }

  /** The cells and the pointer to the first one, after the split: a, e and end bound what is taken and the block. */
  ghost predicate CellsSplit(mem: Mem, mem': Mem, x: int, x': int, prev: int, b: int, a: int, e: int, end: int,
      nx: int) {
    var first := if a > b then b else if e < end then e else nx;
    && (a > b ==> b in mem' && mem'[b] == Cell(if e < end then e else nx, a - b))
    && (e < end ==> e in mem' && mem'[e] == Cell(nx, end - e))
    && (if prev == 0 then x' == first
        else
          && x' == x && prev in mem && prev in mem'
          && mem'[prev] == Cell(if a > b then mem[prev].next else first, mem[prev].size))
    && forall y :: y in mem && (prev == 0 || y != prev) && !(b <= y < end) ==> y in mem' && mem'[y] == mem[y]
  }

  lemma SplitTaken(mem: Mem, mem': Mem, x: int, x': int, s: seq<Block>, k: int, a: int, e: int)
    requires Normal(s) && Seg(mem, x, s, 0) && 0 <= k < |s| && s[k].addr <= a < e <= End(s[k])
    requires CellsSplit(mem, mem', x, x', if k == 0 then 0 else s[k - 1].addr, s[k].addr, a, e, End(s[k]),
      Head(s[k + 1..], 0))
    ensures TakenCells(mem, mem', x, x', s, k, a, e)
  {
    BlockAt(mem, x, s, k);
    SegHead(mem, x, s, 0);
    var prev := if k == 0 then 0 else s[k - 1].addr;
    forall i | 0 <= i < |s| && i != k && i != k - 1
      ensures s[i].addr in mem && s[i].addr in mem' && mem'[s[i].addr] == mem[s[i].addr]
    {
      OtherCell(s, k, i);
    }
  }

  lemma OtherCell(s: seq<Block>, k: int, i: int)
    requires Normal(s) && 0 <= k < |s| && 0 <= i < |s| && i != k && i != k - 1
    ensures !(s[k].addr <= s[i].addr < End(s[k])) && (k > 0 ==> s[i].addr != s[k - 1].addr)
  {
    hide Aligned;
  }

  lemma SplitKept(mem: Mem, mem': Mem, x: int, x': int, s: seq<Block>, k: int, a: int, e: int, min: int, max: int)
    requires Within(s, min, max) && 0 <= k < |s| && s[k].addr <= a < e <= End(s[k])
    requires forall i :: 0 <= i < |s| ==> Good(s[i])
    requires CellsSplit(mem, mem', x, x', if k == 0 then 0 else s[k - 1].addr, s[k].addr, a, e, End(s[k]),
      Head(s[k + 1..], 0))
    ensures KeptOutside(mem, mem', min, max)
  {
    hide Aligned;
    assert k > 0 ==> min <= s[k - 1].addr < max;
  }

  /** The cells after bytes were taken out of block k: what is left of the block, linked between its neighbours. */
  ghost predicate TakenCells(mem: Mem, mem': Mem, x: int, x': int, s: seq<Block>, k: int, a: int, e: int)
    requires 0 <= k < |s|
  {
    var b, nx, prev := s[k], Head(s[k + 1..], 0), if k == 0 then 0 else s[k - 1].addr;
    var first := if a > b.addr then b.addr else if e < End(b) then e else nx;
    && (a > b.addr ==> b.addr in mem' && mem'[b.addr] == Cell(if e < End(b) then e else nx, a - b.addr))
    && (e < End(b) ==> e in mem' && mem'[e] == Cell(nx, End(b) - e))
    && (if k == 0 then x' == first
        else x' == x && prev in mem && prev in mem' && mem'[prev] == Cell(first, mem[prev].size))
    && forall i ::
         0 <= i < |s| && i != k && i != k - 1 ==>
           s[i].addr in mem && s[i].addr in mem' && mem'[s[i].addr] == mem[s[i].addr]
  }

  lemma TakenSpliced(mem: Mem, mem': Mem, x: int, x': int, s: seq<Block>, k: int, a: int, e: int)
    requires Normal(s) && Seg(mem, x, s, 0) && 0 <= k < |s| && s[k].addr <= a < e <= End(s[k])
    requires TakenCells(mem, mem', x, x', s, k, a, e)
    ensures Seg(mem', x', Cut(s, k, a, e), 0)
  {
    hide Normal;
    var pre, b, post, rest := s[..k], s[k], s[k + 1..], Rest(s[k], a, e);
    Parts(s, k);
    RestSeg(mem', b, a, e, Head(post, 0));
    Spliced(mem, mem', x, x', pre, [b], rest, post);
  }

  lemma RestSeg(mem: Mem, b: Block, a: int, e: int, nx: int)
    requires b.addr <= a < e <= End(b)
    requires a > b.addr ==> b.addr in mem && mem[b.addr] == Cell(if e < End(b) then e else nx, a - b.addr)
    requires e < End(b) ==> e in mem && mem[e] == Cell(nx, End(b) - e)
    ensures Seg(mem, Head(Rest(b, a, e), nx), Rest(b, a, e), nx)
  {
    var p, q := Piece(b.addr, a - b.addr), Piece(e, End(b) - e);
    assert Seg(mem, Head(q, nx), q, nx);
    assert Seg(mem, Head(p, Head(q, nx)), p, Head(q, nx));
    SegConcat(mem, Head(p + q, nx), p, q, nx);
  }

  class Lmm {
    const regions: seq<Region>
    var mem: Mem

    constructor (regions: seq<Region>)
      requires forall i :: 0 <= i < |regions| ==> regions[i].Valid(map[])
      requires forall i, j ::
        0 <= i < j < |regions| ==>
          regions[i] != regions[j] && (regions[i].max <= regions[j].min || regions[j].max <= regions[i].min)
      ensures Valid() && this.regions == regions
    {
      this.regions, mem := regions, map[];
    }

    ghost predicate Valid()
      reads this, regions
    {
      && (forall i :: 0 <= i < |regions| ==> regions[i].Valid(mem))
      && (forall i, j :: 0 <= i < j < |regions| ==>
           regions[i] != regions[j] && (regions[i].max <= regions[j].min || regions[j].max <= regions[i].min))
    }

    /** `*nodep = to`: the pointer to the block after prev, or to the first one. */
    method Link(reg: Region, prev: int, to: int)
      requires prev != 0 ==> prev in mem
      modifies this`mem, reg`nodes
      ensures if prev == 0 then reg.nodes == to && mem == old(mem)
        else reg.nodes == old(reg.nodes) && mem == old(mem)[prev := Cell(to, old(mem)[prev].size)]
    {
      if prev == 0 {
        reg.nodes := to;
      } else {
        mem := mem[prev := mem[prev].(next := to)];
      }
    }

    /** The pointer part of taking size bytes at anode out of the block at node, which comes after prev. */
    method SplitCells(reg: Region, prev0: int, node: int, anode: int, size: int)
      requires 0 < node <= anode && node in mem && size > 0 && anode + size <= node + mem[node].size
      requires (if prev0 == 0 then reg.nodes == node else prev0 in mem && prev0 < node)
      modifies this`mem, reg`nodes
      ensures var e, end, nx := anode + size, node + old(mem)[node].size, old(mem)[node].next;
        CellsSplit(old(mem), mem, old(reg.nodes), reg.nodes, prev0, node, anode, e, end, nx)
    {
      var prev := prev0;
      if anode > node {
        var split_size := anode - node;
        mem := mem[anode := Cell(mem[node].next, mem[node].size - split_size)];
        mem := mem[node := mem[node].(size := split_size)];
        prev := node;
      }
      if mem[anode].size > size {
        var newnode := anode + size;
        mem := mem[newnode := Cell(mem[anode].next, mem[anode].size - size)];
        Link(reg, prev, newnode);
      } else {
        Link(reg, prev, mem[anode].next);
      }
    }

    /** Takes the bytes from anode to anode + size out of block k, which starts at node and comes after prev. */
    method TakeFrom(reg: Region, ghost k: int, prev: int, node: int, anode: int, size: int)
      requires reg.Valid(mem) && 0 <= k < |reg.list| && node == reg.list[k].addr
      requires prev == (if k == 0 then 0 else reg.list[k - 1].addr)
      requires node <= anode && size > 0 && anode + size <= End(reg.list[k]) && Aligned(anode) && Aligned(anode + size)
      modifies this`mem, reg`nodes, reg`free, reg`list
      ensures reg.Valid(mem) && reg.list == Cut(old(reg.list), k, anode, anode + size)
      ensures KeptOutside(old(mem), mem, reg.min, reg.max)
    {
      hide Normal, Within, Seg, Sum, Cut, CellsSplit, TakenCells;
      ghost var s, mem0, x0 := reg.list, mem, reg.nodes;
      BlockAt(mem, reg.nodes, s, k);
      SplitCells(reg, prev, node, anode, size);
      reg.free := reg.free - size;
      SplitTaken(mem0, mem, x0, reg.nodes, s, k, anode, anode + size);
      assert KeptOutside(mem0, mem, reg.min, reg.max) by {
        GoodBlocks(s);
        SplitKept(mem0, mem, x0, reg.nodes, s, k, anode, anode + size, reg.min, reg.max);
      }
      TakenSpliced(mem0, mem, x0, reg.nodes, s, k, anode, anode + size);
      CutNormal(s, k, anode, anode + size);
      CutWithin(s, k, anode, anode + size, reg.min, reg.max);
      reg.list := Cut(s, k, anode, anode + size);
    }

    /** The node loop of `lmm_alloc_gen`: the first block that can give what is asked for, and the least address
        there. */
    method FindIn(reg: Region, size: int, align_bits: nat, align_ofs: int, in_min: int, in_max: int)
      returns (addr: int, prev: int, node: int, ghost k: int)
      requires reg.Valid(mem) && size >= 1 && align_bits <= 32 && align_ofs >= 0 && 0 <= in_min < WORD
      requires AllTested(reg.list, size, Pow2(align_bits), align_ofs, in_min)
      ensures addr == 0 ==> NoneBefore(reg.list, |reg.list|, size, Pow2(align_bits), align_ofs, in_min, in_max)
      ensures addr != 0 ==>
        && At(reg.list, k, prev, node) && k < |reg.list|
        && NoneBefore(reg.list, k, size, Pow2(align_bits), align_ofs, in_min, in_max)
      ensures addr != 0 ==> Suits(reg.list[k], addr, size, Pow2(align_bits), align_ofs, in_min, in_max)
      ensures addr != 0 ==> LeastFrom(addr, if node < in_min then in_min else node, Pow2(align_bits), align_ofs)
    {
      hide NoneBefore, Suits, LeastFrom, Pow2, Within, Wrap;
      ghost var r;
      ghost var s, m := reg.list, Pow2(align_bits);
      SegHead(mem, reg.nodes, s, 0);
      NoneStart(s, size, m, align_ofs, in_min, in_max);
      prev, node, k := 0, reg.nodes, 0;
      while node != 0
        invariant At(s, k, prev, node) && NoneBefore(s, k, size, m, align_ofs, in_min, in_max)
        decreases |s| - k
      {
        NodeAt(mem, reg.nodes, s, k, node);
        BlockWithin(s, k, reg.min, reg.max);
        if mem[node].size >= size {
          addr, r := AlignUp(if node < in_min then in_min else node, align_bits, align_ofs);
          assert Tested(s[k], size, m, align_ofs, in_min) && LeastFrom(r, Start(s[k], in_min), m, align_ofs);
          LeastBelow(r, if node < in_min then in_min else node, m, align_ofs);
          Candidate(s, k, r, size, m, align_ofs, in_min, in_max);
          SumsFit(addr, r, node, size, mem[node].size);
          if Wrap(addr - node + size) <= mem[node].size {
            if Wrap(addr + size) > in_max {
              addr := 0;
              return;
            }
            SuitsPositive(s[k], addr, size, m, align_ofs, in_min, in_max);
            return;
          }
        } else {
          TooSmall(s, k, size, m, align_ofs, in_min, in_max);
        }
        prev, node, k := node, mem[node].next, k + 1;
      }
      addr := 0;
    }

    predicate Eligible(flags: bv32, i: int)
      requires 0 <= i < |regions|
    {
      HasFlags(regions[i].flags, flags)
    }

    /** The sums that `lmm_alloc_gen` compares with block sizes stay below 2^32 in the regions it looks into. */
    ghost predicate NoWrap(size: int, flags: bv32, m: int, ofs: int, lo: int, hi: int)
      requires m > 0
      reads regions
    {
      forall i :: 0 <= i < |regions| && Eligible(flags, i) && regions[i].min < hi && lo < regions[i].max ==>
        AllTested(regions[i].list, size, m, ofs, lo)
    }

    /** None of the first n regions has the flags and something as asked for. */
    ghost predicate NothingIn(n: int, flags: bv32, size: int, m: int, ofs: int, lo: int, hi: int)
      requires n <= |regions| && m > 0
      reads regions
    {
      forall i, a :: 0 <= i < n && Eligible(flags, i) ==> !Possible(regions[i].list, a, size, m, ofs, lo, hi)
    }

    lemma NothingYet(flags: bv32, size: int, m: int, ofs: int, lo: int, hi: int)
      requires m > 0
      ensures NothingIn(0, flags, size, m, ofs, lo, hi)
    {
    }

    lemma NothingMore(n: int, flags: bv32, size: int, m: int, ofs: int, lo: int, hi: int)
      requires 0 <= n < |regions| && m > 0 && NothingIn(n, flags, size, m, ofs, lo, hi)
      requires Eligible(flags, n) ==> forall a :: !Possible(regions[n].list, a, size, m, ofs, lo, hi)
      ensures NothingIn(n + 1, flags, size, m, ofs, lo, hi)
    {
    }

    /** The region loop of `lmm_alloc_gen`. */
    method FindRegion(size: int, flags: bv32, align_bits: nat, align_ofs: int, in_min: int, in_max: int)
      returns (addr: int, prev: int, node: int, at: int, ghost k: int)
      requires Valid() && size >= 1 && align_bits <= 32 && align_ofs >= 0 && 0 <= in_min < WORD
      requires NoWrap(size, flags, Pow2(align_bits), align_ofs, in_min, in_max)
      ensures 0 <= at <= |regions| && (addr == 0 <==> at == |regions|)
      ensures NothingIn(at, flags, size, Pow2(align_bits), align_ofs, in_min, in_max)
      ensures addr != 0 ==>
        && Eligible(flags, at) && At(regions[at].list, k, prev, node) && k < |regions[at].list|
        && Suits(regions[at].list[k], addr, size, Pow2(align_bits), align_ofs, in_min, in_max)
        && Lowest(regions[at].list, addr, size, Pow2(align_bits), align_ofs, in_min, in_max)
    {
      hide Possible, Suits, At, NoneBefore, LeastFrom, Pow2, Seg, NothingIn, Normal, Within, Sum, HasFlags, AllTested,
        Lowest;
      ghost var m := Pow2(align_bits);
      addr, prev, node, at, k := 0, 0, 0, 0, 0;
      assert NothingIn(0, flags, size, m, align_ofs, in_min, in_max) by {
        NothingYet(flags, size, m, align_ofs, in_min, in_max);
      }
      while at < |regions|
        invariant 0 <= at <= |regions| && NothingIn(at, flags, size, m, align_ofs, in_min, in_max)
      {
        var reg := regions[at];
        if !Eligible(flags, at) || reg.min >= in_max || reg.max <= in_min {
          OutOfBounds(reg.list, reg.min, reg.max, size, m, align_ofs, in_min, in_max);
        } else {
          addr, prev, node, k := FindIn(reg, size, align_bits, align_ofs, in_min, in_max);
          if addr != 0 {
            AtBlock(reg.list, k, prev, node);
            FirstIsLowest(reg.list, k, addr, size, m, align_ofs, in_min, in_max);
            return;
          }
          NonePossible(reg.list, size, m, align_ofs, in_min, in_max);
        }
        NothingMore(at, flags, size, m, align_ofs, in_min, in_max);
        at := at + 1;
      }
      addr := 0;
    }

    /** `lmm_alloc_gen`: takes from the first region that has the flags and something as asked for; 0 when none has. The
        upper bound is the 32-bit sum of in_min and in_size. */
    method AllocGen(size: int, flags: bv32, align_bits: nat, align_ofs: int, in_min: int, in_size: int)
      returns (addr: int, ghost at: int)
      requires Valid() && size >= 1 && align_bits <= 32 && align_ofs >= 0 && 0 <= in_min < WORD
      requires NoWrap(size, flags, Pow2(align_bits), align_ofs, in_min, Wrap(in_min + in_size))
      modifies this`mem, regions
      ensures Valid() && 0 <= at <= |regions| && (addr == 0 <==> at == |regions|)
      ensures old(NothingIn(at, flags, size, Pow2(align_bits), align_ofs, in_min, Wrap(in_min + in_size)))
      ensures forall i :: 0 <= i < |regions| && i != at ==> regions[i].list == old(regions[i].list)
      ensures addr != 0 ==>
        && addr > 0 && Eligible(flags, at)
        && Possible(old(regions[at].list), addr, size, Pow2(align_bits), align_ofs, in_min, Wrap(in_min + in_size))
        && Lowest(old(regions[at].list), addr, size, Pow2(align_bits), align_ofs, in_min, Wrap(in_min + in_size))
        && AllFree(old(regions[at].list), Down(addr), Up(addr + size))
        && Gone(old(regions[at].list), regions[at].list, Down(addr), Up(addr + size))
    {
      hide Possible, Suits, NothingIn, Gone, AllFree, Pow2, Down, Up, Seg, Sum, NoWrap, Lowest;
      var in_max := Wrap(in_min + in_size);
      ghost var k;
      var prev, node, found;
      addr, prev, node, found, k := FindRegion(size, flags, align_bits, align_ofs, in_min, in_max);
      at := found;
      if addr == 0 {
        return;
      }
      var reg := regions[found];
      TakenBytes(reg.list, k, addr, size, Pow2(align_bits), align_ofs, in_min, in_max);
      TakeFrom(reg, k, prev, node, Down(addr), Up(addr % ALIGN + size));
      RegionsKept(found, old(mem));
    }

    /** The regions other than i, after cells in region i changed. */
    lemma RegionsKept(i: int, mem0: Mem)
      requires 0 <= i < |regions| && regions[i].Valid(mem) && KeptOutside(mem0, mem, regions[i].min, regions[i].max)
      requires forall j :: 0 <= j < |regions| && j != i ==> regions[j].Valid(mem0)
      requires forall i, j :: 0 <= i < j < |regions| ==>
        regions[i] != regions[j] && (regions[i].max <= regions[j].min || regions[j].max <= regions[i].min)
      ensures Valid()
    {
      forall j | 0 <= j < |regions| && j != i ensures regions[j].Valid(mem) {
        RegionKept(regions[j], mem0, mem, regions[i].min, regions[i].max);
      }
    }

    // ----- freeing -----

    /** The place in the list for a block at node: after the blocks that start before it. */
    method FindPlace(reg: Region, node: int) returns (prevnode: int, nextnode: int)
      requires reg.Valid(mem) && node > 0
      ensures At(reg.list, Place(reg.list, node), prevnode, nextnode)
    {
      hide Within, Sum;
      ghost var s, k := reg.list, 0;
      SegHead(mem, reg.nodes, s, 0);
      prevnode, nextnode := 0, reg.nodes;
      while nextnode != 0 && nextnode < node
        invariant At(s, k, prevnode, nextnode) && forall i :: 0 <= i < k ==> s[i].addr < node
        decreases |s| - k
      {
        NodeAt(mem, reg.nodes, s, k, nextnode);
        prevnode, nextnode, k := nextnode, mem[nextnode].next, k + 1;
      }
      assert k < |s| ==> s[k].addr >= node;
      PlaceIs(s, k, node);
    }

    /** The pointer part of freeing size bytes at node. */
    method FreeCells(reg: Region, prevnode: int, nextnode: int, node: int, size: int)
      requires node > 0 && size > 0 && (prevnode != 0 ==> prevnode in mem && prevnode < node)
      requires (nextnode != 0 ==> nextnode in mem && node < nextnode)
      modifies this`mem, reg`nodes
      ensures CellsFreed(old(mem), mem, old(reg.nodes), reg.nodes, prevnode, nextnode, node, size)
    {
      if prevnode != 0 && prevnode + mem[prevnode].size >= node {
        if nextnode != 0 && node + size >= nextnode {
          mem := mem[prevnode := Cell(mem[nextnode].next, mem[prevnode].size + size + mem[nextnode].size)];
        } else {
          mem := mem[prevnode := mem[prevnode].(size := mem[prevnode].size + size)];
        }
      } else {
        Link(reg, prevnode, node);
        if nextnode != 0 && node + size >= nextnode {
          mem := mem[node := Cell(mem[nextnode].next, size + mem[nextnode].size)];
        } else {
          mem := mem[node := Cell(nextnode, size)];
        }
      }
    }

    /** `lmm_free` in the region that holds the block, for whole units that are not free. */
    method FreeIn(reg: Region, node: int, size: int)
      requires reg.Valid(mem) && size > 0 && Aligned(node) && Aligned(node + size) && reg.min <= node
      requires 0 < node && node + size <= reg.max
      requires forall x :: node <= x < node + size ==> !Has(reg.list, x)
      modifies this`mem, reg`nodes, reg`free, reg`list
      ensures reg.Valid(mem) && KeptOutside(old(mem), mem, reg.min, reg.max)
      ensures Grown(old(reg.list), reg.list, node, node + size)
    {
      ghost var s, mem0, x0, k, e := reg.list, mem, reg.nodes, Place(reg.list, node), node + size;
      InGap(s, node, e);
      SegHead(mem, reg.nodes, s, 0);
      var prevnode, nextnode := FindPlace(reg, node);
      assert k < |s| ==> s[k..][0] == s[k];
      assert k > 0 ==> s[k - 1].addr in mem && Good(s[k - 1]);
      reg.free := reg.free + size;
      FreeCells(reg, prevnode, nextnode, node, size);
      FreedSpliced(mem0, mem, x0, reg.nodes, s, k, node, e);
      AddedNormal(s, k, node, e);
      AddedSum(s, k, node, e);
      AddedWithin(s, k, node, e, reg.min, reg.max);
      FreedOutside(mem0, mem, x0, reg.nodes, s, k, node, e, reg.min, reg.max);
      reg.list := Added(s, k, node, e);
      forall x ensures Has(reg.list, x) <==> Has(s, x) || node <= x < e { AddedHas(s, k, node, e, x); }
    }

    /** `lmm_free` of a block that lies in region at and is not free, in whole units. */
    method Free(block: int, size: int, ghost at: int)
      requires Valid() && 0 < Down(block) && size >= 1 && 0 <= at < |regions|
      requires regions[at].min <= Down(block) && Up(block + size) <= regions[at].max
      requires NoneFree(regions[at].list, Down(block), Up(block + size))
      modifies this`mem, regions
      ensures Valid() && Grown(old(regions[at].list), regions[at].list, Down(block), Up(block + size))
      ensures forall i :: 0 <= i < |regions| && i != at ==> regions[i].list == old(regions[i].list)
    {
      hide Down, Up, Grown, Normal, Within, Seg, Sum;
      UnitsOf(block, size);
      var node, bytes := Down(block), Up(block % ALIGN + size);
      var i := FindOwner(node, at);
      FreeIn(regions[i], node, bytes);
      RegionsKept(i, old(mem));
    }

    /** The region that holds an address. */
    method FindOwner(node: int, ghost at: int) returns (i: int)
      requires Valid() && 0 <= at < |regions| && regions[at].min <= node < regions[at].max
      ensures i == at
    {
      hide Normal, Within, Seg, Sum;
      i := 0;
      while !(regions[i].min <= node < regions[i].max)
        invariant 0 <= i <= at
        decreases at - i
      {
        i := i + 1;
      }
    }

    /** An allocation that is freed again leaves every list as it was, whatever was asked for. */
    method TakeAndReturn(size: int, flags: bv32, align_bits: nat, align_ofs: int, in_min: int, in_size: int)
      returns (addr: int)
      requires Valid() && size >= 1 && align_bits <= 32 && align_ofs >= 0 && 0 <= in_min < WORD
      requires NoWrap(size, flags, Pow2(align_bits), align_ofs, in_min, Wrap(in_min + in_size))
      modifies this`mem, regions
      ensures Valid() && forall i :: 0 <= i < |regions| ==> regions[i].list == old(regions[i].list)
    {
      hide Gone, Grown, AllFree, NoneFree, Pow2, Down, Up, Seg, Sum, NoWrap, Possible, NothingIn, Wrap, Within, Normal;
      ghost var at;
      addr, at := AllocGen(size, flags, align_bits, align_ofs, in_min, in_size);
      if addr != 0 {
        ghost var s, t := old(regions[at].list), regions[at].list;
        UpMono(addr, addr + size);
        TakenWithin(s, t, regions[at].min, regions[at].max, addr, size);
        Free(addr, size, at);
        Restored(s, t, regions[at].list, Down(addr), Up(addr + size));
      }
    }

    // ----- finding and removing free memory -----

    /** In one region: the first free byte from start on when it lies before lowest, and how many bytes its block has
        from there on. */
    method FirstFreeIn(reg: Region, start: int, lowest: int) returns (found: bool, addr: int, size: int)
      requires reg.Valid(mem) && 0 <= start <= lowest && (start < lowest || !(reg.min <= start < reg.max))
      ensures found ==>
        && start <= addr < lowest && (Aligned(start) ==> Aligned(addr)) && FreeRun(reg.list, addr, size)
        && NoneFree(reg.list, start, addr)
      ensures !found ==> NoneFree(reg.list, start, lowest)
    {
      hide Sum;
      ghost var s, k := reg.list, 0;
      SegHead(mem, reg.nodes, s, 0);
      var prev, node := 0, reg.nodes;
      while node != 0
        invariant At(s, k, prev, node) && forall i :: 0 <= i < k ==> End(s[i]) <= start
        decreases |s| - k
      {
        NodeAt(mem, reg.nodes, s, k, node);
        if node >= lowest {
          FirstFree(s, k, start, lowest);
          return false, 0, 0;
        }
        if node + mem[node].size > start {
          found := true;
          addr := if node > start then node else start;
          size := node + mem[node].size - addr;
          FirstFree(s, k, start, lowest);
          return;
        }
        prev, node, k := node, mem[node].next, k + 1;
      }
      FirstFree(s, |s|, start, lowest);
      return false, 0, 0;
    }

    /** No region has a free byte from a up to e. */
    ghost predicate NoneAnywhere(a: int, e: int, n: int)
      requires n <= |regions|
      reads regions
    {
      forall i :: 0 <= i < n ==> NoneFree(regions[i].list, a, e)
    }

    /** `lmm_find_free`: the first free byte from the next unit on, and how far its block goes; size 0 when there is
        none. */
    method FindFree(inout_addr: int) returns (addr: int, size: int, flags: bv32, ghost at: int)
      requires Valid() && 0 <= inout_addr && Up(inout_addr) < NONE
      ensures 0 <= at <= |regions| && (size == 0 <==> at == |regions|) && size >= 0
      ensures at < |regions| ==>
        && Up(inout_addr) <= addr < NONE && Aligned(addr) && FreeRun(regions[at].list, addr, size)
        && flags == regions[at].flags
      ensures NoneAnywhere(Up(inout_addr), if at == |regions| then WORD else addr, |regions|)
      ensures at == |regions| ==> addr == NONE
    {
      hide Aligned, FreeRun, NoneFree, Normal, Within, Seg, Sum, Up;
      UpMono(inout_addr, inout_addr);
      var start_addr := Up(inout_addr);
      addr, size, flags, at := NONE, 0, 0, |regions|;
      var i := 0;
      while i < |regions|
        invariant 0 <= i <= |regions| && start_addr <= addr <= NONE && NoneAnywhere(start_addr, addr, i)
        invariant if at == |regions| then addr == NONE && size == 0
          else
            && 0 <= at < i && addr < NONE && Aligned(addr) && size > 0 && FreeRun(regions[at].list, addr, size)
            && flags == regions[at].flags
      {
        var reg := regions[i];
        if reg.nodes == 0 || reg.max <= start_addr || reg.min > addr {
          NoneThere(reg.list, mem, reg.nodes, reg.min, reg.max, start_addr, addr);
        } else {
          if at < |regions| { RunWithin(regions[at].list, regions[at].min, regions[at].max, addr, size); }
          var found, a, n := FirstFreeIn(reg, start_addr, addr);
          if found {
            NoneEarlier(start_addr, a, addr, i);
            RunWithin(reg.list, reg.min, reg.max, a, n);
            addr, size, flags, at := a, n, reg.flags, i;
          }
        }
        i := i + 1;
      }
      if at == |regions| { NoneLast(start_addr); }
    }

    /** The last byte of all is in no region. */
    lemma NoneLast(a: int)
      requires Valid() && NoneAnywhere(a, NONE, |regions|)
      ensures NoneAnywhere(a, WORD, |regions|)
    {
      forall i | 0 <= i < |regions| ensures NoneFree(regions[i].list, a, WORD) {
        assert NoneFree(regions[i].list, a, NONE);
      }
    }

    ghost function FreeLists(): (ls: seq<seq<Block>>)
      reads this, regions
      ensures |ls| == |regions| && forall i :: 0 <= i < |ls| ==> ls[i] == regions[i].list
    {
      seq(|regions|, i requires 0 <= i < |regions| reads regions => regions[i].list)
    }

    /** Bytes of different regions are different. */
    lemma Separate(i: int, j: int, x: int)
      requires Valid() && 0 <= i < |regions| && 0 <= j < |regions| && Has(regions[i].list, x) && Has(regions[j].list, x)
      ensures i == j
    {
    }

    /** `lmm_remove_free`: no byte stays free from the first whole unit of the block to its end. */
    method RemoveFree(block: int, block_size: int)
      requires Valid() && 0 <= block && Up(block) < NONE && block_size > 0 && block + block_size < WORD
      modifies this`mem, regions
      ensures Valid() && AllGone(old(FreeLists()), FreeLists(), Up(block), Up(block + block_size))
    {
      hide Lmm.Valid, Gone, AllGone, Up;
      UpMono(block, block + block_size);
      var rstart, rend := block, block + block_size;
      ghost var low, ls := Up(block), FreeLists();
      NoneGone(ls, low);
      var done := false;
      while rstart < rend && !done
        invariant Valid() && 0 <= rstart < rend && Up(block) <= Up(rstart) <= low <= Up(rend) && Up(rstart) < NONE
        invariant AllGone(ls, FreeLists(), Up(block), low) && (done ==> low == Up(rend))
        decreases !done, Up(rend) - low
      {
        var next;
        next, done, low := RemoveNext(rstart, rend, ls, Up(block), low);
        if !done {
          rstart := next;
        }
      }
    }

    /** The part of a free run that lies before rend is removed. */
    method RemovePiece(rstart: int, size0: int, flags: bv32, rend: int, ghost ls: seq<seq<Block>>, ghost a: int,
        ghost low0: int, ghost from: int, ghost at: int)
      returns (ghost low: int)
      requires Valid() && 0 <= at < |regions| && flags == regions[at].flags && FreeRun(regions[at].list, rstart, size0)
      requires 0 <= rstart < rend && Aligned(rstart) && a <= from <= low0 && from <= rstart
      requires AllGone(ls, FreeLists(), a, low0)
      requires forall i :: 0 <= i < |regions| ==> NoneFree(FreeLists()[i], from, rstart)
      modifies this`mem, regions
      ensures Valid() && AllGone(ls, FreeLists(), a, low) && low0 <= rstart < low <= Up(rend) && Up(rstart) == rstart
    {
      hide Lmm.Valid, Gone, AllGone, NoneFree, AllFree, Up, Aligned, OneGone, Has;
      ghost var before := FreeLists();
      var size := size0;
      if rstart + size > rend {
        size := rend - rstart;
      }
      UpMono(rstart, rstart + size);
      UpMono(rstart + size, rend);
      RemoveRun(rstart, size, flags, at, size0);
      low := Up(rstart + size);
      RunGone(ls, before, FreeLists(), a, low0, from, rstart, low, at);
    }

    /** One round of `lmm_remove_free`; done says that it was the last one. Everything below low is gone. */
    method RemoveNext(rstart0: int, rend: int, ghost ls: seq<seq<Block>>, ghost a: int, ghost low0: int)
      returns (rstart: int, done: bool, ghost low: int)
      requires Valid() && 0 <= rstart0 < rend < WORD && Up(rstart0) < NONE
      requires a <= Up(rstart0) <= low0 <= Up(rend) && AllGone(ls, FreeLists(), a, low0)
      modifies this`mem, regions
      ensures Valid() && AllGone(ls, FreeLists(), a, low)
      ensures if done then low == Up(rend)
        else 0 <= rstart < rend && low0 < low <= Up(rend) && Up(rstart0) <= Up(rstart) <= low && Up(rstart) < NONE
    {
      hide Lmm.Valid, Gone, AllGone, NoneFree, AllFree, FreeRun, Up, Aligned, OneGone;
      UpMono(rstart0, rend);
      ghost var from, before := Up(rstart0), FreeLists();
      var size, flags;
      ghost var at;
      rstart, size, flags, at := FindFree(rstart0);
      ghost var empty := if size == 0 then WORD else rstart;
      NoneInLists(from, empty);
      if size == 0 || rstart >= rend {
        UpMono(rend, empty);
        AllRemoved(ls, before, a, low0, from, empty, Up(rend));
        return rstart, true, Up(rend);
      }
      low := RemovePiece(rstart, size, flags, rend, ls, a, low0, from, at);
      done := false;
    }

    lemma NoneInLists(a: int, e: int)
      requires NoneAnywhere(a, e, |regions|)
      ensures forall i :: 0 <= i < |regions| ==> NoneFree(FreeLists()[i], a, e)
    {
    }

    lemma ListsApart()
      requires Valid()
      ensures Foreign(FreeLists())
    {
      forall i, j, x | 0 <= i < |regions| && 0 <= j < |regions| && Has(FreeLists()[i], x) && Has(FreeLists()[j], x)
        ensures i == j
      {
        Separate(i, j, x);
      }
    }

    lemma RunFits(at: int, a: int, size: int, n: int)
      requires Valid() && 0 <= at < |regions| && FreeRun(regions[at].list, a, n) && 0 < size <= n && a >= 0
      ensures a < WORD && Wrap(a + size) == a + size
      ensures forall flags, hi :: NoWrap(size, flags, 1, 0, a, hi)
    {
      RunWithin(regions[at].list, regions[at].min, regions[at].max, a, n);
      forall i, k | 0 <= i < |regions| && 0 <= k < |regions[i].list|
        ensures Tested(regions[i].list[k], size, 1, 0, a)
      {
        RoomEnough(regions[i].list[k], size, 1, 0, a);
      }
    }

    /** One piece is allocated away: the allocation has only one place to go. */
    method RemoveRun(rstart: int, size: int, flags: bv32, ghost at: int, ghost n: int)
      requires Valid() && 0 <= at < |regions| && flags == regions[at].flags && 0 < size <= n
      requires FreeRun(regions[at].list, rstart, n)
      requires Aligned(rstart) && rstart >= 0
      modifies this`mem, regions
      ensures Valid() && OneGone(old(FreeLists()), FreeLists(), at, rstart, Up(rstart + size))
    {
      hide Lmm.Valid, Gone, NoneFree, AllFree, FreeRun, Up, Down, Possible, HasFlags, Foreign, Pow2, Wrap, NoWrap;
      ListsApart();
      RunFits(at, rstart, size, n);
      OnePossible(FreeLists(), at, rstart, size, rstart + size, n);
      SameFlags(flags);
      ghost var ls := FreeLists();
      var ptr;
      ghost var found;
      ptr, found := AllocGen(size, flags, 0, 0, rstart, size);
      assert found == at && ptr == rstart;
      OnlyThere(ls, at, rstart, Up(rstart + size));
    }

    lemma NoneEarlier(a: int, e: int, e': int, n: int)
      requires n <= |regions| && NoneAnywhere(a, e', n) && e <= e'
      ensures NoneAnywhere(a, e, n)
    {
    }
  }

  lemma UnitNumbers()
    ensures Down(8) == 8 && Up(12) == 16 && Up(32) == 32 && Up(40) == 40
  {
  }

  lemma StillFree(s: seq<Block>, t: seq<Block>, u: seq<Block>)
    requires Grown(s, t, 8, 40) && Gone(t, u, 16, 32)
    ensures Has(u, 12) && !Has(u, 16)
  {
    assert Has(t, 12);
  }

  /** Removing a block that does not start at a unit leaves the rest of its first unit free. */
  method UnalignedRemoval() returns (lmm: Lmm)
    ensures |lmm.regions| == 1 && Has(lmm.regions[0].list, 12) && !Has(lmm.regions[0].list, 16)
  {
    hide Lmm.Valid, Normal, Within, Seg, Sum, Up, Down, Gone, Grown, Has;
    UnitNumbers();
    var reg := new Region(8, 64, 0);
    lmm := StartWith(reg);
    lmm.Free(8, 32, 0);
    ghost var ls := lmm.FreeLists();
    lmm.RemoveFree(12, 20);
    StillFree([], ls[0], lmm.FreeLists()[0]);
  }

  /** A manager of one region, none of which is free. */
  method StartWith(reg: Region) returns (lmm: Lmm)
    requires reg.Valid(map[]) && reg.list == []
    ensures fresh(lmm) && lmm.Valid() && lmm.regions == [reg] && reg.list == [] && NoneFree(reg.list, 0, WORD)
  {
    lmm := new Lmm([reg]);
  }

  lemma KernelUnits()
    ensures Down(0x500) == 0x500 && Up(0xA_0000) == 0xA_0000 && Down(0x10_0000) == Up(0x10_0000) == 0x10_0000
    ensures Down(0x100_0000) == Up(0x100_0000) == 0x100_0000 && Up(0x800_0000) == 0x800_0000 && Up(0) == 0
    ensures Up(0xFFFF_FFF8) == 0xFFFF_FFF8 && Pow2(12) == 0x1000
  {
    Pow2Add(8, 4);
    assert Pow2(4) == 16 && Pow2(8) == 0x100;
  }

  /** Three lists, once memory below 1 MB and above 16 MB is removed: only the middle one has something to give. */
  lemma KernelLists(h: seq<Block>, h1: seq<Block>, h2: seq<Block>, m: seq<Block>, m1: seq<Block>, m2: seq<Block>,
      l: seq<Block>, l1: seq<Block>, l2: seq<Block>)
    requires Grown([], h, 0x100_0000, 0x800_0000) && Grown([], m, 0x10_0000, 0x100_0000)
    requires Grown([], l, 0x500, 0xA_0000)
    requires Gone(h, h1, 0, 0x10_0000) && Gone(m, m1, 0, 0x10_0000) && Gone(l, l1, 0, 0x10_0000)
    requires Gone(h1, h2, 0x100_0000, 0xFFFF_FFF8) && Gone(m1, m2, 0x100_0000, 0xFFFF_FFF8)
    requires Gone(l1, l2, 0x100_0000, 0xFFFF_FFF8)
    ensures forall x :: !Has(h2, x) && !Has(l2, x) && (Has(m2, x) <==> 0x10_0000 <= x < 0x100_0000)
  {
    forall x ensures !Has(h2, x) && !Has(l2, x) && (Has(m2, x) <==> 0x10_0000 <= x < 0x100_0000) {
      assert Has(h, x) <==> Has([], x) || 0x100_0000 <= x < 0x800_0000;
      assert Has(m, x) <==> Has([], x) || 0x10_0000 <= x < 0x100_0000;
      assert Has(l, x) <==> Has([], x) || 0x500 <= x < 0xA_0000;
      assert Has(h1, x) <==> Has(h, x) && !(0 <= x < 0x10_0000);
      assert Has(m1, x) <==> Has(m, x) && !(0 <= x < 0x10_0000);
      assert Has(l1, x) <==> Has(l, x) && !(0 <= x < 0x10_0000);
    }
  }

  /** A page in the middle list is as asked for. */
  lemma PagePossible(s: seq<Block>)
    requires forall x :: Has(s, x) <==> 0x10_0000 <= x < 0x100_0000
    ensures Possible(s, 0x10_0000, 0x1000, 0x1000, 0, 0, NONE)
  {
  }

  /** The kernel's three regions, the first one from address 0 and the last one up to the last unit. */
  method KernelRegions() returns (lmm: Lmm)
    ensures fresh(lmm) && fresh(lmm.regions) && lmm.Valid() && |lmm.regions| == 3
    ensures lmm.regions[0].flags == 0 && lmm.regions[1].flags == 2 && lmm.regions[2].flags == 3
    ensures lmm.regions[0].min == 0x100_0000 && lmm.regions[1].min == 0x10_0000 && lmm.regions[2].min == 0
    ensures lmm.regions[0].max == 0xFFFF_FFF8 && lmm.regions[1].max == 0x100_0000 && lmm.regions[2].max == 0x10_0000
    ensures lmm.regions[0].list == lmm.regions[1].list == lmm.regions[2].list == []
  {
    hide Normal, Within, Seg, Sum;
    var high := new Region(0x100_0000, 0xFFFF_FFF8, 0);
    var mid := new Region(0x10_0000, 0x100_0000, 2);
    var low := new Region(0, 0x10_0000, 3);
    lmm := new Lmm([high, mid, low]);
  }

  /** The kernel's manager on a machine of 128 MB, whose kernel is left out of account: memory below 1 MB and from 16 MB
      on is removed. */
  method KernelManager() returns (lmm: Lmm)
    ensures fresh(lmm) && fresh(lmm.regions) && lmm.Valid() && |lmm.regions| == 3
    ensures lmm.regions[0].flags == 0 && lmm.regions[1].flags == 2 && lmm.regions[2].flags == 3
    ensures forall x ::
      && !Has(lmm.regions[0].list, x) && !Has(lmm.regions[2].list, x)
      && (Has(lmm.regions[1].list, x) <==> 0x10_0000 <= x < 0x100_0000)
  {
    hide Lmm.Valid, Normal, Within, Seg, Sum, Up, Down, Gone, Grown, Has, Pow2, NoneFree;
    KernelUnits();
    NoBytes();
    lmm := KernelRegions();
    lmm.Free(0x100_0000, 0x700_0000, 0);
    lmm.Free(0x10_0000, 0xF0_0000, 1);
    lmm.Free(0x500, 0x9_FB00, 2);
    RemoveTwice(lmm);
  }

  method RemoveTwice(lmm: Lmm)
    requires lmm.Valid() && |lmm.regions| == 3 && Grown([], lmm.regions[0].list, 0x100_0000, 0x800_0000)
    requires Grown([], lmm.regions[1].list, 0x10_0000, 0x100_0000) && Grown([], lmm.regions[2].list, 0x500, 0xA_0000)
    modifies lmm`mem, lmm.regions
    ensures lmm.Valid()
    ensures forall x ::
      && !Has(lmm.regions[0].list, x) && !Has(lmm.regions[2].list, x)
      && (Has(lmm.regions[1].list, x) <==> 0x10_0000 <= x < 0x100_0000)
  {
    hide Lmm.Valid, Normal, Within, Seg, Sum, Up, Down, Gone, Grown, Has, Pow2;
    KernelUnits();
    ghost var ls := lmm.FreeLists();
    lmm.RemoveFree(0, 0x10_0000);
    ghost var ls1 := lmm.FreeLists();
    lmm.RemoveFree(0x100_0000, 0xFEFF_FFF8);
    ghost var ls2 := lmm.FreeLists();
    assert Gone(ls[0], ls1[0], 0, 0x10_0000) && Gone(ls[1], ls1[1], 0, 0x10_0000) && Gone(ls[2], ls1[2], 0, 0x10_0000);
    assert Gone(ls1[0], ls2[0], 0x100_0000, 0xFFFF_FFF8) && Gone(ls1[1], ls2[1], 0x100_0000, 0xFFFF_FFF8);
    assert Gone(ls1[2], ls2[2], 0x100_0000, 0xFFFF_FFF8);
    KernelLists(ls[0], ls1[0], ls2[0], ls[1], ls1[1], ls2[1], ls[2], ls1[2], ls2[2]);
  }

  lemma NoBytes()
    ensures forall a, e :: NoneFree([], a, e)
  {
  }

  /** It gives out a whole page, from the memory between. */
  method KernelPage() returns (addr: int)
    ensures 0x10_0000 <= addr && addr + 0x1000 <= 0x100_0000 && addr % 0x1000 == 0
  {
    hide Normal, Within, Seg, Sum, Up, Down, Pow2, Gone;
    KernelUnits();
    var lmm := KernelManager();
    forall i | 0 <= i < 3 ensures AllTested(lmm.regions[i].list, 0x1000, 0x1000, 0, 0) {
      PageTested(lmm.regions[i].list);
    }
    PagePossible(lmm.regions[1].list);
    ghost var m, at := lmm.regions[1].list, 0;
    addr, at := lmm.AllocGen(0x1000, 0, 12, 0, 0, NONE);
    assert Has(m, addr) && Has(m, addr + 0xFFF);
  }

  lemma PageTested(s: seq<Block>)
    requires Normal(s)
    ensures AllTested(s, 0x1000, 0x1000, 0, 0)
  {
    forall k | 0 <= k < |s| ensures Tested(s[k], 0x1000, 0x1000, 0, 0) { RoomEnough(s[k], 0x1000, 0x1000, 0, 0); }
  }
}
