/** Free lists in memory: each free block starts with a cell that holds its size and the next block's address. */
module LmmCells {
  import opened LmmBlocks

  /** `struct lmm_node` */
  datatype Cell = Cell(next: int, size: int)

  type Mem = map<int, Cell>

  function Head(s: seq<Block>, y: int): int {
    if s == [] then y else s[0].addr
  }

  /** From address x on, the cells list the blocks s, the last one pointing to y. */
  ghost predicate Seg(mem: Mem, x: int, s: seq<Block>, y: int)
    decreases |s|
  {
    if s == [] then x == y
    else x == s[0].addr && x in mem && mem[x].size == s[0].size && Seg(mem, mem[x].next, s[1..], y)
  }

  lemma {:induction false} SegHead(mem: Mem, x: int, s: seq<Block>, y: int)
    requires Seg(mem, x, s, y)
    ensures x == Head(s, y) && forall i :: 0 <= i < |s| ==> s[i].addr in mem && mem[s[i].addr].size == s[i].size
    decreases |s|
  {
    if s != [] { SegHead(mem, mem[x].next, s[1..], y); }
  }

  lemma {:induction false} SegNext(mem: Mem, x: int, s: seq<Block>, y: int, k: int)
    requires Seg(mem, x, s, y) && 0 <= k < |s|
    ensures s[k].addr in mem && mem[s[k].addr].next == Head(s[k + 1..], y)
    decreases |s|
  {
    SegHead(mem, mem[x].next, s[1..], y);
    if k > 0 {
      SegNext(mem, mem[x].next, s[1..], y, k - 1);
      assert s[1..][k..] == s[k + 1..];
    }
  }

  lemma {:induction false} SegConcat(mem: Mem, x: int, s: seq<Block>, t: seq<Block>, y: int)
    ensures Seg(mem, x, s + t, y) <==> Seg(mem, x, s, Head(t, y)) && Seg(mem, Head(t, y), t, y)
    decreases |s|
  {
    if s == [] {
      assert s + t == t;
      if Seg(mem, x, t, y) { SegHead(mem, x, t, y); }
    } else {
      assert (s + t)[1..] == s[1..] + t;
      if x in mem { SegConcat(mem, mem[x].next, s[1..], t, y); }
    }
  }

  lemma {:induction false} SegFrame(mem: Mem, mem': Mem, x: int, s: seq<Block>, y: int)
    requires Seg(mem, x, s, y)
    requires forall i :: 0 <= i < |s| ==> s[i].addr in mem' && (s[i].addr in mem ==> mem'[s[i].addr] == mem[s[i].addr])
    ensures Seg(mem', x, s, y)
    decreases |s|
  {
    if s != [] {
      assert mem'[s[0].addr] == mem[s[0].addr];
      SegFrame(mem, mem', mem[x].next, s[1..], y);
    }
  }

  /** Only the last cell of a list points elsewhere. */
  lemma Relink(mem: Mem, mem': Mem, x: int, s: seq<Block>, y: int, y': int)
    requires Seg(mem, x, s, y) && s != [] && Linked(mem, mem', s, y')
    ensures Seg(mem', x, s, y')
  {
    var n := |s| - 1;
    assert s == s[..n] + [s[n]];
    SegConcat(mem, x, s[..n], [s[n]], y);
    SegFrame(mem, mem', x, s[..n], s[n].addr);
    SegConcat(mem', x, s[..n], [s[n]], y');
    assert [s[n]][1..] == [];
    assert Seg(mem', s[n].addr, [s[n]], y');
  }

  /** The cells of s are kept, but the last one points to y. */
  ghost predicate Linked(mem: Mem, mem': Mem, s: seq<Block>, y: int)
    requires s != []
  {
    var last := s[|s| - 1].addr;
    && (forall i :: 0 <= i < |s| - 1 ==> s[i].addr in mem' && (s[i].addr in mem ==> mem'[s[i].addr] == mem[s[i].addr]))
    && last in mem && last in mem' && mem'[last] == Cell(y, mem[last].size)
  }

  /** In the middle of a list, some blocks are replaced by others. */
  lemma Spliced(mem: Mem, mem': Mem, x: int, x': int, pre: seq<Block>, mid: seq<Block>, mid': seq<Block>,
      post: seq<Block>)
    requires Seg(mem, x, pre + (mid + post), 0)
    requires Seg(mem', Head(mid' + post, 0), mid', Head(post, 0))
    requires forall i ::
      0 <= i < |post| ==> post[i].addr in mem' && (post[i].addr in mem ==> mem'[post[i].addr] == mem[post[i].addr])
    requires if pre == [] then x' == Head(mid' + post, 0) else x' == x && Linked(mem, mem', pre, Head(mid' + post, 0))
    ensures Seg(mem', x', pre + (mid' + post), 0)
  {
    SegConcat(mem, x, pre, mid + post, 0);
    SegConcat(mem, Head(mid + post, 0), mid, post, 0);
    SegFrame(mem, mem', Head(post, 0), post, 0);
    SegConcat(mem', Head(mid' + post, 0), mid', post, 0);
    if pre != [] { Relink(mem, mem', x, pre, Head(mid + post, 0), Head(mid' + post, 0)); }
    SegConcat(mem', x', pre, mid' + post, 0);
  }

  /** Cells outside a stretch of memory are kept. */
  ghost predicate KeptOutside(mem: Mem, mem': Mem, min: int, max: int) {
    forall a :: !(min <= a < max) && a in mem ==> a in mem' && mem'[a] == mem[a]
  }
}
