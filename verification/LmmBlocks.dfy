/** Free memory as an ascending list of blocks with gaps between them: every set of bytes has only one such list. */
module LmmBlocks {

  /** `ALIGN_SIZE`: blocks start and end at multiples of a list node's size. */
  const ALIGN := 8

  datatype Block = Block(addr: int, size: int)

  function End(b: Block): int {
    b.addr + b.size
  }

  predicate Aligned(x: int) {
    x % ALIGN == 0
  }

  predicate Good(b: Block) {
    b.addr > 0 && b.size > 0 && Aligned(b.addr) && Aligned(b.size)
  }

  /** Ascending, with something between any two. */
  ghost predicate Normal(s: seq<Block>) {
    && (forall i :: 0 <= i < |s| ==> Good(s[i]))
    && (forall i, j :: 0 <= i < j < |s| ==> End(s[i]) < s[j].addr)
  }

  ghost predicate Within(s: seq<Block>, min: int, max: int) {
    forall i :: 0 <= i < |s| ==> min <= s[i].addr && End(s[i]) <= max
  }

  predicate In(b: Block, x: int) {
    b.addr <= x < End(b)
  }

  /** Byte x is free. */
  ghost predicate Has(s: seq<Block>, x: int) {
    exists i :: 0 <= i < |s| && In(s[i], x)
  }

  function Sum(s: seq<Block>): int {
    if s == [] then 0 else s[0].size + Sum(s[1..])
  }

  lemma {:induction false} SumConcat(s: seq<Block>, t: seq<Block>)
    ensures Sum(s + t) == Sum(s) + Sum(t)
  {
    if s == [] {
      assert s + t == t;
    } else {
      assert (s + t)[1..] == s[1..] + t;
      SumConcat(s[1..], t);
    }
  }

  /** The byte after the first block is not free. */
  lemma GapAfter(s: seq<Block>)
    requires Normal(s) && s != []
    ensures !Has(s, End(s[0])) && Has(s, s[0].addr) && forall x :: x < s[0].addr ==> !Has(s, x)
  {
    assert In(s[0], s[0].addr);
  }

  /** The first block is where the free bytes say. */
  lemma FirstBlock(s: seq<Block>, t: seq<Block>)
    requires Normal(s) && Normal(t) && s != [] && forall x :: Has(s, x) <==> Has(t, x)
    ensures t != [] && t[0] == s[0]
  {
    GapAfter(s);
    assert Has(t, s[0].addr);
    GapAfter(t);
    assert s[0].addr == t[0].addr;
    assert !Has(t, End(s[0])) && !Has(s, End(t[0]));
    assert !In(t[0], End(s[0])) && !In(s[0], End(t[0]));
  }

  /** Two lists of the same free bytes are the same list. */
  lemma {:induction false} Canonical(s: seq<Block>, t: seq<Block>)
    requires Normal(s) && Normal(t) && forall x :: Has(s, x) <==> Has(t, x)
    ensures s == t
    decreases |s|
  {
    if s == [] {
      if t != [] { assert In(t[0], t[0].addr) && Has(t, t[0].addr); }
    } else {
      FirstBlock(s, t);
      forall x ensures Has(s[1..], x) <==> Has(t[1..], x) { Later(s, x); Later(t, x); }
      Canonical(s[1..], t[1..]);
    }
  }

  lemma Later(s: seq<Block>, x: int)
    requires Normal(s) && s != []
    ensures Has(s[1..], x) <==> Has(s, x) && x >= End(s[0])
  {
    if Has(s, x) && x >= End(s[0]) {
      var i :| 0 <= i < |s| && In(s[i], x);
      assert In(s[1..][i - 1], x);
    }
    if Has(s[1..], x) {
      var i :| 0 <= i < |s| - 1 && In(s[1..][i], x);
      assert In(s[i + 1], x);
    }
  }

  /** Consecutive free bytes lie in one block. */
  lemma {:induction false} OneBlock(s: seq<Block>, a: int, n: int) returns (i: int)
    requires Normal(s) && n >= 1 && forall x :: a <= x < a + n ==> Has(s, x)
    ensures 0 <= i < |s| && s[i].addr <= a && a + n <= End(s[i])
    decreases n
  {
    assert Has(s, a + n - 1);
    var k :| 0 <= k < |s| && In(s[k], a + n - 1);
    if n == 1 {
      i := k;
    } else {
      i := OneBlock(s, a, n - 1);
      assert In(s[i], a + n - 2);
    }
  }

  // ----- lists put together -----

  /** Every block of a lies before every block of b, with something between. */
  ghost predicate Before(a: seq<Block>, b: seq<Block>) {
    forall i, j :: 0 <= i < |a| && 0 <= j < |b| ==> End(a[i]) < b[j].addr
  }

  lemma NormalConcat(a: seq<Block>, b: seq<Block>)
    ensures Normal(a + b) <==> Normal(a) && Normal(b) && Before(a, b)
  {
    var s := a + b;
    if Normal(s) {
      forall i | 0 <= i < |a| ensures a[i] == s[i] { }
      forall j | 0 <= j < |b| ensures b[j] == s[|a| + j] { }
    }
  }

  lemma HasConcat(a: seq<Block>, b: seq<Block>, x: int)
    ensures Has(a + b, x) <==> Has(a, x) || Has(b, x)
  {
    var s := a + b;
    if Has(a, x) {
      var i :| 0 <= i < |a| && In(a[i], x);
      assert In(s[i], x);
    }
    if Has(b, x) {
      var i :| 0 <= i < |b| && In(b[i], x);
      assert In(s[|a| + i], x);
    }
    if Has(s, x) {
      var i :| 0 <= i < |s| && In(s[i], x);
      assert if i < |a| then In(a[i], x) else In(b[i - |a|], x);
    }
  }

  /** A list of blocks with one of them taken out. */
  lemma Parts(s: seq<Block>, k: int)
    requires 0 <= k < |s|
    ensures s == s[..k] + ([s[k]] + s[k + 1..])
  {
  }

  // ----- what replaces a block -----

  function Piece(a: int, n: int): seq<Block> {
    if n > 0 then [Block(a, n)] else []
  }

  /** What is left of a block without the bytes from a up to e. */
  function Rest(b: Block, a: int, e: int): seq<Block> {
    Piece(b.addr, a - b.addr) + Piece(e, End(b) - e)
  }

  /** The list without the bytes from a up to e, all of them in block k. */
  function Cut(s: seq<Block>, k: int, a: int, e: int): seq<Block>
    requires 0 <= k < |s|
  {
    s[..k] + (Rest(s[k], a, e) + s[k + 1..])
  }

  lemma RestNormal(b: Block, a: int, e: int)
    requires Good(b) && b.addr <= a < e <= End(b) && Aligned(a) && Aligned(e)
    ensures Normal(Rest(b, a, e)) && Sum(Rest(b, a, e)) == b.size - (e - a)
    ensures forall i :: 0 <= i < |Rest(b, a, e)| ==> b.addr <= Rest(b, a, e)[i].addr && End(Rest(b, a, e)[i]) <= End(b)
  {
    hide Aligned;
    Differences(b, a, e);
    SumConcat(Piece(b.addr, a - b.addr), Piece(e, End(b) - e));
  }

  lemma Differences(b: Block, a: int, e: int)
    requires Good(b) && Aligned(a) && Aligned(e)
    ensures Aligned(a - b.addr) && Aligned(End(b) - e)
  {
  }

  lemma WithinConcat(a: seq<Block>, b: seq<Block>, min: int, max: int)
    requires Within(a, min, max) && Within(b, min, max)
    ensures Within(a + b, min, max)
  {
  }

  lemma RestHas(b: Block, a: int, e: int, x: int)
    requires b.addr <= a < e <= End(b)
    ensures Has(Rest(b, a, e), x) <==> In(b, x) && !(a <= x < e)
  {
    HasConcat(Piece(b.addr, a - b.addr), Piece(e, End(b) - e), x);
    PieceHas(b.addr, a - b.addr, x);
    PieceHas(e, End(b) - e, x);
  }

  lemma PieceHas(a: int, n: int, x: int)
    ensures Has(Piece(a, n), x) <==> a <= x < a + n
  {
    if n > 0 { assert Piece(a, n)[0] == Block(a, n); }
  }

  lemma CutNormal(s: seq<Block>, k: int, a: int, e: int)
    requires Normal(s) && 0 <= k < |s| && s[k].addr <= a < e <= End(s[k]) && Aligned(a) && Aligned(e)
    ensures Normal(Cut(s, k, a, e)) && Sum(Cut(s, k, a, e)) == Sum(s) - (e - a)
  {
    var pre, b, post, r := s[..k], s[k], s[k + 1..], Rest(s[k], a, e);
    RestNormal(b, a, e);
    Apart(s, k, r);
    Parts(s, k);
    assert Sum([b]) == b.size;
    NormalConcat(r, post);
    BeforeConcat(pre, r, post);
    NormalConcat(pre, r + post);
    SumConcat(r, post);
    SumConcat([b], post);
    SumConcat(pre, r + post);
    SumConcat(pre, [b] + post);
  }

  /** Blocks within block k stay clear of the others. */
  lemma Apart(s: seq<Block>, k: int, r: seq<Block>)
    requires Normal(s) && 0 <= k < |s| && forall i :: 0 <= i < |r| ==> s[k].addr <= r[i].addr && End(r[i]) <= End(s[k])
    ensures Normal(s[..k]) && Normal(s[k + 1..]) && Before(s[..k], r) && Before(r, s[k + 1..])
    ensures Before(s[..k], s[k + 1..])
  {
    hide Good;
    var post := s[k + 1..];
    forall i, j | 0 <= i < |r| && 0 <= j < |post| ensures End(r[i]) < post[j].addr {
      assert post[j] == s[k + 1 + j];
    }
  }

  lemma BeforeConcat(a: seq<Block>, b: seq<Block>, c: seq<Block>)
    requires Before(a, b) && Before(a, c)
    ensures Before(a, b + c)
  {
  }

  lemma CutWithin(s: seq<Block>, k: int, a: int, e: int, min: int, max: int)
    requires Normal(s) && 0 <= k < |s| && s[k].addr <= a < e <= End(s[k]) && Aligned(a) && Aligned(e)
    requires Within(s, min, max)
    ensures Within(Cut(s, k, a, e), min, max)
  {
    var pre, post, r := s[..k], s[k + 1..], Rest(s[k], a, e);
    RestNormal(s[k], a, e);
    assert Within(pre, min, max) && Within(r, min, max) && Within(post, min, max);
    WithinConcat(r, post, min, max);
    WithinConcat(pre, r + post, min, max);
  }

  lemma CutHas(s: seq<Block>, k: int, a: int, e: int, x: int)
    requires Normal(s) && 0 <= k < |s| && s[k].addr <= a < e <= End(s[k])
    ensures Has(Cut(s, k, a, e), x) <==> Has(s, x) && !(a <= x < e)
  {
    var pre, b, post := s[..k], s[k], s[k + 1..];
    Parts(s, k);
    HasConcat(pre, [b] + post, x);
    HasConcat([b], post, x);
    HasConcat(pre, Rest(b, a, e) + post, x);
    HasConcat(Rest(b, a, e), post, x);
    RestHas(b, a, e, x);
    assert Has([b], x) <==> In(b, x) by { if In(b, x) { assert In([b][0], x); } }
    Outside(s, k, x);
  }

  /** The other blocks do not hold bytes of block k. */
  lemma Outside(s: seq<Block>, k: int, x: int)
    requires Normal(s) && 0 <= k < |s|
    ensures In(s[k], x) ==> !Has(s[..k], x) && !Has(s[k + 1..], x)
  {
  }

  // ----- adding bytes -----

  /** How many blocks start before address a. */
  function Place(s: seq<Block>, a: int): (k: int)
    ensures 0 <= k <= |s|
  {
    if s == [] || s[0].addr >= a then 0 else 1 + Place(s[1..], a)
  }

  lemma {:induction false} Placed(s: seq<Block>, a: int)
    requires Normal(s)
    ensures forall i :: 0 <= i < |s| ==> (s[i].addr < a <==> i < Place(s, a))
  {
    if s != [] && s[0].addr < a { Placed(s[1..], a); }
  }

  /** The bytes from a up to e lie in the gap before block k: between its neighbours, which they may touch. */
  ghost predicate Fits(s: seq<Block>, k: int, a: int, e: int) {
    && 0 <= k <= |s| && 0 < a < e && Aligned(a) && Aligned(e)
    && (k > 0 ==> End(s[k - 1]) <= a) && (k < |s| ==> e <= s[k].addr)
  }

  function Lower(s: seq<Block>, k: int, a: int): int
    requires 0 <= k <= |s|
  {
    if k > 0 && End(s[k - 1]) == a then k - 1 else k
  }

  function Upper(s: seq<Block>, k: int, e: int): int
    requires 0 <= k <= |s|
  {
    if k < |s| && e == s[k].addr then k + 1 else k
  }

  /** The new block, grown by the neighbours it touches. */
  function Merged(s: seq<Block>, k: int, a: int, e: int): Block
    requires 0 <= k <= |s|
  {
    var lo := if Lower(s, k, a) < k then s[k - 1].addr else a;
    var hi := if Upper(s, k, e) > k then End(s[k]) else e;
    Block(lo, hi - lo)
  }

  function Added(s: seq<Block>, k: int, a: int, e: int): seq<Block>
    requires 0 <= k <= |s|
  {
    s[..Lower(s, k, a)] + ([Merged(s, k, a, e)] + s[Upper(s, k, e)..])
  }

  lemma MergedGood(s: seq<Block>, k: int, a: int, e: int)
    requires Normal(s) && Fits(s, k, a, e)
    ensures Good(Merged(s, k, a, e)) && Merged(s, k, a, e).addr <= a && e <= End(Merged(s, k, a, e))
  {
    var m := Merged(s, k, a, e);
    if k > 0 { Whole(s[k - 1].addr, s[k - 1].size); }
    if k < |s| { Whole(s[k].addr, s[k].size); }
    Whole(End(m), -m.addr);
  }

  lemma Whole(a: int, n: int)
    requires Aligned(a) && Aligned(n)
    ensures Aligned(a + n)
  {
  }

  lemma AddedNormal(s: seq<Block>, k: int, a: int, e: int)
    requires Normal(s) && Fits(s, k, a, e)
    ensures Normal(Added(s, k, a, e))
  {
    hide Aligned, Normal, Before, Merged, Good;
    MergedGood(s, k, a, e);
    AddedApart(s, k, a, e);
    var l, u, m := Lower(s, k, a), Upper(s, k, e), Merged(s, k, a, e);
    var pre, post := s[..l], s[u..];
    NormalConcat([m], post);
    BeforeConcat(pre, [m], post);
    NormalConcat(pre, [m] + post);
  }

  lemma AddedApart(s: seq<Block>, k: int, a: int, e: int)
    requires Normal(s) && Fits(s, k, a, e) && Good(Merged(s, k, a, e))
    ensures var l, u, m := Lower(s, k, a), Upper(s, k, e), Merged(s, k, a, e);
      && Normal(s[..l]) && Normal(s[u..]) && Normal([m])
      && Before(s[..l], s[u..]) && Before(s[..l], [m]) && Before([m], s[u..])
  {
    hide Aligned;
  }

  /** The blocks that the new one touches, and the others. */
  lemma Slices(s: seq<Block>, l: int, k: int, u: int)
    requires 0 <= l <= k <= u <= |s|
    ensures s == s[..l] + ((s[l..k] + s[k..u]) + s[u..])
  {
  }

  lemma MergedParts(s: seq<Block>, k: int, a: int, e: int)
    requires 0 <= k <= |s| && a < e
    ensures var l, u, m := Lower(s, k, a), Upper(s, k, e), Merged(s, k, a, e);
      && 0 <= l <= k <= u <= |s| && |s[l..k]| <= 1 && |s[k..u]| <= 1
      && m.size == Sum(s[l..k]) + (e - a) + Sum(s[k..u])
  {
    var l, u := Lower(s, k, a), Upper(s, k, e);
    assert Sum(s[l..k]) == if l < k then s[k - 1].size else 0;
    assert Sum(s[k..u]) == if k < u then s[k].size else 0;
  }

  lemma MergedHas(s: seq<Block>, k: int, a: int, e: int, x: int)
    requires Normal(s) && Fits(s, k, a, e)
    ensures var l, u := Lower(s, k, a), Upper(s, k, e);
      Has([Merged(s, k, a, e)], x) <==> Has(s[l..k] + s[k..u], x) || a <= x < e
  {
    var l, u := Lower(s, k, a), Upper(s, k, e);
    HasConcat(s[l..k], s[k..u], x);
    HasOne(s[l..k], x);
    HasOne(s[k..u], x);
    HasOne([Merged(s, k, a, e)], x);
  }

  lemma AddedSum(s: seq<Block>, k: int, a: int, e: int)
    requires 0 <= k <= |s| && a < e
    ensures Sum(Added(s, k, a, e)) == Sum(s) + (e - a)
  {
    var l, u, m := Lower(s, k, a), Upper(s, k, e), Merged(s, k, a, e);
    MergedParts(s, k, a, e);
    assert Sum([m]) == m.size;
    Slices(s, l, k, u);
    SumConcat(s[..l], (s[l..k] + s[k..u]) + s[u..]);
    SumConcat(s[l..k] + s[k..u], s[u..]);
    SumConcat(s[l..k], s[k..u]);
    SumConcat(s[..l], [m] + s[u..]);
    SumConcat([m], s[u..]);
  }

  lemma AddedHas(s: seq<Block>, k: int, a: int, e: int, x: int)
    requires Normal(s) && Fits(s, k, a, e)
    ensures Has(Added(s, k, a, e), x) <==> Has(s, x) || a <= x < e
  {
    var l, u, m := Lower(s, k, a), Upper(s, k, e), Merged(s, k, a, e);
    MergedParts(s, k, a, e);
    MergedHas(s, k, a, e, x);
    Slices(s, l, k, u);
    HasConcat(s[..l], (s[l..k] + s[k..u]) + s[u..], x);
    HasConcat(s[l..k] + s[k..u], s[u..], x);
    HasConcat(s[..l], [m] + s[u..], x);
    HasConcat([m], s[u..], x);
  }

  lemma HasOne(s: seq<Block>, x: int)
    requires |s| <= 1
    ensures Has(s, x) <==> |s| == 1 && In(s[0], x)
  {
    if |s| == 1 && In(s[0], x) { assert Has(s, x); }
  }

  lemma AddedWithin(s: seq<Block>, k: int, a: int, e: int, min: int, max: int)
    requires Normal(s) && Fits(s, k, a, e) && Within(s, min, max) && min <= a && e <= max
    ensures Within(Added(s, k, a, e), min, max)
  {
    var l, u, m := Lower(s, k, a), Upper(s, k, e), Merged(s, k, a, e);
    assert Within(s[..l], min, max) && Within(s[u..], min, max) && Within([m], min, max);
    WithinConcat([m], s[u..], min, max);
    WithinConcat(s[..l], [m] + s[u..], min, max);
  }

  /** Bytes that are not free lie in the gap at their place. */
  lemma InGap(s: seq<Block>, a: int, e: int)
    requires Normal(s) && 0 < a < e && Aligned(a) && Aligned(e) && forall x :: a <= x < e ==> !Has(s, x)
    ensures Fits(s, Place(s, a), a, e)
  {
    Placed(s, a);
    var k := Place(s, a);
    if k > 0 { assert In(s[k - 1], a) ==> Has(s, a); }
    if k < |s| { assert In(s[k], s[k].addr) && Has(s, s[k].addr); }
  }
}
