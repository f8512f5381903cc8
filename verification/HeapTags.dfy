/** The user heap as bytes: words in little-endian order, and the tags at both ends of each block. */
module HeapTags {
  import opened PageLayout
  import opened Words

  type Byte = b: int | 0 <= b < 0x100

  type Bytes = seq<Byte>

  // ----- words -----

  function FromBytes(s: Bytes): nat {
    if s == [] then 0 else s[0] + 0x100 * FromBytes(s[1..])
  }

  function ToBytes(x: nat, n: nat): (s: Bytes)
    ensures |s| == n
  {
    if n == 0 then [] else [x % 0x100] + ToBytes(x / 0x100, n - 1)
  }

  lemma {:induction false} BytesBack(x: nat, n: nat)
    requires x < Pow2(8 * n)
    ensures FromBytes(ToBytes(x, n)) == x
  {
    if n > 0 {
      assert Pow2(8 * n) == 0x100 * Pow2(8 * (n - 1)) by {
        Pow2Add(8, 8 * (n - 1));
        assert Pow2(8) == 0x100;
      }
      BytesBack(x / 0x100, n - 1);
      assert ToBytes(x, n)[1..] == ToBytes(x / 0x100, n - 1);
    }
  }

  /** The word at index w. */
  function WordAt(mem: Bytes, w: int): nat
    requires 0 <= w && 8 * w + 8 <= |mem|
  {
    FromBytes(mem[8 * w..8 * w + 8])
  }

  function Write(mem: Bytes, w: int, x: nat): (m: Bytes)
    requires 0 <= w && 8 * w + 8 <= |mem|
    ensures |m| == |mem|
  {
    mem[..8 * w] + ToBytes(x, 8) + mem[8 * w + 8..]
  }

  /** Only the bytes from lo up to hi may differ. */
  ghost predicate SameBut(mem: Bytes, mem': Bytes, lo: int, hi: int) {
    |mem'| == |mem| && forall i :: 0 <= i < |mem| && !(lo <= i < hi) ==> mem'[i] == mem[i]
  }

  lemma Written(mem: Bytes, w: int, x: nat)
    requires 0 <= w && 8 * w + 8 <= |mem| && x < Pow2(64)
    ensures WordAt(Write(mem, w, x), w) == x && SameBut(mem, Write(mem, w, x), 8 * w, 8 * w + 8)
  {
    BytesBack(x, 8);
    assert Write(mem, w, x)[8 * w..8 * w + 8] == ToBytes(x, 8);
  }

  lemma WordSame(mem: Bytes, mem': Bytes, w: int)
    requires 0 <= w && 8 * w + 8 <= |mem| && 8 * w + 8 <= |mem'|
    requires forall i :: 8 * w <= i < 8 * w + 8 ==> mem'[i] == mem[i]
    ensures WordAt(mem', w) == WordAt(mem, w)
  {
    assert mem'[8 * w..8 * w + 8] == mem[8 * w..8 * w + 8];
  }

  // ----- tags; block sizes count units of 16 bytes -----

  /** `pack` */
  function Tag(size: nat, alloc: bool): nat {
    16 * size + if alloc then 1 else 0
  }

  /** `extract_size` and `extract_alloc` */
  function SizeOf(tag: nat): nat { tag / 16 }

  predicate IsAlloc(tag: nat) { tag % 2 != 0 }

  lemma Sixteenth(size: int, bit: int)
    requires 0 <= bit < 16
    ensures (16 * size + bit) / 16 == size
  {
  }

  lemma LowestBit(half: int, bit: int)
    requires 0 <= bit < 2
    ensures (2 * half + bit) % 2 == bit
  {
  }

  lemma TagParts(size: nat, alloc: bool)
    ensures SizeOf(Tag(size, alloc)) == size && IsAlloc(Tag(size, alloc)) == alloc
  {
    var bit := if alloc then 1 else 0;
    Sixteenth(size, bit);
    LowestBit(8 * size, bit);
  }

  lemma TagFits(size: nat, alloc: bool)
    requires 16 * size < WORD
    ensures Tag(size, alloc) < Pow2(64)
  {
    Pow2Add(8, 8);
    assert Pow2(8) == 0x100;
    assert Pow2(16) == 0x10000;
    Pow2Add(16, 16);
    Pow2Mono(33, 64);
  }

  /** The words of the header and the footer of a block that takes the units from u up to e. */
  function Header(u: int): int { 2 * u + 1 }

  function Footer(e: int): int { 2 * e }

  /** Both ends of the block carry its tag. */
  ghost predicate Ends(mem: Bytes, u: int, size: int, alloc: bool) {
    && 0 <= u && 0 <= size && 16 * (u + size) + 16 <= |mem|
    && WordAt(mem, Header(u)) == WordAt(mem, Footer(u + size)) == Tag(size, alloc)
  }

  /** Room for N units between the last word of the prologue and the first of the epilogue, which are tagged as
      allocated. */
  ghost predicate Framed(mem: Bytes, N: int) {
    && N >= 0 && |mem| == 16 * N + 16
    && WordAt(mem, Footer(0)) == Tag(0, true) && WordAt(mem, Header(N)) == Tag(0, true)
  }

  /** A block's first word and the last word before the next one's hold its bytes, and 1 more when it is live. */
  lemma EndWords(mem: Bytes, u: int, size: int, alloc: bool)
    requires Ends(mem, u, size, alloc) && size >= 1
    ensures var tag := 16 * size + if alloc then 1 else 0;
      FromBytes(mem[16 * u + 8..16 * u + 16]) == tag && FromBytes(mem[16 * (u + size)..16 * (u + size) + 8]) == tag
  {
    assert 8 * Header(u) == 16 * u + 8 && 8 * Footer(u + size) == 16 * (u + size);
  }

  /** The heap is tiled by tagged blocks. */
  ghost predicate Tagged(mem: Bytes, l: Layout, N: int) {
    && Tiled(l, N) && Framed(mem, N)
    && forall u :: u in l.size ==> Ends(mem, u, l.size[u], u !in l.free)
  }

  /** Only bytes of the units from a up to e may differ. */
  ghost predicate UnitsSame(mem: Bytes, mem': Bytes, a: int, e: int) {
    SameBut(mem, mem', 16 * a + 8, 16 * e + 8)
  }

  /** A block outside these units keeps its tags. */
  lemma EndsSame(mem: Bytes, mem': Bytes, a: int, e: int, u: int, size: int, alloc: bool)
    requires UnitsSame(mem, mem', a, e) && Ends(mem, u, size, alloc) && size >= 1 && (u + size <= a || e <= u)
    ensures Ends(mem', u, size, alloc)
  {
    WordSame(mem, mem', Header(u));
    WordSame(mem, mem', Footer(u + size));
  }

  lemma FramedSame(mem: Bytes, mem': Bytes, a: int, e: int, N: int)
    requires UnitsSame(mem, mem', a, e) && Framed(mem, N) && 0 <= a <= e <= N
    ensures Framed(mem', N)
  {
    WordSame(mem, mem', Footer(0));
    WordSame(mem, mem', Header(N));
  }

  /** `write_header` and `write_footer` */
  function Tied(mem: Bytes, u: int, size: int, alloc: bool): Bytes
    requires 0 <= u && 0 <= size && 16 * (u + size) + 16 <= |mem|
  {
    Write(Write(mem, Header(u), Tag(size, alloc)), Footer(u + size), Tag(size, alloc))
  }

  lemma TiedEnds(mem: Bytes, u: int, size: int, alloc: bool)
    requires 0 <= u && 0 <= size && 16 * (u + size) + 16 <= |mem| < WORD
    ensures Ends(Tied(mem, u, size, alloc), u, size, alloc)
    ensures size >= 1 ==> UnitsSame(mem, Tied(mem, u, size, alloc), u, u + size)
    ensures size == 0 ==> SameBut(mem, Tied(mem, u, size, alloc), 16 * u, 16 * u + 16)
  {
    hide WordAt, Write;
    TagFits(size, alloc);
    Written(mem, Header(u), Tag(size, alloc));
    var m := Write(mem, Header(u), Tag(size, alloc));
    Written(m, Footer(u + size), Tag(size, alloc));
    WordSame(m, Tied(mem, u, size, alloc), Header(u));
  }

  // ----- what the operations do to the tags -----

  ghost predicate Within(l: Layout, u: int, a: int, e: int) {
    u in l.size && a <= u && u + l.size[u] <= e
  }

  ghost predicate Outside(l: Layout, u: int, a: int, e: int) {
    u in l.size && (u + l.size[u] <= a || e <= u)
  }

  ghost predicate SameBlock(l: Layout, l': Layout, u: int) {
    u in l.size && u in l'.size && l.size[u] == l'.size[u] && (u in l.free <==> u in l'.free)
  }

  /** Between a and e there are other blocks now, with the right tags. */
  lemma Retagged(mem: Bytes, mem': Bytes, l: Layout, l': Layout, N: int, a: int, e: int)
    requires Tagged(mem, l, N) && Tiled(l', N) && UnitsSame(mem, mem', a, e) && 0 <= a <= e <= N
    requires forall u :: u in l'.size ==> Within(l', u, a, e) || (Outside(l, u, a, e) && SameBlock(l, l', u))
    requires forall u :: u in l'.size && Within(l', u, a, e) ==> Ends(mem', u, l'.size[u], u !in l'.free)
    ensures Tagged(mem', l', N)
  {
    hide Ends, Framed, UnitsSame;
    FramedSame(mem, mem', a, e, N);
    forall u | u in l'.size ensures Ends(mem', u, l'.size[u], u !in l'.free) {
      if !Within(l', u, a, e) { EndsSame(mem, mem', a, e, u, l.size[u], u !in l.free); }
    }
  }

  /** What the words next to a block say about its neighbours. */
  lemma Neighbours(mem: Bytes, l: Layout, N: int, s: int) returns (p: int)
    requires Tagged(mem, l, N) && s in l.size
    ensures var e := s + l.size[s];
      && e <= N && 0 <= s && Footer(s) >= 0 && 8 * Footer(s) + 8 <= |mem| && 8 * Header(e) + 8 <= |mem|
      && (e in l.size ==> WordAt(mem, Header(e)) == Tag(l.size[e], e !in l.free))
      && (e !in l.size ==> e == N && WordAt(mem, Header(e)) == Tag(0, true))
      && (s > 0 ==> p in l.size && p + l.size[p] == s && WordAt(mem, Footer(s)) == Tag(l.size[p], p !in l.free))
      && (s == 0 ==> WordAt(mem, Footer(s)) == Tag(0, true))
  {
    hide WordAt;
    p := 0;
    if s > 0 {
      p := Cover(l, N, s - 1);
      assert p + l.size[p] == s;
    }
  }
}
