/** The boot directory of a guest: its memory, page by page, where the guest starts without paging. */
module ShadowBoot {
  import opened PageEntries
  import opened ShadowPages
  import opened ShadowAdjust
  import opened ShadowVm

  /** The entry for page p once the first n pages are mapped. */
  function BootPte(base: Word, p: int, n: int): Word
    requires Aligned(base) && 0 <= p && 0 <= n && base + n * PAGE_SIZE < 0x1_0000_0000
  {
    if p < n then PageAligned(base, p); Entry(base + p * PAGE_SIZE, 0, true, true) else BAD
  }

  lemma PageAligned(base: Word, p: int)
    requires Aligned(base) && 0 <= p
    ensures (base + p * PAGE_SIZE) % PAGE_SIZE == 0
  {
  }

  function BootPde(table: Word): Word
    requires Aligned(table)
  {
    Entry(table, 0, true, true)
  }

  /** Entry j of the table that entry k of user memory refers to. */
  ghost predicate HasPage(m: Mem, base: Word, cr3: Word, k: int, j: int, n: int)
    requires Total(m) && Aligned(cr3) && Aligned(base) && 0 <= k < GUEST_ENTRIES && 0 <= j < ENTRIES
    requires Aligned(Base(m[cr3][USER_PD_START + k])) && 0 <= n && base + n * PAGE_SIZE < 0x1_0000_0000
  {
    m[Base(m[cr3][USER_PD_START + k])][j] == BootPte(base, k * ENTRIES + j, n)
  }

  /** The directory refers to tables for its first t entries, and these map the first n pages and no others. */
  ghost predicate Booted(m: Mem, base: Word, cr3: Word, t: int, n: int) {
    && Total(m) && Aligned(cr3) && Aligned(base) && 0 <= t <= GUEST_ENTRIES
    && 0 <= n <= t * ENTRIES && base + n * PAGE_SIZE < 0x1_0000_0000
    && Injective(m[cr3]) && cr3 !in Tables(m[cr3])
    && (forall k :: USER_PD_START <= k < ENTRIES ==>
         if k < USER_PD_START + t then Aligned(Base(m[cr3][k])) && m[cr3][k] == BootPde(Base(m[cr3][k]))
         else m[cr3][k] == BAD)
    && forall k, j :: 0 <= k < t && 0 <= j < ENTRIES ==> HasPage(m, base, cr3, k, j, n)
  }

  lemma BootPdeParts(table: Word)
    requires Aligned(table)
    ensures var e := BootPde(table); Present(e) && Writable(e) && User(e) && Base(e) == table && e != BAD
  {
    EntryFields(table, 0, true, true);
  }

  /** What a booting guest sees: its page p is page p of its memory, and there are no others. */
  lemma BootWalk(m: Mem, base: Word, cr3: Word, t: int, n: int, i: int, j: int)
    requires Booted(m, base, cr3, t, n) && 0 <= i < GUEST_ENTRIES && 0 <= j < ENTRIES
    ensures var p := i * ENTRIES + j;
      HostWalk(m, cr3, i, j) == if p < n then Maps(base + p * PAGE_SIZE, true, true) else Fault
    ensures var pde, p := m[cr3][USER_PD_START + i], i * ENTRIES + j;
      if i < t then pde % 0x1000 == 7 && Base(pde) in m && m[Base(pde)][j] % 0x1000 == if p < n then 7 else 0
      else pde == 0
  {
    var p, pde := i * ENTRIES + j, m[cr3][USER_PD_START + i];
    if i < t {
      BootPdeParts(Base(pde));
      EntryLow(Base(pde), 0, true, true);
      assert HasPage(m, base, cr3, i, j, n);
      if p < n {
        PageAligned(base, p);
        EntryLow(base + p * PAGE_SIZE, 0, true, true);
        EntryFields(base + p * PAGE_SIZE, 0, true, true);
      }
    }
  }

  function Cleared(): (z: seq<Word>)
    ensures |z| == ENTRIES && forall j :: 0 <= j < ENTRIES ==> z[j] == BAD
  {
    seq(ENTRIES, _ => BAD)
  }

  /** One more table, cleared, when the tables so far are full. */
  lemma BootedTable(m: Mem, base: Word, cr3: Word, t: int, n: int, a: Word)
    requires Booted(m, base, cr3, t, n) && n == t * ENTRIES && t < GUEST_ENTRIES
    requires Aligned(a) && a != cr3 && a !in Tables(m[cr3])
    ensures var m' := Stored(m[a := Cleared()], cr3, USER_PD_START + t, BootPde(a));
      Booted(m', base, cr3, t + 1, n) && Tables(m'[cr3]) == Tables(m[cr3]) + {a}
  {
    var d, z := m[cr3], Cleared();
    var m' := Stored(m[a := z], cr3, USER_PD_START + t, BootPde(a));
    BootPdeParts(a);
    TablesMore(d, USER_PD_START + t, BootPde(a));
    forall k, j | 0 <= k < t + 1 && 0 <= j < ENTRIES
      ensures Aligned(Base(m'[cr3][USER_PD_START + k])) && HasPage(m', base, cr3, k, j, n)
    {
      if k < t {
        BootPdeParts(Base(d[USER_PD_START + k]));
        assert Base(d[USER_PD_START + k]) in Tables(d);
        assert HasPage(m, base, cr3, k, j, n);
      }
    }
  }

  /** One more page. */
  lemma BootedPage(m: Mem, base: Word, cr3: Word, t: int, n: int, k: int, j: int)
    requires Booted(m, base, cr3, t, n) && 0 <= k < t && 0 <= j < ENTRIES && n == k * ENTRIES + j
    requires base + (n + 1) * PAGE_SIZE < 0x1_0000_0000
    ensures base + n * PAGE_SIZE < 0x1_0000_0000 && (base + n * PAGE_SIZE) % PAGE_SIZE == 0
    ensures var m' := Stored(m, Base(m[cr3][USER_PD_START + k]), j, Entry(base + n * PAGE_SIZE, 0, true, true));
      Booted(m', base, cr3, t, n + 1) && m'[cr3] == m[cr3]
  {
    PageAligned(base, n);
    var d := m[cr3];
    BootPdeParts(Base(d[USER_PD_START + k]));
    assert Base(d[USER_PD_START + k]) in Tables(d);
    var m' := Stored(m, Base(d[USER_PD_START + k]), j, Entry(base + n * PAGE_SIZE, 0, true, true));
    var n' := n + 1;
    forall k2, j2 | 0 <= k2 < t && 0 <= j2 < ENTRIES
      ensures Aligned(Base(m'[cr3][USER_PD_START + k2])) && HasPage(m', base, cr3, k2, j2, n')
    {
      BootPdeParts(Base(d[USER_PD_START + k2]));
      assert HasPage(m, base, cr3, k2, j2, n);
      assert k2 != k ==> Base(d[USER_PD_START + k2]) != Base(d[USER_PD_START + k]);
      assert n == k2 * ENTRIES + j2 <==> k2 == k && j2 == j;
    }
  }

  /** The tables of the directory were taken from the spare frames. */
  ghost predicate Taken(m: Mem, cr3: Word, avail: set<Word>, free: set<Word>, t: int)
    requires Total(m) && Aligned(cr3)
  {
    && Tables(m[cr3]) <= avail && free == avail - Tables(m[cr3]) && cr3 !in avail && |free| == |avail| - t
  }

  lemma BootedNone(m: Mem, base: Word, cr3: Word, avail: set<Word>)
    requires Total(m) && Aligned(cr3) && Aligned(base) && cr3 !in avail
    requires forall k :: USER_PD_START <= k < ENTRIES ==> m[cr3][k] == BAD
    ensures Booted(m, base, cr3, 0, 0) && Taken(m, cr3, avail, avail, 0)
  {
  }

  /** `find_or_create_pt` for the page that is mapped next. */
  method FindOrCreatePt(vm: Vm, cr3: Word, ghost t: int, ghost n: int, k: int, ghost avail: set<Word>)
    returns (pt: Word, ghost t': int)
    requires vm.Ready() && Spare(vm.guest, avail) && Booted(vm.mem, vm.guest.base, cr3, t, n)
    requires Taken(vm.mem, cr3, avail, vm.free, t)
    requires 0 <= k < GUEST_ENTRIES && (k < t || (k == t && n == t * ENTRIES))
    modifies vm`mem, vm`free
    ensures vm.Ready() && Booted(vm.mem, vm.guest.base, cr3, t', n) && Taken(vm.mem, cr3, avail, vm.free, t')
    ensures Same(old(vm.mem), vm.mem, avail + {cr3})
    ensures t' == if pt == BAD || k < t then t else t + 1
    ensures pt == BAD <==> k == t && old(vm.free) == {}
    ensures pt != BAD ==> k < t' && pt == Base(vm.mem[cr3][USER_PD_START + k])
  {
    hide Booted, HasPage, Tables;
    t' := t;
    EntriesOf(vm.mem, vm.guest.base, cr3, t, n, k);
    var pde := vm.mem[cr3][USER_PD_START + k];
    if pde == BAD {
      pt := vm.AllocPage();
      if pt == BAD {
        SameSelf(vm.mem, avail + {cr3});
        return;
      }
      BootedTable(vm.mem, vm.guest.base, cr3, t, n, pt);
      BootPdeParts(pt);
      vm.mem := vm.mem[pt := Cleared()];
      vm.mem := Stored(vm.mem, cr3, USER_PD_START + k, BootPde(pt));
      t' := t + 1;
      return;
    }
    pt := Base(pde);
    SameSelf(vm.mem, avail + {cr3});
  }

  lemma EntriesOf(m: Mem, base: Word, cr3: Word, t: int, n: int, k: int)
    requires Booted(m, base, cr3, t, n) && 0 <= k < GUEST_ENTRIES
    ensures Total(m) && Aligned(cr3) && cr3 !in Tables(m[cr3])
    ensures m[cr3][USER_PD_START + k] == BAD <==> k >= t
    ensures k < t ==> var pt := Base(m[cr3][USER_PD_START + k]);
      pt in Tables(m[cr3]) && Aligned(pt) && pt != cr3
  {
    if k < t { BootPdeParts(Base(m[cr3][USER_PD_START + k])); }
  }

  /** How many tables n pages take. */
  function TablesFor(n: int): int {
    (n + ENTRIES - 1) / ENTRIES
  }

  /** How many tables there are before page i is mapped: one from the start. */
  function TablesBefore(i: int): int {
    if i == 0 then 1 else TablesFor(i)
  }

  lemma PageSteps(i: int, n: int)
    requires 0 <= i < n <= GUEST_ENTRIES * ENTRIES
    ensures 0 <= i / ENTRIES < GUEST_ENTRIES && 0 <= i % ENTRIES < ENTRIES && i == i / ENTRIES * ENTRIES + i % ENTRIES
    ensures TablesBefore(i) == if i % ENTRIES == 0 && i > 0 then i / ENTRIES else i / ENTRIES + 1
    ensures TablesBefore(i + 1) == i / ENTRIES + 1 <= TablesFor(n) == TablesBefore(n)
  {
  }

  /** Page i is mapped in its table. */
  method MapPage(vm: Vm, cr3: Word, ghost t: int, i: int, pt: Word, ghost avail: set<Word>)
    requires vm.Ready() && Booted(vm.mem, vm.guest.base, cr3, t, i) && Taken(vm.mem, cr3, avail, vm.free, t)
    requires 0 <= i / ENTRIES < t <= GUEST_ENTRIES && pt == Base(vm.mem[cr3][USER_PD_START + i / ENTRIES])
    requires vm.guest.base + (i + 1) * PAGE_SIZE < 0x1_0000_0000
    modifies vm`mem
    ensures vm.Ready() && Booted(vm.mem, vm.guest.base, cr3, t, i + 1) && Taken(vm.mem, cr3, avail, vm.free, t)
    ensures vm.mem[cr3] == old(vm.mem[cr3]) && Same(old(vm.mem), vm.mem, avail)
  {
    hide Booted, HasPage, Tables;
    EntriesOf(vm.mem, vm.guest.base, cr3, t, i, i / ENTRIES);
    BootedPage(vm.mem, vm.guest.base, cr3, t, i, i / ENTRIES, i % ENTRIES);
    vm.mem := Stored(vm.mem, pt, i % ENTRIES, Entry(vm.guest.base + i * PAGE_SIZE, 0, true, true));
  }

  lemma SameMore(m: Mem, m': Mem, a: set<Word>, b: set<Word>)
    requires Same(m, m', a) && a <= b
    ensures Same(m, m', b)
  {
  }

  /** One round of the loop of `create_boot_pd`. */
  method Round(vm: Vm, cr3: Word, i: int, n: int, pt0: Word, ghost t0: int, ghost avail: set<Word>)
    returns (ok: bool, pt: Word, ghost t: int)
    requires vm.Ready() && Booted(vm.mem, vm.guest.base, cr3, t0, i) && Taken(vm.mem, cr3, avail, vm.free, t0)
    requires 0 <= i < n <= GUEST_ENTRIES * ENTRIES && vm.guest.limit == n * PAGE_SIZE && t0 == TablesBefore(i)
    requires Spare(vm.guest, avail) && (i % ENTRIES != 0 ==> pt0 == Base(vm.mem[cr3][USER_PD_START + i / ENTRIES]))
    modifies vm`mem, vm`free
    ensures vm.Ready() && Same(old(vm.mem), vm.mem, avail + {cr3}) && Taken(vm.mem, cr3, avail, vm.free, t)
    ensures Booted(vm.mem, vm.guest.base, cr3, t, if ok then i + 1 else i)
    ensures if ok then t == TablesBefore(i + 1) else |avail| == t < TablesFor(n)
    ensures ok && (i + 1) % ENTRIES != 0 ==> pt == Base(vm.mem[cr3][USER_PD_START + (i + 1) / ENTRIES])
  {
    hide Booted, HasPage, Tables, Same, Spare, TablesFor, TablesBefore;
    PageSteps(i, n);
    pt, t := pt0, t0;
    SameSelf(vm.mem, avail + {cr3});
    if i % ENTRIES == 0 {
      pt, t := FindOrCreatePt(vm, cr3, t, i, i / ENTRIES, avail);
      if pt == BAD {
        return false, pt, t;
      }
    }
    ghost var m := vm.mem;
    MapPage(vm, cr3, t, i, pt, avail);
    SameMore(m, vm.mem, avail, avail + {cr3});
    SameChain(old(vm.mem), m, vm.mem, avail + {cr3});
    ok := true;
  }

  /** The loop of `create_boot_pd`. */
  method MapBootPages(vm: Vm, cr3: Word, n: int) returns (ok: bool, ghost t: int)
    requires vm.Ready() && Aligned(cr3) && cr3 !in vm.free && 1 <= n <= GUEST_ENTRIES * ENTRIES
    requires vm.guest.limit == n * PAGE_SIZE && forall k :: USER_PD_START <= k < ENTRIES ==> vm.mem[cr3][k] == BAD
    modifies vm`mem, vm`free
    ensures vm.Ready() && Same(old(vm.mem), vm.mem, old(vm.free) + {cr3})
    ensures Taken(vm.mem, cr3, old(vm.free), vm.free, t) && (ok <==> |old(vm.free)| >= TablesFor(n))
    ensures exists i :: 0 <= i <= n && Booted(vm.mem, vm.guest.base, cr3, t, i) && (ok ==> i == n && t == TablesFor(n))
  {
    hide Booted, HasPage, Tables, Same, Spare, TablesFor, TablesBefore;
    ghost var avail, m := vm.free, vm.mem;
    BootedNone(vm.mem, vm.guest.base, cr3, avail);
    PageSteps(0, n);
    var pt;
    pt, t := FindOrCreatePt(vm, cr3, 0, 0, 0, avail);
    if pt == BAD {
      return false, t;
    }
    var i, more := 0, true;
    while more
      invariant 0 <= i <= n && (more <==> i < n) && vm.Ready() && Same(m, vm.mem, avail + {cr3})
      invariant Booted(vm.mem, vm.guest.base, cr3, t, i) && Taken(vm.mem, cr3, avail, vm.free, t)
      invariant t == TablesBefore(i)
      invariant i % ENTRIES != 0 ==> pt == Base(vm.mem[cr3][USER_PD_START + i / ENTRIES])
      decreases n - i
    {
      ghost var m1 := vm.mem;
      ok, pt, t := Round(vm, cr3, i, n, pt, t, avail);
      SameChain(m, m1, vm.mem, avail + {cr3});
      if !ok {
        return;
      }
      i := i + 1;
      more := i < n;
    }
    PageSteps(n - 1, n);
    return true, t;
  }

  /** The frame of the guest's page p. */
  function GuestFrame(g: Guest, p: int): (f: Word)
    requires Placed(g) && 0 <= p && (p + 1) * PAGE_SIZE <= g.limit
    ensures Aligned(f) && Inside(g, f)
  {
    PageAligned(g.base, p);
    g.base + p * PAGE_SIZE
  }

  ghost predicate ClearedTo(m: Mem, g: Guest, n: int)
    requires Placed(g) && Total(m) && n * PAGE_SIZE <= g.limit
  {
    forall p :: 0 <= p < n ==> m[GuestFrame(g, p)] == Cleared()
  }

  /** Guest frames are no part of the boot directory. */
  lemma BootedSame(m: Mem, m': Mem, g: Guest, cr3: Word, t: int, n: int, f: Word)
    requires Placed(g) && Booted(m, g.base, cr3, t, n) && Total(m') && Same(m, m', {f}) && Inside(g, f)
    requires Spare(g, {cr3} + Tables(m[cr3]))
    ensures Booted(m', g.base, cr3, t, n) && m'[cr3] == m[cr3]
  {
    var d := m[cr3];
    assert m'[cr3] == d by { assert cr3 in {cr3} + Tables(d); }
    forall k, j | 0 <= k < t && 0 <= j < ENTRIES
      ensures Aligned(Base(m'[cr3][USER_PD_START + k])) && HasPage(m', g.base, cr3, k, j, n)
    {
      BootPdeParts(Base(d[USER_PD_START + k]));
      assert Base(d[USER_PD_START + k]) in Tables(d);
      assert HasPage(m, g.base, cr3, k, j, n);
    }
  }

  /** `memset` of the guest's memory, through the new mapping. */
  method ClearGuest(vm: Vm, cr3: Word, n: int, ghost t: int)
    requires vm.Ready() && 1 <= n && vm.guest.limit == n * PAGE_SIZE && Booted(vm.mem, vm.guest.base, cr3, t, n)
    requires Spare(vm.guest, {cr3} + Tables(vm.mem[cr3]))
    modifies vm`mem
    ensures vm.Ready() && Booted(vm.mem, vm.guest.base, cr3, t, n) && vm.mem[cr3] == old(vm.mem[cr3])
    ensures ClearedTo(vm.mem, vm.guest, n)
    ensures forall f :: f in old(vm.mem) && !Inside(vm.guest, f) ==> f in vm.mem && vm.mem[f] == old(vm.mem[f])
  {
    hide Booted, HasPage, Tables, Spare, Inside;
    EntriesOf(vm.mem, vm.guest.base, cr3, t, n, 0);
    var p := 0;
    while p < n
      invariant 0 <= p <= n && vm.Ready() && Booted(vm.mem, vm.guest.base, cr3, t, n)
      invariant cr3 in old(vm.mem) && cr3 in vm.mem && vm.mem[cr3] == old(vm.mem[cr3])
      invariant ClearedTo(vm.mem, vm.guest, p)
      invariant forall f :: f in old(vm.mem) && !Inside(vm.guest, f) ==> f in vm.mem && vm.mem[f] == old(vm.mem[f])
    {
      ghost var m := vm.mem;
      vm.mem := vm.mem[GuestFrame(vm.guest, p) := Cleared()];
      BootedSame(m, vm.mem, vm.guest, cr3, t, n, GuestFrame(vm.guest, p));
      p := p + 1;
    }
  }

  /** The directory is a tree of frames of its own. */
  ghost predicate Tree(m: Mem, cr3: Word)
    requires Total(m) && Aligned(cr3)
  {
    Injective(m[cr3]) && cr3 !in Tables(m[cr3])
  }

  lemma BootedTree(m: Mem, base: Word, cr3: Word, t: int, n: int)
    requires Booted(m, base, cr3, t, n)
    ensures Total(m) && Aligned(cr3) && Tree(m, cr3)
  {
  }

  /** `create_boot_pd`, for a guest with n pages: it fails when the frames do not suffice for the tables, which then
      stay reachable from the directory. */
  method CreateBoot(vm: Vm, cr3: Word, n: int) returns (ok: bool)
    requires vm.Ready() && Aligned(cr3) && cr3 !in vm.free && 1 <= n <= GUEST_ENTRIES * ENTRIES
    requires Spare(vm.guest, {cr3})
    requires vm.guest.limit == n * PAGE_SIZE && forall k :: USER_PD_START <= k < ENTRIES ==> vm.mem[cr3][k] == BAD
    modifies vm`mem, vm`free
    ensures vm.Ready() && (ok <==> |old(vm.free)| >= TablesFor(n))
    ensures Tree(vm.mem, cr3) && Tables(vm.mem[cr3]) <= old(vm.free) && vm.free == old(vm.free) - Tables(vm.mem[cr3])
    ensures ok ==> ClearedTo(vm.mem, vm.guest, n) && Booted(vm.mem, vm.guest.base, cr3, TablesFor(n), n)
  {
    hide Booted, HasPage, Tables, Spare, Tree, TablesFor, Injective;
    ghost var t;
    ok, t := MapBootPages(vm, cr3, n);
    ghost var i :| 0 <= i <= n && Booted(vm.mem, vm.guest.base, cr3, t, i) && (ok ==> i == n && t == TablesFor(n));
    SpareTree(vm.guest, cr3, Tables(vm.mem[cr3]), old(vm.free));
    if ok {
      ClearGuest(vm, cr3, n, t);
    }
    BootedTree(vm.mem, vm.guest.base, cr3, t, i);
  }

  lemma SpareTree(g: Guest, cr3: Word, tables: set<Word>, avail: set<Word>)
    requires Spare(g, {cr3}) && Spare(g, avail) && tables <= avail
    ensures Spare(g, {cr3} + tables)
  {
    assert cr3 in {cr3};
  }
}
