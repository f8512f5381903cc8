/** The hypervisor's side of a paravirtual guest: building, repairing and dropping shadow directories. */
module ShadowVm {
  import opened PageEntries
  import opened ShadowPages
  import opened ShadowAdjust
  import opened Wrappers

  lemma SameSelf(m: Mem, except: set<Word>)
    ensures Same(m, m, except)
  {
  }

  lemma SameChain(m: Mem, m1: Mem, m2: Mem, except: set<Word>)
    requires Same(m, m1, except) && Same(m1, m2, except)
    ensures Same(m, m2, except)
  {
  }

  /** Two tables for each present entry of the guest's directory at pd. */
  ghost function TablesNeeded(m: Mem, g: Guest, pd: Word): nat
    requires Placed(g) && Total(m) && Aligned(pd)
  {
    if pd < g.limit then 2 * PresentCount(m[g.base + pd], GUEST_ENTRIES) else 0
  }

  /** What filling directories takes: all tables inside the guest and enough of n spare frames. */
  ghost predicate CanFill(m: Mem, g: Guest, pd: Word, n: int)
    requires Placed(g) && Total(m) && Aligned(pd)
  {
    pd < g.limit && TablesInside(g, m[g.base + pd], GUEST_ENTRIES) && n >= TablesNeeded(m, g, pd)
  }

  lemma CanFillSame(m: Mem, m': Mem, g: Guest, pd: Word, n: int, except: set<Word>)
    requires Placed(g) && Total(m) && Total(m') && Aligned(pd) && Same(m, m', except) && Spare(g, except)
    ensures CanFill(m', g, pd, n) == CanFill(m, g, pd, n) && TablesNeeded(m', g, pd) == TablesNeeded(m, g, pd)
  {
  }

  lemma GuestDirectory(g: Guest, pd: Word)
    requires Placed(g) && Aligned(pd) && pd < g.limit
    ensures Aligned(g.base + pd) && Inside(g, g.base + pd)
  {
  }

  lemma FillLimit(m: Mem, g: Guest, pd: Word, n: int)
    requires Placed(g) && Total(m) && Aligned(pd)
    ensures CanFill(m, g, pd, n) ==> pd < g.limit && n >= TablesNeeded(m, g, pd)
  {
  }

  ghost predicate AllFresh(m: Mem, g: Guest, s: Shadow)
    requires Placed(g) && Sound(m, s)
  {
    forall i, j :: 0 <= i < GUEST_ENTRIES && 0 <= j < ENTRIES ==>
      Fresh(m, g, s.wp, s.guestPd, m[s.cr3], m[s.userCr3], i, j)
  }

  /** The finished directories, written to their frames, make a shadow. */
  lemma BuiltShadow(m: Mem, g: Guest, dk: seq<Word>, du: seq<Word>, s: Shadow, avail: set<Word>, free: set<Word>)
    requires Built(m, g, s.wp, s.guestPd, dk, du, GUEST_ENTRIES, avail, free) && Inside(g, s.guestPd)
    requires s.cr3 != s.userCr3 && s.cr3 !in avail && s.userCr3 !in avail && Spare(g, {s.cr3, s.userCr3} + avail)
    ensures var m' := m[s.cr3 := dk][s.userCr3 := du];
      Sound(m', s) && AllFresh(m', g, s) && Owned(m', s) == {s.cr3, s.userCr3} + (avail - free)
  {
    var m' := m[s.cr3 := dk][s.userCr3 := du];
    assert m'[s.cr3] == dk && m'[s.userCr3] == du;
    forall i, j | 0 <= i < GUEST_ENTRIES && 0 <= j < ENTRIES
      ensures Fresh(m', g, s.wp, s.guestPd, m'[s.cr3], m'[s.userCr3], i, j)
    {
      OldFresh(m, m', g, s.wp, s.guestPd, dk, du, dk, du, GUEST_ENTRIES, avail, free, i, j);
    }
  }

  class Vm {
    const guest: Guest
    const kernelPd: seq<Word>
    var mem: Mem
    var free: set<Word>

    ghost predicate Ready()
      reads this
    {
      Placed(guest) && Total(mem) && |kernelPd| == ENTRIES && Spare(guest, free)
    }

    /** `alloc_user_pages(1)`: any spare frame, BAD when there is none. */
    method AllocPage() returns (pa: Word)
      requires Ready()
      modifies this`free
      ensures Ready()
      ensures pa == BAD ==> old(free) == {} && free == {}
      ensures pa != BAD ==> pa in old(free) && free == old(free) - {pa} && |free| == |old(free)| - 1
    {
      if free == {} {
        return BAD;
      }
      pa :| pa in free;
      free := free - {pa};
    }

    /** `free_user_pages(pa, 1)` of a frame that is in use. */
    method FreePage(pa: Word)
      requires Ready() && pa !in free && Spare(guest, {pa})
      modifies this`free
      ensures Ready() && free == old(free) + {pa}
    {
      free := free + {pa};
    }

    /** `destroy_pd`: gives back a directory and its tables, each once. */
    method DestroyPd(pd: Word)
      requires Ready() && pd in mem && |mem[pd]| == ENTRIES && Injective(mem[pd])
      requires var frames := {pd} + Tables(mem[pd]); pd !in Tables(mem[pd]) && frames !! free && Spare(guest, frames)
      modifies this`free
      ensures Ready() && free == old(free) + {pd} + Tables(mem[pd])
    {
      var i := USER_PD_START;
      while i < ENTRIES
        invariant USER_PD_START <= i <= ENTRIES && Ready() && free == old(free) + TablesTo(mem[pd], i)
      {
        if mem[pd][i] != BAD {
          assert Base(mem[pd][i]) in Tables(mem[pd]);
          FreePage(Base(mem[pd][i]));
        }
        i := i + 1;
      }
      FreePage(pd);
    }

    /** The inner loop of `translate_pv_pd`. */
    method FillTables(pt: seq<Word>, pde: Word, wp: bool, t_pt: array<Word>, t_user_pt: array<Word>)
      requires Placed(guest) && |pt| == t_pt.Length == t_user_pt.Length == ENTRIES && t_pt != t_user_pt
      modifies t_pt, t_user_pt
      ensures Rows(guest, wp, pde, pt, t_pt[..], t_user_pt[..])
    {
      hide Entry, PteResv, Base, TableAt, Present, Writable, User, Aligned;
      var j := 0;
      while j < ENTRIES
        invariant 0 <= j <= ENTRIES
        invariant forall l ::
          0 <= l < j ==> t_pt[l] == KernelPte(guest, wp, pt[l]) && t_user_pt[l] == UserPte(guest, pde, pt[l])
      {
        var old_pte := pt[j];
        if !Present(old_pte) {
          t_pt[j] := BAD;
          t_user_pt[j] := BAD;
        } else {
          AlignedSum(guest.base, old_pte);
          ResvFits(old_pte);
          var pa := if Base(old_pte) > guest.limit then guest.overflow else guest.base + Base(old_pte);
          t_pt[j] := if !wp then Entry(pa, PteResv(old_pte), true, true)
            else Entry(pa, PteResv(old_pte), Writable(old_pte), true);
          t_user_pt[j] := if User(old_pte) && User(pde) then Entry(pa, PteResv(old_pte), Writable(old_pte), true)
            else BAD;
        }
        j := j + 1;
      }
    }

    /** Two fresh frames hold the tables for a present entry; nothing is taken unless there are two. */
    method AddTables(t_pt: seq<Word>, t_user_pt: seq<Word>) returns (a: Word, b: Word)
      requires Ready() && |t_pt| == |t_user_pt| == ENTRIES
      modifies this`mem, this`free
      ensures Ready()
      ensures a == BAD ==> |old(free)| < 2 && free == old(free) && mem == old(mem)
      ensures a != BAD ==>
        a in old(free) && b in old(free) && a != b && free == old(free) - {a, b} && |free| == |old(free)| - 2
      ensures a != BAD ==> mem == old(mem)[a := t_pt][b := t_user_pt]
    {
      a := AllocPage();
      if a == BAD { return BAD, BAD; }
      b := AllocPage();
      if b == BAD {
        FreePage(a);
        assert free == old(free);
        return BAD, BAD;
      }
      mem := mem[a := t_pt][b := t_user_pt];
    }

    /** Translates one present entry. */
    method AddEntry(gpd: Word, wp: bool, i: int, t_pd: array<Word>, t_user_pd: array<Word>, t_pt: array<Word>,
        t_user_pt: array<Word>, ghost avail: set<Word>)
      returns (ok: bool)
      requires Ready() && Aligned(gpd) && Inside(guest, gpd) && Spare(guest, avail) && 0 <= i < GUEST_ENTRIES
      requires t_pd.Length == t_user_pd.Length == t_pt.Length == t_user_pt.Length == ENTRIES
      requires t_pd != t_user_pd && t_pd != t_pt && t_pd != t_user_pt && t_user_pd != t_pt && t_user_pd != t_user_pt
      requires t_pt != t_user_pt
      requires Built(mem, guest, wp, gpd, t_pd[..], t_user_pd[..], i, avail, free)
      requires Present(mem[gpd][i]) && Base(mem[gpd][i]) < guest.limit
      modifies this`mem, this`free, t_pd, t_user_pd, t_pt, t_user_pt
      ensures Ready() && Same(old(mem), mem, avail) && mem[gpd] == old(mem)[gpd]
      ensures ok <==> |old(free)| >= 2
      ensures |free| == |old(free)| - if ok then 2 else 0
      ensures Built(mem, guest, wp, gpd, t_pd[..], t_user_pd[..], if ok then i + 1 else i, avail, free)
      ensures forall k :: 0 <= k < USER_PD_START ==> t_pd[k] == old(t_pd[k]) && t_user_pd[k] == old(t_user_pd[k])
    {
      hide Built, Rows, Entry, ShadowPde;
      var old_pde := mem[gpd][i];
      var t := TableAt(guest, old_pde);
      assert t in mem && |mem[t]| == ENTRIES;
      FillTables(mem[t], old_pde, wp, t_pt, t_user_pt);
      var new_pt, new_user_pt := AddTables(t_pt[..], t_user_pt[..]);
      if new_pt == BAD {
        return false;
      }
      BuiltAvail(old(mem), guest, wp, gpd, t_pd[..], t_user_pd[..], i, avail, old(free));
      BuiltMore(old(mem), guest, wp, gpd, t_pd[..], t_user_pd[..], i, avail, old(free),
        new_pt, new_user_pt, t_pt[..], t_user_pt[..]);
      t_pd[USER_PD_START + i] := ShadowPde(wp, old_pde, new_pt);
      t_user_pd[USER_PD_START + i] := ShadowPde(wp, old_pde, new_user_pt);
      ok := true;
    }

    /** One round of the outer loop of `translate_pv_pd`. */
    method Round(gpd: Word, wp: bool, i: int, t_pd: array<Word>, t_user_pd: array<Word>, t_pt: array<Word>,
        t_user_pt: array<Word>, ghost avail: set<Word>)
      returns (ok: bool)
      requires Ready() && Aligned(gpd) && Inside(guest, gpd) && Spare(guest, avail) && 0 <= i < GUEST_ENTRIES
      requires t_pd.Length == t_user_pd.Length == t_pt.Length == t_user_pt.Length == ENTRIES
      requires t_pd != t_user_pd && t_pd != t_pt && t_pd != t_user_pt && t_user_pd != t_pt && t_user_pd != t_user_pt
      requires t_pt != t_user_pt
      requires Built(mem, guest, wp, gpd, t_pd[..], t_user_pd[..], i, avail, free)
      modifies this`mem, this`free, t_pd, t_user_pd, t_pt, t_user_pt
      ensures Ready() && Same(old(mem), mem, avail) && mem[gpd] == old(mem)[gpd]
      ensures ok <==> Present(mem[gpd][i]) ==> Base(mem[gpd][i]) < guest.limit && |old(free)| >= 2
      ensures |free| == |old(free)| - if ok && Present(mem[gpd][i]) then 2 else 0
      ensures Built(mem, guest, wp, gpd, t_pd[..], t_user_pd[..], if ok then i + 1 else i, avail, free)
      ensures forall k :: 0 <= k < USER_PD_START ==> t_pd[k] == old(t_pd[k]) && t_user_pd[k] == old(t_user_pd[k])
    {
      hide Built, Base;
      var old_pde := mem[gpd][i];
      if !Present(old_pde) {
        BuiltSkip(mem, guest, wp, gpd, t_pd[..], t_user_pd[..], i, avail, free);
        return true;
      }
      if Base(old_pde) >= guest.limit {
        return false;
      }
      ok := AddEntry(gpd, wp, i, t_pd, t_user_pd, t_pt, t_user_pt, avail);
    }

    /** The outer loop of `translate_pv_pd`. It fails when a table lies outside the guest or frames run out. */
    method FillDirectories(pd: Word, wp: bool, t_pd: array<Word>, t_user_pd: array<Word>, ghost avail: set<Word>)
      returns (ok: bool, gpd: Word, ghost n: int)
      requires Ready() && Aligned(pd) && pd < guest.limit && free == avail
      requires t_pd.Length == t_user_pd.Length == ENTRIES && t_pd != t_user_pd
      requires forall k :: USER_PD_START <= k < ENTRIES ==> t_pd[k] == BAD && t_user_pd[k] == BAD
      modifies this`mem, this`free, t_pd, t_user_pd
      ensures Ready() && Same(old(mem), mem, avail)
      ensures Built(mem, guest, wp, gpd, t_pd[..], t_user_pd[..], n, avail, free) && (ok ==> n == GUEST_ENTRIES)
      ensures forall k :: 0 <= k < USER_PD_START ==> t_pd[k] == old(t_pd[k]) && t_user_pd[k] == old(t_user_pd[k])
      ensures ok <==> CanFill(old(mem), guest, pd, |avail|)
      ensures ok ==> |free| == |avail| - TablesNeeded(old(mem), guest, pd)
      ensures gpd == guest.base + pd
    {
      hide Built, TablesInside, Present, Base, Spare, Same;
      SameSelf(mem, avail);
      GuestDirectory(guest, pd);
      gpd := guest.base + pd;
      var t_pt, t_user_pt := new Word[ENTRIES], new Word[ENTRIES];
      BuiltNone(mem, guest, wp, gpd, t_pd[..], t_user_pd[..], avail);
      ghost var d := mem[gpd];
      InsideNone(guest, d);
      n := 0;
      var i := 0;
      while i < GUEST_ENTRIES
        invariant 0 <= i == n <= GUEST_ENTRIES && Ready() && Same(old(mem), mem, avail) && gpd in mem && mem[gpd] == d
        invariant Built(mem, guest, wp, gpd, t_pd[..], t_user_pd[..], i, avail, free)
        invariant |free| == |avail| - 2 * PresentCount(d, i)
        invariant TablesInside(guest, d, i)
        invariant forall k :: 0 <= k < USER_PD_START ==> t_pd[k] == old(t_pd[k]) && t_user_pd[k] == old(t_user_pd[k])
      {
        InsideMore(guest, d, i);
        CountMono(d, i + 1, GUEST_ENTRIES);
        ghost var m := mem;
        ok := Round(gpd, wp, i, t_pd, t_user_pd, t_pt, t_user_pt, avail);
        SameChain(old(mem), m, mem, avail);
        if !ok {
          return false, gpd, i;
        }
        i, n := i + 1, i + 1;
      }
      ok := true;
    }

    /** `translate_pv_pd` of the guest's directory at pd; temp_ok and node_ok tell whether the two kernel buffers were
        got. It succeeds exactly when nothing is missing, and then owns two directories and two tables for each present
        entry; when it fails every frame is back. */
    method Translate(pd: Word, wp: bool, temp_ok: bool, node_ok: bool) returns (r: Option<Shadow>)
      requires Ready() && Aligned(pd)
      modifies this`mem, this`free
      ensures Ready() && Same(old(mem), mem, old(free))
      ensures r.Some? <==> temp_ok && node_ok && |old(free)| >= 2 && CanFill(old(mem), guest, pd, |old(free)| - 2)
      ensures r.None? ==> free == old(free)
      ensures r.Some? ==> var s := r.value;
        && s.wp == wp && s.guestPd == guest.base + pd && Made(mem, s)
        && Owned(mem, s) <= old(free) && free == old(free) - Owned(mem, s)
        && |free| == |old(free)| - 2 - TablesNeeded(old(mem), guest, pd)
    {
      hide Same, CanFill, TablesNeeded, Made, Spare;
      if !temp_ok || !node_ok {
        SameSelf(mem, free);
        return None;
      }
      var t_pd, t_user_pd := new Word[ENTRIES](_ => BAD), new Word[ENTRIES](_ => BAD);
      var cr3, user_cr3 := TakeDirectories(t_pd[..]);
      if cr3 == BAD {
        SameSelf(mem, free);
        return None;
      }
      CopyKernel(t_pd, t_user_pd);
      ghost var m := mem;
      CanFillSame(old(mem), m, guest, pd, |free|, old(free));
      assert free + {cr3, user_cr3} == old(free);
      r := FillShadow(pd, wp, cr3, user_cr3, t_pd, t_user_pd);
      SameChain(old(mem), m, mem, old(free));
      if r.None? {
        assert free == old(free);
      } else {
        assert free == old(free) - Owned(mem, r.value);
      }
    }

    /** A sound shadow whose every page is fresh and which starts with the host kernel's entries. */
    ghost predicate Made(m: Mem, s: Shadow) {
      && Placed(guest) && |kernelPd| == ENTRIES && Sound(m, s) && AllFresh(m, guest, s)
      && KernelPart(m[s.cr3]) && KernelPart(m[s.userCr3])
    }

    ghost predicate KernelPart(d: seq<Word>) {
      |d| == |kernelPd| == ENTRIES && forall k :: 0 <= k < USER_PD_START ==> d[k] == kernelPd[k]
    }

    /** Fills the two directories and writes them to their frames. */
    method FillShadow(pd: Word, wp: bool, cr3: Word, user_cr3: Word, t_pd: array<Word>, t_user_pd: array<Word>)
      returns (r: Option<Shadow>)
      requires Ready() && Aligned(pd) && cr3 != user_cr3 && Spare(guest, {cr3, user_cr3} + free) && cr3 !in free
      requires user_cr3 !in free
      requires t_pd.Length == t_user_pd.Length == ENTRIES && t_pd != t_user_pd && KernelPart(t_pd[..])
      requires KernelPart(t_user_pd[..])
      requires forall k :: USER_PD_START <= k < ENTRIES ==> t_pd[k] == BAD && t_user_pd[k] == BAD
      modifies this`mem, this`free, t_pd, t_user_pd
      ensures Ready() && Same(old(mem), mem, old(free) + {cr3, user_cr3})
      ensures r.Some? <==> CanFill(old(mem), guest, pd, |old(free)|)
      ensures r.None? ==> free == old(free) + {cr3, user_cr3}
      ensures r.Some? ==>
        && r.value == Shadow(guest.base + pd, wp, cr3, user_cr3)
        && Made(mem, r.value) && Owned(mem, r.value) == {cr3, user_cr3} + (old(free) - free) && free <= old(free)
        && |free| == |old(free)| - TablesNeeded(old(mem), guest, pd)
    {
      hide Built, Made, Same, CanFill, TablesNeeded, Base;
      ghost var avail := free;
      if pd >= guest.limit {
        assert !CanFill(mem, guest, pd, |free|) by { FillLimit(mem, guest, pd, |free|); }
        BuiltNone(mem, guest, wp, BAD, t_pd[..], t_user_pd[..], avail);
        SameSelf(mem, avail);
        GiveUp(cr3, user_cr3, t_pd[..], t_user_pd[..], wp, BAD, 0, mem, avail);
        return None;
      }
      var ok, gpd, n := FillDirectories(pd, wp, t_pd, t_user_pd, avail);
      if !ok {
        GiveUp(cr3, user_cr3, t_pd[..], t_user_pd[..], wp, gpd, n, old(mem), avail);
        return None;
      }
      r := Some(Shadow(gpd, wp, cr3, user_cr3));
      Commit(r.value, t_pd[..], t_user_pd[..], old(mem), avail);
    }

    /** Writes the finished directories. */
    method Commit(s: Shadow, dk: seq<Word>, du: seq<Word>, ghost m: Mem, ghost avail: set<Word>)
      requires Ready() && Built(mem, guest, s.wp, s.guestPd, dk, du, GUEST_ENTRIES, avail, free)
      requires Inside(guest, s.guestPd)
      requires s.cr3 != s.userCr3 && s.cr3 !in avail && s.userCr3 !in avail && Spare(guest, {s.cr3, s.userCr3} + avail)
      requires KernelPart(dk) && KernelPart(du) && Same(m, mem, avail)
      modifies this`mem
      ensures Ready() && Made(mem, s) && Owned(mem, s) == {s.cr3, s.userCr3} + (avail - free) && free <= avail
      ensures Same(m, mem, avail + {s.cr3, s.userCr3})
    {
      hide Built, Sound, AllFresh, Base;
      ghost var m1 := mem;
      mem := mem[s.cr3 := dk][s.userCr3 := du];
      BuiltAvail(m1, guest, s.wp, s.guestPd, dk, du, GUEST_ENTRIES, avail, free);
      BuiltShadow(m1, guest, dk, du, s, avail, free);
    }

    /** The two directories, cleared. */
    method TakeDirectories(zeros: seq<Word>) returns (cr3: Word, user_cr3: Word)
      requires Ready() && |zeros| == ENTRIES
      modifies this`mem, this`free
      ensures Ready() && Same(old(mem), mem, old(free)) && Total(mem)
      ensures cr3 == BAD <==> |old(free)| < 2
      ensures cr3 == BAD ==> free == old(free) && mem == old(mem)
      ensures cr3 != BAD ==>
        && {cr3, user_cr3} <= old(free) && cr3 != user_cr3 && free == old(free) - {cr3, user_cr3}
        && |free| == |old(free)| - 2
      ensures cr3 != BAD ==> Spare(guest, {cr3, user_cr3} + free)
    {
      cr3, user_cr3 := AddTables(zeros, zeros);
    }

    /** Both directories start with the host kernel's entries. */
    method CopyKernel(t_pd: array<Word>, t_user_pd: array<Word>)
      requires |kernelPd| == ENTRIES == t_pd.Length == t_user_pd.Length && t_pd != t_user_pd
      modifies t_pd, t_user_pd
      ensures KernelPart(t_pd[..]) && KernelPart(t_user_pd[..])
      ensures forall k :: USER_PD_START <= k < ENTRIES ==> t_pd[k] == old(t_pd[k]) && t_user_pd[k] == old(t_user_pd[k])
    {
      for i := 0 to USER_PD_START
        invariant forall k :: 0 <= k < i ==> t_pd[k] == t_user_pd[k] == kernelPd[k]
        invariant forall k ::
          USER_PD_START <= k < ENTRIES ==> t_pd[k] == old(t_pd[k]) && t_user_pd[k] == old(t_user_pd[k])
      {
        t_pd[i] := kernelPd[i];
        t_user_pd[i] := kernelPd[i];
      }
    }

    /** The failure path: whatever was taken is given back. */
    method GiveUp(cr3: Word, user_cr3: Word, dk: seq<Word>, du: seq<Word>, ghost wp: bool, ghost gpd: Word,
        ghost n: int, ghost m: Mem, ghost avail: set<Word>)
      requires Ready() && Built(mem, guest, wp, gpd, dk, du, n, avail, free) && Same(m, mem, avail)
      requires cr3 != user_cr3 && cr3 !in avail && user_cr3 !in avail && Spare(guest, {cr3, user_cr3} + avail)
      modifies this`mem, this`free
      ensures Ready() && free == avail + {cr3, user_cr3} && Same(m, mem, avail + {cr3, user_cr3})
    {
      mem := mem[cr3 := dk][user_cr3 := du];
      DestroyPd(cr3);
      DestroyPd(user_cr3);
      assert free == avail + {cr3, user_cr3};
    }

    // ----- repairing one page -----

    ghost predicate Holds(s: Shadow)
      reads this
    {
      Ready() && Held(mem, guest, s, free)
    }

    /** Points entry k of the kernel-mode directory at its table, with new flags; a missing table is taken and
        cleared. */
    method PointEntry(s: Shadow, k: int, pde: Word) returns (table: Word)
      requires Holds(s) && USER_PD_START <= k < ENTRIES
      modifies this`mem, this`free
      ensures Holds(s) && Owned(mem, s) + free == old(Owned(mem, s) + free)
      ensures Same(old(mem), mem, old(Owned(mem, s) + free))
      ensures table == BAD <==> old(mem)[s.cr3][k] == BAD && old(free) == {}
      ensures table == BAD ==> mem == old(mem) && free == old(free)
      ensures table != BAD ==>
        Aligned(table) && table in Owned(mem, s) && PointedTo(old(mem), mem, s, k, pde, table)
      ensures table != BAD ==>
        if old(mem)[s.cr3][k] != BAD then free == old(free) else table in old(free) && free == old(free) - {table}
    {
      hide Spare, Base, ShadowPde, Held, Owned, PointedTo, Same, Settled, Inside, Tables;
      HeldEntry(mem, guest, s, free, k);
      if mem[s.cr3][k] != BAD {
        table := ReuseTable(s, k, pde);
      } else {
        table := AllocPage();
        if table == BAD {
          SameSelf(mem, old(Owned(mem, s) + free));
          return;
        }
        PointNew(mem, guest, s, old(free), k, pde, table);
        NewTable(s.cr3, k, ShadowPde(s.wp, pde, table), table);
      }
    }

    method ReuseTable(s: Shadow, k: int, pde: Word) returns (table: Word)
      requires Holds(s) && USER_PD_START <= k < ENTRIES && mem[s.cr3][k] != BAD
      modifies this`mem
      ensures Holds(s) && Owned(mem, s) == old(Owned(mem, s)) && Same(old(mem), mem, old(Owned(mem, s)) + free)
      ensures table != BAD && Aligned(table) && table in Owned(mem, s) && PointedTo(old(mem), mem, s, k, pde, table)
    {
      hide Spare, Base, ShadowPde, Held, Owned, PointedTo, Same, Settled, Inside, Tables;
      HeldEntry(mem, guest, s, free, k);
      PointReuse(mem, guest, s, free, k, pde);
      table := Base(mem[s.cr3][k]);
      mem := Stored(mem, s.cr3, k, ShadowPde(s.wp, pde, table));
    }

    /** A cleared frame becomes the table that entry k refers to. */
    method NewTable(pd: Word, k: int, entry: Word, table: Word)
      requires Total(mem) && Aligned(pd) && Aligned(table) && 0 <= k < ENTRIES
      modifies this`mem
      ensures mem == Stored(old(mem)[table := seq(ENTRIES, _ => BAD)], pd, k, entry)
    {
      mem := mem[table := seq(ENTRIES, _ => BAD)];
      mem := Stored(mem, pd, k, entry);
    }

    /** Removes entry k of the kernel-mode directory and gives its table back. */
    method DropEntry(s: Shadow, k: int)
      requires Holds(s) && USER_PD_START <= k < ENTRIES
      modifies this`mem, this`free
      ensures Holds(s) && Owned(mem, s) + free == old(Owned(mem, s) + free)
      ensures mem == Stored(old(mem), s.cr3, k, BAD) && Same(old(mem), mem, old(Owned(mem, s) + free))
    {
      hide Base, Held, Owned, Inside;
      HeldEntry(mem, guest, s, free, k);
      var entry := mem[s.cr3][k];
      if entry != BAD {
        HeldDrop(mem, guest, s, free, k);
        mem := Stored(mem, s.cr3, k, BAD);
        FreePage(Base(entry));
      } else {
        assert Put(mem[s.cr3], k, BAD) == mem[s.cr3];
      }
    }

    /** `hvcall_adjustpg` for page j of directory entry i: it fails for want of a frame or of the guest's table. */
    method Adjust(s: Shadow, i: int, j: int) returns (ok: bool)
      requires Holds(s) && 0 <= i < GUEST_ENTRIES && 0 <= j < ENTRIES
      modifies this`mem, this`free
      ensures Holds(s) && Owned(mem, s) + free == old(Owned(mem, s) + free)
      ensures Same(old(mem), mem, old(Owned(mem, s) + free))
      ensures var pde := old(mem)[s.guestPd][i];
        if ok then Present(pde) ==> Base(pde) < guest.limit
        else Present(pde) && (free == {} || Base(pde) >= guest.limit)
      ensures ok ==> (IsFresh(mem, guest, s, i, j) <==> !UsersKeptOut(old(mem), guest, s, i, j))
      ensures ok ==> forall i2, j2 | 0 <= i2 < GUEST_ENTRIES && 0 <= j2 < ENTRIES && (i2 != i || j2 != j) ::
        old(IsFresh(mem, guest, s, i2, j2)) ==> IsFresh(mem, guest, s, i2, j2)
    {
      hide Base, Present, User, Held, Owned, Inside, TableAt, KernelPte, AdjustedUserPte, PointedTo, PointedBoth,
          Adjusted, Fresh, Spare, Sound, Same;
      HeldEntry(mem, guest, s, free, USER_PD_START + i);
      var old_pde, k := mem[s.guestPd][i], USER_PD_START + i;
      if !Present(old_pde) {
        DropEntry(s, k);
        HeldFlip(mem, guest, s, free);
        ghost var m1 := mem;
        DropEntry(Flip(s), k);
        SameChain(old(mem), m1, mem, old(Owned(mem, s) + free));
        HeldFlip(mem, guest, Flip(s), free);
        HeldEntry(mem, guest, s, free, k);
        AllDropped(old(mem), mem, guest, s, i);
        return true;
      }
      var pt := PointEntry(s, k, old_pde);
      if pt == BAD { return false; }
      ghost var m1, f1 := mem, free;
      HeldFlip(mem, guest, s, free);
      var user_pt := PointEntry(Flip(s), k, old_pde);
      HeldFlip(mem, guest, Flip(s), free);
      SameChain(old(mem), m1, mem, old(Owned(mem, s) + free));
      if user_pt == BAD { return false; }
      if Base(old_pde) >= guest.limit { return false; }
      ghost var m2 := mem;
      PointedByBoth(old(mem), m1, m2, guest, s, k, old_pde, pt, user_pt, old(free), f1);
      var old_pte := mem[TableAt(guest, old_pde)][j];
      ghost var all := old(Owned(mem, s) + free);
      SameStored(old(mem), mem, all, pt, j, KernelPte(guest, s.wp, old_pte));
      mem := Stored(mem, pt, j, KernelPte(guest, s.wp, old_pte));
      SameStored(old(mem), mem, all, user_pt, j, AdjustedUserPte(guest, old_pte));
      mem := Stored(mem, user_pt, j, AdjustedUserPte(guest, old_pte));
      AdjustedBy(old(mem), m2, mem, guest, s, i, j, pt, user_pt);
      HeldEntries(m2, mem, guest, s, free);
      HeldEntry(mem, guest, s, free, k);
      AdjustedFresh(old(mem), mem, guest, s, i, j, pt, user_pt);
      OthersFresh(old(mem), mem, guest, s, i, j, pt, user_pt);
      return true;
    }
  }
}
