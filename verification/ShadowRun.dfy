/** A guest's whole run: its shadow directories with their reference counts, and which of its pages may be stale. */
module ShadowRun {
  import opened PageEntries
  import opened ShadowPages
  import opened ShadowAdjust
  import opened ShadowBoot
  import opened ShadowVm
  import opened Wrappers

  /** What a directory keeps: a shadow, or the boot directory, which serves both modes. */
  ghost predicate Kept(m: Mem, g: Guest, s: Shadow) {
    && Placed(g) && Total(m) && Aligned(s.cr3) && Aligned(s.userCr3) && Spare(g, Owned(m, s))
    && if s.cr3 == s.userCr3 then Injective(m[s.cr3]) && s.cr3 !in Tables(m[s.cr3])
         else Sound(m, s) && Inside(g, s.guestPd)
  }

  /** A directory's frames, for any memory. */
  ghost function Frames(m: Mem, s: Shadow): set<Word> {
    if Total(m) && Aligned(s.cr3) && Aligned(s.userCr3) then Owned(m, s) else {}
  }

  type Holdings = map<Shadow, set<Word>>

  ghost function All(own: Holdings): set<Word> {
    set s, f | s in own && f in own[s] :: f
  }

  /** Each frame of the pool is spare or held by exactly one directory. */
  ghost predicate Parted(own: Holdings, free: set<Word>, pool: set<Word>) {
    && pool == free + All(own)
    && (forall s :: s in own ==> own[s] !! free)
    && (forall s, t :: s in own && t in own && s != t ==> own[s] !! own[t])
  }

  ghost predicate Owning(m: Mem, g: Guest, free: set<Word>, pool: set<Word>, own: Holdings) {
    && Placed(g) && Total(m) && Spare(g, pool) && Parted(own, free, pool)
    && (forall s {:trigger Kept(m, g, s)} :: s in own ==> Kept(m, g, s) && Frames(m, s) == own[s])
  }

  lemma PartedMore(own: Holdings, free: set<Word>, pool: set<Word>, s: Shadow, frames: set<Word>)
    requires Parted(own, free, pool) && frames <= free && s !in own
    ensures Parted(own[s := frames], free - frames, pool)
  {
    assert All(own[s := frames]) == All(own) + frames by {
      forall f | f in frames ensures f in All(own[s := frames]) { assert f in own[s := frames][s]; }
      forall f | f in All(own) ensures f in All(own[s := frames]) {
        var t :| t in own && f in own[t];
        assert f in own[s := frames][t];
      }
    }
  }

  lemma PartedLess(own: Holdings, free: set<Word>, pool: set<Word>, s: Shadow)
    requires Parted(own, free, pool) && s in own
    ensures Parted(own - {s}, free + own[s], pool)
  {
    assert All(own) == All(own - {s}) + own[s] by {
      forall f | f in All(own) ensures f in All(own - {s}) + own[s] {
        var t :| t in own && f in own[t];
        if t != s { assert f in (own - {s})[t]; }
      }
    }
  }

  lemma PartedChange(own: Holdings, free: set<Word>, free': set<Word>, pool: set<Word>, s: Shadow, frames: set<Word>)
    requires Parted(own, free, pool) && s in own && own[s] + free == frames + free' && frames !! free'
    ensures Parted(own[s := frames], free', pool)
  {
    PartedLess(own, free, pool, s);
    PartedMore(own - {s}, free + own[s], pool, s, frames);
    assert (own - {s})[s := frames] == own[s := frames];
    assert free + own[s] - frames == free';
  }

  type Page = (Shadow, int, int)

  /** Every page that is not marked dirty is fresh. */
  ghost predicate CleanFresh(m: Mem, g: Guest, shadows: set<Shadow>, dirty: set<Page>) {
    forall s, i, j :: s in shadows && IsPage(s, i, j) && (s, i, j) !in dirty ==> GoodPage(m, g, s, i, j)
  }

  ghost predicate GoodPage(m: Mem, g: Guest, s: Shadow, i: int, j: int) {
    IsPage(s, i, j) && Kept(m, g, s) && IsFresh(m, g, s, i, j)
  }

  ghost predicate IsPage(s: Shadow, i: int, j: int) {
    s.cr3 != s.userCr3 && 0 <= i < GUEST_ENTRIES && 0 <= j < ENTRIES
  }

  /** Frames that a shadow does not use and the guest does not own do not matter to it. */
  lemma KeptSame(m: Mem, m': Mem, g: Guest, s: Shadow, changed: set<Word>)
    requires Kept(m, g, s) && Total(m') && Same(m, m', changed) && changed !! Frames(m, s)
    ensures Kept(m', g, s) && Frames(m', s) == Frames(m, s)
  {
    assert m'[s.cr3] == m[s.cr3] && m'[s.userCr3] == m[s.userCr3];
  }

  lemma FreshSame(m: Mem, m': Mem, g: Guest, s: Shadow, changed: set<Word>, i: int, j: int)
    requires GoodPage(m, g, s, i, j) && Total(m') && Same(m, m', changed) && changed !! Frames(m, s)
    requires Spare(g, changed)
    ensures GoodPage(m', g, s, i, j)
  {
    KeptSame(m, m', g, s, changed);
    var dk, du, c, pde := m[s.cr3], m[s.userCr3], USER_PD_START + i, m[s.guestPd][i];
    assert m'[s.guestPd] == m[s.guestPd];
    if Present(pde) {
      PointsAt(dk[c], s.wp, pde);
      PointsAt(du[c], s.wp, pde);
      assert Base(dk[c]) in Tables(dk) && Base(du[c]) in Tables(du);
      var t := TableAt(g, pde);
      assert m'[t] == m[t];
    }
    FreshFrame(m, m', g, s.wp, s.guestPd, dk, du, m'[s.cr3], m'[s.userCr3], i, j);
  }

  // ----- the guest's writes -----

  /** Whether walking page j of directory entry i reads word k of frame f. */
  ghost predicate Reads(m: Mem, g: Guest, s: Shadow, i: int, j: int, f: Word, k: int)
    requires Placed(g) && Total(m) && Aligned(s.guestPd) && 0 <= i < GUEST_ENTRIES
  {
    var pde := m[s.guestPd][i];
    (f == s.guestPd && k == i) || (Base(pde) < g.limit && f == TableAt(g, pde) && k == j)
  }

  /** A write elsewhere leaves the page as it is. */
  lemma WriteElsewhere(m: Mem, g: Guest, s: Shadow, i: int, j: int, f: Word, k: int, e: Word)
    requires GoodPage(m, g, s, i, j) && Aligned(f) && Inside(g, f) && 0 <= k < ENTRIES && !Reads(m, g, s, i, j, f, k)
    ensures GoodPage(Stored(m, f, k, e), g, s, i, j)
  {
    var m' := Stored(m, f, k, e);
    KeptSame(m, m', g, s, {f});
    var dk, du, c, pde := m[s.cr3], m[s.userCr3], USER_PD_START + i, m[s.guestPd][i];
    assert m'[s.guestPd][i] == pde;
    if Present(pde) {
      PointsAt(dk[c], s.wp, pde);
      PointsAt(du[c], s.wp, pde);
      assert Base(dk[c]) in Tables(dk) && Base(du[c]) in Tables(du);
    }
    FreshFrame(m, m', g, s.wp, s.guestPd, dk, du, m'[s.cr3], m'[s.userCr3], i, j);
  }

  ghost predicate Stale(m: Mem, g: Guest, shadows: set<Shadow>, s: Shadow, i: int, j: int, f: Word, k: int)
    requires Placed(g) && Total(m)
  {
    s in shadows && IsPage(s, i, j) && Aligned(s.guestPd) && Reads(m, g, s, i, j, f, k)
  }

  ghost function AllStale(m: Mem, g: Guest, shadows: set<Shadow>, f: Word, k: int): set<Page>
    requires Placed(g) && Total(m)
  {
    set s, i, j |
      s in shadows && 0 <= i < GUEST_ENTRIES && 0 <= j < ENTRIES && Stale(m, g, shadows, s, i, j, f, k) :: (s, i, j)
  }

  ghost predicate KeptOut(m: Mem, g: Guest, s: Shadow, i: int, j: int) {
    Placed(g) && Total(m) && Aligned(s.guestPd) && IsPage(s, i, j) && UsersKeptOut(m, g, s, i, j)
  }

  lemma KeptParts(m: Mem, g: Guest, s: Shadow, i: int, j: int)
    requires GoodPage(m, g, s, i, j)
    ensures Placed(g) && Total(m) && Aligned(s.guestPd) && Sound(m, s)
  {
  }

  /** A shadow that is kept apart from the spare frames can be adjusted. */
  lemma HeldActive(m: Mem, g: Guest, free: set<Word>, pool: set<Word>, own: Holdings, s: Shadow)
    requires Owning(m, g, free, pool, own) && s in own && s.cr3 != s.userCr3
    ensures Held(m, g, s, free) && Kept(m, g, s) && Frames(m, s) == own[s] && Owned(m, s) == own[s]
  {
    assert free <= pool && Kept(m, g, s);
  }

  lemma KeptHeld(m: Mem, g: Guest, free: set<Word>, s: Shadow)
    requires Held(m, g, s, free)
    ensures Kept(m, g, s) && Frames(m, s) !! free && Frames(m, s) == Owned(m, s)
  {
  }

  // ----- what each step keeps -----

  lemma OwningMore(m: Mem, m': Mem, g: Guest, free: set<Word>, pool: set<Word>, own: Holdings, s: Shadow)
    requires Owning(m, g, free, pool, own) && Total(m') && Same(m, m', free) && Kept(m', g, s) && Frames(m', s) <= free
    ensures s !in own && Owning(m', g, free - Frames(m', s), pool, own[s := Frames(m', s)])
  {
    hide Kept, Owned, Spare, Same;
    assert s !in own by { HasRoot(m, g, s); HasRoot(m', g, s); }
    PartedMore(own, free, pool, s, Frames(m', s));
    forall t | t in own ensures Kept(m', g, t) && Frames(m', t) == own[t] {
      KeptSame(m, m', g, t, free);
    }
  }

  lemma HasRoot(m: Mem, g: Guest, s: Shadow)
    ensures Kept(m, g, s) ==> s.cr3 in Frames(m, s)
  {
  }

  lemma OwningChange(m: Mem, m': Mem, g: Guest, free: set<Word>, free': set<Word>, pool: set<Word>, own: Holdings,
      s: Shadow)
    requires Owning(m, g, free, pool, own) && s in own && Total(m') && Same(m, m', own[s] + free)
    requires Kept(m', g, s) && Frames(m', s) + free' == own[s] + free && Frames(m', s) !! free'
    ensures Owning(m', g, free', pool, own[s := Frames(m', s)])
  {
    hide Kept, Frames, Spare, Same;
    PartedChange(own, free, free', pool, s, Frames(m', s));
    forall t | t in own && t != s ensures Kept(m', g, t) && Frames(m', t) == own[t] {
      KeptSame(m, m', g, t, own[s] + free);
    }
  }

  lemma OwningWrite(m: Mem, m': Mem, g: Guest, free: set<Word>, pool: set<Word>, own: Holdings, f: Word)
    requires Owning(m, g, free, pool, own) && Total(m') && Same(m, m', {f}) && Inside(g, f)
    ensures Owning(m', g, free, pool, own)
  {
    forall t | t in own ensures Kept(m', g, t) && Frames(m', t) == own[t] {
      assert {f} !! own[t];
      KeptSame(m, m', g, t, {f});
    }
  }

  /** What happens to one directory and to spare frames leaves the others' pages fresh. */
  lemma CleanSame(m: Mem, m': Mem, g: Guest, own: Holdings, shadows: set<Shadow>, dirty: set<Page>, changed: set<Word>)
    requires CleanFresh(m, g, shadows, dirty) && Total(m') && Same(m, m', changed) && Spare(g, changed)
    requires forall t :: t in shadows ==> Kept(m, g, t) && changed !! Frames(m, t)
    ensures CleanFresh(m', g, shadows, dirty)
  {
    hide Kept, Frames, Spare, Same, GoodPage;
    forall t, i, j | t in shadows && IsPage(t, i, j) && (t, i, j) !in dirty
      ensures GoodPage(m', g, t, i, j)
    {
      FreshSame(m, m', g, t, changed, i, j);
    }
  }

  /** After an adjustment only the adjusted page's freshness is decided anew. */
  lemma CleanAdjusted(m: Mem, m': Mem, g: Guest, free: set<Word>, pool: set<Word>, own: Holdings, dirty: set<Page>,
      s: Shadow, i: int, j: int)
    requires Owning(m, g, free, pool, own) && CleanFresh(m, g, own.Keys, dirty) && s in own && IsPage(s, i, j)
    requires Total(m') && Same(m, m', own[s] + free) && Kept(m', g, s) && Kept(m, g, s)
    requires KeptOut(m, g, s, i, j) || IsFresh(m', g, s, i, j)
    requires forall i2, j2 | 0 <= i2 < GUEST_ENTRIES && 0 <= j2 < ENTRIES && (i2 != i || j2 != j) ::
      IsFresh(m, g, s, i2, j2) ==> IsFresh(m', g, s, i2, j2)
    ensures CleanFresh(m', g, own.Keys, if KeptOut(m, g, s, i, j) then dirty + {(s, i, j)} else dirty - {(s, i, j)})
  {
    hide Spare, Kept;
    hide KeptOut, Same, Frames, Fresh;
    assert CleanFresh(m', g, own.Keys - {s}, dirty) by {
      assert CleanFresh(m, g, own.Keys - {s}, dirty);
      forall t | t in own.Keys - {s} ensures Kept(m, g, t) && own[s] + free !! Frames(m, t) { assert Kept(m, g, t); }
      assert Spare(g, own[s] + free) by { SpareParts(m, g, free, pool, own, s); }
      CleanSame(m, m', g, own, own.Keys - {s}, dirty, own[s] + free);
    }
  }

  lemma SpareParts(m: Mem, g: Guest, free: set<Word>, pool: set<Word>, own: Holdings, s: Shadow)
    requires Owning(m, g, free, pool, own) && s in own
    ensures Spare(g, own[s] + free)
  {
  }

  /** Changes to spare frames alone. */
  lemma OwningSame(m: Mem, m': Mem, g: Guest, free: set<Word>, pool: set<Word>, own: Holdings)
    requires Owning(m, g, free, pool, own) && Total(m') && Same(m, m', free)
    ensures Owning(m', g, free, pool, own)
  {
    forall t | t in own ensures Kept(m', g, t) && Frames(m', t) == own[t] {
      KeptSame(m, m', g, t, free);
    }
  }

  lemma SpareFree(g: Guest, free: set<Word>, pool: set<Word>, own: Holdings)
    requires Spare(g, pool) && Parted(own, free, pool)
    ensures Spare(g, free)
  {
  }

  lemma CleanKept(m: Mem, m': Mem, g: Guest, free: set<Word>, pool: set<Word>, own: Holdings, dirty: set<Page>)
    requires Owning(m, g, free, pool, own) && CleanFresh(m, g, own.Keys, dirty) && Total(m') && Same(m, m', free)
    ensures CleanFresh(m', g, own.Keys, dirty)
  {
    hide Frames, Spare, CleanFresh, Same, Total;
    SpareFree(g, free, pool, own);
    forall t | t in own.Keys ensures Kept(m, g, t) && free !! Frames(m, t) {
      assert Kept(m, g, t) && Frames(m, t) == own[t];
    }
    CleanSame(m, m', g, own, own.Keys, dirty, free);
  }

  lemma OwningNone(m: Mem, g: Guest, free: set<Word>, pool: set<Word>, own: Holdings)
    requires Owning(m, g, free, pool, own) && own.Keys == {}
    ensures free == pool
  {
    assert All(own) == {};
  }

  lemma CleanFewer(m: Mem, g: Guest, shadows: set<Shadow>, dirty: set<Page>, s: Shadow)
    requires CleanFresh(m, g, shadows, dirty)
    ensures CleanFresh(m, g, shadows - {s}, dirty)
  {
  }

  lemma CleanMore(m: Mem, g: Guest, shadows: set<Shadow>, dirty: set<Page>, s: Shadow, dirty': set<Page>)
    requires CleanFresh(m, g, shadows, dirty) && s !in shadows
    requires forall i, j :: IsPage(s, i, j) ==> GoodPage(m, g, s, i, j)
    requires forall p :: p in dirty && p.0 != s ==> p in dirty'
    ensures CleanFresh(m, g, shadows + {s}, dirty')
  {
  }

  /** A translated directory is kept, and all its pages are fresh. */
  lemma MadeKept(vm: Vm, m: Mem, free: set<Word>, s: Shadow)
    requires vm.Made(vm.mem, s) && Spare(vm.guest, free) && Owned(vm.mem, s) <= free && Inside(vm.guest, s.guestPd)
    ensures Kept(vm.mem, vm.guest, s) && Frames(vm.mem, s) == Owned(vm.mem, s)
    ensures forall i, j :: IsPage(s, i, j) ==> GoodPage(vm.mem, vm.guest, s, i, j)
  {
  }

  lemma OwningLess(m: Mem, g: Guest, free: set<Word>, pool: set<Word>, own: Holdings, s: Shadow)
    requires Owning(m, g, free, pool, own) && s in own
    ensures Owning(m, g, free + own[s], pool, own - {s}) && Kept(m, g, s) && Frames(m, s) == own[s] && own[s] !! free
  {
    hide Kept, Frames, Spare;
    PartedLess(own, free, pool, s);
  }

  /** Every listed directory has a reference. */
  ghost predicate Counted(refcount: map<Shadow, int>, shadows: set<Shadow>) {
    refcount.Keys == shadows && forall s :: s in refcount ==> refcount[s] >= 1
  }

  lemma CountedMore(refcount: map<Shadow, int>, shadows: set<Shadow>, s: Shadow)
    requires Counted(refcount, shadows) && s !in shadows
    ensures Counted(refcount[s := 0][s := 1], shadows + {s}) && refcount[s := 0].Keys == shadows + {s}
  {
  }

  /** The counts after a switch from one directory to another; a directory without references is forgotten. */
  function Switched(refcount: map<Shadow, int>, before: Shadow, s: Shadow): map<Shadow, int>
    requires before in refcount && s in refcount
  {
    var r := refcount[s := refcount[s] + 1];
    var q := r[before := r[before] - 1];
    if q[before] == 0 then q - {before} else q
  }

  /** Every directory has a reference, once the target s has one more; the active one has its own already. */
  ghost predicate Countable(refcount: map<Shadow, int>, shadows: set<Shadow>, active: Shadow, s: Shadow) {
    && s in refcount && active in refcount && refcount[s] >= (if s == active then 1 else 0)
    && refcount.Keys == shadows && Counted(refcount[s := refcount[s] + 1], shadows)
  }

  lemma SwitchedCounted(refcount: map<Shadow, int>, shadows: set<Shadow>, before: Shadow, s: Shadow)
    requires Countable(refcount, shadows, before, s)
    ensures var r, gone := Switched(refcount, before, s), before != s && refcount[before] == 1;
      && Counted(r, if gone then shadows - {before} else shadows)
      && s in r && r[s] == refcount[s] + (if before == s then 0 else 1)
      && (forall t :: t in r && t != s && t != before ==> r[t] == refcount[t])
      && (before in r && before != s ==> r[before] == refcount[before] - 1)
  {
    assert forall t :: t in refcount && t != s ==> refcount[t] == refcount[s := refcount[s] + 1][t];
  }

  /** `pv_t`, as far as its directories go; their reference counts are kept beside them. */
  class Pv {
    const vm: Vm
    var shadows: set<Shadow>
    var refcount: map<Shadow, int>
    var active: Shadow
    /** The pages whose guest entries were written since they were last translated or adjusted. */
    ghost var dirty: set<Page>
    /** The frames of each directory, and all frames the host can hand out to this guest. */
    ghost var own: Holdings
    ghost const pool: set<Word>

    ghost predicate Owns()
      reads this, vm
    {
      vm.Ready() && own.Keys == shadows && Owning(vm.mem, vm.guest, vm.free, pool, own)
    }

    ghost predicate Valid()
      reads this, vm
    {
      && Owns() && active in shadows && Counted(refcount, shadows)
      && CleanFresh(vm.mem, vm.guest, shadows, dirty)
    }

    /** A guest starts with the boot directory, which serves both modes and is referred to once. */
    constructor (vm: Vm, boot: Shadow)
      requires vm.Ready() && Kept(vm.mem, vm.guest, boot) && boot.cr3 == boot.userCr3 && Frames(vm.mem, boot) !! vm.free
      ensures Valid() && this.vm == vm && active == boot && shadows == {boot} && refcount == map[boot := 1]
      ensures pool == vm.free + Frames(vm.mem, boot)
    {
      this.vm := vm;
      shadows, refcount, active, dirty := {boot}, map[boot := 1], boot, {};
      own, pool := map[boot := Frames(vm.mem, boot)], vm.free + Frames(vm.mem, boot);
      new;
      assert All(own) == Frames(vm.mem, boot) by {
        forall f | f in own[boot] ensures f in All(own) { assert boot in own; }
      }
    }

    /** The guest writes word k of a frame of its own; the pages whose walk reads it may become stale. */
    method GuestWrite(f: Word, k: int, e: Word)
      requires Valid() && Aligned(f) && Inside(vm.guest, f) && 0 <= k < ENTRIES
      modifies vm`mem, this`dirty
      ensures Valid() && vm.mem == Stored(old(vm.mem), f, k, e)
      ensures forall s, i, j ::
        (s, i, j) in dirty <==> (s, i, j) in old(dirty) || Stale(old(vm.mem), vm.guest, shadows, s, i, j, f, k)
    {
      hide Owning, Kept, GoodPage;
      ghost var m, g := vm.mem, vm.guest;
      assert f in m && |m[f]| == ENTRIES;
      dirty := dirty + AllStale(m, g, shadows, f, k);
      vm.mem := Stored(vm.mem, f, k, e);
      OwningWrite(m, vm.mem, g, vm.free, pool, own, f);
      forall s, i, j | s in shadows && IsPage(s, i, j) && (s, i, j) !in dirty ensures GoodPage(vm.mem, g, s, i, j) {
        KeptParts(m, g, s, i, j);
        assert !Stale(m, g, shadows, s, i, j, f, k);
        WriteElsewhere(m, g, s, i, j, f, k, e);
      }
    }

    /** `hvcall_adjustpg` on the active directory, which the guest has set before. */
    method AdjustPage(i: int, j: int) returns (ok: bool)
      requires Valid() && IsPage(active, i, j)
      modifies vm`mem, vm`free, this`dirty, this`own
      ensures Owns() && (ok ==> Valid())
      ensures dirty == if KeptOut(old(vm.mem), vm.guest, active, i, j) then old(dirty) + {(active, i, j)}
        else old(dirty) - {(active, i, j)}
    {
      hide Owning, Kept, GoodPage, Fresh, CleanFresh, UsersKeptOut, Tables, Disjoint, Spare, Same, Inside;
      ghost var m, free := vm.mem, vm.free;
      var s := active;
      HeldActive(m, vm.guest, free, pool, own, s);
      ok := vm.Adjust(s, i, j);
      dirty := if KeptOut(m, vm.guest, s, i, j) then dirty + {(s, i, j)} else dirty - {(s, i, j)};
      KeptHeld(vm.mem, vm.guest, vm.free, s);
      OwningChange(m, vm.mem, vm.guest, free, vm.free, pool, own, s);
      if ok {
        CleanAdjusted(m, vm.mem, vm.guest, free, pool, own, old(dirty), s, i, j);
      }
      own := own[s := Frames(vm.mem, s)];
    }

    /** Gives back a directory's frames. */
    method Destroy(s: Shadow)
      requires vm.Ready() && Kept(vm.mem, vm.guest, s) && Frames(vm.mem, s) !! vm.free
      modifies vm`free
      ensures vm.Ready() && vm.free == old(vm.free) + Frames(vm.mem, s)
    {
      vm.DestroyPd(s.cr3);
      if s.userCr3 != s.cr3 {
        vm.DestroyPd(s.userCr3);
      }
      assert vm.free == old(vm.free) + Frames(vm.mem, s);
    }

    /** Takes a directory off the list and gives back its frames. */
    method Drop(s: Shadow)
      requires Owns() && s in shadows
      modifies this`shadows, this`own, vm`free
      ensures Owns() && shadows == old(shadows) - {s} && own == old(own) - {s} && vm.free == old(vm.free + own[s])
    {
      hide Kept, Owning, Frames, Total, Spare;
      OwningLess(vm.mem, vm.guest, vm.free, pool, own, s);
      Destroy(s);
      shadows := shadows - {s};
      own := own - {s};
    }

    /** All but the count of a directory that is about to become active and may have no reference yet. */
    ghost predicate Switching(s: Shadow)
      reads this, vm
    {
      && Owns() && active in shadows && s in shadows && Countable(refcount, shadows, active, s)
      && CleanFresh(vm.mem, vm.guest, shadows, dirty)
    }

    /** `pv_select_pd`: the directory before goes, with its frames, when nobody refers to it any more. Switching to the
        active directory itself changes nothing. */
    method Select(s: Shadow)
      requires Switching(s)
      modifies this`shadows, this`refcount, this`active, this`own, vm`free
      ensures Valid() && active == s
      ensures if old(active) != s && old(refcount[active]) == 1
        then shadows == old(shadows - {active}) && vm.free == old(vm.free + own[active])
        else shadows == old(shadows) && vm.free == old(vm.free)
      ensures own == if old(active) != s && old(refcount[active]) == 1 then old(own - {active}) else old(own)
      ensures refcount == Switched(old(refcount), old(active), s)
    {
      hide Owning, Kept, Frames, CleanFresh, Total, Spare, Counted, Placed, Inside;
      CleanFewer(vm.mem, vm.guest, shadows, dirty, active);
      SwitchedCounted(refcount, shadows, active, s);
      var before := active;
      active := s;
      refcount := refcount[s := refcount[s] + 1];
      refcount := refcount[before := refcount[before] - 1];
      if refcount[before] == 0 {
        refcount := refcount - {before};
        Drop(before);
      }
    }

    /** Translates a directory of the guest and lists it, without references yet. */
    method AddShadow(pd: Word, wp: bool, temp_ok: bool, node_ok: bool) returns (r: Option<Shadow>)
      requires Valid() && Aligned(pd)
      modifies vm`mem, vm`free, this`shadows, this`refcount, this`own, this`dirty
      ensures r.Some? <==>
        temp_ok && node_ok && |old(vm.free)| >= 2 && CanFill(old(vm.mem), vm.guest, pd, |old(vm.free)| - 2)
      ensures r.None? ==> Valid() && vm.free == old(vm.free) && shadows == old(shadows) && refcount == old(refcount)
      ensures r.Some? ==>
        && Switching(r.value) && r.value !in old(shadows) && r.value.guestPd == vm.guest.base + pd && r.value.wp == wp
        && shadows == old(shadows) + {r.value} && refcount == old(refcount)[r.value := 0]
        && forall i, j :: (r.value, i, j) !in dirty
    {
      hide Owning, Kept, Frames, CleanFresh, GoodPage, CanFill, Spare, Same, Counted, Vm.Made, Total, Inside, Owned,
          Sound;
      ghost var m, free := vm.mem, vm.free;
      r := vm.Translate(pd, wp, temp_ok, node_ok);
      if r.None? {
        OwningSame(m, vm.mem, vm.guest, free, pool, own);
        CleanKept(m, vm.mem, vm.guest, free, pool, own, dirty);
        return;
      }
      var s := r.value;
      FillLimit(m, vm.guest, pd, |free| - 2);
      MadeKept(vm, m, free, s);
      OwningMore(m, vm.mem, vm.guest, free, pool, own, s);
      CleanKept(m, vm.mem, vm.guest, free, pool, own, dirty);
      CountedMore(refcount, shadows, s);
      ghost var cleaner := dirty - set p | p in dirty && p.0 == s;
      CleanMore(vm.mem, vm.guest, shadows, dirty, s, cleaner);
      shadows := shadows + {s};
      refcount := refcount[s := 0];
      own := own[s := Frames(vm.mem, s)];
      dirty := cleaner;
    }

    /** `hvcall_setpd` with an aligned directory: translates it and makes it the active one. */
    method SetPd(pd: Word, wp: bool, temp_ok: bool, node_ok: bool) returns (ok: bool)
      requires Valid() && Aligned(pd)
      modifies vm`mem, vm`free, this`shadows, this`refcount, this`active, this`own, this`dirty
      ensures Valid() && (!ok ==> vm.free == old(vm.free) && shadows == old(shadows))
      ensures !ok ==> active == old(active) && refcount == old(refcount)
      ensures ok <==>
        temp_ok && node_ok && |old(vm.free)| >= 2 && CanFill(old(vm.mem), vm.guest, pd, |old(vm.free)| - 2)
      ensures ok ==>
        active !in old(shadows) && active.guestPd == vm.guest.base + pd && active.wp == wp && refcount[active] == 1
      ensures ok ==> refcount == Switched(old(refcount)[active := 0], old(active), active)
      ensures ok ==> forall i, j :: (active, i, j) !in dirty
    {
      hide Owning, CleanFresh, CanFill, Spare, Total, Counted, Switched;
      var r := AddShadow(pd, wp, temp_ok, node_ok);
      if r.None? {
        return false;
      }
      SwitchedCounted(refcount, shadows, active, r.value);
      Select(r.value);
      return true;
    }

    /** `hvcall_refpd(1)` */
    method RefPd()
      requires Valid()
      modifies this`refcount
      ensures Valid() && refcount == old(refcount)[active := old(refcount)[active] + 1]
    {
      hide Owning, CleanFresh, Total, Spare;
      refcount := refcount[active := refcount[active] + 1];
    }

    /** `hvcall_refpd(0)`: a guest that drops the last reference to its active directory is killed. */
    method UnrefPd() returns (ok: bool)
      requires Valid()
      modifies this`refcount
      ensures Owns() && (ok ==> Valid()) && (ok <==> old(refcount)[active] > 1)
      ensures refcount == old(refcount)[active := old(refcount)[active] - 1]
    {
      hide Owning, CleanFresh, Total, Spare;
      refcount := refcount[active := refcount[active] - 1];
      return refcount[active] > 0;
    }

    /** `destroy_pv`: every frame of the pool is spare again. */
    method DestroyPv()
      requires Owns()
      modifies this`shadows, this`own, vm`free
      ensures vm.Ready() && vm.free == pool && shadows == {}
    {
      hide Kept, Owning, Frames, Total, Spare;
      while shadows != {}
        invariant Owns()
        decreases |shadows|
      {
        var s :| s in shadows;
        Drop(s);
      }
      OwningNone(vm.mem, vm.guest, vm.free, pool, own);
    }
  }

  lemma TreeKept(m: Mem, g: Guest, boot: Shadow, avail: set<Word>)
    requires Placed(g) && Total(m) && Aligned(boot.cr3) && boot.userCr3 == boot.cr3 && Tree(m, boot.cr3)
    requires Spare(g, {boot.cr3}) && Spare(g, avail) && Tables(m[boot.cr3]) <= avail
    ensures Kept(m, g, boot) && Frames(m, boot) == {boot.cr3} + Tables(m[boot.cr3])
  {
    SpareTree(g, boot.cr3, Tables(m[boot.cr3]), avail);
    assert Owned(m, boot) == {boot.cr3} + Tables(m[boot.cr3]);
  }

  /** The page-table part of `create_pv_process`, with a cleared directory at cr3; node_ok tells whether the list node
      was got, whose first words are what they happen to be. A guest that could not be started gives every frame back,
      but for its directory when there was no node: `destroy_pv` gives back listed directories only. */
  method CreatePv(vm: Vm, cr3: Word, n: int, node_ok: bool, guest_pd: Word, wp: bool) returns (r: Option<Pv>)
    requires vm.Ready() && Aligned(cr3) && cr3 !in vm.free && 1 <= n <= GUEST_ENTRIES * ENTRIES
    requires Spare(vm.guest, {cr3})
    requires vm.guest.limit == n * PAGE_SIZE && forall k :: USER_PD_START <= k < ENTRIES ==> vm.mem[cr3][k] == BAD
    modifies vm`mem, vm`free
    ensures vm.Ready() && (r.Some? <==> node_ok && |old(vm.free)| >= TablesFor(n))
    ensures r.None? ==> vm.free == if node_ok then old(vm.free) + {cr3} else old(vm.free)
    ensures r.Some? ==> var pv := r.value;
      && fresh(pv) && pv.Valid() && pv.vm == vm && pv.active.cr3 == pv.active.userCr3 == cr3
      && pv.shadows == {pv.active}
      && pv.refcount == map[pv.active := 1] && pv.pool == old(vm.free) + {cr3}
      && ClearedTo(vm.mem, vm.guest, n) && Booted(vm.mem, vm.guest.base, cr3, TablesFor(n), n)
  {
    hide Booted, Kept, Frames, Tables, Spare, ClearedTo, TablesFor;
    if !node_ok {
      return None;
    }
    var ok := CreateBoot(vm, cr3, n);
    var boot := Shadow(guest_pd, wp, cr3, cr3);
    TreeKept(vm.mem, vm.guest, boot, old(vm.free));
    if !ok {
      SpareTree(vm.guest, cr3, Tables(vm.mem[cr3]), old(vm.free));
      vm.DestroyPd(cr3);
      return None;
    }
    var pv := new Pv(vm, boot);
    return Some(pv);
  }
}
