/** What repairing one entry of a shadow keeps: its ownership of frames and the freshness of all other pages. */
module ShadowAdjust {
  import opened PageEntries
  import opened ShadowPages

  /** A sound shadow of a directory in the guest's memory; its frames are neither spare nor the guest's. */
  ghost predicate Held(m: Mem, g: Guest, s: Shadow, free: set<Word>) {
    && Placed(g) && Sound(m, s) && Owned(m, s) !! free && Spare(g, Owned(m, s)) && Spare(g, free)
    && Inside(g, s.guestPd)
  }

  function Put(d: seq<Word>, k: int, e: Word): seq<Word>
    requires 0 <= k < |d|
  {
    d[k := e]
  }

  function Stored(m: Mem, f: Word, k: int, e: Word): Mem
    requires f in m && 0 <= k < |m[f]|
  {
    m[f := Put(m[f], k, e)]
  }

  /** The two directories change places. */
  function Flip(s: Shadow): Shadow {
    s.(cr3 := s.userCr3, userCr3 := s.cr3)
  }

  ghost predicate Settled(m: Mem, g: Guest, s: Shadow) {
    Placed(g) && Sound(m, s) && Spare(g, Owned(m, s)) && Inside(g, s.guestPd)
  }

  lemma HeldFlip(m: Mem, g: Guest, s: Shadow, free: set<Word>)
    requires Held(m, g, s, free)
    ensures Held(m, g, Flip(s), free) && Owned(m, Flip(s)) == Owned(m, s)
  {
    assert {s.cr3, s.userCr3} == {Flip(s).cr3, Flip(s).userCr3};
    assert Tables(m[s.cr3]) + Tables(m[s.userCr3]) == Tables(m[s.userCr3]) + Tables(m[s.cr3]);
  }

  /** New flags for a table. */
  lemma HeldFlags(m: Mem, g: Guest, s: Shadow, free: set<Word>, k: int, e: Word)
    requires Held(m, g, s, free) && USER_PD_START <= k < ENTRIES && e != BAD
    requires m[s.cr3][k] != BAD && Base(e) == Base(m[s.cr3][k])
    ensures var m' := Stored(m, s.cr3, k, e); Held(m', g, s, free) && Owned(m', s) == Owned(m, s)
  {
    hide Base, Spare;
    TablesSame(m[s.cr3], k, e);
  }

  /** A spare frame becomes a table. */
  lemma HeldTable(m: Mem, g: Guest, s: Shadow, free: set<Word>, k: int, e: Word, t: seq<Word>)
    requires Held(m, g, s, free) && USER_PD_START <= k < ENTRIES && e != BAD && |t| == ENTRIES
    requires m[s.cr3][k] == BAD && Base(e) in free
    ensures var m' := Stored(m[Base(e) := t], s.cr3, k, e);
      Held(m', g, s, free - {Base(e)}) && Owned(m', s) == Owned(m, s) + {Base(e)}
  {
    var m' := Stored(m[Base(e) := t], s.cr3, k, e);
    assert Aligned(Base(e)) && Spare(g, {Base(e)});
    TablesMore(m[s.cr3], k, e);
    assert Owned(m, s) !! {Base(e)};
    assert m'[s.userCr3] == m[s.userCr3];
  }

  /** A table becomes spare. */
  lemma HeldDrop(m: Mem, g: Guest, s: Shadow, free: set<Word>, k: int)
    requires Held(m, g, s, free) && USER_PD_START <= k < ENTRIES && m[s.cr3][k] != BAD
    ensures var t, m' := Base(m[s.cr3][k]), Stored(m, s.cr3, k, BAD);
      Held(m', g, s, free + {t}) && Owned(m', s) == Owned(m, s) - {t} && t in Owned(m, s)
  {
    var t, m' := Base(m[s.cr3][k]), Stored(m, s.cr3, k, BAD);
    assert t in Tables(m[s.cr3]);
    TablesLess(m[s.cr3], k);
    assert m'[s.userCr3] == m[s.userCr3];
  }

  /** Entries of tables may change. */
  lemma HeldEntries(m: Mem, m': Mem, g: Guest, s: Shadow, free: set<Word>)
    requires Held(m, g, s, free) && Total(m') && m'[s.cr3] == m[s.cr3] && m'[s.userCr3] == m[s.userCr3]
    ensures Held(m', g, s, free) && Owned(m', s) == Owned(m, s)
  {
  }

  /** Entry k of the kernel-mode directory was pointed at a table; if there was none before, the table is clear. */
  ghost predicate PointedTo(m: Mem, m': Mem, s: Shadow, k: int, pde: Word, table: Word)
    requires Sound(m, s) && 0 <= k < ENTRIES
  {
    var d := m[s.cr3];
    && table != s.cr3 && Aligned(table) && (d[k] != BAD ==> table == Base(d[k]))
    && m' == Stored(if d[k] != BAD then m else m[table := seq(ENTRIES, _ => BAD)], s.cr3, k,
               ShadowPde(s.wp, pde, table))
  }

  // ----- freshness -----

  /** From m0 to m', the entries for page j of the guest's present directory entry i were rewritten, in tables a and b;
      a table that was not there before is a new frame. */
  ghost predicate Adjusted(m0: Mem, m': Mem, g: Guest, s: Shadow, i: int, j: int, a: Word, b: Word)
    requires Placed(g) && Sound(m0, s) && Total(m') && 0 <= i < GUEST_ENTRIES && 0 <= j < ENTRIES
  {
    var k, pde, dk, du := USER_PD_START + i, m0[s.guestPd][i], m0[s.cr3], m0[s.userCr3];
    && Present(pde) && Base(pde) < g.limit && Aligned(a) && Aligned(b) && a != b && !Inside(g, a) && !Inside(g, b)
    && a != s.cr3 && a != s.userCr3 && b != s.cr3 && b != s.userCr3
    && m'[s.cr3] == Put(dk, k, ShadowPde(s.wp, pde, a)) && m'[s.userCr3] == Put(du, k, ShadowPde(s.wp, pde, b))
    && (dk[k] != BAD ==> a == Base(dk[k]) && forall l :: 0 <= l < ENTRIES && l != j ==> m'[a][l] == m0[a][l])
    && (du[k] != BAD ==> b == Base(du[k]) && forall l :: 0 <= l < ENTRIES && l != j ==> m'[b][l] == m0[b][l])
    && (dk[k] == BAD ==> a !in Owned(m0, s)) && (du[k] == BAD ==> b !in Owned(m0, s))
    && (forall f: Word :: Aligned(f) && f != s.cr3 && f != s.userCr3 && f != a && f != b ==> m'[f] == m0[f])
    && var pte := m0[TableAt(g, pde)][j];
       m'[a][j] == KernelPte(g, s.wp, pte) && m'[b][j] == AdjustedUserPte(g, pte)
  }

  ghost predicate IsFresh(m: Mem, g: Guest, s: Shadow, i: int, j: int)
    requires Placed(g) && Sound(m, s) && 0 <= i < GUEST_ENTRIES && 0 <= j < ENTRIES
  {
    Fresh(m, g, s.wp, s.guestPd, m[s.cr3], m[s.userCr3], i, j)
  }

  /** The guest gives the page to users at the second level but not at the first. */
  ghost predicate UsersKeptOut(m: Mem, g: Guest, s: Shadow, i: int, j: int)
    requires Placed(g) && Total(m) && Aligned(s.guestPd) && 0 <= i < GUEST_ENTRIES && 0 <= j < ENTRIES
  {
    var pde := m[s.guestPd][i];
    Present(pde) && !User(pde) && Base(pde) < g.limit && var pte := m[TableAt(g, pde)][j]; Present(pte) && User(pte)
  }

  /** An adjusted page is fresh, unless the directory entry alone keeps users from it. */
  lemma AdjustedFresh(m0: Mem, m': Mem, g: Guest, s: Shadow, i: int, j: int, a: Word, b: Word)
    requires Settled(m0, g, s) && Sound(m', s) && 0 <= i < GUEST_ENTRIES && 0 <= j < ENTRIES
    requires Adjusted(m0, m', g, s, i, j, a, b)
    ensures IsFresh(m', g, s, i, j) <==> !UsersKeptOut(m0, g, s, i, j)
  {
    hide Entry, ShadowPde, KernelPte, UserPte, AdjustedUserPte, Present, Base, TableAt, User, Points;
    var pde := m0[s.guestPd][i];
    var t := TableAt(g, pde);
    assert m'[s.guestPd] == m0[s.guestPd] && m'[t] == m0[t];
    ShadowPdePoints(s.wp, pde, a);
    ShadowPdePoints(s.wp, pde, b);
    AdjustedAgrees(g, pde, m0[t][j]);
  }

  /** Fresh pages of other directory entries stay fresh, */
  lemma OtherEntryFresh(m0: Mem, m': Mem, g: Guest, s: Shadow, i: int, j: int, a: Word, b: Word, i2: int, j2: int)
    requires Settled(m0, g, s) && Sound(m', s) && 0 <= i < GUEST_ENTRIES && 0 <= j < ENTRIES
    requires Adjusted(m0, m', g, s, i, j, a, b)
    requires 0 <= i2 < GUEST_ENTRIES && 0 <= j2 < ENTRIES && i2 != i && IsFresh(m0, g, s, i2, j2)
    ensures IsFresh(m', g, s, i2, j2)
  {
    hide Entry, ShadowPde, KernelPte, UserPte, AdjustedUserPte, Present, Base, TableAt, User, Points;
    var dk, du, c, pde := m0[s.cr3], m0[s.userCr3], USER_PD_START + i2, m0[s.guestPd][i2];
    assert m'[s.guestPd] == m0[s.guestPd];
    if Present(pde) {
      PointsAt(dk[c], s.wp, pde);
      PointsAt(du[c], s.wp, pde);
      assert Base(dk[c]) in Tables(dk) && Base(du[c]) in Tables(du);
      assert dk[USER_PD_START + i] != BAD ==> a in Tables(dk);
      assert du[USER_PD_START + i] != BAD ==> b in Tables(du);
      var t := TableAt(g, pde);
      assert m'[t] == m0[t];
    }
    FreshFrame(m0, m', g, s.wp, s.guestPd, dk, du, m'[s.cr3], m'[s.userCr3], i2, j2);
  }

  /** and so do those of the same entry. */
  lemma SameEntryFresh(m0: Mem, m': Mem, g: Guest, s: Shadow, i: int, j: int, a: Word, b: Word, i2: int, j2: int)
    requires Settled(m0, g, s) && Sound(m', s) && 0 <= i < GUEST_ENTRIES && 0 <= j < ENTRIES
    requires Adjusted(m0, m', g, s, i, j, a, b)
    requires 0 <= i2 < GUEST_ENTRIES && 0 <= j2 < ENTRIES && i2 == i && j2 != j && IsFresh(m0, g, s, i2, j2)
    ensures IsFresh(m', g, s, i2, j2)
  {
    hide Entry, ShadowPde, KernelPte, UserPte, AdjustedUserPte, Present, Base, TableAt, User, Points;
    var dk, du, c, pde := m0[s.cr3], m0[s.userCr3], USER_PD_START + i2, m0[s.guestPd][i2];
    assert m'[s.guestPd] == m0[s.guestPd];
    if Present(pde) {
      PointsAt(dk[c], s.wp, pde);
      PointsAt(du[c], s.wp, pde);
      SamePde(dk[c], s.wp, pde);
      SamePde(du[c], s.wp, pde);
      var t := TableAt(g, pde);
      assert m'[t] == m0[t];
    }
    FreshFrame(m0, m', g, s.wp, s.guestPd, dk, du, m'[s.cr3], m'[s.userCr3], i2, j2);
  }

  lemma SamePde(e: Word, wp: bool, pde: Word)
    requires Points(e, wp, pde)
    ensures ShadowPde(wp, pde, Base(e)) == e
  {
  }

  /** Without the guest's directory entry there is nothing to be stale. */
  lemma DroppedFresh(m0: Mem, m': Mem, g: Guest, s: Shadow, i: int, i2: int, j2: int)
    requires Settled(m0, g, s) && Sound(m', s) && 0 <= i < GUEST_ENTRIES && !Present(m0[s.guestPd][i])
    requires m' == Stored(Stored(m0, s.cr3, USER_PD_START + i, BAD), s.userCr3, USER_PD_START + i, BAD)
    requires 0 <= i2 < GUEST_ENTRIES && 0 <= j2 < ENTRIES && (i2 == i || IsFresh(m0, g, s, i2, j2))
    ensures IsFresh(m', g, s, i2, j2)
  {
    hide Entry, ShadowPde, KernelPte, UserPte, Present, Base, TableAt, Points;
    var dk, du, c, pde := m0[s.cr3], m0[s.userCr3], USER_PD_START + i2, m0[s.guestPd][i2];
    assert m'[s.guestPd] == m0[s.guestPd];
    if i2 != i {
      if Present(pde) {
        PointsAt(dk[c], s.wp, pde);
        PointsAt(du[c], s.wp, pde);
        assert Base(dk[c]) in Tables(dk) && Base(du[c]) in Tables(du);
        var t := TableAt(g, pde);
        assert m'[t] == m0[t];
      }
      FreshFrame(m0, m', g, s.wp, s.guestPd, dk, du, m'[s.cr3], m'[s.userCr3], i2, j2);
    }
  }

  lemma AllDropped(m0: Mem, m': Mem, g: Guest, s: Shadow, i: int)
    requires Settled(m0, g, s) && Sound(m', s) && 0 <= i < GUEST_ENTRIES && !Present(m0[s.guestPd][i])
    requires m' == Stored(Stored(m0, s.cr3, USER_PD_START + i, BAD), s.userCr3, USER_PD_START + i, BAD)
    ensures forall i2, j2 ::
      0 <= i2 < GUEST_ENTRIES && 0 <= j2 < ENTRIES && (i2 == i || IsFresh(m0, g, s, i2, j2)) ==>
        IsFresh(m', g, s, i2, j2)
  {
    forall i2, j2 | 0 <= i2 < GUEST_ENTRIES && 0 <= j2 < ENTRIES && (i2 == i || IsFresh(m0, g, s, i2, j2))
      ensures IsFresh(m', g, s, i2, j2)
    {
      DroppedFresh(m0, m', g, s, i, i2, j2);
    }
  }

  lemma OthersFresh(m0: Mem, m': Mem, g: Guest, s: Shadow, i: int, j: int, a: Word, b: Word)
    requires Settled(m0, g, s) && Sound(m', s) && 0 <= i < GUEST_ENTRIES && 0 <= j < ENTRIES
    requires Adjusted(m0, m', g, s, i, j, a, b)
    ensures forall i2, j2 ::
      0 <= i2 < GUEST_ENTRIES && 0 <= j2 < ENTRIES && (i2 != i || j2 != j) && IsFresh(m0, g, s, i2, j2) ==>
        IsFresh(m', g, s, i2, j2)
  {
    forall i2, j2 | 0 <= i2 < GUEST_ENTRIES && 0 <= j2 < ENTRIES && (i2 != i || j2 != j) && IsFresh(m0, g, s, i2, j2)
      ensures IsFresh(m', g, s, i2, j2)
    {
      if i2 == i {
        SameEntryFresh(m0, m', g, s, i, j, a, b, i2, j2);
      } else {
        OtherEntryFresh(m0, m', g, s, i, j, a, b, i2, j2);
      }
    }
  }

  /** What an entry of a held shadow's kernel-mode directory may be. */
  lemma HeldEntry(m: Mem, g: Guest, s: Shadow, free: set<Word>, k: int)
    requires Held(m, g, s, free) && USER_PD_START <= k < ENTRIES
    ensures Placed(g) && Total(m) && Aligned(s.guestPd) && Inside(g, s.guestPd) && Aligned(s.cr3) && Aligned(s.userCr3)
    ensures s.cr3 in Owned(m, s) && Settled(m, g, s)
    ensures Owned(m, s) !! free && forall t :: t in Owned(m, s) + free ==> t != BAD && Aligned(t) && !Inside(g, t)
    ensures m[s.cr3][k] != BAD ==> var t := Base(m[s.cr3][k]); t in Tables(m[s.cr3]) && t != s.cr3 && t != s.userCr3
  {
  }

  lemma PointReuse(m: Mem, g: Guest, s: Shadow, free: set<Word>, k: int, pde: Word)
    requires Held(m, g, s, free) && USER_PD_START <= k < ENTRIES && m[s.cr3][k] != BAD
    ensures var table := Base(m[s.cr3][k]);
      && table != BAD && Aligned(table)
      && PointedTo(m, Stored(m, s.cr3, k, ShadowPde(s.wp, pde, table)), s, k, pde, table)
    ensures var m' := Stored(m, s.cr3, k, ShadowPde(s.wp, pde, Base(m[s.cr3][k])));
      && Held(m', g, s, free) && Owned(m', s) == Owned(m, s) && Base(m[s.cr3][k]) in Owned(m, s)
      && Same(m, m', Owned(m, s) + free)
  {
    HeldEntry(m, g, s, free, k);
    ShadowPdePoints(s.wp, pde, Base(m[s.cr3][k]));
    HeldFlags(m, g, s, free, k, ShadowPde(s.wp, pde, Base(m[s.cr3][k])));
  }

  lemma PointNew(m: Mem, g: Guest, s: Shadow, free: set<Word>, k: int, pde: Word, table: Word)
    requires Held(m, g, s, free) && USER_PD_START <= k < ENTRIES && m[s.cr3][k] == BAD && table in free
    ensures s.cr3 != table && Aligned(table)
    ensures var m' := Stored(m[table := seq(ENTRIES, _ => BAD)], s.cr3, k, ShadowPde(s.wp, pde, table));
      PointedTo(m, m', s, k, pde, table)
    ensures var m' := Stored(m[table := seq(ENTRIES, _ => BAD)], s.cr3, k, ShadowPde(s.wp, pde, table));
      && Held(m', g, s, free - {table}) && Same(m, m', Owned(m, s) + free)
      && Owned(m', s) + (free - {table}) == Owned(m, s) + free && table in Owned(m', s)
  {
    hide Base, ShadowPde, Spare, Sound;
    HeldEntry(m, g, s, free, k);
    ShadowPdePoints(s.wp, pde, table);
    HeldTable(m, g, s, free, k, ShadowPde(s.wp, pde, table), seq(ENTRIES, _ => BAD));
    assert m[s.cr3] == m[table := seq(ENTRIES, _ => BAD)][s.cr3];
  }

  /** Where the two tables of an adjusted entry lie. */
  lemma PointedApart(m0: Mem, m1: Mem, m2: Mem, g: Guest, s: Shadow, k: int, pde: Word, a: Word, b: Word,
      f0: set<Word>, f1: set<Word>)
    requires Held(m0, g, s, f0) && Held(m1, g, s, f1) && USER_PD_START <= k < ENTRIES && f1 <= f0
    requires PointedTo(m0, m1, s, k, pde, a) && PointedTo(m1, m2, Flip(s), k, pde, b)
    requires (m0[s.cr3][k] == BAD ==> a in f0) && (m1[s.userCr3][k] == BAD ==> b in f1)
    ensures m1[s.userCr3] == m0[s.userCr3] && m1[s.cr3] == Put(m0[s.cr3], k, ShadowPde(s.wp, pde, a))
    ensures a in Tables(m1[s.cr3]) && !Inside(g, a) && a != s.cr3 && a != s.userCr3
    ensures b != a && !Inside(g, b) && b != s.cr3 && b != s.userCr3
    ensures m0[s.cr3][k] == BAD ==> a !in Owned(m0, s)
    ensures m0[s.userCr3][k] == BAD ==> b !in Owned(m0, s)
  {
    hide Base, Aligned, ShadowPde, Inside;
    HeldFlip(m0, g, s, f0);
    HeldFlip(m1, g, s, f1);
    HeldEntry(m0, g, s, f0, k);
    HeldEntry(m1, g, s, f1, k);
    HeldEntry(m1, g, Flip(s), f1, k);
    ShadowPdePoints(s.wp, pde, a);
  }

  lemma SameStored(m: Mem, m1: Mem, except: set<Word>, f: Word, k: int, e: Word)
    requires Same(m, m1, except) && f in m1 && 0 <= k < |m1[f]| && f in except
    ensures Same(m, Stored(m1, f, k, e), except)
  {
  }

  /** Which frames the two tables' pointing changed. */
  lemma PointedFrames(m0: Mem, m1: Mem, m2: Mem, g: Guest, s: Shadow, k: int, pde: Word, a: Word, b: Word)
    requires Sound(m0, s) && Sound(m1, s) && Total(m2) && USER_PD_START <= k < ENTRIES
    requires PointedTo(m0, m1, s, k, pde, a) && PointedTo(m1, m2, Flip(s), k, pde, b)
    requires m1[s.userCr3] == m0[s.userCr3] && m1[s.cr3] == Put(m0[s.cr3], k, ShadowPde(s.wp, pde, a))
    requires a != b && a != s.cr3 && a != s.userCr3 && b != s.cr3 && b != s.userCr3
    ensures m2[s.cr3] == Put(m0[s.cr3], k, ShadowPde(s.wp, pde, a))
    ensures m2[s.userCr3] == Put(m0[s.userCr3], k, ShadowPde(s.wp, pde, b))
    ensures m0[s.cr3][k] != BAD ==> a == Base(m0[s.cr3][k]) && m2[a] == m0[a]
    ensures m0[s.userCr3][k] != BAD ==> b == Base(m0[s.userCr3][k]) && m2[b] == m0[b]
    ensures forall f: Word :: Aligned(f) && f != s.cr3 && f != s.userCr3 && f != a && f != b ==> m2[f] == m0[f]
  {
    hide Base, ShadowPde, Disjoint, Owned, Tables;
  }

  /** Both entries were pointed at the tables a and b. */
  ghost predicate PointedBoth(m0: Mem, m2: Mem, g: Guest, s: Shadow, k: int, pde: Word, a: Word, b: Word)
    requires Sound(m0, s) && Total(m2) && USER_PD_START <= k < ENTRIES
  {
    && Aligned(a) && Aligned(b) && a != b && !Inside(g, a) && !Inside(g, b)
    && a != s.cr3 && a != s.userCr3 && b != s.cr3 && b != s.userCr3
    && m2[s.cr3] == Put(m0[s.cr3], k, ShadowPde(s.wp, pde, a))
    && m2[s.userCr3] == Put(m0[s.userCr3], k, ShadowPde(s.wp, pde, b))
    && (if m0[s.cr3][k] != BAD then a == Base(m0[s.cr3][k]) && m2[a] == m0[a] else a !in Owned(m0, s))
    && (if m0[s.userCr3][k] != BAD then b == Base(m0[s.userCr3][k]) && m2[b] == m0[b] else b !in Owned(m0, s))
    && forall f: Word :: Aligned(f) && f != s.cr3 && f != s.userCr3 && f != a && f != b ==> m2[f] == m0[f]
  }

  lemma PointedByBoth(m0: Mem, m1: Mem, m2: Mem, g: Guest, s: Shadow, k: int, pde: Word, a: Word, b: Word,
      f0: set<Word>, f1: set<Word>)
    requires Held(m0, g, s, f0) && Held(m1, g, s, f1) && Total(m2) && USER_PD_START <= k < ENTRIES && f1 <= f0
    requires PointedTo(m0, m1, s, k, pde, a) && PointedTo(m1, m2, Flip(s), k, pde, b)
    requires (m0[s.cr3][k] == BAD ==> a in f0) && (m1[s.userCr3][k] == BAD ==> b in f1)
    ensures PointedBoth(m0, m2, g, s, k, pde, a, b)
  {
    hide Base, ShadowPde, Inside, Tables, Spare, Disjoint, Owned, Stored;
    PointedApart(m0, m1, m2, g, s, k, pde, a, b, f0, f1);
    PointedFrames(m0, m1, m2, g, s, k, pde, a, b);
  }

  /** The steps of an adjustment taken together. */
  lemma AdjustedBy(m0: Mem, m2: Mem, m': Mem, g: Guest, s: Shadow, i: int, j: int, a: Word, b: Word)
    requires Settled(m0, g, s) && Total(m2) && 0 <= i < GUEST_ENTRIES && 0 <= j < ENTRIES
    requires Present(m0[s.guestPd][i]) && Base(m0[s.guestPd][i]) < g.limit
    requires PointedBoth(m0, m2, g, s, USER_PD_START + i, m0[s.guestPd][i], a, b)
    requires var pte := m2[TableAt(g, m0[s.guestPd][i])][j];
      m' == Stored(Stored(m2, a, j, KernelPte(g, s.wp, pte)), b, j, AdjustedUserPte(g, pte))
    ensures Total(m') && m'[s.cr3] == m2[s.cr3] && m'[s.userCr3] == m2[s.userCr3] && Adjusted(m0, m', g, s, i, j, a, b)
  {
    hide Base, ShadowPde, Present, KernelPte, AdjustedUserPte, TableAt, Tables, Disjoint;
    var t := TableAt(g, m0[s.guestPd][i]);
    assert t != s.cr3 && t != s.userCr3;
    assert m2[t] == m0[t];
  }
}
