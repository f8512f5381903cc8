/** Directories of shadow tables in physical memory: which frames they own, and when they agree with the guest's. */
module ShadowPages {
  import opened PageEntries

  const ENTRIES := 1024
  /** The first directory entry of user memory; the entries before it map the host's kernel. */
  const USER_PD_START := 4
  const GUEST_ENTRIES := ENTRIES - USER_PD_START

  /** Physical memory by frames, each seen as a table. */
  type Mem = map<Word, seq<Word>>

  ghost predicate Total(m: Mem) {
    forall f: Word :: Aligned(f) ==> f in m && |m[f]| == ENTRIES
  }

  /** Only the excepted frames may change. */
  ghost predicate Same(m: Mem, m': Mem, except: set<Word>) {
    forall f :: f in m && f !in except ==> f in m' && m'[f] == m[f]
  }

  /** `pv_pd_t`, but for its reference count */
  datatype Shadow = Shadow(guestPd: Word, wp: bool, cr3: Word, userCr3: Word)

  // ----- ownership -----

  /** The frames of the tables a directory refers to. */
  ghost function Tables(d: seq<Word>): set<Word>
    requires |d| == ENTRIES
  {
    TablesTo(d, ENTRIES)
  }

  ghost function TablesTo(d: seq<Word>, n: int): set<Word>
    requires n <= |d|
  {
    set k | USER_PD_START <= k < n && d[k] != BAD :: Base(d[k])
  }

  ghost predicate Injective(d: seq<Word>)
    requires |d| == ENTRIES
  {
    forall k, l :: USER_PD_START <= k < l < ENTRIES && d[k] != BAD && d[l] != BAD ==> Base(d[k]) != Base(d[l])
  }

  /** Two directories that share no table and refer to none twice, all within a set of frames. */
  ghost predicate Disjoint(dk: seq<Word>, du: seq<Word>, frames: set<Word>) {
    && |dk| == |du| == ENTRIES && Injective(dk) && Injective(du)
    && Tables(dk) !! Tables(du) && Tables(dk) <= frames && Tables(du) <= frames
  }

  lemma TablesMore(d: seq<Word>, k: int, e: Word)
    requires |d| == ENTRIES && USER_PD_START <= k < ENTRIES && d[k] == BAD && e != BAD
    ensures Tables(d[k := e]) == Tables(d) + {Base(e)}
    ensures Injective(d) && Base(e) !in Tables(d) ==> Injective(d[k := e])
  {
    var d' := d[k := e];
    forall t | t in Tables(d) + {Base(e)} ensures t in Tables(d') {
      if t in Tables(d) {
        var l :| USER_PD_START <= l < ENTRIES && d[l] != BAD && Base(d[l]) == t;
        assert d'[l] == d[l];
      } else {
        assert d'[k] == e;
      }
    }
  }

  lemma TablesLess(d: seq<Word>, k: int)
    requires |d| == ENTRIES && USER_PD_START <= k < ENTRIES && d[k] != BAD && Injective(d)
    ensures Tables(d[k := BAD]) == Tables(d) - {Base(d[k])} && Injective(d[k := BAD])
  {
    var d' := d[k := BAD];
    forall t | t in Tables(d) - {Base(d[k])} ensures t in Tables(d') {
      var l :| USER_PD_START <= l < ENTRIES && d[l] != BAD && Base(d[l]) == t;
      assert d'[l] == d[l];
    }
  }

  /** Other flags, same tables. */
  lemma TablesSame(d: seq<Word>, k: int, e: Word)
    requires |d| == ENTRIES && USER_PD_START <= k < ENTRIES && d[k] != BAD && e != BAD && Base(e) == Base(d[k])
    ensures Tables(d[k := e]) == Tables(d) && (Injective(d) ==> Injective(d[k := e]))
  {
    var d' := d[k := e];
    forall t | t in Tables(d) ensures t in Tables(d') {
      var l :| USER_PD_START <= l < ENTRIES && d[l] != BAD && Base(d[l]) == t;
      assert d'[l] == if l == k then e else d[l];
    }
  }

  /** The frames that belong to a shadow. */
  ghost function Owned(m: Mem, s: Shadow): set<Word>
    requires Total(m) && Aligned(s.cr3) && Aligned(s.userCr3)
  {
    {s.cr3, s.userCr3} + Tables(m[s.cr3]) + Tables(m[s.userCr3])
  }

  /** No frame serves twice, and none is null. */
  ghost predicate Sound(m: Mem, s: Shadow) {
    && Total(m) && Aligned(s.cr3) && Aligned(s.userCr3) && Aligned(s.guestPd) && s.cr3 != s.userCr3
    && Disjoint(m[s.cr3], m[s.userCr3], Tables(m[s.cr3]) + Tables(m[s.userCr3]))
    && !({s.cr3, s.userCr3} * (Tables(m[s.cr3]) + Tables(m[s.userCr3])) != {}) && BAD !in Owned(m, s)
  }

  // ----- agreement -----

  /** The entry at place j of a table. */
  function At(m: Mem, table: Word, j: int): Word
    requires table in m && 0 <= j < |m[table]|
  {
    m[table][j]
  }

  /** Where the host keeps the guest's table that a directory entry refers to. */
  function TableAt(g: Guest, pde: Word): (t: Word)
    requires Placed(g) && Base(pde) < g.limit
    ensures Aligned(t) && Inside(g, t)
  {
    g.base + Base(pde)
  }

  /** It is where the guest's memory has the frame that the entry names. */
  lemma TablePlace(g: Guest, pde: Word)
    requires Placed(g) && Base(pde) < g.limit
    ensures TableAt(g, pde) == g.base + (pde - pde % 0x1000) && TableAt(g, pde) == HostFrame(g, pde)
  {
    MappedInside(g, pde);
  }

  predicate Points(e: Word, wp: bool, pde: Word) {
    e == ShadowPde(wp, pde, Base(e))
  }

  lemma PointsAt(e: Word, wp: bool, pde: Word)
    requires Points(e, wp, pde)
    ensures e != BAD && Aligned(Base(e))
  {
    EntryFields(Base(e), PdeResv(pde), !wp || Writable(pde), true);
  }

  lemma ShadowPdePoints(wp: bool, pde: Word, table: Word)
    requires Aligned(table)
    ensures var e := ShadowPde(wp, pde, table); Points(e, wp, pde) && Base(e) == table && e != BAD
  {
    EntryFields(table, PdeResv(pde), !wp || Writable(pde), true);
  }

  /** For page j of directory entry i, the directories dk and du and their tables hold what a translation of the guest's
      directory would put there. */
  ghost predicate Fresh(m: Mem, g: Guest, wp: bool, gpd: Word, dk: seq<Word>, du: seq<Word>, i: int, j: int)
    requires Placed(g) && Total(m) && Aligned(gpd) && |dk| == |du| == ENTRIES && 0 <= i < GUEST_ENTRIES
    requires 0 <= j < ENTRIES
  {
    var pde, k, u := m[gpd][i], dk[USER_PD_START + i], du[USER_PD_START + i];
    if !Present(pde) then k == BAD && u == BAD
    else
      && Base(pde) < g.limit && Points(k, wp, pde) && Points(u, wp, pde)
      && var pte := m[TableAt(g, pde)][j];
         At(m, Base(k), j) == KernelPte(g, wp, pte) && At(m, Base(u), j) == UserPte(g, pde, pte)
  }

  /** The guest's own walk for page j of directory entry i. */
  function GuestWalk(m: Mem, g: Guest, gpd: Word, i: int, j: int): Access
    requires Placed(g) && gpd in m && 0 <= i < |m[gpd]|
    requires var pde := m[gpd][i]; Base(pde) < g.limit ==> TableAt(g, pde) in m && 0 <= j < |m[TableAt(g, pde)]|
  {
    var pde := m[gpd][i];
    if Present(pde) && Base(pde) < g.limit then Walk(pde, m[TableAt(g, pde)][j]) else Fault
  }

  /** The hardware's walk for the same page, which lies USER_PD_START entries higher. */
  function HostWalk(m: Mem, cr3: Word, i: int, j: int): Access
    requires cr3 in m && 0 <= i && USER_PD_START + i < |m[cr3]|
    requires var t := Base(m[cr3][USER_PD_START + i]); t in m && 0 <= j < |m[t]|
  {
    var pde := m[cr3][USER_PD_START + i];
    if Present(pde) then Walk(pde, m[Base(pde)][j]) else Fault
  }

  /** The bits that the walk does not read: in both shadows they are the guest's or 0, and absent entries are 0. */
  ghost predicate SameBits(m: Mem, g: Guest, gpd: Word, cr3: Word, i: int, j: int)
    requires Placed(g) && Total(m) && Aligned(gpd) && Aligned(cr3) && 0 <= i < GUEST_ENTRIES && 0 <= j < ENTRIES
  {
    var pde, e := m[gpd][i], m[cr3][USER_PD_START + i];
    if !Present(pde) then e == 0
    else
      && Base(pde) < g.limit && DirectoryBits(e, pde) && Aligned(Base(e))
      && var pte, f := m[TableAt(g, pde)][j], m[Base(e)][j]; f == 0 || (Present(pte) && TableBits(f, pte))
  }

  /** A fresh page is seen through the shadow as the guest maps it. */
  lemma FreshWalk(m: Mem, g: Guest, s: Shadow, i: int, j: int)
    requires Placed(g) && Sound(m, s) && 0 <= i < GUEST_ENTRIES && 0 <= j < ENTRIES
    requires Fresh(m, g, s.wp, s.guestPd, m[s.cr3], m[s.userCr3], i, j)
    ensures HostWalk(m, s.cr3, i, j) == KernelView(g, s.wp, GuestWalk(m, g, s.guestPd, i, j))
    ensures var w, v := HostWalk(m, s.userCr3, i, j), UserView(g, GuestWalk(m, g, s.guestPd, i, j));
      && (w.Fault? <==> v.Fault?) && (w.Maps? ==> w.user && w.frame == v.frame && (v.writable ==> w.writable))
      && (s.wp ==> w == v)
    ensures SameBits(m, g, s.guestPd, s.cr3, i, j) && SameBits(m, g, s.guestPd, s.userCr3, i, j)
  {
    hide Base, Entry, KernelPte, UserPte, Writable, User, TableBits, DirectoryBits;
    var pde := m[s.guestPd][i];
    if Present(pde) {
      var pte := m[TableAt(g, pde)][j];
      var k, u := m[s.cr3][USER_PD_START + i], m[s.userCr3][USER_PD_START + i];
      PointsAt(k, s.wp, pde);
      PointsAt(u, s.wp, pde);
      KernelShadow(g, s.wp, pde, pte, Base(k));
      UserShadow(g, s.wp, pde, pte, Base(u));
      EntryFields(Base(k), PdeResv(pde), !s.wp || Writable(pde), true);
      DirectoryEntryBits(s.wp, pde, Base(k));
      DirectoryEntryBits(s.wp, pde, Base(u));
      TableEntryBits(g, s.wp, pde, pte);
    }
  }

  /** The tables kt and ut translate the guest's table pt. */
  ghost predicate Rows(g: Guest, wp: bool, pde: Word, pt: seq<Word>, kt: seq<Word>, ut: seq<Word>)
    requires Placed(g)
  {
    && |pt| == |kt| == |ut| == ENTRIES
    && forall j :: 0 <= j < ENTRIES ==> kt[j] == KernelPte(g, wp, pt[j]) && ut[j] == UserPte(g, pde, pt[j])
  }

  /** What a page's freshness depends on. */
  lemma FreshFrame(m: Mem, m': Mem, g: Guest, wp: bool, gpd: Word, dk: seq<Word>, du: seq<Word>, dk': seq<Word>,
      du': seq<Word>, i: int, j: int)
    requires Placed(g) && Total(m) && Total(m') && Aligned(gpd) && |dk| == |du| == |dk'| == |du'| == ENTRIES
    requires 0 <= i < GUEST_ENTRIES && 0 <= j < ENTRIES
    requires var k, u, pde := dk[USER_PD_START + i], du[USER_PD_START + i], m[gpd][i];
      && dk'[USER_PD_START + i] == k && du'[USER_PD_START + i] == u && m'[gpd][i] == pde
      && (Present(pde) && Base(pde) < g.limit ==>
           var t := TableAt(g, pde);
           m'[t][j] == m[t][j] && At(m', Base(k), j) == At(m, Base(k), j) && At(m', Base(u), j) == At(m, Base(u), j))
    requires Fresh(m, g, wp, gpd, dk, du, i, j)
    ensures Fresh(m', g, wp, gpd, dk', du', i, j)
  {
  }

  lemma AlignedSum(a: Word, e: Word)
    requires Aligned(a)
    ensures Aligned(Base(e)) && (a + Base(e) < 0x1_0000_0000 ==> Aligned(a + Base(e)))
  {
  }

  // ----- a translation under way -----

  /** Frames that may be handed out: not null and not the guest's. */
  ghost predicate Spare(g: Guest, frames: set<Word>) {
    forall f :: f in frames ==> Aligned(f) && f != BAD && !Inside(g, f)
  }

  /** The first n entries are translated, with tables taken from avail. */
  ghost predicate Built(m: Mem, g: Guest, wp: bool, gpd: Word, dk: seq<Word>, du: seq<Word>, n: int, avail: set<Word>,
      free: set<Word>)
  {
    && Placed(g) && Total(m) && Aligned(gpd) && 0 <= n <= GUEST_ENTRIES
    && Disjoint(dk, du, avail) && free == avail - Tables(dk) - Tables(du)
    && (forall k :: USER_PD_START + n <= k < ENTRIES ==> dk[k] == BAD && du[k] == BAD)
    && forall i, j :: 0 <= i < n && 0 <= j < ENTRIES ==> Fresh(m, g, wp, gpd, dk, du, i, j)
  }

  lemma BuiltNone(m: Mem, g: Guest, wp: bool, gpd: Word, dk: seq<Word>, du: seq<Word>, avail: set<Word>)
    requires Placed(g) && Total(m) && Aligned(gpd) && |dk| == |du| == ENTRIES
    requires forall k :: USER_PD_START <= k < ENTRIES ==> dk[k] == BAD && du[k] == BAD
    ensures Built(m, g, wp, gpd, dk, du, 0, avail, avail)
  {
  }

  /** The tables that the first n entries of the guest's directory refer to lie in its memory. */
  ghost predicate TablesInside(g: Guest, d: seq<Word>, n: int)
    requires |d| == ENTRIES && n <= ENTRIES
  {
    forall k :: 0 <= k < n && Present(d[k]) ==> Base(d[k]) < g.limit
  }

  lemma InsideNone(g: Guest, d: seq<Word>)
    requires |d| == ENTRIES
    ensures TablesInside(g, d, 0)
  {
  }

  lemma InsideMore(g: Guest, d: seq<Word>, n: int)
    requires |d| == ENTRIES && 0 <= n < GUEST_ENTRIES
    ensures TablesInside(g, d, n + 1) <==> TablesInside(g, d, n) && (Present(d[n]) ==> Base(d[n]) < g.limit)
    ensures TablesInside(g, d, GUEST_ENTRIES) ==> TablesInside(g, d, n + 1)
  {
  }

  lemma BuiltAvail(m: Mem, g: Guest, wp: bool, gpd: Word, dk: seq<Word>, du: seq<Word>, n: int, avail: set<Word>,
      free: set<Word>)
    requires Built(m, g, wp, gpd, dk, du, n, avail, free)
    ensures free <= avail
  {
  }

  lemma BuiltSkip(m: Mem, g: Guest, wp: bool, gpd: Word, dk: seq<Word>, du: seq<Word>, n: int, avail: set<Word>,
      free: set<Word>)
    requires Built(m, g, wp, gpd, dk, du, n, avail, free) && n < GUEST_ENTRIES && !Present(m[gpd][n])
    ensures Built(m, g, wp, gpd, dk, du, n + 1, avail, free)
  {
  }

  /** One more entry translated, into the tables a and b. */
  lemma BuiltMore(m: Mem, g: Guest, wp: bool, gpd: Word, dk: seq<Word>, du: seq<Word>, n: int, avail: set<Word>,
      free: set<Word>, a: Word, b: Word, kt: seq<Word>, ut: seq<Word>)
    requires Built(m, g, wp, gpd, dk, du, n, avail, free) && n < GUEST_ENTRIES && Spare(g, avail) && Inside(g, gpd)
    requires a in free && b in free && a != b && |kt| == |ut| == ENTRIES
    requires Present(m[gpd][n]) && Base(m[gpd][n]) < g.limit && Rows(g, wp, m[gpd][n], m[TableAt(g, m[gpd][n])], kt, ut)
    ensures var pde := m[gpd][n];
      Aligned(a) && Aligned(b) &&
      Built(m[a := kt][b := ut], g, wp, gpd,
        dk[USER_PD_START + n := ShadowPde(wp, pde, a)], du[USER_PD_START + n := ShadowPde(wp, pde, b)],
            n + 1, avail, free - {a, b})
  {
    var pde, k, m' := m[gpd][n], USER_PD_START + n, m[a := kt][b := ut];
    var e, f := ShadowPde(wp, pde, a), ShadowPde(wp, pde, b);
    var dk', du' := dk[k := e], du[k := f];
    ShadowPdePoints(wp, pde, a);
    ShadowPdePoints(wp, pde, b);
    var t := TableAt(g, pde);
    assert m'[t] == m[t];
    assert Disjoint(dk', du', avail) && free - {a, b} == avail - Tables(dk') - Tables(du') by {
      TablesMore(dk, k, e);
      TablesMore(du, k, f);
    }
    forall i, j | 0 <= i < n + 1 && 0 <= j < ENTRIES ensures Fresh(m', g, wp, gpd, dk', du', i, j) {
      if i == n {
        NewFresh(m', g, wp, gpd, dk', du', i, j, a, b);
      } else {
        OldFresh(m, m', g, wp, gpd, dk, du, dk', du', n, avail, free, i, j);
      }
    }
  }

  lemma NewFresh(m: Mem, g: Guest, wp: bool, gpd: Word, dk: seq<Word>, du: seq<Word>, i: int, j: int, a: Word, b: Word)
    requires Placed(g) && Total(m) && Aligned(gpd) && Aligned(a) && Aligned(b) && |dk| == |du| == ENTRIES
    requires 0 <= i < GUEST_ENTRIES && 0 <= j < ENTRIES
    requires var pde := m[gpd][i];
      && Present(pde) && Base(pde) < g.limit
      && dk[USER_PD_START + i] == ShadowPde(wp, pde, a) && du[USER_PD_START + i] == ShadowPde(wp, pde, b)
      && m[a][j] == KernelPte(g, wp, m[TableAt(g, pde)][j]) && m[b][j] == UserPte(g, pde, m[TableAt(g, pde)][j])
    ensures Fresh(m, g, wp, gpd, dk, du, i, j)
  {
    ShadowPdePoints(wp, m[gpd][i], a);
    ShadowPdePoints(wp, m[gpd][i], b);
  }

  lemma OldFresh(m: Mem, m': Mem, g: Guest, wp: bool, gpd: Word, dk: seq<Word>, du: seq<Word>, dk': seq<Word>,
      du': seq<Word>, n: int, avail: set<Word>, free: set<Word>, i: int, j: int)
    requires Built(m, g, wp, gpd, dk, du, n, avail, free) && Inside(g, gpd)
    requires Total(m') && |dk'| == |du'| == ENTRIES && 0 <= i < n && 0 <= j < ENTRIES
    requires dk'[USER_PD_START + i] == dk[USER_PD_START + i] && du'[USER_PD_START + i] == du[USER_PD_START + i]
    requires forall f :: f in m && (Inside(g, f) || f in avail - free) ==> f in m' && m'[f] == m[f]
    ensures Fresh(m', g, wp, gpd, dk', du', i, j)
  {
    hide Entry, ShadowPde, KernelPte, UserPte, Present, Base, TableAt, Points;
    var c := USER_PD_START + i;
    assert Fresh(m, g, wp, gpd, dk, du, i, j);
    assert dk[c] != BAD ==> Base(dk[c]) in Tables(dk);
    assert du[c] != BAD ==> Base(du[c]) in Tables(du);
    assert m'[gpd] == m[gpd];
    var pde := m[gpd][i];
    if Present(pde) {
      PointsAt(dk[c], wp, pde);
      PointsAt(du[c], wp, pde);
      var t := TableAt(g, pde);
      assert m'[t] == m[t];
      assert m'[Base(dk[c])] == m[Base(dk[c])] && m'[Base(du[c])] == m[Base(du[c])];
    }
    FreshFrame(m, m', g, wp, gpd, dk, du, dk', du', i, j);
  }

  // ----- counting -----

  /** How many of the first n entries are present. */
  function PresentCount(d: seq<Word>, n: nat): nat
    requires n <= |d|
  {
    if n == 0 then 0 else PresentCount(d, n - 1) + if Present(d[n - 1]) then 1 else 0
  }

  lemma {:induction false} CountMono(d: seq<Word>, a: nat, b: nat)
    requires a <= b <= |d|
    ensures PresentCount(d, a) <= PresentCount(d, b)
  {
    if a < b { CountMono(d, a, b - 1); }
  }
}
