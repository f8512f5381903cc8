/** Entries of two-level page tables: what the hardware makes of them, and what a shadow of a guest's entries holds. */
module PageEntries {

  const PAGE_SIZE := 0x1000

  type Word = w: int | 0 <= w < 0x1_0000_0000

  /** `BAD_PDE`, `BAD_PTE` */
  const BAD: Word := 0

  // ----- the fields of an entry; joining disjoint fields is adding them -----

  predicate Present(e: Word) { e % 2 != 0 }

  predicate Writable(e: Word) { e / 2 % 2 != 0 }

  predicate User(e: Word) { e / 4 % 2 != 0 }

  function Base(e: Word): Word { e - e % PAGE_SIZE }

  predicate Aligned(w: Word) { w % PAGE_SIZE == 0 }

  /** The bits that a shadow copies from a directory entry (`PDE_RESV_MASK`) and from a table entry
      (`PTE_RESV_MASK`). */
  function PdeResv(e: Word): Word { e / 0x100 % 0x10 * 0x100 }

  function PteResv(e: Word): Word { e / 0x200 % 0x8 * 0x200 }

  /** A present entry. */
  function Entry(base: Word, resv: Word, writable: bool, user: bool): Word
    requires Aligned(base) && resv % 0x100 == 0 && resv < PAGE_SIZE
  {
    base + resv + (if user then 4 else 0) + (if writable then 2 else 0) + 1
  }

  lemma Low(k: int, x: int)
    requires 0 <= x < 0x1000
    ensures (0x1000 * k + x) % 0x1000 == x
  {
  }

  lemma Even(m: int, flags: int)
    ensures (2 * m + flags) % 2 == flags % 2 && (2 * m + flags) / 2 == m + flags / 2
  {
  }

  lemma Fields(e: int, k: int, r: int, flags: int)
    requires e == 0x1000 * k + 0x100 * r + flags && 0 <= r < 0x10 && 0 <= flags < 8
    ensures e % 0x1000 == 0x100 * r + flags && e % 2 == flags % 2 && e / 2 % 2 == flags / 2 % 2
    ensures e / 4 % 2 == flags / 4 % 2
  {
    var m := 0x200 * k + 0x20 * r;
    Low(k, 0x100 * r + flags);
    Even(4 * m, flags);
    Even(2 * m, flags / 2);
    Even(m, flags / 4);
    assert e / 4 == e / 2 / 2 && flags / 4 == flags / 2 / 2;
  }

  lemma EntryFields(base: Word, resv: Word, writable: bool, user: bool)
    requires Aligned(base) && resv % 0x100 == 0 && resv < PAGE_SIZE
    ensures var e := Entry(base, resv, writable, user);
      Present(e) && (Writable(e) <==> writable) && (User(e) <==> user) && Base(e) == base && e != BAD
  {
    var flags := (if user then 4 else 0) + (if writable then 2 else 0) + 1;
    var e := Entry(base, resv, writable, user);
    Fields(e, base / 0x1000, resv / 0x100, flags);
    assert flags / 2 % 2 == (if writable then 1 else 0) && flags / 4 % 2 == (if user then 1 else 0);
  }

  /** The low bits of an entry: those copied, and the three flags below them. */
  lemma EntryLow(base: Word, resv: Word, writable: bool, user: bool)
    requires Aligned(base) && resv % 0x100 == 0 && resv < PAGE_SIZE
    ensures Entry(base, resv, writable, user) % 0x1000
      == resv + (if user then 4 else 0) + (if writable then 2 else 0) + 1
  {
    Low(base / 0x1000, resv + (if user then 4 else 0) + (if writable then 2 else 0) + 1);
  }

  lemma ResvFits(e: Word)
    ensures PteResv(e) % 0x100 == 0 && PteResv(e) < PAGE_SIZE && PdeResv(e) % 0x100 == 0 && PdeResv(e) < PAGE_SIZE
  {
  }

  /** A guest's memory: limit bytes of the host's, from base on; what lies beyond is sent to the frame at overflow,
      where the host has no memory. */
  datatype Guest = Guest(base: Word, limit: Word, overflow: Word)

  ghost predicate Placed(g: Guest) {
    Aligned(g.base) && Aligned(g.limit) && Aligned(g.overflow) && g.base + g.limit <= g.overflow
  }

  // ----- the hardware -----

  /** What an access with user rights meets: a fault or a frame (Intel SDM volume 3A, sections 4.3 and 4.6). */
  datatype Access = Fault | Maps(frame: Word, writable: bool, user: bool)

  function Walk(pde: Word, pte: Word): Access {
    if Present(pde) && Present(pte) then
      Maps(Base(pte), Writable(pde) && Writable(pte), User(pde) && User(pte))
    else Fault
  }

  // ----- the shadow -----

  /** The host frame that stands for the frame in a guest's entry. */
  function HostFrame(g: Guest, pte: Word): (f: Word)
    requires Placed(g)
    ensures Aligned(f)
  {
    if Base(pte) > g.limit then g.overflow else g.base + Base(pte)
  }

  /** The entry for the guest's kernel mode. */
  function KernelPte(g: Guest, wp: bool, pte: Word): Word
    requires Placed(g)
  {
    if Present(pte) then Entry(HostFrame(g, pte), PteResv(pte), !wp || Writable(pte), true) else BAD
  }

  /** The entry for the guest's user mode, as a full translation writes it, */
  function UserPte(g: Guest, pde: Word, pte: Word): Word
    requires Placed(g)
  {
    if Present(pte) && User(pte) && User(pde) then Entry(HostFrame(g, pte), PteResv(pte), Writable(pte), true) else BAD
  }

  /** and as the adjustment of one page does: without a look at the directory entry. */
  function AdjustedUserPte(g: Guest, pte: Word): Word
    requires Placed(g)
  {
    if Present(pte) && User(pte) then Entry(HostFrame(g, pte), PteResv(pte), Writable(pte), true) else BAD
  }

  /** The directory entry for a table of the shadow. */
  function ShadowPde(wp: bool, pde: Word, table: Word): Word
    requires Aligned(table)
  {
    Entry(table, PdeResv(pde), !wp || Writable(pde), true)
  }

  // ----- the bits that the walk does not read -----

  /** Of a shadow's table entry: bits 9 to 11, which software may use, are the guest entry's; bits 3 to 8, among them
      accessed, dirty and global, are 0. */
  predicate TableBits(e: Word, pte: Word) {
    e % 0x1000 / 0x200 == pte % 0x1000 / 0x200 && e % 0x200 / 8 == 0
  }

  /** Of a shadow's directory entry: bits 8 to 11 are the guest entry's, bits 3 to 7 are 0. */
  predicate DirectoryBits(e: Word, pde: Word) {
    e % 0x1000 / 0x100 == pde % 0x1000 / 0x100 && e % 0x100 / 8 == 0
  }

  lemma Low200(k: int, x: int)
    requires 0 <= x < 0x200
    ensures (0x200 * k + x) % 0x200 == x && (0x200 * k + x) / 0x200 == k
  {
  }

  lemma Low100(k: int, x: int)
    requires 0 <= x < 0x100
    ensures (0x100 * k + x) % 0x100 == x && (0x100 * k + x) / 0x100 == k
  {
  }

  lemma Octal(k: int, x: int)
    requires 0 <= x < 8
    ensures (8 * k + x) % 8 == x
  {
  }

  lemma Hex(k: int, x: int)
    requires 0 <= x < 0x10
    ensures (0x10 * k + x) % 0x10 == x
  {
  }

  /** A word cut above its low 12 bits, and these above the low 9 of them. */
  lemma Cut200(e: Word)
    ensures var low := e % 0x1000; e % 0x200 == low % 0x200 && e / 0x200 % 8 == low / 0x200 < 8
  {
    var q, low := e / 0x1000, e % 0x1000;
    var r, x := low / 0x200, low % 0x200;
    Low200(8 * q + r, x);
    Octal(q, r);
  }

  lemma Cut100(e: Word)
    ensures var low := e % 0x1000; e % 0x100 == low % 0x100 && e / 0x100 % 0x10 == low / 0x100 < 0x10
  {
    var q, low := e / 0x1000, e % 0x1000;
    var r, x := low / 0x100, low % 0x100;
    Low100(0x10 * q + r, x);
    Hex(q, r);
  }

  lemma TableMask(e: Word, flags: int, pte: Word)
    requires e % 0x1000 == PteResv(pte) + flags && 0 <= flags < 8
    ensures TableBits(e, pte)
  {
    Cut200(e);
    Cut200(pte);
    Low200(pte / 0x200 % 8, flags);
  }

  lemma DirectoryMask(e: Word, flags: int, pde: Word)
    requires e % 0x1000 == PdeResv(pde) + flags && 0 <= flags < 8
    ensures DirectoryBits(e, pde)
  {
    Cut100(e);
    Cut100(pde);
    Low100(pde / 0x100 % 0x10, flags);
  }

  /** What the three kinds of table entries have in common with the guest's; an absent entry is 0. */
  lemma TableEntryBits(g: Guest, wp: bool, pde: Word, pte: Word)
    requires Placed(g)
    ensures if Present(pte) then TableBits(KernelPte(g, wp, pte), pte) else KernelPte(g, wp, pte) == 0
    ensures if Present(pte) && User(pte) then TableBits(AdjustedUserPte(g, pte), pte) else AdjustedUserPte(g, pte) == 0
    ensures if Present(pte) && User(pte) && User(pde) then TableBits(UserPte(g, pde, pte), pte)
      else UserPte(g, pde, pte) == 0
  {
    var f, k, u := HostFrame(g, pte), !wp || Writable(pte), Writable(pte);
    EntryLow(f, PteResv(pte), k, true);
    EntryLow(f, PteResv(pte), u, true);
    TableMask(Entry(f, PteResv(pte), k, true), if k then 7 else 5, pte);
    TableMask(Entry(f, PteResv(pte), u, true), if u then 7 else 5, pte);
  }

  lemma DirectoryEntryBits(wp: bool, pde: Word, table: Word)
    requires Aligned(table)
    ensures DirectoryBits(ShadowPde(wp, pde, table), pde)
  {
    var w := !wp || Writable(pde);
    EntryLow(table, PdeResv(pde), w, true);
    DirectoryMask(ShadowPde(wp, pde, table), if w then 7 else 5, pde);
  }

  // ----- what the shadow means -----

  /** What the guest's own walk becomes in its kernel mode: every page it maps, writable as well when WP is off. */
  function KernelView(g: Guest, wp: bool, a: Access): Access
    requires Placed(g)
  {
    match a
    case Fault => Fault
    case Maps(frame, writable, _) => Maps(HostFrame(g, frame), writable || !wp, true)
  }

  /** In its user mode: only the pages both levels give to users. */
  function UserView(g: Guest, a: Access): Access
    requires Placed(g)
  {
    match a
    case Fault => Fault
    case Maps(frame, writable, user) => if user then Maps(HostFrame(g, frame), writable, true) else Fault
  }

  lemma FrameOfBase(g: Guest, pte: Word)
    requires Placed(g)
    ensures HostFrame(g, Base(pte)) == HostFrame(g, pte) && !Present(BAD)
  {
  }

  /** The kernel shadow means the guest's entries. */
  lemma KernelShadow(g: Guest, wp: bool, pde: Word, pte: Word, table: Word)
    requires Placed(g) && Present(pde) && Aligned(table)
    ensures Walk(ShadowPde(wp, pde, table), KernelPte(g, wp, pte)) == KernelView(g, wp, Walk(pde, pte))
  {
    EntryFields(table, PdeResv(pde), !wp || Writable(pde), true);
    EntryFields(HostFrame(g, pte), PteResv(pte), !wp || Writable(pte), true);
    FrameOfBase(g, pte);
  }

  /** The user shadow means them too, except that with WP off it forgets a directory entry's write protection. */
  lemma UserShadow(g: Guest, wp: bool, pde: Word, pte: Word, table: Word)
    requires Placed(g) && Present(pde) && Aligned(table)
    ensures var w, v := Walk(ShadowPde(wp, pde, table), UserPte(g, pde, pte)), UserView(g, Walk(pde, pte));
      && (w == v <==> wp || Writable(pde) || !Writable(pte) || v.Fault?)
      && (w.Fault? <==> v.Fault?)
      && (w.Maps? ==> w.user && w.frame == v.frame && (w.writable <==> Writable(pte) && (Writable(pde) || !wp)))
  {
    EntryFields(table, PdeResv(pde), !wp || Writable(pde), true);
    EntryFields(HostFrame(g, pte), PteResv(pte), Writable(pte), true);
    FrameOfBase(g, pte);
  }

  /** Adjusting a page gives what a full translation gives, unless the directory entry alone keeps users out. */
  lemma AdjustedAgrees(g: Guest, pde: Word, pte: Word)
    requires Placed(g)
    ensures AdjustedUserPte(g, pte) == UserPte(g, pde, pte) <==> User(pde) || !User(pte) || !Present(pte)
  {
    EntryFields(HostFrame(g, pte), PteResv(pte), Writable(pte), true);
  }

  /** Whether a frame lies in the guest's memory. */
  predicate Inside(g: Guest, frame: Word) {
    g.base <= frame < g.base + g.limit
  }

  /** A guest's page is mapped inside its memory exactly when its frame is below the limit; the frame at the limit is
      not sent to overflow but to the frame after the guest's memory. */
  lemma MappedInside(g: Guest, pte: Word)
    requires Placed(g)
    ensures Inside(g, HostFrame(g, pte)) <==> Base(pte) < g.limit
    ensures Base(pte) < g.limit ==> HostFrame(g, pte) == g.base + Base(pte)
    ensures HostFrame(g, pte) == g.base + Base(pte) || HostFrame(g, pte) == g.overflow
    ensures HostFrame(g, pte) == g.overflow <==> Base(pte) > g.limit || g.base + Base(pte) == g.overflow
  {
  }

  // ----- inputs at which the views differ -----

  /** A supervisor directory entry over a user page: only a full translation hides the page from users. */
  lemma SupervisorEntry(g: Guest)
    requires Placed(g)
    ensures AdjustedUserPte(g, 0x3007) != UserPte(g, 0x1003, 0x3007) == BAD
  {
    AdjustedAgrees(g, 0x1003, 0x3007);
  }

  /** A read-only directory entry over a writable user page, with WP off: the shadow lets users write. */
  lemma ReadOnlyEntry(g: Guest)
    requires Placed(g)
    ensures var w := Walk(ShadowPde(false, 0x1005, 0x8000), UserPte(g, 0x1005, 0x3007));
      var v := UserView(g, Walk(0x1005, 0x3007));
      w.Maps? && v.Maps? && w.writable && !v.writable
  {
    UserShadow(g, false, 0x1005, 0x3007, 0x8000);
  }

  /** A guest of three pages that maps its fourth one gets the host's page after its memory. */
  lemma PageAtLimit()
    ensures var g := Guest(0x10_0000, 0x3000, 0x80_0000);
      Placed(g) && HostFrame(g, 0x3007) == 0x10_3000 && !Inside(g, 0x10_3000) && HostFrame(g, 0x4007) == g.overflow
  {
  }
}
