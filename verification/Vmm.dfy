/** The page-table routines at work: tables in physical memory, updated
    in place, with frames from the page allocator. */
module Vmm {
  import opened Basics
  import opened Pmm
  import opened PageTables

  /** The flag bits of a mapping: the low twelve and the high twelve. */
  datatype Flags = Flags(low: nat, high: nat)
  {
    predicate Fits() { low < 0x1000 && high < 0x1000 }
    predicate Present() { low % 2 == 1 }
    predicate User() { low / 4 % 2 == 1 }
  }

  const KERNEL_FLAGS: Flags := Flags(3, 0)
  const NX: nat := 0x800

  /** The entry a mapping writes. */
  function LeafFor(frame: nat, flags: Flags): Pte { Pte(flags.low, frame % FRAMES, flags.high) }

  /** The entry for a new table. */
  function TableEntry(frame: nat, user: bool): Pte { Pte(if user then 7 else 3, frame, 0) }

  /** An entry as a 64-bit word. */
  function Word(e: Pte): nat { e.low + e.frame * 0x1000 + e.high * 0x10_0000_0000_0000 }

  /** The words are the physical address with the flags or-ed in: those of the call for a page; present,
      writable and, for user mappings, user for a table. */
  lemma EntryWords(frame: nat, flags: Flags, user: bool)
    requires frame < FRAMES
    ensures Word(LeafFor(frame, flags)) == frame * 0x1000 + flags.low + flags.high * 0x10_0000_0000_0000
    ensures Word(TableEntry(frame, user)) == frame * 0x1000 + 0x1 + 0x2 + if user then 0x4 else 0
    ensures LeafFor(frame, flags).User() == flags.User() && LeafFor(frame, flags).Present() == flags.Present()
  {
  }

  /** Table frames are allocated, and pinned exactly when they are the kernel's; whatever is
      pinned is allocated. */
  ghost predicate Backed(owner: map<nat, Role>, kernel: nat, f: Frames) {
    && f.Valid()
    && (forall p :: 0 <= p < |f.used| && f.pinned[p] ==> f.used[p])
    && forall t :: t in owner ==> 0 < t < |f.used| && f.used[t] && (f.pinned[t] <==> owner[t].space == kernel)
  }

  /** Tables are only added, each on a page that was free; nothing else changes hands. */
  ghost predicate Grown(o: map<nat, Role>, f: Frames, o': map<nat, Role>, f': Frames) {
    && |f.used| == |f.pinned| == |f'.used| == |f'.pinned|
    && (forall t :: t in o ==> t in o' && o'[t] == o[t])
    && (forall t :: t in o' && t !in o ==> o'[t].path != [] && t < |f.used| && !f.used[t])
    && forall p :: 0 <= p < |f.used| ==>
         && f'.used[p] == (f.used[p] || (p in o' && p !in o))
         && (p in o || p !in o' ==> f'.pinned[p] == f.pinned[p])
  }

  /** Pages in use stay in use, pinned or not as before; new tables lie on pages that were free. */
  ghost predicate UsedKept(o: map<nat, Role>, f: Frames, o': map<nat, Role>, f': Frames) {
    && |f.used| == |f.pinned| == |f'.used| == |f'.pinned|
    && (forall t :: t in o' && t !in o ==> t < |f.used| && !f.used[t])
    && forall p :: 0 <= p < |f.used| && f.used[p] ==> f'.used[p] && f'.pinned[p] == f.pinned[p]
  }

  lemma GrownKept(o: map<nat, Role>, f: Frames, o': map<nat, Role>, f': Frames)
    requires Grown(o, f, o', f')
    ensures UsedKept(o, f, o', f')
  {
    forall p | 0 <= p < |f.used| && f.used[p] ensures f'.used[p] && f'.pinned[p] == f.pinned[p] {
      assert p in o || p !in o';
    }
  }

  lemma UsedKeptTwice(o: map<nat, Role>, f: Frames, o1: map<nat, Role>, f1: Frames, o2: map<nat, Role>, f2: Frames)
    requires UsedKept(o, f, o1, f1) && UsedKept(o1, f1, o2, f2)
    ensures UsedKept(o, f, o2, f2)
  {
  }

  lemma GrownSelf(o: map<nat, Role>, f: Frames)
    requires f.Valid()
    ensures Grown(o, f, o, f)
  {
  }

  /** Growing adds tables, not spaces. */
  lemma GrownSpaces(o: map<nat, Role>, f: Frames, o': map<nat, Role>, f': Frames)
    requires Grown(o, f, o', f')
    ensures forall t :: t in o ==> t in o' && o'[t] == o[t]
    ensures forall r :: IsSpace(o', r) <==> IsSpace(o, r)
  {
  }

  lemma GrownTwice(o: map<nat, Role>, f: Frames, o1: map<nat, Role>, f1: Frames, o2: map<nat, Role>, f2: Frames)
    requires Grown(o, f, o1, f1) && Grown(o1, f1, o2, f2)
    ensures Grown(o, f, o2, f2)
  {
  }

  /** The books after a table was put on a free page. */
  lemma TableBooked(o: map<nat, Role>, kernel: nat, f: Frames, p: nat, r: Role)
    requires Backed(o, kernel, f) && f.Free(p) && r.path != []
    ensures p !in o
    ensures var f' := if r.space == kernel then Pin(Take(f, p, 1), p) else Take(f, p, 1);
            Backed(o[p := r], kernel, f') && Grown(o, f, o[p := r], f')
  {
  }

  /** Space `root'` sees what space `root` maps at page `q`: it is the same space, or the page
      lies in the kernel half and the space has the slot. */
  ghost predicate Sees(mem: Memory, root: nat, root': nat, q: Path)
    requires IsPage(q)
  {
    root' == root || (256 <= q[0] && Reach(mem, root', q[..1]).Some?)
  }

  /** In the spaces of `o`, exactly page `q` of `root` (and of those that see it) is now
      translated by `e`; every other translation is as before. */
  ghost predicate PageSet(m: Memory, m': Memory, o: map<nat, Role>, kernel: nat, root: nat, q: Path, e: Pte)
    requires IsPage(q)
  {
    forall r, p :: IsSpace(o, r) && IsPage(p) ==>
      Leaf(m', r, p) == if p == q && Sees(m', root, r, q) then (if e.Present() then Some(e) else None) else Leaf(m, r, p)
  }

  /** Below slot 256 the space maps pages to themselves only. */
  ghost predicate Identity(mem: Memory, root: nat) {
    forall q :: IsPage(q) && q[0] < 256 && Leaf(mem, root, q).Some? ==> Leaf(mem, root, q).value.frame == NumberOf(q)
  }

  /** Only `root` changed, and only by mapping more pages below slot 256. */
  ghost predicate OnlyMore(m: Memory, m': Memory, o: map<nat, Role>, root: nat) {
    forall r, q :: IsSpace(o, r) && IsPage(q) ==>
      if r == root && q[0] < 256 then (Leaf(m, r, q).Some? ==> Leaf(m', r, q).Some?) else Leaf(m', r, q) == Leaf(m, r, q)
  }

  lemma OnlyMoreSelf(m: Memory, o: map<nat, Role>, root: nat)
    ensures OnlyMore(m, m, o, root)
  {
  }

  lemma OnlyMoreTwice(m: Memory, m1: Memory, m2: Memory, o: map<nat, Role>, o1: map<nat, Role>, root: nat)
    requires OnlyMore(m, m1, o, root) && OnlyMore(m1, m2, o1, root) && forall t :: t in o ==> t in o1 && o1[t] == o[t]
    ensures OnlyMore(m, m2, o, root)
  {
    hide Leaf;
  }

  lemma IdentitySet(m: Memory, m': Memory, o: map<nat, Role>, kernel: nat, root: nat, n: nat, flags: Flags)
    requires PageSet(m, m', o, kernel, root, PathOf(n), LeafFor(n, flags)) && n < 0x8_0000_0000 && flags.Present()
    requires IsSpace(o, root) && Identity(m, root)
    ensures Identity(m', root) && OnlyMore(m, m', o, root) && Translate(m', root, PathOf(n)) == Some(n)
  {
    hide Leaf, PathOf;
    NumberOfPath(n);
    assert Leaf(m', root, PathOf(n)) == Some(LeafFor(n, flags));
  }

  /** Below slot 256 no page of the space is open to user code. */
  ghost predicate KernelOnly(mem: Memory, root: nat) {
    forall q :: IsPage(q) && q[0] < 256 && Leaf(mem, root, q).Some? ==> !Leaf(mem, root, q).value.User()
  }

  lemma KernelOnlySet(m: Memory, m': Memory, o: map<nat, Role>, kernel: nat, root: nat, n: nat, flags: Flags)
    requires PageSet(m, m', o, kernel, root, PathOf(n), LeafFor(n, flags)) && !flags.User() && IsSpace(o, root) && KernelOnly(m, root)
    ensures KernelOnly(m', root)
  {
    hide Leaf, PathOf;
  }

  lemma KernelOnlyKept(m: Memory, m': Memory, o: map<nat, Role>, root: nat)
    requires SameViews(m, m', o) && IsSpace(o, root) && KernelOnly(m, root)
    ensures KernelOnly(m', root)
  {
    hide Leaf;
  }

  lemma EmptyWay(mem: Memory, root: nat)
    ensures UserWay(mem, root, [])
  {
  }

  /** The way to a table after more entries were opened. */
  lemma WayAfter(m: Memory, m': Memory, o: map<nat, Role>, kernel: nat, user: bool, root: nat, path: Path)
    requires Tree(m, o, kernel) && IsSpace(o, root) && |path| <= 3 && Ways(m, m', o, o, user) && Reach(m, root, path).Some?
    ensures UserWay(m, root, path) ==> UserWay(m', root, path)
  {
    hide Tree, WaysKept, UserWay, Reach;
    WayKept(m, m', o, kernel, user, root, path);
  }

  /** A page mapped with VMM_USER can be used by user code once the way to its table can. */
  lemma UserLeaf(m: Memory, m': Memory, o: map<nat, Role>, kernel: nat, root: nat, q: Path, frame: nat, flags: Flags)
    requires IsPage(q) && IsSpace(o, root) && PageSet(m, m', o, kernel, root, q, LeafFor(frame, flags))
    requires flags.User() ==> UserWay(m', root, q[..3])
    ensures flags.Present() && flags.User() ==> UserWalk(m', root, q)
  {
    hide Leaf, UserWay;
    assert Sees(m', root, root, q);
    if flags.Present() { assert Leaf(m', root, q) == Some(LeafFor(frame, flags)); }
  }

  lemma IdentityKept(m: Memory, m': Memory, o: map<nat, Role>, root: nat)
    requires SameViews(m, m', o) && IsSpace(o, root) && Identity(m, root)
    ensures Identity(m', root) && OnlyMore(m, m', o, root)
  {
    hide Leaf;
  }

  /** Pages `a` up to `b` are mapped to themselves. */
  ghost predicate MapsSelf(mem: Memory, root: nat, a: nat, b: nat) {
    forall n: nat :: a <= n < b ==> Translate(mem, root, PathOf(n)) == Some(n)
  }

  /** Pages `a` up to `b` are mapped to themselves with these flags. */
  ghost predicate MapsAs(mem: Memory, root: nat, a: nat, b: nat, flags: Flags) {
    forall n: nat :: a <= n < b ==> Leaf(mem, root, PathOf(n)) == Some(LeafFor(n, flags))
  }

  /** Below slot 256 nothing but pages `a` up to `b` of `root` changed. */
  ghost predicate OnlyRange(m: Memory, m': Memory, root: nat, a: nat, b: nat) {
    forall q :: IsPage(q) && q[0] < 256 && !(a <= NumberOf(q) < b) ==> Leaf(m', root, q) == Leaf(m, root, q)
  }

  lemma NoRange(m: Memory, root: nat, a: nat, flags: Flags)
    ensures MapsAs(m, root, a, a, flags) && OnlyRange(m, m, root, a, a)
  {
  }

  /** One page of a range. */
  lemma RangeSet(m: Memory, m': Memory, o: map<nat, Role>, kernel: nat, root: nat, n: nat, flags: Flags)
    requires n < 0x8_0000_0000 && IsSpace(o, root) && PageSet(m, m', o, kernel, root, PathOf(n), LeafFor(n, flags)) && flags.Present()
    ensures OnlyRange(m, m', root, n, n + 1) && Leaf(m', root, PathOf(n)) == Some(LeafFor(n, flags))
  {
    hide Leaf, PathOf;
    assert Sees(m', root, root, PathOf(n));
    NumberOfPath(n);
  }

  /** A page that could not be mapped. */
  lemma RangeKept(m: Memory, m': Memory, o: map<nat, Role>, root: nat, n: nat)
    requires IsSpace(o, root) && SameViews(m, m', o)
    ensures OnlyRange(m, m', root, n, n + 1)
  {
    hide Leaf;
  }

  /** A range and the page behind it. */
  lemma RangeMore(m0: Memory, m: Memory, m': Memory, root: nat, a: nat, n: nat, flags: Flags, ok: bool)
    requires OnlyRange(m0, m, root, a, n) && OnlyRange(m, m', root, n, n + 1) && a <= n < 0x8_0000_0000
    requires ok ==> MapsAs(m, root, a, n, flags) && Leaf(m', root, PathOf(n)) == Some(LeafFor(n, flags))
    ensures OnlyRange(m0, m', root, a, n + 1) && (ok ==> MapsAs(m', root, a, n + 1, flags))
  {
    hide Leaf, PathOf;
    forall k: nat | a <= k < n + 1 && ok ensures Leaf(m', root, PathOf(k)) == Some(LeafFor(k, flags)) { NumberOfPath(k); }
  }

  /** The flags of the identity mappings every process gets: the kernel's, and no execution in the frame
      buffer and the device range. */
  ghost predicate LowFlags(mem: Memory, root: nat, imageStart: nat, imagePages: nat, fbStart: nat, fbPages: nat) {
    forall n: nat :: n < 0x100 || imageStart <= n < imageStart + imagePages || fbStart <= n < fbStart + fbPages || 0xF_0000 <= n < 0x10_0000 ==>
      Leaf(mem, root, PathOf(n)) ==
        Some(LeafFor(n, if fbStart <= n < fbStart + fbPages || 0xF_0000 <= n < 0x10_0000 then KERNEL_FLAGS.(high := NX) else KERNEL_FLAGS))
  }

  /** Low memory, the kernel image, the frame buffer and the device range are mapped to themselves. */
  ghost predicate LowMapped(mem: Memory, root: nat, imageStart: nat, imagePages: nat, fbStart: nat, fbPages: nat) {
    && MapsSelf(mem, root, 0, 0x100) && MapsSelf(mem, root, imageStart, imageStart + imagePages)
    && MapsSelf(mem, root, fbStart, fbStart + fbPages) && MapsSelf(mem, root, 0xF_0000, 0x10_0000)
    && LowFlags(mem, root, imageStart, imagePages, fbStart, fbPages)
  }

  lemma LowFlagsAre(m1: Memory, m2: Memory, m3: Memory, m4: Memory, root: nat, imageStart: nat, imagePages: nat, fbStart: nat, fbPages: nat)
    requires imageStart + imagePages <= 0x8_0000_0000 && fbStart + fbPages <= 0x8_0000_0000
    requires MapsAs(m1, root, 0, 0x100, KERNEL_FLAGS) && MapsAs(m2, root, imageStart, imageStart + imagePages, KERNEL_FLAGS)
    requires MapsAs(m3, root, fbStart, fbStart + fbPages, KERNEL_FLAGS.(high := NX)) && MapsAs(m4, root, 0xF_0000, 0x10_0000, KERNEL_FLAGS.(high := NX))
    requires OnlyRange(m1, m2, root, imageStart, imageStart + imagePages) && OnlyRange(m2, m3, root, fbStart, fbStart + fbPages)
    requires OnlyRange(m3, m4, root, 0xF_0000, 0x10_0000)
    ensures LowFlags(m4, root, imageStart, imagePages, fbStart, fbPages)
  {
    hide Leaf, PathOf;
    forall n: nat | n < 0x100 || imageStart <= n < imageStart + imagePages || fbStart <= n < fbStart + fbPages || 0xF_0000 <= n < 0x10_0000
      ensures Leaf(m4, root, PathOf(n)) ==
        Some(LeafFor(n, if fbStart <= n < fbStart + fbPages || 0xF_0000 <= n < 0x10_0000 then KERNEL_FLAGS.(high := NX) else KERNEL_FLAGS))
    {
      NumberOfPath(n);
    }
  }

  /** Pages mapped to themselves stay so. */
  lemma KeptTranslations(m: Memory, m': Memory, o: map<nat, Role>, root: nat, a: nat, b: nat)
    requires IsSpace(o, root) && OnlyMore(m, m', o, root) && Identity(m', root) && b <= 0x8_0000_0000 && MapsSelf(m, root, a, b)
    ensures MapsSelf(m', root, a, b)
  {
    hide Leaf, PathOf;
    forall n: nat | a <= n < b ensures Translate(m', root, PathOf(n)) == Some(n) {
      NumberOfPath(n);
      assert Translate(m, root, PathOf(n)).Some?;
    }
  }

  /** Pages were mapped below slot 256 of `root`, on tables made for the kernel only. */
  ghost predicate More(root: nat, m: Memory, o: map<nat, Role>, f: Frames, m': Memory, o': map<nat, Role>, f': Frames) {
    Grown(o, f, o', f') && OnlyMore(m, m', o, root) && ReachKept(m, m', o) && Ways(m, m', o, o', false)
  }

  lemma MoreMapped(root: nat, m: Memory, o: map<nat, Role>, f: Frames, m': Memory, o': map<nat, Role>, f': Frames)
    requires Grown(o, f, o', f') && OnlyMore(m, m', o, root) && ReachKept(m, m', o) && Ways(m, m', o, o', false)
    ensures More(root, m, o, f, m', o', f')
    ensures forall r :: IsSpace(o', r) <==> IsSpace(o, r)
    ensures forall p :: 0 <= p < |f.used| && f.used[p] ==> f'.used[p]
    ensures |f'.used| == |f.used|
  {
    hide OnlyMore, ReachKept, Ways;
    GrownSpaces(o, f, o', f');
    FullStays(o, f, o', f');
  }

  lemma MoreTwice(root: nat, m: Memory, o: map<nat, Role>, f: Frames, m1: Memory, o1: map<nat, Role>, f1: Frames,
                  m2: Memory, o2: map<nat, Role>, f2: Frames)
    requires More(root, m, o, f, m1, o1, f1) && More(root, m1, o1, f1, m2, o2, f2)
    ensures More(root, m, o, f, m2, o2, f2) && OnlyMore(m, m2, o, root) && OnlyMore(m1, m2, o1, root)
    ensures Grown(o, f, o2, f2) && ReachKept(m, m2, o) && Ways(m, m2, o, o2, false)
  {
    hide OnlyMore, ReachKept, Ways, Grown;
    GrownSpaces(o, f, o1, f1);
    GrownSpaces(o1, f1, o2, f2);
    GrownTwice(o, f, o1, f1, o2, f2);
    OnlyMoreTwice(m, m1, m2, o, o1, root);
    ReachKeptTwice(m, m1, m2, o, o1);
    WaysTwice(m, m1, m2, o, o1, o2, false);
  }

  lemma NoneMapped(m: Memory, root: nat, a: nat)
    ensures MapsSelf(m, root, a, a)
  {
  }

  lemma OneMoreSelf(m: Memory, root: nat, a: nat, b: nat)
    requires MapsSelf(m, root, a, b) && Translate(m, root, PathOf(b)) == Some(b)
    ensures MapsSelf(m, root, a, b + 1)
  {
  }

  lemma FreeIsNoTable(o: map<nat, Role>, kernel: nat, f: Frames, p: nat)
    requires Backed(o, kernel, f) && f.Free(p)
    ensures p !in o
  {
  }

  lemma KernelSpace(m: Memory, o: map<nat, Role>, kernel: nat)
    requires Tree(m, o, kernel)
    ensures IsSpace(o, kernel)
  {
  }

  lemma KernelViewKept(m: Memory, m': Memory, o: map<nat, Role>, kernel: nat)
    requires SameViews(m, m', o) && IsSpace(o, kernel)
    ensures forall q :: IsPage(q) ==> Leaf(m', kernel, q) == Leaf(m, kernel, q)
  {
    hide Leaf;
  }

  /** From slot 256 on the space is the kernel's. */
  ghost predicate SharesUpper(mem: Memory, kernel: nat, root: nat) {
    forall q :: IsPage(q) && q[0] >= 256 ==> Leaf(mem, root, q) == Leaf(mem, kernel, q)
  }

  /** The slots the kernel had in `m` lead to the same tables from `root` in `m'`. */
  ghost predicate SlotsTaken(m: Memory, m': Memory, kernel: nat, root: nat) {
    forall i: nat :: 256 <= i < ENTRIES && Reach(m, kernel, [i]).Some? ==> Reach(m', root, [i]) == Reach(m, kernel, [i])
  }

  /** Opening a space and mapping into its lower half, seen by all spaces. */
  lemma OpenedOnly(m: Memory, m1: Memory, m2: Memory, o: map<nat, Role>, o1: map<nat, Role>, kernel: nat, root: nat)
    requires SameViews(m, m1, o) && OnlyMore(m1, m2, o1, root) && root !in o && o1 == o[root := Role(root, [])] && IsSpace(o, kernel)
    requires forall q :: IsPage(q) ==> Leaf(m1, root, q) == if q[0] < 256 then None else Leaf(m1, kernel, q)
    ensures SameViews(m, m2, o)
    ensures forall q :: IsPage(q) && q[0] >= 256 ==> Leaf(m2, root, q) == Leaf(m2, kernel, q)
  {
    hide Leaf;
    assert IsSpace(o1, root) && IsSpace(o1, kernel);
    forall r, q | IsSpace(o, r) && IsPage(q) ensures Leaf(m2, r, q) == Leaf(m, r, q) {
      assert IsSpace(o1, r);
    }
  }

  lemma FullStays(o: map<nat, Role>, f: Frames, o': map<nat, Role>, f': Frames)
    requires Grown(o, f, o', f')
    ensures forall p :: 0 <= p < |f.used| && f.used[p] ==> f'.used[p]
  {
  }

  /** One table entry serves exactly the spaces that see the page. */
  lemma OnePageSet(m: Memory, m': Memory, o: map<nat, Role>, o': map<nat, Role>, kernel: nat, root: nat, q: Path, pt: nat, e: Pte)
    requires Tree(m', o', kernel) && IsSpace(o', root) && IsPage(q) && Reach(m', root, q[..3]) == Some(pt)
    requires forall t :: t in o ==> t in o' && o'[t] == o[t]
    requires forall r, p :: IsSpace(o, r) && IsPage(p) ==>
               Leaf(m', r, p) == if UsesEntry(m', r, p, pt, q[3]) then (if e.Present() then Some(e) else None) else Leaf(m, r, p)
    ensures PageSet(m, m', o, kernel, root, q, e)
  {
    hide Tree, Reach, Leaf;
    forall r, p | IsSpace(o, r) && IsPage(p) ensures UsesEntry(m', r, p, pt, q[3]) <==> p == q && Sees(m', root, r, q) {
      if UsesEntry(m', r, p, pt, q[3]) {
        PrivateEntry(m', o', kernel, root, q, r, p, pt, q[3]);
        ReachDown(m', r, q);
      }
      if p == q && r != root && Sees(m', root, r, q) {
        ReachDown(m', root, q);
        assert q[..3][..1] == q[..1];
        SharedReach(m', o', kernel, r, q[..3]);
        SharedReach(m', o', kernel, root, q[..3]);
      }
    }
  }

  /** A walk that gets to the third table got to the first. */
  lemma ReachDown(mem: Memory, root: nat, q: Path)
    requires IsPage(q) && Reach(mem, root, q[..3]).Some?
    ensures Reach(mem, root, q[..1]).Some?
  {
    hide Reach;
    PathPrefixes(q);
    ReachSnoc(mem, root, q[..2], q[2]);
    ReachSnoc(mem, root, q[..1], q[1]);
  }

  // ---- the routines ----------------------------------------------------------

  class AddressSpaces {
    const pmm: PageAllocator
    const kernel: nat                     // frame of g_kernel_pml4
    var mem: Memory
    ghost var owner: map<nat, Role>

    /** Table frames form owned trees; they are allocated, and pinned exactly when they
        are the kernel's. */
    ghost predicate Valid()
      reads this, pmm, pmm.used, pmm.pinned
    {
      && pmm.Valid() && |mem| == pmm.highest <= FRAMES && Tree(mem, owner, kernel)
      && Backed(owner, kernel, pmm.State())
    }

    /** The head of VmmInit: an empty, pinned top table for the kernel. */
    constructor (allocator: PageAllocator, memory: Memory)
      requires allocator.Valid() && |memory| == allocator.highest <= FRAMES
      requires exists p :: 0 < p < allocator.highest && !allocator.used[p]
      requires forall p :: 0 <= p < allocator.highest ==> !allocator.pinned[p]
      modifies allocator`usedPages, allocator.used, allocator.pinned
      ensures Valid() && pmm == allocator && owner == map[kernel := Role(kernel, [])]
      ensures forall q :: IsPage(q) ==> Leaf(mem, kernel, q) == None
    {
      var top := allocator.AllocPage();
      allocator.PinPage(top);
      pmm, kernel, mem := allocator, top, memory[top := NoEntries()];
      owner := map[top := Role(top, [])];
      new;
      EmptyKernel(mem, kernel);
    }

    /** GetNextLevel: the table below entry `index`, made if there is none; 0 when no
        frame is left. */
    method GetNextLevel(level: nat, index: nat, user: bool, pin: bool) returns (next: nat)
      requires Valid() && level in owner && index < ENTRIES && |owner[level].path| < 3
      requires mem[level][index].Present() ||
               (SpaceOf(kernel, owner[level].space, owner[level].path + [index]) == owner[level].space
                && pin == (owner[level].space == kernel))
      modifies this`mem, this`owner, pmm`usedPages, pmm.used, pmm.pinned
      ensures Valid() && Grown(old(owner), old(pmm.State()), owner, pmm.State()) && SameViews(old(mem), mem, old(owner))
      ensures ReachKept(old(mem), mem, old(owner))
      ensures next == 0 <==> !old(mem[level][index].Present()) && forall i :: 0 <= i < pmm.highest ==> old(pmm.used[i])
      ensures next == 0 ==> mem == old(mem) && owner == old(owner) && pmm.State() == old(pmm.State())
      ensures next != 0 ==>
                && next in owner && mem[level][index].Present() && mem[level][index].frame == next
                && owner[next] == Role(SpaceOf(kernel, old(owner[level]).space, old(owner[level]).path + [index]), old(owner[level]).path + [index])
      ensures forall t :: t in old(owner) && t != level && t < |mem| ==> mem[t] == old(mem[t])
      ensures Ways(old(mem), mem, old(owner), owner, user) && (next != 0 && user ==> mem[level][index].User())
    {
      hide Tree, SameViews, ReachKept, Reach, EntryOk, WithUser, Backed, Grown, Count, Ways;
      WaysSelf(mem, owner, user);
      ReachKeptSelf(mem, owner);
      RoleAt(mem, owner, kernel, level, index);
      SameViewsSelf(mem, owner);
      BackedValid(owner, kernel, pmm.State());
      GrownSelf(owner, pmm.State());
      var e := mem[level][index];
      if e.Present() {
        WithUserIs(e);
        EntryChild(owner, kernel, owner[level], e, index);
        BackedTable(owner, kernel, pmm.State(), e.frame);
        if user {
          UserSet(mem, owner, kernel, level, index);
          UserOpens(mem, owner, level, index);
          mem := Write(mem, level, index, WithUser(e));
        }
        return e.frame;
      }
      next := NewTable(level, index, user, pin);
    }

    /** An empty table on a fresh frame, hung into a free entry. */
    method NewTable(level: nat, index: nat, user: bool, pin: bool) returns (next: nat)
      requires Valid() && level in owner && index < ENTRIES && |owner[level].path| < 3 && !mem[level][index].Present()
      requires SpaceOf(kernel, owner[level].space, owner[level].path + [index]) == owner[level].space
      requires pin == (owner[level].space == kernel)
      modifies this`mem, this`owner, pmm`usedPages, pmm.used, pmm.pinned
      ensures Valid() && Grown(old(owner), old(pmm.State()), owner, pmm.State()) && SameViews(old(mem), mem, old(owner))
      ensures ReachKept(old(mem), mem, old(owner))
      ensures next == 0 <==> forall i :: 0 <= i < pmm.highest ==> old(pmm.used[i])
      ensures next == 0 ==> mem == old(mem) && owner == old(owner) && pmm.State() == old(pmm.State())
      ensures next != 0 ==>
                && next in owner && mem[level][index].Present() && mem[level][index].frame == next
                && owner[next] == Below(old(owner)[level], index)
      ensures forall t :: t in old(owner) && t != level && t < |mem| ==> mem[t] == old(mem[t])
      ensures Ways(old(mem), mem, old(owner), owner, user)
      ensures next != 0 ==> mem[level][index].Writable() && (mem[level][index].User() <==> user)
    {
      hide Tree, SameViews, ReachKept, Reach, EntryOk, Count, Backed, Grown, Take, Ways;
      WaysSelf(mem, owner, user);
      ReachKeptSelf(mem, owner);
      ghost var m0, o0, f0 := mem, owner, pmm.State();
      SameViewsSelf(mem, owner);
      BackedValid(o0, kernel, f0);
      GrownSelf(o0, f0);
      RoleAt(mem, owner, kernel, level, index);
      next := pmm.AllocPage();
      if next == 0 { return; }
      TableBooked(o0, kernel, f0, next, Below(owner[level], index));
      HangOpens(mem, owner, level, index, TableEntry(next, user), user);
      mem := mem[next := NoEntries()];
      Hung(m0, o0, level, index, next, user);
      mem := Write(mem, level, index, TableEntry(next, user));
      owner := owner[next := Below(owner[level], index)];
      if pin {
        pmm.PinPage(next);
      }
    }

    lemma Hung(m0: Memory, o: map<nat, Role>, level: nat, index: nat, next: nat, user: bool)
      requires Tree(m0, o, kernel) && level in o && index < ENTRIES && |o[level].path| < 3
      requires level < |m0| && !m0[level][index].Present() && next < |m0| <= FRAMES && next !in o
      requires SpaceOf(kernel, o[level].space, o[level].path + [index]) == o[level].space
      ensures var mem' := Write(m0[next := NoEntries()], level, index, TableEntry(next, user));
              Tree(mem', o[next := Below(o[level], index)], kernel) && SameViews(m0, mem', o) && ReachKept(m0, mem', o)
    {
      hide Tree, SameViews, ReachKept, Reach, EntryOk;
      var m1 := m0[next := NoEntries()];
      Outside(m0, m1, o, kernel);
      Linked(m1, o, kernel, level, index, TableEntry(next, user));
      ReachKeptTwice(m0, m1, Write(m1, level, index, TableEntry(next, user)), o, o);
      SameViewsTwice(m0, m1, Write(m1, level, index, TableEntry(next, user)), o, o);
    }

    /** The levels of VmmMapPage above the last: the page table for a page, made where
        missing. Running out of frames changes no translation. */
    method TableFor(root: nat, n: nat, user: bool, pin: bool) returns (pt: nat)
      requires Valid() && IsSpace(owner, root) && pin == (root == kernel) && (root == kernel || PathOf(n)[0] < 256)
      modifies this`mem, this`owner, pmm`usedPages, pmm.used, pmm.pinned
      ensures Valid() && Extended(root, old(mem), old(owner), old(pmm.State()), mem, owner, pmm.State())
      ensures pt != 0 ==>
                && pt in owner && owner[pt] == Role(root, PathOf(n)[..3]) && Reach(mem, root, PathOf(n)[..3]) == Some(pt)
      ensures pt == 0 ==> Leaf(mem, root, PathOf(n)) == None && forall p :: 0 <= p < pmm.highest ==> pmm.used[p]
      ensures Ways(old(mem), mem, old(owner), owner, user) && (pt != 0 && user ==> UserWay(mem, root, PathOf(n)[..3]))
    {
      hide Tree, Reach, EntryOk, Backed, Grown, PathOf, Leaf, Extended, SameViews, ReachKept, Ways, UserWay;
      WaysSelf(mem, owner, user);
      EmptyWay(mem, root);
      ghost var q, m0, o0, f0 := PathOf(n), mem, owner, pmm.State();
      var i4, i3, i2 := n / 0x800_0000 % ENTRIES, n / 0x4_0000 % ENTRIES, n / 0x200 % ENTRIES;
      Indices(n, i4, i3, i2);
      ExtendedSelf(root, mem, owner, pmm.State(), kernel);
      assert q[..0] == [];
      pt := Descend(root, root, i4, user, pin, q, 0, m0, o0, f0);
      if pt == 0 { return; }
      pt := Descend(root, pt, i3, user, pin, q, 1, m0, o0, f0);
      if pt == 0 { return; }
      pt := Descend(root, pt, i2, user, pin, q, 2, m0, o0, f0);
      if pt == 0 { return; }
      OwnedReach(mem, owner, kernel, pt);
    }

    /** VmmMapPage. The page, and every page served by the same entry, is translated to the
        frame; without frames for the tables no translation changes. */
    method MapPage(root: nat, n: nat, frame: nat, flags: Flags) returns (ghost ok: bool)
      requires Valid() && IsSpace(owner, root) && (root == kernel || PathOf(n)[0] < 256) && flags.Fits()
      modifies this`mem, this`owner, pmm`usedPages, pmm.used, pmm.pinned
      ensures Valid() && Grown(old(owner), old(pmm.State()), owner, pmm.State()) && |mem| == old(|mem|)
      ensures forall r :: IsSpace(owner, r) <==> IsSpace(old(owner), r)
      ensures !ok ==> SameViews(old(mem), mem, old(owner)) && forall p :: 0 <= p < pmm.highest ==> pmm.used[p]
      ensures !ok ==> Leaf(mem, root, PathOf(n)) == None
      ensures ok ==> PageSet(old(mem), mem, old(owner), kernel, root, PathOf(n), LeafFor(frame, flags))
      ensures forall t :: t in old(owner) && old(owner)[t].space != root && t < |mem| ==> mem[t] == old(mem[t])
      ensures ReachKept(old(mem), mem, old(owner)) && Ways(old(mem), mem, old(owner), owner, flags.User())
      ensures ok && flags.Present() && flags.User() ==> UserWalk(mem, root, PathOf(n))
    {
      hide Tree, Reach, EntryOk, Backed, Grown, PathOf, Leaf, ReachKept, Ways, UserWay;
      var pin := root == kernel;
      ghost var o, f := owner, pmm.State();
      var pt := TableFor(root, n, flags.User(), pin);
      GrownSpaces(o, f, owner, pmm.State());
      if pt == 0 { return false; }
      ok := true;
      var d := n % ENTRIES;
      LastIndex(n, d);
      RoleAt(mem, owner, kernel, pt, d);
      ghost var m1 := mem;
      LeafWritten(mem, owner, kernel, pt, d, LeafFor(frame, flags));
      LeafReach(mem, owner, kernel, pt, d, LeafFor(frame, flags), root, PathOf(n)[..3]);
      LeafOpens(mem, owner, pt, d, LeafFor(frame, flags), flags.User());
      WayAfter(mem, Write(mem, pt, d, LeafFor(frame, flags)), owner, kernel, flags.User(), root, PathOf(n)[..3]);
      mem := Write(mem, pt, d, LeafFor(frame, flags));
      OneEntryAfter(old(mem), m1, mem, old(owner), owner, kernel, pt, d, LeafFor(frame, flags));
      ReachKeptTwice(old(mem), m1, mem, old(owner), owner);
      OnePageSet(old(mem), mem, old(owner), owner, kernel, root, PathOf(n), pt, LeafFor(frame, flags));
      WaysTwice(old(mem), m1, mem, old(owner), owner, owner, flags.User());
      UserLeaf(old(mem), mem, o, kernel, root, PathOf(n), frame, flags);
    }

    /** VmmGetPhysical of the address with page number `n` and offset `off`. */
    method GetPhysical(root: nat, n: nat, off: nat) returns (phys: nat)
      requires Valid() && IsSpace(owner, root) && off < 0x1000
      ensures phys == match Translate(mem, root, PathOf(n)) case None => 0 case Some(f) => f * 0x1000 + off
    {
      hide Tree, Reach, EntryOk, Backed, PathOf;
      ghost var q := PathOf(n);
      var i4, i3, i2, i1 := n / 0x800_0000 % ENTRIES, n / 0x4_0000 % ENTRIES, n / 0x200 % ENTRIES, n % ENTRIES;
      Indices(n, i4, i3, i2);
      LastIndex(n, i1);
      PathPrefixes(q);
      EmptyReach(mem, root);
      WalkStep(mem, owner, kernel, root, q, 0, root);
      if !mem[root][i4].Present() { NoWay(mem, root, q, root, 0); return 0; }
      var pdpt := mem[root][i4].frame;
      WalkStep(mem, owner, kernel, root, q, 1, pdpt);
      if !mem[pdpt][i3].Present() { NoWay(mem, root, q, pdpt, 1); return 0; }
      var pd := mem[pdpt][i3].frame;
      WalkStep(mem, owner, kernel, root, q, 2, pd);
      if !mem[pd][i2].Present() { NoWay(mem, root, q, pd, 2); return 0; }
      assert !mem[pd][i2].Huge();
      var pt := mem[pd][i2].frame;
      LastStep(mem, owner, kernel, root, q, pt);
      if !mem[pt][i1].Present() { return 0; }
      phys := mem[pt][i1].frame * 0x1000 + off;
    }

    /** VmmUnmapPage: the page, and every page served by the same entry, is gone. */
    method UnmapPage(root: nat, n: nat) returns (frame: nat)
      requires Valid() && IsSpace(owner, root)
      modifies this`mem
      ensures Valid() && |mem| == old(|mem|)
      ensures frame == match old(Translate(mem, root, PathOf(n))) case None => 0 case Some(f) => f
      ensures old(Leaf(mem, root, PathOf(n))) == None ==> mem == old(mem)
      ensures old(Leaf(mem, root, PathOf(n))) != None ==> PageSet(old(mem), mem, owner, kernel, root, PathOf(n), EMPTY)
      ensures ReachKept(old(mem), mem, owner) && Ways(old(mem), mem, owner, owner, false)
    {
      hide Tree, Reach, EntryOk, Backed, PathOf, ReachKept, Ways;
      WaysSelf(mem, owner, false);
      ReachKeptSelf(mem, owner);
      ghost var q := PathOf(n);
      var i4, i3, i2, i1 := n / 0x800_0000 % ENTRIES, n / 0x4_0000 % ENTRIES, n / 0x200 % ENTRIES, n % ENTRIES;
      Indices(n, i4, i3, i2);
      LastIndex(n, i1);
      PathPrefixes(q);
      EmptyReach(mem, root);
      WalkStep(mem, owner, kernel, root, q, 0, root);
      if !mem[root][i4].Present() { NoWay(mem, root, q, root, 0); return 0; }
      var pdpt := mem[root][i4].frame;
      WalkStep(mem, owner, kernel, root, q, 1, pdpt);
      if !mem[pdpt][i3].Present() { NoWay(mem, root, q, pdpt, 1); return 0; }
      var pd := mem[pdpt][i3].frame;
      WalkStep(mem, owner, kernel, root, q, 2, pd);
      if !mem[pd][i2].Present() { NoWay(mem, root, q, pd, 2); return 0; }
      assert !mem[pd][i2].Huge();
      var pt := mem[pd][i2].frame;
      LastStep(mem, owner, kernel, root, q, pt);
      if !mem[pt][i1].Present() { return 0; }
      frame := mem[pt][i1].frame;
      ghost var m0 := mem;
      LeafWritten(mem, owner, kernel, pt, i1, EMPTY);
      LeafOpens(mem, owner, pt, i1, EMPTY, false);
      mem := Write(mem, pt, i1, EMPTY);
      SameViewsSelf(m0, owner);
      OneEntryAfter(m0, m0, mem, owner, owner, kernel, pt, i1, EMPTY);
      LeafReach(m0, owner, kernel, pt, i1, EMPTY, root, q[..3]);
      OnePageSet(m0, mem, owner, owner, kernel, root, q, pt, EMPTY);
    }

    /** Maps `count` pages from `start` on to themselves. */
    method MapIdentity(root: nat, start: nat, count: nat, flags: Flags) returns (ghost ok: bool)
      requires Valid() && IsSpace(owner, root) && root != kernel && start + count <= 0x8_0000_0000
      requires flags.Fits() && flags.Present() && !flags.User() && Identity(mem, root) && KernelOnly(mem, root)
      modifies this`mem, this`owner, pmm`usedPages, pmm.used, pmm.pinned
      ensures Valid() && |mem| == old(|mem|) && Grown(old(owner), old(pmm.State()), owner, pmm.State())
      ensures Ways(old(mem), mem, old(owner), owner, false) && KernelOnly(mem, root)
      ensures Identity(mem, root) && OnlyMore(old(mem), mem, old(owner), root)
      ensures ok ==> MapsSelf(mem, root, start, start + count) && MapsAs(mem, root, start, start + count, flags)
      ensures OnlyRange(old(mem), mem, root, start, start + count)
      ensures !ok ==> forall p :: 0 <= p < pmm.highest ==> pmm.used[p]
      ensures ReachKept(old(mem), mem, old(owner))
    {
      hide Tree, Reach, EntryOk, Backed, Grown, PathOf, Leaf, OnlyMore, Identity, MapsSelf, SameViews, ReachKept, Ways, KernelOnly, MapsAs, OnlyRange, LeafFor;
      ReachKeptSelf(mem, owner);
      NoRange(mem, root, start, flags);
      WaysSelf(mem, owner, false);
      ghost var m0, o0, f0 := mem, owner, pmm.State();
      ok := true;
      NoneMapped(mem, root, start);
      BackedValid(owner, kernel, pmm.State());
      GrownSelf(owner, pmm.State());
      OnlyMoreSelf(mem, owner, root);
      var i := 0;
      while i < count
        invariant i <= count && Valid() && |mem| == |m0| && Grown(o0, f0, owner, pmm.State())
        invariant IsSpace(owner, root) && Identity(mem, root) && OnlyMore(m0, mem, o0, root) && ReachKept(m0, mem, o0)
        invariant Ways(m0, mem, o0, owner, false) && KernelOnly(mem, root)
        invariant ok ==> MapsSelf(mem, root, start, start + i) && MapsAs(mem, root, start, start + i, flags)
        invariant OnlyRange(m0, mem, root, start, start + i)
        invariant !ok ==> forall p :: 0 <= p < pmm.highest ==> pmm.used[p]
      {
        ghost var m1, o1, f1 := mem, owner, pmm.State();
        ghost var done := MapSelf(root, start + i, flags);
        GrownTwice(o0, f0, o1, f1, owner, pmm.State());
        GrownSpaces(o0, f0, o1, f1);
        OnlyMoreTwice(m0, m1, mem, o0, o1, root);
        ReachKeptTwice(m0, m1, mem, o0, o1);
        GrownSpaces(o1, f1, owner, pmm.State());
        WaysTwice(m0, m1, mem, o0, o1, owner, false);
        if ok && done {
          KeptTranslations(m1, mem, o1, root, start, start + i);
          OneMoreSelf(mem, root, start, start + i);
        }
        RangeMore(m0, m1, mem, root, start, start + i, flags, ok && done);
        FullStays(o1, f1, owner, pmm.State());
        ok := ok && done;
        i := i + 1;
      }
    }

    /** Maps one page to itself. */
    method MapSelf(root: nat, n: nat, flags: Flags) returns (ghost ok: bool)
      requires Valid() && IsSpace(owner, root) && root != kernel && n < 0x8_0000_0000
      requires flags.Fits() && flags.Present() && !flags.User() && Identity(mem, root) && KernelOnly(mem, root)
      modifies this`mem, this`owner, pmm`usedPages, pmm.used, pmm.pinned
      ensures Valid() && |mem| == old(|mem|) && Grown(old(owner), old(pmm.State()), owner, pmm.State())
      ensures IsSpace(owner, root) && Identity(mem, root) && OnlyMore(old(mem), mem, old(owner), root) && ReachKept(old(mem), mem, old(owner))
      ensures if ok then Translate(mem, root, PathOf(n)) == Some(n) else forall p :: 0 <= p < pmm.highest ==> pmm.used[p]
      ensures Ways(old(mem), mem, old(owner), owner, false) && KernelOnly(mem, root)
      ensures OnlyRange(old(mem), mem, root, n, n + 1) && (ok ==> Leaf(mem, root, PathOf(n)) == Some(LeafFor(n, flags)))
    {
      hide Tree, Reach, EntryOk, Backed, Grown, PathOf, Leaf, OnlyRange, LeafFor, PageSet, OnlyMore, Identity, SameViews, ReachKept, Ways, KernelOnly;
      ghost var m, o := mem, owner;
      NumberOfPath(n);
      ok := MapPage(root, n, n, flags);
      if ok {
        IdentitySet(m, mem, o, kernel, root, n, flags);
        KernelOnlySet(m, mem, o, kernel, root, n, flags);
        RangeSet(m, mem, o, kernel, root, n, flags);
      } else {
        IdentityKept(m, mem, o, root);
        KernelOnlyKept(m, mem, o, root);
        RangeKept(m, mem, o, root, n);
      }
    }

    /** VmmCreateAddressSpace. Below slot 256 the new space holds nothing but identity
        mappings; from slot 256 on it is the kernel's. No other space changes. */
    method CreateAddressSpace(imageStart: nat, imagePages: nat, fbStart: nat, fbPages: nat) returns (root: nat, ghost ok: bool)
      requires Valid() && imageStart + imagePages <= 0x8_0000_0000 && fbStart + fbPages <= 0x8_0000_0000
      modifies this`mem, this`owner, pmm`usedPages, pmm.used, pmm.pinned
      ensures Valid()
      ensures root == 0 ==> mem == old(mem) && owner == old(owner) && pmm.State() == old(pmm.State())
      ensures root != 0 ==> root !in old(owner) && IsSpace(owner, root) && SameViews(old(mem), mem, old(owner))
      ensures root != 0 ==> SharesUpper(mem, kernel, root)
      ensures root != 0 ==> Identity(mem, root) && KernelOnly(mem, root)
      ensures Ways(old(mem), mem, old(owner), owner, false)
      ensures root != 0 && ok ==> LowMapped(mem, root, imageStart, imagePages, fbStart, fbPages)
      ensures root != 0 && !ok ==> forall p :: 0 <= p < pmm.highest ==> pmm.used[p]
      ensures root != 0 ==> forall r :: IsSpace(owner, r) <==> IsSpace(old(owner), r) || r == root
      ensures ReachKept(old(mem), mem, old(owner)) && UsedKept(old(owner), old(pmm.State()), owner, pmm.State())
      ensures |mem| == old(|mem|) && forall t :: t in old(owner) ==> t in owner && owner[t] == old(owner)[t]
      ensures root != 0 ==> SlotsTaken(old(mem), mem, kernel, root)
    {
      hide Tree, Reach, EntryOk, Backed, Grown, PathOf, Leaf, OnlyMore, Identity, SameViews, MapsSelf, ReachKept, UsedKept, Ways, KernelOnly, LowFlags;
      ghost var m0, o0, f0 := mem, owner, pmm.State();
      ok := true;
      root := OpenTop();
      if root == 0 { return; }
      ghost var m1, o1, f1 := mem, owner, pmm.State();
      ok := MapLowRanges(root, imageStart, imagePages, fbStart, fbPages);
      OpenedOnly(m0, m1, mem, o0, o1, kernel, root);
      GrownKept(o1, f1, owner, pmm.State());
      GrownSpaces(o1, f1, owner, pmm.State());
      UsedKeptTwice(o0, f0, o1, f1, owner, pmm.State());
      ReachKeptTwice(m0, m1, mem, o0, o1);
      WaysTwice(m0, m1, mem, o0, o1, owner, false);
      SlotsShared(m0, m1, mem, o0, o1, kernel, root);
    }

    /** The identity mappings every process gets: low memory, the kernel image, the frame buffer and
        the device range. */
    method MapLowRanges(root: nat, imageStart: nat, imagePages: nat, fbStart: nat, fbPages: nat) returns (ghost ok: bool)
      requires Valid() && IsSpace(owner, root) && root != kernel && Identity(mem, root) && KernelOnly(mem, root)
      requires imageStart + imagePages <= 0x8_0000_0000 && fbStart + fbPages <= 0x8_0000_0000
      modifies this`mem, this`owner, pmm`usedPages, pmm.used, pmm.pinned
      ensures Valid() && |mem| == old(|mem|) && Grown(old(owner), old(pmm.State()), owner, pmm.State())
      ensures Identity(mem, root) && OnlyMore(old(mem), mem, old(owner), root) && ReachKept(old(mem), mem, old(owner))
      ensures Ways(old(mem), mem, old(owner), owner, false) && KernelOnly(mem, root)
      ensures ok ==> LowMapped(mem, root, imageStart, imagePages, fbStart, fbPages)
      ensures !ok ==> forall p :: 0 <= p < pmm.highest ==> pmm.used[p]
    {
      hide Tree, Reach, EntryOk, Backed, Grown, PathOf, Leaf, OnlyMore, Identity, SameViews, MapsSelf, ReachKept, Ways, KernelOnly, More, MapsAs, OnlyRange, LowFlags;
      ghost var m1, o1, f1 := mem, owner, pmm.State();
      ghost var a := MapIdentity(root, 0, 0x100, KERNEL_FLAGS);
      ghost var m2, o2, f2 := mem, owner, pmm.State();
      MoreMapped(root, m1, o1, f1, m2, o2, f2);
      ghost var b := MapIdentity(root, imageStart, imagePages, KERNEL_FLAGS);
      ghost var m3, o3, f3 := mem, owner, pmm.State();
      MoreMapped(root, m2, o2, f2, m3, o3, f3);
      ghost var c := MapIdentity(root, fbStart, fbPages, KERNEL_FLAGS.(high := NX));
      ghost var m4, o4, f4 := mem, owner, pmm.State();
      MoreMapped(root, m3, o3, f3, m4, o4, f4);
      ghost var d := MapIdentity(root, 0xF_0000, 0x1_0000, KERNEL_FLAGS.(high := NX));
      MoreMapped(root, m4, o4, f4, mem, owner, pmm.State());
      ok := a && b && c && d;
      MoreTwice(root, m3, o3, f3, m4, o4, f4, mem, owner, pmm.State());
      MoreTwice(root, m2, o2, f2, m3, o3, f3, mem, owner, pmm.State());
      MoreTwice(root, m1, o1, f1, m2, o2, f2, mem, owner, pmm.State());
      if ok {
        KeptTranslations(m2, mem, o2, root, 0, 0x100);
        KeptTranslations(m3, mem, o3, root, imageStart, imageStart + imagePages);
        KeptTranslations(m4, mem, o4, root, fbStart, fbStart + fbPages);
        LowFlagsAre(m2, m3, m4, mem, root, imageStart, imagePages, fbStart, fbPages);
      }
    }

    /** A top table with the kernel's upper half. */
    method OpenTop() returns (root: nat)
      requires Valid()
      modifies this`mem, this`owner, pmm`usedPages, pmm.used
      ensures Valid() && |mem| == old(|mem|)
      ensures root == 0 ==> mem == old(mem) && owner == old(owner) && pmm.State() == old(pmm.State())
      ensures root != 0 ==> root !in old(owner) && root != kernel && owner == old(owner)[root := Role(root, [])] && IsSpace(owner, root)
      ensures root != 0 ==> SameViews(old(mem), mem, old(owner)) && IsSpace(old(owner), kernel)
      ensures root != 0 ==> forall q :: IsPage(q) ==> Leaf(mem, root, q) == if q[0] < 256 then None else Leaf(mem, kernel, q)
      ensures (Identity(mem, root) && KernelOnly(mem, root)) || root == 0
      ensures Ways(old(mem), mem, old(owner), owner, false)
      ensures ReachKept(old(mem), mem, old(owner)) && UsedKept(old(owner), old(pmm.State()), owner, pmm.State())
      ensures root != 0 ==> forall i: nat :: 256 <= i < ENTRIES ==> Reach(mem, root, [i]) == Reach(mem, kernel, [i])
    {
      hide Tree, Reach, EntryOk, SameViews, Leaf, ReachKept, UsedKept, Count, Take, Backed, Identity, NewTop, Ways, KernelOnly;
      WaysSelf(mem, owner, false);
      ghost var f, o := pmm.State(), owner;
      ReachKeptSelf(mem, owner);
      UsedKeptSelf(owner, kernel, f);
      BackedValid(owner, kernel, f);
      KernelSpace(mem, owner, kernel);
      root := pmm.AllocPage();
      if root == 0 {
        assert pmm.State() == f;
        return;
      }
      FreeIsNoTable(owner, kernel, f, root);
      SpaceOpened(mem, owner, kernel, root);
      ghost var m := mem;
      mem := mem[root := NewTop(mem, kernel)];
      KernelViewKept(m, mem, owner, kernel);
      owner := owner[root := Role(root, [])];
      TopBooked(o, kernel, f, root);
      NothingLow(mem, root);
      TopOpens(m, o, root, mem[root]);
    }

    /** One level of the way to a page. */
    method Descend(root: nat, level: nat, index: nat, user: bool, pin: bool,
                   ghost q: Path, ghost k: nat, ghost m0: Memory, ghost o0: map<nat, Role>, ghost f0: Frames)
      returns (next: nat)
      requires Valid() && IsPage(q) && k < 3 && index == q[k] && level in owner && owner[level] == Role(root, q[..k])
      requires pin == (root == kernel) && (root == kernel || q[0] < 256)
      requires Extended(root, m0, o0, f0, mem, owner, pmm.State()) && Ways(m0, mem, o0, owner, user) && IsSpace(owner, root)
      requires user ==> UserWay(mem, root, q[..k])
      modifies this`mem, this`owner, pmm`usedPages, pmm.used, pmm.pinned
      ensures Valid() && Extended(root, m0, o0, f0, mem, owner, pmm.State())
      ensures Ways(m0, mem, o0, owner, user) && IsSpace(owner, root)
      ensures next != 0 && user ==> UserWay(mem, root, q[..k + 1])
      ensures next != 0 ==> next in owner && owner[next] == Role(root, q[..k + 1])
      ensures next == 0 ==> Leaf(mem, root, q) == None && forall p :: 0 <= p < pmm.highest ==> pmm.used[p]
    {
      hide Tree, Reach, EntryOk, Backed, Grown, Leaf, Extended, SameViews, ReachKept, Ways, UserWay;
      assert q[..k] + [index] == q[..k + 1];
      ghost var m, o, f := mem, owner, pmm.State();
      RoleAt(mem, owner, kernel, level, index);
      next := GetNextLevel(level, index, user, pin);
      ExtendedAt(root, level, m, o, f, mem, owner, pmm.State());
      ExtendedTwice(root, m0, o0, f0, m, o, f, mem, owner, pmm.State());
      ExtendedKeeps(root, m0, o0, f0, m, o, f);
      ExtendedKeeps(root, m, o, f, mem, owner, pmm.State());
      WaysTwice(m0, m, mem, o0, o, owner, user);
      if next != 0 && user { DescendsOpen(m, mem, o, owner, kernel, root, level, q[..k], index); }
      if next == 0 {
        OwnedReach(mem, owner, kernel, level);
        NoWay(mem, root, q, level, k);
      }
    }
  }

  /** The books after a page was taken for a top table. */
  lemma TopBooked(o: map<nat, Role>, kernel: nat, f: Frames, p: nat)
    requires Backed(o, kernel, f) && f.Free(p) && p != kernel
    ensures var o', f' := o[p := Role(p, [])], Take(f, p, 1); Backed(o', kernel, f') && UsedKept(o, f, o', f')
  {
  }

  lemma NothingLow(mem: Memory, root: nat)
    requires forall q :: IsPage(q) && q[0] < 256 ==> Leaf(mem, root, q) == None
    ensures Identity(mem, root) && KernelOnly(mem, root)
  {
  }

  /** A new top table opens nothing. */
  lemma TopOpens(mem: Memory, owner: map<nat, Role>, root: nat, top: Table)
    requires root < |mem| && root !in owner
    ensures Ways(mem, mem[root := top], owner, owner[root := Role(root, [])], false)
  {
  }

  lemma UsedKeptSelf(o: map<nat, Role>, kernel: nat, f: Frames)
    requires Backed(o, kernel, f)
    ensures UsedKept(o, f, o, f)
  {
  }

  /** Slots the kernel had when a space was opened are the kernel's tables there too. */
  lemma SlotsShared(m0: Memory, m1: Memory, m: Memory, o0: map<nat, Role>, o1: map<nat, Role>, kernel: nat, root: nat)
    requires ReachKept(m0, m1, o0) && ReachKept(m0, m, o0) && ReachKept(m1, m, o1) && IsSpace(o0, kernel) && IsSpace(o1, root)
    requires forall i: nat :: 256 <= i < ENTRIES ==> Reach(m1, root, [i]) == Reach(m1, kernel, [i])
    ensures forall i: nat :: 256 <= i < ENTRIES && Reach(m0, kernel, [i]).Some? ==> Reach(m, root, [i]) == Reach(m0, kernel, [i])
  {
    hide Reach;
  }

  lemma Indices(n: nat, i4: nat, i3: nat, i2: nat)
    requires i4 == n / 0x800_0000 % ENTRIES && i3 == n / 0x4_0000 % ENTRIES && i2 == n / 0x200 % ENTRIES
    ensures PathOf(n)[0] == i4 && PathOf(n)[1] == i3 && PathOf(n)[2] == i2
  {
  }

  lemma ExtendedSelf(root: nat, m: Memory, o: map<nat, Role>, f: Frames, kernel: nat)
    requires Backed(o, kernel, f)
    ensures Extended(root, m, o, f, m, o, f)
  {
    GrownSelf(o, f);
    SameViewsSelf(m, o);
    ReachKeptSelf(m, o);
  }

  /** Tables were added for `root`; no translation changed, and no table of another space. */
  ghost predicate Extended(root: nat, m: Memory, o: map<nat, Role>, f: Frames, m': Memory, o': map<nat, Role>, f': Frames) {
    && |m'| == |m| && Grown(o, f, o', f') && SameViews(m, m', o) && ReachKept(m, m', o)
    && forall t :: t in o && o[t].space != root && t < |m| ==> m'[t] == m[t]
  }

  lemma ExtendedKeeps(root: nat, m: Memory, o: map<nat, Role>, f: Frames, m': Memory, o': map<nat, Role>, f': Frames)
    requires Extended(root, m, o, f, m', o', f')
    ensures forall t :: t in o ==> t in o' && o'[t] == o[t]
  {
  }

  /** One more entry of the way is open. */
  lemma DescendsOpen(m: Memory, m': Memory, o: map<nat, Role>, o': map<nat, Role>, kernel: nat, root: nat, level: nat, path: Path, i: nat)
    requires Tree(m, o, kernel) && IsSpace(o, root) && |path| < 3 && level in o && o[level] == Role(root, path) && Ways(m, m', o, o', true)
    requires level < |m| && i < ENTRIES && m'[level][i].Present() && m'[level][i].User() && UserWay(m, root, path)
    ensures UserWay(m', root, path + [i])
  {
    hide Tree, WaysKept, UserWay, Reach;
    OwnedReach(m, o, kernel, level);
    WayKept(m, m', o, kernel, true, root, path);
    UserStep(m', root, path, i, level);
  }

  lemma ExtendedAt(root: nat, level: nat, m: Memory, o: map<nat, Role>, f: Frames, m': Memory, o': map<nat, Role>, f': Frames)
    requires |m'| == |m| && Grown(o, f, o', f') && SameViews(m, m', o) && ReachKept(m, m', o) && level in o && o[level].space == root
    requires forall t :: t in o && t != level && t < |m| ==> m'[t] == m[t]
    ensures Extended(root, m, o, f, m', o', f')
  {
    hide SameViews, ReachKept, Grown;
  }

  lemma ExtendedTwice(root: nat, m: Memory, o: map<nat, Role>, f: Frames, m1: Memory, o1: map<nat, Role>, f1: Frames,
                      m2: Memory, o2: map<nat, Role>, f2: Frames)
    requires Extended(root, m, o, f, m1, o1, f1) && Extended(root, m1, o1, f1, m2, o2, f2)
    ensures Extended(root, m, o, f, m2, o2, f2)
  {
    hide SameViews, ReachKept;
    GrownTwice(o, f, o1, f1, o2, f2);
    SameViewsTwice(m, m1, m2, o, o1);
    ReachKeptTwice(m, m1, m2, o, o1);
  }

  lemma LastIndex(n: nat, d: nat)
    requires d == n % ENTRIES
    ensures PathOf(n)[3] == d
  {
  }

  /** What a walk reads at depth `k`: a table of the path, whose entry, if present, leads on. */
  lemma WalkStep(mem: Memory, owner: map<nat, Role>, kernel: nat, root: nat, q: Path, k: nat, t: nat)
    requires Tree(mem, owner, kernel) && IsSpace(owner, root) && IsPage(q) && k < 3 && Reach(mem, root, q[..k]) == Some(t)
    ensures t < |mem|
    ensures mem[t][q[k]].Present() ==> !mem[t][q[k]].Huge() && Reach(mem, root, q[..k + 1]) == Some(mem[t][q[k]].frame)
  {
    hide Reach;
    ReachRole(mem, owner, kernel, root, q[..k]);
    RoleAt(mem, owner, kernel, t, q[k]);
    ReachSnoc(mem, root, q[..k], q[k]);
    assert q[..k] + [q[k]] == q[..k + 1];
  }

  lemma LastStep(mem: Memory, owner: map<nat, Role>, kernel: nat, root: nat, q: Path, t: nat)
    requires Tree(mem, owner, kernel) && IsSpace(owner, root) && IsPage(q) && Reach(mem, root, q[..3]) == Some(t)
    ensures t < |mem| && t in owner && |owner[t].path| == 3
    ensures Leaf(mem, root, q) == if mem[t][q[3]].Present() then Some(mem[t][q[3]]) else None
  {
    hide Reach;
    ReachRole(mem, owner, kernel, root, q[..3]);
    RoleAt(mem, owner, kernel, t, q[3]);
  }

  /** Adding tables and then writing one leaf entry, seen by the spaces there were. */
  lemma OneEntryAfter(m: Memory, m1: Memory, m2: Memory, o: map<nat, Role>, o1: map<nat, Role>, kernel: nat, pt: nat, d: nat, e: Pte)
    requires SameViews(m, m1, o) && forall t :: t in o ==> t in o1 && o1[t] == o[t]
    requires Tree(m1, o1, kernel) && pt in o1 && pt < |m1| && d < ENTRIES && |o1[pt].path| == 3 && m2 == Write(m1, pt, d, e)
    requires forall root, q :: IsSpace(o1, root) && IsPage(q) ==>
               Leaf(m2, root, q) == if UsesEntry(m1, root, q, pt, d) then (if e.Present() then Some(e) else None) else Leaf(m1, root, q)
    ensures forall root, q :: IsSpace(o, root) && IsPage(q) ==>
              Leaf(m2, root, q) == if UsesEntry(m2, root, q, pt, d) then (if e.Present() then Some(e) else None) else Leaf(m, root, q)
  {
    hide Tree, Reach, Leaf;
    forall root, q | IsSpace(o, root) && IsPage(q)
      ensures Leaf(m2, root, q) == if UsesEntry(m2, root, q, pt, d) then (if e.Present() then Some(e) else None) else Leaf(m, root, q)
    {
      LeafReach(m1, o1, kernel, pt, d, e, root, q[..3]);
    }
  }

  lemma PathPrefixes(q: Path)
    requires IsPage(q)
    ensures q[..0] == [] && q[..1] == [] + [q[0]] && q[..2] == q[..1] + [q[1]] && q[..3] == q[..2] + [q[2]]
  {
  }

  /** A walk that stops at an absent entry translates nothing. */
  lemma NoWay(mem: Memory, root: nat, q: Path, t: nat, k: nat)
    requires IsPage(q) && k < 3 && Reach(mem, root, q[..k]) == Some(t) && t < |mem| && !mem[t][q[k]].Present()
    ensures Leaf(mem, root, q) == None
  {
    PathPrefixes(q);
    hide Reach;
    ReachSnoc(mem, root, q[..k], q[k]);
    if k < 2 { ReachSnoc(mem, root, q[..k + 1], q[k + 1]); }
    if k == 0 { ReachSnoc(mem, root, q[..2], q[2]); }
  }

  lemma BackedTable(o: map<nat, Role>, kernel: nat, f: Frames, t: nat)
    requires Backed(o, kernel, f) && t in o
    ensures 0 < t < |f.used| && f.used[t]
  {
  }

  lemma BackedValid(o: map<nat, Role>, kernel: nat, f: Frames)
    requires Backed(o, kernel, f)
    ensures f.Valid()
  {
  }

  lemma EmptyKernel(mem: Memory, kernel: nat)
    requires kernel < |mem| && kernel < FRAMES && mem[kernel] == NoEntries()
    ensures Tree(mem, map[kernel := Role(kernel, [])], kernel)
    ensures forall q :: IsPage(q) ==> Leaf(mem, kernel, q) == None
  {
    var owner := map[kernel := Role(kernel, [])];
    forall i | 0 <= i < ENTRIES ensures EntryOk(owner, kernel, owner[kernel], mem[kernel][i], i) {
      EmptyEntry(owner, kernel, owner[kernel], i);
    }
    forall q | IsPage(q) ensures Leaf(mem, kernel, q) == None { EmptyWalk(mem, kernel, q[..3]); }
  }

  lemma {:induction false} EmptyWalk(mem: Memory, root: nat, path: Path)
    requires root < |mem| && mem[root] == NoEntries() && path != []
    ensures Reach(mem, root, path) == None
  {
    var front := path[..|path| - 1];
    if front != [] {
      EmptyWalk(mem, root, front);
    }
  }

  lemma SameViewsSelf(mem: Memory, owner: map<nat, Role>)
    ensures SameViews(mem, mem, owner)
  {
  }

  lemma EntryChild(owner: map<nat, Role>, kernel: nat, r: Role, e: Pte, i: nat)
    requires EntryOk(owner, kernel, r, e, i) && |r.path| < 3 && e.Present()
    ensures e.frame in owner && owner[e.frame] == Role(SpaceOf(kernel, r.space, r.path + [i]), r.path + [i])
  {
  }
}
