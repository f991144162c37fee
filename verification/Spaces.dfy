/** Address spaces over whole runs: creating, mapping, unmapping and tearing down spaces in any
    order, and what each of these leaves of the others. */
module Spaces {
  import opened Basics
  import opened Pmm
  import opened PageTables
  import opened Vmm
  import opened Teardown

  /** Everything the page-table routines look at. */
  datatype Sys = Sys(mem: Memory, owner: map<nat, Role>, frames: Frames)

  ghost function Now(a: AddressSpaces): Sys
    reads a, a.pmm, a.pmm.used, a.pmm.pinned
    requires a.pmm.Valid()
  {
    Sys(a.mem, a.owner, a.pmm.State())
  }

  ghost predicate Whole(s: Sys, kernel: nat) {
    |s.mem| == |s.frames.used| <= FRAMES && Tree(s.mem, s.owner, kernel) && Backed(s.owner, kernel, s.frames)
  }

  // ---- runs ------------------------------------------------------------------------

  /** A call and, for a page, what it wrote there. */
  datatype Act = Create(root: nat) | SetPage(root: nat, q: Path, e: Pte) | Drop(root: nat) | Nothing

  /** What a call may do. No call takes a table away from a walk of a space that stays. */
  ghost predicate Step(s: Sys, s': Sys, kernel: nat, c: Act) {
    && Whole(s', kernel)
    && match c
       case Create(root) =>
         && root !in s.owner && IsSpace(s'.owner, root) && Identity(s'.mem, root)
         && (forall r :: IsSpace(s'.owner, r) <==> IsSpace(s.owner, r) || r == root)
         && SameViews(s.mem, s'.mem, s.owner) && ReachKept(s.mem, s'.mem, s.owner) && WaysStand(s.mem, s'.mem, s.owner)
         && KernelOnly(s'.mem, root)
         && forall i: nat :: 256 <= i < ENTRIES && Reach(s.mem, kernel, [i]).Some? ==> Reach(s'.mem, root, [i]).Some?
       case SetPage(root, q, e) =>
         && IsPage(q) && IsSpace(s.owner, root) && PageSet(s.mem, s'.mem, s.owner, kernel, root, q, e)
         && (forall r :: IsSpace(s'.owner, r) <==> IsSpace(s.owner, r)) && ReachKept(s.mem, s'.mem, s.owner)
         && WaysStand(s.mem, s'.mem, s.owner)
       case Drop(root) => s'.mem == s.mem && s'.owner == Dropped(s.owner, root) && root != kernel
       case Nothing =>
         (forall r :: IsSpace(s'.owner, r) <==> IsSpace(s.owner, r))
         && SameViews(s.mem, s'.mem, s.owner) && ReachKept(s.mem, s'.mem, s.owner) && WaysStand(s.mem, s'.mem, s.owner)
  }

  ghost predicate History(ss: seq<Sys>, cs: seq<Act>, kernel: nat) {
    |ss| == |cs| + 1 && Whole(ss[0], kernel) && forall i :: 0 <= i < |cs| ==> Step(ss[i], ss[i + 1], kernel, cs[i])
  }

  lemma RunStep(ss: seq<Sys>, cs: seq<Act>, kernel: nat)
    requires History(ss, cs, kernel) && cs != []
    ensures var k := |cs| - 1; History(ss[..k + 1], cs[..k], kernel) && Step(ss[k], ss[k + 1], kernel, cs[k])
  {
    hide Step, Whole;
  }

  /** The space is there all the time. */
  ghost predicate Stays(ss: seq<Sys>, r: nat) { forall i :: 0 <= i < |ss| ==> IsSpace(ss[i].owner, r) }

  /** Below slot 256 a space's page only changes by calls on that page of that space, whatever
      spaces are made, changed and torn down in between. */
  lemma {:induction false} IsolatedRun(ss: seq<Sys>, cs: seq<Act>, kernel: nat, r: nat, p: Path)
    requires History(ss, cs, kernel) && Stays(ss, r) && IsPage(p) && p[0] < 256
    requires forall i :: 0 <= i < |cs| && cs[i].SetPage? ==> cs[i].root != r || cs[i].q != p
    ensures Leaf(ss[|cs|].mem, r, p) == Leaf(ss[0].mem, r, p)
    decreases cs
  {
    hide Leaf, Step, History;
    if cs != [] {
      var k := |cs| - 1;
      RunStep(ss, cs, kernel);
      RunSize(ss, cs, kernel);
      IsolatedRun(ss[..k + 1], cs[..k], kernel, r, p);
      OneStep(ss[k], ss[k + 1], kernel, cs[k], r, p);
    } else {
      RunSize(ss, cs, kernel);
    }
  }

  lemma RunSize(ss: seq<Sys>, cs: seq<Act>, kernel: nat)
    requires History(ss, cs, kernel)
    ensures |ss| == |cs| + 1
  {
  }

  lemma OneStep(s: Sys, s': Sys, kernel: nat, c: Act, r: nat, p: Path)
    requires Step(s, s', kernel, c) && IsSpace(s.owner, r) && IsPage(p) && p[0] < 256
    requires c.SetPage? ==> c.root != r || c.q != p
    ensures Leaf(s'.mem, r, p) == Leaf(s.mem, r, p)
  {
    hide Leaf, Reach, Whole, ReachKept, Identity;
  }

  /** A page that user code could use stays usable until a call on that page of that space. */
  lemma {:induction false} UserRun(ss: seq<Sys>, cs: seq<Act>, kernel: nat, r: nat, p: Path)
    requires History(ss, cs, kernel) && Stays(ss, r) && IsPage(p) && p[0] < 256 && UserWalk(ss[0].mem, r, p)
    requires forall i :: 0 <= i < |cs| && cs[i].SetPage? ==> cs[i].root != r || cs[i].q != p
    ensures UserWalk(ss[|cs|].mem, r, p)
    decreases cs
  {
    hide Leaf, Step, History, UserWalk, Whole;
    RunSize(ss, cs, kernel);
    if cs != [] {
      var k := |cs| - 1;
      RunStep(ss, cs, kernel);
      RunSize(ss[..k + 1], cs[..k], kernel);
      UserRun(ss[..k + 1], cs[..k], kernel, r, p);
      EndsWhole(ss[..k + 1], cs[..k], kernel);
      OneStep(ss[k], ss[k + 1], kernel, cs[k], r, p);
      UserStays(ss[k], ss[k + 1], kernel, cs[k], r, p);
    }
  }

  lemma EndsWhole(ss: seq<Sys>, cs: seq<Act>, kernel: nat)
    requires History(ss, cs, kernel)
    ensures |ss| == |cs| + 1 && Whole(ss[|cs|], kernel)
  {
    hide Whole;
    if cs != [] { assert Step(ss[|cs| - 1], ss[|cs|], kernel, cs[|cs| - 1]); }
  }

  lemma UserStays(s: Sys, s': Sys, kernel: nat, c: Act, r: nat, p: Path)
    requires Step(s, s', kernel, c) && Whole(s, kernel) && IsSpace(s.owner, r) && IsPage(p) && UserWalk(s.mem, r, p)
    requires Leaf(s'.mem, r, p) == Leaf(s.mem, r, p)
    ensures UserWalk(s'.mem, r, p)
  {
    hide Leaf, Reach, UserWalk, Tree, Backed, SameViews, PageSet, ReachKept, WaysKept, KernelOnly, Identity;
    if !c.Drop? { UserWalkKept(s.mem, s'.mem, s.owner, kernel, true, r, p); }
  }

  /** A kernel mapping under a slot the space had is seen there as the kernel sees it, for as long
      as the space lives. */
  lemma {:induction false} KernelRun(ss: seq<Sys>, cs: seq<Act>, kernel: nat, r: nat, p: Path)
    requires History(ss, cs, kernel) && Stays(ss, r) && IsPage(p) && 256 <= p[0] && Reach(ss[0].mem, r, p[..1]).Some?
    ensures Reach(ss[|cs|].mem, r, p[..1]).Some?
    ensures Leaf(ss[|cs|].mem, r, p) == Leaf(ss[|cs|].mem, kernel, p)
    decreases cs
  {
    hide Leaf, Step, History, Reach, Whole;
    RunSize(ss, cs, kernel);
    if cs != [] {
      var k := |cs| - 1;
      RunStep(ss, cs, kernel);
      KernelRun(ss[..k + 1], cs[..k], kernel, r, p);
      SlotStays(ss[k], ss[k + 1], kernel, cs[k], r, p);
    } else {
      StartWhole(ss, cs, kernel);
    }
    SlotMeans(ss[|cs|], kernel, r, p);
  }

  lemma StartWhole(ss: seq<Sys>, cs: seq<Act>, kernel: nat)
    requires History(ss, cs, kernel)
    ensures |ss| == |cs| + 1 && Whole(ss[0], kernel)
  {
  }

  lemma SlotStays(s: Sys, s': Sys, kernel: nat, c: Act, r: nat, p: Path)
    requires Step(s, s', kernel, c) && IsSpace(s.owner, r) && IsPage(p) && Reach(s.mem, r, p[..1]).Some?
    ensures Reach(s'.mem, r, p[..1]).Some? && Whole(s', kernel)
  {
    hide Leaf, Reach, Whole, SameViews, PageSet, Identity;
  }

  lemma SlotMeans(s: Sys, kernel: nat, r: nat, p: Path)
    requires Whole(s, kernel) && IsSpace(s.owner, r) && IsPage(p) && 256 <= p[0] && Reach(s.mem, r, p[..1]).Some?
    ensures Leaf(s.mem, r, p) == Leaf(s.mem, kernel, p)
  {
    hide Leaf, Reach, Tree, Backed;
    KernelSeenEverywhere(s.mem, s.owner, kernel, r, p);
  }

  /** A space made in a run has every slot the kernel had then. */
  lemma CreatedSees(s: Sys, s': Sys, kernel: nat, root: nat, p: Path)
    requires Step(s, s', kernel, Create(root)) && IsPage(p) && 256 <= p[0] && Reach(s.mem, kernel, p[..1]).Some?
    ensures Reach(s'.mem, root, p[..1]).Some?
  {
    hide Leaf, Reach, Whole, SameViews, ReachKept, Identity;
    assert p[..1] == [p[0]];
  }

  // ---- leaf frames have one owner -----------------------------------------------------

  /** Page `x.path` of a user space is translated to the tracked page `x.page`, and not to itself. */
  ghost predicate Owns(s: Sys, kernel: nat, root: nat, x: Item) {
    IsSpace(s.owner, root) && root != kernel && OwnLeaf(s.mem, |s.frames.used|, root, x)
  }

  /** Such a page is allocated, unpinned, no table, and belongs to one page of one space. */
  ghost predicate Exclusive(s: Sys, kernel: nat) {
    && (forall root, x: Item :: Owns(s, kernel, root, x) ==> s.frames.Releasable(x.page) && x.page !in s.owner)
    && forall root, x: Item, root', y: Item ::
         Owns(s, kernel, root, x) && Owns(s, kernel, root', y) && x.page == y.page ==> root == root' && x.path == y.path
  }

  /** At start-up nothing is owned. */
  lemma StartsExclusive(s: Sys, kernel: nat)
    requires s.owner == map[kernel := Role(kernel, [])]
    ensures Exclusive(s, kernel)
  {
    hide OwnLeaf;
  }

  /** Exclusive ownership is all the teardown asks for. */
  lemma ExclusiveIsOwned(s: Sys, kernel: nat, root: nat)
    requires Exclusive(s, kernel) && IsSpace(s.owner, root) && root != kernel
    ensures LeavesOwned(s.mem, s.owner, s.frames, |s.frames.used|, root)
  {
    hide OwnLeaf;
    forall x: Item | OwnLeaf(s.mem, |s.frames.used|, root, x) ensures Owns(s, kernel, root, x) {}
  }

  lemma OwnLeafIs(mem: Memory, highest: nat, root: nat, x: Item)
    ensures OwnLeaf(mem, highest, root, x) <==>
            && IsPage(x.path) && x.path[0] < 256 && Leaf(mem, root, x.path).Some?
            && x.page == PageNo(Leaf(mem, root, x.path).value) && x.page < highest && NumberOf(x.path) != x.page
  {
  }

  /** What may be mapped at a page without sharing a frame: nothing, a page itself, an untracked
      frame, one with high bits in its entry, or an allocated frame that no other page owns. */
  ghost predicate MayMap(s: Sys, kernel: nat, root: nat, q: Path, e: Pte)
    requires IsPage(q)
  {
    var p := PageNo(e);
    Given(e, q, |s.frames.used|) ==>
      && s.frames.Releasable(p) && p !in s.owner
      && forall r, y: Item :: Owns(s, kernel, r, y) && y.page == p ==> r == root && y.path == q
  }

  /** The books grew: no page in use was touched, new tables lie on pages that were free. */
  ghost predicate OnlyGrown(s: Sys, s': Sys) { UsedKept(s.owner, s.frames, s'.owner, s'.frames) }

  lemma OwnedKept(s: Sys, s': Sys, p: nat)
    requires OnlyGrown(s, s') && s.frames.Releasable(p) && p !in s.owner
    ensures s'.frames.Releasable(p) && p !in s'.owner
  {
  }

  /** Setting a page keeps ownership exclusive when the frame may be mapped there. */
  lemma SetKeeps(s: Sys, s': Sys, kernel: nat, root: nat, q: Path, e: Pte)
    requires Exclusive(s, kernel) && OnlyGrown(s, s') && IsPage(q) && (root == kernel || (q[0] < 256 && MayMap(s, kernel, root, q, e)))
    requires PageSet(s.mem, s'.mem, s.owner, kernel, root, q, e) && (forall r :: IsSpace(s'.owner, r) <==> IsSpace(s.owner, r))
    ensures Exclusive(s', kernel)
  {
    hide OwnLeaf, Leaf, Reach, OnlyGrown, Frames.Releasable, PageSet, Owns, MayMap;
    GrownSize(s, s');
    forall r, x: Item | Owns(s', kernel, r, x) ensures s'.frames.Releasable(x.page) && x.page !in s'.owner {
      SetOwned(s, s', kernel, root, q, e, r, x);
      OwnedKept(s, s', x.page);
    }
    forall r, x: Item, r', y: Item | Owns(s', kernel, r, x) && Owns(s', kernel, r', y) && x.page == y.page
      ensures r == r' && x.path == y.path
    {
      SetOwned(s, s', kernel, root, q, e, r, x);
      SetOwned(s, s', kernel, root, q, e, r', y);
      SetOnce(s, s', kernel, root, q, e, r, x, r', y);
    }
  }

  /** What a page owns afterwards it owned before, or it is the page just set. */
  lemma SetOwned(s: Sys, s': Sys, kernel: nat, root: nat, q: Path, e: Pte, r: nat, x: Item)
    requires Exclusive(s, kernel) && |s'.frames.used| == |s.frames.used| && IsPage(q)
    requires root == kernel || (q[0] < 256 && MayMap(s, kernel, root, q, e))
    requires PageSet(s.mem, s'.mem, s.owner, kernel, root, q, e) && (forall r :: IsSpace(s'.owner, r) <==> IsSpace(s.owner, r))
    requires Owns(s', kernel, r, x)
    ensures Owns(s, kernel, r, x) || (r == root && x.path == q && x.page == PageNo(e) && Given(e, q, |s.frames.used|))
    ensures s.frames.Releasable(x.page) && x.page !in s.owner
  {
    hide OwnLeaf, Leaf, Reach, Frames.Releasable;
    OwnLeafIs(s.mem, |s.frames.used|, r, x);
    OwnLeafIs(s'.mem, |s.frames.used|, r, x);
  }

  lemma GrownSize(s: Sys, s': Sys)
    requires OnlyGrown(s, s')
    ensures |s'.frames.used| == |s.frames.used|
  {
  }

  lemma SetOnce(s: Sys, s': Sys, kernel: nat, root: nat, q: Path, e: Pte, r: nat, x: Item, r': nat, y: Item)
    requires Exclusive(s, kernel) && IsPage(q) && |s'.frames.used| == |s.frames.used|
    requires root == kernel || MayMap(s, kernel, root, q, e)
    requires Owns(s', kernel, r, x) && Owns(s', kernel, r', y) && x.page == y.page
    requires Owns(s, kernel, r, x) || (r == root && x.path == q && x.page == PageNo(e) && Given(e, q, |s.frames.used|))
    requires Owns(s, kernel, r', y) || (r' == root && y.path == q && y.page == PageNo(e) && Given(e, q, |s.frames.used|))
    ensures r == r' && x.path == y.path
  {
    hide OwnLeaf;
  }

  /** The same when translations stay and the books grow. */
  lemma ViewsKeep(s: Sys, s': Sys, kernel: nat)
    requires Exclusive(s, kernel) && OnlyGrown(s, s') && SameViews(s.mem, s'.mem, s.owner)
    requires forall r :: IsSpace(s'.owner, r) && r != kernel && !IsSpace(s.owner, r) ==> Identity(s'.mem, r)
    requires |s.frames.used| <= FRAMES
    ensures Exclusive(s', kernel)
  {
    hide OwnLeaf, Leaf, OnlyGrown, Frames.Releasable, Owns, SameViews;
    GrownSize(s, s');
    forall r, x: Item | Owns(s', kernel, r, x) ensures Owns(s, kernel, r, x) && s'.frames.Releasable(x.page) && x.page !in s'.owner {
      ViewOwned(s, s', kernel, r, x);
      OwnedKept(s, s', x.page);
    }
  }

  lemma ViewOwned(s: Sys, s': Sys, kernel: nat, r: nat, x: Item)
    requires SameViews(s.mem, s'.mem, s.owner) && |s'.frames.used| == |s.frames.used| <= FRAMES && Owns(s', kernel, r, x)
    requires forall r :: IsSpace(s'.owner, r) && r != kernel && !IsSpace(s.owner, r) ==> Identity(s'.mem, r)
    ensures Owns(s, kernel, r, x)
  {
    hide OwnLeaf, Leaf;
    OwnLeafIs(s.mem, |s.frames.used|, r, x);
    OwnLeafIs(s'.mem, |s.frames.used|, r, x);
    if !IsSpace(s.owner, r) { IdentityOwnsNothing(s'.mem, |s.frames.used|, r, x); }
  }

  lemma IdentityOwnsNothing(mem: Memory, highest: nat, root: nat, x: Item)
    requires Identity(mem, root) && highest <= FRAMES
    ensures !OwnLeaf(mem, highest, root, x)
  {
    hide Leaf;
    OwnLeafIs(mem, highest, root, x);
  }

  /** Tearing a space down keeps ownership exclusive among the others, and none of them still
      leads to a page that was given back, other than by mapping it to itself. */
  lemma FreedKeeps(s: Sys, s': Sys, kernel: nat, root: nat)
    requires Exclusive(s, kernel) && Whole(s, kernel) && IsSpace(s.owner, root) && root != kernel
    requires s'.mem == s.mem && s'.owner == Dropped(s.owner, root) && s'.frames.pinned == s.frames.pinned
    requires |s'.frames.used| == |s.frames.used|
    requires forall p :: 0 <= p < |s.frames.used| ==> s'.frames.used[p] == (s.frames.used[p] && !GivenBack(s.mem, |s.frames.used|, root, p))
    ensures Exclusive(s', kernel) && NoneReach(s', kernel, s.mem, |s.frames.used|, root)
  {
    hide OwnLeaf, Leaf, Right, Tree, Backed, Reach;
    var h := |s.frames.used|;
    forall r, x: Item | Owns(s, kernel, r, x) && r != root ensures !GivenBack(s.mem, h, root, x.page) {
      OwnedElsewhere(s, kernel, root, r, x);
    }
    forall r, x: Item | Owns(s', kernel, r, x) ensures Owns(s, kernel, r, x) && r != root && s'.frames.Releasable(x.page) && x.page !in s'.owner {
      assert r in s.owner && s.owner[r] == Role(r, []);
    }
    forall r, q | IsSpace(s'.owner, r) && r != kernel && IsPage(q) && q[0] < 256 && Leaf(s'.mem, r, q).Some?
      ensures !GivenBack(s.mem, h, root, PageNo(Leaf(s'.mem, r, q).value)) || NumberOf(q) == PageNo(Leaf(s'.mem, r, q).value)
    {
      var x := Item(q, PageNo(Leaf(s'.mem, r, q).value));
      OwnLeafIs(s.mem, h, r, x);
      if NumberOf(q) != x.page {
        if x.page < h { assert Owns(s, kernel, r, x) && r != root; }
        else { OnlyTracked(s, kernel, root, x.page); }
      }
    }
  }

  /** No other space translates a lower-half page to a page that was given back, except to itself. */
  ghost predicate NoneReach(s: Sys, kernel: nat, mem: Memory, highest: nat, root: nat) {
    forall r, q :: IsSpace(s.owner, r) && r != kernel && IsPage(q) && q[0] < 256 && Leaf(s.mem, r, q).Some? ==>
      !GivenBack(mem, highest, root, PageNo(Leaf(s.mem, r, q).value)) || NumberOf(q) == PageNo(Leaf(s.mem, r, q).value)
  }

  lemma OwnedElsewhere(s: Sys, kernel: nat, root: nat, r: nat, x: Item)
    requires Exclusive(s, kernel) && Whole(s, kernel) && IsSpace(s.owner, root) && root != kernel && Owns(s, kernel, r, x) && r != root
    ensures !GivenBack(s.mem, |s.frames.used|, root, x.page)
  {
    hide OwnLeaf, Leaf, Tree, Backed, Reach;
    var h := |s.frames.used|;
    if y :| Right(s.mem, h, root, y) && y.path[0] < 256 && y.page == x.page {
      if |y.path| < 4 {
        ReachRole(s.mem, s.owner, kernel, root, y.path);
      } else {
        OwnLeafHas(s.mem, h, root, y);
        OneOwner(s, kernel, root, y, r, x);
      }
    }
  }

  lemma OneOwner(s: Sys, kernel: nat, root: nat, y: Item, r: nat, x: Item)
    requires Exclusive(s, kernel) && Owns(s, kernel, root, y) && Owns(s, kernel, r, x) && y.page == x.page
    ensures root == r
  {
  }

  lemma OwnLeafHas(mem: Memory, highest: nat, root: nat, x: Item)
    requires |x.path| == 4 && Right(mem, highest, root, x) && x.path[0] < 256
    ensures OwnLeaf(mem, highest, root, x)
  {
  }

  lemma OnlyTracked(s: Sys, kernel: nat, root: nat, p: nat)
    requires Whole(s, kernel) && IsSpace(s.owner, root) && |s.frames.used| <= p
    ensures !GivenBack(s.mem, |s.frames.used|, root, p)
  {
    hide Leaf, Backed, Reach;
    if y :| Right(s.mem, |s.frames.used|, root, y) && y.path[0] < 256 && y.page == p {
      if |y.path| < 4 { ReachRole(s.mem, s.owner, kernel, root, y.path); }
    }
  }

  // ---- the calls ----------------------------------------------------------------------

  /** PsCreateProcess: a space for a new process. */
  method NewSpace(a: AddressSpaces, imageStart: nat, imagePages: nat, fbStart: nat, fbPages: nat) returns (root: nat)
    requires a.Valid() && imageStart + imagePages <= 0x8_0000_0000 && fbStart + fbPages <= 0x8_0000_0000
    modifies a`mem, a`owner, a.pmm`usedPages, a.pmm.used, a.pmm.pinned
    ensures a.Valid() && Step(old(Now(a)), Now(a), a.kernel, if root == 0 then Nothing else Create(root))
    ensures old(Exclusive(Now(a), a.kernel)) ==> Exclusive(Now(a), a.kernel)
  {
    hide Tree, Reach, Backed, SameViews, Exclusive, Identity, ReachKept, UsedKept, Leaf, MapsSelf, Ways, WaysStand, KernelOnly;
    ghost var s := Now(a);
    ghost var ok;
    root, ok := a.CreateAddressSpace(imageStart, imagePages, fbStart, fbPages);
    WaysStay(s.mem, a.mem, s.owner, a.owner, false);
    SameViewsSelf(s.mem, s.owner);
    if old(Exclusive(Now(a), a.kernel)) { ViewsKeep(s, Now(a), a.kernel); }
  }

  /** One VmmMapPage on behalf of a process or of the kernel. */
  method Map(a: AddressSpaces, root: nat, n: nat, frame: nat, flags: Flags) returns (ghost ok: bool)
    requires a.Valid() && IsSpace(a.owner, root) && (root == a.kernel || PathOf(n)[0] < 256) && flags.Fits()
    modifies a`mem, a`owner, a.pmm`usedPages, a.pmm.used, a.pmm.pinned
    ensures a.Valid() && OnlyGrown(old(Now(a)), Now(a))
    ensures Step(old(Now(a)), Now(a), a.kernel, if ok then SetPage(root, PathOf(n), LeafFor(frame, flags)) else Nothing)
    ensures old(Exclusive(Now(a), a.kernel)) && (root == a.kernel || old(MayMap(Now(a), a.kernel, root, PathOf(n), LeafFor(frame, flags)))) ==>
              Exclusive(Now(a), a.kernel)
    ensures ok && flags.Present() && flags.User() ==> UserWalk(a.mem, root, PathOf(n))
  {
    hide Tree, Reach, Backed, SameViews, Exclusive, ReachKept, UsedKept, Leaf, Grown, PageSet, PathOf, MayMap, Ways, WaysStand, UserWalk;
    ghost var s := Now(a);
    PathIsPage(n);
    ok := a.MapPage(root, n, frame, flags);
    WaysStay(s.mem, a.mem, s.owner, a.owner, flags.User());
    GrownKept(s.owner, s.frames, a.owner, a.pmm.State());
    if old(Exclusive(Now(a), a.kernel)) && (root == a.kernel || old(MayMap(Now(a), a.kernel, root, PathOf(n), LeafFor(frame, flags)))) {
      if ok {
        SetKeeps(s, Now(a), a.kernel, root, PathOf(n), LeafFor(frame, flags));
      } else {
        ViewsKeep(s, Now(a), a.kernel);
      }
    }
  }

  lemma PathIsPage(n: nat)
    ensures IsPage(PathOf(n))
  {
  }

  /** A page with a frame of its own: one turn of the loop of SYS_MMAP. */
  method MapFresh(a: AddressSpaces, root: nat, n: nat, flags: Flags) returns (page: nat)
    requires a.Valid() && IsSpace(a.owner, root) && root != a.kernel && PathOf(n)[0] < 256 && flags.Fits()
    modifies a`mem, a`owner, a.pmm`usedPages, a.pmm.used, a.pmm.pinned
    ensures a.Valid() && IsSpace(a.owner, root)
    ensures page == 0 <==> forall p :: 0 <= p < |old(Now(a)).frames.used| ==> old(Now(a)).frames.used[p]
    ensures page != 0 ==> old(Now(a)).frames.Free(page)
    ensures Step(old(Now(a)), Now(a), a.kernel, Nothing) ||
            (page != 0 && Step(old(Now(a)), Now(a), a.kernel, SetPage(root, PathOf(n), LeafFor(page, flags)))
             && (flags.Present() && flags.User() ==> UserWalk(a.mem, root, PathOf(n))))
    ensures old(Exclusive(Now(a), a.kernel)) ==> Exclusive(Now(a), a.kernel)
  {
    hide Tree, Reach, SameViews, Exclusive, ReachKept, UsedKept, Leaf, Grown, PageSet, PathOf, MayMap, Take, Count, Backed, OnlyGrown, WaysStand, UserWalk;
    ghost var s := Now(a);
    SameViewsSelf(s.mem, s.owner);
    ReachKeptSelf(s.mem, s.owner);
    WaysSelf(s.mem, s.owner, true);
    WaysStay(s.mem, s.mem, s.owner, s.owner, true);
    BackedValid(s.owner, a.kernel, s.frames);
    page := a.pmm.AllocPage();
    if page == 0 { return; }
    ghost var s1 := Now(a);
    Taken(s, s1, a.kernel, page);
    if old(Exclusive(Now(a), a.kernel)) {
      TakenKeeps(s, s1, a.kernel, page);
      FreshMayMap(s, s1, a.kernel, root, PathOf(n), LeafFor(page, flags), page);
    }
    ghost var ok := Map(a, root, n, page, flags);
    FromTaken(s, s1, Now(a), a.kernel, if ok then SetPage(root, PathOf(n), LeafFor(page, flags)) else Nothing);
  }

  /** A page just taken from the allocator. */
  lemma Taken(s: Sys, s1: Sys, kernel: nat, page: nat)
    requires Whole(s, kernel) && s.frames.Free(page) && s1 == s.(frames := Take(s.frames, page, 1)) && s1.frames.Valid()
    ensures Whole(s1, kernel) && OnlyGrown(s, s1) && s1.frames.Releasable(page) && page !in s1.owner
  {
    hide Tree, Reach;
  }

  lemma TakenKeeps(s: Sys, s1: Sys, kernel: nat, page: nat)
    requires Exclusive(s, kernel) && Whole(s, kernel) && OnlyGrown(s, s1) && s1.mem == s.mem && s1.owner == s.owner
    ensures Exclusive(s1, kernel)
  {
    hide Tree, Reach, Leaf, Backed, OnlyGrown, Exclusive;
    SameViewsSelf(s.mem, s.owner);
    ViewsKeep(s, s1, kernel);
  }

  /** A page that was free belongs to nobody. */
  lemma FreshMayMap(s: Sys, s1: Sys, kernel: nat, root: nat, q: Path, e: Pte, page: nat)
    requires Exclusive(s, kernel) && s.frames.Free(page) && s1.mem == s.mem && s1.owner == s.owner && |s1.frames.used| == |s.frames.used|
    requires s1.frames.Releasable(page) && page !in s1.owner && IsPage(q) && page < FRAMES && e.frame == page
    requires |s.frames.used| <= FRAMES
    ensures MayMap(s1, kernel, root, q, e)
  {
    hide OwnLeaf;
    forall r, y: Item | Owns(s1, kernel, r, y) ensures y.page != page {
      assert Owns(s, kernel, r, y);
    }
  }

  lemma FromTaken(s: Sys, s1: Sys, s2: Sys, kernel: nat, c: Act)
    requires Step(s1, s2, kernel, c) && s1.mem == s.mem && s1.owner == s.owner && (c.SetPage? || c.Nothing?)
    ensures Step(s, s2, kernel, c)
  {
  }

  /** VmmUnmapPage. */
  method Unmap(a: AddressSpaces, root: nat, n: nat) returns (frame: nat)
    requires a.Valid() && IsSpace(a.owner, root)
    modifies a`mem
    ensures a.Valid()
    ensures Step(old(Now(a)), Now(a), a.kernel, if old(Leaf(a.mem, root, PathOf(n))) == None then Nothing else SetPage(root, PathOf(n), EMPTY))
    ensures old(Exclusive(Now(a), a.kernel)) && (root == a.kernel || PathOf(n)[0] < 256) ==> Exclusive(Now(a), a.kernel)
  {
    hide Tree, Reach, Backed, SameViews, Exclusive, ReachKept, Leaf, PageSet, PathOf, UsedKept, Ways, WaysStand;
    ghost var s := Now(a);
    PathIsPage(n);
    SameViewsSelf(s.mem, s.owner);
    UsedKeptSelf(s.owner, a.kernel, s.frames);
    frame := a.UnmapPage(root, n);
    WaysStay(s.mem, a.mem, s.owner, s.owner, false);
    WaysSelf(s.mem, s.owner, true);
    WaysStay(s.mem, s.mem, s.owner, s.owner, true);
    if old(Exclusive(Now(a), a.kernel)) && (root == a.kernel || PathOf(n)[0] < 256) {
      if old(Leaf(a.mem, root, PathOf(n))) != None { SetKeeps(s, Now(a), a.kernel, root, PathOf(n), EMPTY); }
    }
  }

  /** PsCleanupTerminated: the space of a dead process goes, and with it exactly its own frames. */
  method EndSpace(a: AddressSpaces, root: nat, cr3: nat)
    requires a.Valid() && IsSpace(a.owner, root) && root != a.kernel && root != cr3 && Exclusive(Now(a), a.kernel)
    modifies a`owner, a.pmm`usedPages, a.pmm.used
    ensures a.Valid() && Step(old(Now(a)), Now(a), a.kernel, Drop(root))
    ensures Exclusive(Now(a), a.kernel) && NoneReach(Now(a), a.kernel, a.mem, a.pmm.highest, root)
    ensures forall p :: 0 <= p < a.pmm.highest ==> a.pmm.used[p] == (old(a.pmm.used[p]) && !GivenBack(a.mem, a.pmm.highest, root, p))
  {
    hide Tree, Reach, Backed, Exclusive, Leaf, LeavesOwned, Items, Right;
    ghost var s := Now(a);
    SpaceNotZero(s, a.kernel, root);
    ExclusiveIsOwned(s, a.kernel, root);
    FreeAddressSpace(a, root, cr3);
    forall p | 0 <= p < a.pmm.highest ensures a.pmm.used[p] == (old(a.pmm.used[p]) && !GivenBack(a.mem, a.pmm.highest, root, p)) {
      assert a.pmm.State().used[p] == a.pmm.used[p];
    }
    FreedKeeps(s, Now(a), a.kernel, root);
  }

  lemma SpaceNotZero(s: Sys, kernel: nat, root: nat)
    requires Whole(s, kernel) && IsSpace(s.owner, root)
    ensures root != 0
  {
    hide Tree;
  }

  /** The other pages of a space are untouched by a call on one page, in page numbers. */
  lemma OtherPage(s: Sys, s': Sys, kernel: nat, root: nat, n: nat, e: Pte, m: nat)
    requires Step(s, s', kernel, SetPage(root, PathOf(n), e)) && n < 0x10_0000_0000 && m < 0x10_0000_0000 && m != n
    ensures Translate(s'.mem, root, PathOf(m)) == Translate(s.mem, root, PathOf(m))
  {
    hide Leaf, Reach, PathOf, Whole, ReachKept;
    PathIsPage(m);
    if PathOf(m) == PathOf(n) { PathsDiffer(m, n); }
  }
}
