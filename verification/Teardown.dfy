/** PsFreeAddressSpace: walking the lower half of a dead space and giving its pages back. */
module Teardown {
  import opened Basics
  import opened Pmm
  import opened PageTables
  import opened Vmm

  /** `entry & ~0xFFF` as a page number. The mask keeps bits 52 to 63, so an entry with one
      of them set names a page far beyond memory. */
  function PageNo(e: Pte): nat { e.frame + FRAMES * e.high }

  /** The leaf at path `q` gives its frame back: it is no identity mapping, and in memory. */
  predicate Given(e: Pte, q: Path, highest: nat)
    requires IsPage(q)
  {
    e.Present() && NumberOf(q) != PageNo(e) && PageNo(e) < highest
  }

  /** An entry among the upper half of a table is present. */
  predicate HasUpper(mem: Memory, t: nat) {
    t < |mem| && exists i :: 256 <= i < ENTRIES && mem[t][i].Present()
  }

  /** A page given back, and the walk that led to it. */
  datatype Item = Item(path: Path, page: nat)

  predicate Indices(path: Path) { |path| <= 4 && forall k :: 0 <= k < |path| ==> path[k] < ENTRIES }

  /** What the loops give back below entries 0 up to `n` of table `t`, in order. */
  function Items(mem: Memory, highest: nat, t: nat, prefix: Path, n: nat): seq<Item>
    requires |prefix| <= 3 && Indices(prefix) && n <= ENTRIES
    decreases 2 * (4 - |prefix|), n
  {
    if n == 0 || t >= |mem| then []
    else Items(mem, highest, t, prefix, n - 1) + EntryItems(mem, highest, mem[t][n - 1], prefix + [n - 1])
  }

  function EntryItems(mem: Memory, highest: nat, e: Pte, path: Path): seq<Item>
    requires 1 <= |path| <= 4 && Indices(path)
    decreases 2 * (4 - |path|) + 1, 0
  {
    if !e.Present() then []
    else if |path| == 4 then (if Given(e, path, highest) then [Item(path, PageNo(e))] else [])
    else if |path| >= 2 && e.Huge() then []
    else
      Items(mem, highest, PageNo(e), path, ENTRIES)
      + if PageNo(e) < highest && !(|path| == 1 && HasUpper(mem, PageNo(e))) then [Item(path, PageNo(e))] else []
  }

  function Pages(items: seq<Item>): seq<nat> { seq(|items|, i requires 0 <= i < |items| => items[i].page) }

  lemma PagesConcat(xs: seq<Item>, ys: seq<Item>)
    ensures Pages(xs + ys) == Pages(xs) + Pages(ys)
  {
  }

  // ---- the loops -------------------------------------------------------------

  /** The allocator after giving back `items`. */
  function Returned(f: Frames, items: seq<Item>): Frames { ReleaseAll(f, Pages(items)) }

  lemma ReturnedMore(f: Frames, xs: seq<Item>, ys: seq<Item>)
    ensures Returned(f, xs + ys) == Returned(Returned(f, xs), ys)
  {
    PagesConcat(xs, ys);
    ReleaseAllConcat(f, Pages(xs), Pages(ys));
  }

  lemma ReturnedOne(f: Frames, x: Item)
    ensures Returned(f, [x]) == Release(f, x.page)
    ensures Returned(f, []) == f
  {
    assert Pages([x]) == [x.page] && [x.page][..0] == [];
    assert Pages([]) == [] && ReleaseAll(f, []) == f;
  }

  /** Gives back one tracked page. */
  method GiveBack(a: AddressSpaces, page: nat)
    requires a.pmm.Valid() && page < a.pmm.highest
    modifies a.pmm`usedPages, a.pmm.used
    ensures a.pmm.Valid() && a.pmm.State() == Release(old(a.pmm.State()), page)
  {
    a.pmm.FreePage(page);
  }

  /** The loop over a page table. */
  method FreeLeaves(a: AddressSpaces, t: nat, i: nat, j: nat, k: nat)
    requires a.pmm.Valid() && |a.mem| == a.pmm.highest && t < |a.mem| && Indices([i, j, k])
    modifies a.pmm`usedPages, a.pmm.used
    ensures a.pmm.Valid() && a.pmm.State() == Returned(old(a.pmm.State()), Items(a.mem, a.pmm.highest, t, [i, j, k], ENTRIES))
  {
    hide Returned, Count;
    ghost var f, h, prefix := a.pmm.State(), a.pmm.highest, [i, j, k];
    ReturnedOne(f, Item([], 0));
    var l := 0;
    while l < ENTRIES
      invariant l <= ENTRIES && a.pmm.Valid() && a.pmm.State() == Returned(f, Items(a.mem, h, t, prefix, l))
    {
      var e := a.mem[t][l];
      ghost var q := prefix + [l];
      assert q == [i, j, k, l];
      ReturnedMore(f, Items(a.mem, h, t, prefix, l), EntryItems(a.mem, h, e, q));
      ReturnedOne(Returned(f, Items(a.mem, h, t, prefix, l)), Item(q, PageNo(e)));
      if e.Present() {
        var virt := i * 0x800_0000 + j * 0x4_0000 + k * 0x200 + l;
        var phys := PageNo(e);
        if virt != phys && a.pmm.IsTracked(phys) {
          GiveBack(a, phys);
        }
      }
      l := l + 1;
    }
  }

  /** The loop over a page directory. */
  method FreeDirectory(a: AddressSpaces, t: nat, i: nat, j: nat)
    requires a.pmm.Valid() && |a.mem| == a.pmm.highest && t < |a.mem| && Indices([i, j]) && TablesIn(a.mem, t, [i, j])
    modifies a.pmm`usedPages, a.pmm.used
    ensures a.pmm.Valid() && a.pmm.State() == Returned(old(a.pmm.State()), Items(a.mem, a.pmm.highest, t, [i, j], ENTRIES))
  {
    hide Returned, Count;
    ghost var f, h, prefix := a.pmm.State(), a.pmm.highest, [i, j];
    ReturnedOne(f, Item([], 0));
    var k := 0;
    while k < ENTRIES
      invariant k <= ENTRIES && a.pmm.Valid() && a.pmm.State() == Returned(f, Items(a.mem, h, t, prefix, k))
    {
      var e := a.mem[t][k];
      ghost var q := prefix + [k];
      assert q == [i, j, k];
      ReturnedMore(f, Items(a.mem, h, t, prefix, k), EntryItems(a.mem, h, e, q));
      ghost var f1 := a.pmm.State();
      if e.Present() && !e.Huge() {
        var pt := PageNo(e);
        FreeLeaves(a, pt, i, j, k);
        EntryReturned(a.mem, h, e, q, f1);
        if a.pmm.IsTracked(pt) {
          GiveBack(a, pt);
        }
      } else {
        ReturnedOne(f1, Item(q, 0));
      }
      k := k + 1;
    }
  }

  /** The walk's tables are frames of memory (so every entry of it that is followed is). */
  ghost predicate TablesIn(mem: Memory, t: nat, prefix: Path)
    requires |prefix| <= 3 && Indices(prefix)
    decreases 4 - |prefix|
  {
    t < |mem| && (|prefix| < 3 ==> forall i :: 0 <= i < ENTRIES && mem[t][i].Present() && !(1 <= |prefix| && mem[t][i].Huge()) ==>
      PageNo(mem[t][i]) < |mem| && TablesIn(mem, PageNo(mem[t][i]), prefix + [i]))
  }

  lemma EntryReturned(mem: Memory, highest: nat, e: Pte, path: Path, f: Frames)
    requires 1 <= |path| <= 3 && Indices(path) && e.Present() && !(2 <= |path| && e.Huge())
    ensures var below := Returned(f, Items(mem, highest, PageNo(e), path, ENTRIES));
            Returned(f, EntryItems(mem, highest, e, path))
            == if PageNo(e) < highest && !(|path| == 1 && HasUpper(mem, PageNo(e))) then Release(below, PageNo(e)) else below
  {
    hide Items, Returned, HasUpper;
    var sub := Items(mem, highest, PageNo(e), path, ENTRIES);
    ReturnedMore(f, sub, [Item(path, PageNo(e))]);
    ReturnedOne(Returned(f, sub), Item(path, PageNo(e)));
    assert sub + [] == sub;
  }

  /** The loop over a directory pointer table. */
  method FreePointers(a: AddressSpaces, t: nat, i: nat)
    requires a.pmm.Valid() && |a.mem| == a.pmm.highest && t < |a.mem| && Indices([i]) && TablesIn(a.mem, t, [i])
    modifies a.pmm`usedPages, a.pmm.used
    ensures a.pmm.Valid() && a.pmm.State() == Returned(old(a.pmm.State()), Items(a.mem, a.pmm.highest, t, [i], ENTRIES))
  {
    hide Returned, Count;
    ghost var f, h, prefix := a.pmm.State(), a.pmm.highest, [i];
    ReturnedOne(f, Item([], 0));
    var j := 0;
    while j < ENTRIES
      invariant j <= ENTRIES && a.pmm.Valid() && a.pmm.State() == Returned(f, Items(a.mem, h, t, prefix, j))
    {
      var e := a.mem[t][j];
      ghost var q := prefix + [j];
      assert q == [i, j];
      ReturnedMore(f, Items(a.mem, h, t, prefix, j), EntryItems(a.mem, h, e, q));
      ghost var f1 := a.pmm.State();
      if e.Present() && !e.Huge() {
        var pd := PageNo(e);
        FreeDirectory(a, pd, i, j);
        EntryReturned(a.mem, h, e, q, f1);
        if a.pmm.IsTracked(pd) {
          GiveBack(a, pd);
        }
      } else {
        ReturnedOne(f1, Item(q, 0));
      }
      j := j + 1;
    }
  }

  /** Looks for an entry in the upper half of a table. */
  method SearchUpper(a: AddressSpaces, t: nat) returns (found: bool)
    requires t < |a.mem|
    ensures found == HasUpper(a.mem, t)
  {
    found := false;
    var kk := 256;
    while kk < ENTRIES
      invariant 256 <= kk <= ENTRIES && forall i :: 256 <= i < kk ==> !a.mem[t][i].Present()
    {
      if a.mem[t][kk].Present() { return true; }
      kk := kk + 1;
    }
  }

  /** The outer loops of PsFreeAddressSpace. */
  method FreeLowerHalf(a: AddressSpaces, root: nat)
    requires a.pmm.Valid() && |a.mem| == a.pmm.highest && root < |a.mem| && TablesIn(a.mem, root, [])
    modifies a.pmm`usedPages, a.pmm.used
    ensures a.pmm.Valid() && a.pmm.State() == Returned(old(a.pmm.State()), Items(a.mem, a.pmm.highest, root, [], 256))
  {
    hide Returned, Count;
    ghost var f, h := a.pmm.State(), a.pmm.highest;
    ReturnedOne(f, Item([], 0));
    var i := 0;
    while i < 256
      invariant i <= 256 && a.pmm.Valid() && a.pmm.State() == Returned(f, Items(a.mem, h, root, [], i))
    {
      var e := a.mem[root][i];
      assert [] + [i] == [i];
      ReturnedMore(f, Items(a.mem, h, root, [], i), EntryItems(a.mem, h, e, [i]));
      ghost var f1 := a.pmm.State();
      if e.Present() {
        var pdpt := PageNo(e);
        FreePointers(a, pdpt, i);
        EntryReturned(a.mem, h, e, [i], f1);
        var upper := SearchUpper(a, pdpt);
        if !upper && a.pmm.IsTracked(pdpt) {
          GiveBack(a, pdpt);
        }
      } else {
        ReturnedOne(f1, Item([i], 0));
      }
      i := i + 1;
    }
  }

  // ---- what the loops give back ----------------------------------------------

  /** `x` lies below entries 0 up to `n` of the table at `prefix`. */
  predicate Under(path: Path, prefix: Path, n: nat) {
    |prefix| < |path| <= 4 && path[..|prefix|] == prefix && path[|prefix|] < n
  }

  /** `x` is a table of the space below slot 256, or a leaf frame that is given back. */
  ghost predicate Right(mem: Memory, highest: nat, root: nat, x: Item)
    ensures Right(mem, highest, root, x) ==> 1 <= |x.path| <= 4 && Indices(x.path)
  {
    && 1 <= |x.path| <= 4 && Indices(x.path)
    && if |x.path| < 4 then
         Reach(mem, root, x.path) == Some(x.page) && !(|x.path| == 1 && HasUpper(mem, x.page))
       else
         Leaf(mem, root, x.path).Some? && Given(Leaf(mem, root, x.path).value, x.path, highest)
         && x.page == PageNo(Leaf(mem, root, x.path).value)
  }

  /** The setting of the following lemmas: the tables of a space, all in memory. */
  ghost predicate Space(mem: Memory, owner: map<nat, Role>, kernel: nat, highest: nat, root: nat) {
    Tree(mem, owner, kernel) && IsSpace(owner, root) && |mem| == highest <= FRAMES
  }

  lemma UnderStep(path: Path, prefix: Path, n: nat)
    requires |prefix| <= 3 && 1 <= n && Indices(path)
    ensures Under(path, prefix, n) <==> Under(path, prefix, n - 1) || path == prefix + [n - 1] || Under(path, prefix + [n - 1], ENTRIES)
  {
    var q := prefix + [n - 1];
    if Under(path, prefix, n) && path[|prefix|] == n - 1 {
      assert path[..|q|] == q;
    }
    if Under(path, q, ENTRIES) {
      assert path[..|prefix|] == path[..|q|][..|prefix|] && path[|prefix|] == path[..|q|][|prefix|];
    }
  }

  lemma NothingUnder(path: Path, prefix: Path)
    ensures !Under(path, prefix, 0)
  {
  }

  /** The loops give back exactly the pages that are right, in both directions. */
  lemma {:induction false} ItemsAre(mem: Memory, owner: map<nat, Role>, kernel: nat, highest: nat, root: nat, t: nat, prefix: Path, n: nat, x: Item)
    requires Space(mem, owner, kernel, highest, root) && |prefix| <= 3 && Indices(prefix) && n <= ENTRIES
    requires Reach(mem, root, prefix) == Some(t) && Indices(x.path)
    ensures x in Items(mem, highest, t, prefix, n) <==> Under(x.path, prefix, n) && Right(mem, highest, root, x)
    decreases 2 * (4 - |prefix|), n
  {
    hide Right, Space, Under, Reach;
    TableThere(mem, owner, kernel, highest, root, t, prefix);
    if n == 0 {
      NothingUnder(x.path, prefix);
    } else {
      var q, e := prefix + [n - 1], mem[t][n - 1];
      ItemsAre(mem, owner, kernel, highest, root, t, prefix, n - 1, x);
      EntryItemsAre(mem, owner, kernel, highest, root, t, q, x);
      UnderStep(x.path, prefix, n);
    }
  }

  lemma TableThere(mem: Memory, owner: map<nat, Role>, kernel: nat, highest: nat, root: nat, t: nat, prefix: Path)
    requires Space(mem, owner, kernel, highest, root) && |prefix| <= 3 && Reach(mem, root, prefix) == Some(t)
    ensures t < |mem| && t < FRAMES
  {
    hide Reach;
    ReachRole(mem, owner, kernel, root, prefix);
  }

  lemma {:induction false} EntryItemsAre(mem: Memory, owner: map<nat, Role>, kernel: nat, highest: nat, root: nat, t: nat, path: Path, x: Item)
    requires Space(mem, owner, kernel, highest, root) && 1 <= |path| <= 4 && Indices(path) && Indices(x.path)
    requires Reach(mem, root, path[..|path| - 1]) == Some(t) && t < |mem|
    ensures x in EntryItems(mem, highest, mem[t][path[|path| - 1]], path)
       <==> (x.path == path || Under(x.path, path, ENTRIES)) && Right(mem, highest, root, x)
    decreases 2 * (4 - |path|) + 1, 0
  {
    hide Right, Space, Under, Reach;
    var i := path[|path| - 1];
    var e := mem[t][i];
    if |path| == 4 {
      LeafItem(mem, highest, root, t, path, x);
    } else if !e.Present() {
      ReachSnoc(mem, root, path[..|path| - 1], i);
      assert path[..|path| - 1] + [i] == path;
      NothingBelow(mem, highest, root, path, x);
    } else {
      TableEntryIs(mem, owner, kernel, highest, root, t, path);
      ItemsAre(mem, owner, kernel, highest, root, e.frame, path, ENTRIES, x);
      TableItem(mem, highest, root, e.frame, path, x);
    }
  }

  /** A present entry above the last level leads to a table in memory. */
  lemma TableEntryIs(mem: Memory, owner: map<nat, Role>, kernel: nat, highest: nat, root: nat, t: nat, path: Path)
    requires Space(mem, owner, kernel, highest, root) && 1 <= |path| <= 3 && Indices(path)
    requires Reach(mem, root, path[..|path| - 1]) == Some(t) && t < |mem| && mem[t][path[|path| - 1]].Present()
    ensures var e := mem[t][path[|path| - 1]];
            !e.Huge() && PageNo(e) == e.frame < highest && Reach(mem, root, path) == Some(e.frame)
  {
    hide Reach;
    var front, i := path[..|path| - 1], path[|path| - 1];
    assert front + [i] == path;
    ReachRole(mem, owner, kernel, root, front);
    RoleAt(mem, owner, kernel, t, i);
    ReachSnoc(mem, root, front, i);
  }

  lemma LeafItem(mem: Memory, highest: nat, root: nat, t: nat, path: Path, x: Item)
    requires |path| == 4 && Indices(path) && Reach(mem, root, path[..3]) == Some(t) && t < |mem|
    ensures x in EntryItems(mem, highest, mem[t][path[3]], path)
       <==> (x.path == path || Under(x.path, path, ENTRIES)) && Right(mem, highest, root, x)
  {
    hide Reach;
  }

  lemma TableItem(mem: Memory, highest: nat, root: nat, t: nat, path: Path, x: Item)
    requires 1 <= |path| <= 3 && Indices(path) && Reach(mem, root, path) == Some(t)
    ensures x.path == path && Right(mem, highest, root, x) <==> x == Item(path, t) && !(|path| == 1 && HasUpper(mem, t))
  {
    hide Reach, HasUpper;
  }

  /** Below an absent entry there is nothing. */
  lemma {:induction false} NothingBelow(mem: Memory, highest: nat, root: nat, path: Path, x: Item)
    requires 1 <= |path| <= 3 && Indices(x.path) && Reach(mem, root, path) == None
    ensures (x.path == path || Under(x.path, path, ENTRIES)) ==> !Right(mem, highest, root, x)
  {
    hide Reach, HasUpper;
    if Under(x.path, path, ENTRIES) {
      StaysLost(mem, root, path, if |x.path| == 4 then x.path[..3] else x.path);
    }
  }

  lemma {:induction false} StaysLost(mem: Memory, root: nat, path: Path, longer: Path)
    requires Reach(mem, root, path) == None && |path| <= |longer| && longer[..|path|] == path
    ensures Reach(mem, root, longer) == None
  {
    if |path| == |longer| {
      assert longer == path;
    } else {
      var front := longer[..|longer| - 1];
      assert front[..|path|] == path;
      StaysLost(mem, root, path, front);
    }
  }

  // ---- each page once --------------------------------------------------------

  lemma {:induction false} ItemsUnder(mem: Memory, highest: nat, t: nat, prefix: Path, n: nat, x: Item)
    requires |prefix| <= 3 && Indices(prefix) && n <= ENTRIES && x in Items(mem, highest, t, prefix, n)
    ensures Under(x.path, prefix, n) && Indices(x.path)
    decreases 2 * (4 - |prefix|), n
  {
    hide Under;
    if n > 0 && t < |mem| {
      var q := prefix + [n - 1];
      if x in Items(mem, highest, t, prefix, n - 1) {
        ItemsUnder(mem, highest, t, prefix, n - 1, x);
      } else {
        EntryItemsUnder(mem, highest, mem[t][n - 1], q, x);
      }
      UnderStep(x.path, prefix, n);
    }
  }

  lemma {:induction false} EntryItemsUnder(mem: Memory, highest: nat, e: Pte, path: Path, x: Item)
    requires 1 <= |path| <= 4 && Indices(path) && x in EntryItems(mem, highest, e, path)
    ensures (x.path == path || Under(x.path, path, ENTRIES)) && Indices(x.path)
    decreases 2 * (4 - |path|) + 1, 0
  {
    if |path| < 4 && x in Items(mem, highest, PageNo(e), path, ENTRIES) {
      ItemsUnder(mem, highest, PageNo(e), path, ENTRIES, x);
    }
  }

  ghost predicate DistinctPaths(items: seq<Item>) {
    forall i, j :: 0 <= i < j < |items| ==> items[i].path != items[j].path
  }

  lemma {:induction false} ItemsDistinct(mem: Memory, highest: nat, t: nat, prefix: Path, n: nat)
    requires |prefix| <= 3 && Indices(prefix) && n <= ENTRIES
    ensures DistinctPaths(Items(mem, highest, t, prefix, n))
    decreases 2 * (4 - |prefix|), n
  {
    if n > 0 && t < |mem| {
      var xs, ys := Items(mem, highest, t, prefix, n - 1), EntryItems(mem, highest, mem[t][n - 1], prefix + [n - 1]);
      ItemsDistinct(mem, highest, t, prefix, n - 1);
      EntryItemsDistinct(mem, highest, mem[t][n - 1], prefix + [n - 1]);
      forall x, y | x in xs && y in ys ensures x.path != y.path {
        ItemsUnder(mem, highest, t, prefix, n - 1, x);
        EntryItemsUnder(mem, highest, mem[t][n - 1], prefix + [n - 1], y);
        UnderApart(x.path, y.path, prefix, n);
      }
      DistinctConcat(xs, ys);
    }
  }

  lemma UnderApart(x: Path, y: Path, prefix: Path, n: nat)
    requires |prefix| <= 3 && 1 <= n && Under(x, prefix, n - 1) && (y == prefix + [n - 1] || Under(y, prefix + [n - 1], ENTRIES))
    ensures x != y
  {
    var q := prefix + [n - 1];
    assert y[..|q|] == q && y[|prefix|] == y[..|q|][|prefix|];
  }

  lemma {:induction false} EntryItemsDistinct(mem: Memory, highest: nat, e: Pte, path: Path)
    requires 1 <= |path| <= 4 && Indices(path)
    ensures DistinctPaths(EntryItems(mem, highest, e, path))
    decreases 2 * (4 - |path|) + 1, 0
  {
    if |path| < 4 && e.Present() && !(2 <= |path| && e.Huge()) {
      var sub := Items(mem, highest, PageNo(e), path, ENTRIES);
      ItemsDistinct(mem, highest, PageNo(e), path, ENTRIES);
      forall x | x in sub ensures x.path != path { ItemsUnder(mem, highest, PageNo(e), path, ENTRIES, x); }
      DistinctConcat(sub, [Item(path, PageNo(e))]);
    }
  }

  lemma DistinctConcat(xs: seq<Item>, ys: seq<Item>)
    requires DistinctPaths(xs) && DistinctPaths(ys) && forall x, y :: x in xs && y in ys ==> x.path != y.path
    ensures DistinctPaths(xs + ys)
  {
    var zs := xs + ys;
    forall i, j | 0 <= i < j < |zs| ensures zs[i].path != zs[j].path {
      if i < |xs| <= j { assert xs[i] in xs && ys[j - |xs|] in ys; }
    }
  }

  /** The leaf frames a space would give back are allocated, unpinned, no tables, and mapped
      by one page of this space only. */
  ghost predicate LeavesOwned(mem: Memory, owner: map<nat, Role>, f: Frames, highest: nat, root: nat) {
    && (forall x: Item :: OwnLeaf(mem, highest, root, x) ==> f.Releasable(x.page) && x.page !in owner)
    && forall x: Item, y: Item :: OwnLeaf(mem, highest, root, x) && OwnLeaf(mem, highest, root, y) && x.page == y.page ==> x.path == y.path
  }

  ghost predicate OwnLeaf(mem: Memory, highest: nat, root: nat, x: Item) {
    |x.path| == 4 && Right(mem, highest, root, x) && x.path[0] < 256
  }

  /** What a torn-down space gives back: its lower-half tables and leaves, and its top table. */
  ghost predicate GivenBack(mem: Memory, highest: nat, root: nat, p: nat) {
    p == root || exists x :: Right(mem, highest, root, x) && x.path[0] < 256 && x.page == p
  }

  /** Which pages those are, by what they are for: every table of the space but a pointer table with an
      entry in its upper half present, and every frame in memory that a lower-half page is translated to
      with no high bits in its entry, unless that page is the frame's own number. */
  lemma GivenBackIs(mem: Memory, owner: map<nat, Role>, kernel: nat, highest: nat, root: nat, p: nat)
    requires Space(mem, owner, kernel, highest, root) && root != kernel
    ensures GivenBack(mem, highest, root, p) <==> TableBack(mem, owner, root, p) || exists q: Path :: LeafBack(mem, highest, root, q, p)
  {
    hide Reach, Tree, Leaf, TableBack, LeafBack;
    TableIsBack(mem, owner, kernel, highest, root, p);
    if x :| Right(mem, highest, root, x) && x.path[0] < 256 && x.page == p {
      if |x.path| == 4 { LeafIsBack(mem, highest, root, x.path, p); }
    }
    if q: Path :| LeafBack(mem, highest, root, q, p) { LeafIsBack(mem, highest, root, q, p); }
  }

  ghost predicate TableBack(mem: Memory, owner: map<nat, Role>, root: nat, p: nat) {
    && p in owner && owner[p].space == root
    && !(|owner[p].path| == 1 && p < |mem| && exists i :: 256 <= i < ENTRIES && mem[p][i].Present())
  }

  /** Page `q` is translated to frame `p`, which is not its own number, and its entry has no high bits. */
  ghost predicate LeafBack(mem: Memory, highest: nat, root: nat, q: Path, p: nat) {
    && IsPage(q) && q[0] < 256 && NumberOf(q) != p && p < highest
    && Leaf(mem, root, q).Some? && Leaf(mem, root, q).value.frame == p && Leaf(mem, root, q).value.high == 0
  }

  lemma LeafIsBack(mem: Memory, highest: nat, root: nat, q: Path, p: nat)
    requires highest <= FRAMES
    ensures |q| == 4 ==> (LeafBack(mem, highest, root, q, p) <==> Right(mem, highest, root, Item(q, p)) && q[0] < 256)
    ensures LeafBack(mem, highest, root, q, p) ==> |q| == 4
    ensures LeafBack(mem, highest, root, q, p) ==> GivenBack(mem, highest, root, p)
  {
    hide Leaf;
    if IsPage(q) && Leaf(mem, root, q).Some? { LeafPresent(mem, root, q); }
    if LeafBack(mem, highest, root, q, p) {
      var x := Item(q, p);
      assert Right(mem, highest, root, x) && x.path[0] < 256 && x.page == p;
    }
  }

  lemma TableIsBack(mem: Memory, owner: map<nat, Role>, kernel: nat, highest: nat, root: nat, p: nat)
    requires Space(mem, owner, kernel, highest, root) && root != kernel
    ensures TableBack(mem, owner, root, p) <==>
              p == root || exists x :: Right(mem, highest, root, x) && |x.path| < 4 && x.path[0] < 256 && x.page == p
  {
    hide Reach, Tree, Leaf;
    SpaceRoot(owner, root);
    if x :| Right(mem, highest, root, x) && |x.path| < 4 && x.path[0] < 256 && x.page == p {
      ReachRole(mem, owner, kernel, root, x.path);
      OwnTable(mem, owner, kernel, highest, root, p);
    }
    if TableBack(mem, owner, root, p) {
      OwnTable(mem, owner, kernel, highest, root, p);
      var x := Item(owner[p].path, p);
      if p != root { assert Right(mem, highest, root, x) && |x.path| < 4 && x.path[0] < 256 && x.page == p; }
    }
    if p == root { OwnTable(mem, owner, kernel, highest, root, p); }
  }

  lemma SpaceRoot(owner: map<nat, Role>, root: nat)
    requires IsSpace(owner, root)
    ensures root in owner && owner[root].space == root && owner[root].path == []
  {
  }

  lemma LeafPresent(mem: Memory, root: nat, q: Path)
    requires IsPage(q) && Leaf(mem, root, q).Some?
    ensures Leaf(mem, root, q).value.Present()
  {
  }

  /** A table of the space is the top one, or lies on a walk below slot 256. */
  lemma OwnTable(mem: Memory, owner: map<nat, Role>, kernel: nat, highest: nat, root: nat, t: nat)
    requires Space(mem, owner, kernel, highest, root) && root != kernel && t in owner && owner[t].space == root
    ensures t == root || (owner[t].path != [] && |owner[t].path| <= 3 && owner[t].path[0] < 256 && Indices(owner[t].path))
    ensures Reach(mem, root, owner[t].path) == Some(t) && t < |mem|
    ensures owner[t].path == [] ==> t == root
  {
    hide Reach, EntryOk;
    EmptyReach(mem, root);
    ReachIndices(mem, root, owner[t].path);
  }

  lemma {:induction false} ReachIndices(mem: Memory, root: nat, path: Path)
    requires Reach(mem, root, path).Some? && |path| <= 4
    ensures Indices(path)
  {
    if path != [] {
      var front := path[..|path| - 1];
      ReachIndices(mem, root, front);
      assert forall k :: 0 <= k < |front| ==> path[k] == front[k];
    }
  }

  /** Right items of the lower half are releasable, and different paths give different pages. */
  lemma RightPages(mem: Memory, owner: map<nat, Role>, kernel: nat, highest: nat, root: nat, f: Frames, x: Item)
    requires Space(mem, owner, kernel, highest, root) && Backed(owner, kernel, f) && root != kernel && |f.used| == highest
    requires LeavesOwned(mem, owner, f, highest, root) && Right(mem, highest, root, x) && x.path[0] < 256
    ensures f.Releasable(x.page) && x.page != root
    ensures |x.path| < 4 ==> x.page in owner && owner[x.page] == Role(root, x.path)
    ensures |x.path| == 4 ==> x.page !in owner
  {
    hide Reach, Tree, Leaf;
    if |x.path| < 4 { ReachRole(mem, owner, kernel, root, x.path); }
  }

  lemma RightOnce(mem: Memory, owner: map<nat, Role>, kernel: nat, highest: nat, root: nat, f: Frames, x: Item, y: Item)
    requires Space(mem, owner, kernel, highest, root) && Backed(owner, kernel, f) && root != kernel && |f.used| == highest
    requires LeavesOwned(mem, owner, f, highest, root) && Right(mem, highest, root, x) && x.path[0] < 256
    requires Right(mem, highest, root, y) && y.path[0] < 256 && x.page == y.page
    ensures x.path == y.path
  {
    hide Space, Backed, Frames.Releasable, Right;
    RightPages(mem, owner, kernel, highest, root, f, x);
    RightPages(mem, owner, kernel, highest, root, f, y);
  }

  /** The whole list: distinct releasable pages, exactly those to be given back. */
  lemma AllItems(mem: Memory, owner: map<nat, Role>, kernel: nat, highest: nat, root: nat, f: Frames)
    requires Space(mem, owner, kernel, highest, root) && Backed(owner, kernel, f) && root != kernel && |f.used| == highest
    requires LeavesOwned(mem, owner, f, highest, root)
    ensures var pages := Pages(Items(mem, highest, root, [], 256) + [Item([], root)]);
            && Distinct(pages)
            && (forall i :: 0 <= i < |pages| ==> f.Releasable(pages[i]))
            && forall p :: p in pages <==> GivenBack(mem, highest, root, p)
  {
    hide Space, Backed, Right, LeavesOwned, Items;
    var items := Items(mem, highest, root, [], 256);
    var all := items + [Item([], root)];
    ItemsDistinct(mem, highest, root, [], 256);
    EmptyReach(mem, root);
    forall x: Item ensures Indices(x.path) ==> (x in items <==> Right(mem, highest, root, x) && x.path != [] && x.path[0] < 256) {
      if Indices(x.path) {
        ItemsAre(mem, owner, kernel, highest, root, root, [], 256, x);
      }
    }
    forall i | 0 <= i < |items| ensures Indices(items[i].path) && items[i].path != [] {
      ItemsUnder(mem, highest, root, [], 256, items[i]);
    }
    RootReleasable(mem, owner, kernel, highest, root, f);
    forall i | 0 <= i < |items| ensures f.Releasable(items[i].page) && items[i].page != root {
      RightPages(mem, owner, kernel, highest, root, f, items[i]);
    }
    forall i, j | 0 <= i < j < |items| ensures items[i].page != items[j].page {
      if items[i].page == items[j].page { RightOnce(mem, owner, kernel, highest, root, f, items[i], items[j]); }
    }
    PagesAre(mem, highest, root, items);
  }

  lemma PagesAre(mem: Memory, highest: nat, root: nat, items: seq<Item>)
    requires forall x: Item :: Indices(x.path) ==> (x in items <==> Right(mem, highest, root, x) && x.path != [] && x.path[0] < 256)
    requires forall i :: 0 <= i < |items| ==> Indices(items[i].path) && items[i].path != []
    ensures forall p :: p in Pages(items + [Item([], root)]) <==> GivenBack(mem, highest, root, p)
  {
    hide Right;
    var all := items + [Item([], root)];
    forall p ensures p in Pages(all) <==> GivenBack(mem, highest, root, p) {
      if p in Pages(all) && p != root {
        var i :| 0 <= i < |all| && Pages(all)[i] == p;
        assert all[i] == items[i] && items[i] in items;
      }
      if p == root { assert Pages(all)[|items|] == root; }
      if x :| Right(mem, highest, root, x) && x.path[0] < 256 && x.page == p {
        assert x in items;
        var i :| 0 <= i < |items| && items[i] == x;
        assert Pages(all)[i] == p;
      }
    }
  }

  lemma RootReleasable(mem: Memory, owner: map<nat, Role>, kernel: nat, highest: nat, root: nat, f: Frames)
    requires Space(mem, owner, kernel, highest, root) && Backed(owner, kernel, f) && root != kernel && |f.used| == highest
    ensures f.Releasable(root)
  {
  }

  lemma {:induction false} AllTablesIn(mem: Memory, owner: map<nat, Role>, kernel: nat, highest: nat, root: nat, t: nat, prefix: Path)
    requires Space(mem, owner, kernel, highest, root) && |prefix| <= 3 && Indices(prefix) && Reach(mem, root, prefix) == Some(t)
    ensures TablesIn(mem, t, prefix)
    decreases 4 - |prefix|
  {
    hide Space, Reach;
    TableThere(mem, owner, kernel, highest, root, t, prefix);
    if |prefix| < 3 {
      forall i | 0 <= i < ENTRIES && mem[t][i].Present() && !(1 <= |prefix| && mem[t][i].Huge())
        ensures PageNo(mem[t][i]) < |mem| && TablesIn(mem, PageNo(mem[t][i]), prefix + [i])
      {
        assert (prefix + [i])[..|prefix|] == prefix;
        TableEntryIs(mem, owner, kernel, highest, root, t, prefix + [i]);
        SpaceSize(mem, owner, kernel, highest, root);
        AllTablesIn(mem, owner, kernel, highest, root, mem[t][i].frame, prefix + [i]);
      }
    }
  }

  lemma SpaceSize(mem: Memory, owner: map<nat, Role>, kernel: nat, highest: nat, root: nat)
    requires Space(mem, owner, kernel, highest, root)
    ensures |mem| == highest
  {
  }

  /** PsFreeAddressSpace: every lower-half table of the space and every leaf frame it owns is
      released, each once, and nothing else. */
  method FreeAddressSpace(a: AddressSpaces, root: nat, cr3: nat)
    requires a.Valid() && (root == 0 || (IsSpace(a.owner, root) && root != a.kernel))
    requires root != 0 ==> LeavesOwned(a.mem, a.owner, a.pmm.State(), a.pmm.highest, root)
    modifies a`owner, a.pmm`usedPages, a.pmm.used
    ensures a.Valid()
    ensures root == 0 || root == cr3 ==> a.pmm.State() == old(a.pmm.State()) && a.owner == old(a.owner)
    ensures root != 0 && root != cr3 ==>
              && a.owner == Dropped(old(a.owner), root) && a.pmm.State().pinned == old(a.pmm.State()).pinned
              && forall p :: 0 <= p < a.pmm.highest ==>
                   a.pmm.State().used[p] == (old(a.pmm.State()).used[p] && !GivenBack(a.mem, a.pmm.highest, root, p))
    ensures root != 0 && root != cr3 ==>
              a.pmm.usedPages + |Items(a.mem, a.pmm.highest, root, [], 256)| + 1 == old(a.pmm.usedPages)
  {
    hide Tree, Right, LeavesOwned, Items, Returned, Count, ReleaseAll, Dropped, Backed;
    if root == 0 || root == cr3 { return; }
    ghost var f, h, mem := a.pmm.State(), a.pmm.highest, a.mem;
    EmptyReach(mem, root);
    TableThere(mem, a.owner, a.kernel, h, root, root, []);
    AllTablesIn(mem, a.owner, a.kernel, h, root, root, []);
    AllItems(mem, a.owner, a.kernel, h, root, f);
    FreeLowerHalf(a, root);
    if a.pmm.IsTracked(root) {
      GiveBack(a, root);
    }
    LastReturned(f, Items(mem, h, root, [], 256), root);
    SpaceDropped(mem, a.owner, a.kernel, root);
    BackedDropped(mem, a.owner, a.kernel, h, root, f, a.pmm.State());
    a.owner := Dropped(a.owner, root);
  }

  lemma LastReturned(f: Frames, items: seq<Item>, root: nat)
    requires var pages := Pages(items + [Item([], root)]);
             f.Valid() && Distinct(pages) && forall i :: 0 <= i < |pages| ==> f.Releasable(pages[i])
    ensures var f', pages := Release(Returned(f, items), root), Pages(items + [Item([], root)]);
            && f'.Valid() && |f'.used| == |f.used| && f'.pinned == f.pinned
            && (forall p :: 0 <= p < |f.used| ==> f'.used[p] == (f.used[p] && p !in pages))
            && Count(f'.used) + |pages| == Count(f.used)
  {
    hide Returned, Count, ReleaseAll;
    ReturnedMore(f, items, [Item([], root)]);
    ReturnedOne(Returned(f, items), Item([], root));
    ReturnedIs(f, items + [Item([], root)]);
    ReleaseAllIs(f, Pages(items + [Item([], root)]));
  }

  lemma ReturnedIs(f: Frames, items: seq<Item>)
    ensures Returned(f, items) == ReleaseAll(f, Pages(items))
  {
  }

  /** The remaining tables are still allocated. */
  lemma BackedDropped(mem: Memory, owner: map<nat, Role>, kernel: nat, highest: nat, root: nat, f: Frames, f': Frames)
    requires Space(mem, owner, kernel, highest, root) && Backed(owner, kernel, f) && root != kernel && |f.used| == highest
    requires LeavesOwned(mem, owner, f, highest, root) && f'.Valid() && |f'.used| == highest && f'.pinned == f.pinned
    requires forall p :: 0 <= p < highest ==> f'.used[p] == (f.used[p] && !GivenBack(mem, highest, root, p))
    ensures Backed(Dropped(owner, root), kernel, f')
  {
    hide Right, LeavesOwned, Space;
    SpaceRole(mem, owner, kernel, highest, root);
    forall t | t in Dropped(owner, root) ensures f'.used[t] {
      if x :| Right(mem, highest, root, x) && x.path[0] < 256 && x.page == t {
        RightPages(mem, owner, kernel, highest, root, f, x);
      }
    }
    forall p | 0 <= p < highest && f'.pinned[p] ensures f'.used[p] {
      if x :| Right(mem, highest, root, x) && x.path[0] < 256 && x.page == p {
        RightPages(mem, owner, kernel, highest, root, f, x);
      }
    }
  }

  lemma SpaceRole(mem: Memory, owner: map<nat, Role>, kernel: nat, highest: nat, root: nat)
    requires Space(mem, owner, kernel, highest, root)
    ensures root in owner && owner[root].space == root
  {
  }

  // ---- VmmPinKernelPageTables ------------------------------------------------

  /** `p` is a table of the space, reached through entries 0 up to `n` of the table at `prefix`. */
  ghost predicate TableBelow(mem: Memory, root: nat, prefix: Path, n: nat, p: nat) {
    exists path: Path :: Under(path, prefix, n) && |path| <= 3 && Indices(path) && Reach(mem, root, path) == Some(p)
  }

  lemma NoTableBelow(mem: Memory, root: nat, prefix: Path, p: nat)
    ensures !TableBelow(mem, root, prefix, 0, p)
  {
  }

  /** One more entry of a table: its child, what lies below that, or nothing. */
  lemma TableBelowStep(mem: Memory, root: nat, t: nat, prefix: Path, n: nat, p: nat)
    requires |prefix| <= 2 && Indices(prefix) && n < ENTRIES && Reach(mem, root, prefix) == Some(t) && t < |mem|
    ensures TableBelow(mem, root, prefix, n + 1, p) <==>
            TableBelow(mem, root, prefix, n, p)
            || (mem[t][n].Present() && (p == mem[t][n].frame || TableBelow(mem, root, prefix + [n], ENTRIES, p)))
  {
    hide Reach, Under;
    var q := prefix + [n];
    ReachSnoc(mem, root, prefix, n);
    UnderStep(q, prefix, n + 1);
    forall path: Path | |path| <= 3 && Indices(path) && Reach(mem, root, path) == Some(p)
      ensures Under(path, prefix, n + 1) ==>
                Under(path, prefix, n) || (mem[t][n].Present() && (p == mem[t][n].frame || Under(path, q, ENTRIES)))
    {
      UnderStep(path, prefix, n + 1);
      if Under(path, q, ENTRIES) && !mem[t][n].Present() { LostBelow(mem, root, path, q); }
    }
    if path: Path :| Under(path, prefix, n) && |path| <= 3 && Indices(path) && Reach(mem, root, path) == Some(p) {
      UnderStep(path, prefix, n + 1);
    }
    if path: Path :| Under(path, q, ENTRIES) && |path| <= 3 && Indices(path) && Reach(mem, root, path) == Some(p) {
      UnderStep(path, prefix, n + 1);
    }
  }

  lemma LostBelow(mem: Memory, root: nat, path: Path, q: Path)
    requires Under(path, q, ENTRIES) && Reach(mem, root, q) == None
    ensures Reach(mem, root, path) == None
  {
    hide Reach;
    StaysLost(mem, root, q, path);
  }

  /** Pages in `now` are those of `was` and the tables below entries 0 up to `n`. */
  ghost predicate PinnedSoFar(was: Frames, now: Frames, mem: Memory, root: nat, prefix: Path, n: nat) {
    && now.used == was.used && |now.pinned| == |was.pinned|
    && forall p :: 0 <= p < |was.pinned| ==> now.pinned[p] == (was.pinned[p] || TableBelow(mem, root, prefix, n, p))
  }

  /** The loop over a page directory. */
  method PinDirectory(a: AddressSpaces, t: nat, i: nat, j: nat)
    requires Pinnable(a) && Indices([i, j]) && Reach(a.mem, a.kernel, [i, j]) == Some(t)
    modifies a.pmm.pinned
    ensures a.pmm.Valid() && PinnedSoFar(old(a.pmm.State()), a.pmm.State(), a.mem, a.kernel, [i, j], ENTRIES)
  {
    hide Tree, Reach, Count, TableBelow, EntryOk;
    ghost var f, prefix := a.pmm.State(), [i, j];
    TableThere(a.mem, a.owner, a.kernel, a.pmm.highest, a.kernel, t, prefix);
    forall p ensures !TableBelow(a.mem, a.kernel, prefix, 0, p) { NoTableBelow(a.mem, a.kernel, prefix, p); }
    var k := 0;
    while k < ENTRIES
      invariant k <= ENTRIES && Pinnable(a) && PinnedSoFar(f, a.pmm.State(), a.mem, a.kernel, prefix, k)
    {
      ghost var q := prefix + [k];
      forall p ensures TableBelow(a.mem, a.kernel, prefix, k + 1, p) <==>
                       TableBelow(a.mem, a.kernel, prefix, k, p) || (a.mem[t][k].Present() && p == a.mem[t][k].frame)
      {
        TableBelowStep(a.mem, a.kernel, t, prefix, k, p);
        NothingDeeper(a.mem, a.kernel, q, p);
      }
      var e := a.mem[t][k];
      if e.Present() {
        assert q[..2] == prefix;
        TableEntryIs(a.mem, a.owner, a.kernel, a.pmm.highest, a.kernel, t, q);
        NotZero(a, q, e.frame);
        if !e.Huge() {
          a.pmm.PinPage(e.frame);
        }
      }
      k := k + 1;
    }
  }

  lemma NothingDeeper(mem: Memory, root: nat, q: Path, p: nat)
    requires |q| == 3
    ensures !TableBelow(mem, root, q, ENTRIES, p)
  {
  }

  lemma NotZero(a: AddressSpaces, path: Path, t: nat)
    requires Pinnable(a) && |path| <= 3 && Reach(a.mem, a.kernel, path) == Some(t)
    ensures 0 < t < a.pmm.highest
  {
    hide Reach;
    ReachRole(a.mem, a.owner, a.kernel, a.kernel, path);
  }

  /** The kernel's tables are there; nothing is asked about pins. */
  ghost predicate Pinnable(a: AddressSpaces)
    reads a, a.pmm, a.pmm.used, a.pmm.pinned
  {
    && a.pmm.Valid() && Space(a.mem, a.owner, a.kernel, a.pmm.highest, a.kernel)
    && forall t :: t in a.owner ==> 0 < t < a.pmm.highest
  }

  method PinPointers(a: AddressSpaces, t: nat, i: nat)
    requires Pinnable(a) && Indices([i]) && Reach(a.mem, a.kernel, [i]) == Some(t)
    modifies a.pmm.pinned
    ensures a.pmm.Valid() && PinnedSoFar(old(a.pmm.State()), a.pmm.State(), a.mem, a.kernel, [i], ENTRIES)
  {
    hide Tree, Reach, Count, TableBelow, EntryOk;
    ghost var f, prefix := a.pmm.State(), [i];
    TableThere(a.mem, a.owner, a.kernel, a.pmm.highest, a.kernel, t, prefix);
    forall p ensures !TableBelow(a.mem, a.kernel, prefix, 0, p) { NoTableBelow(a.mem, a.kernel, prefix, p); }
    var j := 0;
    while j < ENTRIES
      invariant j <= ENTRIES && Pinnable(a) && PinnedSoFar(f, a.pmm.State(), a.mem, a.kernel, prefix, j)
    {
      ghost var q := prefix + [j];
      forall p { TableBelowStep(a.mem, a.kernel, t, prefix, j, p); }
      var e := a.mem[t][j];
      if e.Present() {
        assert q == [i, j] && q[..1] == prefix;
        TableEntryIs(a.mem, a.owner, a.kernel, a.pmm.highest, a.kernel, t, q);
        NotZero(a, q, e.frame);
        if !e.Huge() {
          a.pmm.PinPage(e.frame);
          PinDirectory(a, e.frame, i, j);
        }
      }
      j := j + 1;
    }
  }

  /** VmmPinKernelPageTables: exactly the kernel's tables get pinned. */
  method PinKernelPageTables(a: AddressSpaces)
    requires Pinnable(a)
    modifies a.pmm.pinned
    ensures a.pmm.Valid() && a.pmm.State().used == old(a.pmm.State()).used
    ensures forall p :: 0 <= p < a.pmm.highest ==>
              a.pmm.State().pinned[p] == (old(a.pmm.State()).pinned[p] || p == a.kernel || TableBelow(a.mem, a.kernel, [], ENTRIES, p))
  {
    hide Tree, Reach, Count, TableBelow, EntryOk;
    EmptyReach(a.mem, a.kernel);
    TableThere(a.mem, a.owner, a.kernel, a.pmm.highest, a.kernel, a.kernel, []);
    NotZero(a, [], a.kernel);
    a.pmm.PinPage(a.kernel);
    ghost var f := a.pmm.State();
    forall p ensures !TableBelow(a.mem, a.kernel, [], 0, p) { NoTableBelow(a.mem, a.kernel, [], p); }
    var i := 0;
    while i < ENTRIES
      invariant i <= ENTRIES && Pinnable(a) && PinnedSoFar(f, a.pmm.State(), a.mem, a.kernel, [], i)
    {
      ghost var q := [] + [i];
      forall p { TableBelowStep(a.mem, a.kernel, a.kernel, [], i, p); }
      var e := a.mem[a.kernel][i];
      if e.Present() {
        assert q == [i] && q[..0] == [];
        TableEntryIs(a.mem, a.owner, a.kernel, a.pmm.highest, a.kernel, a.kernel, q);
        NotZero(a, q, e.frame);
        a.pmm.PinPage(e.frame);
        PinPointers(a, e.frame, i);
      }
      i := i + 1;
    }
  }
}
