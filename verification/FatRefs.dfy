/** Which entries own which chains: every live entry points at its own file or
    directory, no two at the same one, and no two entries of a directory share an
    8.3 name. Pure statements about `Fs`. */
module FatRefs {
  import opened Basics
  import opened FatDisk
  import opened FatNames
  import opened FatDir
  import opened FatItems
  import opened FatScans
  import opened FatEdits
  import opened FatStore
  import opened FatFs

  ghost predicate InDir(fs: Fs, h: nat, i: int) {
    h in fs.dirs && 0 <= i < |fs.dirs[h].items|
  }

  ghost function ItemAt(fs: Fs, h: nat, i: int): Item
    requires InDir(fs, h, i)
  {
    fs.dirs[h].items[i]
  }

  /** An entry of directory `h` points at a chain of its kind and of the right length.
      First cluster 0 stands for no chain. */
  ghost predicate RefOk(g: Geometry, fs: Fs, h: nat, it: Item) {
    it.Entry? ==>
      if it.attr == DIRECTORY then it.first in fs.dirs && it.first != g.rootCluster && it.first != h && it.size == 0
      else if it.first == 0 then Chainless(g, it.size)
      else it.first in fs.files && JustEnough(|fs.files[it.first]|, g.spc, it.size)
  }

  /** The sizes a file without a chain can have: none, or one whose rounding sum wraps. */
  predicate Chainless(g: Geometry, size: nat) { size == 0 || !RoundsUp(size, g.ClusterSize()) }

  predicate SameTarget(a: Item, b: Item) { a.Entry? && b.Entry? && a.first == b.first && a.first != 0 }
  predicate SameName(a: Item, b: Item) { a.Entry? && b.Entry? && ShortName(a.name) == ShortName(b.name) }

  ghost predicate Refs(g: Geometry, fs: Fs) {
    && (forall h, i :: InDir(fs, h, i) ==> RefOk(g, fs, h, ItemAt(fs, h, i)))
    && (forall h, i, h', j :: InDir(fs, h, i) && InDir(fs, h', j) && SameTarget(ItemAt(fs, h, i), ItemAt(fs, h', j)) ==> h == h' && i == j)
    && forall h, i, j :: InDir(fs, h, i) && InDir(fs, h, j) && SameName(ItemAt(fs, h, i), ItemAt(fs, h, j)) ==> i == j
  }

  /** Item `j` of `fs` is still there when items `a` up to `b` of directory `h` are
      replaced and some directories are gone. */
  ghost predicate Survives(fs: Fs, fs': Fs, h: nat, a: nat, b: nat, h': nat, j: int) {
    InDir(fs, h', j) && h' in fs'.dirs && (h' == h ==> !(a <= j < b))
  }

  /** `fs'` has `mid` in place of items `a` up to `b` of directory `h`; other
      directories are as before or gone. */
  ghost predicate EditedAt(fs: Fs, fs': Fs, h: nat, a: nat, b: nat, mid: seq<Item>) {
    && h in fs.dirs && h in fs'.dirs && a <= b <= |fs.dirs[h].items|
    && fs'.dirs[h].items == fs.dirs[h].items[..a] + mid + fs.dirs[h].items[b..]
    && forall x :: x in fs'.dirs && x != h ==> x in fs.dirs && fs'.dirs[x].items == fs.dirs[x].items
  }

  /** Where an item of the edited volume was before. */
  ghost function Before(fs: Fs, h: nat, a: nat, b: nat, mid: seq<Item>, h': nat, j: int): int {
    if h' != h || j < a then j else j - |mid| - a + b
  }

  lemma BeforeIs(fs: Fs, fs': Fs, h: nat, a: nat, b: nat, mid: seq<Item>, h': nat, j: int)
    requires EditedAt(fs, fs', h, a, b, mid) && InDir(fs', h', j) && !(h' == h && a <= j < a + |mid|)
    ensures var k := Before(fs, h, a, b, mid, h', j);
            0 <= k && Survives(fs, fs', h, a, b, h', k) && ItemAt(fs, h', k) == ItemAt(fs', h', j)
  {
  }

  /** An edit that puts in at most one entry, next to erased slots, keeps the references. */
  lemma RefsEdited(g: Geometry, fs: Fs, fs': Fs, h: nat, a: nat, b: nat, mid: seq<Item>)
    requires Refs(g, fs) && EditedAt(fs, fs', h, a, b, mid)
    requires |mid| == 1 || forall x :: 0 <= x < |mid| ==> mid[x].Gone?
    requires |mid| == 1 ==> RefOk(g, fs', h, mid[0])
    requires forall h', j :: Survives(fs, fs', h, a, b, h', j) ==> RefOk(g, fs', h', ItemAt(fs, h', j))
    requires |mid| == 1 ==> forall h', j :: Survives(fs, fs', h, a, b, h', j) ==> !SameTarget(ItemAt(fs, h', j), mid[0])
    requires |mid| == 1 ==> forall j :: Survives(fs, fs', h, a, b, h, j) ==> !SameName(ItemAt(fs, h, j), mid[0])
    ensures Refs(g, fs')
  {
    hide RefOk, SameTarget, SameName, ItemAt, InDir, Survives, EditedAt;
    forall h', j | InDir(fs', h', j) ensures RefOk(g, fs', h', ItemAt(fs', h', j)) {
      RefEdited(g, fs, fs', h, a, b, mid, h', j);
    }
    forall h1, i, h2, j | InDir(fs', h1, i) && InDir(fs', h2, j) && SameTarget(ItemAt(fs', h1, i), ItemAt(fs', h2, j))
      ensures h1 == h2 && i == j
    {
      TargetEdited(g, fs, fs', h, a, b, mid, h1, i, h2, j);
    }
    forall h', i, j | InDir(fs', h', i) && InDir(fs', h', j) && SameName(ItemAt(fs', h', i), ItemAt(fs', h', j)) ensures i == j {
      NameEdited(g, fs, fs', h, a, b, mid, h', i, j);
    }
  }

  lemma RefEdited(g: Geometry, fs: Fs, fs': Fs, h: nat, a: nat, b: nat, mid: seq<Item>, h': nat, j: int)
    requires EditedAt(fs, fs', h, a, b, mid) && InDir(fs', h', j)
    requires |mid| == 1 || forall x :: 0 <= x < |mid| ==> mid[x].Gone?
    requires |mid| == 1 ==> RefOk(g, fs', h, mid[0])
    requires forall h', j :: Survives(fs, fs', h, a, b, h', j) ==> RefOk(g, fs', h', ItemAt(fs, h', j))
    ensures RefOk(g, fs', h', ItemAt(fs', h', j))
  {
    hide Survives;
    if h' == h && a <= j < a + |mid| {
      assert ItemAt(fs', h', j) == mid[j - a];
    } else {
      BeforeIs(fs, fs', h, a, b, mid, h', j);
    }
  }

  lemma TargetEdited(g: Geometry, fs: Fs, fs': Fs, h: nat, a: nat, b: nat, mid: seq<Item>, h1: nat, i: int, h2: nat, j: int)
    requires Refs(g, fs) && EditedAt(fs, fs', h, a, b, mid) && InDir(fs', h1, i) && InDir(fs', h2, j)
    requires |mid| == 1 || forall x :: 0 <= x < |mid| ==> mid[x].Gone?
    requires |mid| == 1 ==> forall h', j :: Survives(fs, fs', h, a, b, h', j) ==> !SameTarget(ItemAt(fs, h', j), mid[0])
    requires SameTarget(ItemAt(fs', h1, i), ItemAt(fs', h2, j))
    ensures h1 == h2 && i == j
  {
    hide RefOk, SameName;
    var m1, m2 := h1 == h && a <= i < a + |mid|, h2 == h && a <= j < a + |mid|;
    if m1 { assert ItemAt(fs', h1, i) == mid[i - a]; } else { BeforeIs(fs, fs', h, a, b, mid, h1, i); }
    if m2 { assert ItemAt(fs', h2, j) == mid[j - a]; } else { BeforeIs(fs, fs', h, a, b, mid, h2, j); }
  }

  lemma NameEdited(g: Geometry, fs: Fs, fs': Fs, h: nat, a: nat, b: nat, mid: seq<Item>, h': nat, i: int, j: int)
    requires Refs(g, fs) && EditedAt(fs, fs', h, a, b, mid) && InDir(fs', h', i) && InDir(fs', h', j)
    requires |mid| == 1 || forall x :: 0 <= x < |mid| ==> mid[x].Gone?
    requires |mid| == 1 ==> forall j :: Survives(fs, fs', h, a, b, h, j) ==> !SameName(ItemAt(fs, h, j), mid[0])
    requires SameName(ItemAt(fs', h', i), ItemAt(fs', h', j))
    ensures i == j
  {
    hide RefOk, SameTarget, ShortName;
    var m1, m2 := h' == h && a <= i < a + |mid|, h' == h && a <= j < a + |mid|;
    if m1 { assert ItemAt(fs', h', i) == mid[i - a]; } else { BeforeIs(fs, fs', h, a, b, mid, h', i); }
    if m2 { assert ItemAt(fs', h', j) == mid[j - a]; } else { BeforeIs(fs, fs', h, a, b, mid, h', j); }
  }

  // ---- the three edits of the driver ----------------------------------------

  /** The volume once the file `old` of an overwritten entry is gone and the new one is in. */
  function Swapped(fs: Fs, gone: nat, fc: seq<nat>): Fs {
    var fs0 := if gone == 0 then fs else Without(fs, gone);
    if fc == [] then fs0 else WithFile(fs0, fc)
  }

  function SetItem(fs: Fs, h: nat, i: nat, e: Item): Fs
    requires h in fs.dirs && i < |fs.dirs[h].items|
  {
    WithDir(fs, h, Dir(fs.dirs[h].cs, fs.dirs[h].items[i := e]))
  }

  /** A reference to anything but the replaced chain still holds. */
  lemma StillRef(g: Geometry, fs: Fs, gone: Item, fc: seq<nat>, h: nat, x: Item, e: Item)
    requires Headed(g, fs) && RefOk(g, fs, h, x) && !SameTarget(x, gone) && gone.Entry?
    requires fc != [] ==> var fs0 := Swapped(fs, gone.first, []); fc[0] !in fs0.dirs && fc[0] !in fs0.files && fc[0] != 0
    ensures RefOk(g, Swapped(fs, gone.first, fc), h, x)
    ensures e.Entry? && e.first == (if fc == [] then 0 else fc[0]) ==> !SameTarget(x, e)
  {
    hide JustEnough;
  }

  /** Overwriting a file. */
  lemma RefsOverwritten(g: Geometry, fs: Fs, h: nat, i: nat, fc: seq<nat>, first: nat, size: nat)
    requires Headed(g, fs) && Refs(g, fs) && InDir(fs, h, i) && ItemAt(fs, h, i).Entry? && ItemAt(fs, h, i).attr == ARCHIVE
    requires if fc == [] then first == 0 && Chainless(g, size) else first == fc[0] && JustEnough(|fc|, g.spc, size)
    requires fc != [] ==> var fs0 := Swapped(fs, ItemAt(fs, h, i).first, []); fc[0] !in fs0.dirs && fc[0] !in fs0.files && fc[0] != 0
    ensures h in Swapped(fs, ItemAt(fs, h, i).first, fc).dirs && Swapped(fs, ItemAt(fs, h, i).first, fc).dirs[h] == fs.dirs[h]
    ensures var it := ItemAt(fs, h, i);
            Refs(g, SetItem(Swapped(fs, it.first, fc), h, i, Entry(it.name, ARCHIVE, first, size)))
  {
    hide JustEnough, ShortName, RefOk, SameTarget;
    var it := ItemAt(fs, h, i);
    assert RefOk(g, fs, h, it);
    OwnDirStays(g, fs, h, it, fc);
    var e := Entry(it.name, ARCHIVE, first, size);
    var fs' := SetItem(Swapped(fs, it.first, fc), h, i, e);
    assert EditedAt(fs, fs', h, i, i + 1, [e]);
    NewFileRef(g, fs', h, e, fc);
    forall h', j | Survives(fs, fs', h, i, i + 1, h', j)
      ensures RefOk(g, fs', h', ItemAt(fs, h', j)) && !SameTarget(ItemAt(fs, h', j), e)
    {
      StillRef(g, fs, it, fc, h', ItemAt(fs, h', j), e);
      SameKeys(g, Swapped(fs, it.first, fc), fs', h', ItemAt(fs, h', j));
    }
    forall j | Survives(fs, fs', h, i, i + 1, h, j) ensures !SameName(ItemAt(fs, h, j), e) {
      assert !SameName(ItemAt(fs, h, j), it);
    }
    RefsEdited(g, fs, fs', h, i, i + 1, [e]);
  }

  lemma OwnDirStays(g: Geometry, fs: Fs, h: nat, it: Item, fc: seq<nat>)
    requires Headed(g, fs) && h in fs.dirs && RefOk(g, fs, h, it) && it.Entry? && it.attr != DIRECTORY
    ensures h in Swapped(fs, it.first, fc).dirs && Swapped(fs, it.first, fc).dirs[h] == fs.dirs[h]
    ensures forall x :: x in Swapped(fs, it.first, fc).dirs ==> x in fs.dirs && Swapped(fs, it.first, fc).dirs[x] == fs.dirs[x]
    ensures fc != [] ==> fc[0] in Swapped(fs, it.first, fc).files && Swapped(fs, it.first, fc).files[fc[0]] == fc
  {
  }

  lemma NewFileRef(g: Geometry, fs: Fs, h: nat, e: Item, fc: seq<nat>)
    requires e.Entry? && e.attr == ARCHIVE
    requires if fc == [] then e.first == 0 && Chainless(g, e.size) else e.first == fc[0] != 0 && fc[0] in fs.files && fs.files[fc[0]] == fc && JustEnough(|fc|, g.spc, e.size)
    ensures RefOk(g, fs, h, e)
  {
    hide JustEnough;
  }

  ghost predicate NoEntry(items: seq<Item>) {
    forall i :: 0 <= i < |items| ==> !items[i].Entry?
  }

  /** `fs1` is `fs` plus the still unreferenced target of the new entry `e`. */
  ghost predicate Prepared(g: Geometry, fs: Fs, fs1: Fs, e: Item) {
    && e.Entry?
    && if e.attr == DIRECTORY then
         && e.size == 0 && e.first != 0 && e.first !in fs.dirs && e.first !in fs.files
         && exists dir :: fs1 == WithDir(fs, e.first, dir) && NoEntry(dir.items)
       else if e.first == 0 then fs1 == fs && Chainless(g, e.size)
       else exists fc :: fc != [] && fc[0] == e.first && e.first !in fs.dirs && e.first !in fs.files
                         && fs1 == WithFile(fs, fc) && JustEnough(|fc|, g.spc, e.size)
  }

  lemma PreparedRef(g: Geometry, fs: Fs, fs1: Fs, e: Item, h: nat)
    requires Headed(g, fs) && Refs(g, fs) && Prepared(g, fs, fs1, e) && h in fs.dirs
    ensures e.Entry? && h in fs1.dirs && fs1.dirs[h] == fs.dirs[h] && RefOk(g, fs1, h, e)
    ensures forall h', j :: InDir(fs1, h', j) ==> RefOk(g, fs1, h', ItemAt(fs1, h', j)) && !SameTarget(ItemAt(fs1, h', j), e)
    ensures Refs(g, fs1)
  {
    hide JustEnough, ShortName;
    forall h', j | InDir(fs1, h', j) ensures RefOk(g, fs1, h', ItemAt(fs1, h', j)) && !SameTarget(ItemAt(fs1, h', j), e) {
      if InDir(fs, h', j) { assert RefOk(g, fs, h', ItemAt(fs, h', j)); }
    }
    forall h1, i, h2, j | InDir(fs1, h1, i) && InDir(fs1, h2, j) && SameTarget(ItemAt(fs1, h1, i), ItemAt(fs1, h2, j))
      ensures h1 == h2 && i == j
    {
      assert InDir(fs, h1, i) && InDir(fs, h2, j) && SameTarget(ItemAt(fs, h1, i), ItemAt(fs, h2, j));
    }
    forall h', i, j | InDir(fs1, h', i) && InDir(fs1, h', j) && SameName(ItemAt(fs1, h', i), ItemAt(fs1, h', j)) ensures i == j {
      assert InDir(fs, h', i) && InDir(fs, h', j) && SameName(ItemAt(fs, h', i), ItemAt(fs, h', j));
    }
  }

  /** Adding an entry under an unused name. */
  lemma RefsAdded(g: Geometry, fs: Fs, fs1: Fs, h: nat, dir: Dir, e: Item, a: nat, b: nat)
    requires Headed(g, fs) && Refs(g, fs) && Prepared(g, fs, fs1, e) && h in fs.dirs
    requires Added(fs.dirs[h].items, dir.items, e, a, b) && FirstShort(fs.dirs[h].items, ShortName(e.name)) == None
    ensures Refs(g, WithDir(fs1, h, dir))
  {
    hide RefOk, SameTarget, ShortName, Prepared, Refs;
    PreparedRef(g, fs, fs1, e, h);
    var fs' := WithDir(fs1, h, dir);
    assert EditedAt(fs1, fs', h, a, b, [e]);
    forall h', j | Survives(fs1, fs', h, a, b, h', j) ensures RefOk(g, fs', h', ItemAt(fs1, h', j)) {
      SameKeys(g, fs1, fs', h', ItemAt(fs1, h', j));
    }
    SameKeys(g, fs1, fs', h, e);
    forall j | Survives(fs1, fs', h, a, b, h, j) ensures !SameName(ItemAt(fs1, h, j), e) {
      assert !HasShort(ItemAt(fs1, h, j), ShortName(e.name));
    }
    RefsEdited(g, fs1, fs', h, a, b, [e]);
  }

  lemma SameKeys(g: Geometry, fs: Fs, fs': Fs, h: nat, it: Item)
    requires RefOk(g, fs, h, it) && fs'.dirs.Keys == fs.dirs.Keys && fs'.files == fs.files
    ensures RefOk(g, fs', h, it)
  {
  }

  /** Erasing an entry together with what it points at. */
  lemma RefsErased(g: Geometry, fs: Fs, h: nat, i: nat, mid: seq<Item>)
    requires Headed(g, fs) && Refs(g, fs) && InDir(fs, h, i) && ItemAt(fs, h, i).Entry?
    requires forall x :: 0 <= x < |mid| ==> mid[x].Gone?
    ensures var fs0, items := Swapped(fs, ItemAt(fs, h, i).first, []), fs.dirs[h].items;
            h in fs0.dirs && Refs(g, WithDir(fs0, h, Dir(fs.dirs[h].cs, items[..i] + mid + items[i + 1..])))
  {
    hide JustEnough, ShortName;
    var it, items := ItemAt(fs, h, i), fs.dirs[h].items;
    assert RefOk(g, fs, h, it);
    var fs' := WithDir(Swapped(fs, it.first, []), h, Dir(fs.dirs[h].cs, items[..i] + mid + items[i + 1..]));
    assert EditedAt(fs, fs', h, i, i + 1, mid);
    forall h', j | Survives(fs, fs', h, i, i + 1, h', j) ensures RefOk(g, fs', h', ItemAt(fs, h', j)) {
      StillRef(g, fs, it, [], h', ItemAt(fs, h', j), it);
      SameKeys(g, Swapped(fs, it.first, []), fs', h', ItemAt(fs, h', j));
    }
    if |mid| == 1 { assert mid[0].Gone?; }
    RefsEdited(g, fs, fs', h, i, i + 1, mid);
  }
}
