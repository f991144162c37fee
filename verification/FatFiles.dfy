/** The steps of writing and deleting, each taking one picture of the volume to the next. */
module FatFiles {
  import opened Basics
  import opened Arith
  import opened FatDisk
  import opened FatCells
  import opened FatChains
  import opened FatTables
  import opened FatData
  import opened FatNames
  import opened FatDir
  import opened FatItems
  import opened FatScans
  import opened FatEdits
  import opened FatSlots
  import opened FatVolume
  import opened FatDirectory
  import opened FatEntries
  import opened FatGrow
  import opened FatCreate
  import opened FatStore
  import opened FatFrame
  import opened FatFs
  import opened FatRefs

  ghost predicate Carries(v: Volume, fs: Fs)
    reads v
  {
    v.Valid() && Layout(v.disk, v.g, fs)
  }

  /** The volume carries `fs`, and `h` is one of its directories. */
  ghost predicate At(v: Volume, fs: Fs, h: nat)
    reads v
  {
    Carries(v, fs) && h in fs.dirs && DirOk(v, h, fs.dirs[h].cs, fs.dirs[h].items)
  }

  lemma CarriesAt(v: Volume, fs: Fs, h: nat)
    requires Carries(v, fs) && h in fs.dirs
    ensures At(v, fs, h)
  {
    assert DirLaid(v.disk, v.g, h, fs.dirs[h]);
  }

  lemma SameFiles(d: Disk, g: Geometry, fs: Fs)
    requires Layout(d, g, fs)
    ensures FilesKept(d, d, g, fs)
  {
    hide FatOf, Mirrored, DirLaid, Forest, Chains, ChainStream;
    forall f | f in fs.files ensures OnClusters(g, fs.files[f]) { KeyChain(g, FatOf(d, g), fs, f); }
  }

  /** A FAT that came back to what it was. */
  lemma FatRestored(d: Disk, d': Disk, g: Geometry, fs: Fs)
    requires Layout(d, g, fs) && Fitting(d', g) && Mirrored(d', g) && Touched(d, d', g, []) && FatOf(d', g) == FatOf(d, g)
    ensures Layout(d', g, fs) && FilesKept(d, d', g, fs)
  {
    hide FatOf, Mirrored, DirLaid, Forest, Chains, ChainStream;
    forall h | h in fs.dirs ensures DirLaid(d', g, h, fs.dirs[h]) { KeptByFat(d, d', g, fs, fs, h); }
    forall f | f in fs.files ensures OnClusters(g, fs.files[f]) && ChainStream(d', g, fs.files[f]) == ChainStream(d, g, fs.files[f]) {
      KeyChain(g, FatOf(d, g), fs, f);
      StreamKeptByFat(d, d', g, fs.files[f]);
    }
  }

  /** Frees the chain of an entry, if it has one. */
  method FreeOld(v: Volume, first: nat, ghost fs: Fs)
    requires Carries(v, fs) && (first == 0 || ((first in fs.dirs || first in fs.files) && first != v.g.rootCluster))
    modifies v`disk, v.buf
    ensures Carries(v, Swapped(fs, first, [])) && FilesKept(old(v.disk), v.disk, v.g, Swapped(fs, first, []))
    ensures first == 0 ==> FreeSet(v.Fat()) == FreeSet(old(v.Fat()))
    ensures first != 0 ==> FreeSet(v.Fat()) == FreeSet(old(v.Fat())) + Elems(ChainOf(fs, first))
    ensures first != 0 ==> |FreeSet(v.Fat())| == |FreeSet(old(v.Fat()))| + |ChainOf(fs, first)|
    ensures OnlyFatChanged(old(v.disk), v.disk, v.g)
    ensures if first == 0 then v.Fat() == old(v.Fat()) else FreedFrom(old(v.Fat()), v.Fat(), first)
  {
    hide FatOf, Mirrored, DirLaid, Forest, Chains, ChainStream, FreeSet, FilesKept;
    SameFiles(v.disk, v.g, fs);
    if first != 0 { KeyChain(v.g, v.Fat(), fs, first); }
    if first >= 2 {
      ghost var d := v.disk;
      v.FreeClusterChain(first);
      ChainFreed(d, v.disk, v.g, fs, first);
    }
  }

  /** Lays the data on a fresh chain. */
  method StoreFile(v: Volume, data: Bytes, ghost fs: Fs) returns (status: Status, first: nat, ghost fc: seq<nat>)
    requires Carries(v, fs) && |data| < 0x1_0000_0000
    modifies v`disk, v`lastAllocated, v.buf
    ensures status == Success || status == DiskFull
    ensures FilesKept(old(v.disk), v.disk, v.g, fs)
    ensures status == DiskFull ==> Carries(v, fs) && v.Fat() == old(v.Fat())
    ensures status == DiskFull ==>
              |data| > 0 && RoundsUp(|data|, v.g.ClusterSize()) && |FreeSet(old(v.Fat()))| * v.g.ClusterSize() < |data|
    ensures status == Success ==> Carries(v, Swapped(fs, 0, fc)) && FreshChain(old(v.Fat()), v.Fat(), EofMarker(v.g.kind), fc)
    ensures status == Success ==> (fc == [] <==> |data| == 0 || !RoundsUp(|data|, v.g.ClusterSize()))
    ensures status == Success && fc == [] ==> first == 0
    ensures status == Success && fc != [] ==>
              && first == fc[0] && JustEnough(|fc|, v.g.spc, |data|) && fc[0] !in fs.dirs && fc[0] !in fs.files
              && OnClusters(v.g, fc) && ChainStream(v.disk, v.g, fc)[..|data|] == data
    ensures status == Success ==> if fc == [] then v.disk == old(v.disk) else Touched(old(v.disk), v.disk, v.g, ChainSectors(v.g, fc))
  {
    hide FatOf, Mirrored, DirLaid, Forest, Chains, ChainStream, FreeSet, FilesKept, ChainSectors, FreshChain;
    SameFiles(v.disk, v.g, fs);
    ghost var d := v.disk;
    status, first, fc := StoreData(v, data);
    if status == DiskFull {
      FatRestored(d, v.disk, v.g, fs);
    } else if fc != [] {
      FileLaid(d, v.disk, v.g, fs, fc);
    }
  }

  /** The directory `h` on `cs` has the same slots on both disks. */
  ghost predicate SlotsKept(d: Disk, d': Disk, g: Geometry, h: nat, cs: seq<nat>) {
    && (FixedRoot(g, h) || OnClusters(g, cs))
    && (var secs := DirSectors(g, h, cs); OnDisk(d, secs) && OnDisk(d', secs) && SlotsOf(d', secs) == SlotsOf(d, secs))
  }

  /** Laying a file changes no directory. */
  lemma SlotsBesideFile(d: Disk, d': Disk, g: Geometry, fs: Fs, fc: seq<nat>, h: nat)
    requires Layout(d, g, fs) && Layout(d', g, Swapped(fs, 0, fc)) && h in fs.dirs
    requires fc == [] ==> d' == d
    requires fc != [] ==> OnClusters(g, fc) && Touched(d, d', g, ChainSectors(g, fc)) && fc[0] !in fs.dirs && fc[0] !in fs.files
    ensures SlotsKept(d, d', g, h, fs.dirs[h].cs)
  {
    hide FatOf, Mirrored, Forest, Chains, ChainStream, Spells, LfnSeated, SlotsOf, Touched, DirSectors, InRange;
    var fs', cs := Swapped(fs, 0, fc), fs.dirs[h].cs;
    assert DirLaid(d, g, h, fs.dirs[h]);
    DirSectorsGood(d, g, FatOf(d, g), h, cs);
    if !FixedRoot(g, h) { KeyChain(g, FatOf(d', g), fs', h); }
    if fc != [] {
      if !FixedRoot(g, h) { KeysApart(g, FatOf(d', g), fs', h, fc[0]); }
      FileSectors(g, fc);
      OwnerKept(d, d', g, h, cs, fc[0], fc);
      SlotsSame(d, d', DirSectors(g, h, cs));
    }
  }

  lemma FileSectors(g: Geometry, fc: seq<nat>)
    requires fc != [] && OnClusters(g, fc)
    ensures !FixedRoot(g, fc[0]) && DirSectors(g, fc[0], fc) == ChainSectors(g, fc)
  {
  }

  // ---- overwriting an entry --------------------------------------------------

  /** The 8.3 slot of item `i`. */
  ghost function ShortAt(kind: FatType, items: seq<Item>, i: nat): nat
    requires ItemsOk(kind, items) && i < |items|
  {
    |Lay(kind, items[..i])| + |ItemSlots(kind, items[i])| - 1
  }

  /** The scan of Fat32WriteFile on a directory in the driver's form. */
  lemma ScanFinds(kind: FatType, ss: seq<Slot>, items: seq<Item>, name: Name)
    requires Spells(kind, ss, items) && GoodName(name)
    ensures ScanShort(ss, ShortName(name))
         == match FirstShort(items, ShortName(name)) case None => None case Some(i) => Some(ShortAt(kind, items, i))
  {
    hide ItemSlots, Lay, ScanShort, ShortName, FirstShort, HasShort, SlotsUpTo, ItemOk;
    var l := Lay(kind, items);
    assert ss == l + ss[|l|..];
    ScanItems(kind, items, ss[|l|..], ShortName(name));
    match FirstShort(items, ShortName(name))
    case None =>
    case Some(i) => UpToIsLay(kind, items, i);
  }

  /** The 8.3 slot of an entry carries its fields. */
  lemma ShortSlotIs(kind: FatType, ss: seq<Slot>, items: seq<Item>, i: nat)
    requires Spells(kind, ss, items) && i < |items| && items[i].Entry?
    ensures ShortAt(kind, items, i) < |ss|
    ensures var s := ss[ShortAt(kind, items, i)];
            FirstOf(kind, s) == items[i].first && IsDirectory(s) == (items[i].attr == DIRECTORY)
  {
    hide Lay, ShortSlot, FirstOf, LongSlots, ShortName;
    ItemSlice(kind, ss, items, i);
    ShortSlotLooks(kind, items[i]);
    var p, n := |Lay(kind, items[..i])|, |ItemSlots(kind, items[i])|;
    assert ss[p + n - 1] == ss[p..p + n][n - 1];
  }

  lemma StoredFits(g: Geometry, first: nat)
    requires g.Valid() && first < g.maxCluster
    ensures Storable(g.kind, first)
  {
  }

  /** Rewrites the 8.3 slot of a file's entry. */
  method OverwriteEntry(v: Volume, head: nat, sec: nat, off: nat, short: Bytes, first: nat, size: nat, ghost fs: Fs, ghost i: nat)
    requires At(v, fs, head) && InDir(fs, head, i) && fs.dirs[head].items[i].Entry?
    requires |short| == 11 && short == ShortName(fs.dirs[head].items[i].name)
    requires first < v.g.maxCluster && size < 0x1_0000_0000
    requires PlacedAt(Sectors(v, head, fs.dirs[head].cs), ShortAt(v.g.kind, fs.dirs[head].items, i), sec, off)
    modifies v`disk, v.buf
    ensures v.Valid() && v.Fat() == old(v.Fat()) && FilesKept(old(v.disk), v.disk, v.g, fs)
    ensures Carries(v, SetItem(fs, head, i, Entry(fs.dirs[head].items[i].name, ARCHIVE, first, size)))
  {
    hide FatOf, Mirrored, Forest, Chains, ChainStream, FilesKept, DirSectors, SlotsOf, Spells, LfnSeated, PlacedAt, ShortSlot,
         ShortName, ShortAt, Touched, ItemOk;
    ghost var cs, items, kind := fs.dirs[head].cs, fs.dirs[head].items, v.g.kind;
    ghost var e := Entry(items[i].name, ARCHIVE, first, size);
    ghost var secs, ss := Sectors(v, head, cs), Slots(v, head, cs);
    ghost var d, k := v.disk, ShortAt(kind, items, i);
    StoredFits(v.g, first);
    OverwriteSpelled(kind, ss, items, i, e, secs);
    WriteDirectoryEntries(v, sec, off, None, short, ARCHIVE, first, size, secs, k);
    assert Slots(v, head, cs) == ss[k := ShortSlot(kind, short, ARCHIVE, first, size)];
    StreamTouched(d, v.disk, v.g, secs);
    DirEdited(d, v.disk, v.g, fs, head, Dir(cs, items[i := e]));
  }

  lemma OverwriteSpelled(kind: FatType, ss: seq<Slot>, items: seq<Item>, i: nat, e: Item, secs: seq<nat>)
    requires Spells(kind, ss, items) && LfnSeated(ss, secs) && i < |items| && items[i].Entry?
    requires e.Entry? && e.name == items[i].name && e.attr == ARCHIVE && Storable(kind, e.first) && e.size < 0x1_0000_0000
    ensures var k, s := ShortAt(kind, items, i), ShortSlot(kind, ShortName(e.name), e.attr, e.first, e.size);
            && k < |ss| && Adjacent(secs, k, k)
            && Spells(kind, ss[k := s], items[i := e]) && LfnSeated(ss[k := s], secs)
            && WrittenSlots(kind, None, ShortName(e.name), e.attr, e.first, e.size) == [s]
  {
    hide Lay, ShortSlot, ShortName, LfnSeated, ItemSlots, IsLong;
    assert ItemOk(kind, items[i]);
    var k, s := ShortAt(kind, items, i), ShortSlot(kind, ShortName(e.name), e.attr, e.first, e.size);
    SpellsOverwritten(kind, ss, items, i, e);
    ShortIsShort(kind, e);
    WrittenSeated(kind, ss, [s], k, secs);
    assert ss[k := s] == ss[..k] + [s] + ss[k + 1..];
  }

  lemma ShortIsShort(kind: FatType, e: Item)
    requires e.Entry? && ItemOk(kind, e)
    ensures !IsLong(ShortSlot(kind, ShortName(e.name), e.attr, e.first, e.size))
  {
    hide ShortSlot, ShortName;
    ShortSlotLooks(kind, e);
  }

  lemma StreamTouched(d: Disk, d': Disk, g: Geometry, secs: seq<nat>)
    requires OnlyStreamChanged(d, d', secs)
    ensures Touched(d, d', g, secs)
  {
  }

  // ---- adding an entry -------------------------------------------------------

  /** No free-forever slot lies below slot `p`. */
  ghost predicate NoEndBelow(ss: seq<Slot>, p: nat) {
    forall k :: 0 <= k < p && k < |ss| ==> !IsEnd(ss[k])
  }

  /** The slot at which the driver will put an entry called `name`. */
  ghost function NewPlace(v: Volume, fs: Fs, head: nat, name: Name): nat
    requires At(v, fs, head)
    reads v
  {
    TargetSlot(DirSlots(v, fs, head), GroupSize(v.g, head), SlotsNeeded(name), 0, GroupCount(v.g, head, fs.dirs[head].cs))
  }

  ghost function DirSlots(v: Volume, fs: Fs, head: nat): seq<Slot>
    requires At(v, fs, head)
    reads v
  {
    Slots(v, head, fs.dirs[head].cs)
  }

  lemma NoEndMeans(kind: FatType, ss: seq<Slot>, items: seq<Item>, p: nat)
    requires Spells(kind, ss, items) && p <= |ss|
    ensures NoEndBelow(ss, p) <==> p <= |Lay(kind, items)|
  {
    hide Lay, IsEnd;
    var l := Lay(kind, items);
    forall k | 0 <= k < |l| ensures !IsEnd(ss[k]) {
      assert ss[k] == ss[..|l|][k];
      LayNotEnd(kind, items, k);
    }
    if |l| < p { assert IsEnd(ss[|l|]); }
  }

  /** The entry stays inside its cluster, or the fixed root: some group has room for all its slots,
      or a new cluster has. */
  ghost predicate StaysInGroup(v: Volume, fs: Fs, head: nat, name: Name)
    requires At(v, fs, head)
    reads v
  {
    NewPlace(v, fs, head, name) < |DirSlots(v, fs, head)| || SlotsNeeded(name) <= v.g.spc * 16
  }

  /** Makes an entry in a directory. The driver will see it again if and only if no
      free-forever slot lies before the place it picks. */
  method AddEntry(v: Volume, head: nat, e: NewEntry, ghost fs: Fs) returns (ok: bool, ghost dir: Dir, ghost a: nat, ghost b: nat)
    requires At(v, fs, head) && ItemOk(v.g.kind, ItemFor(e)) && Roomy(v, head, e.name)
    requires FirstShort(fs.dirs[head].items, ShortName(e.name)) == None
    modifies v`disk, v`lastAllocated, v.buf
    ensures v.Valid()
    ensures !ok ==> v.disk == old(v.disk)
    ensures ok <==> old(NewPlace(v, fs, head, e.name)) < |old(DirSlots(v, fs, head))|
                    || (!FixedRoot(v.g, head) && FreeSet(old(v.Fat())) != {})
    ensures ok ==> IsDir(v, head, dir.cs)
    ensures ok && old(StaysInGroup(v, fs, head, e.name)) ==>
              (ScanShort(Slots(v, head, dir.cs), ShortName(e.name)).Some?
               <==> NoEndBelow(old(DirSlots(v, fs, head)), old(NewPlace(v, fs, head, e.name))))
    ensures ok && !old(StaysInGroup(v, fs, head, e.name)) ==>
              SpilledFrom(old(v.disk), v.disk, v.g, fs.dirs[head].cs, dir.cs, e)
    ensures ok && old(StaysInGroup(v, fs, head, e.name)) && NoEndBelow(old(DirSlots(v, fs, head)), old(NewPlace(v, fs, head, e.name))) ==>
              && Added(fs.dirs[head].items, dir.items, ItemFor(e), a, b)
              && Carries(v, WithDir(fs, head, dir)) && FilesKept(old(v.disk), v.disk, v.g, fs)
    ensures ok ==> FatGrown(old(v.Fat()), v.Fat(), EofMarker(v.g.kind), fs.dirs[head].cs, dir.cs)
  {
    hide FatOf, Mirrored, Forest, Chains, ChainStream, FilesKept, DirSectors, SlotsOf, Spells, LfnSeated,
         ShortName, Touched, ItemOk, TargetSlot, ItemSlots, Lay, ScanShort, FatGrown, NoEndBelow, FreeSet, SpilledFrom, SlotsNeeded;
    ghost var cs, items, d := fs.dirs[head].cs, fs.dirs[head].items, v.disk;
    ghost var ss := Slots(v, head, cs);
    ghost var m;
    ok, m := CreateEntry(v, head, e, cs, items);
    dir, a, b := Dir(m.cs, items), 0, 0;
    if ok && m.p + SlotsNeeded(e.name) <= |m.slots| {
      ghost var ss' := Slots(v, head, m.cs);
      EntryVisible(v.g.kind, ss, cs, items, m, e, ss');
      NoEndMeans(v.g.kind, ss, items, m.p);
      if m.p <= |Lay(v.g.kind, items)| {
        ghost var items';
        items', a, b :| Added(items, items', ItemFor(e), a, b) && Spells(v.g.kind, ss', items');
        dir := Dir(m.cs, items');
        DirEdited(d, v.disk, v.g, fs, head, dir);
      }
    }
  }

  // ---- erasing an entry ------------------------------------------------------

  /** The slots of an entry lie in neighbouring sectors. */
  lemma RunIsAdjacent(kind: FatType, ss: seq<Slot>, items: seq<Item>, i: nat, secs: seq<nat>)
    requires Spells(kind, ss, items) && LfnSeated(ss, secs) && i < |items| && items[i].Entry?
    ensures ItemsOk(kind, items[..i])
    ensures Adjacent(secs, |Lay(kind, items[..i])|, ShortAt(kind, items, i))
  {
    hide Lay, ItemOk, ItemSlots, Spells;
    ItemSlice(kind, ss, items, i);
    var p, n := |Lay(kind, items[..i])|, |ItemSlots(kind, items[i])|;
    forall x | p / 16 <= x < (p + n - 1) / 16 && x + 1 < |secs| ensures secs[x + 1] == secs[x] + 1 {
      var k := x * 16 + 15;
      assert ss[k] == ss[p..p + n][k - p];
      PieceIsLong(kind, items[i], k - p);
    }
  }

  lemma PieceIsLong(kind: FatType, it: Item, k: nat)
    requires ItemOk(kind, it) && it.Entry? && k + 1 < |ItemSlots(kind, it)|
    ensures IsLong(ItemSlots(kind, it)[k])
  {
    hide ShortSlot, LfnSlots, ShortName, IsLfn, IsEnd, IsGone, LfnCount;
    LongSlotAt(it.name, Checksum(ShortName(it.name)), LfnCount(it.name), k);
  }

  /** The search of FatFindEntry on a directory in the driver's form. */
  lemma FindFinds(kind: FatType, ss: seq<Slot>, items: seq<Item>, name: Name)
    requires Spells(kind, ss, items) && GoodName(name)
    ensures FirstAnswer(items, name).None? ==> FindEntry(ss, name, Zeros(260), false, 0, 0) == None
    ensures FirstAnswer(items, name).Some? ==>
              var i := FirstAnswer(items, name).value;
              && ItemsOk(kind, items[..i])
              && FindEntry(ss, name, Zeros(260), false, 0, 0) == Some(Found(|Lay(kind, items[..i])|, ShortAt(kind, items, i)))
  {
    hide ItemSlots, Lay, FindEntry, FirstAnswer, Answers, SlotsUpTo, ItemOk, Zeros, GoodName, IsEnd;
    var l := Lay(kind, items);
    assert ss == l + ss[|l|..];
    FindItems(kind, items, ss[|l|..], name, 0, 0);
    match FirstAnswer(items, name)
    case None =>
    case Some(i) =>
      PartsOk(kind, items, i, i);
      UpToIsLay(kind, items, i);
  }

  /** Erases the slots of item `i`. */
  method EraseEntry(v: Volume, head: nat, place: Place, ghost fs: Fs, ghost i: nat) returns (ghost mid: seq<Item>)
    requires At(v, fs, head) && InDir(fs, head, i) && fs.dirs[head].items[i].Entry?
    requires PlaceOf(Sectors(v, head, fs.dirs[head].cs), DirSlots(v, fs, head), RunFor(v.g.kind, fs.dirs[head].items, i), place)
    modifies v`disk, v.buf
    ensures v.Valid() && v.Fat() == old(v.Fat()) && FilesKept(old(v.disk), v.disk, v.g, fs)
    ensures |mid| == |ItemSlots(v.g.kind, fs.dirs[head].items[i])| && forall x :: 0 <= x < |mid| ==> mid[x].Gone?
    ensures var items := fs.dirs[head].items;
            Carries(v, WithDir(fs, head, Dir(fs.dirs[head].cs, items[..i] + mid + items[i + 1..])))
  {
    hide FatOf, Mirrored, Forest, Chains, ChainStream, FilesKept, DirSectors, SlotsOf, LfnSeated, PlaceOf, Lay,
         Touched, ItemOk, Adjacent, ErasedRun, ItemSlots, Spells;
    ghost var cs, items, kind := fs.dirs[head].cs, fs.dirs[head].items, v.g.kind;
    ghost var secs, ss, d := Sectors(v, head, cs), Slots(v, head, cs), v.disk;
    ghost var f := RunFor(kind, items, i);
    RunIsAdjacent(kind, ss, items, i, secs);
    EraseRun(v, place, secs, f);
    ghost var ss' := Slots(v, head, cs);
    mid := ErasedSpelled(kind, ss, ss', items, i, secs);
    StreamTouched(d, v.disk, v.g, secs);
    DirEdited(d, v.disk, v.g, fs, head, Dir(cs, items[..i] + mid + items[i + 1..]));
  }

  /** The run of slots of item `i`. */
  ghost function RunFor(kind: FatType, items: seq<Item>, i: nat): Found
    requires ItemsOk(kind, items) && i < |items|
  {
    Found(|Lay(kind, items[..i])|, ShortAt(kind, items, i))
  }

  lemma ErasedSpelled(kind: FatType, ss: seq<Slot>, ss': seq<Slot>, items: seq<Item>, i: nat, secs: seq<nat>) returns (mid: seq<Item>)
    requires Spells(kind, ss, items) && LfnSeated(ss, secs) && i < |items|
    requires var f := RunFor(kind, items, i); ErasedRun(ss, ss', f.start, f.entry + 1)
    ensures |mid| == |ItemSlots(kind, items[i])| && forall x :: 0 <= x < |mid| ==> mid[x].Gone?
    ensures Spells(kind, ss', items[..i] + mid + items[i + 1..]) && LfnSeated(ss', secs)
  {
    hide Lay, ItemOk, ItemSlots, LfnSeated, Erased, ErasedItems;
    ItemSlice(kind, ss, items, i);
    var p, n := |Lay(kind, items[..i])|, |ItemSlots(kind, items[i])|;
    mid := ErasedItems(ss[p..p + n]);
    SpellsErased(kind, ss, ss', items, i);
    ErasedLay(kind, ss[p..p + n]);
    ErasedSeated(ss, ss', p, p + n, secs);
  }
}
