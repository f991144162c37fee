/** Writing, deleting and making directories inside one directory: each operation keeps
    the whole volume consistent and changes exactly one entry. */
module FatOps {
  import opened Basics
  import opened Arith
  import opened FatDisk
  import opened FatCells
  import opened FatChains
  import opened FatTables
  import opened FatData
  import opened FatNames
  import opened FatDir
  import opened FatItems
  import opened FatScans
  import opened FatEdits
  import opened FatSlots
  import opened FatVolume
  import opened FatDirectory
  import opened FatEntries
  import opened FatGrow
  import opened FatCreate
  import opened FatStore
  import opened FatFrame
  import opened FatFs
  import opened FatRefs
  import opened FatFiles

  /** The volume carries `fs`, and every entry owns what it points at. */
  ghost predicate Ok(v: Volume, fs: Fs)
    reads v
  {
    Carries(v, fs) && Refs(v.g, fs)
  }

  function FileEntry(name: Name, fc: seq<nat>, size: nat): Item {
    Entry(name, ARCHIVE, if fc == [] then 0 else fc[0], size)
  }

  function FileOf(name: Name, fc: seq<nat>, size: nat): NewEntry {
    NewEntry(name, ARCHIVE, if fc == [] then 0 else fc[0], size)
  }

  /** The bytes of a file of `size` bytes whose chain starts at `first`: none without a chain. */
  ghost function FileBytes(d: Disk, g: Geometry, fs: Fs, first: nat, size: nat): Bytes
    requires Fitting(d, g)
    requires first == 0 || (first in fs.files && OnClusters(g, fs.files[first]))
  {
    if first == 0 then []
    else
      var b := ChainStream(d, g, fs.files[first]);
      b[..Min(size, |b|)]
  }

  /** A fresh chain of the right length, holding the data. */
  ghost predicate DataLaid(d: Disk, g: Geometry, fc: seq<nat>, data: Bytes) {
    && (fc == [] <==> |data| == 0 || !RoundsUp(|data|, g.ClusterSize()))
    && (fc != [] ==>
          && Fitting(d, g) && OnClusters(g, fc) && JustEnough(|fc|, g.spc, |data|)
          && ChainStream(d, g, fc)[..|data|] == data)
  }

  /** What a file entry reads as: the data, unless the 32-bit rounding sum wrapped. */
  lemma LaidReads(d: Disk, g: Geometry, fs: Fs, fc: seq<nat>, data: Bytes)
    requires Fitting(d, g) && DataLaid(d, g, fc, data) && (fc != [] ==> fc[0] != 0 && fc[0] in fs.files && fs.files[fc[0]] == fc)
    ensures FileBytes(d, g, fs, if fc == [] then 0 else fc[0], |data|) == data <==> |data| == 0 || RoundsUp(|data|, g.ClusterSize())
  {
    hide ChainStream, RoundsUp;
  }

  // ---- overwriting -----------------------------------------------------------

  /** A chain, if there is one, that starts at a cluster nothing starts at. */
  ghost predicate NewKey(fs: Fs, fc: seq<nat>) { fc != [] ==> fc[0] != 0 && fc[0] !in fs.dirs && fc[0] !in fs.files }

  lemma FileRef(g: Geometry, fs: Fs, h: nat, i: nat)
    requires Refs(g, fs) && InDir(fs, h, i)
    ensures RefOk(g, fs, h, ItemAt(fs, h, i))
  {
  }

  /** Fat32WriteFile on an existing file: the old chain goes, a new one is built, the
      entry is rewritten. A full disk leaves the entry pointing at freed clusters. */
  method ReplaceFile(v: Volume, head: nat, oldFirst: nat, sec: nat, off: nat, short: Bytes, data: Bytes, ghost fs: Fs, ghost i: nat)
    returns (status: Status, ghost fc: seq<nat>)
    requires Ok(v, fs) && At(v, fs, head) && InDir(fs, head, i) && |data| < 0x1_0000_0000
    requires ItemAt(fs, head, i).Entry? && ItemAt(fs, head, i).attr == ARCHIVE && ItemAt(fs, head, i).first == oldFirst
    requires |short| == 11 && short == ShortName(ItemAt(fs, head, i).name)
    requires PlacedAt(Sectors(v, head, fs.dirs[head].cs), ShortAt(v.g.kind, fs.dirs[head].items, i), sec, off)
    modifies v`disk, v`lastAllocated, v.buf
    ensures status == Success || status == DiskFull
    ensures status == DiskFull ==>
              && Carries(v, Swapped(fs, oldFirst, [])) && FilesKept(old(v.disk), v.disk, v.g, Swapped(fs, oldFirst, []))
              && RoundsUp(|data|, v.g.ClusterSize()) && |FreeSet(v.Fat())| * v.g.ClusterSize() < |data|
              && head in Swapped(fs, oldFirst, []).dirs && Swapped(fs, oldFirst, []).dirs[head] == fs.dirs[head]
    ensures status == Success ==>
              && head in Swapped(fs, oldFirst, fc).dirs && Swapped(fs, oldFirst, fc).dirs[head] == fs.dirs[head]
              && Ok(v, SetItem(Swapped(fs, oldFirst, fc), head, i, FileEntry(ItemAt(fs, head, i).name, fc, |data|)))
              && DataLaid(v.disk, v.g, fc, data) && FilesKept(old(v.disk), v.disk, v.g, Swapped(fs, oldFirst, []))
              && NewKey(Swapped(fs, oldFirst, []), fc)
  {
    hide FatOf, Mirrored, Layout, FilesKept, ChainStream, FreeSet, DirOk, PlacedAt, DirSectors, FreshChain, RoundsUp, Refs;
    ghost var d0, it, fs0 := v.disk, ItemAt(fs, head, i), Swapped(fs, oldFirst, []);
    FileRef(v.g, fs, head, i);
    HeadedLayout(v.disk, v.g, fs);
    OwnDirStays(v.g, fs, head, it, []);
    FreeOld(v, oldFirst, fs);
    ghost var d1 := v.disk;
    var first;
    status, first, fc := StoreFile(v, data, fs0);
    ghost var d2 := v.disk;
    KeptTwice(d0, d1, d2, v.g, fs0, fs0);
    if status != Success { return; }
    OwnDirStays(v.g, fs, head, it, fc);
    ghost var fs1 := Swapped(fs, oldFirst, fc);
    CarriesAt(v, fs1, head);
    FirstFits(v, fs1, fc);
    OverwriteEntry(v, head, sec, off, short, first, |data|, fs1, i);
    KeptTwice(d0, d2, v.disk, v.g, fs0, fs1);
    LaidKept(d2, v.disk, v.g, fs1, fc, data);
    RefsOverwritten(v.g, fs, head, i, fc, first, |data|);
  }

  lemma HeadedLayout(d: Disk, g: Geometry, fs: Fs)
    requires Layout(d, g, fs)
    ensures Headed(g, fs)
  {
  }

  /** `FilesKept` composes for the files of the smaller picture. */
  lemma KeptTwice(d: Disk, d1: Disk, d2: Disk, g: Geometry, fs: Fs, fs': Fs)
    requires FilesKept(d, d1, g, fs) && FilesKept(d1, d2, g, fs') && fs.files.Keys <= fs'.files.Keys
    requires forall f :: f in fs.files ==> fs'.files[f] == fs.files[f]
    ensures FilesKept(d, d2, g, fs)
  {
    hide ChainStream;
  }

  lemma LaidKept(d: Disk, d': Disk, g: Geometry, fs: Fs, fc: seq<nat>, data: Bytes)
    requires FilesKept(d, d', g, fs) && DataLaid(d, g, fc, data) && (fc != [] ==> fc[0] in fs.files && fs.files[fc[0]] == fc)
    ensures DataLaid(d', g, fc, data)
  {
    hide ChainStream, RoundsUp;
  }

  lemma FirstFits(v: Volume, fs: Fs, fc: seq<nat>)
    requires Carries(v, fs) && (fc != [] ==> fc[0] in fs.files && fs.files[fc[0]] == fc)
    ensures fc != [] ==> 2 <= fc[0] < v.g.maxCluster
  {
    hide FatOf, Mirrored, DirLaid, Forest, Chains;
    if fc != [] { KeyChain(v.g, v.Fat(), fs, fc[0]); }
  }

  // ---- creating --------------------------------------------------------------

  /** The slots of a directory of the volume. */
  ghost function SlotsThere(d: Disk, g: Geometry, fs: Fs, head: nat): (ss: seq<Slot>)
    requires Layout(d, g, fs) && head in fs.dirs
    ensures |ss| == Steps(GroupCount(g, head, fs.dirs[head].cs), GroupSize(g, head)) * 16
  {
    assert DirLaid(d, g, head, fs.dirs[head]);
    DirSectorsGood(d, g, FatOf(d, g), head, fs.dirs[head].cs);
    SlotsOf(d, DirSectors(g, head, fs.dirs[head].cs))
  }

  /** The slot the driver will pick for a new entry, or the number of slots when the directory has to grow. */
  ghost function PlaceFor(d: Disk, g: Geometry, fs: Fs, head: nat, name: Name): nat
    requires Layout(d, g, fs) && head in fs.dirs
  {
    TargetSlot(SlotsThere(d, g, fs, head), GroupSize(g, head), SlotsNeeded(name), 0, GroupCount(g, head, fs.dirs[head].cs))
  }

  /** The new entry will stay inside its cluster, or the fixed root. */
  ghost predicate Contained(d: Disk, g: Geometry, fs: Fs, head: nat, name: Name)
    requires Layout(d, g, fs) && head in fs.dirs
  {
    PlaceFor(d, g, fs, head, name) < |SlotsThere(d, g, fs, head)| || SlotsNeeded(name) <= g.spc * 16
  }

  /** Whether the driver will find the entry it is about to make: the entry stays inside its
      cluster, and no free-forever slot lies below the slot it will pick. */
  ghost predicate Visible(d: Disk, g: Geometry, fs: Fs, head: nat, name: Name)
    requires Layout(d, g, fs) && head in fs.dirs
  {
    Contained(d, g, fs, head, name) && NoEndBelow(SlotsThere(d, g, fs, head), PlaceFor(d, g, fs, head, name))
  }

  /** The same, read off a mounted volume whose directory has the same slots. */
  lemma PlacesAre(v: Volume, d: Disk, fs: Fs, fs1: Fs, head: nat, name: Name)
    requires Layout(d, v.g, fs) && head in fs.dirs && At(v, fs1, head) && fs1.dirs[head] == fs.dirs[head]
    requires DirSlots(v, fs1, head) == SlotsThere(d, v.g, fs, head)
    ensures Contained(d, v.g, fs, head, name) <==> StaysInGroup(v, fs1, head, name)
    ensures Visible(d, v.g, fs, head, name)
       <==> StaysInGroup(v, fs1, head, name) && NoEndBelow(DirSlots(v, fs1, head), NewPlace(v, fs1, head, name))
  {
    hide NoEndBelow, TargetSlot, Layout, SlotsNeeded;
  }

  /** Data was laid on `fc`, and then the entry ran out of the cluster by which the directory grew. */
  ghost predicate Overran(d: Disk, d': Disk, g: Geometry, fc: seq<nat>, cs: seq<nat>, cs': seq<nat>, e: NewEntry) {
    && OnClusters(g, fc)
    && exists mid: Disk :: Touched(d, mid, g, ChainSectors(g, fc)) && SpilledFrom(mid, d', g, cs, cs', e)
  }

  lemma SameRoom(d: Disk, d': Disk, g: Geometry, fc: seq<nat>)
    requires if fc == [] then d' == d else OnClusters(g, fc) && Touched(d, d', g, ChainSectors(g, fc))
    ensures |d'| == |d| && OnClusters(g, fc) && Touched(d, d', g, ChainSectors(g, fc))
  {
  }

  lemma OverranIs(d: Disk, mid: Disk, d': Disk, g: Geometry, fc: seq<nat>, cs: seq<nat>, cs': seq<nat>, e: NewEntry)
    requires OnClusters(g, fc) && Touched(d, mid, g, ChainSectors(g, fc)) && SpilledFrom(mid, d', g, cs, cs', e)
    ensures Overran(d, d', g, fc, cs, cs', e)
  {
  }

  /** Fat32WriteFile under a new name. On a full disk the FAT is as it was. */
  method NewFile(v: Volume, head: nat, name: Name, data: Bytes, ghost fs: Fs)
    returns (status: Status, ghost fc: seq<nat>, ghost dir: Dir, ghost a: nat, ghost b: nat)
    requires Ok(v, fs) && At(v, fs, head) && GoodName(name) && Roomy(v, head, name) && |data| < 0x1_0000_0000
    requires FirstShort(fs.dirs[head].items, ShortName(name)) == None
    modifies v`disk, v`lastAllocated, v.buf
    ensures status == Success || status == DiskFull
    ensures status == DiskFull ==> v.Valid() && v.Fat() == old(v.Fat()) && Ok(v, fs) && FilesKept(old(v.disk), v.disk, v.g, fs)
    ensures status == Success ==> v.Valid() && IsDir(v, head, dir.cs)
    ensures status == Success && !Contained(old(v.disk), v.g, fs, head, name) ==>
              Overran(old(v.disk), v.disk, v.g, fc, fs.dirs[head].cs, dir.cs, FileOf(name, fc, |data|))
    ensures status == Success && Contained(old(v.disk), v.g, fs, head, name) ==> (ScanShort(Slots(v, head, dir.cs), ShortName(name)).Some? <==> Visible(old(v.disk), v.g, fs, head, name))
    ensures status == Success && Visible(old(v.disk), v.g, fs, head, name) ==>
              && Added(fs.dirs[head].items, dir.items, FileEntry(name, fc, |data|), a, b)
              && Ok(v, WithDir(Swapped(fs, 0, fc), head, dir))
              && DataLaid(v.disk, v.g, fc, data) && FilesKept(old(v.disk), v.disk, v.g, fs) && NewKey(fs, fc)
    ensures status == Success && dir.cs == fs.dirs[head].cs ==> FreshChain(old(v.Fat()), v.Fat(), EofMarker(v.g.kind), fc)
    ensures status == Success ==> SpaceTaken(old(v.Fat()), v.Fat(), fc, fs.dirs[head].cs, dir.cs)
  {
    hide FatOf, Mirrored, Layout, FilesKept, ChainStream, FreeSet, SpaceTaken, FatGrown, DirChain, DirOk, PlacedAt, DirSectors, FreshChain, RoundsUp, Refs,
         NoEndBelow, ScanShort, ShortName, TargetSlot, FreedFrom, JustEnough, SlotsOf, RefOk, SpilledFrom, Touched, ItemSlots, SlotsNeeded,
         Overran, ChainSectors, Contained, Visible, StaysInGroup, NewPlace;
    ghost var d0, fat0, seen := v.disk, v.Fat(), Visible(v.disk, v.g, fs, head, name);
    HeadedLayout(v.disk, v.g, fs);
    var first;
    status, first, fc := StoreFile(v, data, fs);
    ghost var d1, fat1, fs1, e := v.disk, v.Fat(), Swapped(fs, 0, fc), FileEntry(name, fc, |data|);
    dir, a, b := Dir([], []), 0, 0;
    if status != Success { return; }
    FirstFits(v, fs1, fc);
    StoredFits(v.g, first);
    CarriesAt(v, fs1, head);
    SlotsBesideFile(d0, d1, v.g, fs, fc, head);
    assert DirSlots(v, fs1, head) == old(DirSlots(v, fs, head));
    PlacesAre(v, d0, fs, fs1, head, name);
    SameRoom(d0, d1, v.g, fc);
    AtChain(v, fs1, head);
    var ok;
    ok, dir, a, b := AddEntry(v, head, NewEntry(name, ARCHIVE, first, |data|), fs1);
    if ok {
      if !Contained(d0, v.g, fs, head, name) {
        OverranIs(d0, d1, v.disk, v.g, fc, fs.dirs[head].cs, dir.cs, FileOf(name, fc, |data|));
      }
      if seen {
        KeptTwice(d0, d1, v.disk, v.g, fs, fs1);
        LaidKept(d1, v.disk, v.g, fs1, fc, data);
        RefsAdded(v.g, fs, fs1, head, dir, e, a, b);
      }
      NotGrown(fat1, v.Fat(), EofMarker(v.g.kind), fs.dirs[head].cs, dir.cs);
      SpaceWent(v.g, fat0, fat1, v.Fat(), head, fc, fs.dirs[head].cs, dir.cs);
      return;
    }
    if first != 0 {
      FreeOld(v, first, fs1);
      FileUndone(fs, fc);
      KeptTwice(d0, d1, v.disk, v.g, fs, fs);
      FreshUndone(fat0, fat1, v.Fat(), EofMarker(v.g.kind), fc);
    }
    status := DiskFull;
  }

  lemma AtChain(v: Volume, fs: Fs, head: nat)
    requires At(v, fs, head)
    ensures DirChain(v.Fat(), v.g, head, fs.dirs[head].cs)
  {
  }

  lemma SpaceWent(g: Geometry, fat: Fat, fat1: Fat, fat': Fat, head: nat, fc: seq<nat>, cs: seq<nat>, cs': seq<nat>)
    requires g.Valid() && |fat| == |fat1| == g.maxCluster && DirChain(fat1, g, head, cs)
    requires FreshChain(fat, fat1, EofMarker(g.kind), fc) && FatGrown(fat1, fat', EofMarker(g.kind), cs, cs')
    ensures SpaceTaken(fat, fat', fc, cs, cs')
  {
    hide FreshChain, FatGrown, SpaceTaken;
    TakenBoth(fat, fat1, fat', EofMarker(g.kind), fc, cs, cs');
  }

  lemma NotGrown(fat: Fat, fat': Fat, eof: nat, cs: seq<nat>, cs': seq<nat>)
    requires 2 <= |fat| && FatGrown(fat, fat', eof, cs, cs')
    ensures cs' == cs ==> fat' == fat
  {
  }

  lemma FileUndone(fs: Fs, fc: seq<nat>)
    requires fc != [] && fc[0] !in fs.dirs && fc[0] !in fs.files
    ensures Without(WithFile(fs, fc), fc[0]) == fs
  {
    assert Without(WithFile(fs, fc), fc[0]).dirs == fs.dirs;
    assert Without(WithFile(fs, fc), fc[0]).files == fs.files;
  }

  // ---- Fat32WriteFile --------------------------------------------------------

  /** Directories other than `head` are as before. */
  ghost predicate SameElsewhere(fs: Fs, fs': Fs, head: nat) {
    forall h :: h in fs.dirs && h != head ==> h in fs'.dirs && fs'.dirs[h] == fs.dirs[h]
  }

  /** `fs'` is `fs` with the file `data` under `name`, on chain `fc`: the name finds it, it
      reads as the data, every other name, directory and file chain is as before. */
  ghost predicate Written(d: Disk, g: Geometry, fs: Fs, fs': Fs, head: nat, name: Name, fc: seq<nat>, data: Bytes) {
    && head in fs.dirs && head in fs'.dirs && SameElsewhere(fs, fs', head) && fs'.dirs.Keys == fs.dirs.Keys
    && NewKey(Swapped(fs, OldFirst(fs, head, name), []), fc)
    && fs'.files == Swapped(fs, OldFirst(fs, head, name), fc).files
    && OthersFound(fs.dirs[head].items, fs'.dirs[head].items, ShortName(name))
    && (var found := FoundItem(fs'.dirs[head].items, ShortName(name));
        found.Some? && found.value == FileEntry(found.value.name, fc, |data|))
    && DataLaid(d, g, fc, data) && (fc != [] ==> fc[0] in fs'.files && fs'.files[fc[0]] == fc)
  }

  /** The chain an entry owned before it was overwritten; 0 for a new name. */
  ghost function OldFirst(fs: Fs, head: nat, name: Name): nat
    requires head in fs.dirs
  {
    match FoundItem(fs.dirs[head].items, ShortName(name)) case None => 0 case Some(it) => if it.Entry? then it.first else 0
  }

  ghost predicate NameTaken(fs: Fs, head: nat, name: Name)
    requires head in fs.dirs
  {
    FoundItem(fs.dirs[head].items, ShortName(name)).Some?
  }

  ghost predicate IsSubdir(fs: Fs, head: nat, name: Name)
    requires head in fs.dirs
  {
    var found := FoundItem(fs.dirs[head].items, ShortName(name));
    found.Some? && found.value.Entry? && found.value.attr == DIRECTORY
  }

  lemma OverwrittenIs(d: Disk, g: Geometry, fs: Fs, head: nat, i: nat, name: Name, fc: seq<nat>, data: Bytes)
    requires InDir(fs, head, i) && ItemAt(fs, head, i).Entry? && FirstShort(fs.dirs[head].items, ShortName(name)) == Some(i)
    requires Headed(g, fs) && RefOk(g, fs, head, ItemAt(fs, head, i)) && ItemAt(fs, head, i).attr == ARCHIVE
    requires DataLaid(d, g, fc, data) && NewKey(Swapped(fs, ItemAt(fs, head, i).first, []), fc)
    ensures head in Swapped(fs, ItemAt(fs, head, i).first, fc).dirs
    ensures Swapped(fs, ItemAt(fs, head, i).first, fc).dirs[head] == fs.dirs[head]
    ensures var it := ItemAt(fs, head, i);
            Written(d, g, fs, SetItem(Swapped(fs, it.first, fc), head, i, FileEntry(it.name, fc, |data|)), head, name, fc, data)
  {
    hide OthersFound, DataLaid, ShortName, Headed;
    var it, items := ItemAt(fs, head, i), fs.dirs[head].items;
    OwnDirStays(g, fs, head, it, fc);
    OtherDirsStay(g, fs, head, it, fc);
    var e := FileEntry(it.name, fc, |data|);
    SetOthers(items, i, e);
  }

  lemma OtherDirsStay(g: Geometry, fs: Fs, h: nat, it: Item, fc: seq<nat>)
    requires Headed(g, fs) && h in fs.dirs && RefOk(g, fs, h, it) && it.Entry? && it.attr != DIRECTORY
    ensures SameElsewhere(fs, Swapped(fs, it.first, fc), h)
  {
  }

  lemma AddedIs(d: Disk, g: Geometry, fs: Fs, head: nat, dir: Dir, name: Name, fc: seq<nat>, data: Bytes, a: nat, b: nat)
    requires head in fs.dirs && FirstShort(fs.dirs[head].items, ShortName(name)) == None
    requires Added(fs.dirs[head].items, dir.items, FileEntry(name, fc, |data|), a, b)
    requires DataLaid(d, g, fc, data) && NewKey(fs, fc)
    ensures Written(d, g, fs, WithDir(Swapped(fs, 0, fc), head, dir), head, name, fc, data)
  {
    hide OthersFound, DataLaid, ShortName;
    var items, e := fs.dirs[head].items, FileEntry(name, fc, |data|);
    AddedOthers(items, dir.items, e, a, b);
    AddedFound(items, dir.items, e, a, b);
  }

  /** Fat32WriteFile, once the parent directory is open. */
  method WriteFileIn(v: Volume, head: nat, name: Name, data: Bytes, ghost fs: Fs)
    returns (status: Status, ghost fs': Fs, ghost fc: seq<nat>)
    requires Ok(v, fs) && At(v, fs, head) && GoodName(name) && Roomy(v, head, name) && |data| < 0x1_0000_0000
    modifies v`disk, v`lastAllocated, v.buf
    ensures status == AccessDenied <==> IsSubdir(fs, head, name)
    ensures status == AccessDenied ==> v.disk == old(v.disk) && Ok(v, fs)
    ensures status == DiskFull && !NameTaken(fs, head, name) ==>
              v.Valid() && v.Fat() == old(v.Fat()) && Ok(v, fs) && FilesKept(old(v.disk), v.disk, v.g, fs)
    ensures status == DiskFull && NameTaken(fs, head, name) ==>
              var fs0 := Swapped(fs, OldFirst(fs, head, name), []);
              Carries(v, fs0) && FilesKept(old(v.disk), v.disk, v.g, fs0) && head in fs0.dirs && fs0.dirs[head] == fs.dirs[head]
    ensures status == Success && (NameTaken(fs, head, name) || Visible(old(v.disk), v.g, fs, head, name)) ==>
              && Ok(v, fs') && Written(v.disk, v.g, fs, fs', head, name, fc, data)
              && FilesKept(old(v.disk), v.disk, v.g, Swapped(fs, OldFirst(fs, head, name), []))
    ensures status == Success && !NameTaken(fs, head, name) && !Contained(old(v.disk), v.g, fs, head, name) ==>
              exists cs: seq<nat> :: IsDir(v, head, cs) && Overran(old(v.disk), v.disk, v.g, fc, fs.dirs[head].cs, cs, FileOf(name, fc, |data|))
    ensures status == Success && !NameTaken(fs, head, name) && Contained(old(v.disk), v.g, fs, head, name)
            && !Visible(old(v.disk), v.g, fs, head, name) ==>
              exists cs :: v.Valid() && IsDir(v, head, cs) && ScanShort(Slots(v, head, cs), ShortName(name)) == None
    ensures status == Success || status == AccessDenied || status == DiskFull
    ensures status == Success && !NameTaken(fs, head, name) && Visible(old(v.disk), v.g, fs, head, name) ==>
              && head in fs'.dirs
              && (fs'.dirs[head].cs == fs.dirs[head].cs ==> FreshChain(old(v.Fat()), v.Fat(), EofMarker(v.g.kind), fc))
              && SpaceTaken(old(v.Fat()), v.Fat(), fc, fs.dirs[head].cs, fs'.dirs[head].cs)
              && exists a, b :: Added(fs.dirs[head].items, fs'.dirs[head].items, FileEntry(name, fc, |data|), a, b)
  {
    hide FatOf, Mirrored, Layout, FilesKept, ChainStream, FreeSet, PlacedAt, DirSectors, FreshChain, RoundsUp, Refs, DataLaid,
         ScanShort, ShortName, SlotsOf, RefOk, Visible, Contained, Overran, Spells, LfnSeated, Written, ShortAt, Lay, ItemOk, FirstOf, IsDirectory,
         ItemSlots, SpaceTaken;
    fs', fc := fs, [];
    ghost var cs, items := fs.dirs[head].cs, fs.dirs[head].items;
    var short := ShortName(name);
    var found, sec, off, slot;
    ghost var k;
    found, sec, off, slot, k := ScanDirectory(v, head, short, cs);
    ScanFinds(v.g.kind, Slots(v, head, cs), items, name);
    if found {
      ghost var i := FirstShort(items, short).value;
      ShortSlotIs(v.g.kind, Slots(v, head, cs), items, i);
      if IsDirectory(slot) { return AccessDenied, fs, []; }
      ghost var it := items[i];
      EntryAttr(v.g.kind, items, i);
      FileRef(v.g, fs, head, i);
      HeadedLayout(v.disk, v.g, fs);
      status, fc := ReplaceFile(v, head, FirstOf(v.g.kind, slot), sec, off, short, data, fs, i);
      if status == Success {
        OverwrittenIs(v.disk, v.g, fs, head, i, name, fc, data);
        fs' := SetItem(Swapped(fs, it.first, fc), head, i, FileEntry(it.name, fc, |data|));
      }
    } else {
      ghost var dir, a, b;
      status, fc, dir, a, b := NewFile(v, head, name, data, fs);
      if status == Success && Visible(old(v.disk), v.g, fs, head, name) {
        AddedIs(v.disk, v.g, fs, head, dir, name, fc, data, a, b);
        fs' := WithDir(Swapped(fs, 0, fc), head, dir);
      }
    }
  }

  lemma EntryAttr(kind: FatType, items: seq<Item>, i: nat)
    requires ItemsOk(kind, items) && i < |items| && items[i].Entry?
    ensures items[i].attr == DIRECTORY || items[i].attr == ARCHIVE
  {
    assert ItemOk(kind, items[i]);
  }

  // ---- Fat32DeleteFile -------------------------------------------------------

  /** `fs'` is `fs` without item `i` of directory `head` and what it pointed at. */
  ghost predicate Deleted(fs: Fs, fs': Fs, head: nat, i: nat) {
    && InDir(fs, head, i) && ItemAt(fs, head, i).Entry?
    && (var it, items := ItemAt(fs, head, i), fs.dirs[head].items;
        exists mid: seq<Item> ::
          && (forall x :: 0 <= x < |mid| ==> mid[x].Gone?)
          && fs' == WithDir(Swapped(fs, it.first, []), head, Dir(fs.dirs[head].cs, items[..i] + mid + items[i + 1..])))
  }

  /** After a deletion the entry's 8.3 name finds nothing, every other name finds what it
      found before, and every other directory is as before. */
  lemma DeletedLookups(g: Geometry, fs: Fs, fs': Fs, head: nat, i: nat)
    requires Refs(g, fs) && Deleted(fs, fs', head, i)
    ensures head in fs'.dirs
    ensures FoundItem(fs'.dirs[head].items, ShortName(ItemAt(fs, head, i).name)) == None
    ensures OthersFound(fs.dirs[head].items, fs'.dirs[head].items, ShortName(ItemAt(fs, head, i).name))
    ensures forall h :: h in fs.dirs && h != head && h != ItemAt(fs, head, i).first ==> h in fs'.dirs && fs'.dirs[h] == fs.dirs[h]
  {
    hide ShortName, OthersFound, FoundItem;
    var it, items := ItemAt(fs, head, i), fs.dirs[head].items;
    var mid: seq<Item> :|
      && (forall x :: 0 <= x < |mid| ==> mid[x].Gone?)
      && fs' == WithDir(Swapped(fs, it.first, []), head, Dir(fs.dirs[head].cs, items[..i] + mid + items[i + 1..]));
    forall j | 0 <= j < |items| && j != i ensures !HasShort(items[j], ShortName(it.name)) {
      assert InDir(fs, head, j) && InDir(fs, head, i) && ItemAt(fs, head, j) == items[j];
      assert !SameName(ItemAt(fs, head, j), ItemAt(fs, head, i));
    }
    ErasedOthers(items, i, mid);
  }

  /** The entry Fat32DeleteFile takes for `name`. */
  function Victim(fs: Fs, head: nat, name: Name): Option<nat>
    requires head in fs.dirs
  {
    FirstAnswer(fs.dirs[head].items, name)
  }

  /** A file can be deleted by its name in any case. */
  lemma VictimCase(fs: Fs, head: nat, a: Name, b: Name)
    requires head in fs.dirs && CaseVariant(a, b)
    ensures Victim(fs, head, a) == Victim(fs, head, b)
  {
    hide CaseVariant, FirstAnswer;
    FirstAnswerCase(fs.dirs[head].items, a, b);
  }

  lemma SlotsKeptByFat(d: Disk, d': Disk, g: Geometry, fs: Fs, h: nat)
    requires Layout(d, g, fs) && |d'| == |d| && OnlyFatChanged(d, d', g) && h in fs.dirs
    ensures SlotsKept(d, d', g, h, fs.dirs[h].cs)
  {
    hide FatOf, Mirrored, Forest, Chains, Spells, LfnSeated, SlotsOf, DirSectors, InRange;
    assert DirLaid(d, g, h, fs.dirs[h]);
    DirSectorsGood(d, g, FatOf(d, g), h, fs.dirs[h].cs);
    if !FixedRoot(g, h) { KeyChain(g, FatOf(d, g), fs, h); }
    SlotsSame(d, d', DirSectors(g, h, fs.dirs[h].cs));
  }

  /** Fat32DeleteFile, once the parent directory is open: frees the chain, erases the run. */
  method DeleteFileIn(v: Volume, head: nat, name: Name, ghost fs: Fs) returns (status: Status, ghost fs': Fs)
    requires Ok(v, fs) && At(v, fs, head) && GoodName(name)
    modifies v`disk, v.buf
    ensures status == NoSuchFile <==> Victim(fs, head, name) == None
    ensures status == NoSuchFile || status == Success
    ensures status == NoSuchFile ==> v.disk == old(v.disk) && Ok(v, fs)
    ensures status == Success ==>
              && Deleted(fs, fs', head, Victim(fs, head, name).value) && Ok(v, fs')
              && FilesKept(old(v.disk), v.disk, v.g, Swapped(fs, ItemAt(fs, head, Victim(fs, head, name).value).first, []))
    ensures status == Success ==>
              var first := ItemAt(fs, head, Victim(fs, head, name).value).first;
              if first == 0 then v.Fat() == old(v.Fat()) else FreedFrom(old(v.Fat()), v.Fat(), first)
  {
    hide FatOf, Mirrored, Layout, FilesKept, ChainStream, FreeSet, PlacedAt, DirSectors, Refs, FindEntry, FirstAnswer,
         ShortName, SlotsOf, RefOk, Spells, LfnSeated, ShortAt, Lay, ItemOk, FirstOf, Zeros, FreedFrom, Forest, Answers;
    fs' := fs;
    ghost var cs, items, d := fs.dirs[head].cs, fs.dirs[head].items, v.disk;
    var found, place;
    ghost var f;
    found, place, f := FindDirEntry(v, head, name, cs);
    FindFinds(v.g.kind, Slots(v, head, cs), items, name);
    if !found { return NoSuchFile, fs; }
    ghost var i := FirstAnswer(items, name).value;
    VictimIs(items, name, i);
    fs' := DeleteItem(v, head, place, fs, i);
    status := Success;
  }

  /** Frees the chain of item `i` and erases its slots. */
  method DeleteItem(v: Volume, head: nat, place: Place, ghost fs: Fs, ghost i: nat) returns (ghost fs': Fs)
    requires Ok(v, fs) && At(v, fs, head) && InDir(fs, head, i) && ItemAt(fs, head, i).Entry?
    requires PlaceOf(Sectors(v, head, fs.dirs[head].cs), DirSlots(v, fs, head), RunFor(v.g.kind, fs.dirs[head].items, i), place)
    modifies v`disk, v.buf
    ensures Deleted(fs, fs', head, i) && Ok(v, fs')
    ensures FilesKept(old(v.disk), v.disk, v.g, Swapped(fs, ItemAt(fs, head, i).first, []))
    ensures var first := ItemAt(fs, head, i).first;
            if first == 0 then v.Fat() == old(v.Fat()) else FreedFrom(old(v.Fat()), v.Fat(), first)
  {
    hide FatOf, Mirrored, Layout, FilesKept, ChainStream, FreeSet, PlacedAt, DirSectors, Refs,
         ShortName, SlotsOf, RefOk, Spells, LfnSeated, ShortAt, Lay, ItemOk, FirstOf, FreedFrom, Forest, Swapped, IsDirectory, ItemSlots;
    ghost var cs, items, d := fs.dirs[head].cs, fs.dirs[head].items, v.disk;
    ghost var it := items[i];
    ShortSlotIs(v.g.kind, Slots(v, head, cs), items, i);
    FileRef(v.g, fs, head, i);
    HeadedLayout(v.disk, v.g, fs);
    var first := FirstOf(v.g.kind, place.slot);
    FirstIsKey(v.g, fs, head, it);
    FreeOld(v, first, fs);
    SlotsKeptByFat(d, v.disk, v.g, fs, head);
    ghost var fs0 := Swapped(fs, first, []);
    CarriesAt(v, fs0, head);
    assert DirSlots(v, fs0, head) == old(Slots(v, head, cs));
    ghost var mid;
    ghost var d1 := v.disk;
    mid := EraseEntry(v, head, place, fs0, i);
    KeptTwice(d, d1, v.disk, v.g, fs0, fs0);
    RefsErased(v.g, fs, head, i, mid);
    fs' := WithDir(fs0, head, Dir(cs, items[..i] + mid + items[i + 1..]));
  }

  lemma VictimIs(items: seq<Item>, name: Name, i: nat)
    requires FirstAnswer(items, name) == Some(i)
    ensures i < |items| && items[i].Entry?
  {
  }

  lemma FirstIsKey(g: Geometry, fs: Fs, head: nat, it: Item)
    requires Headed(g, fs) && head in fs.dirs && RefOk(g, fs, head, it) && it.Entry?
    ensures it.first == 0 || ((it.first in fs.dirs || it.first in fs.files) && it.first != g.rootCluster)
    ensures var fs0 := Swapped(fs, it.first, []); head in fs0.dirs && fs0.dirs[head] == fs.dirs[head]
  {
  }
}
