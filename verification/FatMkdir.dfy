/** Making directories, free space, and what a deletion gives back. */
module FatMkdir {
  import opened Basics
  import opened Arith
  import opened FatDisk
  import opened FatCells
  import opened FatChains
  import opened FatTables
  import opened FatData
  import opened FatNames
  import opened FatDir
  import opened FatItems
  import opened FatScans
  import opened FatEdits
  import opened FatSlots
  import opened FatVolume
  import opened FatDirectory
  import opened FatEntries
  import opened FatGrow
  import opened FatCreate
  import opened FatStore
  import opened FatFrame
  import opened FatFs
  import opened FatRefs
  import opened FatFiles
  import opened FatOps

  // ---- Fat32CreateDirectory --------------------------------------------------

  function DotSlot(kind: FatType, c: nat): Slot { ShortSlot(kind, DOT_RAW, DIRECTORY, c, 0) }
  function DotDotSlot(kind: FatType, parent: nat): Slot { ShortSlot(kind, DOT_DOT_RAW, DIRECTORY, parent, 0) }

  /** The items of a new directory: itself and its parent. */
  function DotItems(kind: FatType, c: nat, parent: nat): seq<Item> {
    [Dots(DotSlot(kind, c)), Dots(DotDotSlot(kind, parent))]
  }

  lemma DotItemsOk(kind: FatType, c: nat, parent: nat)
    requires Storable(kind, c) && Storable(kind, parent)
    ensures ItemsOk(kind, DotItems(kind, c, parent))
    ensures Lay(kind, DotItems(kind, c, parent)) == [DotSlot(kind, c), DotDotSlot(kind, parent)]
  {
    hide ShortSlot, FirstOf, SizeOf;
    ShortSlotFields(kind, DOT_RAW, DIRECTORY, c, 0);
    ShortSlotFields(kind, DOT_DOT_RAW, DIRECTORY, parent, 0);
    var a, b := Dots(DotSlot(kind, c)), Dots(DotDotSlot(kind, parent));
    assert ItemOk(kind, a) && ItemOk(kind, b);
    LayOne(kind, a);
    LayOne(kind, b);
    LayConcat(kind, [a], [b]);
    assert [a] + [b] == DotItems(kind, c, parent);
  }

  /** The two entries name the new directory and its parent. */
  lemma DotsName(kind: FatType, c: nat, parent: nat)
    requires Storable(kind, c) && Storable(kind, parent)
    ensures var a, b := DotSlot(kind, c), DotDotSlot(kind, parent);
            && Raw(a) == [DOT] + Spaces(10) && FirstOf(kind, a) == c && IsDirectory(a) && SizeOf(a) == 0
            && Raw(b) == [DOT, DOT] + Spaces(9) && FirstOf(kind, b) == parent && IsDirectory(b) && SizeOf(b) == 0
  {
    hide ShortSlot, FirstOf, SizeOf;
    ShortSlotFields(kind, DOT_RAW, DIRECTORY, c, 0);
    ShortSlotFields(kind, DOT_DOT_RAW, DIRECTORY, parent, 0);
  }

  /** The first two slots of a directory just made lead to itself and to its parent. */
  lemma NewDirLeads(d: Disk, g: Geometry, fs: Fs, fs': Fs, head: nat, name: Name, c: nat)
    requires DirAdded(g, fs, fs', head, name, c) && Fitting(d, g) && DirLaid(d, g, c, fs'.dirs[c])
    requires Storable(g.kind, c) && Storable(g.kind, head)
    ensures (DirSectorsGood(d, g, FatOf(d, g), c, [c]);
             var ss := SlotsOf(d, DirSectors(g, c, [c]));
             && |ss| >= 2 && FirstOf(g.kind, ss[0]) == c && FirstOf(g.kind, ss[1]) == head
             && IsDirectory(ss[0]) && IsDirectory(ss[1]))
  {
    hide FatOf, SlotsOf, DirSectors, DotSlot, DotDotSlot, FirstOf, DirChain, Lay, ItemOk;
    DirSectorsGood(d, g, FatOf(d, g), c, [c]);
    LaidChain(d, g, c, [c]);
    var ss, l := SlotsOf(d, DirSectors(g, c, [c])), Lay(g.kind, DotItems(g.kind, c, head));
    DotItemsOk(g.kind, c, head);
    DotsName(g.kind, c, head);
    assert ss[..|l|][0] == ss[0] && ss[..|l|][1] == ss[1];
  }

  lemma LaidChain(d: Disk, g: Geometry, c: nat, cs: seq<nat>)
    requires Fitting(d, g) && DirChain(FatOf(d, g), g, c, cs)
    ensures FixedRoot(g, c) || forall i :: 0 <= i < |cs| ==> 2 <= cs[i]
  {
  }

  /** The first sector of a new directory. */
  function DotSector(kind: FatType, c: nat, parent: nat): Bytes {
    PutSlot(PutSlot(Zeros(512), 0, DotSlot(kind, c)), 1, DotDotSlot(kind, parent))
  }

  lemma DotSectorSlots(kind: FatType, c: nat, parent: nat, j: nat)
    requires j < 16
    ensures SlotIn(DotSector(kind, c, parent), j)
         == if j == 0 then DotSlot(kind, c) else if j == 1 then DotDotSlot(kind, parent) else SlotIn(Zeros(512), j)
  {
    hide PutSlot, SlotIn, DotSlot, DotDotSlot, Zeros;
    PutSlotGet(Zeros(512), 0, DotSlot(kind, c), j);
    PutSlotGet(PutSlot(Zeros(512), 0, DotSlot(kind, c)), 1, DotDotSlot(kind, parent), j);
  }

  /** Writes the dot entries and zeroes the rest of the cluster. */
  method WriteDots(v: Volume, c: nat, parent: nat)
    requires v.Valid() && 2 <= c < v.g.maxCluster
    modifies v`disk, v.buf
    ensures v.Valid() && v.Fat() == old(v.Fat())
    ensures OnlyStreamChanged(old(v.disk), v.disk, ClusterSectors(v.g, c))
    ensures OnDisk(v.disk, ClusterSectors(v.g, c))
    ensures forall k :: 0 <= k < v.g.spc ==>
              v.disk[ClusterSectors(v.g, c)[k]] == if k == 0 then DotSector(v.g.kind, c, parent) else Zeros(512)
  {
    hide FatOf, Mirrored, DotSlot, DotDotSlot, PutSlot, ShortSlot;
    ClusterInside(v.g, c);
    var sec := v.g.ClusterSector(c);
    ghost var secs := ClusterSectors(v.g, c);
    assert forall k :: 0 <= k < v.g.spc ==> secs[k] == sec + k < |v.disk|;
    ClearBuffer(v);
    CopySlot(v, 0, DotSlot(v.g.kind, c));
    CopySlot(v, 32, DotDotSlot(v.g.kind, parent));
    assert v.buf[..] == DotSector(v.g.kind, c, parent);
    assert secs[0] in secs;
    v.StoreDataSector(sec);
    var s := 1;
    while s < v.g.spc
      invariant 1 <= s <= v.g.spc && v.Valid() && v.Fat() == old(v.Fat())
      invariant OnlyStreamChanged(old(v.disk), v.disk, secs)
      invariant |v.disk| == |old(v.disk)|
      invariant forall k :: 0 <= k < s ==> v.disk[secs[k]] == if k == 0 then DotSector(v.g.kind, c, parent) else Zeros(512)
    {
      assert secs[s] in secs;
      ClearBuffer(v);
      v.StoreDataSector(sec + s);
      s := s + 1;
    }
  }

  method ClearBuffer(v: Volume)
    requires v.buf.Length == 512
    modifies v.buf
    ensures v.buf[..] == Zeros(512)
  {
    forall e | 0 <= e < 512 { v.buf[e] := 0; }
  }

  /** The new cluster is a directory holding only its dot entries. */
  lemma DotsLaid(d: Disk, g: Geometry, c: nat, parent: nat)
    requires Fitting(d, g) && 2 <= c < g.maxCluster && parent < g.maxCluster && ClosedAt(d, g, c)
    requires OnDisk(d, ClusterSectors(g, c))
    requires forall k :: 0 <= k < g.spc ==>
               d[ClusterSectors(g, c)[k]] == if k == 0 then DotSector(g.kind, c, parent) else Zeros(512)
    ensures DirLaid(d, g, c, Dir([c], DotItems(g.kind, c, parent)))
  {
    hide FatOf, SlotsOf, DotSlot, DotDotSlot, DotItems, DotSector, ClusterSectors, ChainSectors, Spells, LfnSeated;
    OneCluster(g, c);
    DirSectorsGood(d, g, FatOf(d, g), c, [c]);
    DotSlots(d, g, c, parent);
    DotsSpelled(g, SlotsOf(d, ClusterSectors(g, c)), ClusterSectors(g, c), c, parent);
  }

  lemma DotsSpelled(g: Geometry, ss: seq<Slot>, secs: seq<nat>, c: nat, parent: nat)
    requires g.Valid() && c < g.maxCluster && parent < g.maxCluster && 16 <= |ss| == |secs| * 16
    requires ss[0] == DotSlot(g.kind, c) && ss[1] == DotDotSlot(g.kind, parent) && forall k :: 2 <= k < |ss| ==> IsEnd(ss[k])
    ensures Spells(g.kind, ss, DotItems(g.kind, c, parent)) && LfnSeated(ss, secs)
  {
    hide DotSlot, DotDotSlot, DotItems, Lay, ItemOk, IsLong, IsEnd;
    StoredFits(g, c);
    StoredFits(g, parent);
    DotItemsOk(g.kind, c, parent);
    assert ss[..2] == [ss[0], ss[1]];
    forall n | 0 <= n && n + 1 < |secs| ensures !IsLong(ss[n * 16 + 15]) {
      EndIsNotLong(ss[n * 16 + 15]);
    }
  }

  lemma EndIsNotLong(s: Slot)
    ensures IsEnd(s) ==> !IsLong(s)
  {
  }

  ghost predicate ClosedAt(d: Disk, g: Geometry, c: nat)
    requires Fitting(d, g)
  {
    c < g.maxCluster && FatOf(d, g)[c] == EofMarker(g.kind)
  }

  lemma DotSlots(d: Disk, g: Geometry, c: nat, parent: nat)
    requires g.Valid() && 2 <= c && OnDisk(d, ClusterSectors(g, c))
    requires forall k :: 0 <= k < g.spc ==>
               d[ClusterSectors(g, c)[k]] == if k == 0 then DotSector(g.kind, c, parent) else Zeros(512)
    ensures var ss := SlotsOf(d, ClusterSectors(g, c));
            && |ss| >= 16 && ss[0] == DotSlot(g.kind, c) && ss[1] == DotDotSlot(g.kind, parent)
            && forall k :: 2 <= k < |ss| ==> IsEnd(ss[k])
  {
    hide SlotIn, DotSector, DotSlot, DotDotSlot, SlotsOf;
    var secs, ss := ClusterSectors(g, c), SlotsOf(d, ClusterSectors(g, c));
    forall k | 0 <= k < |ss| ensures ss[k] == if k == 0 then DotSlot(g.kind, c) else if k == 1 then DotDotSlot(g.kind, parent) else SlotIn(Zeros(512), k % 16) {
      SlotOf(d, secs, k / 16, k % 16);
      DotSectorSlots(g.kind, c, parent, k % 16);
    }
    forall k | 2 <= k < |ss| ensures IsEnd(ss[k]) { ZeroSlotEnds(k % 16); }
  }

  lemma ZeroSlotEnds(j: nat)
    requires j < 16
    ensures IsEnd(SlotIn(Zeros(512), j))
  {
  }

  /** `fs'` is `fs` with an empty directory on cluster `c` under `name`. */
  ghost predicate DirAdded(g: Geometry, fs: Fs, fs': Fs, head: nat, name: Name, c: nat) {
    && c !in fs.dirs && c !in fs.files && head in fs.dirs && head in fs'.dirs && c != head
    && c in fs'.dirs && fs'.dirs[c] == Dir([c], DotItems(g.kind, c, head)) && fs'.files == fs.files
    && SameElsewhere(fs, fs', head)
    && FoundItem(fs'.dirs[head].items, ShortName(name)) == Some(Entry(name, DIRECTORY, c, 0))
    && OthersFound(fs.dirs[head].items, fs'.dirs[head].items, ShortName(name))
  }

  lemma DirAddedIs(g: Geometry, fs: Fs, head: nat, name: Name, c: nat, dir: Dir, a: nat, b: nat)
    requires head in fs.dirs && c !in fs.dirs && c !in fs.files && FirstShort(fs.dirs[head].items, ShortName(name)) == None
    requires Added(fs.dirs[head].items, dir.items, Entry(name, DIRECTORY, c, 0), a, b)
    ensures DirAdded(g, fs, WithDir(WithDir(fs, c, Dir([c], DotItems(g.kind, c, head))), head, dir), head, name, c)
  {
    hide OthersFound, ShortName, DotItems;
    AddedOthers(fs.dirs[head].items, dir.items, Entry(name, DIRECTORY, c, 0), a, b);
    AddedFound(fs.dirs[head].items, dir.items, Entry(name, DIRECTORY, c, 0), a, b);
  }

  /** Fat32CreateDirectory, once the parent directory is open and the name is known to be new. */
  method CreateDirectoryIn(v: Volume, head: nat, name: Name, ghost fs: Fs) returns (status: Status, ghost fs': Fs, ghost c: nat)
    requires Ok(v, fs) && At(v, fs, head) && GoodName(name) && Roomy(v, head, name)
    requires FirstShort(fs.dirs[head].items, ShortName(name)) == None
    modifies v`disk, v`lastAllocated, v.buf
    ensures status == Success || status == DiskFull
    ensures status == DiskFull ==> v.Valid() && v.Fat() == old(v.Fat()) && Ok(v, fs) && FilesKept(old(v.disk), v.disk, v.g, fs)
    ensures status == Success && Visible(old(v.disk), v.g, fs, head, name) ==>
              Ok(v, fs') && DirAdded(v.g, fs, fs', head, name, c) && FilesKept(old(v.disk), v.disk, v.g, fs)
    ensures status == Success && !Contained(old(v.disk), v.g, fs, head, name) ==>
              exists cs: seq<nat> ::
                IsDir(v, head, cs) && Overran(old(v.disk), v.disk, v.g, [c], fs.dirs[head].cs, cs, NewEntry(name, DIRECTORY, c, 0))
  {
    hide FatOf, Mirrored, Layout, FilesKept, ChainStream, PlacedAt, DirSectors, Refs, DotItems, DirLaid, DirAdded, SpilledFrom, Touched, ItemSlots,
         Overran, ChainSectors, Contained, Visible, StaysInGroup, NewPlace, SlotsNeeded,
         ScanShort, ShortName, SlotsOf, RefOk, Spells, LfnSeated, Lay, NoEndBelow, TargetSlot, ClusterSectors, FreedFrom, Storable,
         DotSector, Forest, Chains;
    fs', c := fs, 0;
    ghost var d0, fat0, seen := v.disk, v.Fat(), Visible(v.disk, v.g, fs, head, name);
    HeadedLayout(v.disk, v.g, fs);
    SameFiles(v.disk, v.g, fs);
    var cluster := v.AllocateCluster();
    if cluster == 0 { return DiskFull, fs, 0; }
    c := cluster;
    ghost var d1 := v.disk;
    HeadFits(v.g, fat0, d0, fs, head);
    WriteDots(v, cluster, head);
    TouchedByBoth(d0, d1, v.disk, v.g, c);
    DotsLaid(v.disk, v.g, c, head);
    ghost var d2, fat1, sub := v.disk, v.Fat(), Dir([c], DotItems(v.g.kind, c, head));
    DirMade(d0, d2, v.g, fs, c, DotItems(v.g.kind, c, head));
    ghost var fs1 := WithDir(fs, c, sub);
    CarriesAt(v, fs1, head);
    SlotsBesideDir(d0, d2, v.g, fs, sub, c, head);
    assert DirSlots(v, fs1, head) == old(DirSlots(v, fs, head));
    PlacesAre(v, d0, fs, fs1, head, name);
    OneCluster(v.g, c);
    SameRoom(d0, d2, v.g, [c]);
    StoredFits(v.g, cluster);
    var ok;
    ghost var dir, a, b;
    ok, dir, a, b := AddEntry(v, head, NewEntry(name, DIRECTORY, cluster, 0), fs1);
    if ok {
      if !Contained(d0, v.g, fs, head, name) {
        OverranIs(d0, d2, v.disk, v.g, [c], fs.dirs[head].cs, dir.cs, NewEntry(name, DIRECTORY, c, 0));
      }
      if seen {
        KeptTwice(d0, d2, v.disk, v.g, fs, fs1);
        NoEntries(v.g.kind, c, head);
        RefsAdded(v.g, fs, fs1, head, dir, Entry(name, DIRECTORY, c, 0), a, b);
        DirAddedIs(v.g, fs, head, name, c, dir, a, b);
        fs' := WithDir(fs1, head, dir);
      }
      return Success, fs', c;
    }
    FreeOld(v, cluster, fs1);
    DirUndone(fs, c, sub);
    KeptTwice(d0, d2, v.disk, v.g, fs, fs);
    ClaimUndone(fat0, v.Fat(), EofMarker(v.g.kind), c);
    status := DiskFull;
  }

  lemma NoEntries(kind: FatType, c: nat, parent: nat)
    ensures NoEntry(DotItems(kind, c, parent))
  {
    hide DotSlot, DotDotSlot;
  }

  lemma HeadFits(g: Geometry, fat: Fat, d: Disk, fs: Fs, head: nat)
    requires Layout(d, g, fs) && head in fs.dirs
    ensures head < g.maxCluster
  {
    hide FatOf, Mirrored, DirLaid, Forest, Chains;
    if !FixedRoot(g, head) { KeyChain(g, FatOf(d, g), fs, head); }
  }

  /** Making a directory on a fresh cluster changes no other one. */
  lemma SlotsBesideDir(d: Disk, d': Disk, g: Geometry, fs: Fs, sub: Dir, c: nat, h: nat)
    requires Layout(d, g, fs) && Layout(d', g, WithDir(fs, c, sub)) && h in fs.dirs && c !in fs.dirs && c !in fs.files
    requires sub.cs == [c] && 2 <= c < g.maxCluster && Touched(d, d', g, ClusterSectors(g, c))
    ensures SlotsKept(d, d', g, h, fs.dirs[h].cs)
  {
    hide FatOf, Mirrored, Forest, Chains, ChainStream, Spells, LfnSeated, SlotsOf, Touched, DirSectors, InRange;
    var fs', cs := WithDir(fs, c, sub), fs.dirs[h].cs;
    assert DirLaid(d, g, h, fs.dirs[h]);
    DirSectorsGood(d, g, FatOf(d, g), h, cs);
    OneCluster(g, c);
    FileSectors(g, [c]);
    if !FixedRoot(g, h) {
      KeyChain(g, FatOf(d', g), fs', h);
      KeysApart(g, FatOf(d', g), fs', h, c);
    }
    OwnerKept(d, d', g, h, cs, c, [c]);
    SlotsSame(d, d', DirSectors(g, h, cs));
  }

  lemma DirUndone(fs: Fs, c: nat, sub: Dir)
    requires c !in fs.dirs && c !in fs.files
    ensures Without(WithDir(fs, c, sub), c) == fs
  {
    assert Without(WithDir(fs, c, sub), c).dirs == fs.dirs;
    assert Without(WithDir(fs, c, sub), c).files == fs.files;
  }

  lemma ClaimUndone(fat: Fat, fat'': Fat, eof: nat, c: nat)
    requires 2 <= |fat| <= eof && c in FreeSet(fat) && FreedFrom(fat[c := eof], fat'', c)
    ensures fat'' == fat
  {
    var fat' := fat[c := eof];
    assert FreshChain(fat, fat', eof, [c]);
    FreshUndone(fat, fat', fat'', eof, [c]);
  }

  // ---- free space ------------------------------------------------------------

  /** Fat32GetFreeSize. */
  method GetFreeSize(v: Volume) returns (size: nat)
    requires v.Valid()
    modifies v.buf
    ensures size == |FreeSet(v.Fat())| * v.g.spc * 512
  {
    hide FatOf, Mirrored, CellEnd, PowerOfTwo;
    GeometryArithmetic(v.g, 2);
    var maxCluster := (v.g.totalSectors - v.g.dataStart) / v.g.spc + 2;
    var free: nat, c: nat := 0, 2;
    FreeBelowAll(v.Fat());
    while c < maxCluster
      invariant 2 <= c <= maxCluster && v.Valid() && v.disk == old(v.disk) && free == |FreeBelow(v.Fat(), c)|
    {
      var e := v.GetFatEntry(c);
      OneMoreFree(v.Fat(), c);
      if e == 0 {
        free := free + 1;
      }
      c := c + 1;
    }
    size := free * v.g.spc * 512;
  }

  ghost function FreeBelow(fat: Fat, c: nat): set<nat> { set x | x in FreeSet(fat) && x < c }

  lemma FreeBelowAll(fat: Fat)
    ensures FreeBelow(fat, |fat|) == FreeSet(fat) && FreeBelow(fat, 2) == {}
  {
  }

  lemma OneMoreFree(fat: Fat, c: nat)
    requires 2 <= c < |fat|
    ensures |FreeBelow(fat, c + 1)| == |FreeBelow(fat, c)| + if fat[c] == 0 then 1 else 0
  {
    if fat[c] == 0 {
      assert FreeBelow(fat, c + 1) == FreeBelow(fat, c) + {c};
    } else {
      assert FreeBelow(fat, c + 1) == FreeBelow(fat, c);
    }
  }

  // ---- write, then delete ----------------------------------------------------

  /** Deleting a file just written into a directory that did not grow restores the table,
      so Fat32GetFreeSize answers as before. */
  lemma WriteThenDelete(fat: Fat, fat': Fat, fat'': Fat, eof: nat, fc: seq<nat>)
    requires 2 <= |fat| <= eof && FreshChain(fat, fat', eof, fc)
    requires if fc == [] then fat'' == fat' else FreedFrom(fat', fat'', fc[0])
    ensures fat'' == fat && |FreeSet(fat'')| == |FreeSet(fat)|
  {
    if fc == [] {
      NothingFresh(fat, fat', eof);
    } else {
      FreshUndone(fat, fat', fat'', eof, fc);
    }
  }

  /** Deletion by name takes the entry just made if and only if the entry answers to its
      own name and no earlier entry does. */
  lemma DeleteTakesNew(items: seq<Item>, items': seq<Item>, e: Item, a: nat, b: nat)
    requires Added(items, items', e, a, b) && e.Entry?
    ensures FirstAnswer(items', e.name) == Some(a) <==> Answers(e, e.name) && FirstAnswer(items[..a], e.name) == None
  {
    hide Answers;
    assert items'[a] == e;
    var r, q := FirstAnswer(items', e.name), FirstAnswer(items[..a], e.name);
    forall j | 0 <= j < a ensures items'[j] == items[..a][j] { }
  }

  /** An entry answers to its own name unless that is an 8.3 name ending in a dot. */
  lemma AnswersItself(name: Name, attr: u8, first: nat, size: nat)
    requires GoodName(name)
    ensures Answers(Entry(name, attr, first, size), name) <==> NeedLfn(name) || name[|name| - 1] != DOT
  {
    hide ShortName, DisplayName, CString, NeedLfn, EqualFold;
    if NeedLfn(name) {
      FoldSelf(name);
    } else {
      DotsAreShort();
      ShownNoZeros(name);
      CStringWhole(DisplayName(ShortName(name)));
      ShownFolds(name);
    }
  }

  lemma FoldSelf(name: Name)
    ensures EqualFold(name, name)
  {
  }

  /** The displayed form of an 8.3 name is the name in lower case, without a trailing dot. */
  lemma ShownFolds(name: Name)
    requires !NeedLfn(name) && name != [DOT] && name != [DOT, DOT] && name != []
    ensures EqualFold(DisplayName(ShortName(name)), name) <==> name[|name| - 1] != DOT
  {
    hide NeedLfn, Trimmed, Field;
    var raw, base, ext := ShortName(name), FatNames.Base(name), Extension(name);
    BasePlain(name);
    TrimField(base, 8);
    TrimField(ext, 3);
    assert raw[..8] == Field(base, 8) && raw[8..] == Field(ext, 3);
    assert raw[8] == Field(ext, 3)[0];
    PartsFold(name, Trimmed(Field(base, 8)), Trimmed(Field(ext, 3)));
  }

  lemma PartsFold(name: Name, b: Bytes, e: Bytes)
    requires |b| == |FatNames.Base(name)| && |e| == |Extension(name)| && name != []
    requires forall i :: 0 <= i < |b| ==> b[i] == Lower(FatNames.Base(name)[i])
    requires forall i :: 0 <= i < |e| ==> e[i] == Lower(Extension(name)[i])
    ensures EqualFold(b + if e == [] then [] else [DOT] + e, name) <==> name[|name| - 1] != DOT
  {
    var d := LastDot(name, |name|);
    var shown := b + if e == [] then [] else [DOT] + e;
    if d >= 0 && e != [] {
      assert name == name[..d] + [DOT] + name[d + 1..];
    }
  }
}
