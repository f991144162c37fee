/** Where the driver leaves its own directories: a path whose parent is a file, whose clusters are
    then taken for a directory, and an entry too long for its one-sector cluster. */
module FatStray {
  import opened Basics
  import opened Arith
  import opened FatDisk
  import opened FatCells
  import opened FatChains
  import opened FatTables
  import opened FatData
  import opened FatNames
  import opened FatDir
  import opened FatItems
  import opened FatScans
  import opened FatEdits
  import opened FatSlots
  import opened FatVolume
  import opened FatDirectory
  import opened FatEntries
  import opened FatGrow
  import opened FatCreate
  import opened FatStore
  import opened FatFrame
  import opened FatFs
  import opened FatRefs
  import opened FatFiles
  import opened FatOps
  import opened FatPaths

  // ---- what a path opens -------------------------------------------------------------

  /** The cluster Fat32OpenPath leaves as the current one. */
  function HeadOf(t: Target): nat
    requires t != Missing
  {
    match t case Folder(h) => h case File(f, _) => f
  }

  /** The path leads to a file whose first cluster is not mistaken for the fixed root. */
  predicate Stray(g: Geometry, t: Target) { t.File? && (t.first != 0 || g.kind.Fat32?) }

  /** What the driver takes for a directory is one of the volume if and only if the path leads to a
      directory, or to an empty file on a volume whose root directory has the number 0. */
  lemma HeadIsDirectory(g: Geometry, fs: Fs, comps: seq<Name>)
    requires Refs(g, fs) && Headed(g, fs) && (0 in fs.dirs ==> g.rootCluster == 0) && (g.kind.Fat32? <==> g.rootCluster != 0)
    requires Walk(g, fs, comps) != Missing
    ensures HeadOf(Walk(g, fs, comps)) in fs.dirs <==> !Stray(g, Walk(g, fs, comps))
    ensures Stray(g, Walk(g, fs, comps)) && HeadOf(Walk(g, fs, comps)) != 0 ==> HeadOf(Walk(g, fs, comps)) in fs.files
    ensures !Stray(g, Walk(g, fs, comps)) && Walk(g, fs, comps).File? ==> HeadOf(Walk(g, fs, comps)) == g.rootCluster
  {
    hide Refs, Walk, JustEnough;
    WalkLands(g, fs, comps);
  }

  lemma RootNumber(g: Geometry)
    requires g.Valid()
    ensures g.kind.Fat32? <==> g.rootCluster != 0
  {
  }

  // ---- a file taken for a directory ---------------------------------------------------

  /** The file still has its chain and its bytes. */
  ghost predicate Unharmed(d: Disk, d': Disk, g: Geometry, cs: seq<nat>) {
    && Fitting(d, g) && Fitting(d', g) && OnClusters(g, cs)
    && Chain(FatOf(d', g), EofMarker(g.kind), cs) && ChainStream(d', g, cs) == ChainStream(d, g, cs)
  }

  lemma FileIsDir(v: Volume, fs: Fs, f: nat)
    requires Carries(v, fs) && f in fs.files
    ensures IsDir(v, f, fs.files[f]) && OnClusters(v.g, fs.files[f]) && !FixedRoot(v.g, f)
    ensures Chain(v.Fat(), EofMarker(v.g.kind), fs.files[f])
  {
    hide FatOf, Mirrored, DirLaid, Forest, Chains;
    KeyChain(v.g, v.Fat(), fs, f);
  }

  /** Fat32WriteFile when the parent it opened is the file on cluster `f`: if nothing in the file
      passes for an entry of that name, the new entry goes into the file, or a cluster is linked
      behind the file, and the file is no longer what it was. */
  method WriteBelowFile(v: Volume, f: nat, name: Name, data: Bytes, ghost fs: Fs) returns (status: Status)
    requires Ok(v, fs) && f in fs.files && GoodName(name) && Roomy(v, f, name) && |data| < 0x1_0000_0000
    modifies v`disk, v`lastAllocated, v.buf
    ensures status in {Success, AccessDenied, DiskFull, Astray}
    ensures status == AccessDenied || status == Astray ==> v.disk == old(v.disk) && Ok(v, fs)
    ensures status == DiskFull ==> v.Valid() && v.Fat() == old(v.Fat()) && Ok(v, fs) && FilesKept(old(v.disk), v.disk, v.g, fs)
    ensures status == Success ==> v.Valid() && !Unharmed(old(v.disk), v.disk, v.g, fs.files[f])
    ensures (status == AccessDenied || status == Astray) <==> PassesForEntry(old(v.disk), v.g, fs, f, name)
  {
    hide FatOf, Mirrored, Layout, FilesKept, ChainStream, FreeSet, PlacedAt, DirSectors, FreshChain, RoundsUp, Refs,
         ScanShort, ShortName, SlotsOf, RefOk, SpilledFrom, Spilled, Touched, SlotsNeeded, Unharmed, Chain, FatGrown, Grew, NewSlots, TargetSlot,
         GroupHas, Adjacent, FreedFrom;
    ghost var cs, d0, fat0 := fs.files[f], v.disk, v.Fat();
    FileIsDir(v, fs, f);
    var short := ShortName(name);
    var found, sec, off, slot;
    ghost var k;
    found, sec, off, slot, k := ScanDirectory(v, f, short, cs);
    if found {
      status := if IsDirectory(slot) then AccessDenied else Astray;
      return;
    }
    HeadedLayout(v.disk, v.g, fs);
    var first;
    ghost var fc;
    status, first, fc := StoreFile(v, data, fs);
    if status != Success { return; }
    ghost var d1, fs1 := v.disk, Swapped(fs, 0, fc);
    StillThere(fs, fc, f);
    FileIsDir(v, fs1, f);
    SameRoom(d0, d1, v.g, fc);
    FirstFits(v, fs1, fc);
    StoredFits(v.g, first);
    StreamKeptThere(d0, d1, v.g, fs, f);
    var ok := PlaceBelow(v, f, NewEntry(name, ARCHIVE, first, |data|), cs, d0);
    if ok { return; }
    if first != 0 {
      FreeOld(v, first, fs1);
      FileUndone(fs, fc);
      KeptTwice(d0, d1, v.disk, v.g, fs, fs);
      FreshUndone(fat0, FatOf(d1, v.g), v.Fat(), EofMarker(v.g.kind), fc);
    }
    status := DiskFull;
  }

  /** The entry goes among the file's bytes, or a cluster behind the file. */
  method PlaceBelow(v: Volume, f: nat, e: NewEntry, ghost cs: seq<nat>, ghost d0: Disk) returns (ok: bool)
    requires IsDir(v, f, cs) && !FixedRoot(v.g, f) && ItemOk(v.g.kind, ItemFor(e)) && Roomy(v, f, e.name)
    requires Fitting(d0, v.g) && OnClusters(v.g, cs) && ChainStream(v.disk, v.g, cs) == ChainStream(d0, v.g, cs)
    modifies v`disk, v`lastAllocated, v.buf
    ensures v.Valid() && (!ok ==> v.Fat() == old(v.Fat()) && v.disk == old(v.disk))
    ensures ok ==> !Unharmed(d0, v.disk, v.g, cs)
  {
    hide FatOf, Mirrored, ChainStream, SlotsOf, Spilled, Touched, SlotsNeeded, Unharmed, FatGrown, NewSlots, TargetSlot,
         GroupHas, Adjacent, ItemOk, ItemSlots, IsEnd, IsGone, GroupSize, ChainSectors, FreeSet;
    ghost var d1 := v.disk;
    ghost var m, i, j;
    NameSize(v.g.kind, e);
    ok, m, i, j := PlaceEntry(v, f, e, cs);
    if !ok { return; }
    if m.cs == cs {
      WrittenIsItem(v.g.kind, e);
      SlotsTaken(v.g.kind, ItemFor(e), 0);
      PickedFree(m.slots, GroupSize(v.g, f), i, SlotsNeeded(e.name), j);
      SlotHarms(d0, d1, v.disk, v.g, cs, m.slots, Slots(v, f, cs), m.p);
    } else {
      GrownHarms(d0, v.disk, v.g, FatOf(d1, v.g), cs, m.cs);
    }
  }

  /** Some slot of the file's data looks like an entry with the 8.3 name. */
  ghost predicate PassesForEntry(d: Disk, g: Geometry, fs: Fs, f: nat, name: Name)
    requires Layout(d, g, fs) && f in fs.files
  {
    ScanShort(FileSlots(d, g, fs, f), ShortName(name)).Some?
  }

  /** The data of a file, read as directory slots. */
  ghost function FileSlots(d: Disk, g: Geometry, fs: Fs, f: nat): seq<Slot>
    requires Layout(d, g, fs) && f in fs.files
  {
    KeyChain(g, FatOf(d, g), fs, f);
    DirSectorsGood(d, g, FatOf(d, g), f, fs.files[f]);
    SlotsOf(d, DirSectors(g, f, fs.files[f]))
  }

  lemma StillThere(fs: Fs, fc: seq<nat>, f: nat)
    requires f in fs.files && (fc != [] ==> fc[0] !in fs.files)
    ensures f in Swapped(fs, 0, fc).files && Swapped(fs, 0, fc).files[f] == fs.files[f]
  {
  }

  lemma StreamKeptThere(d: Disk, d': Disk, g: Geometry, fs: Fs, f: nat)
    requires FilesKept(d, d', g, fs) && f in fs.files
    ensures OnClusters(g, fs.files[f]) && ChainStream(d', g, fs.files[f]) == ChainStream(d, g, fs.files[f])
  {
  }

  /** The slot at which a run starts is a free one, whatever the other slots hold. */
  lemma PickedFree(ss: seq<Slot>, gs: nat, i: nat, n: nat, k: nat)
    requires 1 <= n && GroupHas(ss, i, gs, n, Some(k))
    ensures var p := Steps(i, gs) * 16 + k; p < |ss| && (IsEnd(ss[p]) || IsGone(ss[p]))
  {
    hide IsEnd, IsGone, FreeRun;
    var g := ss[Steps(i, gs) * 16..Steps(i + 1, gs) * 16];
    FreeRunFirst(g, n, 0, 0);
    assert g[k] == ss[Steps(i, gs) * 16 + k];
  }

  lemma {:induction false} FreeRunFirst(g: seq<Slot>, needed: nat, k: nat, run: nat)
    requires run <= k <= |g| && run < needed && forall x :: k - run <= x < k ==> IsGone(g[x])
    ensures var r := FreeRun(g, needed, k, run); r.Some? ==> r.value < |g| && (IsEnd(g[r.value]) || IsGone(g[r.value]))
    decreases |g| - k
  {
    hide IsEnd, IsGone;
    if k < |g| && !IsEnd(g[k]) {
      if IsGone(g[k]) {
        if run + 1 < needed { FreeRunFirst(g, needed, k + 1, run + 1); }
      } else {
        FreeRunFirst(g, needed, k + 1, 0);
      }
    }
  }

  /** One other slot is another file. */
  lemma SlotHarms(d0: Disk, d1: Disk, d': Disk, g: Geometry, cs: seq<nat>, ss: seq<Slot>, ss': seq<Slot>, p: nat)
    requires Fitting(d0, g) && Fitting(d1, g) && Fitting(d', g) && OnClusters(g, cs) && p < |ss| == |ss'| && ss'[p] != ss[p]
    requires OnDisk(d1, ChainSectors(g, cs)) && OnDisk(d', ChainSectors(g, cs))
    requires ss == SlotsOf(d1, ChainSectors(g, cs)) && ss' == SlotsOf(d', ChainSectors(g, cs))
    requires ChainStream(d1, g, cs) == ChainStream(d0, g, cs)
    ensures !Unharmed(d0, d', g, cs)
  {
    hide SlotsOf, ChainSectors, FatOf, Chain;
    if ChainStream(d', g, cs) == ChainStream(d1, g, cs) {
      SectorsAgree(d1, d', ChainSectors(g, cs));
      SlotsSame(d1, d', ChainSectors(g, cs));
    }
  }

  lemma SectorsAgree(d: Disk, d': Disk, secs: seq<nat>)
    requires OnDisk(d, secs) && OnDisk(d', secs) && Stream(d, secs) == Stream(d', secs)
    ensures forall k :: 0 <= k < |secs| ==> d'[secs[k]] == d[secs[k]]
  {
    forall k | 0 <= k < |secs| ensures d'[secs[k]] == d[secs[k]] {
      var x, y := d[secs[k]], d'[secs[k]];
      forall j | 0 <= j < 512 ensures x[j] == y[j] {
        Remainder(k * 512 + j, 512, k, j);
        assert Stream(d, secs)[k * 512 + j] == Stream(d', secs)[k * 512 + j];
      }
      assert x == y;
    }
  }

  /** A chain that goes on is no longer the file's. */
  lemma GrownHarms(d0: Disk, d': Disk, g: Geometry, fat: Fat, cs: seq<nat>, cs': seq<nat>)
    requires Fitting(d', g) && |fat| == g.maxCluster && FatGrown(fat, FatOf(d', g), EofMarker(g.kind), cs, cs') && cs' != cs
    requires Chain(fat, EofMarker(g.kind), cs)
    ensures !Unharmed(d0, d', g, cs)
  {
    hide FatOf, ChainStream;
  }

  /** Fat32DeleteFile when the parent it opened is the file on cluster `f`: if nothing in the file
      answers to the name it leaves everything alone. */
  method DeleteBelowFile(v: Volume, f: nat, name: Name, ghost fs: Fs) returns (status: Status, place: Place)
    requires Ok(v, fs) && f in fs.files
    modifies v.buf
    ensures status in {NoSuchFile, Astray}
    ensures status == NoSuchFile <==> AnswersBelow(v.disk, v.g, fs, f, name) == None
    ensures status == Astray ==> FoundBelow(v, fs, f, name, place)
  {
    hide FatOf, Mirrored, Layout, DirSectors, SlotsOf, FindEntry, PlaceOf;
    FileIsDir(v, fs, f);
    var found;
    ghost var run;
    found, place, run := FindDirEntry(v, f, name, fs.files[f]);
    status := if found then Astray else NoSuchFile;
  }

  /** What FatFindEntry finds in the data of a file. */
  ghost function AnswersBelow(d: Disk, g: Geometry, fs: Fs, f: nat, name: Name): Option<Found>
    requires Layout(d, g, fs) && f in fs.files
  {
    FindEntry(FileSlots(d, g, fs, f), name, Zeros(260), false, 0, 0)
  }

  /** `place` is where it stands in the file. */
  ghost predicate FoundBelow(v: Volume, fs: Fs, f: nat, name: Name, place: Place)
    requires Carries(v, fs) && f in fs.files
    reads v
  {
    FileIsDir(v, fs, f);
    AnswersBelow(v.disk, v.g, fs, f, name).Some?
    && PlaceOf(Sectors(v, f, fs.files[f]), Slots(v, f, fs.files[f]), AnswersBelow(v.disk, v.g, fs, f, name).value, place)
  }

  /** The next step of Fat32DeleteFile after such a find: it frees the chain of whatever cluster the
      slot in the file names. If that is the chain of a file of the volume, the volume no longer
      carries that file. */
  method FreeFound(v: Volume, first: nat, ghost fs: Fs)
    requires Ok(v, fs) && 2 <= first < v.g.maxCluster
    modifies v`disk, v.buf
    ensures v.Valid() && FreedFrom(old(v.Fat()), v.Fat(), first)
    ensures first in fs.files ==> !Layout(v.disk, v.g, fs)
  {
    hide FatOf, Mirrored, DirLaid, Forest, Chains, Refs;
    ghost var fat := v.Fat();
    v.FreeClusterChain(first);
    FreedHead(fat, v.Fat(), first);
    if first in fs.files { FreedBreaks(v.disk, v.g, fs, first); }
  }

  lemma FreedHead(fat: Fat, fat': Fat, a: nat)
    requires FreedFrom(fat, fat', a) && 2 <= a < |fat|
    ensures fat'[a] == 0
  {
    assert Path(fat, [a], a, a);
  }

  lemma FreedBreaks(d: Disk, g: Geometry, fs: Fs, f: nat)
    requires Fitting(d, g) && f in fs.files && 2 <= f < g.maxCluster && FatOf(d, g)[f] == 0
    ensures !Layout(d, g, fs)
  {
    hide FatOf, Mirrored, DirLaid, Forest, Chains;
    if Layout(d, g, fs) {
      KeyChain(g, FatOf(d, g), fs, f);
      FreeOffChains(FatOf(d, g), EofMarker(g.kind), ChainOf(fs, f), f);
    }
  }

  // ---- an entry longer than its cluster -------------------------------------------------

  /** Whoever owns the cluster behind the directory's new one finds the rest of the entry's slots, the
      8.3 slot among them, in place of its first bytes there. */
  lemma SpillHits(d: Disk, d': Disk, g: Geometry, c: nat, es: seq<Slot>, cs: seq<nat>, i: nat, k: nat)
    requires Spilled(d, d', g, c, es) && Fitting(d', g) && OnClusters(g, cs) && i < |cs| && cs[i] == c + 1 && 16 + k < |es|
    ensures OnDisk(d', ChainSectors(g, cs)) && i * 16 + k < |ChainSectors(g, cs)| * 16
    ensures SlotsOf(d', ChainSectors(g, cs))[i * 16 + k] == es[16 + k]
  {
    hide SlotsOf, ChainSectors, Touched;
    var two, secs := Run(g.ClusterSector(c), 2), ChainSectors(g, cs);
    StreamOnDisk(d', g, cs);
    StepsIsProduct(i, 1);
    StepsIsProduct(|cs|, 1);
    SectorAt(g, cs, i, 0);
    ClustersApart(g, c, c + 1);
    NextSector(g, c);
    assert two[1] == g.ClusterSector(c) + 1;
    SlotOf(d', two, 1, k);
    SlotOf(d', secs, i, k);
    assert SlotsOf(d', two)[16 + k] == es[16 + k];
  }

  lemma NextSector(g: Geometry, c: nat)
    requires 2 <= c && g.spc == 1
    ensures g.ClusterSector(c + 1) == g.ClusterSector(c) + 1
  {
    assert Steps(c + 1 - 2, 1) == Steps(c - 2, 1) + 1;
  }
}
