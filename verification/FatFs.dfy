/** The whole volume: every directory with its items and every file with its chain,
    and what each kind of disk change does to that picture. */
module FatFs {
  import opened Arith
  import opened FatDisk
  import opened FatCells
  import opened FatChains
  import opened FatTables
  import opened FatData
  import opened FatNames
  import opened FatDir
  import opened FatItems
  import opened FatScans
  import opened FatEdits
  import opened FatSlots
  import opened FatVolume
  import opened FatDirectory
  import opened FatEntries
  import opened FatGrow
  import opened FatCreate
  import opened FatStore
  import opened FatFrame

  /** A directory: its cluster chain (none for the fixed root) and its items. */
  datatype Dir = Dir(cs: seq<nat>, items: seq<Item>)

  /** The directories and the files of a volume, by first cluster. */
  datatype Fs = Fs(dirs: map<nat, Dir>, files: map<nat, seq<nat>>)

  /** All cluster chains in use. */
  ghost function Chains(g: Geometry, fs: Fs): set<seq<nat>> {
    (set f | f in fs.files :: fs.files[f]) + (set h | h in fs.dirs && !FixedRoot(g, h) :: fs.dirs[h].cs)
  }

  /** Chains start at the cluster they are known by; no cluster starts two. */
  ghost predicate Headed(g: Geometry, fs: Fs) {
    && fs.dirs.Keys !! fs.files.Keys && g.rootCluster in fs.dirs
    && (forall f :: f in fs.files ==> fs.files[f] != [] && fs.files[f][0] == f && !FixedRoot(g, f))
    && forall h :: h in fs.dirs ==> if FixedRoot(g, h) then fs.dirs[h].cs == [] else fs.dirs[h].cs != [] && fs.dirs[h].cs[0] == h
  }

  ghost predicate DirLaid(d: Disk, g: Geometry, h: nat, dir: Dir)
    requires Fitting(d, g)
  {
    && DirChain(FatOf(d, g), g, h, dir.cs)
    && (DirSectorsGood(d, g, FatOf(d, g), h, dir.cs);
        var secs := DirSectors(g, h, dir.cs);
        Spells(g.kind, SlotsOf(d, secs), dir.items) && LfnSeated(SlotsOf(d, secs), secs))
  }

  /** The disk carries the volume `fs`: equal FAT copies, entries in range, the chains
      a forest, and every directory in the form the driver keeps. */
  ghost predicate Layout(d: Disk, g: Geometry, fs: Fs) {
    && Fitting(d, g) && Mirrored(d, g) && InRange(FatOf(d, g), EofMarker(g.kind))
    && Headed(g, fs)
    && Forest(FatOf(d, g), EofMarker(g.kind), Chains(g, fs))
    && forall h :: h in fs.dirs ==> DirLaid(d, g, h, fs.dirs[h])
  }

  ghost function ChainOf(fs: Fs, k: nat): seq<nat>
    requires k in fs.dirs || k in fs.files
  {
    if k in fs.files then fs.files[k] else fs.dirs[k].cs
  }

  function Without(fs: Fs, k: nat): Fs { Fs(fs.dirs - {k}, fs.files - {k}) }
  function WithFile(fs: Fs, fc: seq<nat>): Fs
    requires fc != []
  {
    fs.(files := fs.files[fc[0] := fc])
  }
  function WithDir(fs: Fs, h: nat, dir: Dir): Fs { fs.(dirs := fs.dirs[h := dir]) }

  // ---- the chains of a changed volume ---------------------------------------

  lemma ChainsWithout(g: Geometry, fs: Fs, k: nat)
    requires Headed(g, fs) && (k in fs.dirs || k in fs.files) && k != g.rootCluster && !FixedRoot(g, k)
    ensures Headed(g, Without(fs, k))
    ensures ChainOf(fs, k) in Chains(g, fs)
    ensures Chains(g, Without(fs, k)) == Chains(g, fs) - {ChainOf(fs, k)}
  {
    var fs' := Without(fs, k);
    var c := ChainOf(fs, k);
    forall x | x in Chains(g, fs') ensures x in Chains(g, fs) - {c} {
      assert x != [] && x[0] != k;
    }
    forall x | x in Chains(g, fs) - {c} ensures x in Chains(g, fs') {
      if f :| f in fs.files && fs.files[f] == x {
        assert f in fs'.files;
      } else {
        var h :| h in fs.dirs && !FixedRoot(g, h) && fs.dirs[h].cs == x;
        assert h in fs'.dirs;
      }
    }
  }

  lemma ChainsWithFile(g: Geometry, fs: Fs, fc: seq<nat>)
    requires Headed(g, fs) && fc != [] && fc[0] !in fs.dirs && fc[0] !in fs.files && !FixedRoot(g, fc[0])
    ensures Headed(g, WithFile(fs, fc)) && Chains(g, WithFile(fs, fc)) == Chains(g, fs) + {fc}
  {
    var fs' := WithFile(fs, fc);
    assert fs'.files[fc[0]] == fc;
    forall x | x in Chains(g, fs) ensures x in Chains(g, fs') {
      if f :| f in fs.files && fs.files[f] == x {
        assert fs'.files[f] == x;
      }
    }
  }

  lemma ChainsWithDir(g: Geometry, fs: Fs, h: nat, dir: Dir)
    requires Headed(g, fs) && h !in fs.dirs && h !in fs.files && !FixedRoot(g, h) && dir.cs != [] && dir.cs[0] == h
    ensures Headed(g, WithDir(fs, h, dir)) && Chains(g, WithDir(fs, h, dir)) == Chains(g, fs) + {dir.cs}
  {
    var fs' := WithDir(fs, h, dir);
    assert fs'.dirs[h] == dir;
    forall x | x in Chains(g, fs) ensures x in Chains(g, fs') {
      if f :| f in fs.files && fs.files[f] == x {
      } else {
        var i :| i in fs.dirs && !FixedRoot(g, i) && fs.dirs[i].cs == x;
        assert fs'.dirs[i].cs == x;
      }
    }
  }

  lemma ChainsMoved(g: Geometry, fs: Fs, h: nat, dir: Dir)
    requires Headed(g, fs) && h in fs.dirs
    requires if FixedRoot(g, h) then dir.cs == [] else dir.cs != [] && dir.cs[0] == h
    ensures Headed(g, WithDir(fs, h, dir))
    ensures Chains(g, WithDir(fs, h, dir))
         == if FixedRoot(g, h) then Chains(g, fs) else Chains(g, fs) - {fs.dirs[h].cs} + {dir.cs}
  {
    var fs' := WithDir(fs, h, dir);
    assert fs'.dirs[h] == dir;
    forall x | x in Chains(g, fs) && (FixedRoot(g, h) || x != fs.dirs[h].cs) ensures x in Chains(g, fs') {
      if f :| f in fs.files && fs.files[f] == x {
      } else {
        var i :| i in fs.dirs && !FixedRoot(g, i) && fs.dirs[i].cs == x;
        assert fs'.dirs[i].cs == x;
      }
    }
    forall x | x in Chains(g, fs') && (FixedRoot(g, h) || x != dir.cs)
      ensures x in Chains(g, fs) && (FixedRoot(g, h) || x != fs.dirs[h].cs)
    {
      if f :| f in fs'.files && fs'.files[f] == x {
        assert fs.files[f] == x;
      } else {
        var i :| i in fs'.dirs && !FixedRoot(g, i) && fs'.dirs[i].cs == x;
        assert fs.dirs[i].cs == x;
      }
    }
  }

  /** Different keys have different, disjoint chains on clusters of the volume. */
  lemma KeysApart(g: Geometry, fat: Fat, fs: Fs, a: nat, b: nat)
    requires |fat| == g.maxCluster && Headed(g, fs) && Forest(fat, EofMarker(g.kind), Chains(g, fs))
    requires (a in fs.dirs || a in fs.files) && (b in fs.dirs || b in fs.files) && a != b
    requires !FixedRoot(g, a) && !FixedRoot(g, b)
    ensures ChainOf(fs, a) in Chains(g, fs) && ChainOf(fs, b) in Chains(g, fs) && ChainOf(fs, a) != ChainOf(fs, b)
    ensures OnClusters(g, ChainOf(fs, a)) && OnClusters(g, ChainOf(fs, b)) && Disjoint(ChainOf(fs, a), ChainOf(fs, b))
  {
    KeyChain(g, fat, fs, a);
    KeyChain(g, fat, fs, b);
    InForest(g, fat, Chains(g, fs), ChainOf(fs, a), ChainOf(fs, b));
  }

  lemma KeyChain(g: Geometry, fat: Fat, fs: Fs, a: nat)
    requires |fat| == g.maxCluster && Headed(g, fs) && Forest(fat, EofMarker(g.kind), Chains(g, fs))
    requires (a in fs.dirs || a in fs.files) && !FixedRoot(g, a)
    ensures ChainOf(fs, a) in Chains(g, fs) && ChainOf(fs, a) != [] && ChainOf(fs, a)[0] == a
    ensures Chain(fat, EofMarker(g.kind), ChainOf(fs, a)) && OnClusters(g, ChainOf(fs, a)) && 2 <= a < g.maxCluster
  {
    var c := ChainOf(fs, a);
    assert c in Chains(g, fs);
    assert Chain(fat, EofMarker(g.kind), c);
  }

  /** A free cluster is no key. */
  lemma FreeIsNoKey(g: Geometry, fat: Fat, fs: Fs, c: nat)
    requires 2 <= |fat| == g.maxCluster <= EofMarker(g.kind) && Headed(g, fs) && Forest(fat, EofMarker(g.kind), Chains(g, fs))
    requires c in FreeSet(fat)
    ensures c !in fs.dirs && c !in fs.files && !FixedRoot(g, c)
  {
    if c in fs.dirs || c in fs.files {
      KeyChain(g, fat, fs, c);
      FreeOffChains(fat, EofMarker(g.kind), ChainOf(fs, c), c);
    }
  }

  // ---- what stays ------------------------------------------------------------

  /** Writes to the sectors of one key leave the sectors of another. */
  lemma OwnerKept(d: Disk, d': Disk, g: Geometry, a: nat, ca: seq<nat>, b: nat, cb: seq<nat>)
    requires Fitting(d, g) && a != b
    requires if FixedRoot(g, a) then ca == [] else OnClusters(g, ca)
    requires if FixedRoot(g, b) then cb == [] else OnClusters(g, cb)
    requires FixedRoot(g, a) || FixedRoot(g, b) || Disjoint(ca, cb)
    requires Touched(d, d', g, DirSectors(g, b, cb))
    ensures SectorsKept(d, d', DirSectors(g, a, ca))
  {
    hide ChainSectors, ChainStream, Touched;
    if FixedRoot(g, a) {
      RootKept(d, d', g, cb);
    } else {
      StreamKeptByDir(d, d', g, b, cb, ca);
    }
  }

  lemma RootKept(d: Disk, d': Disk, g: Geometry, cb: seq<nat>)
    requires Fitting(d, g) && !g.kind.Fat32? && OnClusters(g, cb) && Touched(d, d', g, ChainSectors(g, cb))
    ensures SectorsKept(d, d', Run(g.rootStart, g.rootSectors))
  {
    hide ChainSectors;
    forall s | g.rootStart <= s < g.dataStart ensures s !in ChainSectors(g, cb) {
      forall t | 0 <= t < |ChainSectors(g, cb)| ensures ChainSectors(g, cb)[t] != s { StreamInside(g, cb, t); }
    }
  }

  lemma DirKept(d: Disk, d': Disk, g: Geometry, h: nat, dir: Dir)
    requires Fitting(d, g) && Fitting(d', g) && DirLaid(d, g, h, dir) && DirChain(FatOf(d', g), g, h, dir.cs)
    requires SectorsKept(d, d', DirSectors(g, h, dir.cs))
    ensures DirLaid(d', g, h, dir)
  {
    hide FatOf, SlotsOf, DirSectors, Spells, LfnSeated;
    DirSectorsGood(d, g, FatOf(d, g), h, dir.cs);
    DirSectorsGood(d', g, FatOf(d', g), h, dir.cs);
    SlotsSame(d, d', DirSectors(g, h, dir.cs));
  }

  /** The files of `fs` read the same on both disks. */
  ghost predicate FilesKept(d: Disk, d': Disk, g: Geometry, fs: Fs) {
    Fitting(d, g) && Fitting(d', g) &&
    forall f :: f in fs.files ==> OnClusters(g, fs.files[f]) && ChainStream(d', g, fs.files[f]) == ChainStream(d, g, fs.files[f])
  }

  // ---- the four kinds of change ----------------------------------------------

  /** Freeing the chain of a file or directory. */
  lemma ChainFreed(d: Disk, d': Disk, g: Geometry, fs: Fs, k: nat)
    requires Layout(d, g, fs) && (k in fs.dirs || k in fs.files) && k != g.rootCluster && !FixedRoot(g, k)
    requires Fitting(d', g) && Mirrored(d', g) && OnlyFatChanged(d, d', g) && FreedFrom(FatOf(d, g), FatOf(d', g), k)
    ensures Layout(d', g, Without(fs, k)) && FilesKept(d, d', g, Without(fs, k))
    ensures FreeSet(FatOf(d', g)) == FreeSet(FatOf(d, g)) + Elems(ChainOf(fs, k))
    ensures |FreeSet(FatOf(d', g))| == |FreeSet(FatOf(d, g))| + |ChainOf(fs, k)|
  {
    hide FatOf, Mirrored, DirLaid, Forest, Chains, FreedFrom, DirSectors, ChainStream, FreeSet;
    var fs', eof := Without(fs, k), EofMarker(g.kind);
    KeyChain(g, FatOf(d, g), fs, k);
    ChainsWithout(g, fs, k);
    FreeChainInForest(FatOf(d, g), FatOf(d', g), eof, Chains(g, fs), ChainOf(fs, k));
    FreedInRange(FatOf(d, g), FatOf(d', g), eof, k);
    forall h | h in fs'.dirs ensures DirLaid(d', g, h, fs'.dirs[h]) {
      KeptByFat(d, d', g, fs, fs', h);
    }
    forall f | f in fs'.files ensures OnClusters(g, fs.files[f]) && ChainStream(d', g, fs.files[f]) == ChainStream(d, g, fs.files[f]) {
      KeyChain(g, FatOf(d, g), fs, f);
      StreamKeptByFat(d, d', g, fs.files[f]);
    }
  }

  lemma KeptByFat(d: Disk, d': Disk, g: Geometry, fs: Fs, fs': Fs, h: nat)
    requires Fitting(d, g) && Fitting(d', g) && OnlyFatChanged(d, d', g)
    requires h in fs.dirs && h in fs'.dirs && fs'.dirs[h] == fs.dirs[h] && DirLaid(d, g, h, fs.dirs[h])
    requires Headed(g, fs') && Forest(FatOf(d', g), EofMarker(g.kind), Chains(g, fs'))
    ensures DirLaid(d', g, h, fs.dirs[h])
  {
    hide FatOf, DirSectors, Forest, Chains, Spells, LfnSeated, SlotsOf;
    var secs := DirSectors(g, h, fs.dirs[h].cs);
    DirSectorsGood(d, g, FatOf(d, g), h, fs.dirs[h].cs);
    assert SectorsKept(d, d', secs);
    if !FixedRoot(g, h) { KeyChain(g, FatOf(d', g), fs', h); }
    DirKept(d, d', g, h, fs.dirs[h]);
  }

  lemma StreamKeptByFat(d: Disk, d': Disk, g: Geometry, cs: seq<nat>)
    requires Fitting(d, g) && Fitting(d', g) && OnlyFatChanged(d, d', g) && OnClusters(g, cs)
    ensures ChainStream(d', g, cs) == ChainStream(d, g, cs)
  {
    hide ChainSectors, Stream;
    StreamOnDisk(d, g, cs);
    StreamOnDisk(d', g, cs);
    forall k | 0 <= k < |ChainSectors(g, cs)| ensures d'[ChainSectors(g, cs)[k]] == d[ChainSectors(g, cs)[k]] {
      StreamInside(g, cs, k);
    }
    StreamSame(d, d', ChainSectors(g, cs));
  }

  /** The directory or file `k`, on chain `c` afterwards, is all that was written. */
  lemma OthersKept(d: Disk, d': Disk, g: Geometry, fs: Fs, fs': Fs, k: nat)
    requires Layout(d, g, fs) && Fitting(d', g) && Headed(g, fs') && Forest(FatOf(d', g), EofMarker(g.kind), Chains(g, fs'))
    requires k in fs'.dirs || k in fs'.files
    requires FixedRoot(g, k) || OnClusters(g, ChainOf(fs', k))
    requires Touched(d, d', g, DirSectors(g, k, ChainOf(fs', k)))
    requires forall h :: h in fs'.dirs && h != k ==> h in fs.dirs && fs'.dirs[h] == fs.dirs[h]
    requires forall f :: f in fs'.files && f != k ==> f in fs.files && fs'.files[f] == fs.files[f]
    ensures forall h :: h in fs'.dirs && h != k ==> DirLaid(d', g, h, fs'.dirs[h])
    ensures forall f :: f in fs'.files && f != k ==>
              OnClusters(g, fs'.files[f]) && ChainStream(d', g, fs'.files[f]) == ChainStream(d, g, fs'.files[f])
  {
    hide FatOf, Mirrored, DirLaid, Forest, Chains, DirSectors, ChainStream, Touched, InRange;
    forall h | h in fs'.dirs && h != k ensures DirLaid(d', g, h, fs'.dirs[h]) {
      OtherDirKept(d, d', g, fs, fs', k, h);
    }
    forall f | f in fs'.files && f != k
      ensures OnClusters(g, fs'.files[f]) && ChainStream(d', g, fs'.files[f]) == ChainStream(d, g, fs'.files[f])
    {
      KeyChain(g, FatOf(d', g), fs', f);
      if !FixedRoot(g, k) { KeysApart(g, FatOf(d', g), fs', f, k); }
      StreamKeptByDir(d, d', g, k, ChainOf(fs', k), fs'.files[f]);
    }
  }

  lemma OtherDirKept(d: Disk, d': Disk, g: Geometry, fs: Fs, fs': Fs, k: nat, h: nat)
    requires Layout(d, g, fs) && Fitting(d', g) && Headed(g, fs') && Forest(FatOf(d', g), EofMarker(g.kind), Chains(g, fs'))
    requires k in fs'.dirs || k in fs'.files
    requires FixedRoot(g, k) || OnClusters(g, ChainOf(fs', k))
    requires Touched(d, d', g, DirSectors(g, k, ChainOf(fs', k)))
    requires h in fs'.dirs && h != k && h in fs.dirs && fs'.dirs[h] == fs.dirs[h]
    ensures DirLaid(d', g, h, fs'.dirs[h])
  {
    hide FatOf, Mirrored, DirLaid, Forest, Chains, DirSectors, ChainStream, Touched, InRange;
    if !FixedRoot(g, h) {
      KeyChain(g, FatOf(d', g), fs', h);
      if !FixedRoot(g, k) { KeysApart(g, FatOf(d', g), fs', h, k); }
    }
    OwnerKept(d, d', g, h, fs'.dirs[h].cs, k, ChainOf(fs', k));
    assert DirLaid(d, g, h, fs.dirs[h]);
    DirKept(d, d', g, h, fs.dirs[h]);
  }

  /** Laying a file on a fresh chain. */
  lemma FileLaid(d: Disk, d': Disk, g: Geometry, fs: Fs, fc: seq<nat>)
    requires Layout(d, g, fs) && Fitting(d', g) && Mirrored(d', g) && fc != []
    requires FreshChain(FatOf(d, g), FatOf(d', g), EofMarker(g.kind), fc)
    requires OnClusters(g, fc) && Touched(d, d', g, ChainSectors(g, fc))
    ensures Layout(d', g, WithFile(fs, fc)) && FilesKept(d, d', g, fs)
    ensures fc[0] !in fs.dirs && fc[0] !in fs.files
  {
    hide FatOf, Mirrored, DirLaid, Forest, Chains, ChainSectors, ChainStream, Touched, FreeSet;
    var eof, fs' := EofMarker(g.kind), WithFile(fs, fc);
    assert fc[0] in FreeSet(FatOf(d, g));
    FreeIsNoKey(g, FatOf(d, g), fs, fc[0]);
    ChainsWithFile(g, fs, fc);
    FreshInForest(FatOf(d, g), FatOf(d', g), eof, Chains(g, fs), fc);
    FreshInRange(FatOf(d, g), FatOf(d', g), eof, fc);
    OthersKept(d, d', g, fs, fs', fc[0]);
    assert forall f :: f in fs.files ==> f in fs'.files && fs'.files[f] == fs.files[f];
  }

  /** Making a directory of one fresh cluster. */
  lemma DirMade(d: Disk, d': Disk, g: Geometry, fs: Fs, c: nat, items: seq<Item>)
    requires Layout(d, g, fs) && Fitting(d', g) && Mirrored(d', g) && c in FreeSet(FatOf(d, g))
    requires FatOf(d', g) == FatOf(d, g)[c := EofMarker(g.kind)] && DirLaid(d', g, c, Dir([c], items))
    requires Touched(d, d', g, ClusterSectors(g, c))
    ensures Layout(d', g, WithDir(fs, c, Dir([c], items))) && FilesKept(d, d', g, fs)
    ensures c !in fs.dirs && c !in fs.files
  {
    hide FatOf, Mirrored, DirLaid, Forest, Chains, ChainStream, Touched, ClusterSectors;
    var eof, fs' := EofMarker(g.kind), WithDir(fs, c, Dir([c], items));
    FreeIsNoKey(g, FatOf(d, g), fs, c);
    ChainsWithDir(g, fs, c, Dir([c], items));
    ClaimInForest(FatOf(d, g), eof, Chains(g, fs), c);
    OneCluster(g, c);
    OthersKept(d, d', g, fs, fs', c);
    assert forall f :: f in fs.files ==> f in fs'.files && fs'.files[f] == fs.files[f];
  }

  lemma OneCluster(g: Geometry, c: nat)
    requires 2 <= c
    ensures ChainSectors(g, [c]) == ClusterSectors(g, c)
  {
    assert [c][..0] == [];
    assert ChainSectors(g, []) == [];
  }

  /** Editing a directory, possibly after growing it by a cluster. */
  lemma DirEdited(d: Disk, d': Disk, g: Geometry, fs: Fs, h: nat, dir: Dir)
    requires Layout(d, g, fs) && Fitting(d', g) && Mirrored(d', g) && h in fs.dirs
    requires FatGrown(FatOf(d, g), FatOf(d', g), EofMarker(g.kind), fs.dirs[h].cs, dir.cs)
    requires DirLaid(d', g, h, dir) && Touched(d, d', g, DirSectors(g, h, dir.cs))
    ensures Layout(d', g, WithDir(fs, h, dir)) && FilesKept(d, d', g, fs)
  {
    hide FatOf, Mirrored, Forest, Chains, ChainStream, Touched, DirSectors, FreeSet, Spells, LfnSeated, SlotsOf, FatGrown;
    var fs' := WithDir(fs, h, dir);
    assert DirLaid(d, g, h, fs.dirs[h]);
    ChainsMoved(g, fs, h, dir);
    EditedForest(g, FatOf(d, g), FatOf(d', g), fs, h, dir);
    hide DirChain, DirLaid;
    OthersKept(d, d', g, fs, fs', h);
  }

  lemma EditedForest(g: Geometry, fat: Fat, fat': Fat, fs: Fs, h: nat, dir: Dir)
    requires |fat| == |fat'| == g.maxCluster && InRange(fat, EofMarker(g.kind)) && Headed(g, fs) && h in fs.dirs
    requires Forest(fat, EofMarker(g.kind), Chains(g, fs)) && DirChain(fat', g, h, dir.cs)
    requires FatGrown(fat, fat', EofMarker(g.kind), fs.dirs[h].cs, dir.cs)
    requires Chains(g, WithDir(fs, h, dir)) == if FixedRoot(g, h) then Chains(g, fs) else Chains(g, fs) - {fs.dirs[h].cs} + {dir.cs}
    ensures InRange(fat', EofMarker(g.kind)) && Forest(fat', EofMarker(g.kind), Chains(g, WithDir(fs, h, dir)))
    ensures FixedRoot(g, h) || OnClusters(g, dir.cs)
  {
    hide Forest, Chains, FreeSet, FatGrown;
    var eof := EofMarker(g.kind);
    if FixedRoot(g, h) {
      RootFatSame(fat, fat', eof);
    } else {
      KeyChain(g, fat, fs, h);
      GrownForest(fat, fat', eof, Chains(g, fs), fs.dirs[h].cs, dir.cs);
    }
  }

  lemma RootFatSame(fat: Fat, fat': Fat, eof: nat)
    requires 2 <= |fat| && FatGrown(fat, fat', eof, [], [])
    ensures fat' == fat
  {
  }
}
