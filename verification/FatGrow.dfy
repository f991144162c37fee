/** Claiming disk space: growing a directory by a zeroed cluster, and laying file
    data on a fresh chain. */
module FatGrow {
  import opened Arith
  import opened FatDisk
  import opened FatCells
  import opened FatChains
  import opened FatTables
  import opened FatData
  import opened FatNames
  import opened FatDir
  import opened FatSlots
  import opened FatReadAt
  import opened FatVolume
  import opened FatDirectory

  /** Besides FAT sectors, only sectors of `secs` differ. */
  ghost predicate Touched(d: Disk, d': Disk, g: Geometry, secs: seq<nat>) {
    |d'| == |d| && forall s :: 0 <= s < |d| && OutsideFat(g, s) && s !in secs ==> d'[s] == d[s]
  }

  // ---- FatExpandDirectory ----------------------------------------------------

  /** Adds a zeroed cluster to a directory chain. */
  method ExpandDirectory(v: Volume, head: nat, ghost cs: seq<nat>) returns (ok: bool, sec: nat, ghost c: nat)
    requires IsDir(v, head, cs)
    modifies v`disk, v`lastAllocated, v.buf
    ensures v.Valid()
    ensures !ok ==> v.Fat() == old(v.Fat()) && v.disk == old(v.disk)
    ensures !ok ==> FixedRoot(v.g, head) || FreeSet(old(v.Fat())) == {}
    ensures ok ==> !FixedRoot(v.g, head) && c in FreeSet(old(v.Fat())) && sec == v.g.ClusterSector(c)
    ensures ok ==> cs != [] && cs[|cs| - 1] < |old(v.Fat())|
    ensures ok ==> v.Fat() == old(v.Fat())[c := EofMarker(v.g.kind)][cs[|cs| - 1] := c]
    ensures ok ==> IsDir(v, head, cs + [c])
    ensures ok ==> |Slots(v, head, cs + [c])| == |old(Slots(v, head, cs))| + v.g.spc * 16
    ensures ok ==> Slots(v, head, cs + [c])[..|old(Slots(v, head, cs))|] == old(Slots(v, head, cs))
    ensures ok ==> forall k :: |old(Slots(v, head, cs))| <= k < |Slots(v, head, cs + [c])| ==> IsEnd(Slots(v, head, cs + [c])[k])
    ensures ok ==> Touched(old(v.disk), v.disk, v.g, ClusterSectors(v.g, c))
  {
    hide FatOf, Mirrored, DirSectors, SlotsOf, Touched;
    ok, sec, c := false, 0, 0;
    if FixedRoot(v.g, head) { return; }
    var last := LastCluster(v, head, cs);
    var cluster := v.AllocateCluster();
    if cluster == 0 { return; }
    c := cluster;
    ghost var fat, eof := old(v.Fat()), EofMarker(v.g.kind);
    LinkPossible(fat, eof, cs, c);
    var stored := v.SetFatEntry(last, cluster);
    sec := v.g.ClusterSector(cluster);
    ghost var d := v.disk;
    ZeroCluster(v, cluster, sec);
    ok := true;
    TouchedByBoth(old(v.disk), d, v.disk, v.g, c);
    SlotsGrown(old(v.disk), v.disk, v.g, fat, v.Fat(), head, cs, c);
  }

  /** The walk to the last cluster of a directory. */
  method LastCluster(v: Volume, head: nat, ghost cs: seq<nat>) returns (last: nat)
    requires IsDir(v, head, cs) && !FixedRoot(v.g, head)
    modifies v.buf
    ensures last == cs[|cs| - 1]
  {
    hide FatOf, Mirrored;
    last := head;
    ghost var i := 0;
    while 2 <= last < EofMarker(v.g.kind)
      invariant i < |cs| && last == cs[i] && v.Valid() && v.disk == old(v.disk)
      decreases |cs| - i
    {
      ChainNext(v.Fat(), EofMarker(v.g.kind), cs, i);
      var next := v.NextCluster(last);
      if next < 2 || EofMarker(v.g.kind) <= next { return; }
      last := next;
      i := i + 1;
    }
  }

  lemma LinkPossible(fat: Fat, eof: nat, cs: seq<nat>, c: nat)
    requires 2 <= |fat| <= eof && Chain(fat, eof, cs) && c in FreeSet(fat)
    ensures c !in cs && 2 <= cs[|cs| - 1] < |fat| && Chain(fat[c := eof][cs[|cs| - 1] := c], eof, cs + [c])
  {
    FreeOffChains(fat, eof, cs, c);
    LinkedChain(fat, eof, cs, c);
  }

  method ZeroCluster(v: Volume, c: nat, sec: nat)
    requires v.Valid() && 2 <= c < v.g.maxCluster && sec == v.g.ClusterSector(c)
    modifies v`disk, v.buf
    ensures v.Valid() && v.Fat() == old(v.Fat())
    ensures OnlyStreamChanged(old(v.disk), v.disk, ClusterSectors(v.g, c))
    ensures forall k :: 0 <= k < v.g.spc ==>
              ClusterSectors(v.g, c)[k] < |v.disk| && v.disk[ClusterSectors(v.g, c)[k]] == Zeros(512)
  {
    hide FatOf, Mirrored;
    ClusterInside(v.g, c);
    forall e | 0 <= e < 512 { v.buf[e] := 0; }
    assert v.buf[..] == Zeros(512);
    ghost var secs := ClusterSectors(v.g, c);
    assert forall k :: 0 <= k < v.g.spc ==> secs[k] == sec + k < |v.disk|;
    var s := 0;
    while s < v.g.spc
      invariant s <= v.g.spc && v.Valid() && v.Fat() == old(v.Fat()) && v.buf[..] == Zeros(512)
      invariant OnlyStreamChanged(old(v.disk), v.disk, secs)
      invariant |v.disk| == |old(v.disk)| && forall k :: 0 <= k < s ==> v.disk[secs[k]] == Zeros(512)
    {
      assert secs[s] in secs;
      v.StoreDataSector(sec + s);
      s := s + 1;
    }
  }

  lemma TouchedByBoth(d: Disk, d1: Disk, d2: Disk, g: Geometry, c: nat)
    requires 2 <= c && OnlyStreamChanged(d1, d2, ClusterSectors(g, c)) && OnlyFatChanged(d, d1, g)
    ensures Touched(d, d2, g, ClusterSectors(g, c))
  {
  }

  /** A directory with a zeroed cluster behind it shows its old slots and then nothing. */
  lemma SlotsGrown(d: Disk, d': Disk, g: Geometry, fat: Fat, fat': Fat, head: nat, cs: seq<nat>, c: nat)
    requires Fitting(d, g) && |d'| == |d| && |fat| == |fat'| == g.maxCluster && !FixedRoot(g, head)
    requires DirChain(fat, g, head, cs) && DirChain(fat', g, head, cs + [c]) && c !in cs
    requires Touched(d, d', g, ClusterSectors(g, c))
    requires forall k :: 0 <= k < g.spc ==> ClusterSectors(g, c)[k] < |d'| && d'[ClusterSectors(g, c)[k]] == Zeros(512)
    ensures OnDisk(d, DirSectors(g, head, cs)) && OnDisk(d', DirSectors(g, head, cs + [c]))
    ensures var ss, ss' := SlotsOf(d, DirSectors(g, head, cs)), SlotsOf(d', DirSectors(g, head, cs + [c]));
            && |ss'| == |ss| + g.spc * 16 && ss'[..|ss|] == ss
            && forall k :: |ss| <= k < |ss'| ==> IsEnd(ss'[k])
  {
    hide SlotsOf, SlotIn, Touched;
    DirSectorsGood(d, g, fat, head, cs);
    DirSectorsGood(d', g, fat', head, cs + [c]);
    var xs, ys := ChainSectors(g, cs), ClusterSectors(g, c);
    assert (cs + [c])[..|cs|] == cs;
    assert DirSectors(g, head, cs + [c]) == xs + ys;
    StreamsApart(d, d', g, cs, c);
    SlotsSame(d, d', xs);
    SlotsAppend(d', xs, ys);
    ZeroSlots(d', ys);
  }

  lemma StreamsApart(d: Disk, d': Disk, g: Geometry, cs: seq<nat>, c: nat)
    requires Fitting(d, g) && 2 <= c < g.maxCluster && c !in cs && forall j :: 0 <= j < |cs| ==> 2 <= cs[j] < g.maxCluster
    requires Touched(d, d', g, ClusterSectors(g, c))
    ensures OnDisk(d, ChainSectors(g, cs)) && OnDisk(d', ChainSectors(g, cs))
    ensures forall k :: 0 <= k < |ChainSectors(g, cs)| ==> d'[ChainSectors(g, cs)[k]] == d[ChainSectors(g, cs)[k]]
  {
    hide ChainSectors;
    StreamOnDisk(d, g, cs);
    var secs, ys := ChainSectors(g, cs), ClusterSectors(g, c);
    forall k | 0 <= k < |secs| ensures d'[secs[k]] == d[secs[k]] {
      StreamInside(g, cs, k);
      var i, s := Locate(g, cs, k);
      forall t | 0 <= t < |ys| ensures ys[t] != secs[k] {
        if ys[t] == secs[k] { SectorsApart(g, cs[i], s, c, t); }
      }
    }
  }

  lemma ZeroSlots(d: Disk, secs: seq<nat>)
    requires OnDisk(d, secs) && forall k :: 0 <= k < |secs| ==> d[secs[k]] == Zeros(512)
    ensures forall k :: 0 <= k < |secs| * 16 ==> IsEnd(SlotsOf(d, secs)[k])
  {
  }
}
