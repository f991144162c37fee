/** Directory slots on the disk: reading them off a stream of sectors and storing
    one of them. */
module FatSlots {
  import opened Basics
  import opened Arith
  import opened FatDisk
  import opened FatCells
  import opened FatChains
  import opened FatTables
  import opened FatData
  import opened FatNames
  import opened FatDir

  function SlotIn(s: Bytes, j: nat): Slot
    requires |s| == 512 && j < 16
  {
    s[j * 32..j * 32 + 32]
  }

  /** The slots of a list of sectors. */
  ghost function SlotsOf(d: Disk, secs: seq<nat>): (ss: seq<Slot>)
    requires OnDisk(d, secs)
    ensures |ss| == |secs| * 16
  {
    seq(|secs| * 16, k requires 0 <= k < |secs| * 16 => SlotIn(d[secs[k / 16]], k % 16))
  }

  lemma SlotOf(d: Disk, secs: seq<nat>, n: nat, j: nat)
    requires OnDisk(d, secs) && n < |secs| && j < 16
    ensures SlotsOf(d, secs)[n * 16 + j] == SlotIn(d[secs[n]], j)
  {
    Remainder(n * 16 + j, 16, n, j);
  }

  function PutSlot(s: Bytes, j: nat, slot: Slot): (s': Bytes)
    requires |s| == 512 && j < 16
    ensures |s'| == 512
  {
    s[..j * 32] + slot + s[j * 32 + 32..]
  }

  lemma PutSlotGet(s: Bytes, j: nat, slot: Slot, i: nat)
    requires |s| == 512 && j < 16 && i < 16
    ensures SlotIn(PutSlot(s, j, slot), i) == if i == j then slot else SlotIn(s, i)
  {
  }

  /** Storing one slot changes that slot of the directory and no other. */
  lemma SlotStored(d: Disk, secs: seq<nat>, n: nat, j: nat, slot: Slot)
    requires OnDisk(d, secs) && Distinct(secs) && n < |secs| && j < 16
    ensures var d' := d[secs[n] := PutSlot(d[secs[n]], j, slot)];
            OnDisk(d', secs) && SlotsOf(d', secs) == SlotsOf(d, secs)[n * 16 + j := slot]
  {
    hide PutSlot, SlotIn;
    var d' := d[secs[n] := PutSlot(d[secs[n]], j, slot)];
    forall k | 0 <= k < |secs| * 16
      ensures SlotsOf(d', secs)[k] == SlotsOf(d, secs)[n * 16 + j := slot][k]
    {
      var m, i := k / 16, k % 16;
      Remainder(n * 16 + j, 16, n, j);
      PutSlotGet(d[secs[n]], j, slot, i);
      if m != n { assert secs[m] != secs[n]; }
    }
  }

  /** Directories whose sectors did not change read the same. */
  lemma SlotsSame(d: Disk, d': Disk, secs: seq<nat>)
    requires OnDisk(d, secs) && OnDisk(d', secs)
    requires forall k :: 0 <= k < |secs| ==> d'[secs[k]] == d[secs[k]]
    ensures SlotsOf(d', secs) == SlotsOf(d, secs)
  {
    hide SlotIn;
  }

  lemma SlotsAppend(d: Disk, xs: seq<nat>, ys: seq<nat>)
    requires OnDisk(d, xs) && OnDisk(d, ys)
    ensures OnDisk(d, xs + ys) && SlotsOf(d, xs + ys) == SlotsOf(d, xs) + SlotsOf(d, ys)
  {
    hide SlotIn;
    var zs := xs + ys;
    forall k | 0 <= k < |zs| * 16 ensures SlotsOf(d, zs)[k] == (SlotsOf(d, xs) + SlotsOf(d, ys))[k] {
      if k >= |xs| * 16 {
        Remainder(k - |xs| * 16, 16, k / 16 - |xs|, k % 16);
      }
    }
  }

  // ---- where a directory lives ---------------------------------------------

  /** The fixed root directory of FAT12/16. */
  predicate FixedRoot(g: Geometry, head: nat) { !g.kind.Fat32? && head == 0 }

  function Run(base: nat, count: nat): (secs: seq<nat>)
    ensures |secs| == count
  {
    seq<nat>(count, (s: nat) requires s < count => base + s)
  }

  /** The sectors of the directory at `head`, whose chain is `cs`. */
  ghost function DirSectors(g: Geometry, head: nat, cs: seq<nat>): (secs: seq<nat>)
    requires FixedRoot(g, head) || forall i :: 0 <= i < |cs| ==> 2 <= cs[i]
  {
    if FixedRoot(g, head) then Run(g.rootStart, g.rootSectors) else ChainSectors(g, cs)
  }

  /** Sectors per group (cluster, or the whole fixed root), and the number of groups. */
  function GroupSize(g: Geometry, head: nat): nat { if FixedRoot(g, head) then g.rootSectors else g.spc }
  function GroupCount(g: Geometry, head: nat, cs: seq<nat>): nat { if FixedRoot(g, head) then 1 else |cs| }

  ghost predicate DirChain(fat: Fat, g: Geometry, head: nat, cs: seq<nat>) {
    if FixedRoot(g, head) then cs == [] else Chain(fat, EofMarker(g.kind), cs) && cs[0] == head
  }

  /** The sectors of a directory: on the disk, outside the FAT, pairwise different. */
  lemma DirSectorsGood(d: Disk, g: Geometry, fat: Fat, head: nat, cs: seq<nat>)
    requires Fitting(d, g) && |fat| == g.maxCluster && DirChain(fat, g, head, cs)
    ensures var secs := DirSectors(g, head, cs);
            && OnDisk(d, secs) && Distinct(secs)
            && |secs| == Steps(GroupCount(g, head, cs), GroupSize(g, head))
            && forall k :: 0 <= k < |secs| ==> g.rootStart <= secs[k] < g.totalSectors
  {
    hide ChainSectors;
    var secs := DirSectors(g, head, cs);
    if FixedRoot(g, head) {
      assert Steps(1, g.rootSectors) == Steps(0, g.rootSectors) + g.rootSectors;
    } else {
      forall j, k | 0 <= j < k < |cs| ensures cs[j] != cs[k] { ChainDistinct(fat, EofMarker(g.kind), cs, j, k); }
      forall k | 0 <= k < |secs| ensures g.rootStart <= secs[k] < g.totalSectors { StreamInside(g, cs, k); }
      forall a, b | 0 <= a < b < |secs| ensures secs[a] != secs[b] { StreamDistinct(g, cs, a, b); }
    }
  }

  /** The `count` sectors from position `lo` on are a run starting at `base`. */
  ghost predicate IsRun(secs: seq<nat>, lo: nat, base: nat, count: nat)
    ensures IsRun(secs, lo, base, count) ==> lo + count <= |secs|
  {
    lo + count <= |secs| && secs[lo..lo + count] == Run(base, count)
  }

  lemma RunAt(secs: seq<nat>, lo: nat, base: nat, count: nat, s: nat)
    requires IsRun(secs, lo, base, count) && s < count
    ensures secs[lo + s] == base + s
  {
    assert secs[lo..lo + count][s] == Run(base, count)[s];
  }

  lemma GroupIsRun(g: Geometry, fat: Fat, head: nat, cs: seq<nat>, i: nat)
    requires g.Valid() && |fat| == g.maxCluster && DirChain(fat, g, head, cs) && i < GroupCount(g, head, cs)
    requires |DirSectors(g, head, cs)| == Steps(GroupCount(g, head, cs), GroupSize(g, head))
    ensures IsRun(DirSectors(g, head, cs), Steps(i, GroupSize(g, head)),
                  if FixedRoot(g, head) then g.rootStart else g.ClusterSector(cs[i]), GroupSize(g, head))
  {
    if FixedRoot(g, head) {
      assert Run(g.rootStart, g.rootSectors)[0..0 + g.rootSectors] == Run(g.rootStart, g.rootSectors);
    } else {
      ClusterIsRun(g, cs, i);
    }
  }

  lemma ClusterIsRun(g: Geometry, cs: seq<nat>, i: nat)
    requires (forall j :: 0 <= j < |cs| ==> 2 <= cs[j]) && i < |cs|
    ensures IsRun(ChainSectors(g, cs), Steps(i, g.spc), g.ClusterSector(cs[i]), g.spc)
  {
    hide ChainSectors;
    StepsApart(i, |cs|, g.spc);
    var secs, lo, base := ChainSectors(g, cs), Steps(i, g.spc), g.ClusterSector(cs[i]);
    forall s | 0 <= s < g.spc ensures secs[lo..lo + g.spc][s] == Run(base, g.spc)[s] {
      SectorAt(g, cs, i, s);
    }
  }

  /** Slots `p` to `q` lie in neighbouring sectors. */
  ghost predicate Adjacent(secs: seq<nat>, p: nat, q: nat) {
    forall x :: p / 16 <= x < q / 16 && x + 1 < |secs| ==> secs[x + 1] == secs[x] + 1
  }
}
