/** Laying the bytes of a file on a fresh chain, with the driver's 32-bit sizes. */
module FatStore {
  import opened Arith
  import opened FatDisk
  import opened FatCells
  import opened FatChains
  import opened FatTables
  import opened FatData
  import opened FatDir
  import opened FatReadAt
  import opened FatVolume
  import opened FatGrow

  /** The rounding sum of Fat32WriteFile stays below 2^32. */
  predicate RoundsUp(size: nat, clusterSize: nat) {
    size + clusterSize - 1 < 0x1_0000_0000
  }

  /** `n` clusters of `spc` sectors are just enough for `size` bytes. */
  ghost predicate JustEnough(n: nat, spc: nat, size: nat) {
    1 <= n && Steps(n - 1, spc) * 512 < size <= Steps(n, spc) * 512
  }

  /** The number of clusters the driver computes: just enough, or none at all when the
      sum wraps. */
  lemma ClustersNeeded(size: nat, spc: nat)
    requires 1 <= spc <= 128 && 1 <= size < 0x1_0000_0000
    ensures var n := Wrap(size + spc * 512 - 1) / (spc * 512);
            if RoundsUp(size, spc * 512) then JustEnough(n, spc, size) else n == 0
  {
    var csz := spc * 512;
    var sum := size + csz - 1;
    if sum < 0x1_0000_0000 {
      Remainder(sum, 0x1_0000_0000, 0, sum);
      var n := sum / csz;
      var r := sum % csz;
      assert sum == csz * n + r;
      assert n >= 1 by { if n <= 0 { Multiple(csz, n - 1); } }
      StepsIsProduct(n, spc);
      StepsIsProduct(n - 1, spc);
      assert Steps(n, spc) * 512 == csz * n;
      assert Steps(n, spc) == Steps(n - 1, spc) + spc;
    } else {
      Remainder(sum, 0x1_0000_0000, 1, sum - 0x1_0000_0000);
      Remainder(sum - 0x1_0000_0000, csz, 0, sum - 0x1_0000_0000);
    }
  }

  /** Step 3 of Fat32WriteFile: allocates the clusters and writes the data. A file of
      size 0, and one whose size wraps the rounding sum, gets no chain at all. */
  method StoreData(v: Volume, data: Bytes) returns (status: Status, first: nat, ghost fc: seq<nat>)
    requires v.Valid() && InRange(v.Fat(), EofMarker(v.g.kind)) && |data| < 0x1_0000_0000
    modifies v`disk, v`lastAllocated, v.buf
    ensures v.Valid() && (status == Success || status == DiskFull)
    ensures status == DiskFull ==> v.Fat() == old(v.Fat()) && Touched(old(v.disk), v.disk, v.g, [])
    ensures status == Success ==> FreshChain(old(v.Fat()), v.Fat(), EofMarker(v.g.kind), fc)
    ensures status == Success && fc == [] ==> first == 0 && v.Fat() == old(v.Fat()) && v.disk == old(v.disk)
    ensures status == Success ==> (fc == [] <==> |data| == 0 || !RoundsUp(|data|, v.g.ClusterSize()))
    ensures status == Success && fc != [] ==>
              && first == fc[0] && JustEnough(|fc|, v.g.spc, |data|) && v.Holds(fc)
              && v.StreamOf(fc)[..|data|] == data && Touched(old(v.disk), v.disk, v.g, ChainSectors(v.g, fc))
    ensures status == DiskFull ==>
              |data| > 0 && RoundsUp(|data|, v.g.ClusterSize())
              && |FreeSet(old(v.Fat()))| * v.g.ClusterSize() < |data|
  {
    hide FatOf, Mirrored, ChainSectors, ChainStream, FreshChain;
    status, first, fc := Success, 0, [];
    NothingFresh(v.Fat(), v.Fat(), EofMarker(v.g.kind));
    var size := |data|;
    if size == 0 { return; }
    var csz := v.g.spc * 512;
    var n := Wrap(size + csz - 1) / csz;
    ClustersNeeded(size, v.g.spc);
    if n == 0 { return; }
    ghost var fat, d := v.Fat(), v.disk;
    first, fc := v.AllocateChain(n);
    if first == 0 {
      status := DiskFull;
      TooFew(|FreeSet(fat)|, n, v.g.spc, size);
      return;
    }
    ghost var d1 := v.disk;
    FreshIsChain(fat, v.Fat(), EofMarker(v.g.kind), fc);
    v.WriteChain(first, data, fc);
    ChangesCombine(d, d1, v.disk, v.g, ChainSectors(v.g, fc));
  }

  lemma FreshIsChain(fat: Fat, fat': Fat, eof: nat, cs: seq<nat>)
    requires FreshChain(fat, fat', eof, cs) && cs != []
    ensures Chain(fat', eof, cs)
  {
  }

  lemma ChangesCombine(d: Disk, d1: Disk, d2: Disk, g: Geometry, secs: seq<nat>)
    requires OnlyFatChanged(d, d1, g) && OnlyStreamChanged(d1, d2, secs)
    ensures Touched(d, d2, g, secs)
  {
  }

  /** A full disk means too few free bytes. */
  lemma TooFew(free: nat, n: nat, spc: nat, size: nat)
    requires free < n && JustEnough(n, spc, size)
    ensures free * (spc * 512) < size
  {
    StepsIsProduct(free, spc);
    if free < n - 1 { StepsApart(free, n - 1, spc); }
    assert free * (spc * 512) == Steps(free, spc) * 512;
  }
}
