/** The data area: the sectors behind a cluster chain as one stream of bytes. */
module FatData {
  import opened Arith
  import opened FatDisk
  import opened FatCells
  import opened FatChains
  import opened FatTables

  /** The sectors of a chain, in stream order. */
  ghost function ChainSectors(g: Geometry, cs: seq<nat>): (secs: seq<nat>)
    requires forall i :: 0 <= i < |cs| ==> 2 <= cs[i]
    ensures |secs| == Steps(|cs|, g.spc)
  {
    if cs == [] then []
    else ChainSectors(g, cs[..|cs| - 1]) + ClusterSectors(g, cs[|cs| - 1])
  }

  function ClusterSectors(g: Geometry, c: nat): (secs: seq<nat>)
    requires 2 <= c
  {
    seq<nat>(g.spc, (s: nat) requires s < g.spc => ClusterSectorAt(g, c, s))
  }

  function ClusterSectorAt(g: Geometry, c: nat, s: nat): nat
    requires 2 <= c
  {
    g.ClusterSector(c) + s
  }

  /** Sector `s` of the `i`th cluster. */
  lemma {:induction false} SectorAt(g: Geometry, cs: seq<nat>, i: nat, s: nat)
    requires forall j :: 0 <= j < |cs| ==> 2 <= cs[j]
    requires i < |cs| && s < g.spc
    ensures Steps(i, g.spc) + s < Steps(|cs|, g.spc)
    ensures ChainSectors(g, cs)[Steps(i, g.spc) + s] == g.ClusterSector(cs[i]) + s
  {
    StepsApart(i, |cs|, g.spc);
    if i < |cs| - 1 {
      SectorAt(g, cs[..|cs| - 1], i, s);
    }
  }

  /** Every stream position is some sector of some cluster. */
  lemma {:induction false} Locate(g: Geometry, cs: seq<nat>, k: nat) returns (i: nat, s: nat)
    requires forall j :: 0 <= j < |cs| ==> 2 <= cs[j]
    requires k < |ChainSectors(g, cs)|
    ensures i < |cs| && s < g.spc && k == Steps(i, g.spc) + s
    ensures ChainSectors(g, cs)[k] == g.ClusterSector(cs[i]) + s
  {
    var front := cs[..|cs| - 1];
    if k < Steps(|front|, g.spc) {
      i, s := Locate(g, front, k);
    } else {
      i, s := |front|, k - Steps(|front|, g.spc);
    }
    SectorAt(g, cs, i, s);
  }

  /** A chain's sectors lie in the data area, outside the FAT, and on the disk. */
  lemma StreamInside(g: Geometry, cs: seq<nat>, k: nat)
    requires g.Valid() && forall j :: 0 <= j < |cs| ==> 2 <= cs[j] < g.maxCluster
    requires k < |ChainSectors(g, cs)|
    ensures g.dataStart <= ChainSectors(g, cs)[k] < g.totalSectors && OutsideFat(g, ChainSectors(g, cs)[k])
  {
    var i, s := Locate(g, cs, k);
    ClusterInside(g, cs[i]);
  }

  /** Different clusters have different sectors. */
  lemma SectorsApart(g: Geometry, c: nat, s: nat, d: nat, t: nat)
    requires 2 <= c && 2 <= d && s < g.spc && t < g.spc
    requires g.ClusterSector(c) + s == g.ClusterSector(d) + t
    ensures c == d && s == t
  {
    if c < d { ClustersApart(g, c, d); }
    if d < c { ClustersApart(g, d, c); }
  }

  lemma StreamDistinct(g: Geometry, cs: seq<nat>, a: nat, b: nat)
    requires forall j :: 0 <= j < |cs| ==> 2 <= cs[j]
    requires forall i, j :: 0 <= i < j < |cs| ==> cs[i] != cs[j]
    requires a < |ChainSectors(g, cs)| && b < |ChainSectors(g, cs)| && a != b
    ensures ChainSectors(g, cs)[a] != ChainSectors(g, cs)[b]
  {
    var i, s := Locate(g, cs, a);
    var j, t := Locate(g, cs, b);
    if ChainSectors(g, cs)[a] == ChainSectors(g, cs)[b] {
      SectorsApart(g, cs[i], s, cs[j], t);
    }
  }

  /** Disjoint chains have disjoint sectors. */
  lemma StreamsDisjoint(g: Geometry, cs: seq<nat>, ds: seq<nat>, a: nat, b: nat)
    requires forall j :: 0 <= j < |cs| ==> 2 <= cs[j]
    requires forall j :: 0 <= j < |ds| ==> 2 <= ds[j]
    requires Disjoint(cs, ds)
    requires a < |ChainSectors(g, cs)| && b < |ChainSectors(g, ds)|
    ensures ChainSectors(g, cs)[a] != ChainSectors(g, ds)[b]
  {
    var i, s := Locate(g, cs, a);
    var j, t := Locate(g, ds, b);
    if ChainSectors(g, cs)[a] == ChainSectors(g, ds)[b] {
      SectorsApart(g, cs[i], s, ds[j], t);
    }
  }

  // ---- streams -------------------------------------------------------------

  ghost predicate OnDisk(d: Disk, secs: seq<nat>) {
    forall k :: 0 <= k < |secs| ==> secs[k] < |d|
  }

  /** The bytes of a list of sectors, end to end. */
  ghost function Stream(d: Disk, secs: seq<nat>): (b: Bytes)
    requires OnDisk(d, secs)
    ensures |b| == |secs| * 512
  {
    Flat(seq(|secs|, k requires 0 <= k < |secs| => d[secs[k]]))
  }

  lemma StreamSector(d: Disk, secs: seq<nat>, k: nat)
    requires OnDisk(d, secs) && k < |secs|
    ensures Stream(d, secs)[k * 512..k * 512 + 512] == d[secs[k]]
  {
    FlatSlice(seq(|secs|, k requires 0 <= k < |secs| => d[secs[k]]), k);
  }

  /** Streams that agree sector by sector are equal. */
  lemma StreamSame(d: Disk, d': Disk, secs: seq<nat>)
    requires OnDisk(d, secs) && OnDisk(d', secs)
    requires forall k :: 0 <= k < |secs| ==> d'[secs[k]] == d[secs[k]]
    ensures Stream(d', secs) == Stream(d, secs)
  {
    assert seq(|secs|, k requires 0 <= k < |secs| => d'[secs[k]]) == seq(|secs|, k requires 0 <= k < |secs| => d[secs[k]]);
  }

  /** Sector `k` of `data`, filled up with zeros. */
  function Padded(data: Bytes, k: nat): Sector {
    seq(512, i requires 0 <= i < 512 => if k * 512 + i < |data| then data[k * 512 + i] else 0)
  }

  function Zeros(n: nat): (z: Bytes)
    ensures |z| == n
  {
    seq(n, i => 0)
  }

  lemma PaddedIs(data: Bytes, k: nat, count: nat)
    requires k * 512 < |data| && count == Min(|data| - k * 512, 512)
    ensures Padded(data, k) == data[k * 512..k * 512 + count] + Zeros(512 - count)
  {
  }

  /** Sectors holding `data` in order give `data` back. */
  lemma PaddedStream(d: Disk, secs: seq<nat>, data: Bytes)
    requires OnDisk(d, secs) && |data| <= |secs| * 512
    requires forall k :: 0 <= k < |secs| && k * 512 < |data| ==> d[secs[k]] == Padded(data, k)
    ensures Stream(d, secs)[..|data|] == data
  {
    forall o | 0 <= o < |data| ensures Stream(d, secs)[o] == data[o] {
      var k := o / 512;
      StreamSector(d, secs, k);
      assert Stream(d, secs)[o] == Stream(d, secs)[k * 512..k * 512 + 512][o % 512];
    }
  }

  lemma StreamOnDisk(d: Disk, g: Geometry, cs: seq<nat>)
    requires Fitting(d, g) && forall j :: 0 <= j < |cs| ==> 2 <= cs[j] < g.maxCluster
    ensures OnDisk(d, ChainSectors(g, cs))
  {
    forall k | 0 <= k < |ChainSectors(g, cs)| ensures ChainSectors(g, cs)[k] < |d| { StreamInside(g, cs, k); }
  }

  /** Appending (part of) sector `n` to the first `n` sectors. */
  lemma TakeSector(b: Bytes, n: nat, k: nat)
    requires n * 512 + 512 <= |b| && k <= 512
    ensures b[..n * 512] + b[n * 512..n * 512 + 512][..k] == b[..n * 512 + k]
  {
  }

  /** A chain's stream on the disk. */
  ghost function ChainStream(d: Disk, g: Geometry, cs: seq<nat>): (b: Bytes)
    requires Fitting(d, g) && forall j :: 0 <= j < |cs| ==> 2 <= cs[j] < g.maxCluster
    ensures |b| == Steps(|cs|, g.spc) * 512
  {
    StreamOnDisk(d, g, cs);
    Stream(d, ChainSectors(g, cs))
  }

  lemma ChainStreamSector(d: Disk, g: Geometry, cs: seq<nat>, i: nat, s: nat)
    requires Fitting(d, g) && (forall j :: 0 <= j < |cs| ==> 2 <= cs[j] < g.maxCluster) && i < |cs| && s < g.spc
    ensures Steps(i, g.spc) + s < Steps(|cs|, g.spc)
    ensures g.ClusterSector(cs[i]) + s < |d|
    ensures var n := Steps(i, g.spc) + s;
            ChainStream(d, g, cs)[n * 512..n * 512 + 512] == d[g.ClusterSector(cs[i]) + s]
  {
    hide Stream, ChainSectors, CellEnd, PowerOfTwo;
    SectorAt(g, cs, i, s);
    StreamOnDisk(d, g, cs);
    StreamSector(d, ChainSectors(g, cs), Steps(i, g.spc) + s);
  }

  /** `out` is what the first `n` sectors of `b` gave a reader of `size` bytes. */
  ghost predicate ReadSoFar(b: Bytes, n: nat, size: nat, out: Bytes, remaining: nat) {
    && n * 512 <= |b|
    && |out| == Min(n * 512, size) && |out| + remaining == size
    && out == b[..|out|]
  }

  lemma ReadOneMore(b: Bytes, n: nat, size: nat, out: Bytes, remaining: nat, s: Bytes)
    requires ReadSoFar(b, n, size, out, remaining) && remaining > 0
    requires n * 512 + 512 <= |b| && s == b[n * 512..n * 512 + 512]
    ensures var k := Min(remaining, 512);
            ReadSoFar(b, n + 1, size, out + s[..k], remaining - k)
  {
    TakeSector(b, n, Min(remaining, 512));
  }

  /** Only sectors of the stream `secs` differ. */
  ghost predicate OnlyStreamChanged(d: Disk, d': Disk, secs: seq<nat>) {
    |d'| == |d| && forall s :: 0 <= s < |d| && s !in secs ==> d'[s] == d[s]
  }

  /** The first `n` sectors of the stream carry `data`, nothing else changed. */
  ghost predicate WroteSoFar(d: Disk, d': Disk, secs: seq<nat>, n: nat, data: Bytes) {
    && n <= |secs| && OnDisk(d, secs) && OnlyStreamChanged(d, d', secs)
    && forall k :: 0 <= k < n && k * 512 < |data| ==> d'[secs[k]] == Padded(data, k)
  }

  lemma WroteOneMore(d: Disk, d': Disk, g: Geometry, cs: seq<nat>, i: nat, s: nat, data: Bytes)
    requires Fitting(d, g) && forall j :: 0 <= j < |cs| ==> 2 <= cs[j] < g.maxCluster
    requires forall j, k :: 0 <= j < k < |cs| ==> cs[j] != cs[k]
    requires i < |cs| && s < g.spc && Steps(i, g.spc) + s < |ChainSectors(g, cs)|
    requires WroteSoFar(d, d', ChainSectors(g, cs), Steps(i, g.spc) + s, data)
    ensures var sec, n := g.ClusterSector(cs[i]) + s, Steps(i, g.spc) + s;
            && g.dataStart <= sec < |d'|
            && WroteSoFar(d, d'[sec := Padded(data, n)], ChainSectors(g, cs), n + 1, data)
  {
    hide ChainSectors, Padded, WroteSoFar, Steps, CellEnd;
    var secs, n := ChainSectors(g, cs), Steps(i, g.spc) + s;
    SectorAt(g, cs, i, s);
    StreamInside(g, cs, n);
    forall k | 0 <= k < n ensures secs[k] != secs[n] { StreamDistinct(g, cs, k, n); }
    WroteNext(d, d', secs, n, data);
  }

  lemma WroteEnough(d: Disk, d': Disk, secs: seq<nat>, n: nat, m: nat, data: Bytes)
    requires WroteSoFar(d, d', secs, n, data) && n <= m <= |secs|
    requires n == m || |data| <= n * 512
    ensures WroteSoFar(d, d', secs, m, data)
  {
  }

  lemma WroteNext(d: Disk, d': Disk, secs: seq<nat>, n: nat, data: Bytes)
    requires WroteSoFar(d, d', secs, n, data) && n < |secs|
    requires forall k :: 0 <= k < n ==> secs[k] != secs[n]
    ensures secs[n] < |d'| && WroteSoFar(d, d'[secs[n] := Padded(data, n)], secs, n + 1, data)
  {
    hide Padded;
    assert secs[n] in secs;
  }
}
