/** The FAT copies on the disk: where each copy lies, the abstract table they
    stand for, and what one entry store does to all of them. */
module FatTables {
  import opened Arith
  import opened FatDisk
  import opened FatCells
  import opened FatChains

  /** First sector of copy `k`. */
  function Base(g: Geometry, k: nat): nat { g.fatStart + Steps(k, g.spf) }

  lemma BaseInside(g: Geometry, k: nat)
    requires g.Valid() && k < g.numFats
    ensures g.fatStart <= Base(g, k) && Base(g, k) + g.spf <= g.rootStart <= g.dataStart <= g.totalSectors
  {
    StepsApart(k, g.numFats, g.spf);
  }

  lemma BasesApart(g: Geometry, j: nat, k: nat)
    requires j < k
    ensures Base(g, j) + g.spf <= Base(g, k)
  {
    StepsApart(j, k, g.spf);
  }

  ghost predicate Fitting(d: Disk, g: Geometry) {
    g.Valid() && g.totalSectors <= |d|
  }

  function Copy(d: Disk, g: Geometry, k: nat): (t: seq<Sector>)
    requires Fitting(d, g) && k < g.numFats
    ensures |t| == g.spf
  {
    BaseInside(g, k);
    d[Base(g, k)..Base(g, k) + g.spf]
  }

  /** Copy `k` as bytes. */
  ghost function TableBytes(d: Disk, g: Geometry, k: nat): (b: Bytes)
    requires Fitting(d, g) && k < g.numFats
    ensures |b| == g.spf * 512
  {
    Flat(Copy(d, g, k))
  }

  ghost predicate Mirrored(d: Disk, g: Geometry)
    requires Fitting(d, g)
  {
    forall k :: 0 <= k < g.numFats ==> TableBytes(d, g, k) == TableBytes(d, g, 0)
  }

  lemma CellFits(g: Geometry, c: nat)
    requires g.Valid() && c < g.maxCluster
    ensures CellStart(g.kind, c) + (if g.kind.Fat32? then 4 else 2) <= g.spf * 512
  {
  }

  /** Only FAT12 entries cross a sector boundary. */
  lemma InOneSector(kind: FatType, c: nat, i: nat, e: nat)
    requires i == CellStart(kind, c) / 512 && e == CellStart(kind, c) % 512
    ensures CellStart(kind, c) == i * 512 + e
    ensures kind.Fat32? ==> e + 4 <= 512
    ensures kind.Fat16? ==> e + 2 <= 512
  {
    if kind.Fat32? {
      assert e == 4 * (c - 128 * i);
    } else if kind.Fat16? {
      assert e == 2 * (c - 256 * i);
    }
  }

  /** The abstract table: the first copy, entry by entry. */
  ghost function FatOf(d: Disk, g: Geometry): (fat: Fat)
    requires Fitting(d, g)
    ensures |fat| == g.maxCluster
  {
    seq(g.maxCluster, c requires 0 <= c < g.maxCluster =>
      CellFits(g, c); Cell(g.kind, TableBytes(d, g, 0), c))
  }

  ghost predicate OutsideFat(g: Geometry, s: int) { s < g.fatStart || g.rootStart <= s }

  /** Only sectors of the FAT copies differ. */
  ghost predicate OnlyFatChanged(d: Disk, d': Disk, g: Geometry) {
    |d'| == |d| && forall s :: 0 <= s < |d| && OutsideFat(g, s) ==> d'[s] == d[s]
  }

  /** Every copy received the same entry store. */
  ghost predicate Stored(d: Disk, d': Disk, g: Geometry, c: nat, v: nat, copies: nat)
    requires Fitting(d, g) && c < g.maxCluster && copies <= g.numFats
  {
    CellFits(g, c);
    && OnlyFatChanged(d, d', g)
    && forall k :: 0 <= k < g.numFats ==>
         TableBytes(d', g, k) == if k < copies then Put(g.kind, TableBytes(d, g, k), c, v) else TableBytes(d, g, k)
  }

  /** An entry store is an array update of the abstract table and keeps the copies equal. */
  lemma StoredEntry(d: Disk, d': Disk, g: Geometry, c: nat, v: nat)
    requires Fitting(d, g) && c < g.maxCluster && Mirrored(d, g) && Stored(d, d', g, c, v, g.numFats)
    ensures FatOf(d', g) == FatOf(d, g)[c := Cut(g.kind, v)]
    ensures Mirrored(d', g)
  {
    hide Put, Cell, Flat, Copy;
    var t := TableBytes(d, g, 0);
    forall x | 0 <= x < g.maxCluster
      ensures FatOf(d', g)[x] == if x == c then Cut(g.kind, v) else FatOf(d, g)[x]
    {
      CellFits(g, x);
      CellFits(g, c);
      assert TableBytes(d', g, 0) == Put(g.kind, t, c, v);
      if x == c {
        CellAfterPut(g.kind, t, c, v);
      } else {
        CellsIndependent(g.kind, t, c, v, x);
      }
    }
  }

  /** Replacing one sector of copy `k` touches no other copy and nothing else. */
  lemma SectorOfCopy(d: Disk, g: Geometry, k: nat, i: nat, s: Sector)
    requires Fitting(d, g) && k < g.numFats && i < g.spf
    ensures Base(g, k) + i < |d|
    ensures var d' := d[Base(g, k) + i := s];
            && OnlyFatChanged(d, d', g)
            && TableBytes(d', g, k) == Flat(Copy(d, g, k)[i := s])
            && forall j :: 0 <= j < g.numFats && j != k ==> TableBytes(d', g, j) == TableBytes(d, g, j)
  {
    BaseInside(g, k);
    var d' := d[Base(g, k) + i := s];
    assert Copy(d', g, k) == Copy(d, g, k)[i := s];
    forall j | 0 <= j < g.numFats && j != k ensures Copy(d', g, j) == Copy(d, g, j) {
      BaseInside(g, j);
      if j < k { BasesApart(g, j, k); } else { BasesApart(g, k, j); }
    }
  }

  /** Replacing one sector replaces its 512 bytes of the flat view. */
  lemma FlatSector(t: seq<Sector>, i: nat, s: Sector)
    requires i < |t|
    ensures Flat(t[i := s]) == Flat(t)[..i * 512] + s + Flat(t)[i * 512 + 512..]
  {
    var a, b := Flat(t[i := s]), Flat(t)[..i * 512] + s + Flat(t)[i * 512 + 512..];
    forall o | 0 <= o < |a| ensures a[o] == b[o] {
      Remainder(o, 512, o / 512, o % 512);
      if i * 512 <= o < i * 512 + 512 {
        Remainder(o, 512, i, o - i * 512);
      } else if o < i * 512 {
        assert o / 512 != i;
      } else {
        assert o / 512 != i;
      }
    }
  }

  lemma FlatSlice(t: seq<Sector>, i: nat)
    requires i < |t|
    ensures Flat(t)[i * 512..i * 512 + 512] == t[i]
  {
    forall e | 0 <= e < 512 ensures Flat(t)[i * 512 + e] == t[i][e] {
      Remainder(i * 512 + e, 512, i, e);
    }
  }

  /** Copy `k` received the store of a whole sector whose bytes are `s`. */
  lemma CopyAfterSector(d: Disk, g: Geometry, k: nat, i: nat, s: Sector)
    requires Fitting(d, g) && k < g.numFats && i < g.spf
    ensures Base(g, k) + i < |d|
    ensures var t := TableBytes(d, g, k);
            && d[Base(g, k) + i] == t[i * 512..i * 512 + 512]
            && TableBytes(d[Base(g, k) + i := s], g, k) == t[..i * 512] + s + t[i * 512 + 512..]
  {
    SectorOfCopy(d, g, k, i, s);
    FlatSector(Copy(d, g, k), i, s);
    FlatSlice(Copy(d, g, k), i);
    BaseInside(g, k);
    assert d[Base(g, k)..Base(g, k) + g.spf][i] == d[Base(g, k) + i];
  }

  /** Changing one byte of a slice is changing that byte of the whole. */
  lemma SpliceByte(t: Bytes, a: nat, s: Bytes, e: nat, b: u8)
    requires a + |s| <= |t| && s == t[a..a + |s|] && e < |s|
    ensures t[..a] + s[e := b] + t[a + |s|..] == t[a + e := b]
  {
  }

  lemma SpliceTwo(t: Bytes, a: nat, s: Bytes, e: nat, b: u8, c: u8)
    requires a + |s| <= |t| && s == t[a..a + |s|] && e + 1 < |s|
    ensures t[..a] + s[e := b][e + 1 := c] + t[a + |s|..] == t[a + e := b][a + e + 1 := c]
  {
    SpliceByte(t, a, s, e, b);
    var t1, s1 := t[a + e := b], s[e := b];
    assert t1[a..a + |s1|] == s1;
    SpliceByte(t1, a, s1, e + 1, c);
    assert t1[..a] == t[..a] && t1[a + |s1|..] == t[a + |s|..];
  }

  lemma Splice32(t: Bytes, a: nat, s: Bytes, e: nat, v: nat)
    requires a + |s| <= |t| && s == t[a..a + |s|] && e + 4 <= |s|
    ensures t[..a] + Put32(s, e, v) + t[a + |s|..] == Put32(t, a + e, v)
  {
    var t1, s1 := t[a + e := Low(v)][a + e + 1 := Low(v / 0x100)], s[e := Low(v)][e + 1 := Low(v / 0x100)];
    SpliceTwo(t, a, s, e, Low(v), Low(v / 0x100));
    assert t1[a..a + |s1|] == s1;
    SpliceTwo(t1, a, s1, e + 2, Low(v / 0x1_0000), s[e + 3] / 16 * 16 + v / 0x100_0000 % 16);
    assert t1[..a] == t[..a] && t1[a + |s1|..] == t[a + |s|..];
  }

  lemma Splice16(t: Bytes, a: nat, s: Bytes, e: nat, v: nat)
    requires a + |s| <= |t| && s == t[a..a + |s|] && e + 2 <= |s|
    ensures t[..a] + Put16(s, e, v) + t[a + |s|..] == Put16(t, a + e, v)
  {
    SpliceTwo(t, a, s, e, Low(v), Low(v / 0x100));
  }

  lemma SpliceOdd12(t: Bytes, a: nat, s: Bytes, e: nat, v: nat)
    requires a + |s| <= |t| && s == t[a..a + |s|] && e + 2 <= |s|
    ensures t[..a] + PutOdd12(s, e, v) + t[a + |s|..] == PutOdd12(t, a + e, v)
  {
    SpliceTwo(t, a, s, e, s[e] % 16 + 16 * (v % 16), Low(v / 16));
  }

  lemma SpliceEven12(t: Bytes, a: nat, s: Bytes, e: nat, v: nat)
    requires a + |s| <= |t| && s == t[a..a + |s|] && e + 2 <= |s|
    ensures t[..a] + PutEven12(s, e, v) + t[a + |s|..] == PutEven12(t, a + e, v)
  {
    SpliceTwo(t, a, s, e, Low(v), s[e + 1] / 16 * 16 + v / 0x100 % 16);
  }

  /** Copy `k`, and nothing else, now holds the bytes `b`. */
  ghost predicate TableReplaced(d: Disk, d': Disk, g: Geometry, k: nat, b: Bytes)
    requires Fitting(d, g) && k < g.numFats
  {
    && OnlyFatChanged(d, d', g)
    && TableBytes(d', g, k) == b
    && forall j :: 0 <= j < g.numFats && j != k ==> TableBytes(d', g, j) == TableBytes(d, g, j)
  }

  /** Copy `k`, and nothing else, received one entry store. */
  ghost predicate CopyStored(d: Disk, d': Disk, g: Geometry, c: nat, v: nat, k: nat)
    requires Fitting(d, g) && c < g.maxCluster && k < g.numFats
  {
    CellFits(g, c);
    TableReplaced(d, d', g, k, Put(g.kind, TableBytes(d, g, k), c, v))
  }

  /** The table only depends on the sectors of the FAT copies. */
  lemma FatSame(d: Disk, d': Disk, g: Geometry)
    requires Fitting(d, g) && |d'| == |d|
    requires forall s :: g.fatStart <= s < g.rootStart ==> d'[s] == d[s]
    ensures FatOf(d', g) == FatOf(d, g)
    ensures Mirrored(d, g) ==> Mirrored(d', g)
  {
    forall k | 0 <= k < g.numFats ensures TableBytes(d', g, k) == TableBytes(d, g, k) {
      BaseInside(g, k);
      assert Copy(d', g, k) == Copy(d, g, k);
    }
    BaseInside(g, 0);
  }
}
