/** The FAT driver at work: one mounted volume whose disk, shared
    sector buffer and allocation cursor the operations update in place. */
module FatVolume {
  import opened Arith
  import opened FatDisk
  import opened FatCells
  import opened FatWords
  import opened FatChains
  import opened FatTables
  import opened FatData
  import opened FatReadAt

  class Volume {
    const g: Geometry
    const buf: array<u8>       // g_sector_buf
    var disk: Disk
    var lastAllocated: nat     // g_last_allocated_cluster
    var currentCluster: nat    // the open file: g_current_cluster,
    var currentSize: nat       // g_current_file_size,
    var currentIsDir: bool     // g_current_is_directory

    ghost predicate Valid()
      reads this
    {
      && g.Valid() && g.totalSectors <= |disk| && buf.Length == 512
      && Mirrored(disk, g)
    }

    ghost function Fat(): (fat: Fat)
      requires Valid()
      reads this
    {
      FatOf(disk, g)
    }

    // ---- sectors and words -------------------------------------------------

    method ReadSector(s: nat)
      requires s < |disk| && buf.Length == 512
      modifies buf
      ensures buf[..] == disk[s]
    {
      forall i | 0 <= i < 512 { buf[i] := disk[s][i]; }
    }

    method WriteSector(s: nat)
      requires s < |disk| && buf.Length == 512
      modifies `disk
      ensures disk == old(disk)[s := buf[..]]
    {
      disk := disk[s := buf[..]];
    }

    method StoreU16(o: nat, w: nat)
      requires o + 2 <= buf.Length
      modifies buf
      ensures buf[..] == SetU16(old(buf[..]), o, w)
    {
      buf[o], buf[o + 1] := Low(w), Low(w / 0x100);
    }

    method StoreU32(o: nat, w: nat)
      requires o + 4 <= buf.Length
      modifies buf
      ensures buf[..] == SetU32(old(buf[..]), o, w)
    {
      StoreU16(o, w);
      StoreU16(o + 2, w / 0x1_0000);
    }

    // ---- FAT entries -------------------------------------------------------

    /** FatGetFatEntry: the entry as the first copy holds it. */
    method GetFatEntry(c: nat) returns (v: nat)
      requires Valid() && c < g.maxCluster
      modifies buf
      ensures v == Fat()[c]
    {
      CellFits(g, c);
      var o := CellStart(g.kind, c);
      var i, e := o / 512, o % 512;
      InOneSector(g.kind, c, i, e);
      match g.kind
      case Fat32 => v := Load32(i, e);
      case Fat16 => v := Load16(i, e);
      case Fat12 => v := Load12(i, e, c % 2 == 1);
    }

    method Load32(i: nat, e: nat) returns (v: nat)
      requires Valid() && i < g.spf && e + 4 <= 512
      modifies buf
      ensures v == Cell32(TableBytes(disk, g, 0), i * 512 + e)
    {
      ReadTableSector(i);
      Masked32(buf[..], e);
      v := U32(buf[..], e) % 0x1000_0000;
    }

    method Load16(i: nat, e: nat) returns (v: nat)
      requires Valid() && i < g.spf && e + 2 <= 512
      modifies buf
      ensures v == Cell16(TableBytes(disk, g, 0), i * 512 + e)
    {
      ReadTableSector(i);
      v := U16(buf[..], e);
    }

    /** Two entries in three bytes; the pair may straddle two sectors. */
    method Load12(i: nat, e: nat, odd: bool) returns (v: nat)
      requires Valid() && i < g.spf && e < 512 && i * 512 + e + 2 <= g.spf * 512
      modifies buf
      ensures var t := TableBytes(disk, g, 0);
              v == if odd then Odd12(t, i * 512 + e) else Even12(t, i * 512 + e)
    {
      ReadTableSector(i);
      var b0, b1 := buf[e], 0;
      if e == 511 {
        ReadTableSector(i + 1);
        b1 := buf[0];
      } else {
        b1 := buf[e + 1];
      }
      Word12([b0, b1], 0);
      var val := U16([b0, b1], 0);
      v := if odd then val / 16 else val % 0x1000;
    }

    /** Reads sector `i` of the first copy. */
    method ReadTableSector(i: nat)
      requires Valid() && i < g.spf
      modifies buf
      ensures forall e :: 0 <= e < 512 ==> buf[e] == TableBytes(disk, g, 0)[i * 512 + e]
    {
      BaseInside(g, 0);
      var sec := g.fatStart + i;
      CopyAfterSector(disk, g, 0, i, disk[sec]);
      ReadSector(sec);
      forall e | 0 <= e < 512 ensures buf[e] == TableBytes(disk, g, 0)[i * 512 + e] {
        assert buf[e] == buf[..][e];
      }
    }

    /** FatSetFatEntry: the entry stored in every copy of the table. */
    method SetFatEntry(c: nat, v: nat) returns (ok: bool)
      requires Valid() && c < g.maxCluster
      modifies `disk, buf
      ensures Valid() && ok == (2 <= c)
      ensures ok ==> Fat() == old(Fat())[c := Cut(g.kind, v)] && OnlyFatChanged(old(disk), disk, g)
      ensures !ok ==> disk == old(disk)
    {
      if c < 2 { return false; }
      var k := 0;
      while k < g.numFats
        invariant 0 <= k <= g.numFats && g.totalSectors <= |disk|
        invariant Stored(old(disk), disk, g, c, v, k)
      {
        StoreInCopy(k, c, v);
        k := k + 1;
      }
      StoredEntry(old(disk), disk, g, c, v);
      ok := true;
    }

    method StoreInCopy(k: nat, c: nat, v: nat)
      requires Fitting(disk, g) && buf.Length == 512 && k < g.numFats && c < g.maxCluster
      modifies `disk, buf
      ensures |disk| == old(|disk|) && CopyStored(old(disk), disk, g, c, v, k)
    {
      hide TableBytes, PutOdd12, PutEven12, Put16, Put32;
      CellFits(g, c);
      var o := CellStart(g.kind, c);
      var i, e := o / 512, o % 512;
      InOneSector(g.kind, c, i, e);
      match g.kind
      case Fat32 => StoreEntry32(k, i, e, v);
      case Fat16 => StoreEntry16(k, i, e, v);
      case Fat12 =>
        if e == 511 {
          StoreStraddling(k, i, c % 2 == 1, v);
        } else if c % 2 == 1 {
          StoreOdd12(k, i, e, v);
        } else {
          StoreEven12(k, i, e, v);
        }
    }

    method StoreEntry32(k: nat, i: nat, e: nat, v: nat)
      requires Fitting(disk, g) && buf.Length == 512 && k < g.numFats && i < g.spf && e + 4 <= 512
      modifies `disk, buf
      ensures TableReplaced(old(disk), disk, g, k, Put32(TableBytes(old(disk), g, k), i * 512 + e, v))
    {
      hide Put32, TableBytes;
      LoadCopySector(k, i);
      Splice32(TableBytes(disk, g, k), i * 512, buf[..], e, v);
      MergeU32(e, v);
      StoreCopySector(k, i);
    }

    /** The 28-bit store into the loaded sector. */
    method MergeU32(e: nat, v: nat)
      requires e + 4 <= buf.Length
      modifies buf
      ensures buf[..] == Put32(old(buf[..]), e, v)
    {
      hide Put32, SetU32;
      Store32(buf[..], e, v);
      StoreU32(e, U32(buf[..], e) / 0x1000_0000 * 0x1000_0000 + v % 0x1000_0000);
    }

    method StoreEntry16(k: nat, i: nat, e: nat, v: nat)
      requires Fitting(disk, g) && buf.Length == 512 && k < g.numFats && i < g.spf && e + 2 <= 512
      modifies `disk, buf
      ensures TableReplaced(old(disk), disk, g, k, Put16(TableBytes(old(disk), g, k), i * 512 + e, v))
    {
      LoadCopySector(k, i);
      Splice16(TableBytes(disk, g, k), i * 512, buf[..], e, v);
      StoreU16(e, v);
      StoreCopySector(k, i);
    }

    method StoreOdd12(k: nat, i: nat, e: nat, v: nat)
      requires Fitting(disk, g) && buf.Length == 512 && k < g.numFats && i < g.spf && e + 2 <= 512
      modifies `disk, buf
      ensures TableReplaced(old(disk), disk, g, k, PutOdd12(TableBytes(old(disk), g, k), i * 512 + e, v))
    {
      hide PutOdd12, PutEven12, SetU16, TableBytes;
      LoadCopySector(k, i);
      Store12(buf[..], e, v);
      SpliceOdd12(TableBytes(disk, g, k), i * 512, buf[..], e, v);
      StoreU16(e, U16(buf[..], e) % 16 + v * 16 % 0x1_0000);
      StoreCopySector(k, i);
    }

    method StoreEven12(k: nat, i: nat, e: nat, v: nat)
      requires Fitting(disk, g) && buf.Length == 512 && k < g.numFats && i < g.spf && e + 2 <= 512
      modifies `disk, buf
      ensures TableReplaced(old(disk), disk, g, k, PutEven12(TableBytes(old(disk), g, k), i * 512 + e, v))
    {
      hide PutOdd12, PutEven12, SetU16, TableBytes;
      LoadCopySector(k, i);
      Store12(buf[..], e, v);
      SpliceEven12(TableBytes(disk, g, k), i * 512, buf[..], e, v);
      StoreU16(e, U16(buf[..], e) / 0x1000 * 0x1000 + v % 0x1000);
      StoreCopySector(k, i);
    }

    /** The entry's second byte is the first byte of the next sector. */
    method StoreStraddling(k: nat, i: nat, odd: bool, v: nat)
      requires Fitting(disk, g) && buf.Length == 512 && k < g.numFats && i + 1 < g.spf
      modifies `disk, buf
      ensures var t := TableBytes(old(disk), g, k);
              TableReplaced(old(disk), disk, g, k,
                            if odd then PutOdd12(t, i * 512 + 511, v) else PutEven12(t, i * 512 + 511, v))
    {
      hide TableBytes, Flat, Steps;
      LoadCopySector(k, i + 1);
      var b1 := buf[0];
      LoadCopySector(k, i);
      var b0 := buf[511];
      assert b0 == TableBytes(disk, g, k)[i * 512 + 511] && b1 == TableBytes(disk, g, k)[i * 512 + 512];
      if odd {
        b0, b1 := b0 % 16 + 16 * (v % 16), Low(v / 16);
      } else {
        b0, b1 := Low(v), b1 / 16 * 16 + v / 0x100 % 16;
      }
      StoreByte(k, i, 511, b0);
      StoreByte(k, i + 1, 0, b1);
    }

    method StoreByte(k: nat, i: nat, e: nat, b: u8)
      requires Fitting(disk, g) && buf.Length == 512 && k < g.numFats && i < g.spf && e < 512
      modifies `disk, buf
      ensures TableReplaced(old(disk), disk, g, k, TableBytes(old(disk), g, k)[i * 512 + e := b])
    {
      LoadCopySector(k, i);
      SpliceByte(TableBytes(disk, g, k), i * 512, buf[..], e, b);
      buf[e] := b;
      StoreCopySector(k, i);
    }

    method LoadCopySector(k: nat, i: nat)
      requires Fitting(disk, g) && buf.Length == 512 && k < g.numFats && i < g.spf
      modifies buf
      ensures buf[..] == TableBytes(disk, g, k)[i * 512..i * 512 + 512]
    {
      BaseInside(g, k);
      StepsIsProduct(k, g.spf);
      var sec := g.fatStart + k * g.spf + i;
      CopyAfterSector(disk, g, k, i, disk[sec]);
      ReadSector(sec);
    }

    method StoreCopySector(k: nat, i: nat)
      requires Fitting(disk, g) && buf.Length == 512 && k < g.numFats && i < g.spf
      modifies `disk
      ensures var t := TableBytes(old(disk), g, k);
              TableReplaced(old(disk), disk, g, k, t[..i * 512] + buf[..] + t[i * 512 + 512..])
    {
      BaseInside(g, k);
      StepsIsProduct(k, g.spf);
      var sec := g.fatStart + k * g.spf + i;
      SectorOfCopy(disk, g, k, i, buf[..]);
      CopyAfterSector(disk, g, k, i, buf[..]);
      WriteSector(sec);
    }

    // ---- clusters ----------------------------------------------------------

    /** FatNextCluster: 0 at the end of a chain. */
    method NextCluster(c: nat) returns (next: nat)
      requires Valid() && c < g.maxCluster
      modifies buf
      ensures next == if EofMarker(g.kind) <= Fat()[c] then 0 else Fat()[c]
    {
      next := GetFatEntry(c);
      if EofMarker(g.kind) <= next {
        next := 0;
      }
    }

    /** Where the next-fit scan begins. */
    function ScanStart(): nat
      reads this
    {
      if lastAllocated < 2 || g.maxCluster <= lastAllocated then 2 else lastAllocated
    }

    /** FatAllocateCluster: the next free cluster at or behind the cursor, cyclically. */
    method AllocateCluster() returns (c: nat)
      requires Valid()
      modifies `disk, `lastAllocated, buf
      ensures Valid() && OnlyFatChanged(old(disk), disk, g)
      ensures c == 0 ==> FreeSet(old(Fat())) == {} && disk == old(disk) && lastAllocated == old(lastAllocated)
      ensures c != 0 ==>
                && c in FreeSet(old(Fat())) && Fat() == old(Fat())[c := EofMarker(g.kind)]
                && lastAllocated == c + 1
                && forall x :: 2 <= x < g.maxCluster && SkippedFrom(old(ScanStart()), c, x) ==> old(Fat())[x] != 0
    {
      hide FatOf, Mirrored, Steps, CellEnd, PowerOfTwo;
      GeometryArithmetic(g, 2);
      ghost var fat := Fat();
      var max := (g.totalSectors - g.dataStart) / g.spc + 2;
      var start := ScanStart();
      c := start;
      while c < max
        invariant start <= c <= max && Valid() && disk == old(disk) && lastAllocated == old(lastAllocated)
        invariant forall x :: start <= x < c ==> fat[x] != 0
      {
        var v := GetFatEntry(c);
        if v == 0 {
          Claim(c);
          return;
        }
        c := c + 1;
      }
      c := 2;
      while c < start
        invariant 2 <= c <= start && Valid() && disk == old(disk) && lastAllocated == old(lastAllocated)
        invariant forall x :: start <= x < max || 2 <= x < c ==> fat[x] != 0
      {
        var v := GetFatEntry(c);
        if v == 0 {
          Claim(c);
          return;
        }
        c := c + 1;
      }
      c := 0;
    }

    method Claim(c: nat)
      requires Valid() && 2 <= c < g.maxCluster
      modifies `disk, `lastAllocated, buf
      ensures Valid() && OnlyFatChanged(old(disk), disk, g)
      ensures Fat() == old(Fat())[c := EofMarker(g.kind)] && lastAllocated == c + 1
    {
      var ok := SetFatEntry(c, EofMarker(g.kind));
      lastAllocated := c + 1;
    }

    /** FatFreeClusterChain: frees exactly what the cluster reaches, on every
        table with in-range entries, cyclic ones included. */
    method FreeClusterChain(first: nat)
      requires Valid() && InRange(Fat(), EofMarker(g.kind))
      requires first < g.maxCluster || EofMarker(g.kind) <= first
      modifies `disk, buf
      ensures Valid() && OnlyFatChanged(old(disk), disk, g)
      ensures FreedFrom(old(Fat()), Fat(), first)
    {
      ghost var fat := Fat();
      var eof := EofMarker(g.kind);
      var cluster := first;
      if cluster < 2 || eof <= cluster { return; }
      ghost var freed: set<nat> := {};
      assert Path(fat, [first], first, first);
      while 2 <= cluster < eof
        invariant Valid() && OnlyFatChanged(old(disk), disk, g) && 2 <= cluster < |fat|
        invariant FreeingSoFar(fat, Fat(), first, cluster, freed)
        decreases Clusters(fat) - freed
      {
        var next := GetFatEntry(cluster);
        FreeingStep(fat, Fat(), eof, first, cluster, freed);
        freed := freed + {cluster};
        var ok := SetFatEntry(cluster, 0);
        if next < 2 || eof <= next {
          FreeingDone(fat, Fat(), first, freed);
          return;
        }
        cluster := next;
      }
    }

    /** One turn of the allocation loop of Fat32WriteFile: a cluster claimed and,
        unless it is the first, linked behind `prev`. */
    method AppendCluster(prev: nat, ghost fat: Fat, ghost cs: seq<nat>) returns (c: nat)
      requires Valid() && |fat| == g.maxCluster && FreshChain(fat, Fat(), EofMarker(g.kind), cs)
      requires if cs == [] then prev == 0 else prev == cs[|cs| - 1]
      modifies `disk, `lastAllocated, buf
      ensures Valid() && OnlyFatChanged(old(disk), disk, g)
      ensures c == 0 ==> FreeSet(Fat()) == {} && Fat() == old(Fat())
      ensures c != 0 ==> 2 <= c < g.maxCluster && FreshChain(fat, Fat(), EofMarker(g.kind), cs + [c])
    {
      hide FatOf, Mirrored, FreshChain, Chain;
      ghost var now := Fat();
      if cs != [] { ChainLast(fat, now, EofMarker(g.kind), cs); }
      c := AllocateCluster();
      if c != 0 {
        FreshGrows(fat, now, EofMarker(g.kind), cs, c);
        assert [] + [c] == [c];
        if prev != 0 {
          var ok := SetFatEntry(prev, c);
        }
      }
    }

    /** The allocation loop of Fat32WriteFile: a linked chain of `n` free clusters,
        or, when fewer are free, everything put back. */
    method AllocateChain(n: nat) returns (first: nat, ghost cs: seq<nat>)
      requires Valid() && InRange(Fat(), EofMarker(g.kind)) && 1 <= n
      modifies `disk, `lastAllocated, buf
      ensures Valid() && OnlyFatChanged(old(disk), disk, g)
      ensures first == 0 <==> |FreeSet(old(Fat()))| < n
      ensures first == 0 ==> Fat() == old(Fat())
      ensures first != 0 ==> |cs| == n && cs[0] == first && FreshChain(old(Fat()), Fat(), EofMarker(g.kind), cs)
    {
      hide FatOf, Mirrored, FreshChain, Chain;
      ghost var fat := Fat();
      ghost var eof := EofMarker(g.kind);
      first, cs := 0, [];
      NothingFresh(fat, fat, eof);
      var prev, i := 0, 0;
      while i < n
        invariant 0 <= i <= n && |cs| == i && Valid() && OnlyFatChanged(old(disk), disk, g)
        invariant FreshChain(fat, Fat(), eof, cs)
        invariant if i == 0 then first == 0 && prev == 0 else first == cs[0] && prev == cs[i - 1]
        invariant i != 0 ==> 2 <= first < g.maxCluster && 2 <= prev
      {
        ghost var now := Fat();
        var c := AppendCluster(prev, fat, cs);
        if c == 0 {
          FreshFree(fat, now, eof, cs);
          if first != 0 {
            FreshInRange(fat, now, eof, cs);
            FreeClusterChain(first);
            FreshUndone(fat, now, Fat(), eof, cs);
          } else {
            NothingFresh(fat, now, eof);
          }
          first := 0;
          return;
        }
        if prev == 0 {
          first := c;
        }
        cs := cs + [c];
        prev := c;
        i := i + 1;
      }
      FreshFree(fat, Fat(), eof, cs);
    }

    // ---- file data ---------------------------------------------------------

    /** `cs` is the chain that starts at `first`; no chain at all for 0. */
    ghost predicate ChainAt(first: nat, cs: seq<nat>)
      requires Valid()
      reads this
    {
      if first == 0 then cs == [] else Chain(Fat(), EofMarker(g.kind), cs) && cs[0] == first
    }

    ghost predicate Holds(cs: seq<nat>)
      reads this
    {
      g.Valid() && g.totalSectors <= |disk| && forall j :: 0 <= j < |cs| ==> 2 <= cs[j] < g.maxCluster
    }

    ghost function StreamOf(cs: seq<nat>): (b: Bytes)
      requires Holds(cs)
      reads this
      ensures |b| == Steps(|cs|, g.spc) * 512
    {
      ChainStream(disk, g, cs)
    }

    /** Fat32ReadFile: the first `currentSize` bytes of the chain, as far as it goes. */
    method ReadFile(ghost cs: seq<nat>) returns (out: Bytes)
      requires Valid() && Holds(cs) && ChainAt(currentCluster, cs)
      modifies buf
      ensures out == StreamOf(cs)[..Min(currentSize, |StreamOf(cs)|)]
    {
      hide FatOf, Mirrored, ChainStream;
      var remaining := currentSize;
      var cluster := currentCluster;
      out := [];
      ghost var i := 0;
      while cluster != 0 && cluster < 0x0FFF_FFF8 && remaining > 0
        invariant i <= |cs| && Valid() && disk == old(disk)
        invariant if i < |cs| then cluster == cs[i] else cluster == 0
        invariant ReadSoFar(StreamOf(cs), Steps(i, g.spc), currentSize, out, remaining)
        decreases |cs| - i
      {
        ChainNext(Fat(), EofMarker(g.kind), cs, i);
        out, remaining := ReadCluster(cluster, currentSize, out, remaining, cs, i);
        cluster := NextCluster(cluster);
        i := i + 1;
      }
    }

    method ReadCluster(cluster: nat, size: nat, out: Bytes, remaining: nat, ghost cs: seq<nat>, ghost i: nat)
      returns (out': Bytes, remaining': nat)
      requires Valid() && Holds(cs) && i < |cs| && cluster == cs[i]
      requires ReadSoFar(StreamOf(cs), Steps(i, g.spc), size, out, remaining)
      modifies buf
      ensures ReadSoFar(StreamOf(cs), Steps(i + 1, g.spc), size, out', remaining')
    {
      hide FatOf, Mirrored, ChainStream;
      StepsApart(i, |cs|, g.spc);
      out', remaining' := out, remaining;
      var sector := g.ClusterSector(cluster);
      ghost var b := StreamOf(cs);
      var s := 0;
      while s < g.spc && remaining' > 0
        invariant s <= g.spc && Valid() && disk == old(disk)
        invariant ReadSoFar(b, Steps(i, g.spc) + s, size, out', remaining')
      {
        ChainStreamSector(disk, g, cs, i, s);
        ReadSector(sector + s);
        var copy := Min(remaining', 512);
        ReadOneMore(b, Steps(i, g.spc) + s, size, out', remaining', buf[..]);
        out', remaining' := out' + buf[..copy], remaining' - copy;
        s := s + 1;
      }
    }

    /** The writing loop of Fat32WriteFile: `data` laid along the chain, its last
        sector filled up with zeros. */
    method WriteChain(first: nat, data: Bytes, ghost cs: seq<nat>)
      requires Valid() && Chain(Fat(), EofMarker(g.kind), cs) && cs[0] == first
      requires |data| <= Steps(|cs|, g.spc) * 512
      modifies `disk, buf
      ensures Valid() && Fat() == old(Fat())
      ensures OnlyStreamChanged(old(disk), disk, ChainSectors(g, cs))
      ensures StreamOf(cs)[..|data|] == data
    {
      hide FatOf, Mirrored, ChainSectors, Stream, Padded;
      ghost var d := disk;
      ghost var secs := ChainSectors(g, cs);
      StreamOnDisk(d, g, cs);
      ChainSize(Fat(), EofMarker(g.kind), cs);
      var cluster, remaining := first, |data|;
      ghost var i := 0;
      while 2 <= cluster < EofMarker(g.kind) && remaining > 0
        invariant i <= |cs| && Valid() && Fat() == old(Fat())
        invariant if i < |cs| then cluster == cs[i] else cluster == 0
        invariant WroteSoFar(d, disk, secs, Steps(i, g.spc), data)
        invariant remaining == |data| - Min(Steps(i, g.spc) * 512, |data|)
        decreases |cs| - i
      {
        ChainNext(Fat(), EofMarker(g.kind), cs, i);
        remaining := WriteCluster(cluster, data, remaining, d, cs, i);
        cluster := NextCluster(cluster);
        i := i + 1;
      }
      PaddedStream(disk, secs, data);
    }

    method WriteCluster(cluster: nat, data: Bytes, remaining: nat, ghost d: Disk, ghost cs: seq<nat>, ghost i: nat)
      returns (remaining': nat)
      requires Valid() && Fitting(d, g) && |d| == |disk| && Chain(Fat(), EofMarker(g.kind), cs) && i < |cs| && cluster == cs[i]
      requires WroteSoFar(d, disk, ChainSectors(g, cs), Steps(i, g.spc), data)
      requires remaining == |data| - Min(Steps(i, g.spc) * 512, |data|)
      modifies `disk, buf
      ensures Valid() && Fat() == old(Fat()) && |disk| == |d|
      ensures Steps(i + 1, g.spc) <= Steps(|cs|, g.spc)
      ensures WroteSoFar(d, disk, ChainSectors(g, cs), Steps(i + 1, g.spc), data)
      ensures remaining' == |data| - Min(Steps(i + 1, g.spc) * 512, |data|)
    {
      hide FatOf, Mirrored, ChainSectors, Padded, WroteSoFar;
      StepsApart(i, |cs|, g.spc);
      forall j, k | 0 <= j < k < |cs| ensures cs[j] != cs[k] { ChainDistinct(Fat(), EofMarker(g.kind), cs, j, k); }
      remaining' := remaining;
      var sector := g.ClusterSector(cluster);
      var s := 0;
      while s < g.spc && remaining' > 0
        invariant s <= g.spc && Valid() && Fat() == old(Fat()) && |disk| == |d|
        invariant WroteSoFar(d, disk, ChainSectors(g, cs), Steps(i, g.spc) + s, data)
        invariant remaining' == |data| - Min((Steps(i, g.spc) + s) * 512, |data|)
      {
        ghost var n := Steps(i, g.spc) + s;
        WroteOneMore(d, disk, g, cs, i, s, data);
        var count := Min(remaining', 512);
        FillBuffer(data, |data| - remaining', count);
        PaddedIs(data, n, count);
        StoreDataSector(sector + s);
        remaining' := remaining' - count;
        s := s + 1;
      }
      WroteEnough(d, disk, ChainSectors(g, cs), Steps(i, g.spc) + s, Steps(i + 1, g.spc), data);
    }

    /** Copies `count` bytes of `data` into the buffer and zeroes the rest. */
    method FillBuffer(data: Bytes, from: nat, count: nat)
      requires buf.Length == 512 && count <= 512 && from + count <= |data|
      modifies buf
      ensures buf[..] == data[from..from + count] + Zeros(512 - count)
    {
      forall e | 0 <= e < count { buf[e] := data[from + e]; }
      forall e | count <= e < 512 { buf[e] := 0; }
    }

    /** FatWriteSector behind the FAT leaves the FAT alone. */
    method StoreDataSector(s: nat)
      requires Valid() && g.rootStart <= s < |disk|
      modifies `disk
      ensures Valid() && Fat() == old(Fat()) && disk == old(disk)[s := buf[..]]
    {
      FatSame(disk, disk[s := buf[..]], g);
      WriteSector(s);
    }

    // ---- random access -----------------------------------------------------

    /** Fat32Close. */
    method Close()
      modifies `currentCluster, `currentSize
      ensures currentCluster == 0 && currentSize == 0
    {
      currentCluster, currentSize := 0, 0;
    }

    /** The chain is just long enough for the file. */
    ghost predicate ExactChain(cs: seq<nat>, size: nat) {
      && cs != [] && size < 0x1_0000_0000
      && Steps(|cs| - 1, g.spc) * 512 < size <= Steps(|cs|, g.spc) * 512
    }

    /** Fat32ReadFileAt behind its path lookup: reads from the open file and closes it. */
    method ReadOpenAt(offset: nat, count: nat, ghost cs: seq<nat>) returns (status: Status, out: Bytes)
      requires Valid() && Holds(cs) && ChainAt(currentCluster, cs)
      requires currentSize == 0 || cs == [] || ExactChain(cs, currentSize)
      requires offset < 0x1_0000_0000 && count < 0x1_0000_0000
      modifies buf, `currentCluster, `currentSize
      ensures currentCluster == 0 && currentSize == 0
      ensures old(currentSize) == 0 || cs == [] ==> status == EndOfFile && out == []
      ensures old(currentSize) != 0 && cs != [] ==>
                (status, out) == ReadAtResult(StreamOf(cs), old(currentSize), g.ClusterSize(), offset, count)
    {
      hide FatOf, Mirrored, ChainStream, Chain, Wrap;
      var size := currentSize;
      if offset >= size { Close(); return EndOfFile, []; }
      var want := count;
      if Wrap(offset + want) > size { want := size - offset; }
      var cluster, pos;
      ghost var i;
      cluster, pos, i := SkipClusters(offset, size, cs);
      if cluster == 0 || cluster >= 0x0FFF_FFF8 { Close(); return EndOfFile, []; }
      out := ReadTail(cluster, offset, offset - pos, want, cs, i);
      Close();
      status := Success;
    }

    /** The skipping loop, with its 32-bit position. */
    method SkipClusters(offset: nat, size: nat, ghost cs: seq<nat>) returns (cluster: nat, pos: nat, ghost i: nat)
      requires Valid() && Holds(cs) && ChainAt(currentCluster, cs) && (cs == [] || ExactChain(cs, size)) && offset < size
      modifies buf
      ensures cluster == 0 <==> cs == [] || 0x1_0000_0000 - g.ClusterSize() <= offset
      ensures cluster != 0 ==> i < |cs| && cluster == cs[i] && pos == Steps(i, g.spc) * 512 <= offset
    {
      hide FatOf, Mirrored;
      cluster, pos, i := currentCluster, 0, 0;
      while cluster != 0 && cluster < 0x0FFF_FFF8 && Wrap(pos + g.ClusterSize()) <= offset
        invariant i <= |cs| && Valid() && disk == old(disk)
        invariant if i < |cs| then cluster == cs[i] else cluster == 0
        invariant i < |cs| ==> pos == Steps(i, g.spc) * 512 <= offset
        invariant i == |cs| ==> cs == [] || 0x1_0000_0000 - g.ClusterSize() <= offset
        decreases |cs| - i
      {
        ChainNext(Fat(), EofMarker(g.kind), cs, i);
        SkipStep(g.spc, i, |cs|, size, offset);
        pos := Wrap(pos + g.ClusterSize());
        cluster := NextCluster(cluster);
        i := i + 1;
      }
      if i < |cs| {
        ChainNext(Fat(), EofMarker(g.kind), cs, i);
        SkipStops(g.spc, i, offset);
      }
    }

    method ReadTail(first: nat, offset: nat, skip: nat, want: nat, ghost cs: seq<nat>, ghost start: nat) returns (out: Bytes)
      requires Valid() && Holds(cs) && Chain(Fat(), EofMarker(g.kind), cs) && start < |cs| && first == cs[start]
      requires Steps(start, g.spc) * 512 + skip == offset < |StreamOf(cs)|
      modifies buf
      ensures out == StreamOf(cs)[offset..offset + Min(want, |StreamOf(cs)| - offset)]
    {
      hide FatOf, Mirrored, ChainStream;
      ghost var b := StreamOf(cs);
      var cluster, skipped, left := first, skip, want;
      out := [];
      ghost var i := start;
      while cluster != 0 && cluster < 0x0FFF_FFF8 && left > 0
        invariant i <= |cs| && Valid() && disk == old(disk)
        invariant if i < |cs| then cluster == cs[i] else cluster == 0
        invariant left == 0 || TailSoFar(b, Steps(i, g.spc), offset, want, skipped, out, left)
        invariant left == 0 ==> out == b[offset..offset + Min(want, |b| - offset)]
        decreases |cs| - i
      {
        ChainNext(Fat(), EofMarker(g.kind), cs, i);
        skipped, out, left := TailCluster(cluster, offset, want, skipped, out, left, cs, i);
        cluster := NextCluster(cluster);
        i := i + 1;
      }
      if left > 0 {
        assert i == |cs|;
        TailDone(b, Steps(i, g.spc), offset, want, skipped, out, left);
      }
    }

    method TailCluster(cluster: nat, ghost offset: nat, ghost want: nat, skip: nat, out: Bytes, left: nat,
                       ghost cs: seq<nat>, ghost i: nat)
      returns (skip': nat, out': Bytes, left': nat)
      requires Valid() && Holds(cs) && i < |cs| && cluster == cs[i] && left > 0 && offset < |StreamOf(cs)|
      requires TailSoFar(StreamOf(cs), Steps(i, g.spc), offset, want, skip, out, left)
      modifies buf
      ensures left' > 0 ==> TailSoFar(StreamOf(cs), Steps(i + 1, g.spc), offset, want, skip', out', left')
      ensures left' == 0 ==> out' == StreamOf(cs)[offset..offset + Min(want, |StreamOf(cs)| - offset)]
    {
      hide FatOf, Mirrored, ChainStream, TailSoFar;
      StepsApart(i, |cs|, g.spc);
      ghost var b := StreamOf(cs);
      skip', out', left' := skip, out, left;
      var sector := g.ClusterSector(cluster);
      var s := 0;
      while s < g.spc && left' > 0
        invariant s <= g.spc && Valid() && disk == old(disk)
        invariant TailSoFar(b, Steps(i, g.spc) + s, offset, want, skip', out', left')
      {
        ghost var n := Steps(i, g.spc) + s;
        ChainStreamSector(disk, g, cs, i, s);
        ReadSector(sector + s);
        if skip' >= 512 {
          TailSkips(b, n, offset, want, skip', out', left');
          skip' := skip' - 512;
        } else {
          TailTakes(b, n, offset, want, skip', out', left', buf[..]);
          var copy := Min(left', 512 - skip');
          out', left' := out' + buf[skip'..skip' + copy], left' - copy;
          skip' := 0;
        }
        s := s + 1;
      }
      if left' == 0 {
        TailDone(b, Steps(i, g.spc) + s, offset, want, skip', out', left');
      }
    }
  }
}
