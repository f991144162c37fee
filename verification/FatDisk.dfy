/** The on-disk vocabulary of the FAT driver: bytes, 512-byte sectors, the volume
    geometry of Kernel/fs/fat32.h, and byte access to a run of sectors. */
module FatDisk {
  import opened Arith

  type u8 = x: int | 0 <= x < 256
  type u32 = x: int | 0 <= x < 0x1_0000_0000

  type Sector = s: seq<u8> | |s| == 512 witness seq(512, i => 0)
  type Disk = seq<Sector>

  datatype FatType = Fat12 | Fat16 | Fat32

  /** The ntstatus values of Shared/error.h that the driver returns. */
  datatype Status = Success | Unsuccessful | NotFound | OutOfMemory | AccessDenied
                  | InvalidParameter | NoSuchFile | DiskFull | EndOfFile
                  | Astray    // no status of the driver: from here on it acts on file data as on a directory

  /** FatInfo, without the fields no operation reads. Sector numbers count from
      the start of the partition. `maxCluster` is one past the last cluster. */
  datatype Geometry = Geometry(
    kind: FatType,
    spc: nat,          // sectors_per_cluster
    numFats: nat,
    spf: nat,          // sectors_per_fat
    totalSectors: nat,
    fatStart: nat,
    rootStart: nat,    // fixed root directory of FAT12/16
    rootSectors: nat,
    dataStart: nat,
    rootCluster: nat,  // root directory of FAT32, 0 otherwise
    maxCluster: nat)
  {
    /** What Fat32Init leaves behind on a well-formed volume: FAT copies, then the
        fixed root directory, then the data area, all inside the partition, with
        every cluster's FAT entry inside the table. */
    ghost predicate Valid() {
      && 1 <= spc <= 128 && PowerOfTwo(spc)
      && 1 <= numFats && 1 <= spf && 1 <= fatStart
      && rootStart == fatStart + Steps(numFats, spf)
      && dataStart == rootStart + (if kind.Fat32? then 0 else rootSectors)
      && dataStart <= totalSectors < 0x1_0000_0000
      && 2 <= maxCluster <= EofMarker(kind)
      && Steps(maxCluster - 2, spc) <= totalSectors - dataStart < Steps(maxCluster - 1, spc)
      && CellEnd(kind, maxCluster) <= spf * 512
      && (if kind.Fat32? then 2 <= rootCluster < maxCluster else rootCluster == 0 && 1 <= rootSectors)
    }

    /** FatClusterToSector: the first sector of a cluster. */
    function ClusterSector(c: nat): nat
      requires 2 <= c
    {
      dataStart + Steps(c - 2, spc)
    }

    function ClusterSize(): nat { spc * 512 }
  }

  /** The arithmetic the driver writes is the one the model counts in steps. */
  lemma GeometryArithmetic(g: Geometry, c: nat)
    requires g.Valid() && 2 <= c
    ensures g.maxCluster == (g.totalSectors - g.dataStart) / g.spc + 2
    ensures g.ClusterSector(c) == g.dataStart + (c - 2) * g.spc
  {
    QuotientSteps(g.totalSectors - g.dataStart, g.maxCluster - 2, g.spc);
    StepsIsProduct(c - 2, g.spc);
  }

  /** Clusters lie inside the data area, one behind the other. */
  lemma ClusterInside(g: Geometry, c: nat)
    requires g.Valid() && 2 <= c < g.maxCluster
    ensures g.dataStart <= g.ClusterSector(c) && g.ClusterSector(c) + g.spc <= g.totalSectors
  {
    StepsApart(c - 2, g.maxCluster - 2, g.spc);
  }

  lemma ClustersApart(g: Geometry, c: nat, d: nat)
    requires 2 <= c < d
    ensures g.ClusterSector(c) + g.spc <= g.ClusterSector(d)
  {
    StepsApart(c - 2, d - 2, g.spc);
  }

  /** The cluster sizes Fat32Init accepts. */
  predicate PowerOfTwo(spc: nat) {
    spc == 1 || spc == 2 || spc == 4 || spc == 8 || spc == 16 || spc == 32 || spc == 64 || spc == 128
  }

  /** FatEofMarker: the smallest entry value that ends a chain. */
  function EofMarker(kind: FatType): (eof: nat)
    ensures 2 < eof < CellSpan(kind)
  {
    match kind
    case Fat12 => 0xFF8
    case Fat16 => 0xFFF8
    case Fat32 => 0x0FFF_FFF8
  }

  /** How many values an entry can hold. */
  function CellSpan(kind: FatType): nat {
    match kind
    case Fat12 => 0x1000
    case Fat16 => 0x1_0000
    case Fat32 => 0x1000_0000
  }

  /** A value cut to the width of an entry: 12, 16 or 28 bits. */
  function Cut(kind: FatType, v: nat): (w: nat)
    ensures w < CellSpan(kind)
    ensures v < CellSpan(kind) ==> w == v
  {
    match kind
    case Fat12 => v % 0x1000
    case Fat16 => v % 0x1_0000
    case Fat32 => v % 0x1000_0000
  }

  /** Byte offset of the first byte of an entry. */
  function CellStart(kind: FatType, c: nat): nat {
    match kind
    case Fat12 => c * 3 / 2
    case Fat16 => c * 2
    case Fat32 => c * 4
  }

  /** Byte offset no entry below `c` reaches. */
  function CellEnd(kind: FatType, c: nat): nat {
    match kind
    case Fat12 => (c * 3 + 1) / 2
    case Fat16 => c * 2
    case Fat32 => c * 4
  }

  /** The bytes of a run of sectors, end to end. */
  function Flat(t: seq<Sector>): (b: seq<u8>)
    ensures |b| == |t| * 512
  {
    seq(|t| * 512, o requires 0 <= o < |t| * 512 => t[o / 512][o % 512])
  }
}
