/** The file-descriptor calls SYS_OPEN, SYS_READ, SYS_LSEEK and SYS_CLOSEFD on the volume. */
module FatCursor {
  import opened Arith
  import opened FatDisk
  import opened FatCells
  import opened FatChains
  import opened FatTables
  import opened FatData
  import opened FatNames
  import opened FatReadAt
  import opened FatVolume
  import opened FatStore
  import opened FatFrame
  import opened FatFs
  import opened FatRefs
  import opened FatFiles
  import opened FatOps
  import opened FatPaths
  import opened FatApi

  const MAX_FD: nat := 16
  const MAX_OPEN_SIZE: nat := 16777216

  /** KFileDesc. */
  datatype Fd = Fd(used: bool, path: Name, size: nat, pos: nat)

  /** 64-bit two's complement. */
  function Signed64(x: int): int {
    (x + 0x8000_0000_0000_0000) % 0x1_0000_0000_0000_0000 - 0x8000_0000_0000_0000
  }

  function Clamp(x: int, size: nat): nat { if x < 0 then 0 else if x > size then size else x }

  /** Where SYS_LSEEK counts from; 0 for an unknown whence, whose offset is dropped. */
  function SeekBase(size: nat, pos: nat, whence: int): nat {
    if whence == 1 then pos else if whence == 2 then size else 0
  }

  function SeekTo(size: nat, pos: nat, offset: int, whence: int): nat {
    Clamp(if whence == 0 then offset else if whence in {1, 2} then Signed64(SeekBase(size, pos, whence) + offset) else 0, size)
  }

  /** SYS_LSEEK is a clamped seek exactly when the 64-bit sum does not overflow (or the file is empty). */
  lemma SeekIsClamped(size: nat, pos: nat, offset: int, whence: int)
    requires pos <= size <= MAX_OPEN_SIZE && whence in {0, 1, 2}
    requires -0x8000_0000_0000_0000 <= offset < 0x8000_0000_0000_0000
    ensures SeekTo(size, pos, offset, whence) == Clamp(SeekBase(size, pos, whence) + offset, size)
       <==> whence == 0 || SeekBase(size, pos, whence) + offset < 0x8000_0000_0000_0000 || size == 0
  {
    var x := SeekBase(size, pos, whence) + offset;
    if x < 0x8000_0000_0000_0000 {
      Remainder(x + 0x8000_0000_0000_0000, 0x1_0000_0000_0000_0000, 0, x + 0x8000_0000_0000_0000);
    } else {
      Remainder(x + 0x8000_0000_0000_0000, 0x1_0000_0000_0000_0000, 1, x - 0x8000_0000_0000_0000);
    }
  }

  /** The size a path opens with; directories have none. */
  ghost function SizeAt(g: Geometry, fs: Fs, path: Name): nat {
    match Walk(g, fs, Comps(path)) case File(_, n) => n case _ => 0
  }

  /** The bytes a path leads to. */
  ghost function BytesAt(d: Disk, g: Geometry, fs: Fs, path: Name): Bytes {
    match Walk(g, fs, Comps(path))
    case File(f, n) =>
      if Fitting(d, g) && (f == 0 || (f in fs.files && OnClusters(g, fs.files[f]))) then FileBytes(d, g, fs, f, n) else []
    case _ => []
  }

  /** An open descriptor stands on a path of the volume as it is, inside its bounds. */
  ghost predicate FdOk(g: Geometry, fs: Fs, fd: Fd) {
    && Clean(fd.path) && Walk(g, fs, Comps(fd.path)) != Missing
    && fd.pos <= fd.size == SizeAt(g, fs, fd.path) <= MAX_OPEN_SIZE
  }

  // ---- runs of reads and seeks -----------------------------------------------

  datatype Op = Read(count: nat) | Seek(offset: int, whence: int)

  function PosAfter(size: nat, pos: nat, op: Op): (pos': nat)
    requires pos <= size
    ensures pos' <= size
  {
    match op
    case Read(count) => pos + Min(count, size - pos)
    case Seek(offset, whence) => SeekTo(size, pos, offset, whence)
  }

  /** The position after a run. */
  function PosAfterAll(size: nat, pos: nat, ops: seq<Op>): (pos': nat)
    requires pos <= size
    ensures pos' <= size
    decreases ops
  {
    if ops == [] then pos else PosAfterAll(size, PosAfter(size, pos, ops[0]), ops[1..])
  }

  /** The bytes a run delivers. */
  function Delivered(b: Bytes, pos: nat, ops: seq<Op>): Bytes
    requires pos <= |b|
    decreases ops
  {
    if ops == [] then []
    else
      var next := PosAfter(|b|, pos, ops[0]);
      (if ops[0].Read? then b[pos..next] else []) + Delivered(b, next, ops[1..])
  }

  /** Reads in a row, whatever their sizes, deliver one contiguous piece of the file. */
  lemma {:induction false} ReadsJoin(b: Bytes, pos: nat, ops: seq<Op>)
    requires pos <= |b| && forall i :: 0 <= i < |ops| ==> ops[i].Read?
    ensures pos <= PosAfterAll(|b|, pos, ops)
    ensures Delivered(b, pos, ops) == b[pos..PosAfterAll(|b|, pos, ops)]
    decreases ops
  {
    if ops != [] {
      ReadsJoin(b, PosAfter(|b|, pos, ops[0]), ops[1..]);
    }
  }

  /** A run may be cut anywhere. */
  lemma {:induction false} RunSplits(b: Bytes, pos: nat, xs: seq<Op>, ys: seq<Op>)
    requires pos <= |b|
    ensures PosAfterAll(|b|, pos, xs + ys) == PosAfterAll(|b|, PosAfterAll(|b|, pos, xs), ys)
    ensures Delivered(b, pos, xs + ys) == Delivered(b, pos, xs) + Delivered(b, PosAfterAll(|b|, pos, xs), ys)
    decreases xs
  {
    if xs == [] {
      assert xs + ys == ys;
    } else {
      assert (xs + ys)[1..] == xs[1..] + ys;
      RunSplits(b, PosAfter(|b|, pos, xs[0]), xs[1..], ys);
    }
  }

  /** Seeking to the start and reading at least the size delivers the whole file,
      whatever the run did before. */
  lemma RewindReadsAll(b: Bytes, pos: nat, before: seq<Op>, count: nat)
    requires pos <= |b| <= count
    ensures Delivered(b, pos, before + [Seek(0, 0), Read(count)]) == Delivered(b, pos, before) + b
  {
    var p := PosAfterAll(|b|, pos, before);
    var tail := [Seek(0, 0), Read(count)];
    RunSplits(b, pos, before, tail);
    assert tail[1..] == [Read(count)] && [Read(count)][1..] == [];
    assert Delivered(b, p, tail) == [] + Delivered(b, 0, [Read(count)]);
    assert b[0..|b|] == b;
  }

  // ---- one read --------------------------------------------------------------

  /** What Fat32ReadFileAt delivers inside the bounds SYS_READ keeps. */
  lemma ReadInBounds(d: Disk, g: Geometry, fs: Fs, f: nat, n: nat, pos: nat, count: nat)
    requires Fitting(d, g) && 0 < count <= n - pos && n <= MAX_OPEN_SIZE
    requires f == 0 || (f in fs.files && OnClusters(g, fs.files[f]))
    requires if f == 0 then Chainless(g, n) else JustEnough(|fs.files[f]|, g.spc, n)
    ensures f != 0 && n <= |ChainStream(d, g, fs.files[f])|
    ensures ReadAtResult(ChainStream(d, g, fs.files[f]), n, g.ClusterSize(), pos, count) == (Success, FileBytes(d, g, fs, f, n)[pos..pos + count])
  {
    hide ChainStream, ReadAtResult, CellEnd;
    var b := ChainStream(d, g, fs.files[f]);
    var k := |fs.files[f]|;
    assert Steps(k, g.spc) == Steps(k - 1, g.spc) + g.spc;
    ReadAtIsSlice(b, n, g.ClusterSize(), pos, count);
  }

  class Descriptors {
    const v: Volume
    const fds: array<Fd>

    ghost predicate Valid(fs: Fs)
      reads this, v, fds
    {
      && Ok(v, fs) && fds.Length == MAX_FD
      && forall i :: 0 <= i < MAX_FD && fds[i].used ==> FdOk(v.g, fs, fds[i])
    }

    /** All descriptors closed. */
    constructor (volume: Volume, ghost fs: Fs)
      requires Ok(volume, fs)
      ensures v == volume && fresh(fds) && Valid(fs) && forall i :: 0 <= i < MAX_FD ==> !fds[i].used
    {
      v := volume;
      fds := new Fd[MAX_FD](i => Fd(false, [], 0, 0));
    }

    /** SYS_OPEN of a resolved path: the lowest free descriptor. */
    method Open(path: Name, ghost fs: Fs) returns (fd: int)
      requires Valid(fs) && Clean(path)
      modifies fds, v.buf, v`currentCluster, v`currentSize, v`currentIsDir
      ensures Valid(fs) && -1 <= fd < MAX_FD
      ensures fd == -1 ==> fds[..] == old(fds[..])
      ensures fd == -1 <==> Walk(v.g, fs, Comps(path)) == Missing || SizeAt(v.g, fs, path) > MAX_OPEN_SIZE
                            || forall i :: 0 <= i < MAX_FD ==> old(fds[i].used)
      ensures fd != -1 ==> forall i :: 0 <= i < fd ==> old(fds[i].used)
      ensures fd != -1 ==> !old(fds[fd].used) && fds[..] == old(fds[..])[fd := Fd(true, path, SizeAt(v.g, fs, path), 0)]
    {
      hide Layout, Refs, Comps, Walk, Clean;
      var status := OpenPath(v, path, fs);
      if status != Success { return -1; }
      var size := v.currentSize;
      v.Close();
      if size > MAX_OPEN_SIZE { return -1; }
      fd := -1;
      var i := 0;
      while i < MAX_FD
        invariant i <= MAX_FD && fd == -1
        invariant forall j :: 0 <= j < i ==> fds[j].used
      {
        if !fds[i].used {
          fd := i;
          break;
        }
        i := i + 1;
      }
      if fd < 0 { return; }
      fds[fd] := Fd(true, path, size, 0);
    }

    /** SYS_READ: the next bytes, as many as asked for or as are left. */
    method Read(fd: int, count: nat, ghost fs: Fs) returns (ret: int, out: Bytes)
      requires Valid(fs) && count < 0x1_0000_0000
      modifies fds, v.buf, v`currentCluster, v`currentSize, v`currentIsDir
      ensures Valid(fs)
      ensures !(0 <= fd < MAX_FD) || !old(fds[fd].used) ==> ret == -1 && out == [] && fds[..] == old(fds[..])
      ensures 0 <= fd < MAX_FD && old(fds[fd].used) ==>
                var f, b := old(fds[fd]), BytesAt(v.disk, v.g, fs, old(fds[fd]).path);
                && f.pos <= |b| == f.size && ret == |out| && out == Delivered(b, f.pos, [Op.Read(count)])
                && fds[..] == old(fds[..])[fd := f.(pos := PosAfter(|b|, f.pos, Op.Read(count)))]
    {
      hide Layout, Refs, Comps, Walk, Clean, ChainStream, ReadAtResult, RefOk;
      out := [];
      if fd < 0 || fd >= MAX_FD || !fds[fd].used { return -1, []; }
      var f := fds[fd];
      ghost var b := BytesAt(v.disk, v.g, fs, f.path);
      WholeFile(v, fs, f);
      var n := Min(count, f.size - f.pos);
      assert [Op.Read(count)][1..] == [];
      if n == 0 {
        ret := 0;
        assert fds[..] == old(fds[..])[fd := f];
        return;
      }
      var status;
      status, out := ReadFileAt(v, f.path, f.pos, n, fs);
      ReadDelivers(v, fs, f, n);
      if status != Success { return -1, []; }
      fds[fd] := f.(pos := f.pos + |out|);
      ret := |out|;
    }

    /** SYS_LSEEK. */
    method Lseek(fd: int, offset: int, whence: int, ghost fs: Fs) returns (ret: int)
      requires Valid(fs)
      modifies fds
      ensures Valid(fs)
      ensures !(0 <= fd < MAX_FD) || !old(fds[fd].used) ==> ret == -1 && fds[..] == old(fds[..])
      ensures 0 <= fd < MAX_FD && old(fds[fd].used) ==>
                var f := old(fds[fd]);
                && f.pos <= f.size && ret == PosAfter(f.size, f.pos, Seek(offset, whence))
                && fds[..] == old(fds[..])[fd := f.(pos := ret)]
    {
      hide Layout, Refs, Comps, Walk, Clean, Signed64;
      if fd < 0 || fd >= MAX_FD || !fds[fd].used { return -1; }
      var f := fds[fd];
      var newPos: int := 0;
      if whence == 0 {
        newPos := offset;
      } else if whence == 1 {
        newPos := Signed64(f.pos + offset);
      } else if whence == 2 {
        newPos := Signed64(f.size + offset);
      }
      if newPos < 0 { newPos := 0; }
      if newPos > f.size { newPos := f.size; }
      fds[fd] := f.(pos := newPos);
      ret := newPos;
    }

    /** SYS_CLOSEFD. */
    method CloseFd(fd: int, ghost fs: Fs) returns (ret: int)
      requires Valid(fs)
      modifies fds
      ensures Valid(fs)
      ensures ret == -1 <==> !(0 <= fd < MAX_FD && old(fds[fd].used))
      ensures ret == -1 ==> fds[..] == old(fds[..])
      ensures ret != -1 ==> ret == 0 && fds[..] == old(fds[..])[fd := Fd(false, [], 0, 0)]
    {
      hide Layout, Refs, Comps, Walk, Clean;
      if fd < 0 || fd >= MAX_FD || !fds[fd].used { return -1; }
      fds[fd] := Fd(false, [], 0, 0);
      ret := 0;
    }
  }

  /** An open descriptor's file is exactly as long as the descriptor says. */
  lemma WholeFile(v: Volume, fs: Fs, fd: Fd)
    requires Ok(v, fs) && FdOk(v.g, fs, fd)
    ensures |BytesAt(v.disk, v.g, fs, fd.path)| == fd.size
  {
    hide Layout, Refs, Comps, Walk, ChainStream, CellEnd;
    HeadedLayout(v.disk, v.g, fs);
    FittingLayout(v.disk, v.g, fs);
    WalkLands(v.g, fs, Comps(fd.path));
    match Walk(v.g, fs, Comps(fd.path))
    case File(f, n) =>
      ChainThere(v, fs, f, if f == 0 then [] else fs.files[f]);
    case _ =>
  }

  lemma FittingLayout(d: Disk, g: Geometry, fs: Fs)
    requires Layout(d, g, fs)
    ensures Fitting(d, g)
  {
  }

  lemma ReadDelivers(v: Volume, fs: Fs, fd: Fd, count: nat)
    requires Ok(v, fs) && FdOk(v.g, fs, fd) && 0 < count <= fd.size - fd.pos
    ensures match Walk(v.g, fs, Comps(fd.path))
            case File(f, n) =>
              && f != 0 && n > 0 && f in fs.files && OnClusters(v.g, fs.files[f]) && Fitting(v.disk, v.g)
              && n <= |ChainStream(v.disk, v.g, fs.files[f])| && fd.pos + count <= |BytesAt(v.disk, v.g, fs, fd.path)|
              && ReadAtResult(ChainStream(v.disk, v.g, fs.files[f]), n, v.g.ClusterSize(), fd.pos, count)
                 == (Success, BytesAt(v.disk, v.g, fs, fd.path)[fd.pos..fd.pos + count])
            case _ => false
  {
    hide Layout, Refs, Comps, Walk, ChainStream, ReadAtResult, CellEnd, JustEnough;
    HeadedLayout(v.disk, v.g, fs);
    FittingLayout(v.disk, v.g, fs);
    WholeFile(v, fs, fd);
    WalkLands(v.g, fs, Comps(fd.path));
    match Walk(v.g, fs, Comps(fd.path))
    case File(f, n) =>
      ChainThere(v, fs, f, if f == 0 then [] else fs.files[f]);
      ReadInBounds(v.disk, v.g, fs, f, n, fd.pos, count);
    case _ =>
  }

  // ---- where seeks lead ----------------------------------------------------------

  /** Seeking by nothing from the position stays, by nothing from the end gets to the end, and by an offset
      gets that far from the start, the position or the end, but no further than the file reaches. */
  lemma SeekLeads(size: nat, pos: nat, offset: int)
    requires pos <= size <= MAX_OPEN_SIZE && -0x4000_0000_0000_0000 <= offset < 0x4000_0000_0000_0000
    ensures SeekTo(size, pos, 0, 1) == pos && SeekTo(size, pos, 0, 2) == size && SeekTo(size, pos, 0, 0) == 0
    ensures SeekTo(size, pos, offset, 0) == Clamp(offset, size)
    ensures SeekTo(size, pos, offset, 1) == Clamp(pos + offset, size)
    ensures SeekTo(size, pos, offset, 2) == Clamp(size + offset, size)
  {
    SeekIsClamped(size, pos, 0, 1);
    SeekIsClamped(size, pos, 0, 2);
    SeekIsClamped(size, pos, offset, 1);
    SeekIsClamped(size, pos, offset, 2);
  }

  /** At the end every read delivers nothing; a read taken back by a seek from the position delivers the same
      again; a seek back from the end leaves the last bytes to read. */
  lemma SeeksAndReads(b: Bytes, pos: nat, count: nat)
    requires pos <= |b| <= MAX_OPEN_SIZE && count <= |b| - pos
    ensures Delivered(b, pos, [Seek(0, 2), Read(count)]) == []
    ensures Delivered(b, pos, [Read(count), Seek(-(count as int), 1), Read(count)]) == b[pos..pos + count] + b[pos..pos + count]
    ensures Delivered(b, pos, [Seek(-(count as int), 2), Read(count)]) == b[|b| - count..]
  {
    hide SeekTo, Delivered;
    SeekLeads(|b|, pos, 0);
    SeekLeads(|b|, pos + count, -(count as int));
    SeekLeads(|b|, pos, -(count as int));
    ThreeOps(b, pos, Read(count), Seek(-(count as int), 1), Read(count));
    TwoOps(b, pos, Seek(0, 2), Read(count));
    TwoOps(b, pos, Seek(-(count as int), 2), Read(count));
  }

  lemma TwoOps(b: Bytes, pos: nat, x: Op, y: Op)
    requires pos <= |b|
    ensures var p := PosAfter(|b|, pos, x);
            Delivered(b, pos, [x, y]) == (if x.Read? then b[pos..p] else []) + (if y.Read? then b[p..PosAfter(|b|, p, y)] else [])
  {
    hide SeekTo;
    assert [x, y][1..] == [y] && [y][1..] == [];
    var p := PosAfter(|b|, pos, x);
    assert Delivered(b, p, [y]) == (if y.Read? then b[p..PosAfter(|b|, p, y)] else []) + Delivered(b, PosAfter(|b|, p, y), []);
  }

  lemma ThreeOps(b: Bytes, pos: nat, x: Op, y: Op, z: Op)
    requires pos <= |b|
    ensures var p := PosAfter(|b|, pos, x);
            Delivered(b, pos, [x, y, z]) == (if x.Read? then b[pos..p] else []) + Delivered(b, p, [y, z])
    ensures var p := PosAfter(|b|, pos, x); var q := PosAfter(|b|, p, y);
            Delivered(b, p, [y, z]) == (if y.Read? then b[p..q] else []) + (if z.Read? then b[q..PosAfter(|b|, q, z)] else [])
  {
    hide SeekTo;
    assert [x, y, z][1..] == [y, z];
    TwoOps(b, PosAfter(|b|, pos, x), y, z);
  }
}
