/** The directory routines of the driver, run on a mounted volume: scanning for a
    name, listing, finding free slots, writing and erasing entries. */
module FatDirectory {
  import opened Basics
  import opened Arith
  import opened FatDisk
  import opened FatCells
  import opened FatWords
  import opened FatChains
  import opened FatTables
  import opened FatData
  import opened FatNames
  import opened FatDir
  import opened FatItems
  import opened FatScans
  import opened FatSlots
  import opened FatVolume

  /** `head` is a directory of the volume, on the chain `cs` (none for the fixed root). */
  ghost predicate IsDir(v: Volume, head: nat, cs: seq<nat>)
    reads v
  {
    v.Valid() && DirChain(v.Fat(), v.g, head, cs)
  }

  ghost function Sectors(v: Volume, head: nat, cs: seq<nat>): (secs: seq<nat>)
    requires IsDir(v, head, cs)
    reads v
    ensures OnDisk(v.disk, secs) && Distinct(secs)
    ensures |secs| == Steps(GroupCount(v.g, head, cs), GroupSize(v.g, head))
    ensures forall k :: 0 <= k < |secs| ==> v.g.rootStart <= secs[k] < v.g.totalSectors
  {
    DirSectorsGood(v.disk, v.g, v.Fat(), head, cs);
    DirSectors(v.g, head, cs)
  }

  ghost function Slots(v: Volume, head: nat, cs: seq<nat>): (ss: seq<Slot>)
    requires IsDir(v, head, cs)
    reads v
    ensures |ss| == |Sectors(v, head, cs)| * 16
  {
    SlotsOf(v.disk, Sectors(v, head, cs))
  }

  // ---- walking the groups of a directory -------------------------------------

  /** The walk stands before group `i`. */
  ghost predicate Cursor(v: Volume, head: nat, cs: seq<nat>, i: nat, cluster: nat, done: bool) {
    && i <= GroupCount(v.g, head, cs)
    && if FixedRoot(v.g, head) then done <==> i == 1
       else !done && if i < |cs| then cluster == cs[i] else cluster == 0
  }

  /** The head of every directory loop: the next cluster, or the fixed root once. */
  method NextGroup(v: Volume, head: nat, cluster: nat, ghost cs: seq<nat>, ghost i: nat)
    returns (more: bool, base: nat, count: nat, cluster': nat, done': bool)
    requires IsDir(v, head, cs) && Cursor(v, head, cs, i, cluster, false)
    modifies v.buf
    ensures more <==> i < GroupCount(v.g, head, cs)
    ensures more ==> Cursor(v, head, cs, i + 1, cluster', done') && count == GroupSize(v.g, head)
    ensures more ==> IsRun(Sectors(v, head, cs), Steps(i, count), base, count)
  {
    hide FatOf, Mirrored, DirSectors, ChainSectors, IsRun;
    more, base, count, cluster', done' := true, 0, 0, cluster, false;
    if FixedRoot(v.g, head) {
      base, count, done' := v.g.rootStart, v.g.rootSectors, true;
    } else {
      if cluster < 2 || EofMarker(v.g.kind) <= cluster { more := false; return; }
      ChainNext(v.Fat(), EofMarker(v.g.kind), cs, i);
      base, count := v.g.ClusterSector(cluster), v.g.spc;
      cluster' := v.NextCluster(cluster);
    }
    DirSectorsGood(v.disk, v.g, v.Fat(), head, cs);
    GroupIsRun(v.g, v.Fat(), head, cs, i);
  }

  /** Loads sector `n` of the directory; its slots are now in the buffer. */
  method LoadDirSector(v: Volume, sec: nat, ghost secs: seq<nat>, ghost n: nat)
    requires v.Valid() && OnDisk(v.disk, secs) && n < |secs| && sec == secs[n]
    modifies v.buf
    ensures v.buf[..] == v.disk[sec]
    ensures forall j :: 0 <= j < 16 ==> SlotsOf(v.disk, secs)[n * 16 + j] == SlotIn(v.buf[..], j)
  {
    hide SlotsOf, SlotIn;
    v.ReadSector(sec);
    forall j | 0 <= j < 16 ensures SlotsOf(v.disk, secs)[n * 16 + j] == SlotIn(v.buf[..], j) {
      SlotOf(v.disk, secs, n, j);
    }
  }

  // ---- the scan of Fat32WriteFile --------------------------------------------

  /** Looks for an entry with the 8.3 name `short`. */
  method ScanDirectory(v: Volume, head: nat, short: Bytes, ghost cs: seq<nat>)
    returns (found: bool, sec: nat, off: nat, slot: Slot, ghost k: nat)
    requires IsDir(v, head, cs)
    modifies v.buf
    ensures ScanShort(Slots(v, head, cs), short) == if found then Some(k) else None
    ensures found ==> PlacedAt(Sectors(v, head, cs), k, sec, off) && slot == Slots(v, head, cs)[k]
  {
    hide FatOf, Mirrored, DirSectors, DirChain, ScanShort, SlotsOf, SlotIn, PlacedAt, IsRun;
    ghost var ss := Slots(v, head, cs);
    ghost var secs := Sectors(v, head, cs);
    found, sec, off, slot, k := false, 0, 0, Zeros(32), 0;
    var cluster, done := head, false;
    ghost var i := 0;
    ghost var gs := GroupSize(v.g, head);
    CursorStart(v, head, cs);
    while !done
      invariant IsDir(v, head, cs) && v.disk == old(v.disk) && !found
      invariant Cursor(v, head, cs, i, cluster, done)
      invariant i <= GroupCount(v.g, head, cs) && Steps(i, gs) <= |secs|
      invariant ScanShort(ss, short) == Shift(ScanShort(ss[Steps(i, gs) * 16..], short), Steps(i, gs) * 16)
      decreases GroupCount(v.g, head, cs) - i
    {
      var more, base, count, cluster', done' := NextGroup(v, head, cluster, cs, i);
      if !more { break; }
      ghost var lo := Steps(i, gs);
      var stop;
      stop, found, sec, off, slot, k := ScanGroup(v, base, count, short, secs, ss, lo);
      if stop { return; }
      cluster, done, i := cluster', done', i + 1;
    }
    CursorEnd(v, head, cs, i, cluster, done);
    assert ss[|ss|..] == [];
    ScanEmpty(short);
  }

  /** Slot `k` of the directory is at byte `off` of sector `sec`. */
  ghost predicate PlacedAt(secs: seq<nat>, k: nat, sec: nat, off: nat) {
    k / 16 < |secs| && sec == secs[k / 16] && off == k % 16 * 32
  }

  lemma CursorStart(v: Volume, head: nat, cs: seq<nat>)
    requires IsDir(v, head, cs)
    ensures Cursor(v, head, cs, 0, head, false)
  {
  }

  lemma CursorEnd(v: Volume, head: nat, cs: seq<nat>, i: nat, cluster: nat, done: bool)
    requires IsDir(v, head, cs) && Cursor(v, head, cs, i, cluster, done)
    requires done || i == GroupCount(v.g, head, cs)
    ensures Steps(i, GroupSize(v.g, head)) == |Sectors(v, head, cs)|
  {
    hide DirSectors;
  }

  method ScanGroup(v: Volume, base: nat, count: nat, short: Bytes, ghost secs: seq<nat>, ghost ss: seq<Slot>, ghost lo: nat)
    returns (stop: bool, hit: bool, sec: nat, off: nat, slot: Slot, ghost k: nat)
    requires v.Valid() && OnDisk(v.disk, secs) && ss == SlotsOf(v.disk, secs) && IsRun(secs, lo, base, count)
    requires ScanShort(ss, short) == Shift(ScanShort(ss[lo * 16..], short), lo * 16)
    modifies v.buf
    ensures stop ==> ScanShort(ss, short) == if hit then Some(k) else None
    ensures stop && hit ==> k < |ss| && PlacedAt(secs, k, sec, off) && slot == ss[k]
    ensures !stop ==> !hit && ScanShort(ss, short) == Shift(ScanShort(ss[(lo + count) * 16..], short), (lo + count) * 16)
  {
    hide FatOf, Mirrored, ScanShort, SlotsOf, SlotIn, IsRun, Shift;
    stop, hit, sec, off, slot, k := false, false, 0, 0, Zeros(32), 0;
    var s := 0;
    while s < count
      invariant s <= count && v.Valid() && v.disk == old(v.disk) && lo + count <= |secs|
      invariant ScanShort(ss, short) == Shift(ScanShort(ss[(lo + s) * 16..], short), (lo + s) * 16)
    {
      RunAt(secs, lo, base, count, s);
      LoadDirSector(v, base + s, secs, lo + s);
      var j;
      stop, hit, j := ScanSector(v, short, ss, lo + s);
      ShiftTwice(ScanShort(ss[(lo + s) * 16 + 16..], short), 16, (lo + s) * 16);
      if stop {
        ShiftHit(hit, j, (lo + s) * 16);
        sec, off, k := base + s, j * 32, (lo + s) * 16 + j;
        slot := SlotIn(v.buf[..], j);
        Remainder(k, 16, lo + s, j);
        return;
      }
      hit := false;
      s := s + 1;
    }
  }

  lemma ShiftTwice(o: Option<nat>, a: nat, b: nat)
    ensures Shift(Shift(o, a), b) == Shift(o, a + b)
  {
  }

  lemma ShiftHit(hit: bool, j: nat, b: nat)
    ensures Shift(if hit then Some(j) else None, b) == if hit then Some(j + b) else None
  {
  }

  lemma ScanEmpty(short: Bytes)
    ensures ScanShort([], short) == None
  {
  }

  /** The slots of one loaded sector. */
  method ScanSector(v: Volume, short: Bytes, ghost ss: seq<Slot>, ghost n: nat) returns (stop: bool, hit: bool, j: nat)
    requires v.buf.Length == 512 && n * 16 + 16 <= |ss|
    requires forall j :: 0 <= j < 16 ==> ss[n * 16 + j] == SlotIn(v.buf[..], j)
    ensures stop ==> j < 16 && ScanShort(ss[n * 16..], short) == if hit then Some(j) else None
    ensures !stop ==> ScanShort(ss[n * 16..], short) == Shift(ScanShort(ss[n * 16 + 16..], short), 16)
  {
    hide ScanShort, SlotIn, Raw;
    stop, hit, j := false, false, 0;
    while j < 16
      invariant j <= 16
      invariant ScanShort(ss[n * 16..], short) == Shift(ScanShort(ss[n * 16 + j..], short), j)
    {
      var s := SlotIn(v.buf[..], j);
      assert ss[n * 16 + j..] == [s] + ss[n * 16 + j + 1..];
      ScanCons(s, ss[n * 16 + j + 1..], short);
      if IsEnd(s) { return true, false, j; }
      if !IsGone(s) && !IsLfn(s) && !IsLabel(s) && Raw(s) == short { return true, true, j; }
      j := j + 1;
    }
  }

  // ---- Fat32ReadDir ----------------------------------------------------------

  /** The state of a listing: what is out so far and what the rest will add. */
  ghost predicate Listed(kind: FatType, ss: seq<Slot>, k: nat, acc: Bytes, valid: bool, out: seq<DirEntry>, max: nat)
    ensures Listed(kind, ss, k, acc, valid, out, max) ==> k <= |ss| && |acc| == 260 && |out| <= max
  {
    && k <= |ss| && |acc| == 260 && |out| <= max
    && out + ReadDirList(kind, ss[k..], acc, valid, max - |out|) == ReadDirList(kind, ss, Zeros(260), false, max)
  }

  /** Lists at most `max` entries of the directory. */
  method ReadDir(v: Volume, head: nat, max: nat, ghost cs: seq<nat>) returns (out: seq<DirEntry>)
    requires IsDir(v, head, cs)
    modifies v.buf
    ensures out == ReadDirList(v.g.kind, Slots(v, head, cs), Zeros(260), false, max)
  {
    hide FatOf, Mirrored, DirSectors, DirChain, SlotsOf, Listed, IsRun;
    ghost var ss := Slots(v, head, cs);
    ghost var secs := Sectors(v, head, cs);
    out := [];
    var acc, valid := Zeros(260), false;
    var cluster, done := head, false;
    ghost var i := 0;
    ghost var gs := GroupSize(v.g, head);
    CursorStart(v, head, cs);
    ListedStart(v.g.kind, ss, max);
    while !done && |out| < max
      invariant IsDir(v, head, cs) && v.disk == old(v.disk)
      invariant Cursor(v, head, cs, i, cluster, done)
      invariant i <= GroupCount(v.g, head, cs)
      invariant Listed(v.g.kind, ss, Steps(i, gs) * 16, acc, valid, out, max)
      decreases GroupCount(v.g, head, cs) - i
    {
      var more, base, count, cluster', done' := NextGroup(v, head, cluster, cs, i);
      if !more { break; }
      var ended;
      ended, acc, valid, out := ListGroup(v, base, count, acc, valid, out, max, secs, ss, Steps(i, gs));
      if ended { return; }
      cluster, done, i := cluster', done', i + 1;
    }
    if |out| < max {
      CursorEnd(v, head, cs, i, cluster, done);
    }
    ListedEnd(v.g.kind, ss, Steps(i, gs) * 16, acc, valid, out, max);
  }

  lemma ListedStart(kind: FatType, ss: seq<Slot>, max: nat)
    ensures Listed(kind, ss, 0, Zeros(260), false, [], max)
  {
    hide ReadDirList;
    assert ss[0..] == ss;
  }

  lemma ListedEnd(kind: FatType, ss: seq<Slot>, k: nat, acc: Bytes, valid: bool, out: seq<DirEntry>, max: nat)
    requires Listed(kind, ss, k, acc, valid, out, max) && (|out| == max || k == |ss|)
    ensures out == ReadDirList(kind, ss, Zeros(260), false, max)
  {
    assert ReadDirList(kind, ss[k..], acc, valid, max - |out|) == [];
  }

  method ListGroup(v: Volume, base: nat, count: nat, acc: Bytes, valid: bool, out: seq<DirEntry>, max: nat,
                   ghost secs: seq<nat>, ghost ss: seq<Slot>, ghost lo: nat)
    returns (ended: bool, acc': Bytes, valid': bool, out': seq<DirEntry>)
    requires v.Valid() && OnDisk(v.disk, secs) && ss == SlotsOf(v.disk, secs) && IsRun(secs, lo, base, count)
    requires Listed(v.g.kind, ss, lo * 16, acc, valid, out, max) && |out| < max
    modifies v.buf
    ensures ended ==> out' == ReadDirList(v.g.kind, ss, Zeros(260), false, max)
    ensures !ended ==> Listed(v.g.kind, ss, (lo + count) * 16, acc', valid', out', max)
  {
    hide FatOf, Mirrored, SlotsOf, SlotIn, IsRun, Listed;
    ended, acc', valid', out' := false, acc, valid, out;
    var s := 0;
    while s < count && |out'| < max
      invariant s <= count && v.Valid() && v.disk == old(v.disk) && lo + count <= |secs|
      invariant Listed(v.g.kind, ss, (lo + s) * 16, acc', valid', out', max)
    {
      RunAt(secs, lo, base, count, s);
      LoadDirSector(v, base + s, secs, lo + s);
      ended, acc', valid', out' := ListSector(v, acc', valid', out', max, ss, lo + s);
      if ended { return; }
      s := s + 1;
    }
    if |out'| == max {
      ListedEnd(v.g.kind, ss, (lo + s) * 16, acc', valid', out', max);
      ended := true;
    }
  }

  method ListSector(v: Volume, acc: Bytes, valid: bool, out: seq<DirEntry>, max: nat, ghost ss: seq<Slot>, ghost n: nat)
    returns (ended: bool, acc': Bytes, valid': bool, out': seq<DirEntry>)
    requires v.buf.Length == 512 && n * 16 + 16 <= |ss|
    requires forall j :: 0 <= j < 16 ==> ss[n * 16 + j] == SlotIn(v.buf[..], j)
    requires Listed(v.g.kind, ss, n * 16, acc, valid, out, max)
    ensures ended ==> out' == ReadDirList(v.g.kind, ss, Zeros(260), false, max)
    ensures !ended ==> Listed(v.g.kind, ss, n * 16 + 16, acc', valid', out', max)
  {
    hide SlotIn, Listed, Extract, ListedName, FirstOf, SizeOf, IsDirectory;
    ended, acc', valid', out' := false, acc, valid, out;
    var j := 0;
    while j < 16 && |out'| < max
      invariant j <= 16 && |acc'| == 260 && |out'| <= max
      invariant Listed(v.g.kind, ss, n * 16 + j, acc', valid', out', max)
    {
      var s := SlotIn(v.buf[..], j);
      ListedStep(v.g.kind, ss, n * 16 + j, acc', valid', out', max);
      if IsEnd(s) { return true, acc', valid', out'; }
      if IsGone(s) {
        acc', valid' := Zeros(260), false;
      } else if IsLfn(s) {
        acc', valid' := Extract(s, acc'), true;
      } else if IsLabel(s) {
        valid' := false;
      } else {
        out' := out' + [DirEntry(ListedName(s, acc', valid'), IsDirectory(s), FirstOf(v.g.kind, s), SizeOf(s))];
        acc', valid' := Zeros(260), false;
      }
      j := j + 1;
    }
    if |out'| == max {
      ListedEnd(v.g.kind, ss, n * 16 + j, acc', valid', out', max);
      ended := true;
    }
  }

  lemma ListedStep(kind: FatType, ss: seq<Slot>, k: nat, acc: Bytes, valid: bool, out: seq<DirEntry>, max: nat)
    requires Listed(kind, ss, k, acc, valid, out, max) && k < |ss| && |out| < max
    ensures |acc| == 260
    ensures var s := ss[k];
            if IsEnd(s) then out == ReadDirList(kind, ss, Zeros(260), false, max)
            else if IsGone(s) then Listed(kind, ss, k + 1, Zeros(260), false, out, max)
            else if IsLfn(s) then Listed(kind, ss, k + 1, Extract(s, acc), true, out, max)
            else if IsLabel(s) then Listed(kind, ss, k + 1, acc, false, out, max)
            else Listed(kind, ss, k + 1, Zeros(260), false,
                        out + [DirEntry(ListedName(s, acc, valid), IsDirectory(s), FirstOf(kind, s), SizeOf(s))], max)
  {
    hide ReadDirList, Extract, ListedName, FirstOf, SizeOf, IsDirectory, IsEnd, IsGone, IsLfn, IsLabel;
    assert ss[k..] == [ss[k]] + ss[k + 1..];
    ReadCons(kind, ss[k], ss[k + 1..], acc, valid, max - |out|);
  }

  // ---- FatFindEntry ----------------------------------------------------------

  /** The state of a search: the remaining slots decide the outcome. */
  ghost predicate Seeking(ss: seq<Slot>, k: nat, name: Name, acc: Bytes, valid: bool, start: nat)
    ensures Seeking(ss, k, name, acc, valid, start) ==> k <= |ss| && |acc| == 260
  {
    && k <= |ss| && |acc| == 260 && (valid ==> start < k)
    && FindEntry(ss[k..], name, acc, valid, start, k) == FindEntry(ss, name, Zeros(260), false, 0, 0)
  }

  /** Where the search stands: accumulator, and the start of the gathered run. */
  datatype Seek = Seek(acc: Bytes, valid: bool, startSec: nat, startOff: nat, ghost start: nat)

  /** A found entry and, when a long name precedes it, the start of its run. */
  datatype Place = Place(sec: nat, off: nat, slot: Slot, hasRun: bool, runSec: nat, runOff: nat)

  ghost predicate PlaceOf(secs: seq<nat>, ss: seq<Slot>, f: Found, p: Place) {
    && f.start <= f.entry < |ss| && PlacedAt(secs, f.entry, p.sec, p.off) && p.slot == ss[f.entry]
    && (if p.hasRun then PlacedAt(secs, f.start, p.runSec, p.runOff) else f.start == f.entry)
  }

  method FindDirEntry(v: Volume, head: nat, name: Name, ghost cs: seq<nat>) returns (found: bool, place: Place, ghost f: Found)
    requires IsDir(v, head, cs)
    modifies v.buf
    ensures FindEntry(Slots(v, head, cs), name, Zeros(260), false, 0, 0) == if found then Some(f) else None
    ensures found ==> PlaceOf(Sectors(v, head, cs), Slots(v, head, cs), f, place)
  {
    hide FatOf, Mirrored, DirSectors, DirChain, SlotsOf, Seeking, IsRun, FindEntry, PlacedAt;
    ghost var ss := Slots(v, head, cs);
    ghost var secs := Sectors(v, head, cs);
    found, place, f := false, Place(0, 0, Zeros(32), false, 0, 0), Found(0, 0);
    var at := Seek(Zeros(260), false, 0, 0, 0);
    var cluster, done := head, false;
    ghost var i := 0;
    ghost var gs := GroupSize(v.g, head);
    CursorStart(v, head, cs);
    SeekingStart(ss, name);
    while !done
      invariant IsDir(v, head, cs) && v.disk == old(v.disk) && !found
      invariant Cursor(v, head, cs, i, cluster, done)
      invariant i <= GroupCount(v.g, head, cs)
      invariant Seeking(ss, Steps(i, gs) * 16, name, at.acc, at.valid, at.start)
      invariant at.valid ==> PlacedAt(secs, at.start, at.startSec, at.startOff)
      decreases GroupCount(v.g, head, cs) - i
    {
      var more, base, count, cluster', done' := NextGroup(v, head, cluster, cs, i);
      if !more { break; }
      var stop;
      stop, found, at, place, f := SeekGroup(v, base, count, name, at, secs, ss, Steps(i, gs));
      if stop { return; }
      cluster, done, i := cluster', done', i + 1;
    }
    CursorEnd(v, head, cs, i, cluster, done);
    SeekingEnd(ss, name, at.acc, at.valid, at.start);
  }

  lemma SeekingStart(ss: seq<Slot>, name: Name)
    ensures Seeking(ss, 0, name, Zeros(260), false, 0)
  {
    hide FindEntry;
    assert ss[0..] == ss;
  }

  lemma SeekingEnd(ss: seq<Slot>, name: Name, acc: Bytes, valid: bool, start: nat)
    requires Seeking(ss, |ss|, name, acc, valid, start)
    ensures FindEntry(ss, name, Zeros(260), false, 0, 0) == None
  {
    assert ss[|ss|..] == [];
  }

  method SeekGroup(v: Volume, base: nat, count: nat, name: Name, at: Seek,
                   ghost secs: seq<nat>, ghost ss: seq<Slot>, ghost lo: nat)
    returns (stop: bool, hit: bool, at': Seek, place: Place, ghost f: Found)
    requires v.Valid() && OnDisk(v.disk, secs) && ss == SlotsOf(v.disk, secs) && IsRun(secs, lo, base, count)
    requires Seeking(ss, lo * 16, name, at.acc, at.valid, at.start)
    requires at.valid ==> PlacedAt(secs, at.start, at.startSec, at.startOff)
    modifies v.buf
    ensures stop ==> FindEntry(ss, name, Zeros(260), false, 0, 0) == if hit then Some(f) else None
    ensures stop && hit ==> PlaceOf(secs, ss, f, place)
    ensures !stop ==> !hit && Seeking(ss, (lo + count) * 16, name, at'.acc, at'.valid, at'.start)
    ensures !stop && at'.valid ==> PlacedAt(secs, at'.start, at'.startSec, at'.startOff)
  {
    hide FatOf, Mirrored, SlotsOf, SlotIn, IsRun, Seeking, FindEntry, PlaceOf, PlacedAt;
    stop, hit, at', place, f := false, false, at, Place(0, 0, Zeros(32), false, 0, 0), Found(0, 0);
    var s := 0;
    while s < count
      invariant s <= count && v.Valid() && v.disk == old(v.disk) && lo + count <= |secs| && !hit
      invariant Seeking(ss, (lo + s) * 16, name, at'.acc, at'.valid, at'.start)
      invariant at'.valid ==> PlacedAt(secs, at'.start, at'.startSec, at'.startOff)
    {
      RunAt(secs, lo, base, count, s);
      LoadDirSector(v, base + s, secs, lo + s);
      stop, hit, at', place, f := SeekSector(v, base + s, name, at', secs, ss, lo + s);
      if stop { return; }
      s := s + 1;
    }
  }

  method SeekSector(v: Volume, sec: nat, name: Name, at: Seek, ghost secs: seq<nat>, ghost ss: seq<Slot>, ghost n: nat)
    returns (stop: bool, hit: bool, at': Seek, place: Place, ghost f: Found)
    requires v.buf.Length == 512 && n < |secs| && sec == secs[n] && |ss| == |secs| * 16
    requires forall j :: 0 <= j < 16 ==> ss[n * 16 + j] == SlotIn(v.buf[..], j)
    requires Seeking(ss, n * 16, name, at.acc, at.valid, at.start)
    requires at.valid ==> PlacedAt(secs, at.start, at.startSec, at.startOff)
    ensures stop ==> FindEntry(ss, name, Zeros(260), false, 0, 0) == if hit then Some(f) else None
    ensures stop && hit ==> PlaceOf(secs, ss, f, place)
    ensures !stop ==> !hit && Seeking(ss, n * 16 + 16, name, at'.acc, at'.valid, at'.start)
    ensures !stop && at'.valid ==> PlacedAt(secs, at'.start, at'.startSec, at'.startOff)
  {
    hide SlotIn, Seeking, FindEntry, Extract, Hit, PlacedAt;
    stop, hit, at', place, f := false, false, at, Place(0, 0, Zeros(32), false, 0, 0), Found(0, 0);
    var j := 0;
    while j < 16
      invariant j <= 16 && !hit && !stop
      invariant Seeking(ss, n * 16 + j, name, at'.acc, at'.valid, at'.start)
      invariant at'.valid ==> PlacedAt(secs, at'.start, at'.startSec, at'.startOff)
    {
      var s := SlotIn(v.buf[..], j);
      ghost var k := n * 16 + j;
      SeekingStep(ss, k, name, at'.acc, at'.valid, at'.start);
      SlotPlaced(secs, n, j);
      if IsEnd(s) { stop := true; return; }
      if IsGone(s) {
        at' := at'.(acc := Zeros(260), valid := false);
      } else if IsLfn(s) {
        if s[0] / 64 % 2 == 1 {
          at' := Seek(Zeros(260), true, sec, j * 32, k);
        }
        if at'.valid { at' := at'.(acc := Extract(s, at'.acc)); }
      } else if IsLabel(s) {
        at' := at'.(acc := Zeros(260), valid := false);
      } else if Hit(s, name, at'.acc, at'.valid) {
        stop, hit := true, true;
        place := Place(sec, j * 32, s, at'.valid, at'.startSec, at'.startOff);
        f := Found(if at'.valid then at'.start else k, k);
        return;
      } else {
        at' := at'.(acc := Zeros(260), valid := false);
      }
      j := j + 1;
    }
  }

  lemma SlotPlaced(secs: seq<nat>, n: nat, j: nat)
    requires n < |secs| && j < 16
    ensures PlacedAt(secs, n * 16 + j, secs[n], j * 32)
  {
    Remainder(n * 16 + j, 16, n, j);
  }

  lemma SeekingStep(ss: seq<Slot>, k: nat, name: Name, acc: Bytes, valid: bool, start: nat)
    requires Seeking(ss, k, name, acc, valid, start) && k < |ss|
    ensures |acc| == 260 && (valid ==> start < k)
    ensures var s := ss[k];
            var end := FindEntry(ss, name, Zeros(260), false, 0, 0);
            if IsEnd(s) then end == None
            else if IsGone(s) || (!IsLfn(s) && IsLabel(s)) then Seeking(ss, k + 1, name, Zeros(260), false, start)
            else if IsLfn(s) then
              if s[0] / 64 % 2 == 1 then Seeking(ss, k + 1, name, Extract(s, Zeros(260)), true, k)
              else Seeking(ss, k + 1, name, if valid then Extract(s, acc) else acc, valid, start)
            else if Hit(s, name, acc, valid) then end == Some(Found(if valid then start else k, k))
            else Seeking(ss, k + 1, name, Zeros(260), false, start)
  {
    hide FindEntry, Extract, Hit, IsEnd, IsGone, IsLfn, IsLabel;
    assert ss[k..] == [ss[k]] + ss[k + 1..];
    FindCons(ss[k], ss[k + 1..], name, acc, valid, start, k);
  }

  // ---- FatFindFreeSlots ------------------------------------------------------

  /** The free-slot scan of group `i` settles on `o`. */
  ghost predicate GroupHas(ss: seq<Slot>, i: nat, gs: nat, needed: nat, o: Option<nat>)
    requires 1 <= needed
    ensures GroupHas(ss, i, gs, needed, o) ==> Steps(i + 1, gs) * 16 <= |ss|
  {
    && Steps(i + 1, gs) * 16 <= |ss|
    && FreeRun(ss[Steps(i, gs) * 16..Steps(i + 1, gs) * 16], needed, 0, 0) == o
  }

  /** The slot FatFindFreeSlots settles on, looking through the groups from `i` on;
      the number of slots when it finds none and the directory has to grow. */
  ghost function TargetSlot(ss: seq<Slot>, gs: nat, needed: nat, i: nat, count: nat): (p: nat)
    requires 1 <= needed && |ss| == Steps(count, gs) * 16 && i <= count
    decreases count - i
  {
    if i == count then |ss|
    else
      StepsApart(i, count, gs);
      match FreeRun(ss[Steps(i, gs) * 16..Steps(i + 1, gs) * 16], needed, 0, 0)
      case Some(k) => Steps(i, gs) * 16 + k
      case None => TargetSlot(ss, gs, needed, i + 1, count)
  }

  lemma {:induction false} TargetIs(ss: seq<Slot>, gs: nat, needed: nat, j: nat, i: nat, count: nat, k: nat)
    requires 1 <= needed && |ss| == Steps(count, gs) * 16 && j <= i <= count
    requires forall x :: j <= x < i ==> GroupHas(ss, x, gs, needed, None)
    requires i < count ==> GroupHas(ss, i, gs, needed, Some(k))
    ensures TargetSlot(ss, gs, needed, j, count) == if i == count then |ss| else Steps(i, gs) * 16 + k
    decreases i - j
  {
    hide FreeRun;
    if j < i {
      assert GroupHas(ss, j, gs, needed, None);
      TargetIs(ss, gs, needed, j + 1, i, count, k);
    }
  }

  /** Finds `needed` consecutive free slots in one group: the first group that has them. */
  method FindFreeSlots(v: Volume, head: nat, needed: nat, ghost cs: seq<nat>)
    returns (found: bool, sec: nat, off: nat, ghost i: nat, ghost k: nat)
    requires IsDir(v, head, cs) && 1 <= needed
    modifies v.buf
    ensures i <= GroupCount(v.g, head, cs) && (found <==> i < GroupCount(v.g, head, cs))
    ensures TargetSlot(Slots(v, head, cs), GroupSize(v.g, head), needed, 0, GroupCount(v.g, head, cs))
         == if found then Steps(i, GroupSize(v.g, head)) * 16 + k else |Slots(v, head, cs)|
    ensures found ==> GroupHas(Slots(v, head, cs), i, GroupSize(v.g, head), needed, Some(k))
    ensures found ==> PlacedAt(Sectors(v, head, cs), Steps(i, GroupSize(v.g, head)) * 16 + k, sec, off)
  {
    hide FatOf, Mirrored, DirSectors, DirChain, SlotsOf, IsRun, FreeRun, GroupHas, PlacedAt, GroupSize, TargetSlot;
    ghost var ss := Slots(v, head, cs);
    ghost var secs := Sectors(v, head, cs);
    ghost var gs := GroupSize(v.g, head);
    found, sec, off, i, k := false, 0, 0, 0, 0;
    var cluster, done := head, false;
    CursorStart(v, head, cs);
    while !done
      invariant IsDir(v, head, cs) && v.disk == old(v.disk) && !found
      invariant Cursor(v, head, cs, i, cluster, done) && i <= GroupCount(v.g, head, cs)
      invariant forall j :: 0 <= j < i ==> GroupHas(ss, j, gs, needed, None)
      decreases GroupCount(v.g, head, cs) - i
    {
      var more, base, count, cluster', done' := NextGroup(v, head, cluster, cs, i);
      if !more { break; }
      found, sec, off, k := RunInGroup(v, base, count, needed, secs, ss, Steps(i, gs));
      GroupIs(ss, i, gs, needed, if found then Some(k) else None);
      if found {
        TargetIs(ss, gs, needed, 0, i, GroupCount(v.g, head, cs), k);
        return;
      }
      cluster, done, i := cluster', done', i + 1;
    }
    TargetIs(ss, gs, needed, 0, i, GroupCount(v.g, head, cs), k);
  }

  lemma GroupIs(ss: seq<Slot>, i: nat, gs: nat, needed: nat, o: Option<nat>)
    requires 1 <= needed && (Steps(i, gs) + gs) * 16 <= |ss|
    requires FreeRun(ss[Steps(i, gs) * 16..(Steps(i, gs) + gs) * 16], needed, 0, 0) == o
    ensures GroupHas(ss, i, gs, needed, o)
  {
  }

  method RunInGroup(v: Volume, base: nat, count: nat, needed: nat, ghost secs: seq<nat>, ghost ss: seq<Slot>, ghost lo: nat)
    returns (hit: bool, sec: nat, off: nat, ghost k: nat)
    requires v.Valid() && OnDisk(v.disk, secs) && ss == SlotsOf(v.disk, secs) && IsRun(secs, lo, base, count)
    requires 1 <= needed
    modifies v.buf
    ensures (lo + count) * 16 <= |ss|
    ensures FreeRun(ss[lo * 16..(lo + count) * 16], needed, 0, 0) == if hit then Some(k) else None
    ensures hit ==> PlacedAt(secs, lo * 16 + k, sec, off)
  {
    hide FatOf, Mirrored, SlotsOf, SlotIn, IsRun, FreeRun, PlacedAt;
    ghost var g := ss[lo * 16..(lo + count) * 16];
    hit, sec, off, k := false, 0, 0, 0;
    var run: nat, runSec: nat, runOff: nat := 0, 0, 0;
    var s := 0;
    while s < count
      invariant s <= count && v.Valid() && v.disk == old(v.disk) && lo + count <= |secs|
      invariant run <= s * 16 && run < needed && !hit
      invariant FreeRun(g, needed, 0, 0) == FreeRun(g, needed, s * 16, run)
      invariant run != 0 ==> PlacedAt(secs, lo * 16 + s * 16 - run, runSec, runOff)
    {
      RunAt(secs, lo, base, count, s);
      LoadDirSector(v, base + s, secs, lo + s);
      var stop;
      stop, hit, run, runSec, runOff, k := RunInSector(v, base + s, s, count, needed, run, runSec, runOff, secs, ss, g, lo);
      if stop { sec, off := runSec, runOff; return; }
      s := s + 1;
    }
    assert |g| == s * 16;
    FreeRunOver(g, needed, run);
  }

  lemma FreeRunOver(g: seq<Slot>, needed: nat, run: nat)
    requires run <= |g| && run < needed
    ensures FreeRun(g, needed, |g|, run) == None
  {
  }

  method RunInSector(v: Volume, sec: nat, s: nat, count: nat, needed: nat, run: nat, runSec: nat, runOff: nat,
                     ghost secs: seq<nat>, ghost ss: seq<Slot>, ghost g: seq<Slot>, ghost lo: nat)
    returns (stop: bool, hit: bool, run': nat, runSec': nat, runOff': nat, ghost k: nat)
    requires v.buf.Length == 512 && s < count && lo + count <= |secs| && |ss| == |secs| * 16 && sec == secs[lo + s]
    requires g == ss[lo * 16..(lo + count) * 16]
    requires forall j :: 0 <= j < 16 ==> ss[(lo + s) * 16 + j] == SlotIn(v.buf[..], j)
    requires run <= s * 16 && run < needed
    requires FreeRun(g, needed, 0, 0) == FreeRun(g, needed, s * 16, run)
    requires run != 0 ==> PlacedAt(secs, lo * 16 + s * 16 - run, runSec, runOff)
    ensures stop ==> FreeRun(g, needed, 0, 0) == if hit then Some(k) else None
    ensures stop && hit ==> PlacedAt(secs, lo * 16 + k, runSec', runOff')
    ensures !stop ==> !hit && run' <= s * 16 + 16 && run' < needed && FreeRun(g, needed, 0, 0) == FreeRun(g, needed, s * 16 + 16, run')
    ensures !stop && run' != 0 ==> PlacedAt(secs, lo * 16 + s * 16 + 16 - run', runSec', runOff')
  {
    hide SlotIn, FreeRun, PlacedAt;
    stop, hit, run', runSec', runOff', k := false, false, run, runSec, runOff, 0;
    var j := 0;
    while j < 16
      invariant j <= 16 && !stop && !hit && run' <= s * 16 + j && run' < needed
      invariant FreeRun(g, needed, 0, 0) == FreeRun(g, needed, s * 16 + j, run')
      invariant run' != 0 ==> PlacedAt(secs, lo * 16 + s * 16 + j - run', runSec', runOff')
    {
      var b := SlotIn(v.buf[..], j);
      ghost var p := s * 16 + j;
      assert g[p] == b;
      FreeRunStep(g, needed, p, run');
      SlotPlaced(secs, lo + s, j);
      if IsEnd(b) {
        if run' == 0 { runSec', runOff' := sec, j * 32; }
        var left := ((count - s) * 512 - j * 32) / 32;
        stop, hit, k := true, left >= needed, p - run';
        return;
      }
      if IsGone(b) {
        if run' == 0 { runSec', runOff' := sec, j * 32; }
        run' := run' + 1;
        if run' == needed {
          stop, hit, k := true, true, p + 1 - needed;
          return;
        }
      } else {
        run' := 0;
      }
      j := j + 1;
    }
  }

  lemma FreeRunStep(g: seq<Slot>, needed: nat, k: nat, run: nat)
    requires run <= k < |g| && run < needed
    ensures FreeRun(g, needed, k, run)
         == if IsEnd(g[k]) then (if |g| - k >= needed then Some(k - run) else None)
            else if IsGone(g[k]) then (if run + 1 == needed then Some(k + 1 - needed) else FreeRun(g, needed, k + 1, run + 1))
            else FreeRun(g, needed, k + 1, 0)
  {
  }
}
