/** Storing directory entries: writing a run of slots, erasing one, growing a directory. */
module FatEntries {
  import opened Basics
  import opened Arith
  import opened FatDisk
  import opened FatCells
  import opened FatWords
  import opened FatChains
  import opened FatTables
  import opened FatData
  import opened FatNames
  import opened FatDir
  import opened FatItems
  import opened FatSlots
  import opened FatEdits
  import opened FatVolume
  import opened FatDirectory

  /** Sectors an operation on a directory may write: distinct, on the disk, behind the FAT. */
  ghost predicate Writable(d: Disk, g: Geometry, secs: seq<nat>) {
    OnDisk(d, secs) && Distinct(secs) && forall k :: 0 <= k < |secs| ==> g.rootStart <= secs[k]
  }

  /** The slot behind slot `k`, in the driver's sector and byte arithmetic. */
  lemma NextPlace(secs: seq<nat>, p: nat, k: nat, q: nat, sec: nat, off: nat)
    requires p <= k < q && q / 16 < |secs| && Adjacent(secs, p, q) && PlacedAt(secs, k, sec, off)
    ensures off <= 480
    ensures if off + 32 >= 512 then PlacedAt(secs, k + 1, sec + 1, 0) else PlacedAt(secs, k + 1, sec, off + 32)
  {
    var n, j := k / 16, k % 16;
    if j == 15 {
      Remainder(k + 1, 16, n + 1, 0);
    } else {
      Remainder(k + 1, 16, n, j + 1);
    }
  }

  /** Reads a sector, replaces one slot, writes it back. */
  method StoreSlot(v: Volume, sec: nat, off: nat, slot: Slot, ghost secs: seq<nat>, ghost k: nat)
    requires v.Valid() && Writable(v.disk, v.g, secs) && PlacedAt(secs, k, sec, off)
    modifies v`disk, v.buf
    ensures v.Valid() && v.Fat() == old(v.Fat()) && Writable(v.disk, v.g, secs)
    ensures SlotsOf(v.disk, secs) == SlotsOf(old(v.disk), secs)[k := slot]
    ensures OnlyStreamChanged(old(v.disk), v.disk, secs)
  {
    hide FatOf, Mirrored, SlotsOf, PutSlot, SlotIn;
    v.ReadSector(sec);
    ghost var j := k % 16;
    SlotStored(v.disk, secs, k / 16, j, slot);
    CopySlot(v, off, slot);
    assert v.buf[..] == PutSlot(v.disk[sec], j, slot);
    v.StoreDataSector(sec);
  }

  /** Copies one slot into the sector buffer. */
  method CopySlot(v: Volume, off: nat, slot: Slot)
    requires v.buf.Length == 512 && off % 32 == 0 && off <= 480
    modifies v.buf
    ensures v.buf[..] == PutSlot(old(v.buf[..]), off / 32, slot)
  {
    forall e | 0 <= e < 32 { v.buf[off + e] := slot[e]; }
  }

  /** FatWriteDirectoryEntries: the slots of an entry, one after the other, from
      slot `p` on. Without a long name only the 8.3 slot is written. */
  method WriteDirectoryEntries(v: Volume, sec: nat, off: nat, long: Option<Name>, short: Bytes,
                               attr: u8, first: nat, size: nat, ghost secs: seq<nat>, ghost p: nat)
    requires v.Valid() && Writable(v.disk, v.g, secs) && PlacedAt(secs, p, sec, off)
    requires |short| == 11 && (long.Some? ==> 1 <= |long.value| <= 255)
    requires p + |WrittenSlots(v.g.kind, long, short, attr, first, size)| <= |secs| * 16
    requires Adjacent(secs, p, p + |WrittenSlots(v.g.kind, long, short, attr, first, size)| - 1)
    modifies v`disk, v.buf
    ensures v.Valid() && v.Fat() == old(v.Fat()) && Writable(v.disk, v.g, secs)
    ensures OnlyStreamChanged(old(v.disk), v.disk, secs)
    ensures var ss, es := SlotsOf(old(v.disk), secs), WrittenSlots(v.g.kind, long, short, attr, first, size);
            SlotsOf(v.disk, secs) == ss[..p] + es + ss[p + |es|..]
  {
    hide FatOf, Mirrored, SlotsOf, LfnSlots, LfnSlot, ShortSlot, NeedLfn, PlacedAt, Adjacent, Checksum, WrittenSlots, LfnCount,
         OnlyStreamChanged;
    ghost var ss := SlotsOf(v.disk, secs);
    ghost var es := WrittenSlots(v.g.kind, long, short, attr, first, size);
    var lfnEntries, checksum := 0, 0;
    if long.Some? && NeedLfn(long.value) {
      lfnEntries, checksum := LfnCount(long.value), Checksum(short);
    }
    WrittenSize(v.g.kind, long, short, attr, first, size);
    SameStream(v.disk, secs);
    var needed := lfnEntries + 1;
    var curSec, curOff := sec, off;
    var i := 0;
    while i < needed
      invariant i <= needed == |es| && v.Valid() && v.Fat() == old(v.Fat()) && Writable(v.disk, v.g, secs)
      invariant OnlyStreamChanged(old(v.disk), v.disk, secs)
      invariant SlotsOf(v.disk, secs) == ss[..p] + es[..i] + ss[p + i..]
      invariant i < needed ==> PlacedAt(secs, p + i, curSec, curOff)
    {
      var entry: Slot;
      if i < lfnEntries {
        var idx := lfnEntries - 1 - i;
        entry := LfnSlot(long.value, LfnOrd(long.value, idx), checksum, idx * 13);
      } else {
        entry := ShortSlot(v.g.kind, short, attr, first, size);
      }
      WrittenAt(v.g.kind, long, short, attr, first, size, i);
      ghost var before := v.disk;
      StoreSlot(v, curSec, curOff, entry, secs, p + i);
      StreamChangesAdd(old(v.disk), before, v.disk, secs);
      OneMoreSlot(ss, es, p, i);
      if i + 1 < needed {
        NextPlace(secs, p, p + i, p + needed - 1, curSec, curOff);
      }
      curOff := curOff + 32;
      if curOff >= 512 {
        curSec, curOff := curSec + 1, 0;
      }
      i := i + 1;
    }
    assert es[..needed] == es;
  }

  function WrittenSlots(kind: FatType, long: Option<Name>, short: Bytes, attr: u8, first: nat, size: nat): seq<Slot>
    requires |short| == 11 && (long.Some? ==> |long.value| <= 255)
  {
    (if long.Some? && NeedLfn(long.value) then LfnSlots(long.value, Checksum(short), LfnCount(long.value)) else [])
    + [ShortSlot(kind, short, attr, first, size)]
  }

  /** How many long-name slots a name takes. */
  function LongCount(long: Option<Name>): nat {
    if long.Some? && NeedLfn(long.value) then LfnCount(long.value) else 0
  }

  lemma WrittenSize(kind: FatType, long: Option<Name>, short: Bytes, attr: u8, first: nat, size: nat)
    requires |short| == 11 && (long.Some? ==> |long.value| <= 255)
    ensures |WrittenSlots(kind, long, short, attr, first, size)| == LongCount(long) + 1
  {
    hide ShortSlot, NeedLfn, LfnCount;
  }

  lemma WrittenAt(kind: FatType, long: Option<Name>, short: Bytes, attr: u8, first: nat, size: nat, i: nat)
    requires |short| == 11 && (long.Some? ==> |long.value| <= 255)
    requires i < |WrittenSlots(kind, long, short, attr, first, size)|
    ensures WrittenSlots(kind, long, short, attr, first, size)[i]
         == if i < LongCount(long) then
              LfnSlot(long.value, LfnOrd(long.value, LongCount(long) - 1 - i), Checksum(short), (LongCount(long) - 1 - i) * 13)
            else ShortSlot(kind, short, attr, first, size)
  {
    hide ShortSlot, NeedLfn, LfnCount, LfnSlot, LfnOrd, Checksum;
    if long.Some? && NeedLfn(long.value) && i < LfnCount(long.value) {
      LfnSlotsAt(long.value, Checksum(short), LfnCount(long.value), i);
    }
  }

  lemma SameStream(d: Disk, secs: seq<nat>)
    ensures OnlyStreamChanged(d, d, secs)
  {
  }

  lemma StreamChangesAdd(d: Disk, d1: Disk, d2: Disk, secs: seq<nat>)
    requires OnlyStreamChanged(d, d1, secs) && OnlyStreamChanged(d1, d2, secs)
    ensures OnlyStreamChanged(d, d2, secs)
  {
  }

  lemma {:induction false} LfnSlotsAt(name: Name, checksum: u8, n: nat, i: nat)
    requires |name| <= 255 && i < n <= LfnCount(name)
    ensures LfnSlots(name, checksum, n)[i] == LfnSlot(name, LfnOrd(name, n - 1 - i), checksum, 13 * (n - 1 - i))
  {
    hide LfnSlot, LfnOrd, LfnCount;
    if i > 0 {
      LfnSlotsAt(name, checksum, n - 1, i - 1);
    }
  }

  lemma OneMoreSlot(ss: seq<Slot>, es: seq<Slot>, p: nat, i: nat)
    requires i < |es| && p + |es| <= |ss|
    ensures (ss[..p] + es[..i] + ss[p + i..])[p + i := es[i]] == ss[..p] + es[..i + 1] + ss[p + i + 1..]
  {
  }

  /** The erasing loop of Fat32DeleteFile. It ends because the run from slot `f.start`
      to slot `f.entry` lies in neighbouring sectors. */
  method EraseRun(v: Volume, place: Place, ghost secs: seq<nat>, ghost f: Found)
    requires v.Valid() && Writable(v.disk, v.g, secs) && 2 <= v.g.rootStart
    requires PlaceOf(secs, SlotsOf(v.disk, secs), f, place) && Adjacent(secs, f.start, f.entry)
    modifies v`disk, v.buf
    ensures v.Valid() && v.Fat() == old(v.Fat()) && Writable(v.disk, v.g, secs)
    ensures OnlyStreamChanged(old(v.disk), v.disk, secs)
    ensures ErasedRun(SlotsOf(old(v.disk), secs), SlotsOf(v.disk, secs), f.start, f.entry + 1)
  {
    hide FatOf, Mirrored, SlotsOf, PlacedAt, Adjacent, Erased;
    if !place.hasRun {
      EraseSlot(v, place.sec, place.off, secs, f.entry);
      return;
    }
    var curSec, curOff := place.runSec, place.runOff;
    ghost var k := f.start;
    while true
      invariant f.start <= k <= f.entry && v.Valid() && v.Fat() == old(v.Fat()) && Writable(v.disk, v.g, secs)
      invariant OnlyStreamChanged(old(v.disk), v.disk, secs)
      invariant ErasedRun(SlotsOf(old(v.disk), secs), SlotsOf(v.disk, secs), f.start, k)
      invariant PlacedAt(secs, k, curSec, curOff)
      decreases f.entry - k
    {
      EraseSlot(v, curSec, curOff, secs, k);
      SamePlace(secs, k, f.entry, curSec, curOff, place.sec, place.off);
      if curSec == place.sec && curOff == place.off { return; }
      NextPlace(secs, f.start, k, f.entry, curSec, curOff);
      curOff := curOff + 32;
      if curOff >= 512 {
        curSec, curOff := curSec + 1, 0;
      }
      k := k + 1;
    }
  }

  /** Slots `a` up to `b` are erased, all others are as before. */
  ghost predicate ErasedRun(ss: seq<Slot>, ss': seq<Slot>, a: nat, b: nat) {
    |ss'| == |ss| && forall k :: 0 <= k < |ss| ==> ss'[k] == if a <= k < b then Erased(ss[k]) else ss[k]
  }

  /** A place belongs to one slot. */
  lemma SamePlace(secs: seq<nat>, a: nat, b: nat, sec: nat, off: nat, sec': nat, off': nat)
    requires Distinct(secs) && PlacedAt(secs, a, sec, off) && PlacedAt(secs, b, sec', off')
    ensures sec == sec' && off == off' <==> a == b
  {
    if sec == sec' && off == off' {
      assert a / 16 == b / 16;
    }
  }

  method EraseSlot(v: Volume, sec: nat, off: nat, ghost secs: seq<nat>, ghost k: nat)
    requires v.Valid() && Writable(v.disk, v.g, secs) && PlacedAt(secs, k, sec, off)
    modifies v`disk, v.buf
    ensures v.Valid() && v.Fat() == old(v.Fat()) && Writable(v.disk, v.g, secs)
    ensures OnlyStreamChanged(old(v.disk), v.disk, secs)
    ensures k < |SlotsOf(old(v.disk), secs)|
    ensures SlotsOf(v.disk, secs) == SlotsOf(old(v.disk), secs)[k := Erased(SlotsOf(old(v.disk), secs)[k])]
  {
    hide FatOf, Mirrored, SlotsOf, SlotIn;
    SlotOf(v.disk, secs, k / 16, k % 16);
    v.ReadSector(sec);
    StoreSlot(v, sec, off, Erased(SlotAt(v, off)), secs, k);
  }

  function SlotAt(v: Volume, off: nat): Slot
    requires v.buf.Length == 512 && off % 32 == 0 && off <= 480
    reads v, v.buf
  {
    SlotIn(v.buf[..], off / 32)
  }
}
