/** Directories: 32-byte slots, the scans the driver runs over them, and the
    items (entries with their long-name slots, erased slots, labels) they stand for. */
module FatDir {
  import opened Basics
  import opened Arith
  import opened FatDisk
  import opened FatCells
  import opened FatWords
  import opened FatData
  import opened FatNames


  const ARCHIVE: u8 := 0x20
  const DIRECTORY: u8 := 0x10

  predicate IsEnd(s: Slot) { s[0] == 0 }
  predicate IsGone(s: Slot) { s[0] == 0xE5 }
  predicate IsLfn(s: Slot) { s[11] % 16 == 15 }
  predicate IsLabel(s: Slot) { s[11] / 8 % 2 == 1 }
  predicate IsEntry(s: Slot) { !IsEnd(s) && !IsGone(s) && !IsLfn(s) && !IsLabel(s) }

  function Raw(s: Slot): Bytes { s[..11] }
  function IsDirectory(s: Slot): bool { s[11] / 16 % 2 == 1 }
  function SizeOf(s: Slot): nat { U32(s, 28) }
  function FirstOf(kind: FatType, s: Slot): nat {
    U16(s, 26) + if kind.Fat32? then 0x1_0000 * U16(s, 20) else 0
  }

  /** What Fat32ReadDir reports of an entry. */
  datatype DirEntry = DirEntry(name: Name, isDir: bool, first: nat, size: nat)

  // ---- the scans -----------------------------------------------------------

  function Shift(o: Option<nat>, n: nat): Option<nat> {
    match o case None => None case Some(k) => Some(k + n)
  }

  /** The scan of Fat32WriteFile: the first entry with these 11 bytes before the
      first free-forever slot. */
  function ScanShort(ss: seq<Slot>, short: Bytes): (r: Option<nat>)
    ensures r.Some? ==> r.value < |ss| && IsEntry(ss[r.value]) && Raw(ss[r.value]) == short
  {
    if ss == [] || IsEnd(ss[0]) then None
    else if IsEntry(ss[0]) && Raw(ss[0]) == short then Some(0)
    else Shift(ScanShort(ss[1..], short), 1)
  }

  /** The name Fat32ReadDir gives an entry: the long name gathered before it, if any. */
  function ListedName(s: Slot, acc: Bytes, valid: bool): Name
    requires |acc| == 260
  {
    var long := CString(acc);
    if valid && acc[0] != 0 then (if |long| > 255 then long[..255] else long) else CString(DisplayName(Raw(s)))
  }

  /** The scan of Fat32ReadDir, with the long-name accumulator it carries. */
  function ReadDirList(kind: FatType, ss: seq<Slot>, acc: Bytes, valid: bool, room: nat): seq<DirEntry>
    requires |acc| == 260
  {
    if ss == [] || room == 0 || IsEnd(ss[0]) then []
    else if IsGone(ss[0]) then ReadDirList(kind, ss[1..], Zeros(260), false, room)
    else if IsLfn(ss[0]) then ReadDirList(kind, ss[1..], Extract(ss[0], acc), true, room)
    else if IsLabel(ss[0]) then ReadDirList(kind, ss[1..], acc, false, room)
    else
      [DirEntry(ListedName(ss[0], acc, valid), IsDirectory(ss[0]), FirstOf(kind, ss[0]), SizeOf(ss[0]))]
      + ReadDirList(kind, ss[1..], Zeros(260), false, room - 1)
  }

  /** A found entry: its slot and the slot where its erasable run begins. */
  datatype Found = Found(start: nat, entry: nat)

  /** The scan of FatFindEntry. `k` is the number of the first slot of `ss`; `start`
      is meaningful while `valid`. */
  function FindEntry(ss: seq<Slot>, name: Name, acc: Bytes, valid: bool, start: nat, k: nat): Option<Found>
    requires |acc| == 260
  {
    if ss == [] || IsEnd(ss[0]) then None
    else if IsGone(ss[0]) || (!IsLfn(ss[0]) && IsLabel(ss[0])) then FindEntry(ss[1..], name, Zeros(260), false, start, k + 1)
    else if IsLfn(ss[0]) then
      if ss[0][0] / 64 % 2 == 1 then FindEntry(ss[1..], name, Extract(ss[0], Zeros(260)), true, k, k + 1)
      else FindEntry(ss[1..], name, if valid then Extract(ss[0], acc) else acc, valid, start, k + 1)
    else if (valid && acc[0] != 0 && EqualFold(CString(acc), name)) || EqualFold(CString(DisplayName(Raw(ss[0]))), name) then
      Some(Found(if valid then start else k, k))
    else FindEntry(ss[1..], name, Zeros(260), false, start, k + 1)
  }

  /** The scan of FatFindFreeSlots inside one group (a cluster, or the fixed root):
      the start of the run it settles on. */
  function FreeRun(g: seq<Slot>, needed: nat, k: nat, run: nat): (r: Option<nat>)
    requires run <= k <= |g| && run < needed
    decreases |g| - k
  {
    if k == |g| then None
    else if IsEnd(g[k]) then (if |g| - k >= needed then Some(k - run) else None)
    else if IsGone(g[k]) then (if run + 1 == needed then Some(k + 1 - needed) else FreeRun(g, needed, k + 1, run + 1))
    else FreeRun(g, needed, k + 1, 0)
  }

  /** After a free-forever slot a group holds nothing else. */
  ghost predicate ZeroTail(g: seq<Slot>) {
    forall i, j :: 0 <= i < j < |g| && IsEnd(g[i]) ==> IsEnd(g[j])
  }

  /** FatFindFreeSlots hands out only free slots of one group. */
  lemma {:induction false} FreeRunSafe(g: seq<Slot>, needed: nat, k: nat, run: nat)
    requires run <= k <= |g| && run < needed && ZeroTail(g)
    requires forall i :: k - run <= i < k ==> IsGone(g[i])
    ensures var r := FreeRun(g, needed, k, run);
            r.Some? ==> r.value + needed <= |g| && k - run <= r.value
                        && forall i :: r.value <= i < r.value + needed ==> IsEnd(g[i]) || IsGone(g[i])
    decreases |g| - k
  {
    if k < |g| && !IsEnd(g[k]) {
      if IsGone(g[k]) {
        if run + 1 < needed { FreeRunSafe(g, needed, k + 1, run + 1); }
      } else {
        FreeRunSafe(g, needed, k + 1, 0);
      }
    }
  }

  /** `needed` free slots from slot `p` of the group on. */
  ghost predicate FreeAt(g: seq<Slot>, needed: nat, p: nat) {
    p + needed <= |g| && forall i :: p <= i < p + needed ==> IsEnd(g[i]) || IsGone(g[i])
  }

  /** The free-forever slots of the group are fewer than needed, the first of them `e`. */
  ghost predicate ShortEnd(g: seq<Slot>, needed: nat, e: nat) {
    e < |g| && IsEnd(g[e]) && |g| - e < needed && forall i :: 0 <= i < e ==> !IsEnd(g[i])
  }

  /** The run FatFindFreeSlots settles on is the first one in the group; it finds none exactly when there
      is none, or when every one there is runs into too few free-forever slots at the end of the group. */
  lemma FirstRun(g: seq<Slot>, needed: nat)
    requires ZeroTail(g) && 1 <= needed
    ensures match FreeRun(g, needed, 0, 0)
            case Some(r) => FreeAt(g, needed, r) && forall p: nat :: p < r ==> !FreeAt(g, needed, p)
            case None => forall p: nat :: FreeAt(g, needed, p) ==> IsEnd(g[p + needed - 1]) && exists e :: ShortEnd(g, needed, e)
  {
    RunFrom(g, needed, 0, 0);
  }

  lemma {:induction false} RunFrom(g: seq<Slot>, needed: nat, k: nat, run: nat)
    requires run <= k <= |g| && run < needed && ZeroTail(g)
    requires (forall i :: k - run <= i < k ==> IsGone(g[i])) && (forall i :: 0 <= i < k ==> !IsEnd(g[i]))
    requires forall p: nat :: p < k - run ==> !FreeAt(g, needed, p)
    ensures match FreeRun(g, needed, k, run)
            case Some(r) => FreeAt(g, needed, r) && forall p: nat :: p < r ==> !FreeAt(g, needed, p)
            case None => forall p: nat :: FreeAt(g, needed, p) ==> IsEnd(g[p + needed - 1]) && exists e :: ShortEnd(g, needed, e)
    decreases |g| - k
  {
    hide IsEnd, IsGone;
    if k < |g| {
      if IsEnd(g[k]) {
        if |g| - k < needed {
          assert ShortEnd(g, needed, k);
          forall p: nat | FreeAt(g, needed, p) ensures IsEnd(g[p + needed - 1]) { assert p >= k - run; }
        }
      } else if IsGone(g[k]) {
        if run + 1 < needed { RunFrom(g, needed, k + 1, run + 1); }
      } else {
        forall p: nat | p < k + 1 ensures !FreeAt(g, needed, p) {
          if p >= k - run { assert p <= k < p + needed; }
        }
        RunFrom(g, needed, k + 1, 0);
      }
    }
  }

  // ---- entries -------------------------------------------------------------

  /** The 8.3 slot FatWriteDirectoryEntries builds. */
  function ShortSlot(kind: FatType, short: Bytes, attr: u8, first: nat, size: nat): Slot
    requires |short| == 11
  {
    var blank := short + [attr] + Zeros(20);
    var hi := if kind.Fat32? then SetU16(blank, 20, first / 0x1_0000) else blank;
    SetU32(SetU16(hi, 26, first % 0x1_0000), 28, size)
  }

  /** A cluster number a slot can hold. */
  predicate Storable(kind: FatType, first: nat) {
    if kind.Fat32? then first < 0x1_0000_0000 else first < 0x1_0000
  }

  lemma ShortSlotFields(kind: FatType, short: Bytes, attr: u8, first: nat, size: nat)
    requires |short| == 11 && Storable(kind, first) && size < 0x1_0000_0000
    ensures var s := ShortSlot(kind, short, attr, first, size);
            && Raw(s) == short && s[11] == attr && s[0] == short[0]
            && FirstOf(kind, s) == first && SizeOf(s) == size
  {
    hide ShortSlot;
    var s := ShortSlot(kind, short, attr, first, size);
    SlotFormat(kind, short, attr, first, size);
    assert s[0] == s[..11][0];
  }

  /** The 32 bytes of an 8.3 entry: name, attribute, the high half of the first cluster in bytes 20 and 21 on FAT32
      and zero elsewhere, its low half in bytes 26 and 27, the size in bytes 28 to 31. */
  lemma SlotFormat(kind: FatType, short: Bytes, attr: u8, first: nat, size: nat)
    requires |short| == 11 && Storable(kind, first) && size < 0x1_0000_0000
    ensures var s := ShortSlot(kind, short, attr, first, size);
            && s[..11] == short && s[11] == attr
            && (forall i :: 12 <= i < 26 && !(20 <= i < 22) ==> s[i] == 0)
            && s[20] as int + 0x100 * s[21] as int == (if kind.Fat32? then first / 0x1_0000 else 0)
            && s[26] as int + 0x100 * s[27] as int == first % 0x1_0000
            && s[28] as int + 0x100 * s[29] as int + 0x1_0000 * s[30] as int + 0x100_0000 * s[31] as int == size
  {
    hide SetU16, SetU32, Zeros;
    var blank := short + [attr] + Zeros(20);
    var hi := if kind.Fat32? then SetU16(blank, 20, first / 0x1_0000) else blank;
    var lo := SetU16(hi, 26, first % 0x1_0000);
    var s := SetU32(lo, 28, size);
    BlankSlot(short, attr);
    Set16Keeps(blank, 20, first / 0x1_0000);
    Set16Keeps(hi, 26, first % 0x1_0000);
    Set32Keeps(lo, 28, size);
    assert U16(hi, 20) == if kind.Fat32? then first / 0x1_0000 else 0;
    assert s[20] == hi[20] && s[21] == hi[21] && s[26] == lo[26] && s[27] == lo[27];
    forall i | 12 <= i < 26 && !(20 <= i < 22) ensures s[i] == 0 { assert s[i] == lo[i] == hi[i] == blank[i]; }
    forall i | 0 <= i < 12 ensures s[i] == blank[i] { assert s[i] == lo[i] == hi[i]; }
    assert s[..11] == short;
  }

  lemma BlankSlot(short: Bytes, attr: u8)
    requires |short| == 11
    ensures var b := short + [attr] + Zeros(20);
            |b| == 32 && b[..11] == short && b[11] == attr && forall i :: 12 <= i < 32 ==> b[i] == 0
  {
  }

  lemma Set16Keeps(b: Bytes, o: nat, w: nat)
    requires o + 2 <= |b|
    ensures forall i :: 0 <= i < |b| && !(o <= i < o + 2) ==> SetU16(b, o, w)[i] == b[i]
  {
  }

  lemma Set32Keeps(b: Bytes, o: nat, w: nat)
    requires o + 4 <= |b|
    ensures forall i :: 0 <= i < |b| && !(o <= i < o + 4) ==> SetU32(b, o, w)[i] == b[i]
  {
  }
}
