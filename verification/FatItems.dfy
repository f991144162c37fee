/** A directory as a list of items, and what each scan of the driver makes of it. */
module FatItems {
  import opened Arith
  import opened FatDisk
  import opened FatCells
  import opened FatWords
  import opened FatData
  import opened FatNames
  import opened FatDir

  /** FatComputeChecksum: rotate right and add. */
  function Checksum(short: Bytes): u8 {
    if short == [] then 0
    else
      var sum := Checksum(short[..|short| - 1]);
      ((if sum % 2 == 1 then 0x80 else 0) + sum as int / 2 + short[|short| - 1] as int) % 256
  }

  datatype Item =
    | Entry(name: Name, attr: u8, first: nat, size: nat)   // with its long-name slots
    | Gone(slot: Slot)                                     // erased
    | Label(slot: Slot)                                    // volume label
    | Dots(slot: Slot)                                     // "." or ".."

  const DOT_RAW: Bytes := [DOT] + Spaces(10)
  const DOT_DOT_RAW: Bytes := [DOT, DOT] + Spaces(9)

  function Spaces(n: nat): Bytes { seq(n, i => SPACE) }

  /** Names whose entries every scan can find again: not ".", "..", "..." (whose 8.3
      form collides with the dot entries), and not starting with the erased mark. */
  predicate GoodName(name: Name) {
    1 <= |name| <= 255 && name[0] != 0xE5
    && ShortName(name) != Spaces(11) && ShortName(name) != DOT_RAW && ShortName(name) != DOT_DOT_RAW
  }

  predicate ItemOk(kind: FatType, it: Item) {
    match it
    case Entry(name, attr, first, size) =>
      GoodName(name) && (attr == ARCHIVE || attr == DIRECTORY) && Storable(kind, first) && size < 0x1_0000_0000
    case Gone(s) => IsGone(s)
    case Label(s) => !IsEnd(s) && !IsGone(s) && !IsLfn(s) && IsLabel(s)
    case Dots(s) => IsEntry(s) && IsDirectory(s) && (Raw(s) == DOT_RAW || Raw(s) == DOT_DOT_RAW)
  }

  function LongSlots(name: Name): seq<Slot>
    requires |name| <= 255
  {
    if NeedLfn(name) then LfnSlots(name, Checksum(ShortName(name)), LfnCount(name)) else []
  }

  /** The slots FatWriteDirectoryEntries fills for an entry. */
  function EntrySlots(kind: FatType, name: Name, attr: u8, first: nat, size: nat): (ss: seq<Slot>)
    requires |name| <= 255
  {
    LongSlots(name) + [ShortSlot(kind, ShortName(name), attr, first, size)]
  }

  /** The number of slots an entry needs, as Fat32WriteFile computes it. */
  function SlotsNeeded(name: Name): nat {
    if NeedLfn(name) then LfnCount(name) + 1 else 1
  }

  function ItemSlots(kind: FatType, it: Item): (ss: seq<Slot>)
    requires ItemOk(kind, it)
    ensures |ss| >= 1
    ensures it.Entry? ==> |ss| == SlotsNeeded(it.name)
  {
    match it
    case Entry(name, attr, first, size) => EntrySlots(kind, name, attr, first, size)
    case Gone(s) => [s]
    case Label(s) => [s]
    case Dots(s) => [s]
  }

  ghost predicate ItemsOk(kind: FatType, items: seq<Item>) {
    forall i :: 0 <= i < |items| ==> ItemOk(kind, items[i])
  }

  function Lay(kind: FatType, items: seq<Item>): seq<Slot>
    requires ItemsOk(kind, items)
  {
    if items == [] then [] else ItemSlots(kind, items[0]) + Lay(kind, items[1..])
  }

  /** Nothing is visible in `ss`. */
  ghost predicate Ended(ss: seq<Slot>) { ss == [] || IsEnd(ss[0]) }

  // ---- what an entry's slots look like --------------------------------------

  lemma LfnSlotLooks(name: Name, checksum: u8, j: nat)
    requires |name| <= 255 && j < LfnCount(name)
    ensures var s := LfnSlot(name, LfnOrd(name, j), checksum, 13 * j);
            IsLfn(s) && !IsEnd(s) && !IsGone(s) && !IsEntry(s) && s[0] == LfnOrd(name, j)
  {
    LaidHeader(Zeros(32)[0 := LfnOrd(name, j)][11 := LFN][13 := checksum], name, 13 * j, 13);
  }

  lemma ShortStart(name: Name)
    requires GoodName(name)
    ensures ShortName(name)[0] != 0 && ShortName(name)[0] != 0xE5
  {
    var d := LastDot(name, |name|);
  }

  /** The 8.3 slot of an entry is live and carries its fields. */
  lemma ShortSlotLooks(kind: FatType, it: Item)
    requires it.Entry? && ItemOk(kind, it)
    ensures var s := ShortSlot(kind, ShortName(it.name), it.attr, it.first, it.size);
            && IsEntry(s) && Raw(s) == ShortName(it.name)
            && IsDirectory(s) == (it.attr == DIRECTORY) && FirstOf(kind, s) == it.first && SizeOf(s) == it.size
  {
    hide ShortSlot, ShortName, FirstOf, SizeOf, Raw;
    ShortSlotFields(kind, ShortName(it.name), it.attr, it.first, it.size);
    ShortStart(it.name);
  }

  /** A name without zeros is its own C string. */
  lemma {:induction false} CStringWhole(name: Bytes)
    requires forall i :: 0 <= i < |name| ==> name[i] != 0
    ensures CString(name) == name
  {
    if name != [] {
      CStringWhole(name[1..]);
    }
  }

  /** `y` is `x` turned right by one bit, the lowest bit to the top: twice `y` is `x`, or 255 more. */
  predicate TurnedRight(x: u8, y: u8) { 2 * y as int == x as int + 255 * (x % 2) as int }

  /** One step of the checksum turns the sum and adds a byte. */
  lemma ChecksumStep(short: Bytes, c: u8)
    ensures exists y: u8 :: TurnedRight(Checksum(short), y) && Checksum(short + [c]) as int == (y as int + c as int) % 256
    ensures Checksum([]) == 0
  {
    var sum := Checksum(short);
    var y: u8 := (if sum % 2 == 1 then 0x80 else 0) + sum / 2;
    assert (short + [c])[..|short|] == short;
    assert TurnedRight(sum, y);
  }
}
