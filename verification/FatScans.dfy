/** The three scans of the driver, computed on items. */
module FatScans {
  import opened Basics
  import opened Arith
  import opened FatDisk
  import opened FatCells
  import opened FatWords
  import opened FatData
  import opened FatNames
  import opened FatDir
  import opened FatItems

  // ---- by 8.3 name (Fat32WriteFile) ----------------------------------------

  predicate HasShort(it: Item, short: Bytes) { it.Entry? && ShortName(it.name) == short }

  /** The first entry with the generated name `short`. */
  function FirstShort(items: seq<Item>, short: Bytes): (r: Option<nat>)
    ensures r.Some? ==> r.value < |items| && HasShort(items[r.value], short)
    ensures r.Some? ==> forall i :: 0 <= i < r.value ==> !HasShort(items[i], short)
    ensures r.None? ==> forall i :: 0 <= i < |items| ==> !HasShort(items[i], short)
  {
    if items == [] then None
    else if HasShort(items[0], short) then Some(0)
    else Shift(FirstShort(items[1..], short), 1)
  }

  /** The number of the first slot behind item `i`. */
  function SlotsUpTo(kind: FatType, items: seq<Item>, i: nat): nat
    requires i <= |items| && ItemsOk(kind, items)
  {
    if i == 0 then 0 else |ItemSlots(kind, items[0])| + SlotsUpTo(kind, items[1..], i - 1)
  }

  /** One slot of the scan. */
  lemma ScanCons(s: Slot, rest: seq<Slot>, short: Bytes)
    ensures ScanShort([s] + rest, short)
         == if IsEnd(s) then None
            else if IsEntry(s) && Raw(s) == short then Some(0)
            else Shift(ScanShort(rest, short), 1)
  {
    hide Raw, IsEntry, IsEnd;
    assert ([s] + rest)[1..] == rest;
  }

  lemma {:induction false} ScanPastLong(name: Name, checksum: u8, n: nat, rest: seq<Slot>, short: Bytes)
    requires |name| <= 255 && n <= LfnCount(name)
    ensures ScanShort(LfnSlots(name, checksum, n) + rest, short) == Shift(ScanShort(rest, short), n)
  {
    hide ScanShort, LfnSlot, LfnOrd, LfnCount, Raw, IsEntry, IsLfn, IsEnd, IsGone;
    if n == 0 {
      assert [] + rest == rest;
    } else {
      var s := LfnSlot(name, LfnOrd(name, n - 1), checksum, 13 * (n - 1));
      var more := LfnSlots(name, checksum, n - 1) + rest;
      LfnSlotLooks(name, checksum, n - 1);
      assert LfnSlots(name, checksum, n) + rest == [s] + more;
      ScanCons(s, more, short);
      ScanPastLong(name, checksum, n - 1, rest, short);
    }
  }

  lemma ScanItem(kind: FatType, it: Item, rest: seq<Slot>, short: Bytes)
    requires ItemOk(kind, it) && short != DOT_RAW && short != DOT_DOT_RAW
    ensures ScanShort(ItemSlots(kind, it) + rest, short)
         == if HasShort(it, short) then Some(|ItemSlots(kind, it)| - 1)
            else Shift(ScanShort(rest, short), |ItemSlots(kind, it)|)
  {
    hide ScanShort, ShortSlot, LfnSlots, ShortName, Raw, IsEnd, NeedLfn, LfnCount;
    if it.Entry? {
      ShortSlotLooks(kind, it);
      var s := ShortSlot(kind, ShortName(it.name), it.attr, it.first, it.size);
      var long := LongSlots(it.name);
      ScanCons(s, rest, short);
      assert ItemSlots(kind, it) + rest == long + ([s] + rest);
      if NeedLfn(it.name) {
        ScanPastLong(it.name, Checksum(ShortName(it.name)), LfnCount(it.name), [s] + rest, short);
      } else {
        assert long == [] && ItemSlots(kind, it) == [s];
        assert long + ([s] + rest) == [s] + rest;
      }
    } else {
      ScanOther(kind, it, rest, short);
    }
  }

  lemma ScanOther(kind: FatType, it: Item, rest: seq<Slot>, short: Bytes)
    requires ItemOk(kind, it) && !it.Entry? && short != DOT_RAW && short != DOT_DOT_RAW
    ensures ScanShort(ItemSlots(kind, it) + rest, short) == Shift(ScanShort(rest, short), 1)
  {
    hide ScanShort, Raw;
    ScanCons(it.slot, rest, short);
  }

  /** The scan finds the first entry that generated the name, and only that. */
  lemma {:induction false} ScanItems(kind: FatType, items: seq<Item>, rest: seq<Slot>, short: Bytes)
    requires ItemsOk(kind, items) && Ended(rest) && short != DOT_RAW && short != DOT_DOT_RAW
    ensures ScanShort(Lay(kind, items) + rest, short) == ShortPlace(kind, items, FirstShort(items, short))
  {
    hide ItemSlots, HasShort, ItemOk, IsEntry, Raw;
    if items == [] {
      assert [] + rest == rest;
    } else {
      hide ScanShort, SlotsUpTo;
      var more := Lay(kind, items[1..]) + rest;
      assert Lay(kind, items) + rest == ItemSlots(kind, items[0]) + more;
      ScanItem(kind, items[0], more, short);
      ScanItems(kind, items[1..], rest, short);
      PlaceStep(kind, items, FirstShort(items[1..], short));
    }
  }

  /** The slot number of the 8.3 slot of item `o`. */
  function ShortPlace(kind: FatType, items: seq<Item>, o: Option<nat>): Option<nat>
    requires ItemsOk(kind, items) && (o.Some? ==> o.value < |items|)
  {
    match o case None => None case Some(i) => Some(SlotsUpTo(kind, items, i) + |ItemSlots(kind, items[i])| - 1)
  }

  lemma PlaceStep(kind: FatType, items: seq<Item>, o: Option<nat>)
    requires ItemsOk(kind, items) && items != [] && (o.Some? ==> o.value < |items| - 1)
    ensures ShortPlace(kind, items, Some(0)) == Some(|ItemSlots(kind, items[0])| - 1)
    ensures ShortPlace(kind, items, Shift(o, 1))
         == Shift(ShortPlace(kind, items[1..], o), |ItemSlots(kind, items[0])|)
  {
    hide ItemSlots;
  }

  // ---- Fat32ReadDir --------------------------------------------------------

  /** The name an entry is listed under. */
  function ShownName(name: Name): Name {
    if NeedLfn(name) then name else CString(DisplayName(ShortName(name)))
  }

  function Listing(kind: FatType, items: seq<Item>): seq<DirEntry> {
    if items == [] then []
    else
      match items[0]
      case Entry(name, attr, first, size) =>
        [DirEntry(ShownName(name), attr == DIRECTORY, first, size)] + Listing(kind, items[1..])
      case Dots(s) =>
        [DirEntry(CString(DisplayName(Raw(s))), true, FirstOf(kind, s), SizeOf(s))] + Listing(kind, items[1..])
      case _ => Listing(kind, items[1..])
  }

  function Take<T>(s: seq<T>, n: nat): seq<T> { if n <= |s| then s[..n] else s }

  lemma ReadCons(kind: FatType, s: Slot, rest: seq<Slot>, acc: Bytes, valid: bool, room: nat)
    requires |acc| == 260 && room > 0
    ensures ReadDirList(kind, [s] + rest, acc, valid, room)
         == if IsEnd(s) then []
            else if IsGone(s) then ReadDirList(kind, rest, Zeros(260), false, room)
            else if IsLfn(s) then ReadDirList(kind, rest, Extract(s, acc), true, room)
            else if IsLabel(s) then ReadDirList(kind, rest, acc, false, room)
            else [DirEntry(ListedName(s, acc, valid), IsDirectory(s), FirstOf(kind, s), SizeOf(s))]
                 + ReadDirList(kind, rest, Zeros(260), false, room - 1)
  {
    hide IsEnd, IsGone, IsLfn, IsLabel, ListedName, IsDirectory, FirstOf, SizeOf, Extract, Zeros;
    assert ([s] + rest)[1..] == rest;
  }

  lemma {:induction false} ReadPastLong(kind: FatType, name: Name, checksum: u8, n: nat, rest: seq<Slot>, acc: Bytes,
                                        valid: bool, room: nat)
    requires |name| <= 255 && n <= LfnCount(name) && |acc| == 260 && room > 0
    ensures ReadDirList(kind, LfnSlots(name, checksum, n) + rest, acc, valid, room)
         == ReadDirList(kind, rest, ExtractAll(LfnSlots(name, checksum, n), acc), valid || n > 0, room)
  {
    hide ReadDirList, LfnSlot, LfnOrd, LfnCount, Extract;
    if n == 0 {
      assert [] + rest == rest;
    } else {
      var s := LfnSlot(name, LfnOrd(name, n - 1), checksum, 13 * (n - 1));
      var fewer := LfnSlots(name, checksum, n - 1);
      LfnSlotLooks(name, checksum, n - 1);
      assert LfnSlots(name, checksum, n) + rest == [s] + (fewer + rest);
      assert ([s] + fewer)[1..] == fewer;
      ReadCons(kind, s, fewer + rest, acc, valid, room);
      ReadPastLong(kind, name, checksum, n - 1, rest, Extract(s, acc), true, room);
    }
  }

  /** The accumulator behind a complete run of long-name slots. */
  lemma Gathered(name: Name, checksum: u8)
    requires 1 <= |name| <= 255
    ensures var acc := ExtractAll(LfnSlots(name, checksum, LfnCount(name)), Zeros(260));
            |acc| == 260 && acc[0] == name[0] && CString(acc) == name
  {
    LongNameRoundTrip(name, checksum);
  }

  lemma ReadEntry(kind: FatType, it: Item, rest: seq<Slot>, room: nat)
    requires it.Entry? && ItemOk(kind, it) && room > 0
    ensures ReadDirList(kind, ItemSlots(kind, it) + rest, Zeros(260), false, room)
         == [DirEntry(ShownName(it.name), it.attr == DIRECTORY, it.first, it.size)]
            + ReadDirList(kind, rest, Zeros(260), false, room - 1)
  {
    hide ReadDirList, ShortSlot, LfnSlots, ExtractAll, ShortName, NeedLfn, FirstOf, SizeOf, Raw, IsDirectory,
         DisplayName, CString, Zeros;
    ShortSlotLooks(kind, it);
    var s := ShortSlot(kind, ShortName(it.name), it.attr, it.first, it.size);
    var long := LongSlots(it.name);
    assert ItemSlots(kind, it) + rest == long + ([s] + rest);
    if NeedLfn(it.name) {
      var checksum := Checksum(ShortName(it.name));
      Gathered(it.name, checksum);
      ReadPastLong(kind, it.name, checksum, LfnCount(it.name), [s] + rest, Zeros(260), false, room);
      ReadCons(kind, s, rest, ExtractAll(long, Zeros(260)), true, room);
      assert ListedName(s, ExtractAll(long, Zeros(260)), true) == it.name;
    } else {
      assert long + ([s] + rest) == [s] + rest;
      assert ShownName(it.name) == CString(DisplayName(Raw(s)));
      ReadCons(kind, s, rest, Zeros(260), false, room);
    }
  }

  lemma ReadOther(kind: FatType, it: Item, rest: seq<Slot>, room: nat)
    requires !it.Entry? && ItemOk(kind, it) && room > 0
    ensures ReadDirList(kind, ItemSlots(kind, it) + rest, Zeros(260), false, room)
         == if it.Dots? then
              [DirEntry(CString(DisplayName(Raw(it.slot))), true, FirstOf(kind, it.slot), SizeOf(it.slot))]
              + ReadDirList(kind, rest, Zeros(260), false, room - 1)
            else ReadDirList(kind, rest, Zeros(260), false, room)
  {
    hide ReadDirList, FirstOf, SizeOf, Raw, DisplayName, CString, Zeros;
    ReadCons(kind, it.slot, rest, Zeros(260), false, room);
  }

  /** Fat32ReadDir reports the items in order, long names restored. */
  lemma {:induction false} ReadItems(kind: FatType, items: seq<Item>, rest: seq<Slot>, room: nat)
    requires ItemsOk(kind, items) && Ended(rest)
    ensures ReadDirList(kind, Lay(kind, items) + rest, Zeros(260), false, room) == Take(Listing(kind, items), room)
  {
    hide ItemSlots, ItemOk, ShownName, DisplayName, CString, Raw, FirstOf, SizeOf, Zeros, IsLfn, IsGone;
    if items == [] {
      assert [] + rest == rest;
    } else if room > 0 {
      hide ReadDirList;
      var it, more := items[0], Lay(kind, items[1..]) + rest;
      assert Lay(kind, items) + rest == ItemSlots(kind, it) + more;
      if it.Entry? {
        ReadEntry(kind, it, more, room);
      } else {
        ReadOther(kind, it, more, room);
      }
      ReadItems(kind, items[1..], rest, if it.Entry? || it.Dots? then room - 1 else room);
    }
  }

  // ---- the lookup of Fat32OpenPath -----------------------------------------

  /** Fat32OpenPath takes an entry for a path component. */
  predicate Matches(e: DirEntry, comp: Name) {
    EqualFold(e.name, comp) || ShortName(e.name) == ShortName(comp)
  }

  function FirstMatch(es: seq<DirEntry>, comp: Name): (r: Option<DirEntry>)
    ensures r.Some? ==> r.value in es && Matches(r.value, comp)
  {
    if es == [] then None else if Matches(es[0], comp) then Some(es[0]) else FirstMatch(es[1..], comp)
  }

  /** An entry answers to exactly the names that generate its 8.3 name. */
  lemma ShownMatches(name: Name, isDir: bool, first: nat, size: nat, comp: Name)
    requires GoodName(name)
    ensures Matches(DirEntry(ShownName(name), isDir, first, size), comp) <==> ShortName(name) == ShortName(comp)
  {
    var shown := ShownName(name);
    if EqualFold(shown, comp) { FoldSharesShort(shown, comp); }
    assert ShortName(shown) == ShortName(name) by {
      if !NeedLfn(name) {
        DotsAreShort();
        ShortSurvives(name);
        ShownNoZeros(name);
        CStringWhole(DisplayName(ShortName(name)));
      }
    }
  }

  lemma DotsAreShort()
    ensures ShortName([DOT]) == Spaces(11) && ShortName([DOT, DOT]) == DOT_RAW
  {
    LastDotIs([DOT], 0);
    LastDotIs([DOT, DOT], 1);
  }

  lemma ShownNoZeros(name: Name)
    ensures forall i :: 0 <= i < |DisplayName(ShortName(name))| ==> DisplayName(ShortName(name))[i] != 0
  {
    var raw := ShortName(name);
    assert forall i :: 0 <= i < 11 ==> raw[i] != 0;
    TrimmedNoZeros(raw[..8]);
    TrimmedNoZeros(raw[8..]);
  }

  lemma TrimmedNoZeros(f: Bytes)
    requires forall i :: 0 <= i < |f| ==> f[i] != 0
    ensures forall i :: 0 <= i < |Trimmed(f)| ==> Trimmed(f)[i] != 0
  {
  }

  /** The dot entries answer to no good name. */
  lemma DotsNeverMatch(kind: FatType, s: Slot, comp: Name)
    requires ItemOk(kind, Dots(s)) && GoodName(comp)
    ensures !Matches(DirEntry(CString(DisplayName(Raw(s))), true, FirstOf(kind, s), SizeOf(s)), comp)
  {
    DotsAreShort();
    var shown := CString(DisplayName(Raw(s)));
    assert shown == [DOT] || shown == [DOT, DOT] by { DotsShown(Raw(s)); }
    if EqualFold(shown, comp) { FoldSharesShort(shown, comp); }
  }

  lemma DotsShown(raw: Bytes)
    requires raw == DOT_RAW || raw == DOT_DOT_RAW
    ensures CString(DisplayName(raw)) == if raw == DOT_RAW then [DOT] else [DOT, DOT]
  {
    var k := if raw == DOT_RAW then 1 else 2;
    TrimmedLength(raw[..8], k);
    var shown := DisplayName(raw);
    assert shown == if raw == DOT_RAW then [DOT] else [DOT, DOT];
    CStringWhole(shown);
  }

  // ---- FatFindEntry --------------------------------------------------------

  /** FatFindEntry takes the entry for `name`: by long name or by displayed 8.3 name. */
  predicate Answers(it: Item, name: Name) {
    it.Entry? &&
    ((NeedLfn(it.name) && EqualFold(it.name, name)) || EqualFold(CString(DisplayName(ShortName(it.name))), name))
  }

  function FirstAnswer(items: seq<Item>, name: Name): (r: Option<nat>)
    ensures r.Some? ==> r.value < |items| && Answers(items[r.value], name)
    ensures r.Some? ==> forall i :: 0 <= i < r.value ==> !Answers(items[i], name)
    ensures r.None? ==> forall i :: 0 <= i < |items| ==> !Answers(items[i], name)
  {
    if items == [] then None
    else if Answers(items[0], name) then Some(0)
    else Shift(FirstAnswer(items[1..], name), 1)
  }

  /** An entry answers to a name in any case if it answers in one. */
  lemma AnswersCase(it: Item, a: Name, b: Name)
    requires CaseVariant(a, b)
    ensures Answers(it, a) <==> Answers(it, b)
  {
    hide DisplayName, ShortName, NeedLfn, CaseVariant, Lower;
    FoldIsCase(a, b);
  }

  /** FatFindEntry does not look at the case of letters. */
  lemma {:induction false} FirstAnswerCase(items: seq<Item>, a: Name, b: Name)
    requires CaseVariant(a, b)
    ensures FirstAnswer(items, a) == FirstAnswer(items, b)
  {
    hide Answers, CaseVariant;
    if items != [] {
      AnswersCase(items[0], a, b);
      FirstAnswerCase(items[1..], a, b);
    }
  }

  /** What the scan's test sees at an 8.3 slot. */
  predicate Hit(s: Slot, name: Name, acc: Bytes, valid: bool)
    requires |acc| == 260
  {
    (valid && acc[0] != 0 && EqualFold(CString(acc), name)) || EqualFold(CString(DisplayName(Raw(s))), name)
  }

  lemma FindCons(s: Slot, rest: seq<Slot>, name: Name, acc: Bytes, valid: bool, start: nat, k: nat)
    requires |acc| == 260
    ensures FindEntry([s] + rest, name, acc, valid, start, k)
         == if IsEnd(s) then None
            else if IsGone(s) || (!IsLfn(s) && IsLabel(s)) then FindEntry(rest, name, Zeros(260), false, start, k + 1)
            else if IsLfn(s) then
              if s[0] / 64 % 2 == 1 then FindEntry(rest, name, Extract(s, Zeros(260)), true, k, k + 1)
              else FindEntry(rest, name, if valid then Extract(s, acc) else acc, valid, start, k + 1)
            else if Hit(s, name, acc, valid) then Some(Found(if valid then start else k, k))
            else FindEntry(rest, name, Zeros(260), false, start, k + 1)
  {
    hide IsEnd, IsGone, IsLfn, IsLabel, Extract, Zeros, CString, DisplayName, Raw, EqualFold;
    assert ([s] + rest)[1..] == rest;
  }

  /** `start` only matters while a long name is being gathered. */
  lemma {:induction false} StartUnused(ss: seq<Slot>, name: Name, acc: Bytes, start: nat, start': nat, k: nat)
    requires |acc| == 260
    ensures FindEntry(ss, name, acc, false, start, k) == FindEntry(ss, name, acc, false, start', k)
    decreases ss
  {
    hide IsEnd, IsGone, IsLfn, IsLabel, Extract, Zeros, CString, DisplayName, Raw, EqualFold;
    if ss != [] {
      StartUnused(ss[1..], name, acc, start, start', k + 1);
      StartUnused(ss[1..], name, Zeros(260), start, start', k + 1);
    }
  }

  lemma {:induction false} FindPastPieces(it: Name, checksum: u8, n: nat, rest: seq<Slot>, name: Name, acc: Bytes, start: nat, k: nat)
    requires |it| <= 255 && n < LfnCount(it) && |acc| == 260
    ensures FindEntry(LfnSlots(it, checksum, n) + rest, name, acc, true, start, k)
         == FindEntry(rest, name, ExtractAll(LfnSlots(it, checksum, n), acc), true, start, k + n)
  {
    hide FindEntry, LfnSlot, LfnOrd, LfnCount, Extract, Hit;
    if n == 0 {
      assert [] + rest == rest;
    } else {
      var s := LfnSlot(it, LfnOrd(it, n - 1), checksum, 13 * (n - 1));
      var fewer := LfnSlots(it, checksum, n - 1);
      LfnSlotLooks(it, checksum, n - 1);
      assert LfnSlots(it, checksum, n) + rest == [s] + (fewer + rest);
      assert ([s] + fewer)[1..] == fewer;
      FindCons(s, fewer + rest, name, acc, true, start, k);
      FindPastPieces(it, checksum, n - 1, rest, name, Extract(s, acc), start, k + 1);
    }
  }

  lemma FindPastLong(it: Name, checksum: u8, rest: seq<Slot>, name: Name, start: nat, k: nat)
    requires 1 <= |it| <= 255
    ensures FindEntry(LfnSlots(it, checksum, LfnCount(it)) + rest, name, Zeros(260), false, start, k)
         == FindEntry(rest, name, ExtractAll(LfnSlots(it, checksum, LfnCount(it)), Zeros(260)), true, k, k + LfnCount(it))
  {
    hide FindEntry, LfnSlot, LfnOrd, Extract, Hit;
    var n := LfnCount(it);
    var s := LfnSlot(it, LfnOrd(it, n - 1), checksum, 13 * (n - 1));
    var fewer := LfnSlots(it, checksum, n - 1);
    LfnSlotLooks(it, checksum, n - 1);
    assert LfnSlots(it, checksum, n) + rest == [s] + (fewer + rest);
    assert ([s] + fewer)[1..] == fewer;
    FindCons(s, fewer + rest, name, Zeros(260), false, start, k);
    FindPastPieces(it, checksum, n - 1, rest, name, Extract(s, Zeros(260)), k, k + 1);
  }

  lemma FindItem(kind: FatType, it: Item, rest: seq<Slot>, name: Name, start: nat, k: nat)
    requires it.Entry? && ItemOk(kind, it)
    ensures FindEntry(ItemSlots(kind, it) + rest, name, Zeros(260), false, start, k)
         == if Answers(it, name) then Some(Found(k, k + |ItemSlots(kind, it)| - 1))
            else FindEntry(rest, name, Zeros(260), false, start, k + |ItemSlots(kind, it)|)
  {
    hide FindEntry, ShortSlot, LfnSlots, ExtractAll, ShortName, NeedLfn, FirstOf, SizeOf, Raw, IsDirectory,
         DisplayName, CString, Zeros, EqualFold;
    ShortSlotLooks(kind, it);
    var s := ShortSlot(kind, ShortName(it.name), it.attr, it.first, it.size);
    var long := LongSlots(it.name);
    assert ItemSlots(kind, it) + rest == long + ([s] + rest);
    if NeedLfn(it.name) {
      var checksum := Checksum(ShortName(it.name));
      Gathered(it.name, checksum);
      FindPastLong(it.name, checksum, [s] + rest, name, start, k);
      FindCons(s, rest, name, ExtractAll(long, Zeros(260)), true, k, k + |long|);
      StartUnused(rest, name, Zeros(260), k, start, k + |long| + 1);
    } else {
      assert long == [] && ItemSlots(kind, it) == [s];
      assert long + ([s] + rest) == [s] + rest;
      FindCons(s, rest, name, Zeros(260), false, start, k);
    }
  }

  lemma FindOther(kind: FatType, it: Item, rest: seq<Slot>, name: Name, start: nat, k: nat)
    requires !it.Entry? && ItemOk(kind, it) && GoodName(name)
    ensures FindEntry(ItemSlots(kind, it) + rest, name, Zeros(260), false, start, k)
         == FindEntry(rest, name, Zeros(260), false, start, k + 1)
  {
    hide FindEntry, Raw, DisplayName, CString, Zeros, EqualFold, ShortName;
    FindCons(it.slot, rest, name, Zeros(260), false, start, k);
    if it.Dots? { DotsNeverMatch(kind, it.slot, name); }
  }

  /** FatFindEntry finds the first item that answers, and its whole run of slots. */
  lemma {:induction false} FindItems(kind: FatType, items: seq<Item>, rest: seq<Slot>, name: Name, start: nat, k: nat)
    requires ItemsOk(kind, items) && Ended(rest) && GoodName(name)
    ensures FindEntry(Lay(kind, items) + rest, name, Zeros(260), false, start, k)
         == RunOf(kind, items, FirstAnswer(items, name), k)
  {
    hide ItemSlots, ItemOk, Answers, Zeros, GoodName, RunOf;
    RunStep(kind, items, if items == [] then None else FirstAnswer(items[1..], name), k);
    if items == [] {
      assert [] + rest == rest;
    } else {
      hide FindEntry;
      var it, more := items[0], Lay(kind, items[1..]) + rest;
      assert Lay(kind, items) + rest == ItemSlots(kind, it) + more;
      if it.Entry? {
        FindItem(kind, it, more, name, start, k);
      } else {
        OtherSize(kind, it, name);
        FindOther(kind, it, more, name, start, k);
      }
      FindItems(kind, items[1..], rest, name, start, k + |ItemSlots(kind, it)|);
    }
  }

  /** The run of slots of item `o`, counted from `k`. */
  function RunOf(kind: FatType, items: seq<Item>, o: Option<nat>, k: nat): Option<Found>
    requires ItemsOk(kind, items) && (o.Some? ==> o.value < |items|)
  {
    match o
    case None => None
    case Some(i) =>
      Some(Found(k + SlotsUpTo(kind, items, i), k + SlotsUpTo(kind, items, i) + |ItemSlots(kind, items[i])| - 1))
  }

  lemma RunStep(kind: FatType, items: seq<Item>, o: Option<nat>, k: nat)
    requires ItemsOk(kind, items) && (o.Some? ==> o.value + 1 < |items|)
    ensures RunOf(kind, items, None, k) == None
    ensures items != [] ==> RunOf(kind, items, Some(0), k) == Some(Found(k, k + |ItemSlots(kind, items[0])| - 1))
    ensures items != [] ==>
              RunOf(kind, items, Shift(o, 1), k) == RunOf(kind, items[1..], o, k + |ItemSlots(kind, items[0])|)
  {
    hide ItemSlots;
  }

  lemma OtherSize(kind: FatType, it: Item, name: Name)
    requires ItemOk(kind, it) && !it.Entry?
    ensures |ItemSlots(kind, it)| == 1 && !Answers(it, name)
  {
  }
}
