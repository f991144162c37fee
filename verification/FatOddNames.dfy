/** The names the other modules leave out: those that start with the byte of an erased slot, and
    the names of one, two or three dots, whose 8.3 form is blank or that of a dot entry. */
module FatOddNames {
  import opened Basics
  import opened Arith
  import opened FatDisk
  import opened FatCells
  import opened FatData
  import opened FatNames
  import opened FatDir
  import opened FatItems
  import opened FatScans
  import opened FatSlots
  import opened FatTables
  import opened FatFrame
  import opened FatGrow
  import opened FatVolume
  import opened FatDirectory
  import opened FatEntries
  import opened FatCreate
  import opened FatFiles
  import opened FatMkdir

  const GONE: u8 := 0xE5

  /** The names no directory entry of the other modules has. */
  lemma GoodNames(name: Name)
    ensures GoodName(name) <==>
              1 <= |name| <= 255 && name[0] != GONE && name != [DOT] && name != [DOT, DOT] && name != [DOT, DOT, DOT]
  {
    DotsAreShort();
    ThreeDots();
    if 1 <= |name| {
      if ShortName(name) == Spaces(11) { OnlyDots(name, 0); }
      if ShortName(name) == DOT_RAW { OnlyDots(name, 1); }
      if ShortName(name) == DOT_DOT_RAW { OnlyDots(name, 2); }
    }
  }

  lemma ThreeDots()
    ensures ShortName([DOT, DOT, DOT]) == DOT_DOT_RAW
  {
    LastDotIs([DOT, DOT, DOT], 2);
  }

  function AllDots(k: nat): Bytes { seq(k, i => DOT) }

  /** An 8.3 form of `k` dots comes from the name of `k + 1` dots. */
  lemma OnlyDots(name: Name, k: nat)
    requires 1 <= |name| && k <= 2 && ShortName(name) == AllDots(k) + Spaces(11 - k)
    ensures name == AllDots(k + 1)
  {
    hide Field;
    var b, e, raw := FatNames.Base(name), Extension(name), AllDots(k) + Spaces(11 - k);
    assert raw[..8] == Field(b, 8) && raw[8..] == Field(e, 3);
    DotField(b, 8, k);
    DotField(e, 3, 0);
    DotParts(name, k);
  }

  /** A field of `k` dots comes from `k` dots. */
  lemma DotField(s: Bytes, n: nat, k: nat)
    requires k < n && Field(s, n) == AllDots(k) + Spaces(n - k)
    ensures s == AllDots(k)
  {
    hide Field;
    var f: Bytes := AllDots(k) + Spaces(n - k);
    assert f[k] == SPACE && forall i :: 0 <= i < k ==> f[i] == DOT;
    FieldAt(s, n, k);
    assert Field(s, n)[k] == f[k];
    forall i | 0 <= i < k ensures i < |s| && s[i] == DOT {
      FieldAt(s, n, i);
      assert Field(s, n)[i] == f[i];
    }
    if k > 0 {
      FieldAt(s, n, k - 1);
      assert Field(s, n)[k - 1] == f[k - 1];
    }
    assert |s| == k;
  }

  lemma FieldAt(s: Bytes, n: nat, i: nat)
    requires i < n
    ensures Field(s, n)[i] == SPACE <==> |s| <= i
    ensures Field(s, n)[i] == DOT <==> i < |s| && s[i] == DOT
  {
  }

  lemma DotParts(name: Name, k: nat)
    requires 1 <= |name| && FatNames.Base(name) == AllDots(k) && Extension(name) == []
    ensures name == AllDots(k + 1)
  {
    var d := LastDot(name, |name|);
    if d >= 0 {
      assert |name| == d + 1 && name[..d] == AllDots(k);
      assert name == name[..d] + [DOT];
    }
  }

  /** The first byte of the 8.3 form. */
  lemma ShortFirst(name: Name)
    requires name != []
    ensures ShortName(name)[0] != 0 && (ShortName(name)[0] == GONE <==> name[0] == GONE)
  {
    var d := LastDot(name, |name|);
  }

  // ---- the scan for an 8.3 name ----------------------------------------------

  /** No scan finds an entry whose name starts with the byte of an erased slot. */
  lemma {:induction false} GoneNeverFound(ss: seq<Slot>, short: Bytes)
    requires |short| == 11 && short[0] == GONE
    ensures ScanShort(ss, short) == None
  {
    if ss != [] && !IsEnd(ss[0]) {
      assert Raw(ss[0])[0] == ss[0][0];
      GoneNeverFound(ss[1..], short);
    }
  }

  /** A scan that passes the first part goes on in the second. */
  lemma {:induction false} ScanOn(xs: seq<Slot>, ys: seq<Slot>, short: Bytes)
    requires forall i :: 0 <= i < |xs| ==> !IsEnd(xs[i])
    ensures ScanShort(xs + ys, short)
         == match ScanShort(xs, short) case Some(k) => Some(k) case None => Shift(ScanShort(ys, short), |xs|)
  {
    hide IsEnd, IsEntry, Raw;
    if xs == [] {
      assert xs + ys == ys;
    } else {
      ScanCons(xs[0], xs[1..] + ys, short);
      assert xs + ys == [xs[0]] + (xs[1..] + ys);
      ScanOn(xs[1..], ys, short);
    }
  }

  /** The slots of a written entry, whatever its name. */
  lemma ScanWritten(kind: FatType, e: NewEntry, rest: seq<Slot>)
    requires 1 <= |e.name| <= 255 && (e.attr == ARCHIVE || e.attr == DIRECTORY) && Storable(kind, e.first) && e.size < 0x1_0000_0000
    ensures ScanShort(NewSlots(kind, e) + rest, ShortName(e.name))
         == if e.name[0] != GONE then Some(SlotsNeeded(e.name) - 1) else None
  {
    hide ShortSlot, LfnSlots, ShortName, NeedLfn, LfnCount, ScanShort;
    var short := ShortName(e.name);
    var s := ShortSlot(kind, short, e.attr, e.first, e.size);
    CountFits(e.name);
    ShortFirst(e.name);
    ShortSlotFields(kind, short, e.attr, e.first, e.size);
    if e.name[0] == GONE {
      GoneNeverFound(NewSlots(kind, e) + rest, short);
    } else {
      ScanCons(s, rest, short);
      if NeedLfn(e.name) {
        var long := LfnSlots(e.name, Checksum(short), LfnCount(e.name));
        ScanPastLong(e.name, Checksum(short), LfnCount(e.name), [s] + rest, short);
        assert NewSlots(kind, e) + rest == long + ([s] + rest);
      } else {
        assert NewSlots(kind, e) == [s];
      }
    }
  }

  /** A new entry in its place is found again by its 8.3 form if and only if its name does not start
      with the byte of an erased slot. */
  lemma FoundAgain(kind: FatType, ss: seq<Slot>, e: NewEntry, p: nat)
    requires 1 <= |e.name| <= 255 && (e.attr == ARCHIVE || e.attr == DIRECTORY) && Storable(kind, e.first) && e.size < 0x1_0000_0000
    requires p + SlotsNeeded(e.name) <= |ss| && NoEndBelow(ss, p) && ScanShort(ss, ShortName(e.name)) == None
    ensures ScanShort(ss[..p] + NewSlots(kind, e) + ss[p + SlotsNeeded(e.name)..], ShortName(e.name))
         == if e.name[0] != GONE then Some(p + SlotsNeeded(e.name) - 1) else None
  {
    hide NewSlots, ShortName, IsEnd, ScanShort, SlotsNeeded, NoEndBelow, Storable;
    var short, rest := ShortName(e.name), ss[p + SlotsNeeded(e.name)..];
    ScanWritten(kind, e, rest);
    ScanBefore(ss, p, short, NewSlots(kind, e) + rest);
    Regroup(ss[..p], NewSlots(kind, e), rest);
  }

  lemma Regroup(a: seq<Slot>, b: seq<Slot>, c: seq<Slot>)
    ensures a + b + c == a + (b + c)
  {
  }

  /** A scan that finds nothing passes every part before the first slot never used. */
  lemma ScanBefore(ss: seq<Slot>, p: nat, short: Bytes, more: seq<Slot>)
    requires p <= |ss| && NoEndBelow(ss, p) && ScanShort(ss, short) == None
    ensures ScanShort(ss[..p] + more, short) == Shift(ScanShort(more, short), p)
  {
    hide IsEnd, ScanShort;
    forall i | 0 <= i < p ensures !IsEnd(ss[..p][i]) { assert ss[..p][i] == ss[i]; }
    assert ss == ss[..p] + ss[p..];
    ScanOn(ss[..p], ss[p..], short);
    ScanOn(ss[..p], more, short);
  }

  /** Writes a new entry of any name and looks for it. */
  method WriteAndLook(v: Volume, head: nat, e: NewEntry, ghost cs: seq<nat>) returns (ok: bool, found: bool, ghost m: Made)
    requires IsDir(v, head, cs) && 1 <= |e.name| <= 255 && Roomy(v, head, e.name)
    requires (e.attr == ARCHIVE || e.attr == DIRECTORY) && Storable(v.g.kind, e.first) && e.size < 0x1_0000_0000
    requires ScanShort(Slots(v, head, cs), ShortName(e.name)) == None
    modifies v`disk, v`lastAllocated, v.buf
    ensures ok ==> IsDir(v, head, m.cs)
    ensures ok && m.p + SlotsNeeded(e.name) <= |m.slots| && NoEndBelow(m.slots, m.p) ==> (found <==> e.name[0] != GONE)
    ensures e.name[0] == GONE ==> !found
  {
    hide FatOf, Mirrored, DirSectors, SlotsOf, GroupHas, Adjacent, Touched, ShortName, TargetSlot, SlotsNeeded, NewSlots, FatGrown, Spilled,
         GroupSize, GroupCount, DirChain, ScanShort, PlacedAt;
    found := false;
    ghost var ss := Slots(v, head, cs);
    ghost var i, k;
    ok, m, i, k := PlaceEntry(v, head, e, cs);
    if !ok { return; }
    var sec, off, slot;
    found, sec, off, slot, k := ScanDirectory(v, head, ShortName(e.name), m.cs);
    ShortFirst(e.name);
    if e.name[0] == GONE { GoneNeverFound(Slots(v, head, m.cs), ShortName(e.name)); }
    if m.p + SlotsNeeded(e.name) <= |m.slots| && NoEndBelow(m.slots, m.p) {
      StillNew(v.g, ss, cs, m, ShortName(e.name));
      FoundAgain(v.g.kind, m.slots, e, m.p);
    }
  }

  /** Growing a directory brings no entry. */
  lemma StillNew(g: Geometry, ss: seq<Slot>, cs: seq<nat>, m: Made, short: Bytes)
    requires Grew(g, ss, cs, m) && ScanShort(ss, short) == None && NoEndBelow(m.slots, m.p)
    ensures ScanShort(m.slots, short) == None
  {
    hide ScanShort, IsEnd;
    if m.cs != cs {
      assert m.slots == ss + m.slots[|ss|..];
      forall i | 0 <= i < |ss| ensures !IsEnd(ss[i]) { assert ss[i] == m.slots[i]; }
      ScanOn(ss, m.slots[|ss|..], short);
      EndScan(m.slots[|ss|..], short);
    }
  }

  lemma EndScan(ss: seq<Slot>, short: Bytes)
    requires ss != [] ==> IsEnd(ss[0])
    ensures ScanShort(ss, short) == None
  {
  }

  // ---- what Fat32ReadDir lists -----------------------------------------------

  /** The listing passes over long-name slots in front of an erased one. */
  lemma {:induction false} LongThenGone(kind: FatType, name: Name, checksum: u8, n: nat, s: Slot, rest: seq<Slot>, acc: Bytes, valid: bool, room: nat)
    requires |name| <= 255 && n <= LfnCount(name) && IsGone(s) && |acc| == 260 && room > 0
    ensures ReadDirList(kind, LfnSlots(name, checksum, n) + ([s] + rest), acc, valid, room) == ReadDirList(kind, rest, Zeros(260), false, room)
  {
    hide ReadDirList, LfnSlot, LfnOrd, LfnCount, IsLfn, Extract, Zeros;
    if n == 0 {
      ReadCons(kind, s, rest, acc, valid, room);
      assert [] + ([s] + rest) == [s] + rest;
    } else {
      var l := LfnSlot(name, LfnOrd(name, n - 1), checksum, 13 * (n - 1));
      var more := LfnSlots(name, checksum, n - 1) + ([s] + rest);
      LfnSlotLooks(name, checksum, n - 1);
      assert LfnSlots(name, checksum, n) + ([s] + rest) == [l] + more;
      ReadCons(kind, l, more, acc, valid, room);
      LongThenGone(kind, name, checksum, n - 1, s, rest, Extract(l, acc), true, room);
    }
  }

  /** The listing passes over free slots; it ends at one that was never used. */
  lemma {:induction false} FreeThenRest(kind: FatType, ss: seq<Slot>, n: nat, acc: Bytes, valid: bool, room: nat)
    requires 1 <= n <= |ss| && ZeroTail(ss) && |acc| == 260 && room > 0
    requires forall i :: 0 <= i < n ==> IsEnd(ss[i]) || IsGone(ss[i])
    ensures ReadDirList(kind, ss, acc, valid, room) == ReadDirList(kind, ss[n..], Zeros(260), false, room)
  {
    hide ReadDirList, Zeros;
    ReadCons(kind, ss[0], ss[1..], acc, valid, room);
    assert ss == [ss[0]] + ss[1..];
    if IsEnd(ss[0]) {
      if n < |ss| {
        ReadCons(kind, ss[n], ss[n + 1..], Zeros(260), false, room);
        assert ss[n..] == [ss[n]] + ss[n + 1..];
      } else {
        EmptyList(kind, Zeros(260), false, room);
      }
    } else if n > 1 {
      FreeThenRest(kind, ss[1..], n - 1, Zeros(260), false, room);
      assert ss[1..][n - 1..] == ss[n..];
    }
  }

  lemma EmptyList(kind: FatType, acc: Bytes, valid: bool, room: nat)
    requires |acc| == 260
    ensures ReadDirList(kind, [], acc, valid, room) == []
  {
  }

  /** Writing an entry whose name starts with the byte of an erased slot changes no listing. */
  lemma {:induction false} StaysUnlisted(kind: FatType, ss: seq<Slot>, e: NewEntry, p: nat, acc: Bytes, valid: bool, room: nat)
    requires 1 <= |e.name| <= 255 && e.name[0] == GONE && |acc| == 260
    requires (e.attr == ARCHIVE || e.attr == DIRECTORY) && Storable(kind, e.first) && e.size < 0x1_0000_0000
    requires p + SlotsNeeded(e.name) <= |ss| && ZeroTail(ss)
    requires forall i :: p <= i < p + SlotsNeeded(e.name) ==> IsEnd(ss[i]) || IsGone(ss[i])
    ensures ReadDirList(kind, ss[..p] + NewSlots(kind, e) + ss[p + SlotsNeeded(e.name)..], acc, valid, room)
         == ReadDirList(kind, ss, acc, valid, room)
    decreases p
  {
    hide ReadDirList, NewSlots, SlotsNeeded, IsEnd, IsGone, IsLfn, IsLabel, Zeros, Extract;
    var n, es := SlotsNeeded(e.name), NewSlots(kind, e);
    CountFits(e.name);
    var rest := ss[p + n..];
    if room == 0 {
      NoRoom(kind, ss, acc, valid);
      NoRoom(kind, ss[..p] + es + rest, acc, valid);
    } else if p == 0 {
      FreeThenRest(kind, ss, n, acc, valid, room);
      UnlistedHere(kind, e, rest, acc, valid, room);
      assert ss[..p] + es + rest == es + rest;
    } else {
      var ss1 := ss[1..];
      var s, more := ss[0], ss1[..p - 1] + es + ss1[p - 1 + n..];
      assert ss == [s] + ss1 && ss[..p] + es + rest == [s] + more;
      ReadCons(kind, s, ss1, acc, valid, room);
      ReadCons(kind, s, more, acc, valid, room);
      StaysUnlisted(kind, ss1, e, p - 1, Zeros(260), false, room);
      StaysUnlisted(kind, ss1, e, p - 1, Extract(s, acc), true, room);
      StaysUnlisted(kind, ss1, e, p - 1, acc, false, room);
      StaysUnlisted(kind, ss1, e, p - 1, Zeros(260), false, room - 1);
    }
  }

  lemma NoRoom(kind: FatType, ss: seq<Slot>, acc: Bytes, valid: bool)
    requires |acc| == 260
    ensures ReadDirList(kind, ss, acc, valid, 0) == []
  {
  }

  lemma UnlistedHere(kind: FatType, e: NewEntry, rest: seq<Slot>, acc: Bytes, valid: bool, room: nat)
    requires 1 <= |e.name| <= 255 && e.name[0] == GONE && |acc| == 260 && room > 0
    requires (e.attr == ARCHIVE || e.attr == DIRECTORY) && Storable(kind, e.first) && e.size < 0x1_0000_0000
    ensures ReadDirList(kind, NewSlots(kind, e) + rest, acc, valid, room) == ReadDirList(kind, rest, Zeros(260), false, room)
  {
    hide ReadDirList, LfnSlots, ShortSlot, ShortName, NeedLfn, LfnCount, Zeros;
    var short := ShortName(e.name);
    var s := ShortSlot(kind, short, e.attr, e.first, e.size);
    ShortFirst(e.name);
    ShortSlotFields(kind, short, e.attr, e.first, e.size);
    var n := if NeedLfn(e.name) then LfnCount(e.name) else 0;
    LongThenGone(kind, e.name, Checksum(short), n, s, rest, acc, valid, room);
    var long := LfnSlots(e.name, Checksum(short), n);
    assert NewSlots(kind, e) == long + [s];
    assert NewSlots(kind, e) + rest == long + ([s] + rest);
  }

  // ---- names of dots -------------------------------------------------------------

  /** In a directory that starts with its two dot entries the driver takes the names ".." and "..."
      for those entries, which are directories, so that writing them is refused. */
  lemma DotsCollide(kind: FatType, c: nat, parent: nat, rest: seq<Slot>)
    requires Storable(kind, c) && Storable(kind, parent)
    ensures var ss := [DotSlot(kind, c), DotDotSlot(kind, parent)] + rest;
            && ScanShort(ss, ShortName([DOT, DOT])) == Some(0) && ScanShort(ss, ShortName([DOT, DOT, DOT])) == Some(1)
            && IsDirectory(ss[0]) && IsDirectory(ss[1])
  {
    hide ShortSlot, ShortName, ScanShort;
    DotsAreShort();
    ThreeDots();
    ShortSlotFields(kind, DOT_RAW, DIRECTORY, c, 0);
    ShortSlotFields(kind, DOT_DOT_RAW, DIRECTORY, parent, 0);
    var a, b := DotSlot(kind, c), DotDotSlot(kind, parent);
    assert DOT_RAW[1] == SPACE && DOT_DOT_RAW[1] == DOT;
    assert [a, b] + rest == [a] + ([b] + rest);
    ScanCons(a, [b] + rest, DOT_RAW);
    ScanCons(a, [b] + rest, DOT_DOT_RAW);
    ScanCons(b, rest, DOT_DOT_RAW);
  }

  /** An entry matches its own name when a path is opened unless the name is ".."; what the listing
      shows of that name is ".". */
  lemma OwnNameMatches(name: Name, isDir: bool, first: nat, size: nat)
    requires 1 <= |name| <= 255
    ensures Matches(DirEntry(ShownName(name), isDir, first, size), name) <==> name != [DOT, DOT]
  {
    DotsAreShort();
    if name == [DOT] {
      BlankShown();
    } else if name == [DOT, DOT] {
      DotsShown(DOT_RAW);
    } else if !NeedLfn(name) {
      ShortSurvives(name);
      ShownNoZeros(name);
      CStringWhole(DisplayName(ShortName(name)));
    } else {
      assert EqualFold(name, name);
    }
  }

  lemma BlankShown()
    ensures CString(DisplayName(Spaces(11))) == [] && ShortName([]) == Spaces(11)
  {
    var raw := Spaces(11);
    assert raw[..8][0] == SPACE && raw[8] == SPACE;
    assert DisplayName(raw) == [];
  }
}
