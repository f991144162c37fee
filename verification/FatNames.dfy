/** File names on disk: generated 8.3 names and long-name entries, as the driver
    writes them and as it reads them back. Names are C strings without their zero. */
module FatNames {
  import opened Arith
  import opened FatDisk
  import opened FatCells
  import opened FatWords
  import opened FatData

  type Slot = s: seq<u8> | |s| == 32 witness seq(32, i => 0)
  type Name = s: seq<u8> | forall i :: 0 <= i < |s| ==> s[i] != 0 witness []

  const LFN: u8 := 0x0F
  const SPACE: u8 := 0x20
  const DOT: u8 := 0x2E

  // ---- long-name entries ---------------------------------------------------

  /** Where the `i`th of the 13 characters of a long-name entry sits. */
  function CharAt(i: nat): nat
    requires i < 13
  {
    if i < 5 then 1 + 2 * i else if i < 11 then 14 + 2 * (i - 5) else 28 + 2 * (i - 11)
  }

  /** The character stored for index `i` of the name: the name, a terminator, filler. */
  function LfnChar(name: Name, i: nat): nat {
    if i < |name| then name[i] as nat else if i == |name| then 0 else 0xFFFF
  }

  /** The first `n` characters laid into an entry. */
  function LayChars(s: Bytes, name: Name, offset: nat, n: nat): (s': Bytes)
    requires |s| == 32 && n <= 13
    ensures |s'| == 32
  {
    if n == 0 then s
    else SetU16(LayChars(s, name, offset, n - 1), CharAt(n - 1), LfnChar(name, offset + n - 1))
  }

  /** FatFormatLfnEntry. */
  function LfnSlot(name: Name, ord: u8, checksum: u8, offset: nat): Slot {
    LayChars(Zeros(32)[0 := ord][11 := LFN][13 := checksum], name, offset, 13)
  }

  /** Later characters do not overwrite earlier ones, nor the three header bytes. */
  lemma {:induction false} LaidChars(s: Bytes, name: Name, offset: nat, n: nat, i: nat)
    requires |s| == 32 && i < n <= 13
    ensures U16(LayChars(s, name, offset, n), CharAt(i)) == LfnChar(name, offset + i)
  {
    if i < n - 1 {
      LaidChars(s, name, offset, n - 1, i);
    }
  }

  lemma {:induction false} LaidHeader(s: Bytes, name: Name, offset: nat, n: nat)
    requires |s| == 32 && n <= 13
    ensures var s' := LayChars(s, name, offset, n); s'[0] == s[0] && s'[11] == s[11] && s'[13] == s[13]
  {
    if n > 0 {
      LaidHeader(s, name, offset, n - 1);
    }
  }

  /** FatExtractLfn from character `i` on: copies until the buffer ends or the
      name does. */
  function ExtractFrom(s: Slot, acc: Bytes, base: nat, i: nat): (acc': Bytes)
    requires i <= 13 && 1 <= |acc|
    ensures |acc'| == |acc|
    decreases 13 - i
  {
    if i == 13 || base + i >= |acc| - 1 then acc
    else
      var c := U16(s, CharAt(i));
      if c == 0 || c == 0xFFFF then acc[base + i := 0]
      else ExtractFrom(s, acc[base + i := Low(c)], base, i + 1)
  }

  function Extract(s: Slot, acc: Bytes): (acc': Bytes)
    requires 1 <= |acc|
    ensures |acc'| == |acc|
  {
    var ord := s[0] as int % 64;
    if ord == 0 then acc else ExtractFrom(s, acc, (ord - 1) * 13, 0)
  }

  function LfnCount(name: Name): nat { (|name| + 12) / 13 }

  /** No fewer pieces of thirteen characters hold the name. */
  lemma PiecesAreLeast(name: Name)
    requires name != []
    ensures 13 * (LfnCount(name) - 1) < |name| <= 13 * LfnCount(name)
  {
  }

  /** The order byte of the entry for piece `j`. */
  function LfnOrd(name: Name, j: nat): (ord: u8)
    requires j < LfnCount(name) && |name| <= 255
    ensures ord as int % 64 == j + 1
    ensures ord as int / 64 == if j == LfnCount(name) - 1 then 1 else 0
  {
    j + 1 + (if j == LfnCount(name) - 1 then 0x40 else 0)
  }

  /** The accumulator once pieces `j` and up have been read into zeros. */
  function Rebuilt(name: Name, j: nat): Bytes
    requires |name| <= 255
  {
    seq(260, i requires 0 <= i < 260 => if 13 * j <= i < |name| then name[i] else 0)
  }

  lemma {:induction false} ExtractPiece(name: Name, checksum: u8, j: nat, i: nat, acc: Bytes)
    requires |name| <= 255 && j < LfnCount(name) && i <= 13 && |acc| == 260
    requires forall p :: 0 <= p < 260 ==>
               acc[p] == if 13 * j <= p < 13 * j + i || 13 * j + 13 <= p then Rebuilt(name, j)[p] else 0
    requires 13 * j + i <= |name|
    ensures ExtractFrom(LfnSlot(name, LfnOrd(name, j), checksum, 13 * j), acc, 13 * j, i) == Rebuilt(name, j)
    decreases 13 - i
  {
    var s := LfnSlot(name, LfnOrd(name, j), checksum, 13 * j);
    if i < 13 {
      LaidChars(Zeros(32)[0 := LfnOrd(name, j)][11 := LFN][13 := checksum], name, 13 * j, 13, i);
      var c := U16(s, CharAt(i));
      assert c == LfnChar(name, 13 * j + i);
      if 13 * j + i < |name| {
        ExtractPiece(name, checksum, j, i + 1, acc[13 * j + i := Low(c)]);
      } else {
        assert acc[13 * j + i := 0] == Rebuilt(name, j);
      }
    } else {
      assert acc == Rebuilt(name, j);
    }
  }

  /** Reading piece `j` after all later pieces. */
  lemma ExtractStep(name: Name, checksum: u8, j: nat)
    requires 1 <= |name| <= 255 && j < LfnCount(name)
    ensures Extract(LfnSlot(name, LfnOrd(name, j), checksum, 13 * j), Rebuilt(name, j + 1)) == Rebuilt(name, j)
  {
    hide LayChars, ExtractFrom, LfnOrd;
    LaidHeader(Zeros(32)[0 := LfnOrd(name, j)][11 := LFN][13 := checksum], name, 13 * j, 13);
    ExtractPiece(name, checksum, j, 0, Rebuilt(name, j + 1));
  }

  /** The long-name entries in the order FatWriteDirectoryEntries emits them. */
  function LfnSlots(name: Name, checksum: u8, n: nat): (ss: seq<Slot>)
    requires |name| <= 255 && n <= LfnCount(name)
    ensures |ss| == n
  {
    if n == 0 then [] else [LfnSlot(name, LfnOrd(name, n - 1), checksum, 13 * (n - 1))] + LfnSlots(name, checksum, n - 1)
  }

  function ExtractAll(ss: seq<Slot>, acc: Bytes): (acc': Bytes)
    requires |acc| >= 1
    ensures |acc'| == |acc|
  {
    if ss == [] then acc else ExtractAll(ss[1..], Extract(ss[0], acc))
  }

  lemma {:induction false} ExtractPieces(name: Name, checksum: u8, n: nat)
    requires 1 <= |name| <= 255 && n <= LfnCount(name)
    ensures ExtractAll(LfnSlots(name, checksum, n), Rebuilt(name, n)) == Rebuilt(name, 0)
  {
    if n > 0 {
      ExtractStep(name, checksum, n - 1);
      ExtractPieces(name, checksum, n - 1);
    }
  }

  /** The C string in a buffer. */
  function CString(b: Bytes): (s: Name)
    ensures |s| <= |b|
  {
    if b == [] || b[0] == 0 then [] else [b[0]] + CString(b[1..])
  }

  lemma {:induction false} CStringOf(name: Name, rest: Bytes)
    requires rest != [] && rest[0] == 0
    ensures CString(name + rest) == name
  {
    if name != [] {
      assert (name + rest)[1..] == name[1..] + rest;
      CStringOf(name[1..], rest);
    }
  }

  /** Long names survive the trip to disk and back, also when their length leaves
      no room for a terminator. */
  lemma LongNameRoundTrip(name: Name, checksum: u8)
    requires 1 <= |name| <= 255
    ensures CString(ExtractAll(LfnSlots(name, checksum, LfnCount(name)), Zeros(260))) == name
  {
    assert Zeros(260) == Rebuilt(name, LfnCount(name));
    ExtractPieces(name, checksum, LfnCount(name));
    assert Rebuilt(name, 0) == name + Zeros(260 - |name|);
    CStringOf(name, Zeros(260 - |name|));
  }

  // ---- 8.3 names -----------------------------------------------------------

  function Upper(c: u8): u8 { if 0x61 <= c <= 0x7A then c - 32 else if c == SPACE then 0x5F else c }
  function Lower(c: u8): u8 { if 0x41 <= c <= 0x5A then c + 32 else c }

  /** Index of the last dot below `n`, or -1. */
  function LastDot(name: Bytes, n: nat): (d: int)
    requires n <= |name|
    ensures -1 <= d < n
    ensures d >= 0 ==> name[d] == DOT
    ensures forall i :: d < i < n ==> name[i] != DOT
  {
    if n == 0 then -1 else if name[n - 1] == DOT then n - 1 else LastDot(name, n - 1)
  }

  lemma LastDotIs(name: Bytes, d: int)
    requires -1 <= d < |name| && (d >= 0 ==> name[d] == DOT)
    requires forall i :: d < i < |name| ==> name[i] != DOT
    ensures LastDot(name, |name|) == d
  {
  }

  function Base(name: Bytes): Bytes {
    var d := LastDot(name, |name|); if d < 0 then name else name[..d]
  }

  function Extension(name: Bytes): Bytes {
    var d := LastDot(name, |name|); if d < 0 then [] else name[d + 1..]
  }

  /** `s` cut to `n` bytes, upper-cased, filled up with spaces. */
  function Field(s: Bytes, n: nat): (f: Bytes)
    ensures |f| == n
  {
    seq(n, i requires 0 <= i < n => if i < |s| then Upper(s[i]) else SPACE)
  }

  /** FatGenerateShortName. */
  function ShortName(name: Bytes): (f: Bytes)
    ensures |f| == 11
  {
    Field(Base(name), 8) + Field(Extension(name), 3)
  }

  /** The bytes of a space-filled field up to the first space, lower-cased. */
  function Trimmed(f: Bytes): (s: Bytes)
    ensures |s| <= |f|
    ensures forall i :: 0 <= i < |s| ==> f[i] != SPACE && s[i] == Lower(f[i])
    ensures |s| < |f| ==> f[|s|] == SPACE
  {
    if f == [] || f[0] == SPACE then [] else [Lower(f[0])] + Trimmed(f[1..])
  }

  /** The name FatParseDirEntry shows for an 8.3 entry. */
  function DisplayName(raw: Bytes): Bytes
    requires |raw| == 11
  {
    Trimmed(raw[..8]) + if raw[8] == SPACE then [] else [DOT] + Trimmed(raw[8..])
  }

  /** RtStrCompareI finds no difference. */
  predicate EqualFold(a: Bytes, b: Bytes) {
    |a| == |b| && forall i :: 0 <= i < |a| ==> Lower(a[i]) == Lower(b[i])
  }

  predicate Plain(c: u8) {
    !(0x61 <= c <= 0x7A) && c !in {SPACE, 0x2B, 0x2C, 0x3B, 0x3D, 0x5B, 0x5D}
  }

  /** FatNeedLfn, read as the names an 8.3 entry can hold. */
  predicate NeedLfn(name: Name) {
    name != [DOT] && name != [DOT, DOT] &&
    !(&& |name| <= 12
      && (forall i :: 0 <= i < |name| ==> Plain(name[i]))
      && (forall i, j :: 0 <= i < j < |name| ==> !(name[i] == DOT && name[j] == DOT))
      && |Base(name)| <= 8 && |Extension(name)| <= 3)
  }

  /** Names that only differ in case share their 8.3 name. */
  lemma FoldSharesShort(a: Bytes, b: Bytes)
    requires EqualFold(a, b)
    ensures ShortName(a) == ShortName(b)
  {
    assert forall i :: 0 <= i < |a| ==> (a[i] == DOT <==> b[i] == DOT);
    LastDotIs(b, LastDot(a, |a|));
    var d := LastDot(a, |a|);
    FoldField(Base(a), Base(b), 8);
    FoldField(Extension(a), Extension(b), 3);
  }

  lemma FoldField(a: Bytes, b: Bytes, n: nat)
    requires EqualFold(a, b)
    ensures Field(a, n) == Field(b, n)
  {
    forall i | 0 <= i < |a| ensures Upper(a[i]) == Upper(b[i]) { assert Lower(a[i]) == Lower(b[i]); }
  }

  /** A field without lower-case letters and spaces reads back as its letters. */
  lemma TrimField(s: Bytes, n: nat)
    requires |s| <= n && forall i :: 0 <= i < |s| ==> Plain(s[i])
    ensures |Trimmed(Field(s, n))| == |s|
    ensures forall i :: 0 <= i < |s| ==> Trimmed(Field(s, n))[i] == Lower(s[i])
    ensures Field(Trimmed(Field(s, n)), n) == Field(s, n)
  {
    var f := Field(s, n);
    forall i | 0 <= i < |s| ensures f[i] == s[i] != SPACE { }
    TrimmedLength(f, |s|);
  }

  lemma {:induction false} TrimmedLength(f: Bytes, k: nat)
    requires k <= |f| && (k < |f| ==> f[k] == SPACE)
    requires forall i :: 0 <= i < k ==> f[i] != SPACE
    ensures |Trimmed(f)| == k
  {
    if k > 0 {
      TrimmedLength(f[1..], k - 1);
    }
  }

  /** An entry without a long name shows a name that generates the same 8.3 name. */
  lemma ShortSurvives(name: Name)
    requires !NeedLfn(name) && name != [DOT] && name != [DOT, DOT]
    ensures ShortName(DisplayName(ShortName(name))) == ShortName(name)
  {
    var base, ext := Base(name), Extension(name);
    BasePlain(name);
    TrimField(base, 8);
    TrimField(ext, 3);
    var raw := ShortName(name);
    assert raw[..8] == Field(base, 8) && raw[8..] == Field(ext, 3);
    assert raw[8] == Field(ext, 3)[0];
    ShownParts(Trimmed(Field(base, 8)), Trimmed(Field(ext, 3)), base, ext);
  }

  /** The parts of a name that needs no long entry hold no dots and no unusual bytes. */
  lemma BasePlain(name: Name)
    requires !NeedLfn(name) && name != [DOT] && name != [DOT, DOT]
    ensures |Base(name)| <= 8 && |Extension(name)| <= 3
    ensures forall i :: 0 <= i < |Base(name)| ==> Plain(Base(name)[i]) && Base(name)[i] != DOT
    ensures forall i :: 0 <= i < |Extension(name)| ==> Plain(Extension(name)[i]) && Extension(name)[i] != DOT
  {
    var d := LastDot(name, |name|);
    assert forall i :: 0 <= i < |Base(name)| ==> Base(name)[i] == name[i];
    assert forall i :: 0 <= i < |Extension(name)| ==> Extension(name)[i] == name[d + 1 + i];
  }

  /** The parts of a name put together with a dot come apart again. */
  lemma ShownParts(b: Bytes, e: Bytes, base: Bytes, ext: Bytes)
    requires |b| == |base| && |e| == |ext|
    requires forall i :: 0 <= i < |b| ==> base[i] != DOT && b[i] == Lower(base[i])
    requires forall i :: 0 <= i < |e| ==> ext[i] != DOT && e[i] == Lower(ext[i])
    ensures var shown := b + if e == [] then [] else [DOT] + e;
            Base(shown) == b && Extension(shown) == e
  {
    var shown := b + if e == [] then [] else [DOT] + e;
    if e == [] {
      LastDotIs(shown, -1);
    } else {
      forall i | |b| < i < |shown| ensures shown[i] != DOT { assert shown[i] == e[i - |b| - 1]; }
      LastDotIs(shown, |b|);
    }
  }

  // ---- letters ---------------------------------------------------------------

  /** The same byte, or one letter in its two cases, which lie 32 apart. */
  predicate SameLetter(x: u8, y: u8) {
    x == y || (0x41 <= x <= 0x5A && y == x + 32) || (0x41 <= y <= 0x5A && x == y + 32)
  }

  /** Names that differ in the case of letters only. */
  ghost predicate CaseVariant(a: Bytes, b: Bytes) {
    |a| == |b| && forall i :: 0 <= i < |a| ==> SameLetter(a[i], b[i])
  }

  lemma LowerIsCase(x: u8, y: u8)
    ensures Lower(x) == Lower(y) <==> SameLetter(x, y)
  {
  }

  /** The driver's comparison ignores the case of letters, and nothing else. */
  lemma FoldIsCase(a: Bytes, b: Bytes)
    ensures EqualFold(a, b) <==> CaseVariant(a, b)
  {
    hide Lower, SameLetter;
    if |a| == |b| {
      forall i | 0 <= i < |a| ensures Lower(a[i]) == Lower(b[i]) <==> SameLetter(a[i], b[i]) { LowerIsCase(a[i], b[i]); }
    }
  }

  /** Names that differ only in case share their 8.3 name. */
  lemma CaseSharesShort(a: Bytes, b: Bytes)
    requires CaseVariant(a, b)
    ensures ShortName(a) == ShortName(b)
  {
    FoldIsCase(a, b);
    FoldSharesShort(a, b);
  }

  /** An 8.3 name is shown without capitals. */
  lemma ShownIsLower(raw: Bytes)
    requires |raw| == 11
    ensures forall i :: 0 <= i < |DisplayName(raw)| ==> !(0x41 <= DisplayName(raw)[i] <= 0x5A)
  {
    var b, e := Trimmed(raw[..8]), Trimmed(raw[8..]);
    assert forall i :: 0 <= i < |b| ==> b[i] == Lower(raw[..8][i]);
    assert forall i :: 0 <= i < |e| ==> e[i] == Lower(raw[8..][i]);
  }

  /** What an 8.3 name keeps of a byte: capitals for letters, an underscore for a space. */
  predicate Capital(c: u8, f: u8) {
    if c == SPACE then f == 0x5F else SameLetter(c, f) && !(0x61 <= f <= 0x7A)
  }

  /** The field holds the capitals of `s`, as many as fit, and then spaces. */
  ghost predicate Filled(s: Bytes, f: Bytes) {
    forall i :: 0 <= i < |f| ==> if i < |s| then Capital(s[i], f[i]) else f[i] == SPACE
  }

  lemma FieldFilled(s: Bytes, n: nat)
    ensures Filled(s, Field(s, n))
  {
  }

  /** The 8.3 name of a name with a dot is made of what stands on either side of the last one. */
  lemma ShortAroundDot(base: Bytes, ext: Bytes)
    requires DOT !in ext
    ensures var f := ShortName(base + [DOT] + ext); Filled(base, f[..8]) && Filled(ext, f[8..])
  {
    hide Field;
    var name := base + [DOT] + ext;
    forall i | |base| < i < |name| ensures name[i] != DOT { assert name[i] == ext[i - |base| - 1]; }
    LastDotIs(name, |base|);
    assert Base(name) == base && Extension(name) == ext;
    FieldFilled(base, 8);
    FieldFilled(ext, 3);
    assert ShortName(name)[..8] == Field(base, 8) && ShortName(name)[8..] == Field(ext, 3);
  }

  lemma ShortWithoutDot(base: Bytes)
    requires DOT !in base
    ensures var f := ShortName(base); Filled(base, f[..8]) && Filled([], f[8..])
  {
    hide Field;
    LastDotIs(base, -1);
    assert Base(base) == base && Extension(base) == [];
    FieldFilled(base, 8);
    FieldFilled([], 3);
    assert ShortName(base)[..8] == Field(base, 8) && ShortName(base)[8..] == Field([], 3);
  }

  /** A part of a name that an 8.3 entry can hold as it is. */
  ghost predicate ShortPart(s: Bytes, n: nat) {
    |s| <= n && DOT !in s
    && forall i :: 0 <= i < |s| ==> !(0x61 <= s[i] <= 0x7A) && s[i] !in {SPACE, 0x2B, 0x2C, 0x3B, 0x3D, 0x5B, 0x5D}
  }

  ghost predicate Splits(name: Bytes, b: Bytes, e: Bytes) {
    ShortPart(b, 8) && ShortPart(e, 3) && (name == b + [DOT] + e || (name == b && e == []))
  }

  /** A name gets a long entry unless it is of 8.3 form already. */
  lemma LongUnlessShort(name: Name)
    requires name != [DOT] && name != [DOT, DOT]
    ensures NeedLfn(name) <==> !exists b: Bytes, e: Bytes :: Splits(name, b, e)
  {
    var b, e := Base(name), Extension(name);
    if !NeedLfn(name) {
      BasePlain(name);
      if LastDot(name, |name|) >= 0 { assert name == b + [DOT] + e; }
      assert Splits(name, b, e);
    }
    if b: Bytes, e: Bytes :| Splits(name, b, e) { SplitIsShort(name, b, e); }
  }

  lemma SplitIsShort(name: Name, b: Bytes, e: Bytes)
    requires Splits(name, b, e) && name != [DOT] && name != [DOT, DOT]
    ensures !NeedLfn(name)
  {
    if name == b + [DOT] + e {
      forall i | |b| < i < |name| ensures name[i] != DOT { assert name[i] == e[i - |b| - 1]; }
      forall i | 0 <= i < |b| ensures name[i] == b[i] { }
      LastDotIs(name, |b|);
      assert Base(name) == b && Extension(name) == e;
    } else {
      LastDotIs(name, -1);
    }
  }

  // ---- the format of a long-name entry -----------------------------------------------

  /** Where the FAT specification puts the thirteen characters. */
  const LFN_POSITIONS: seq<nat> := [1, 3, 5, 7, 9, 14, 16, 18, 20, 22, 24, 28, 30]

  /** A long-name entry: order, attribute and checksum in their bytes, characters as two bytes each in their
      places, a zero behind the name and then bytes of ones. */
  lemma LfnFormat(name: Name, ord: u8, checksum: u8, offset: nat, i: nat)
    requires i < 13
    ensures var s := LfnSlot(name, ord, checksum, offset);
            && s[0] == ord && s[11] == 0x0F && s[13] == checksum
            && (offset + i < |name| ==> s[LFN_POSITIONS[i]] == name[offset + i] && s[LFN_POSITIONS[i] + 1] == 0)
            && (offset + i == |name| ==> s[LFN_POSITIONS[i]] == 0 && s[LFN_POSITIONS[i] + 1] == 0)
            && (offset + i > |name| ==> s[LFN_POSITIONS[i]] == 0xFF && s[LFN_POSITIONS[i] + 1] == 0xFF)
  {
    var blank := Zeros(32)[0 := ord][11 := LFN][13 := checksum];
    LaidHeader(blank, name, offset, 13);
    LaidChars(blank, name, offset, 13, i);
    assert LFN_POSITIONS[i] == CharAt(i);
    TwoBytes(LfnSlot(name, ord, checksum, offset), CharAt(i), LfnChar(name, offset + i));
  }

  lemma TwoBytes(s: Bytes, o: nat, w: nat)
    requires o + 2 <= |s| && U16(s, o) == w
    ensures w < 0x100 ==> s[o] == w && s[o + 1] == 0
    ensures w == 0xFFFF ==> s[o] == 0xFF && s[o + 1] == 0xFF
  {
  }
}
