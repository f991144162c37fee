/** One copy of the file allocation table as packed bytes, in all three widths,
    and the proof that it behaves as an array of independent cells. */
module FatCells {
  import opened Arith
  import opened FatDisk

  type Bytes = seq<u8>

  predicate Fits(kind: FatType, t: Bytes, c: nat) {
    CellStart(kind, c) + (if kind.Fat32? then 4 else 2) <= |t|
  }

  /** The entry of cluster `c`: an odd FAT12 entry starts in the high nibble of
      its first byte, an even one ends in the low nibble of its second. */
  function Cell(kind: FatType, t: Bytes, c: nat): nat
    requires Fits(kind, t, c)
  {
    match kind
    case Fat12 => if c % 2 == 1 then Odd12(t, c * 3 / 2) else Even12(t, c * 3 / 2)
    case Fat16 => Cell16(t, c * 2)
    case Fat32 => Cell32(t, c * 4)
  }

  function Odd12(t: Bytes, o: nat): nat
    requires o + 2 <= |t|
  {
    (t[o] / 16) as int + 16 * t[o + 1] as int
  }

  function Even12(t: Bytes, o: nat): nat
    requires o + 2 <= |t|
  {
    t[o] as int + 256 * (t[o + 1] % 16) as int
  }

  function Cell16(t: Bytes, o: nat): nat
    requires o + 2 <= |t|
  {
    t[o] as int + 0x100 * t[o + 1] as int
  }

  function Cell32(t: Bytes, o: nat): nat
    requires o + 4 <= |t|
  {
    t[o] as int + 0x100 * t[o + 1] as int + 0x1_0000 * t[o + 2] as int + 0x100_0000 * (t[o + 3] % 16) as int
  }

  function Low(x: nat): u8 { x % 256 }

  /** The table with the entry of `c` replaced by `v`; a FAT12 store keeps the
      nibble of the neighbour, a FAT32 store the four reserved bits. */
  function Put(kind: FatType, t: Bytes, c: nat, v: nat): (t': Bytes)
    requires Fits(kind, t, c)
    ensures |t'| == |t|
  {
    match kind
    case Fat12 => if c % 2 == 1 then PutOdd12(t, c * 3 / 2, v) else PutEven12(t, c * 3 / 2, v)
    case Fat16 => Put16(t, c * 2, v)
    case Fat32 => Put32(t, c * 4, v)
  }

  function PutOdd12(t: Bytes, o: nat, v: nat): Bytes
    requires o + 2 <= |t|
  {
    t[o := t[o] % 16 + 16 * (v % 16)][o + 1 := Low(v / 16)]
  }

  function PutEven12(t: Bytes, o: nat, v: nat): Bytes
    requires o + 2 <= |t|
  {
    t[o := Low(v)][o + 1 := t[o + 1] / 16 * 16 + v / 0x100 % 16]
  }

  function Put16(t: Bytes, o: nat, v: nat): Bytes
    requires o + 2 <= |t|
  {
    t[o := Low(v)][o + 1 := Low(v / 0x100)]
  }

  function Put32(t: Bytes, o: nat, v: nat): Bytes
    requires o + 4 <= |t|
  {
    t[o := Low(v)][o + 1 := Low(v / 0x100)][o + 2 := Low(v / 0x1_0000)]
     [o + 3 := t[o + 3] / 16 * 16 + v / 0x100_0000 % 16]
  }

  lemma Digits12(v: nat)
    ensures v % 16 + 16 * (v / 16 % 256) == v % 0x1000
    ensures v % 256 + 256 * (v / 256 % 16) == v % 0x1000
  {
    TwoCuts(v, 16, 256);
    TwoCuts(v, 256, 16);
  }

  lemma Digits16(v: nat)
    ensures v % 256 + 256 * (v / 256 % 256) == v % 0x1_0000
  {
    TwoCuts(v, 256, 256);
  }

  lemma Digits28(v: nat)
    ensures v % 256 + 0x100 * (v / 0x100 % 256) + 0x1_0000 * (v / 0x1_0000 % 256) + 0x100_0000 * (v / 0x100_0000 % 16)
         == v % 0x1000_0000
  {
    TwoCuts(v, 256, 256);
    TwoCuts(v, 0x1_0000, 256);
    TwoCuts(v, 0x100_0000, 16);
  }

  /** A stored entry reads back as the value cut to 12, 16 or 28 bits. */
  lemma CellAfterPut(kind: FatType, t: Bytes, c: nat, v: nat)
    requires Fits(kind, t, c)
    ensures Cell(kind, Put(kind, t, c, v), c) == Cut(kind, v)
  {
    match kind
    case Fat12 =>
      if c % 2 == 1 {
        OddReads(t, c * 3 / 2, v);
      } else {
        EvenReads(t, c * 3 / 2, v);
      }
    case Fat16 => Digits16(v);
    case Fat32 => Reads32(t, c * 4, v);
  }

  lemma OddReads(t: Bytes, o: nat, v: nat)
    requires o + 2 <= |t|
    ensures Odd12(PutOdd12(t, o, v), o) == v % 0x1000
  {
    Digits12(v);
    Nibbles(t[o], v % 16);
  }

  lemma EvenReads(t: Bytes, o: nat, v: nat)
    requires o + 2 <= |t|
    ensures Even12(PutEven12(t, o, v), o) == v % 0x1000
  {
    Digits12(v);
    Nibbles(v / 0x100 % 16, t[o + 1] / 16);
  }

  lemma Reads32(t: Bytes, o: nat, v: nat)
    requires o + 4 <= |t|
    ensures Cell32(Put32(t, o, v), o) == v % 0x1000_0000
  {
    Digits28(v);
    Nibbles(v / 0x100_0000 % 16, t[o + 3] / 16);
  }

  /** Packing two nibbles into a byte and taking them out again. */
  lemma Nibbles(a: u8, b: u8)
    requires b < 16
    ensures (a % 16 + 16 * b) / 16 == b && (a % 16 + 16 * b) % 16 == a % 16
  {
  }

  /** Storing one entry leaves every other entry alone, also the FAT12 entry
      that shares a byte with it. */
  lemma CellsIndependent(kind: FatType, t: Bytes, c: nat, v: nat, c': nat)
    requires Fits(kind, t, c) && Fits(kind, t, c') && c' != c
    ensures Cell(kind, Put(kind, t, c, v), c') == Cell(kind, t, c')
  {
    if kind.Fat12? {
      if c % 2 == 1 {
        OddKeeps(t, c, v, c');
      } else {
        EvenKeeps(t, c, v, c');
      }
    }
  }

  lemma OddKeeps(t: Bytes, c: nat, v: nat, c': nat)
    requires Fits(Fat12, t, c) && Fits(Fat12, t, c') && c' != c && c % 2 == 1
    ensures Cell(Fat12, PutOdd12(t, c * 3 / 2, v), c') == Cell(Fat12, t, c')
  {
    hide Odd12, Even12, PutOdd12;
    Offset12(c, c / 2);
    Offset12(c', c' / 2);
    if c' + 1 == c {
      OddBeside(t, c * 3 / 2, v);
    } else {
      OddApart(t, c * 3 / 2, v, c' * 3 / 2);
    }
  }

  lemma OddBeside(t: Bytes, o: nat, v: nat)
    requires 1 <= o && o + 2 <= |t|
    ensures |PutOdd12(t, o, v)| == |t| && Even12(PutOdd12(t, o, v), o - 1) == Even12(t, o - 1)
  {
    Nibbles(t[o], v % 16);
  }

  lemma OddApart(t: Bytes, o: nat, v: nat, o': nat)
    requires o + 2 <= |t| && o' + 2 <= |t| && (o' + 2 <= o || o + 2 <= o')
    ensures var t' := PutOdd12(t, o, v); |t'| == |t| && Odd12(t', o') == Odd12(t, o') && Even12(t', o') == Even12(t, o')
  {
  }

  lemma EvenKeeps(t: Bytes, c: nat, v: nat, c': nat)
    requires Fits(Fat12, t, c) && Fits(Fat12, t, c') && c' != c && c % 2 == 0
    ensures Cell(Fat12, PutEven12(t, c * 3 / 2, v), c') == Cell(Fat12, t, c')
  {
    hide Odd12, Even12, PutEven12;
    Offset12(c, c / 2);
    Offset12(c', c' / 2);
    if c' == c + 1 {
      EvenBeside(t, c * 3 / 2, v);
    } else {
      EvenApart(t, c * 3 / 2, v, c' * 3 / 2);
    }
  }

  /** Where a FAT12 entry starts. */
  lemma Offset12(c: nat, k: nat)
    requires c == 2 * k || c == 2 * k + 1
    ensures c * 3 / 2 == if c == 2 * k then 3 * k else 3 * k + 1
    ensures c % 2 == if c == 2 * k then 0 else 1
  {
  }

  lemma EvenBeside(t: Bytes, o: nat, v: nat)
    requires o + 3 <= |t|
    ensures |PutEven12(t, o, v)| == |t| && Odd12(PutEven12(t, o, v), o + 1) == Odd12(t, o + 1)
  {
    Nibbles(v / 0x100 % 16, t[o + 1] / 16);
  }

  lemma EvenApart(t: Bytes, o: nat, v: nat, o': nat)
    requires o + 2 <= |t| && o' + 2 <= |t| && (o' + 2 <= o || o + 2 <= o')
    ensures var t' := PutEven12(t, o, v); |t'| == |t| && Odd12(t', o') == Odd12(t, o') && Even12(t', o') == Even12(t, o')
  {
  }

  /** The four reserved high bits of a FAT32 entry survive every store. */
  lemma ReservedBitsKept(t: Bytes, c: nat, v: nat)
    requires Fits(Fat32, t, c)
    ensures Put(Fat32, t, c, v)[c * 4 + 3] / 16 == t[c * 4 + 3] / 16
  {
    Nibbles(v / 0x100_0000 % 16, t[c * 4 + 3] / 16);
  }

  // ---- the format on disk ------------------------------------------------------

  /** Little-endian bytes as a number. */
  function Number(b: Bytes): nat { if b == [] then 0 else b[0] as int + 0x100 * Number(b[1..]) }

  /** Two FAT12 entries share three bytes, read as one number: the even one is its low twelve bits, the odd
      one its high twelve. */
  lemma CellFormat12(t: Bytes, k: nat)
    requires 3 * k + 3 <= |t|
    ensures Fits(Fat12, t, 2 * k) && Cell(Fat12, t, 2 * k) == Number(t[3 * k..3 * k + 3]) % 0x1000
    ensures Fits(Fat12, t, 2 * k + 1) && Cell(Fat12, t, 2 * k + 1) == Number(t[3 * k..3 * k + 3]) / 0x1000
  {
    hide Number, Odd12, Even12;
    assert 2 * k * 3 / 2 == 3 * k && (2 * k + 1) * 3 / 2 == 3 * k + 1;
    TripleFormat(t, 3 * k);
  }

  /** A FAT16 entry is the number in two bytes. */
  lemma CellFormat16(t: Bytes, c: nat)
    requires 2 * c + 2 <= |t|
    ensures Fits(Fat16, t, c) && Cell(Fat16, t, c) == Number(t[2 * c..2 * c + 2])
  {
    NumberTwo(t[2 * c..2 * c + 2]);
  }

  /** A FAT32 entry is the low 28 bits of the number in four bytes. */
  lemma CellFormat32(t: Bytes, c: nat)
    requires 4 * c + 4 <= |t|
    ensures Fits(Fat32, t, c) && Cell(Fat32, t, c) == Number(t[4 * c..4 * c + 4]) % 0x1000_0000
  {
    hide Number;
    var b := t[4 * c..4 * c + 4];
    NumberFour(b);
    var r, q := b[0] as int + 0x100 * b[1] as int + 0x1_0000 * b[2] as int + 0x100_0000 * (b[3] % 16) as int, (b[3] / 16) as int;
    assert b[3] as int == 16 * q + (b[3] % 16) as int;
    Remainder(Number(b), 0x1000_0000, q, r);
  }

  lemma NumberTwo(b: Bytes)
    requires |b| == 2
    ensures Number(b) == b[0] as int + 0x100 * b[1] as int
  {
    var t := b[1..];
    assert t[0] == b[1] && Number(t[1..]) == 0;
  }

  lemma NumberThree(b: Bytes)
    requires |b| == 3
    ensures Number(b) == b[0] as int + 0x100 * b[1] as int + 0x1_0000 * b[2] as int
  {
    NumberTwo(b[1..]);
  }

  lemma NumberFour(b: Bytes)
    requires |b| == 4
    ensures Number(b) == b[0] as int + 0x100 * b[1] as int + 0x1_0000 * b[2] as int + 0x100_0000 * b[3] as int
  {
    NumberThree(b[1..]);
  }

  lemma TripleFormat(t: Bytes, o: nat)
    requires o + 3 <= |t|
    ensures Even12(t, o) == Number(t[o..o + 3]) % 0x1000 && Odd12(t, o + 1) == Number(t[o..o + 3]) / 0x1000
  {
    hide Number;
    var b := t[o..o + 3];
    NumberThree(b);
    var r, q := b[0] as int + 0x100 * (b[1] % 16) as int, (b[1] / 16) as int + 16 * b[2] as int;
    assert b[1] as int == 16 * (b[1] / 16) as int + (b[1] % 16) as int;
    Remainder(Number(b), 0x1000, q, r);
  }
}
