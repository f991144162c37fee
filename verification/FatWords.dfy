/** Little-endian words, and the masked stores of the driver written as bytes. */
module FatWords {
  import opened Arith
  import opened FatDisk
  import opened FatCells

  function U16(b: Bytes, o: nat): nat
    requires o + 2 <= |b|
  {
    b[o] as int + 0x100 * b[o + 1] as int
  }

  function U32(b: Bytes, o: nat): nat
    requires o + 4 <= |b|
  {
    U16(b, o) + 0x1_0000 * U16(b, o + 2)
  }

  function SetU16(b: Bytes, o: nat, w: nat): (b': Bytes)
    requires o + 2 <= |b|
    ensures |b'| == |b| && U16(b', o) == w % 0x1_0000
  {
    Digits16(w);
    b[o := Low(w)][o + 1 := Low(w / 0x100)]
  }

  function SetU32(b: Bytes, o: nat, w: nat): (b': Bytes)
    requires o + 4 <= |b|
    ensures |b'| == |b| && U32(b', o) == w % 0x1_0000_0000
  {
    TwoCuts(w, 0x1_0000, 0x1_0000);
    var b' := SetU16(SetU16(b, o, w), o + 2, w / 0x1_0000);
    assert U16(b', o) == U16(SetU16(b, o, w), o);
    b'
  }

  /** Reading 32 bits and masking the top four is the 28-bit entry. */
  lemma Masked32(b: Bytes, o: nat)
    requires o + 4 <= |b|
    ensures U32(b, o) % 0x1000_0000 == Cell32(b, o)
  {
    var h := b[o + 3] as int;
    Remainder(U32(b, o), 0x1000_0000, h / 16, Cell32(b, o));
  }

  lemma Word12(b: Bytes, o: nat)
    requires o + 2 <= |b|
    ensures U16(b, o) / 16 == Odd12(b, o) && U16(b, o) % 0x1000 == Even12(b, o)
  {
    var h := b[o + 1] as int;
    Remainder(U16(b, o), 16, Odd12(b, o), b[o] as int % 16);
    Remainder(U16(b, o), 0x1000, h / 16, Even12(b, o));
  }

  /** The masked 32-bit store of FatSetFatEntry, byte by byte. */
  lemma Store32(b: Bytes, o: nat, v: nat)
    requires o + 4 <= |b|
    ensures SetU32(b, o, U32(b, o) / 0x1000_0000 * 0x1000_0000 + v % 0x1000_0000) == Put32(b, o, v)
  {
    Masked32(b, o);
    var h := b[o + 3] as int;
    Remainder(U32(b, o), 0x1000_0000, h / 16, Cell32(b, o));
    MaskedBytes(h / 16, v);
  }

  lemma MaskedBytes(h: nat, v: nat)
    requires h < 16
    ensures var w := h * 0x1000_0000 + v % 0x1000_0000;
            && w % 256 == v % 256
            && w / 0x100 % 256 == v / 0x100 % 256
            && w / 0x1_0000 % 256 == v / 0x1_0000 % 256
            && w / 0x1_0000 / 0x100 % 256 == h * 16 + v / 0x100_0000 % 16
  {
    var w := h * 0x1000_0000 + v % 0x1000_0000;
    Digits28(v);
    var d0, d1, d2, d3 := v % 256, v / 0x100 % 256, v / 0x1_0000 % 256, v / 0x100_0000 % 16;
    FourDigits(w, d0, d1, d2, h * 16 + d3);
  }

  lemma FourDigits(w: nat, d0: nat, d1: nat, d2: nat, d3: nat)
    requires d0 < 256 && d1 < 256 && d2 < 256 && d3 < 256
    requires w == d0 + 0x100 * d1 + 0x1_0000 * d2 + 0x100_0000 * d3
    ensures w % 256 == d0 && w / 0x100 % 256 == d1 && w / 0x1_0000 % 256 == d2 && w / 0x1_0000 / 0x100 % 256 == d3
  {
    Remainder(w, 0x100, d1 + 0x100 * d2 + 0x1_0000 * d3, d0);
    Remainder(d1 + 0x100 * d2 + 0x1_0000 * d3, 0x100, d2 + 0x100 * d3, d1);
    Remainder(w, 0x1_0000, d2 + 0x100 * d3, d0 + 0x100 * d1);
    Remainder(d2 + 0x100 * d3, 0x100, d3, d2);
  }

  /** The masked 16-bit stores of a FAT12 entry inside one sector, byte by byte. */
  lemma Store12(b: Bytes, o: nat, v: nat)
    requires o + 2 <= |b|
    ensures SetU16(b, o, U16(b, o) % 16 + v * 16 % 0x1_0000) == PutOdd12(b, o, v)
    ensures SetU16(b, o, U16(b, o) / 0x1000 * 0x1000 + v % 0x1000) == PutEven12(b, o, v)
  {
    var l, h := b[o] as int, b[o + 1] as int;
    Remainder(U16(b, o), 16, Odd12(b, o), l % 16);
    Remainder(U16(b, o), 0x1000, h / 16, Even12(b, o));
    Digits12(v);
    OddBytes(l % 16, v);
    EvenBytes(h / 16, v);
  }

  lemma OddBytes(l: nat, v: nat)
    requires l < 16
    ensures var w := l + v * 16 % 0x1_0000;
            w % 256 == l + 16 * (v % 16) && w / 0x100 % 256 == v / 16 % 256
  {
    Digits12(v);
    Remainder(v * 16, 0x1_0000, v / 0x1000, v % 0x1000 * 16);
    var w := l + v * 16 % 0x1_0000;
    Remainder(w, 256, v / 16 % 256, l + 16 * (v % 16));
  }

  lemma EvenBytes(h: nat, v: nat)
    requires h < 16
    ensures var w := h * 0x1000 + v % 0x1000;
            w % 256 == v % 256 && w / 0x100 % 256 == h * 16 + v / 0x100 % 16
  {
    Digits12(v);
    Remainder(h * 0x1000 + v % 0x1000, 256, h * 16 + v / 0x100 % 16, v % 256);
  }
}
