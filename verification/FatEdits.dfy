/** Edits of a directory: what writing, overwriting and erasing slots does to its items. */
module FatEdits {
  import opened Arith
  import opened FatDisk
  import opened FatCells
  import opened FatData
  import opened FatNames
  import opened FatDir
  import opened FatItems
  import opened FatScans

  /** The slots spell out the items and then nothing but free-forever slots. */
  ghost predicate Spells(kind: FatType, ss: seq<Slot>, items: seq<Item>)
    ensures Spells(kind, ss, items) ==> ItemsOk(kind, items) && |Lay(kind, items)| <= |ss|
  {
    && ItemsOk(kind, items)
    && |Lay(kind, items)| <= |ss|
    && ss[..|Lay(kind, items)|] == Lay(kind, items)
    && forall k :: |Lay(kind, items)| <= k < |ss| ==> IsEnd(ss[k])
  }

  /** `items'` is `items` with the new entry `e` in place of some erased items. */
  ghost predicate Added(items: seq<Item>, items': seq<Item>, e: Item, a: nat, b: nat) {
    && a <= b <= |items|
    && (forall i :: a <= i < b ==> items[i].Gone?)
    && items' == items[..a] + [e] + items[b..]
  }

  lemma {:induction false} LayConcat(kind: FatType, xs: seq<Item>, ys: seq<Item>)
    requires ItemsOk(kind, xs) && ItemsOk(kind, ys)
    ensures ItemsOk(kind, xs + ys) && Lay(kind, xs + ys) == Lay(kind, xs) + Lay(kind, ys)
  {
    hide ItemSlots, ItemOk;
    if xs == [] {
      assert xs + ys == ys;
    } else {
      assert (xs + ys)[1..] == xs[1..] + ys && (xs + ys)[0] == xs[0];
      LayConcat(kind, xs[1..], ys);
    }
  }

  lemma LayOne(kind: FatType, it: Item)
    requires ItemOk(kind, it)
    ensures Lay(kind, [it]) == ItemSlots(kind, it)
  {
    hide ItemSlots, ItemOk;
    assert Lay(kind, [it]) == ItemSlots(kind, it) + Lay(kind, []);
  }

  lemma {:induction false} UpToIsLay(kind: FatType, items: seq<Item>, i: nat)
    requires ItemsOk(kind, items) && i <= |items|
    ensures SlotsUpTo(kind, items, i) == |Lay(kind, items[..i])|
  {
    hide ItemSlots, ItemOk;
    if i > 0 {
      UpToIsLay(kind, items[1..], i - 1);
      assert items[..i][1..] == items[1..][..i - 1];
    }
  }

  /** Every slot of a live item is taken; an erased item is one erased slot. */
  lemma SlotsTaken(kind: FatType, it: Item, k: nat)
    requires ItemOk(kind, it) && k < |ItemSlots(kind, it)|
    ensures !IsEnd(ItemSlots(kind, it)[k])
    ensures IsGone(ItemSlots(kind, it)[k]) <==> it.Gone?
  {
    hide ShortSlot, LfnSlots, ShortName, Raw, LfnCount, LfnSlot;
    if it.Entry? {
      ShortSlotLooks(kind, it);
      var long := LongSlots(it.name);
      if k < |long| {
        LongSlotAt(it.name, Checksum(ShortName(it.name)), LfnCount(it.name), k);
      }
    }
  }

  lemma {:induction false} LongSlotAt(name: Name, checksum: u8, n: nat, k: nat)
    requires |name| <= 255 && n <= LfnCount(name) && k < n
    ensures IsLfn(LfnSlots(name, checksum, n)[k]) && !IsEnd(LfnSlots(name, checksum, n)[k]) && !IsGone(LfnSlots(name, checksum, n)[k])
  {
    hide LfnSlot, LfnOrd, IsLfn, IsEnd, IsGone, LfnCount;
    if k == 0 {
      LfnSlotLooks(name, checksum, n - 1);
    } else {
      LongSlotAt(name, checksum, n - 1, k - 1);
    }
  }

  /** A run of free slots that starts no later than the end of the items begins at
      an item boundary and covers erased items only, or runs into the free end. */
  lemma {:induction false} RunCoversGone(kind: FatType, items: seq<Item>, ss: seq<Slot>, p: nat, n: nat)
    returns (a: nat, b: nat)
    requires Spells(kind, ss, items) && p <= |Lay(kind, items)| && p + n <= |ss| && 1 <= n
    requires forall k :: p <= k < p + n ==> IsEnd(ss[k]) || IsGone(ss[k])
    ensures a <= b <= |items| && |Lay(kind, items[..a])| == p
    ensures forall i :: a <= i < b ==> items[i].Gone?
    ensures |Lay(kind, items[..b])| == p + n || (b == |items| && |Lay(kind, items)| < p + n)
    decreases |items|, n
  {
    hide ItemSlots, ItemOk;
    if items == [] {
      return 0, 0;
    }
    var it := items[0];
    var m := |ItemSlots(kind, it)|;
    Behind(kind, items, ss);
    assert ss[0] == ItemSlots(kind, it)[0];
    SlotsTaken(kind, it, 0);
    if p == 0 {
      a := 0;
      assert it.Gone? && m == 1 by { GoneIsOne(kind, it); }
      if n == 1 {
        b := 1;
        assert items[..1] == [it];
        LayOne(kind, it);
      } else {
        var a', b' := RunCoversGone(kind, items[1..], ss[1..], 0, n - 1);
        EmptyPrefix(kind, items[1..], a');
        b := b' + 1;
        assert items[..b] == [it] + items[1..][..b'];
        forall i | 0 <= i < b ensures items[i].Gone? {
          if i > 0 { assert items[i] == items[1..][i - 1]; }
        }
      }
    } else {
      if p < m { InsideItem(kind, it, ss, p); }
      assert m <= p;
      var a', b' := RunCoversGone(kind, items[1..], ss[m..], p - m, n);
      a, b := a' + 1, b' + 1;
      assert items[..a] == [it] + items[1..][..a'] && items[..b] == [it] + items[1..][..b'];
      forall i | a <= i < b ensures items[i].Gone? { assert items[i] == items[1..][i - 1]; }
    }
  }

  lemma InsideItem(kind: FatType, it: Item, ss: seq<Slot>, p: nat)
    requires ItemOk(kind, it) && 0 < p < |ItemSlots(kind, it)| <= |ss| && ss[..|ItemSlots(kind, it)|] == ItemSlots(kind, it)
    ensures !IsEnd(ss[p]) && !IsGone(ss[p])
  {
    hide ItemSlots;
    assert ss[p] == ItemSlots(kind, it)[p];
    SlotsTaken(kind, it, p);
    GoneIsOne(kind, it);
  }

  lemma GoneIsOne(kind: FatType, it: Item)
    requires ItemOk(kind, it)
    ensures it.Gone? ==> |ItemSlots(kind, it)| == 1
  {
  }

  /** Items with no slots are no items. */
  lemma EmptyPrefix(kind: FatType, items: seq<Item>, a: nat)
    requires ItemsOk(kind, items) && a <= |items| && |Lay(kind, items[..a])| == 0
    ensures a == 0
  {
    hide ItemSlots;
  }

  /** The slots behind the first item spell the remaining items. */
  lemma Behind(kind: FatType, items: seq<Item>, ss: seq<Slot>)
    requires Spells(kind, ss, items) && items != []
    ensures var m := |ItemSlots(kind, items[0])|;
            m <= |ss| && ss[..m] == ItemSlots(kind, items[0]) && Spells(kind, ss[m..], items[1..])
  {
    hide ItemSlots, ItemOk;
    var m := |ItemSlots(kind, items[0])|;
    var l := Lay(kind, items);
    assert l[..m] == ItemSlots(kind, items[0]) && l[m..] == Lay(kind, items[1..]);
    assert ss[..m] == ss[..|l|][..m];
    assert ss[m..][..|l| - m] == ss[..|l|][m..];
  }

  lemma ReplaceMiddle<T>(s: seq<T>, x: seq<T>, y: seq<T>, z: seq<T>, m: seq<T>)
    requires |x| + |y| + |z| <= |s| && s[..|x| + |y| + |z|] == x + y + z && |m| == |y|
    ensures var s' := s[..|x|] + m + s[|x| + |y|..];
            && |s'| == |s| && s'[..|x| + |m| + |z|] == x + m + z
            && forall k :: |x| + |y| + |z| <= k < |s| ==> s'[k] == s[k]
  {
    var l := |x| + |y| + |z|;
    assert s[..|x|] == s[..l][..|x|] == x;
    assert s[|x| + |y|..l] == s[..l][|x| + |y|..] == z;
  }

  lemma PartsOk(kind: FatType, items: seq<Item>, a: nat, b: nat)
    requires ItemsOk(kind, items) && a <= b <= |items|
    ensures ItemsOk(kind, items[..a]) && ItemsOk(kind, items[a..b]) && ItemsOk(kind, items[b..])
    ensures items == items[..a] + items[a..b] + items[b..] && items[..b] == items[..a] + items[a..b]
  {
    hide ItemOk;
  }

  /** Replacing the slots of some items by the slots of others. */
  lemma SpellsReplaced(kind: FatType, ss: seq<Slot>, xs: seq<Item>, ys: seq<Item>, zs: seq<Item>, ms: seq<Item>)
    requires Spells(kind, ss, xs + ys + zs) && ItemsOk(kind, xs) && ItemsOk(kind, ys) && ItemsOk(kind, zs) && ItemsOk(kind, ms)
    requires |Lay(kind, ms)| == |Lay(kind, ys)|
    ensures |Lay(kind, xs)| + |Lay(kind, ys)| <= |ss|
    ensures Spells(kind, ss[..|Lay(kind, xs)|] + Lay(kind, ms) + ss[|Lay(kind, xs)| + |Lay(kind, ys)|..], xs + ms + zs)
  {
    hide Lay, ItemOk, ItemsOk, IsEnd, Spells;
    LayConcat(kind, xs, ys);
    LayConcat(kind, xs + ys, zs);
    LayConcat(kind, xs, ms);
    LayConcat(kind, xs + ms, zs);
    SpellsMoved(kind, ss, xs + ys + zs, xs + ms + zs, Lay(kind, xs), Lay(kind, ys), Lay(kind, zs), Lay(kind, ms));
  }

  lemma SpellsMoved(kind: FatType, ss: seq<Slot>, items: seq<Item>, items': seq<Item>,
                    x: seq<Slot>, y: seq<Slot>, z: seq<Slot>, m: seq<Slot>)
    requires Spells(kind, ss, items) && ItemsOk(kind, items') && |m| == |y|
    requires Lay(kind, items) == x + y + z && Lay(kind, items') == x + m + z
    ensures |x| + |y| <= |ss| && Spells(kind, ss[..|x|] + m + ss[|x| + |y|..], items')
  {
    hide Lay, ItemOk, ItemsOk, IsEnd;
    ReplaceMiddle(ss, x, y, z, m);
  }

  /** Writing an entry over free slots found by the free-slot scan. */
  lemma SpellsAdded(kind: FatType, ss: seq<Slot>, items: seq<Item>, e: Item, p: nat) returns (a: nat, b: nat, items': seq<Item>)
    requires Spells(kind, ss, items) && ItemOk(kind, e) && p <= |Lay(kind, items)| && p + |ItemSlots(kind, e)| <= |ss|
    requires forall k :: p <= k < p + |ItemSlots(kind, e)| ==> IsEnd(ss[k]) || IsGone(ss[k])
    ensures Added(items, items', e, a, b) && ItemsOk(kind, items[..a]) && |Lay(kind, items[..a])| == p
    ensures Spells(kind, ss[..p] + ItemSlots(kind, e) + ss[p + |ItemSlots(kind, e)|..], items')
  {
    hide Lay, ItemOk, ItemSlots, IsEnd, IsGone;
    var n := |ItemSlots(kind, e)|;
    a, b := RunCoversGone(kind, items, ss, p, n);
    items' := items[..a] + [e] + items[b..];
    PartsOk(kind, items, a, b);
    LayOne(kind, e);
    var xs, ys, zs := items[..a], items[a..b], items[b..];
    LayConcat(kind, xs, ys);
    if |Lay(kind, items[..b])| == p + n {
      SpellsReplaced(kind, ss, xs, ys, zs, [e]);
    } else {
      assert items == xs + ys;
      SpellsAtEnd(kind, ss, xs, ys, e);
      assert items' == xs + [e];
    }
  }

  lemma SpellsAtEnd(kind: FatType, ss: seq<Slot>, xs: seq<Item>, ys: seq<Item>, e: Item)
    requires ItemsOk(kind, xs) && ItemsOk(kind, ys) && ItemOk(kind, e) && Spells(kind, ss, xs + ys)
    requires |Lay(kind, xs)| + |Lay(kind, ys)| < |Lay(kind, xs)| + |ItemSlots(kind, e)| <= |ss|
    ensures var p := |Lay(kind, xs)|;
            Spells(kind, ss[..p] + ItemSlots(kind, e) + ss[p + |ItemSlots(kind, e)|..], xs + [e])
  {
    hide Lay, ItemOk, ItemSlots, IsEnd, Spells;
    LayConcat(kind, xs, ys);
    LayOne(kind, e);
    LayConcat(kind, xs, [e]);
    SpellsReads(kind, ss, xs + ys);
    var p := |Lay(kind, xs)|;
    var ss' := ss[..p] + ItemSlots(kind, e) + ss[p + |ItemSlots(kind, e)|..];
    PutBehind(ss, Lay(kind, xs), Lay(kind, ys), ItemSlots(kind, e));
    SpellsFrom(kind, ss', xs + [e]);
  }

  lemma SpellsReads(kind: FatType, ss: seq<Slot>, items: seq<Item>)
    requires Spells(kind, ss, items)
    ensures ss[..|Lay(kind, items)|] == Lay(kind, items) && forall k :: |Lay(kind, items)| <= k < |ss| ==> IsEnd(ss[k])
  {
  }

  lemma SpellsFrom(kind: FatType, ss: seq<Slot>, items: seq<Item>)
    requires ItemsOk(kind, items) && |Lay(kind, items)| <= |ss| && ss[..|Lay(kind, items)|] == Lay(kind, items)
    requires forall k :: |Lay(kind, items)| <= k < |ss| ==> IsEnd(ss[k])
    ensures Spells(kind, ss, items)
  {
  }

  lemma PutBehind<T>(ss: seq<T>, x: seq<T>, y: seq<T>, e: seq<T>)
    requires |x| + |y| <= |x| + |e| <= |ss| && ss[..|x| + |y|] == x + y
    ensures var ss' := ss[..|x|] + e + ss[|x| + |e|..];
            && |ss'| == |ss| && ss'[..|x| + |e|] == x + e
            && forall k :: |x| + |e| <= k < |ss| ==> ss'[k] == ss[k]
  {
    assert ss[..|x|] == ss[..|x| + |y|][..|x|] == x;
  }

  // ---- erasing and overwriting ----------------------------------------------

  function Erased(s: Slot): (s': Slot)
    ensures IsGone(s')
  {
    s[0 := 0xE5]
  }

  function ErasedItems(ss: seq<Slot>): (items: seq<Item>)
    ensures |items| == |ss|
  {
    if ss == [] then [] else [Gone(Erased(ss[0]))] + ErasedItems(ss[1..])
  }

  lemma {:induction false} ErasedLay(kind: FatType, ss: seq<Slot>)
    ensures ItemsOk(kind, ErasedItems(ss))
    ensures |Lay(kind, ErasedItems(ss))| == |ss|
    ensures forall i :: 0 <= i < |ss| ==> ErasedItems(ss)[i].Gone? && Lay(kind, ErasedItems(ss))[i] == Erased(ss[i])
  {
    hide Erased;
    if ss != [] {
      ErasedLay(kind, ss[1..]);
      assert ErasedItems(ss)[1..] == ErasedItems(ss[1..]);
    }
  }

  /** Erasing every slot of an item leaves erased slots in its place. */
  lemma SpellsErased(kind: FatType, ss: seq<Slot>, ss': seq<Slot>, items: seq<Item>, i: nat)
    requires Spells(kind, ss, items) && i < |items| && |ss'| == |ss|
    requires var p := |Lay(kind, items[..i])|;
             && p + |ItemSlots(kind, items[i])| <= |ss|
             && forall k :: 0 <= k < |ss| ==>
                  ss'[k] == if p <= k < p + |ItemSlots(kind, items[i])| then Erased(ss[k]) else ss[k]
    ensures var p := |Lay(kind, items[..i])|;
            Spells(kind, ss', items[..i] + ErasedItems(ss[p..p + |ItemSlots(kind, items[i])|]) + items[i + 1..])
  {
    hide Lay, ItemOk, ItemSlots, Erased, ErasedItems;
    PartsOk(kind, items, i, i + 1);
    var xs, ys, zs := items[..i], [items[i]], items[i + 1..];
    assert items[i..i + 1] == ys;
    LayOne(kind, items[i]);
    var p, n := |Lay(kind, xs)|, |ItemSlots(kind, items[i])|;
    var ms := ErasedItems(ss[p..p + n]);
    ErasedLay(kind, ss[p..p + n]);
    SpellsReplaced(kind, ss, xs, ys, zs, ms);
    assert ss' == ss[..p] + Lay(kind, ms) + ss[p + n..];
  }

  /** The slots of item `i`, where they lie. */
  lemma ItemSlice(kind: FatType, ss: seq<Slot>, items: seq<Item>, i: nat)
    requires Spells(kind, ss, items) && i < |items|
    ensures ItemsOk(kind, items[..i])
    ensures var p := |Lay(kind, items[..i])|;
            p + |ItemSlots(kind, items[i])| <= |Lay(kind, items)|
            && ss[p..p + |ItemSlots(kind, items[i])|] == ItemSlots(kind, items[i])
  {
    hide Lay, ItemOk, ItemSlots, IsEnd;
    PartsOk(kind, items, i, i + 1);
    var xs, ys, zs := items[..i], [items[i]], items[i + 1..];
    assert items[i..i + 1] == ys;
    LayOne(kind, items[i]);
    LayConcat(kind, xs, ys);
    LayConcat(kind, xs + ys, zs);
    var p, q, l := |Lay(kind, xs)|, |Lay(kind, xs)| + |Lay(kind, ys)|, |Lay(kind, items)|;
    assert ss[p..q] == ss[..l][p..q];
  }

  /** Overwriting the 8.3 slot of an entry changes its fields and nothing else. */
  lemma SpellsOverwritten(kind: FatType, ss: seq<Slot>, items: seq<Item>, i: nat, e: Item)
    requires Spells(kind, ss, items) && i < |items| && items[i].Entry? && e.Entry? && ItemOk(kind, e)
    requires e.name == items[i].name
    ensures var k := |Lay(kind, items[..i])| + |ItemSlots(kind, items[i])| - 1;
            && k < |ss|
            && Spells(kind, ss[k := ShortSlot(kind, ShortName(e.name), e.attr, e.first, e.size)], items[i := e])
  {
    hide Lay, ItemOk, ItemSlots, ShortSlot, ShortName, IsEnd;
    PartsOk(kind, items, i, i + 1);
    ItemSlice(kind, ss, items, i);
    var xs, ys, zs := items[..i], [items[i]], items[i + 1..];
    assert items[i..i + 1] == ys && items[i := e] == xs + [e] + zs;
    LayOne(kind, items[i]);
    LayOne(kind, e);
    LastSlot(kind, items[i], e);
    SpellsReplaced(kind, ss, xs, ys, zs, [e]);
    var p, n := |Lay(kind, xs)|, |ItemSlots(kind, items[i])|;
    var s := ShortSlot(kind, ShortName(e.name), e.attr, e.first, e.size);
    assert ss[p + n - 1 := s] == ss[..p] + ss[p..p + n][n - 1 := s] + ss[p + n..];
  }

  /** Two entries of one name differ in their last slot only. */
  lemma LastSlot(kind: FatType, it: Item, e: Item)
    requires ItemOk(kind, it) && ItemOk(kind, e) && it.Entry? && e.Entry? && e.name == it.name
    ensures var s := ShortSlot(kind, ShortName(e.name), e.attr, e.first, e.size);
            ItemSlots(kind, e) == ItemSlots(kind, it)[|ItemSlots(kind, it)| - 1 := s]
  {
    hide ShortSlot, ShortName, LongSlots;
  }
}
