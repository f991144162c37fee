/** Making a directory entry: free slots or a new cluster, then the slots of the entry;
    and exactly when the driver will see the entry again. */
module FatCreate {
  import opened Basics
  import opened Arith
  import opened FatDisk
  import opened FatCells
  import opened FatChains
  import opened FatTables
  import opened FatData
  import opened FatNames
  import opened FatDir
  import opened FatItems
  import opened FatScans
  import opened FatEdits
  import opened FatSlots
  import opened FatVolume
  import opened FatDirectory
  import opened FatEntries
  import opened FatGrow

  /** A long-name slot that is not erased. */
  predicate IsLong(s: Slot) { IsLfn(s) && !IsEnd(s) && !IsGone(s) }

  /** A long-name slot at the end of a sector continues in the neighbouring sector. */
  ghost predicate LfnSeated(ss: seq<Slot>, secs: seq<nat>) {
    |ss| == |secs| * 16
    && forall n :: 0 <= n && n + 1 < |secs| && IsLong(ss[n * 16 + 15]) ==> secs[n + 1] == secs[n] + 1
  }

  /** A directory in the form the driver keeps it. */
  ghost predicate DirOk(v: Volume, head: nat, cs: seq<nat>, items: seq<Item>)
    reads v
  {
    && IsDir(v, head, cs)
    && Spells(v.g.kind, Slots(v, head, cs), items)
    && LfnSeated(Slots(v, head, cs), Sectors(v, head, cs))
  }

  lemma AdjacentInRun(secs: seq<nat>, lo: nat, base: nat, count: nat, p: nat, q: nat)
    requires IsRun(secs, lo, base, count) && lo * 16 <= p <= q < (lo + count) * 16
    ensures Adjacent(secs, p, q)
  {
    hide IsRun;
    forall x | p / 16 <= x < q / 16 ensures secs[x + 1] == secs[x] + 1 {
      RunAt(secs, lo, base, count, x - lo);
      RunAt(secs, lo, base, count, x + 1 - lo);
    }
  }

  /** The slots of an entry keep long-name slots next to their successors. */
  lemma WrittenSeated(kind: FatType, ss: seq<Slot>, es: seq<Slot>, p: nat, secs: seq<nat>)
    requires LfnSeated(ss, secs) && 1 <= |es| && p + |es| <= |ss| && !IsLong(es[|es| - 1])
    requires Adjacent(secs, p, p + |es| - 1)
    ensures LfnSeated(ss[..p] + es + ss[p + |es|..], secs)
  {
    hide IsLong;
    var ss' := ss[..p] + es + ss[p + |es|..];
    forall n | 0 <= n && n + 1 < |secs| && IsLong(ss'[n * 16 + 15]) ensures secs[n + 1] == secs[n] + 1 {
      var k := n * 16 + 15;
      if p <= k < p + |es| {
        assert ss'[k] == es[k - p];
        assert k < p + |es| - 1;
        assert p / 16 <= n && n + 1 <= (p + |es| - 1) / 16;
      } else {
        assert ss'[k] == ss[k];
      }
    }
  }

  lemma ErasedSeated(ss: seq<Slot>, ss': seq<Slot>, a: nat, b: nat, secs: seq<nat>)
    requires LfnSeated(ss, secs) && ErasedRun(ss, ss', a, b)
    ensures LfnSeated(ss', secs)
  {
  }

  /** A directory grown by empty slots is still seated. */
  lemma GrownSeated(ss: seq<Slot>, ss': seq<Slot>, secs: seq<nat>, secs': seq<nat>)
    requires LfnSeated(ss, secs) && secs <= secs' && |ss'| == |secs'| * 16 && ss == ss'[..|ss|]
    requires forall k :: |ss| <= k < |ss'| ==> IsEnd(ss'[k])
    requires ss == [] || !IsLong(ss[|ss| - 1])
    ensures LfnSeated(ss', secs')
  {
    forall n | 0 <= n && n + 1 < |secs'| && IsLong(ss'[n * 16 + 15]) ensures secs'[n + 1] == secs'[n] + 1 {
      assert n < |secs|;
      assert ss'[n * 16 + 15] == ss[n * 16 + 15];
      assert n + 1 < |secs| || n * 16 + 15 == |ss| - 1;
    }
  }

  /** Items never end in a long-name slot. */
  lemma {:induction false} LayEndsShort(kind: FatType, items: seq<Item>)
    requires ItemsOk(kind, items) && items != []
    ensures |Lay(kind, items)| >= 1 && !IsLong(Lay(kind, items)[|Lay(kind, items)| - 1])
  {
    hide ItemSlots, ItemOk, IsLong;
    var it := items[0];
    if |items| == 1 {
      LayOne(kind, it);
      assert items == [it];
      EndsShort(kind, it);
    } else {
      LayEndsShort(kind, items[1..]);
    }
  }

  lemma EndsShort(kind: FatType, it: Item)
    requires ItemOk(kind, it)
    ensures !IsLong(ItemSlots(kind, it)[|ItemSlots(kind, it)| - 1])
  {
    hide ShortSlot, LongSlots, ShortName;
    if it.Entry? { ShortSlotLooks(kind, it); }
  }

  lemma SpellsEndsShort(kind: FatType, ss: seq<Slot>, items: seq<Item>)
    requires Spells(kind, ss, items) && ss != []
    ensures !IsLong(ss[|ss| - 1])
  {
    hide ItemOk;
    if |Lay(kind, items)| == |ss| {
      assert ss == Lay(kind, items);
      LayEndsShort(kind, items);
    }
  }

  /** Spelled directories satisfy the layout rule in every group. */
  lemma SpellsZeroTail(kind: FatType, ss: seq<Slot>, items: seq<Item>, a: nat, b: nat)
    requires Spells(kind, ss, items) && a <= b <= |ss|
    ensures ZeroTail(ss[a..b])
  {
    hide Lay, ItemSlots, IsEnd;
    var l := Lay(kind, items);
    forall i, j | 0 <= i < j < b - a && IsEnd(ss[a..b][i]) ensures IsEnd(ss[a..b][j]) {
      if a + j < |l| {
        assert ss[a + i] == ss[..|l|][a + i] == l[a + i];
        LayNotEnd(kind, items, a + i);
      }
    }
  }

  lemma {:induction false} LayNotEnd(kind: FatType, items: seq<Item>, k: nat)
    requires ItemsOk(kind, items) && k < |Lay(kind, items)|
    ensures !IsEnd(Lay(kind, items)[k])
  {
    hide ItemSlots, ItemOk, IsEnd;
    var m := |ItemSlots(kind, items[0])|;
    if k < m {
      SlotsTaken(kind, items[0], k);
    } else {
      LayNotEnd(kind, items[1..], k - m);
    }
  }

  // ---- making an entry -------------------------------------------------------

  /** The bytes of one entry, as Fat32WriteFile and Fat32CreateDirectory hand them down. */
  datatype NewEntry = NewEntry(name: Name, attr: u8, first: nat, size: nat)

  function ItemFor(e: NewEntry): Item { Entry(e.name, e.attr, e.first, e.size) }

  /** The slots of an entry, in on-disk order. */
  function NewSlots(kind: FatType, e: NewEntry): (es: seq<Slot>)
    requires 1 <= |e.name| <= 255
    ensures 1 <= |es| == SlotsNeeded(e.name) <= 21
  {
    WrittenSize(kind, Some(e.name), ShortName(e.name), e.attr, e.first, e.size);
    CountFits(e.name);
    WrittenSlots(kind, Some(e.name), ShortName(e.name), e.attr, e.first, e.size)
  }

  lemma CountFits(name: Name)
    requires 1 <= |name| <= 255
    ensures 1 <= SlotsNeeded(name) == LongCount(Some(name)) + 1 <= 21
  {
  }

  /** What making an entry leaves behind: the directory's chain, its slots just before
      the entry was written, and the slot it was written at. */
  datatype Made = Made(cs: seq<nat>, slots: seq<Slot>, p: nat)

  /** `m` describes a directory that was `ss` on `cs`, possibly grown by one cluster. */
  ghost predicate MadeFrom(kind: FatType, ss: seq<Slot>, cs: seq<nat>, m: Made, n: nat) {
    && |ss| <= |m.slots| && m.slots[..|ss|] == ss
    && (forall k :: |ss| <= k < |m.slots| ==> IsEnd(m.slots[k]))
    && m.p + n <= |m.slots|
    && (forall k :: m.p <= k < m.p + n ==> IsEnd(m.slots[k]) || IsGone(m.slots[k]))
    && (if m.cs == cs then m.slots == ss else |m.cs| == |cs| + 1 && m.cs[..|cs|] == cs && m.p == |ss|)
  }

  ghost predicate FatGrown(fat: Fat, fat': Fat, eof: nat, cs: seq<nat>, cs': seq<nat>)
    requires |fat| >= 2
  {
    if cs' == cs then fat' == fat
    else
      |cs'| == |cs| + 1 && cs' == cs + [cs'[|cs|]] && cs != [] && cs'[|cs|] in FreeSet(fat)
      && cs[|cs| - 1] < |fat| && fat' == fat[cs'[|cs|] := eof][cs[|cs| - 1] := cs'[|cs|]]
  }

  /** The free clusters went to a file on `fc` and to the directory that grew from `cs` to `cs'`. */
  ghost predicate SpaceTaken(fat: Fat, fat': Fat, fc: seq<nat>, cs: seq<nat>, cs': seq<nat>) {
    && |cs| <= |cs'| <= |cs| + 1 && cs'[..|cs|] == cs
    && FreeSet(fat) == FreeSet(fat') + Elems(fc) + Elems(cs'[|cs|..])
    && |FreeSet(fat)| == |FreeSet(fat')| + |fc| + |cs'| - |cs|
    && Elems(fc) !! Elems(cs'[|cs|..]) && FreeSet(fat') !! Elems(fc) && FreeSet(fat') !! Elems(cs'[|cs|..])
  }

  lemma TakenBoth(fat: Fat, fat1: Fat, fat': Fat, eof: nat, fc: seq<nat>, cs: seq<nat>, cs': seq<nat>)
    requires 2 <= |fat| <= eof && FreshChain(fat, fat1, eof, fc) && |fat1| == |fat| && FatGrown(fat1, fat', eof, cs, cs')
    requires cs != [] ==> Chain(fat1, eof, cs)
    ensures SpaceTaken(fat, fat', fc, cs, cs')
  {
    hide FreeSet, FreshChain, Elems, Chain, SpaceTaken, FatGrown;
    FreshSpace(fat, fat1, eof, fc);
    ChainThere(fat, fat1, eof, fc);
    FreshIsGone(fat1, eof, fc);
    if cs' == cs {
      TakenSame(fat, fat1, fat', eof, fc, cs);
    } else {
      TakenGrown(fat, fat1, fat', eof, fc, cs, cs');
    }
  }

  lemma TakenSame(fat: Fat, fat1: Fat, fat': Fat, eof: nat, fc: seq<nat>, cs: seq<nat>)
    requires |fat1| >= 2 && FatGrown(fat1, fat', eof, cs, cs)
    requires FreeSet(fat) == FreeSet(fat1) + Elems(fc) && |FreeSet(fat)| == |FreeSet(fat1)| + |fc| && FreeSet(fat1) !! Elems(fc)
    ensures SpaceTaken(fat, fat', fc, cs, cs)
  {
    hide FreeSet, Elems;
    Singles();
    TakenSets(FreeSet(fat), FreeSet(fat1), FreeSet(fat'), Elems(fc), {});
    assert cs[|cs|..] == [] && cs[..|cs|] == cs;
  }

  lemma TakenGrown(fat: Fat, fat1: Fat, fat': Fat, eof: nat, fc: seq<nat>, cs: seq<nat>, cs': seq<nat>)
    requires 2 <= |fat1| <= eof && FatGrown(fat1, fat', eof, cs, cs') && cs' != cs && (cs != [] ==> Chain(fat1, eof, cs))
    requires FreeSet(fat) == FreeSet(fat1) + Elems(fc) && |FreeSet(fat)| == |FreeSet(fat1)| + |fc| && FreeSet(fat1) !! Elems(fc)
    ensures SpaceTaken(fat, fat', fc, cs, cs')
  {
    hide FreeSet, Elems, Chain;
    var c := cs'[|cs|];
    GrowthSpace(fat1, fat', eof, cs, c);
    TakenSets(FreeSet(fat), FreeSet(fat1), FreeSet(fat'), Elems(fc), {c});
    Singles();
    assert cs'[|cs|..] == [c] && cs'[..|cs|] == cs;
  }

  lemma TakenSets(a: set<nat>, b: set<nat>, c: set<nat>, f: set<nat>, d: set<nat>)
    requires a == b + f && b == c + d && b !! f && c !! d
    ensures a == c + f + d && f !! d && c !! f
  {
  }

  lemma Singles()
    ensures Elems([]) == {} && forall c: nat :: Elems([c]) == {c}
  {
  }

  lemma ChainThere(fat: Fat, fat1: Fat, eof: nat, fc: seq<nat>)
    requires FreshChain(fat, fat1, eof, fc)
    ensures fc != [] ==> Chain(fat1, eof, fc)
  {
  }

  lemma FreshSpace(fat: Fat, fat1: Fat, eof: nat, fc: seq<nat>)
    requires 2 <= |fat| <= eof && FreshChain(fat, fat1, eof, fc)
    ensures |FreeSet(fat)| == |FreeSet(fat1)| + |fc|
    ensures FreeSet(fat) == FreeSet(fat1) + Elems(fc)
  {
    FreshFree(fat, fat1, eof, fc);
    hide FreeSet;
    forall c | c in Elems(fc) ensures c in FreeSet(fat) { var i :| 0 <= i < |fc| && fc[i] == c; }
  }

  lemma FreshIsGone(fat1: Fat, eof: nat, fc: seq<nat>)
    requires 2 <= |fat1| <= eof && (fc != [] ==> Chain(fat1, eof, fc))
    ensures FreeSet(fat1) !! Elems(fc)
  {
    forall c | c in FreeSet(fat1) ensures c !in fc { if fc != [] { FreeOffChains(fat1, eof, fc, c); } }
  }

  lemma GrowthSpace(fat1: Fat, fat': Fat, eof: nat, cs: seq<nat>, c: nat)
    requires 2 <= |fat1| <= eof && cs != [] && Chain(fat1, eof, cs) && c in FreeSet(fat1)
    requires fat' == fat1[c := eof][cs[|cs| - 1] := c]
    ensures FreeSet(fat1) == FreeSet(fat') + {c} && c !in FreeSet(fat') && |FreeSet(fat1)| == |FreeSet(fat')| + 1
  {
    var last := cs[|cs| - 1];
    assert fat1[last] >= eof;
    assert FreeSet(fat1) == FreeSet(fat') + {c};
  }

  /** The directory has its old slots, and the place lies in them, or it grew by one cluster of
      free slots, at whose start the place is. */
  ghost predicate Grew(g: Geometry, ss: seq<Slot>, cs: seq<nat>, m: Made) {
    if m.cs == cs then m.slots == ss && m.p < |ss|
    else
      && |m.cs| == |cs| + 1 && m.cs[..|cs|] == cs && m.p == |ss|
      && |m.slots| == |ss| + g.spc * 16 && m.slots[..|ss|] == ss && forall k :: |ss| <= k < |m.slots| ==> IsEnd(m.slots[k])
  }

  /** The entry ran out of its one-sector cluster `c`: the sector behind it, which belongs to the
      next cluster, starts with the rest of the entry's slots. */
  ghost predicate Spilled(d: Disk, d': Disk, g: Geometry, c: nat, es: seq<Slot>) {
    && 2 <= c && g.spc == 1 && 16 < |es| <= 32 && g.ClusterSector(c) + 1 < |d|
    && (var secs := Run(g.ClusterSector(c), 2);
        && Touched(d, d', g, secs) && OnDisk(d, secs) && OnDisk(d', secs)
        && SlotsOf(d', secs) == es + SlotsOf(d, secs)[|es|..])
  }

  /** The entry ran out of the cluster by which the directory on `cs` grew to `cs'`. */
  ghost predicate SpilledFrom(d: Disk, d': Disk, g: Geometry, cs: seq<nat>, cs': seq<nat>, e: NewEntry) {
    |cs| < |cs'| && 1 <= |e.name| <= 255 && Spilled(d, d', g, cs'[|cs|], NewSlots(g.kind, e))
  }

  /** Reading the sector behind the last cluster, which a very long name can lead to, is no disk error. */
  ghost predicate Roomy(v: Volume, head: nat, name: Name)
    reads v
  {
    FixedRoot(v.g, head) || SlotsNeeded(name) <= v.g.spc * 16 || v.g.totalSectors < |v.disk|
  }

  /** Where the slots of an entry are about to go: `n` slots from slot `p` of the sectors `secs` on. */
  ghost predicate Ready(d: Disk, g: Geometry, secs: seq<nat>, p: nat, n: nat, sec: nat, off: nat) {
    1 <= n && Writable(d, g, secs) && PlacedAt(secs, p, sec, off) && p + n <= |secs| * 16 && Adjacent(secs, p, p + n - 1)
  }

  /** The first half: a run of free slots, or a new cluster. The run stays in its group if and only
      if some group had room for it or it fits a cluster. */
  method PickPlace(v: Volume, head: nat, name: Name, ghost cs: seq<nat>)
    returns (ok: bool, sec: nat, off: nat, ghost m: Made, ghost i: nat, ghost k: nat, ghost secs: seq<nat>, ghost p: nat)
    requires IsDir(v, head, cs) && 1 <= |name| <= 255 && Roomy(v, head, name)
    modifies v`disk, v`lastAllocated, v.buf
    ensures v.Valid() && (!ok ==> v.Fat() == old(v.Fat()) && v.disk == old(v.disk))
    ensures var ss := old(Slots(v, head, cs));
            var t := TargetSlot(ss, GroupSize(v.g, head), SlotsNeeded(name), 0, GroupCount(v.g, head, cs));
            && (ok <==> t < |ss| || (!FixedRoot(v.g, head) && FreeSet(old(v.Fat())) != {}))
            && (ok ==> m.p == t)
            && (ok ==> (m.p + SlotsNeeded(name) <= |m.slots| <==> t < |ss| || SlotsNeeded(name) <= v.g.spc * 16))
    ensures ok ==> FatGrown(old(v.Fat()), v.Fat(), EofMarker(v.g.kind), cs, m.cs) && IsDir(v, head, m.cs)
    ensures ok ==> Grew(v.g, old(Slots(v, head, cs)), cs, m) && m.slots == Slots(v, head, m.cs)
    ensures ok && m.cs == cs ==>
              && i < GroupCount(v.g, head, cs) && m.p == Steps(i, GroupSize(v.g, head)) * 16 + k
              && GroupHas(old(Slots(v, head, cs)), i, GroupSize(v.g, head), SlotsNeeded(name), Some(k))
    ensures ok ==> Ready(v.disk, v.g, secs, p, SlotsNeeded(name), sec, off)
    ensures ok && m.p + SlotsNeeded(name) <= |m.slots| ==>
              secs == Sectors(v, head, m.cs) && p == m.p && Touched(old(v.disk), v.disk, v.g, secs)
    ensures ok && m.p + SlotsNeeded(name) > |m.slots| ==>
              && m.cs != cs && SpillPlace(old(v.disk), v.disk, v.g, m.cs[|cs|], SlotsNeeded(name))
              && secs == Run(v.g.ClusterSector(m.cs[|cs|]), 2) && p == 0
  {
    hide FatOf, Mirrored, DirSectors, DirChain, SlotsOf, PlacedAt, FreeRun, GroupHas, Adjacent, Touched, IsRun, TargetSlot, SlotsNeeded,
         FatGrown, Run, GroupSize, GroupCount, Writable;
    ghost var d, ss, n := v.disk, Slots(v, head, cs), SlotsNeeded(name);
    CountFits(name);
    m, secs, p := Made(cs, ss, 0), [], 0;
    var found;
    found, sec, off, i, k := FindFreeSlots(v, head, SlotsNeeded(name), cs);
    ok := found;
    if found {
      secs, p := Sectors(v, head, cs), Steps(i, GroupSize(v.g, head)) * 16 + k;
      m := Made(cs, ss, p);
      NotGrownAtAll(v.Fat(), EofMarker(v.g.kind), cs);
      RunPlaced(v.g, v.Fat(), head, cs, ss, i, k, n);
      WritableThere(v.disk, v.g, secs);
      NothingChanged(v.disk, v.g, secs);
      return;
    }
    ghost var c;
    ok, sec, c := ExpandDirectory(v, head, cs);
    if !ok { return; }
    off := 0;
    m := Made(cs + [c], Slots(v, head, cs + [c]), |ss|);
    SizeKept(d, v.disk, v.g, ClusterSectors(v.g, c));
    GrownBy(old(v.Fat()), v.Fat(), EofMarker(v.g.kind), cs, c);
    GrownDir(v.g, old(v.Fat()), v.Fat(), head, cs, c);
    LastInside(v.g, v.Fat(), head, cs, c);
    secs, p := if n <= v.g.spc * 16 then Sectors(v, head, cs + [c]) else Run(sec, 2), if n <= v.g.spc * 16 then |ss| else 0;
    ClusterPlaced(v.g, d, v.disk, secs, old(Sectors(v, head, cs)), Sectors(v, head, cs + [c]), c, n);
  }

  lemma WritableThere(d: Disk, g: Geometry, secs: seq<nat>)
    requires OnDisk(d, secs) && Distinct(secs) && forall k :: 0 <= k < |secs| ==> g.rootStart <= secs[k]
    ensures Writable(d, g, secs)
  {
  }

  lemma WritableOnDisk(d: Disk, g: Geometry, secs: seq<nat>)
    requires Writable(d, g, secs)
    ensures OnDisk(d, secs)
  {
  }

  lemma NothingChanged(d: Disk, g: Geometry, secs: seq<nat>)
    ensures Touched(d, d, g, secs)
  {
  }

  lemma SizeKept(d: Disk, d': Disk, g: Geometry, secs: seq<nat>)
    requires Touched(d, d', g, secs)
    ensures |d'| == |d|
  {
  }

  lemma LastInside(g: Geometry, fat: Fat, head: nat, cs: seq<nat>, c: nat)
    requires !FixedRoot(g, head) && |fat| == g.maxCluster && DirChain(fat, g, head, cs + [c])
    ensures 2 <= c < g.maxCluster
  {
    assert (cs + [c])[|cs|] == c;
  }

  /** A new cluster of one sector is too small for the entry. */
  ghost predicate SpillPlace(d: Disk, d1: Disk, g: Geometry, c: nat, n: nat) {
    && 2 <= c && g.spc == 1 && 16 < n <= 32 && g.ClusterSector(c) + 1 < |d| == |d1| && g.rootStart <= g.ClusterSector(c)
    && Touched(d, d1, g, ClusterSectors(g, c))
  }

  /** The tail of Fat32WriteFile and Fat32CreateDirectory: finds a place for the entry, growing the
      directory when no group has one, and writes it. */
  method PlaceEntry(v: Volume, head: nat, e: NewEntry, ghost cs: seq<nat>) returns (ok: bool, ghost m: Made, ghost i: nat, ghost k: nat)
    requires IsDir(v, head, cs) && 1 <= |e.name| <= 255 && Roomy(v, head, e.name)
    modifies v`disk, v`lastAllocated, v.buf
    ensures v.Valid() && (!ok ==> v.Fat() == old(v.Fat()) && v.disk == old(v.disk))
    ensures var ss := old(Slots(v, head, cs));
            var t := TargetSlot(ss, GroupSize(v.g, head), SlotsNeeded(e.name), 0, GroupCount(v.g, head, cs));
            && (ok <==> t < |ss| || (!FixedRoot(v.g, head) && FreeSet(old(v.Fat())) != {}))
            && (ok ==> m.p == t)
            && (ok ==> (m.p + SlotsNeeded(e.name) <= |m.slots| <==> t < |ss| || SlotsNeeded(e.name) <= v.g.spc * 16))
    ensures ok ==> FatGrown(old(v.Fat()), v.Fat(), EofMarker(v.g.kind), cs, m.cs) && IsDir(v, head, m.cs)
    ensures ok ==> Grew(v.g, old(Slots(v, head, cs)), cs, m)
    ensures ok && m.cs == cs ==>
              && i < GroupCount(v.g, head, cs) && m.p == Steps(i, GroupSize(v.g, head)) * 16 + k
              && GroupHas(old(Slots(v, head, cs)), i, GroupSize(v.g, head), SlotsNeeded(e.name), Some(k))
    ensures ok && m.p + SlotsNeeded(e.name) <= |m.slots| ==>
              var es := NewSlots(v.g.kind, e);
              && Slots(v, head, m.cs) == m.slots[..m.p] + es + m.slots[m.p + |es|..]
              && Touched(old(v.disk), v.disk, v.g, Sectors(v, head, m.cs))
              && Adjacent(Sectors(v, head, m.cs), m.p, m.p + |es| - 1)
    ensures ok && m.p + SlotsNeeded(e.name) > |m.slots| ==>
              m.cs != cs && Spilled(old(v.disk), v.disk, v.g, m.cs[|cs|], NewSlots(v.g.kind, e))
  {
    hide FatOf, Mirrored, DirSectors, SlotsOf, LfnSeated, PlacedAt, FreeRun, GroupHas, Adjacent, NeedLfn, LfnCount,
         Touched, ShortName, IsRun, TargetSlot, SlotsNeeded, NewSlots, WrittenSlots, FatGrown, Spilled, Run, GroupSize, GroupCount,
         Writable, SpillPlace, DirChain;
    ghost var d, es := v.disk, NewSlots(v.g.kind, e);
    WrittenAre(v.g.kind, e);
    var sec, off;
    ghost var secs, p;
    ok, sec, off, m, i, k, secs, p := PickPlace(v, head, e.name, cs);
    if !ok { return; }
    ghost var d1 := v.disk;
    WriteDirectoryEntries(v, sec, off, Some(e.name), ShortName(e.name), e.attr, e.first, e.size, secs, p);
    if m.p + |es| <= |m.slots| {
      TouchedAfter(d, d1, v.disk, v.g, secs);
    } else {
      WritableOnDisk(d1, v.g, secs);
      WritableOnDisk(v.disk, v.g, secs);
      SpilledIs(d, d1, v.disk, v.g, m.cs[|cs|], es);
    }
  }

  lemma WrittenAre(kind: FatType, e: NewEntry)
    requires 1 <= |e.name| <= 255
    ensures NewSlots(kind, e) == WrittenSlots(kind, Some(e.name), ShortName(e.name), e.attr, e.first, e.size)
  {
  }

  lemma NotGrownAtAll(fat: Fat, eof: nat, cs: seq<nat>)
    requires |fat| >= 2
    ensures FatGrown(fat, fat, eof, cs, cs)
  {
  }

  lemma GrownBy(fat: Fat, fat': Fat, eof: nat, cs: seq<nat>, c: nat)
    requires |fat| >= 2 && cs != [] && c in FreeSet(fat) && cs[|cs| - 1] < |fat| && c < |fat|
    requires fat' == fat[c := eof][cs[|cs| - 1] := c]
    ensures FatGrown(fat, fat', eof, cs, cs + [c])
  {
    assert (cs + [c])[|cs|] == c;
  }

  lemma TouchedAfter(d: Disk, d1: Disk, d2: Disk, g: Geometry, secs: seq<nat>)
    requires Touched(d, d1, g, secs) && OnlyStreamChanged(d1, d2, secs)
    ensures Touched(d, d2, g, secs)
  {
  }

  /** The run FatFindFreeSlots found lies inside its group, in neighbouring sectors. */
  lemma RunPlaced(g: Geometry, fat: Fat, head: nat, cs: seq<nat>, ss: seq<Slot>, i: nat, k: nat, n: nat)
    requires g.Valid() && |fat| == g.maxCluster && DirChain(fat, g, head, cs)
    requires |DirSectors(g, head, cs)| == Steps(GroupCount(g, head, cs), GroupSize(g, head)) && |ss| == |DirSectors(g, head, cs)| * 16
    requires i < GroupCount(g, head, cs) && 1 <= n && GroupHas(ss, i, GroupSize(g, head), n, Some(k))
    ensures var p := Steps(i, GroupSize(g, head)) * 16 + k;
            p + n <= |ss| && Adjacent(DirSectors(g, head, cs), p, p + n - 1)
  {
    hide DirSectors, Adjacent, IsRun, GroupSize, FreeRun;
    var gs := GroupSize(g, head);
    var a, b := Steps(i, gs) * 16, Steps(i + 1, gs) * 16;
    FreeRunInside(ss[a..b], n, 0, 0);
    GroupIsRun(g, fat, head, cs, i);
    AdjacentInRun(DirSectors(g, head, cs), Steps(i, gs), if FixedRoot(g, head) then g.rootStart else g.ClusterSector(cs[i]),
                  gs, a + k, a + k + n - 1);
  }

  lemma {:induction false} FreeRunInside(g: seq<Slot>, needed: nat, k: nat, run: nat)
    requires run <= k <= |g| && run < needed
    ensures var r := FreeRun(g, needed, k, run); r.Some? ==> r.value + needed <= |g|
    decreases |g| - k
  {
    hide IsEnd, IsGone;
    if k < |g| && !IsEnd(g[k]) {
      if IsGone(g[k]) {
        if run + 1 < needed { FreeRunInside(g, needed, k + 1, run + 1); }
      } else {
        FreeRunInside(g, needed, k + 1, 0);
      }
    }
  }

  /** Where the entry goes in a grown directory: into the new cluster, or, when that is too small,
      on into the sector behind it. */
  lemma ClusterPlaced(g: Geometry, d: Disk, d1: Disk, secs: seq<nat>, before: seq<nat>, after: seq<nat>, c: nat, n: nat)
    requires g.Valid() && 2 <= c < g.maxCluster && 1 <= n <= 21 && after == before + ClusterSectors(g, c) && Touched(d, d1, g, ClusterSectors(g, c))
    requires OnDisk(d1, after) && Distinct(after) && g.totalSectors <= |d1| && forall k :: 0 <= k < |after| ==> g.rootStart <= after[k]
    requires n <= g.spc * 16 || g.totalSectors < |d1|
    requires secs == if n <= g.spc * 16 then after else Run(g.ClusterSector(c), 2)
    ensures var p := if n <= g.spc * 16 then |before| * 16 else 0;
            Ready(d1, g, secs, p, n, g.ClusterSector(c), 0) && Touched(d, d1, g, secs)
    ensures n > g.spc * 16 ==> SpillPlace(d, d1, g, c, n)
  {
    hide Touched, Adjacent, PlacedAt;
    SizeKept(d, d1, g, ClusterSectors(g, c));
    ClusterInside(g, c);
    if n <= g.spc * 16 {
      GrownSectors(g, d, d1, before, c, n);
    } else {
      SpillSectors(g, d, d1, c, n);
    }
  }

  lemma SpillSectors(g: Geometry, d: Disk, d1: Disk, c: nat, n: nat)
    requires g.Valid() && 2 <= c < g.maxCluster && g.spc * 16 < n <= 21 && g.totalSectors < |d1|
    requires Touched(d, d1, g, ClusterSectors(g, c)) && g.dataStart <= g.ClusterSector(c) && g.ClusterSector(c) + g.spc <= g.totalSectors
    ensures var secs := Run(g.ClusterSector(c), 2);
            && g.spc == 1 && Writable(d1, g, secs) && PlacedAt(secs, 0, g.ClusterSector(c), 0)
            && n <= |secs| * 16 && Adjacent(secs, 0, n - 1) && Touched(d, d1, g, secs)
  {
    var s, secs := g.ClusterSector(c), Run(g.ClusterSector(c), 2);
    assert secs[0] == s && secs[1] == s + 1;
    assert ClusterSectors(g, c)[0] == s;
  }

  lemma SpilledIs(d: Disk, d1: Disk, d2: Disk, g: Geometry, c: nat, es: seq<Slot>)
    requires SpillPlace(d, d1, g, c, |es|) && OnlyStreamChanged(d1, d2, Run(g.ClusterSector(c), 2))
    requires var secs := Run(g.ClusterSector(c), 2);
             OnDisk(d1, secs) && OnDisk(d2, secs) && SlotsOf(d2, secs) == SlotsOf(d1, secs)[..0] + es + SlotsOf(d1, secs)[0 + |es|..]
    ensures Spilled(d, d2, g, c, es)
  {
    hide SlotsOf;
    var s, secs := g.ClusterSector(c), Run(g.ClusterSector(c), 2);
    assert secs[0] == s && secs[1] == s + 1;
    assert ClusterSectors(g, c) == [s];
    forall k | |es| <= k < 32 ensures SlotsOf(d1, secs)[k] == SlotsOf(d, secs)[k] {
      SlotOf(d, secs, 1, k - 16);
      SlotOf(d1, secs, 1, k - 16);
    }
    assert SlotsOf(d1, secs)[|es|..] == SlotsOf(d, secs)[|es|..];
  }

  /** PlaceEntry on a directory in the driver's form. */
  method CreateEntry(v: Volume, head: nat, e: NewEntry, ghost cs: seq<nat>, ghost items: seq<Item>)
    returns (ok: bool, ghost m: Made)
    requires DirOk(v, head, cs, items) && ItemOk(v.g.kind, ItemFor(e)) && Roomy(v, head, e.name)
    modifies v`disk, v`lastAllocated, v.buf
    ensures v.Valid()
    ensures !ok ==> v.Fat() == old(v.Fat()) && v.disk == old(v.disk)
    ensures var ss := old(Slots(v, head, cs));
            var p := TargetSlot(ss, GroupSize(v.g, head), SlotsNeeded(e.name), 0, GroupCount(v.g, head, cs));
            && (ok <==> p < |ss| || (!FixedRoot(v.g, head) && FreeSet(old(v.Fat())) != {}))
            && (ok ==> m.p == p)
            && (ok ==> (m.p + SlotsNeeded(e.name) <= |m.slots| <==> p < |ss| || SlotsNeeded(e.name) <= v.g.spc * 16))
    ensures ok ==> FatGrown(old(v.Fat()), v.Fat(), EofMarker(v.g.kind), cs, m.cs) && IsDir(v, head, m.cs)
    ensures ok && m.p + SlotsNeeded(e.name) <= |m.slots| ==>
              var es := ItemSlots(v.g.kind, ItemFor(e));
              && MadeFrom(v.g.kind, old(Slots(v, head, cs)), cs, m, |es|)
              && Slots(v, head, m.cs) == m.slots[..m.p] + es + m.slots[m.p + |es|..]
              && LfnSeated(Slots(v, head, m.cs), Sectors(v, head, m.cs))
              && Touched(old(v.disk), v.disk, v.g, Sectors(v, head, m.cs))
    ensures ok && m.p + SlotsNeeded(e.name) > |m.slots| ==>
              SpilledFrom(old(v.disk), v.disk, v.g, cs, m.cs, e)
  {
    hide FatOf, Mirrored, DirSectors, SlotsOf, ItemSlots, Spells, LfnSeated, GroupHas, Adjacent, NeedLfn, LfnCount,
         Touched, ShortName, ItemOk, TargetSlot, SlotsNeeded, NewSlots, WrittenSlots, FatGrown, Spilled, GroupSize, GroupCount, DirChain;
    ghost var d, ss, secs := v.disk, Slots(v, head, cs), Sectors(v, head, cs);
    ghost var i, k;
    NameSize(v.g.kind, e);
    ok, m, i, k := PlaceEntry(v, head, e, cs);
    if !ok { return; }
    WrittenIsItem(v.g.kind, e);
    ghost var es := NewSlots(v.g.kind, e);
    if m.p + |es| <= |m.slots| {
      if m.cs == cs {
        FoundPlace(v.g, old(v.Fat()), head, cs, ss, items, i, k, |es|);
      } else {
        GrownMade(v.g.kind, ss, m.slots, cs, m.cs[|cs|], |es|);
        assert m.cs == cs + [m.cs[|cs|]];
        GrowSeated(v.g, old(v.Fat()), v.Fat(), head, cs, m, ss, secs, items);
      }
      WrittenSeated(v.g.kind, m.slots, es, m.p, Sectors(v, head, m.cs));
    }
  }

  lemma NameSize(kind: FatType, e: NewEntry)
    requires ItemOk(kind, ItemFor(e))
    ensures 1 <= |e.name| <= 255
  {
  }

  /** A grown directory keeps long-name slots next to their successors. */
  lemma GrowSeated(g: Geometry, fat: Fat, fat': Fat, head: nat, cs: seq<nat>, m: Made, ss: seq<Slot>, secs: seq<nat>, items: seq<Item>)
    requires g.Valid() && !FixedRoot(g, head) && DirChain(fat, g, head, cs) && DirChain(fat', g, head, m.cs) && Grew(g, ss, cs, m) && m.cs != cs
    requires secs == DirSectors(g, head, cs) && Spells(g.kind, ss, items) && LfnSeated(ss, secs) && |m.slots| == |DirSectors(g, head, m.cs)| * 16
    ensures LfnSeated(m.slots, DirSectors(g, head, m.cs))
  {
    hide Spells, LfnSeated, IsLong, IsEnd, DirSectors;
    var c := m.cs[|cs|];
    assert m.cs == cs + [c];
    GrownDir(g, fat, fat', head, cs, c);
    if ss != [] { SpellsEndsShort(g.kind, ss, items); }
    GrownSeated(ss, m.slots, secs, DirSectors(g, head, m.cs));
  }

  lemma WrittenIsItem(kind: FatType, e: NewEntry)
    requires ItemOk(kind, ItemFor(e))
    ensures 1 <= |e.name| <= 255 && NewSlots(kind, e) == ItemSlots(kind, ItemFor(e))
    ensures !IsLong(ItemSlots(kind, ItemFor(e))[|ItemSlots(kind, ItemFor(e))| - 1])
  {
    hide ShortSlot, LfnSlots, NeedLfn;
    EndsShort(kind, ItemFor(e));
  }

  lemma FoundPlace(g: Geometry, fat: Fat, head: nat, cs: seq<nat>, ss: seq<Slot>, items: seq<Item>, i: nat, k: nat, n: nat)
    requires g.Valid() && |fat| == g.maxCluster && DirChain(fat, g, head, cs) && Spells(g.kind, ss, items)
    requires |DirSectors(g, head, cs)| == Steps(GroupCount(g, head, cs), GroupSize(g, head)) && |ss| == |DirSectors(g, head, cs)| * 16
    requires i < GroupCount(g, head, cs) && 1 <= n && GroupHas(ss, i, GroupSize(g, head), n, Some(k))
    ensures MadeFrom(g.kind, ss, cs, Made(cs, ss, Steps(i, GroupSize(g, head)) * 16 + k), n)
  {
    hide DirSectors, Spells, Adjacent, GroupSize, IsEnd, IsGone, FreeRun;
    var gs := GroupSize(g, head);
    RunPlaced(g, fat, head, cs, ss, i, k, n);
    SpellsZeroTail(g.kind, ss, items, Steps(i, gs) * 16, Steps(i + 1, gs) * 16);
    GroupRunFree(ss, Steps(i, gs) * 16, Steps(i + 1, gs) * 16, n, k);
  }

  lemma GroupRunFree(ss: seq<Slot>, a: nat, b: nat, n: nat, k: nat)
    requires a <= b <= |ss| && 1 <= n && ZeroTail(ss[a..b]) && FreeRun(ss[a..b], n, 0, 0) == Some(k)
    ensures a + k + n <= b && forall x :: a + k <= x < a + k + n ==> IsEnd(ss[x]) || IsGone(ss[x])
  {
    hide FreeRun, IsEnd, IsGone, ZeroTail;
    FreeRunSafe(ss[a..b], n, 0, 0);
    forall x | a + k <= x < a + k + n ensures IsEnd(ss[x]) || IsGone(ss[x]) {
      assert ss[x] == ss[a..b][x - a];
    }
  }

  lemma GrownMade(kind: FatType, ss: seq<Slot>, ss': seq<Slot>, cs: seq<nat>, c: nat, n: nat)
    requires |ss| + n <= |ss'| && ss'[..|ss|] == ss && forall k :: |ss| <= k < |ss'| ==> IsEnd(ss'[k])
    ensures MadeFrom(kind, ss, cs, Made(cs + [c], ss', |ss|), n)
  {
    assert (cs + [c])[|cs|] == c && (cs + [c])[..|cs|] == cs;
  }

  /** The sectors of the new cluster behind those of the directory. */
  lemma GrownSectors(g: Geometry, d: Disk, d': Disk, secs: seq<nat>, c: nat, n: nat)
    requires 2 <= c && 1 <= n <= g.spc * 16 && Touched(d, d', g, ClusterSectors(g, c))
    ensures var secs', p := secs + ClusterSectors(g, c), |secs| * 16;
            Adjacent(secs', p, p + n - 1) && PlacedAt(secs', p, g.ClusterSector(c), 0) && Touched(d, d', g, secs')
  {
    hide Adjacent;
    var secs', p := secs + ClusterSectors(g, c), |secs| * 16;
    RunBehind(g, secs, c);
    AdjacentInRun(secs', |secs|, g.ClusterSector(c), g.spc, p, p + n - 1);
    RunAt(secs', |secs|, g.ClusterSector(c), g.spc, 0);
    Remainder(p, 16, |secs|, 0);
    assert forall s :: s in ClusterSectors(g, c) ==> s in secs';
  }

  lemma GrownDir(g: Geometry, fat: Fat, fat': Fat, head: nat, cs: seq<nat>, c: nat)
    requires !FixedRoot(g, head) && DirChain(fat, g, head, cs) && DirChain(fat', g, head, cs + [c])
    ensures 2 <= c
    ensures DirSectors(g, head, cs + [c]) == DirSectors(g, head, cs) + ClusterSectors(g, c)
  {
    assert (cs + [c])[|cs|] == c;
    ChainGrown(g, cs, c);
  }

  lemma ChainGrown(g: Geometry, cs: seq<nat>, c: nat)
    requires 2 <= c && forall i :: 0 <= i < |cs| ==> 2 <= cs[i]
    ensures ChainSectors(g, cs + [c]) == ChainSectors(g, cs) + ClusterSectors(g, c)
  {
    assert (cs + [c])[..|cs|] == cs;
  }

  lemma RunBehind(g: Geometry, secs: seq<nat>, c: nat)
    requires 2 <= c
    ensures IsRun(secs + ClusterSectors(g, c), |secs|, g.ClusterSector(c), g.spc)
  {
    assert (secs + ClusterSectors(g, c))[|secs|..|secs| + g.spc] == ClusterSectors(g, c);
    assert ClusterSectors(g, c) == Run(g.ClusterSector(c), g.spc);
  }
}
