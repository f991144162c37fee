/** What operations leave alone: files and directories on other chains keep their bytes. */
module FatFrame {
  import opened Basics
  import opened Arith
  import opened FatDisk
  import opened FatCells
  import opened FatChains
  import opened FatTables
  import opened FatData
  import opened FatNames
  import opened FatDir
  import opened FatItems
  import opened FatScans
  import opened FatEdits
  import opened FatSlots
  import opened FatVolume
  import opened FatDirectory
  import opened FatEntries
  import opened FatGrow
  import opened FatCreate

  ghost predicate OnClusters(g: Geometry, cs: seq<nat>) {
    forall j :: 0 <= j < |cs| ==> 2 <= cs[j] < g.maxCluster
  }

  /** The listed sectors are on both disks and hold the same bytes. */
  ghost predicate SectorsKept(d: Disk, d': Disk, secs: seq<nat>) {
    OnDisk(d, secs) && OnDisk(d', secs) && forall k :: 0 <= k < |secs| ==> d'[secs[k]] == d[secs[k]]
  }

  /** A stream survives writes to the sectors of a disjoint chain. */
  lemma StreamKept(d: Disk, d': Disk, g: Geometry, ds: seq<nat>, cs: seq<nat>)
    requires Fitting(d, g) && OnClusters(g, ds) && OnClusters(g, cs) && Disjoint(ds, cs)
    requires Touched(d, d', g, ChainSectors(g, cs))
    ensures Fitting(d', g) && ChainStream(d', g, ds) == ChainStream(d, g, ds)
    ensures SectorsKept(d, d', ChainSectors(g, ds))
  {
    hide ChainSectors, Stream;
    var secs := ChainSectors(g, ds);
    StreamOnDisk(d, g, ds);
    forall k | 0 <= k < |secs| ensures d'[secs[k]] == d[secs[k]] {
      StreamInside(g, ds, k);
      forall t | 0 <= t < |ChainSectors(g, cs)| ensures ChainSectors(g, cs)[t] != secs[k] {
        StreamsDisjoint(g, ds, cs, k, t);
      }
    }
    StreamSame(d, d', secs);
  }

  /** And writes to the fixed root directory. */
  lemma StreamKeptByRoot(d: Disk, d': Disk, g: Geometry, ds: seq<nat>, secs: seq<nat>)
    requires Fitting(d, g) && OnClusters(g, ds) && Touched(d, d', g, secs)
    requires forall k :: 0 <= k < |secs| ==> secs[k] < g.dataStart
    ensures Fitting(d', g) && ChainStream(d', g, ds) == ChainStream(d, g, ds)
    ensures SectorsKept(d, d', ChainSectors(g, ds))
  {
    hide ChainSectors, Stream;
    var all := ChainSectors(g, ds);
    StreamOnDisk(d, g, ds);
    forall k | 0 <= k < |all| ensures d'[all[k]] == d[all[k]] {
      StreamInside(g, ds, k);
    }
    StreamSame(d, d', all);
  }

  /** The directory on `cs` (or the fixed root) is not the chain `ds`. */
  ghost predicate Apart(g: Geometry, head: nat, cs: seq<nat>, ds: seq<nat>) {
    if FixedRoot(g, head) then cs == [] else OnClusters(g, cs) && Disjoint(ds, cs)
  }

  lemma StreamKeptByDir(d: Disk, d': Disk, g: Geometry, head: nat, cs: seq<nat>, ds: seq<nat>)
    requires Fitting(d, g) && OnClusters(g, ds) && Apart(g, head, cs, ds)
    requires Touched(d, d', g, DirSectors(g, head, cs))
    ensures Fitting(d', g) && ChainStream(d', g, ds) == ChainStream(d, g, ds)
    ensures SectorsKept(d, d', ChainSectors(g, ds))
  {
    hide ChainSectors, ChainStream, Touched;
    if FixedRoot(g, head) {
      StreamKeptByRoot(d, d', g, ds, DirSectors(g, head, cs));
    } else {
      StreamKept(d, d', g, ds, cs);
    }
  }

  // ---- the forest ------------------------------------------------------------

  /** Growing a directory chain keeps the forest. */
  lemma GrownForest(fat: Fat, fat': Fat, eof: nat, chains: set<seq<nat>>, cs: seq<nat>, cs': seq<nat>)
    requires InRange(fat, eof) && Forest(fat, eof, chains) && cs in chains && FatGrown(fat, fat', eof, cs, cs')
    ensures InRange(fat', eof) && Forest(fat', eof, chains - {cs} + {cs'})
  {
    if cs' == cs {
      assert chains - {cs} + {cs'} == chains;
    } else {
      var c := cs'[|cs|];
      ClaimInForest(fat, eof, chains, c);
      FreeOffChains(fat, eof, cs, c);
      assert cs != [c] by { assert cs[0] in cs; }
      LinkInForest(fat[c := eof], eof, chains + {[c]}, cs, c);
      var more := chains + {[c]} - {cs, [c]} + {cs + [c]};
      assert chains - {cs} + {cs'} <= more + {[c]};
      NotAloneInForest(fat, eof, chains, c);
      assert chains - {cs} + {cs'} == more;
    }
  }

  lemma NotAloneInForest(fat: Fat, eof: nat, chains: set<seq<nat>>, c: nat)
    requires 2 <= |fat| <= eof && Forest(fat, eof, chains) && IsCluster(fat, c) && fat[c] == 0
    ensures [c] !in chains
  {
    if [c] in chains {
      FreeOffChains(fat, eof, [c], c);
    }
  }

  /** Different chains of a forest are disjoint; each lies on clusters of the volume. */
  lemma InForest(g: Geometry, fat: Fat, chains: set<seq<nat>>, a: seq<nat>, b: seq<nat>)
    requires |fat| == g.maxCluster && Forest(fat, EofMarker(g.kind), chains) && a in chains && b in chains && a != b
    ensures OnClusters(g, a) && OnClusters(g, b) && Disjoint(a, b)
  {
    assert Chain(fat, EofMarker(g.kind), a) && Chain(fat, EofMarker(g.kind), b);
  }

  // ---- visibility ------------------------------------------------------------

  /** The driver finds an entry it made if and only if no free-forever slot precedes it. */
  lemma EntryVisible(kind: FatType, ss: seq<Slot>, cs: seq<nat>, items: seq<Item>, m: Made, e: NewEntry, ss': seq<Slot>)
    requires Spells(kind, ss, items) && ItemOk(kind, ItemFor(e)) && FirstShort(items, ShortName(e.name)) == None
    requires MadeFrom(kind, ss, cs, m, |ItemSlots(kind, ItemFor(e))|)
    requires ss' == m.slots[..m.p] + ItemSlots(kind, ItemFor(e)) + m.slots[m.p + |ItemSlots(kind, ItemFor(e))|..]
    ensures m.p <= |Lay(kind, items)| <==> forall k :: 0 <= k < m.p ==> !IsEnd(m.slots[k])
    ensures m.p <= |Lay(kind, items)| ==>
              exists items', a, b :: Added(items, items', ItemFor(e), a, b) && Spells(kind, ss', items')
    ensures ScanShort(ss', ShortName(e.name)).Some? <==> m.p <= |Lay(kind, items)|
  {
    hide ItemSlots, ItemOk, Lay, ScanShort, ShortName, IsEnd, IsGone;
    var l := Lay(kind, items);
    assert m.slots[..|l|] == ss[..|l|];
    assert Spells(kind, m.slots, items);
    if m.p <= |l| {
      forall k | 0 <= k < m.p ensures !IsEnd(m.slots[k]) {
        assert m.slots[k] == m.slots[..|l|][k];
        LayNotEnd(kind, items, k);
      }
      var a, b, items' := SpellsAdded(kind, m.slots, items, ItemFor(e), m.p);
      assert Added(items, items', ItemFor(e), a, b) && Spells(kind, ss', items');
      AddedFound(items, items', ItemFor(e), a, b);
      ScanSpelled(kind, ss', items', e);
    } else {
      assert IsEnd(m.slots[|l|]);
      HiddenScan(kind, ss', items, m, e);
    }
  }

  lemma HiddenScan(kind: FatType, ss': seq<Slot>, items: seq<Item>, m: Made, e: NewEntry)
    requires Spells(kind, m.slots, items) && ItemOk(kind, ItemFor(e)) && FirstShort(items, ShortName(e.name)) == None
    requires |Lay(kind, items)| < m.p <= |m.slots| && |ss'| == |m.slots| && ss'[..m.p] == m.slots[..m.p]
    ensures ScanShort(ss', ShortName(e.name)) == None
  {
    hide ItemSlots, Lay, ScanShort, ShortName, FirstShort;
    var l := Lay(kind, items);
    var rest := ss'[|l|..];
    assert ss'[..|l|] == m.slots[..m.p][..|l|] == l;
    assert rest[0] == ss'[..m.p][|l|] == m.slots[|l|];
    assert ss' == l + rest;
    ScanItems(kind, items, rest, ShortName(e.name));
  }

  lemma ScanSpelled(kind: FatType, ss: seq<Slot>, items: seq<Item>, e: NewEntry)
    requires Spells(kind, ss, items) && ItemOk(kind, ItemFor(e)) && FirstShort(items, ShortName(e.name)).Some?
    ensures ScanShort(ss, ShortName(e.name)).Some?
  {
    hide ItemSlots, Lay, ScanShort, ShortName, FirstShort;
    var l := Lay(kind, items);
    assert ss == l + ss[|l|..];
    ScanItems(kind, items, ss[|l|..], ShortName(e.name));
  }

  /** A new entry is found under its name, and every other name finds what it found before. */
  lemma AddedFound(items: seq<Item>, items': seq<Item>, e: Item, a: nat, b: nat)
    requires Added(items, items', e, a, b) && e.Entry? && FirstShort(items, ShortName(e.name)) == None
    ensures FirstShort(items', ShortName(e.name)) == Some(a) && items'[a] == e
  {
    hide ShortName;
    assert items'[a] == e;
    forall i | 0 <= i < a ensures !HasShort(items'[i], ShortName(e.name)) { assert items'[i] == items[i]; }
    FirstIs(items', ShortName(e.name), a);
  }

  lemma FirstIs(items: seq<Item>, short: Bytes, i: nat)
    requires i < |items| && HasShort(items[i], short) && forall j :: 0 <= j < i ==> !HasShort(items[j], short)
    ensures FirstShort(items, short) == Some(i)
  {
    hide HasShort;
  }

  // ---- what a name finds -----------------------------------------------------

  /** The entry a directory shows under an 8.3 name. */
  function FoundItem(items: seq<Item>, short: Bytes): Option<Item> {
    match FirstShort(items, short) case None => None case Some(i) => Some(items[i])
  }

  lemma {:induction false} FoundConcat(xs: seq<Item>, ys: seq<Item>, short: Bytes)
    ensures FoundItem(xs + ys, short) == if FoundItem(xs, short).Some? then FoundItem(xs, short) else FoundItem(ys, short)
  {
    hide HasShort;
    if xs == [] {
      assert xs + ys == ys;
    } else {
      assert (xs + ys)[1..] == xs[1..] + ys && (xs + ys)[0] == xs[0];
      FoundConcat(xs[1..], ys, short);
    }
  }

  lemma NotFound(xs: seq<Item>, short: Bytes)
    requires forall i :: 0 <= i < |xs| ==> !HasShort(xs[i], short)
    ensures FoundItem(xs, short) == None
  {
  }

  /** Replacing items that do not go by the name by others that do not either. */
  lemma FoundBeside(xs: seq<Item>, ys: seq<Item>, ys': seq<Item>, zs: seq<Item>, short: Bytes)
    requires forall i :: 0 <= i < |ys| ==> !HasShort(ys[i], short)
    requires forall i :: 0 <= i < |ys'| ==> !HasShort(ys'[i], short)
    ensures FoundItem(xs + ys + zs, short) == FoundItem(xs + ys' + zs, short)
  {
    hide FoundItem, HasShort;
    NotFound(ys, short);
    NotFound(ys', short);
    FoundConcat(xs, ys, short);
    FoundConcat(xs, ys', short);
    FoundConcat(xs + ys, zs, short);
    FoundConcat(xs + ys', zs, short);
  }

  /** Every name but `short` finds what it found before. */
  ghost predicate OthersFound(items: seq<Item>, items': seq<Item>, short: Bytes) {
    forall other :: other != short ==> FoundItem(items', other) == FoundItem(items, other)
  }

  lemma AddedOthers(items: seq<Item>, items': seq<Item>, e: Item, a: nat, b: nat)
    requires Added(items, items', e, a, b) && e.Entry?
    ensures OthersFound(items, items', ShortName(e.name))
  {
    hide FoundItem, ShortName;
    forall other | other != ShortName(e.name) ensures FoundItem(items', other) == FoundItem(items, other) {
      assert items == items[..a] + items[a..b] + items[b..];
      FoundBeside(items[..a], items[a..b], [e], items[b..], other);
    }
  }

  /** Replacing the item of a name by another of that name. */
  lemma SetOthers(items: seq<Item>, i: nat, e: Item)
    requires i < |items| && items[i].Entry? && e.Entry? && e.name == items[i].name
    requires FirstShort(items, ShortName(e.name)) == Some(i)
    ensures OthersFound(items, items[i := e], ShortName(e.name))
    ensures FirstShort(items[i := e], ShortName(e.name)) == Some(i)
  {
    hide FoundItem, ShortName;
    forall other | other != ShortName(e.name) ensures FoundItem(items[i := e], other) == FoundItem(items, other) {
      assert items == items[..i] + [items[i]] + items[i + 1..] && items[i := e] == items[..i] + [e] + items[i + 1..];
      FoundBeside(items[..i], [items[i]], [e], items[i + 1..], other);
    }
    var items' := items[i := e];
    forall j | 0 <= j < i ensures !HasShort(items'[j], ShortName(e.name)) { assert items'[j] == items[j]; }
    FirstIs(items', ShortName(e.name), i);
  }

  /** Erasing the item of a name. */
  lemma ErasedOthers(items: seq<Item>, i: nat, mid: seq<Item>)
    requires i < |items| && items[i].Entry? && forall x :: 0 <= x < |mid| ==> mid[x].Gone?
    requires forall j :: 0 <= j < |items| && j != i ==> !HasShort(items[j], ShortName(items[i].name))
    ensures OthersFound(items, items[..i] + mid + items[i + 1..], ShortName(items[i].name))
    ensures FoundItem(items[..i] + mid + items[i + 1..], ShortName(items[i].name)) == None
  {
    hide FoundItem, ShortName;
    var items', short := items[..i] + mid + items[i + 1..], ShortName(items[i].name);
    forall other | other != short ensures FoundItem(items', other) == FoundItem(items, other) {
      assert items == items[..i] + [items[i]] + items[i + 1..];
      FoundBeside(items[..i], [items[i]], mid, items[i + 1..], other);
    }
    NotFound(items', short);
  }
}
