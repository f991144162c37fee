/** Paths: what Fat32OpenPath walks to, and reading back by path what was written by path. */
module FatPaths {
  import opened Basics
  import opened Arith
  import opened FatDisk
  import opened FatCells
  import opened FatChains
  import opened FatTables
  import opened FatData
  import opened FatNames
  import opened FatDir
  import opened FatItems
  import opened FatScans
  import opened FatEdits
  import opened FatStore
  import opened FatFrame
  import opened FatFs
  import opened FatRefs
  import opened FatOps

  // ---- splitting -------------------------------------------------------------

  const SLASH: u8 := 0x2F
  predicate IsSep(c: u8) { c == SLASH || c == 0x5C }

  /** The length of the component at the start of `p`. */
  function WordLen(p: Name): (n: nat)
    ensures n <= |p|
    ensures forall i :: 0 <= i < n ==> !IsSep(p[i])
    ensures n < |p| ==> IsSep(p[n])
  {
    if p == [] || IsSep(p[0]) then 0 else 1 + WordLen(p[1..])
  }

  /** The components of a path, separated by slashes of either kind. */
  function Comps(p: Name): seq<Name>
    decreases |p|
  {
    if p == [] then []
    else if IsSep(p[0]) then Comps(p[1..])
    else [p[..WordLen(p)]] + Comps(p[WordLen(p)..])
  }

  lemma {:induction false} WordLenIs(w: Name, rest: Name)
    requires (forall i :: 0 <= i < |w| ==> !IsSep(w[i])) && (rest != [] ==> IsSep(rest[0]))
    ensures WordLen(w + rest) == |w|
  {
    if w == [] {
      assert w + rest == rest;
    } else {
      assert (w + rest)[1..] == w[1..] + rest;
      WordLenIs(w[1..], rest);
    }
  }

  /** A path continued by a slash and one more component. */
  lemma {:induction false} CompsSnoc(p: Name, name: Name)
    requires name != [] && forall i :: 0 <= i < |name| ==> !IsSep(name[i])
    ensures Comps(p + [SLASH] + name) == Comps(p) + [name]
    decreases |p|
  {
    var tail: Name := [SLASH] + name;
    var whole: Name := p + tail;
    assert p + [SLASH] + name == whole;
    if p == [] {
      assert whole == tail && tail[1..] == name;
      OneComp(name);
    } else if IsSep(p[0]) {
      assert whole[1..] == p[1..] + [SLASH] + name;
      CompsSnoc(p[1..], name);
    } else {
      var n := WordLen(p);
      assert whole == p[..n] + (p[n..] + tail);
      WordLenIs(p[..n], p[n..] + tail);
      assert whole[n..] == p[n..] + [SLASH] + name && whole[..n] == p[..n];
      CompsSnoc(p[n..], name);
    }
  }

  lemma OneComp(name: Name)
    requires name != [] && forall i :: 0 <= i < |name| ==> !IsSep(name[i])
    ensures Comps(name) == [name]
  {
    assert name + [] == name;
    WordLenIs(name, []);
    assert name[..|name|] == name && name[|name|..] == [];
  }

  // ---- walking ---------------------------------------------------------------

  const LIMIT: nat := 64

  /** The entry Fat32OpenPath finds for a component: the driver looks at 64 entries. */
  function Lookup(kind: FatType, items: seq<Item>, comp: Name): (r: Option<Item>)
    ensures r.Some? ==> r.value.Entry? && r == FoundItem(items, ShortName(comp))
  {
    match FirstShort(items, ShortName(comp))
    case None => None
    case Some(i) => if |Listing(kind, items[..i])| < LIMIT then Some(items[i]) else None
  }

  function Shown(it: Item): DirEntry
    requires it.Entry?
  {
    DirEntry(ShownName(it.name), it.attr == DIRECTORY, it.first, it.size)
  }

  lemma {:induction false} LookupLimited(kind: FatType, items: seq<Item>, comp: Name, n: nat)
    requires ItemsOk(kind, items) && GoodName(comp)
    ensures FirstMatch(Take(Listing(kind, items), n), comp)
         == match FirstShort(items, ShortName(comp))
            case None => None
            case Some(i) => if |Listing(kind, items[..i])| < n then Some(Shown(items[i])) else None
  {
    hide Matches, ShownName, DisplayName, CString, Raw, FirstOf, SizeOf, ShortName;
    if items != [] {
      var it, rest := items[0], items[1..];
      var n' := if it.Entry? || it.Dots? then (if n == 0 then 0 else n - 1) else n;
      LookupLimited(kind, rest, comp, n');
      ListingTake(kind, items, n);
      PrefixListing(kind, items, FirstShort(rest, ShortName(comp)));
      match it
      case Entry(name, attr, first, size) => ShownMatches(name, attr == DIRECTORY, first, size, comp);
      case Dots(s) => DotsNeverMatch(kind, s, comp);
      case _ =>
    }
  }

  /** The first entry of a listing, cut to `n`. */
  lemma ListingTake(kind: FatType, items: seq<Item>, n: nat)
    requires items != []
    ensures var es, rest := Take(Listing(kind, items), n), Listing(kind, items[1..]);
            if items[0].Entry? then
              (if n == 0 then es == [] else es != [] && es[0] == Shown(items[0]) && es[1..] == Take(rest, n - 1))
            else if items[0].Dots? then
              (if n == 0 then es == []
               else es != [] && es[1..] == Take(rest, n - 1)
                    && es[0] == DirEntry(CString(DisplayName(Raw(items[0].slot))), true, FirstOf(kind, items[0].slot), SizeOf(items[0].slot)))
            else es == Take(rest, n)
  {
    hide ShownName, DisplayName, CString, FirstOf, SizeOf, Take;
    var rest := Listing(kind, items[1..]);
    match items[0]
    case Entry(_, _, _, _) => TakeCons(Shown(items[0]), rest, n);
    case Dots(s) => TakeCons(DirEntry(CString(DisplayName(Raw(s))), true, FirstOf(kind, s), SizeOf(s)), rest, n);
    case _ =>
  }

  lemma TakeCons(e: DirEntry, rest: seq<DirEntry>, n: nat)
    ensures Take([e] + rest, n) == if n == 0 then [] else [e] + Take(rest, n - 1)
  {
  }

  lemma PrefixListing(kind: FatType, items: seq<Item>, o: Option<nat>)
    requires items != [] && (o.Some? ==> o.value + 1 <= |items|)
    ensures Listing(kind, items[..0]) == []
    ensures o.Some? ==>
              |Listing(kind, items[..o.value + 1])| ==
              |Listing(kind, items[1..][..o.value])| + if items[0].Entry? || items[0].Dots? then 1 else 0
  {
    hide ShownName, DisplayName, CString, Raw, FirstOf, SizeOf;
    if o.Some? {
      assert items[..o.value + 1][1..] == items[1..][..o.value];
    }
  }

  /** A small directory hides nothing. */
  lemma {:induction false} SmallShowsAll(kind: FatType, items: seq<Item>, comp: Name)
    requires |Listing(kind, items)| <= LIMIT
    ensures Lookup(kind, items, comp) == FoundItem(items, ShortName(comp))
  {
    hide ShownName, DisplayName, CString, Raw, FirstOf, SizeOf, ShortName;
    match FirstShort(items, ShortName(comp))
    case None =>
    case Some(i) =>
      ListingSplit(kind, items, i);
  }

  lemma {:induction false} ListingSplit(kind: FatType, items: seq<Item>, i: nat)
    requires i < |items| && items[i].Entry?
    ensures |Listing(kind, items[..i])| < |Listing(kind, items)|
  {
    hide ShownName, DisplayName, CString, Raw, FirstOf, SizeOf;
    if i > 0 {
      ListingSplit(kind, items[1..], i - 1);
      PrefixListing(kind, items, Some((i - 1) as nat));
    }
  }

  /** Where a walk stands. */
  datatype Target = Missing | Folder(head: nat) | File(first: nat, size: nat)

  /** One more component. A file ends the walk, whatever follows. */
  function Step(kind: FatType, fs: Fs, t: Target, comp: Name): Target {
    match t
    case Folder(h) =>
      if h !in fs.dirs then Missing
      else
        (match Lookup(kind, fs.dirs[h].items, comp)
         case None => Missing
         case Some(it) => if it.attr == DIRECTORY then Folder(it.first) else File(it.first, it.size))
    case _ => t
  }

  function Walk(g: Geometry, fs: Fs, comps: seq<Name>): Target {
    if comps == [] then Folder(g.rootCluster)
    else Step(g.kind, fs, Walk(g, fs, comps[..|comps| - 1]), comps[|comps| - 1])
  }

  lemma WalkOne(g: Geometry, fs: Fs, comps: seq<Name>, comp: Name)
    ensures Walk(g, fs, comps + [comp]) == Step(g.kind, fs, Walk(g, fs, comps), comp)
  {
    assert (comps + [comp])[..|comps|] == comps;
  }

  /** Once at a file, or nowhere, the walk stays. */
  lemma {:induction false} WalkStays(g: Geometry, fs: Fs, xs: seq<Name>, ys: seq<Name>)
    requires !Walk(g, fs, xs).Folder?
    ensures Walk(g, fs, xs + ys) == Walk(g, fs, xs)
  {
    if ys == [] {
      assert xs + ys == xs;
    } else {
      var front := ys[..|ys| - 1];
      WalkStays(g, fs, xs, front);
      assert (xs + ys)[..|xs + ys| - 1] == xs + front;
    }
  }

  /** A walk ends in directories of the volume and at chains of files. */
  lemma {:induction false} WalkLands(g: Geometry, fs: Fs, comps: seq<Name>)
    requires Headed(g, fs) && Refs(g, fs)
    ensures var t := Walk(g, fs, comps);
            match t
            case Missing => true
            case Folder(h) => h in fs.dirs
            case File(f, n) => if f == 0 then Chainless(g, n) else f in fs.files && JustEnough(|fs.files[f]|, g.spc, n)
  {
    hide JustEnough, Refs, Headed, Lookup;
    if comps == [] {
      RootThere(g, fs);
    } else {
      WalkLands(g, fs, comps[..|comps| - 1]);
      match Walk(g, fs, comps[..|comps| - 1])
      case Folder(h) => StepLands(g, fs, h, comps[|comps| - 1]);
      case _ =>
    }
  }

  lemma RootThere(g: Geometry, fs: Fs)
    requires Headed(g, fs)
    ensures g.rootCluster in fs.dirs
  {
  }

  /** The entry behind one step. */
  lemma StepLands(g: Geometry, fs: Fs, h: nat, comp: Name)
    requires Refs(g, fs) && h in fs.dirs
    ensures match Step(g.kind, fs, Folder(h), comp)
            case Missing => true
            case Folder(k) => k in fs.dirs && k != g.rootCluster && exists i :: InDir(fs, h, i) && LeadsTo(g, ItemAt(fs, h, i), k)
            case File(f, n) => if f == 0 then Chainless(g, n) else f in fs.files && JustEnough(|fs.files[f]|, g.spc, n)
  {
    hide JustEnough, ShortName, Listing;
    var items := fs.dirs[h].items;
    match FirstShort(items, ShortName(comp))
    case None =>
    case Some(i) =>
      assert InDir(fs, h, i) && RefOk(g, fs, h, ItemAt(fs, h, i));
      assert Step(g.kind, fs, Folder(h), comp).Folder? ==> LeadsTo(g, ItemAt(fs, h, i), items[i].first);
  }

  ghost predicate LeadsTo(g: Geometry, it: Item, k: nat) { it.Entry? && it.attr == DIRECTORY && it.first == k }

  // ---- no directory is met twice ---------------------------------------------

  /** Directory `b` has one parent entry only. FAT12/16 give the root the number 0,
      which no entry may use for a directory. */
  lemma OneParent(g: Geometry, fs: Fs, h: nat, h': nat, k: nat, i: int, j: int)
    requires Refs(g, fs) && Headed(g, fs) && InDir(fs, h, i) && InDir(fs, h', j)
    requires LeadsTo(g, ItemAt(fs, h, i), k) && LeadsTo(g, ItemAt(fs, h', j), k) && k != 0
    ensures h == h' && i == j
  {
    assert SameTarget(ItemAt(fs, h, i), ItemAt(fs, h', j));
  }

  /** A walk never comes back to a directory it has been in. */
  lemma {:induction false} WalkNeverReturns(g: Geometry, fs: Fs, xs: seq<Name>, ys: seq<Name>)
    requires Refs(g, fs) && Headed(g, fs) && (0 in fs.dirs ==> g.rootCluster == 0)
    requires Walk(g, fs, xs).Folder? && Walk(g, fs, xs + ys) == Walk(g, fs, xs)
    ensures ys == []
    decreases |xs|
  {
    hide Refs, Headed, Step, LeadsTo, InDir, ItemAt;
    if ys != [] {
      var all := xs + ys;
      var front := all[..|all| - 1];
      var k := Walk(g, fs, xs).head;
      if !Walk(g, fs, front).Folder? {
        WalkStays(g, fs, front, [all[|all| - 1]]);
        assert front + [all[|all| - 1]] == all;
      }
      LastStep(g, fs, all);
      if xs != [] {
        LastStep(g, fs, xs);
        var xs' := xs[..|xs| - 1];
        var ys' := front[|xs'|..];
        assert front == xs' + ys' && |ys'| == |ys|;
        ParentsMeet(g, fs, xs, all);
        WalkNeverReturns(g, fs, xs', ys');
      }
    }
  }

  /** The last step of a walk to a directory. */
  lemma LastStep(g: Geometry, fs: Fs, comps: seq<Name>)
    requires Refs(g, fs) && Headed(g, fs) && comps != [] && Walk(g, fs, comps).Folder?
    ensures var front := comps[..|comps| - 1];
            && Walk(g, fs, front).Folder? && Walk(g, fs, comps).head != g.rootCluster && Walk(g, fs, comps).head in fs.dirs
            && Walk(g, fs, front).head in fs.dirs
            && exists i :: InDir(fs, Walk(g, fs, front).head, i) && LeadsTo(g, ItemAt(fs, Walk(g, fs, front).head, i), Walk(g, fs, comps).head)
  {
    hide Refs, Headed, LeadsTo, Lookup, InDir, ItemAt;
    var front := comps[..|comps| - 1];
    WalkLands(g, fs, front);
    match Walk(g, fs, front)
    case Folder(h) => StepLands(g, fs, h, comps[|comps| - 1]);
    case _ =>
  }

  lemma ParentsMeet(g: Geometry, fs: Fs, xs: seq<Name>, ys: seq<Name>)
    requires Refs(g, fs) && Headed(g, fs) && xs != [] && ys != []
    requires Walk(g, fs, xs).Folder? && Walk(g, fs, ys) == Walk(g, fs, xs) && Walk(g, fs, xs).head != 0
    ensures Walk(g, fs, xs[..|xs| - 1]).Folder? && Walk(g, fs, ys[..|ys| - 1]) == Walk(g, fs, xs[..|xs| - 1])
  {
    hide Refs, Headed, LeadsTo, Step, InDir, ItemAt;
    LastStep(g, fs, xs);
    LastStep(g, fs, ys);
    var h, h', k := Walk(g, fs, xs[..|xs| - 1]).head, Walk(g, fs, ys[..|ys| - 1]).head, Walk(g, fs, xs).head;
    var i :| InDir(fs, h, i) && LeadsTo(g, ItemAt(fs, h, i), k);
    var j :| InDir(fs, h', j) && LeadsTo(g, ItemAt(fs, h', j), k);
    OneParent(g, fs, h, h', k, i, j);
  }

  // ---- reading back by path --------------------------------------------------

  /** On the way to `head` nothing changes when only `head` is edited. */
  lemma {:induction false} WayKept(g: Geometry, fs: Fs, fs': Fs, head: nat, xs: seq<Name>, ys: seq<Name>)
    requires Refs(g, fs) && Headed(g, fs) && (0 in fs.dirs ==> g.rootCluster == 0) && SameElsewhere(fs, fs', head)
    requires Walk(g, fs, xs + ys) == Folder(head)
    ensures Walk(g, fs', xs) == Walk(g, fs, xs)
  {
    hide Refs, Headed, Step, SameElsewhere, Walk;
    if xs == [] {
      EmptyWalk(g, fs, fs');
    } else {
      var front, last := xs[..|xs| - 1], xs[|xs| - 1];
      var rest := [last] + ys;
      assert front + [last] == xs && front + rest == xs + ys;
      WayKept(g, fs, fs', head, front, rest);
      WalkLands(g, fs, front);
      WalkOne(g, fs, front, last);
      WalkOne(g, fs', front, last);
      if Walk(g, fs, front) == Folder(head) { WalkNeverReturns(g, fs, front, rest); }
      if !Walk(g, fs, front).Folder? { WalkStays(g, fs, front, rest); }
      StepSame(g, fs, fs', head, Walk(g, fs, front), last);
    }
  }

  lemma EmptyWalk(g: Geometry, fs: Fs, fs': Fs)
    ensures Walk(g, fs, []) == Walk(g, fs', [])
  {
  }

  /** A step from any directory but the edited one. */
  lemma StepSame(g: Geometry, fs: Fs, fs': Fs, head: nat, t: Target, comp: Name)
    requires SameElsewhere(fs, fs', head) && t != Folder(head) && (t.Folder? ==> t.head in fs.dirs)
    ensures Step(g.kind, fs', t, comp) == Step(g.kind, fs, t, comp)
  {
    hide Lookup;
  }

  /** A component of the path is looked up in `head` under the 8.3 name of `name`. */
  ghost predicate Meets(g: Geometry, fs: Fs, head: nat, name: Name, comps: seq<Name>) {
    exists k :: 0 <= k < |comps| && Walk(g, fs, comps[..k]) == Folder(head) && ShortName(comps[k]) == ShortName(name)
  }

  lemma MeetsLonger(g: Geometry, fs: Fs, head: nat, name: Name, comps: seq<Name>)
    requires comps != [] && Meets(g, fs, head, name, comps[..|comps| - 1])
    ensures Meets(g, fs, head, name, comps)
  {
    hide Walk, ShortName;
    var front := comps[..|comps| - 1];
    var k :| 0 <= k < |front| && Walk(g, fs, front[..k]) == Folder(head) && ShortName(front[k]) == ShortName(name);
    assert front[..k] == comps[..k] && front[k] == comps[k];
  }

  lemma MeetsLast(g: Geometry, fs: Fs, head: nat, name: Name, comps: seq<Name>)
    requires comps != [] && Walk(g, fs, comps[..|comps| - 1]) == Folder(head) && ShortName(comps[|comps| - 1]) == ShortName(name)
    ensures Meets(g, fs, head, name, comps)
  {
    hide Walk, ShortName;
  }

  /** The entry a step finds. */
  lemma StepItem(g: Geometry, fs: Fs, h: nat, comp: Name)
    requires h in fs.dirs && Step(g.kind, fs, Folder(h), comp) != Missing
    ensures exists j: nat ::
              && InDir(fs, h, j) && ItemAt(fs, h, j).Entry? && ShortName(ItemAt(fs, h, j).name) == ShortName(comp)
              && (match Step(g.kind, fs, Folder(h), comp)
                  case Folder(k) => k == ItemAt(fs, h, j).first && ItemAt(fs, h, j).attr == DIRECTORY
                  case File(f, n) => f == ItemAt(fs, h, j).first
                  case Missing => false)
  {
    hide ShortName, Listing;
    var j := FirstShort(fs.dirs[h].items, ShortName(comp)).value;
    assert InDir(fs, h, j);
  }

  /** A walk that ends at the chain of an entry has looked that entry up. */
  lemma {:induction false} TargetMet(g: Geometry, fs: Fs, head: nat, i: nat, comps: seq<Name>)
    requires Refs(g, fs) && Headed(g, fs) && InDir(fs, head, i) && ItemAt(fs, head, i).Entry? && ItemAt(fs, head, i).first != 0
    requires ItemAt(fs, head, i).first != g.rootCluster
    requires match Walk(g, fs, comps)
             case Folder(k) => k == ItemAt(fs, head, i).first
             case File(f, n) => f == ItemAt(fs, head, i).first
             case Missing => false
    ensures Meets(g, fs, head, ItemAt(fs, head, i).name, comps)
  {
    hide Headed, Lookup, ShortName, Step, Meets, Refs;
    if comps != [] {
      var front, last := comps[..|comps| - 1], comps[|comps| - 1];
      WalkLands(g, fs, front);
      if Walk(g, fs, front).Folder? {
        var h := Walk(g, fs, front).head;
        StepItem(g, fs, h, last);
        SameEntry(g, fs, head, i, h, last);
        if h == head { MeetsLast(g, fs, head, ItemAt(fs, head, i).name, comps); }
      } else {
        StepStays(g, fs, Walk(g, fs, front), last);
        TargetMet(g, fs, head, i, front);
        MeetsLonger(g, fs, head, ItemAt(fs, head, i).name, comps);
      }
    }
  }

  lemma StepStays(g: Geometry, fs: Fs, t: Target, comp: Name)
    requires !t.Folder?
    ensures Step(g.kind, fs, t, comp) == t
  {
  }

  lemma SameEntry(g: Geometry, fs: Fs, head: nat, i: nat, h: nat, comp: Name)
    requires Refs(g, fs) && InDir(fs, head, i) && ItemAt(fs, head, i).Entry? && ItemAt(fs, head, i).first != 0
    requires exists j: nat :: InDir(fs, h, j) && ItemAt(fs, h, j).Entry? && ShortName(ItemAt(fs, h, j).name) == ShortName(comp)
                              && ItemAt(fs, h, j).first == ItemAt(fs, head, i).first
    ensures h == head && ShortName(comp) == ShortName(ItemAt(fs, head, i).name)
  {
    hide ShortName, RefOk, InDir, ItemAt;
    var j: nat :| InDir(fs, h, j) && ItemAt(fs, h, j).Entry? && ShortName(ItemAt(fs, h, j).name) == ShortName(comp)
                  && ItemAt(fs, h, j).first == ItemAt(fs, head, i).first;
    assert SameTarget(ItemAt(fs, h, j), ItemAt(fs, head, i));
  }

  /** Directories other than `head` and the one that went are as before; the one that went was
      entered in `head` under `name`. */
  ghost predicate OnlyEdited(g: Geometry, fs: Fs, fs': Fs, head: nat, name: Name, gone: nat) {
    && head in fs.dirs && head in fs'.dirs && OthersFound(fs.dirs[head].items, fs'.dirs[head].items, ShortName(name))
    && (forall h :: h in fs.dirs && h != head && (h != gone || h == 0) ==> h in fs'.dirs && fs'.dirs[h] == fs.dirs[h])
    && (gone == 0 || (gone != g.rootCluster && exists i: nat :: IsEntry(fs, head, i, name, gone)))
  }

  /** Item `i` of `head` is the entry of `name`, pointing at `first`. */
  ghost predicate IsEntry(fs: Fs, head: nat, i: nat, name: Name, first: nat) {
    && InDir(fs, head, i) && ItemAt(fs, head, i).Entry? && ItemAt(fs, head, i).first == first
    && ShortName(ItemAt(fs, head, i).name) == ShortName(name)
  }

  lemma ShortMeets(g: Geometry, fs: Fs, head: nat, a: Name, b: Name, comps: seq<Name>)
    requires ShortName(a) == ShortName(b)
    ensures Meets(g, fs, head, a, comps) <==> Meets(g, fs, head, b, comps)
  {
    hide ShortName, Walk;
  }

  /** Every path that does not go through the changed name leads where it led before. */
  lemma {:induction false} OtherPathsKept(g: Geometry, fs: Fs, fs': Fs, head: nat, name: Name, gone: nat, comps: seq<Name>)
    requires Refs(g, fs) && Headed(g, fs) && (0 in fs.dirs ==> g.rootCluster == 0) && OnlyEdited(g, fs, fs', head, name, gone)
    requires |Listing(g.kind, fs.dirs[head].items)| <= LIMIT && |Listing(g.kind, fs'.dirs[head].items)| <= LIMIT
    requires !Meets(g, fs, head, name, comps)
    ensures Walk(g, fs', comps) == Walk(g, fs, comps)
  {
    hide Refs, Headed, Lookup, ShortName, Listing, OthersFound, IsEntry, Meets, Step;
    if comps != [] {
      var front, last := comps[..|comps| - 1], comps[|comps| - 1];
      if Meets(g, fs, head, name, front) { MeetsLonger(g, fs, head, name, comps); }
      OtherPathsKept(g, fs, fs', head, name, gone, front);
      WalkLands(g, fs, front);
      NotGone(g, fs, fs', head, name, gone, front);
      var t := Walk(g, fs, front);
      if t == Folder(head) {
        if ShortName(last) == ShortName(name) { MeetsLast(g, fs, head, name, comps); }
        SmallStep(g, fs, fs', head, name, last);
      } else {
        ElsewhereStep(g, fs, fs', head, name, gone, t, last);
      }
    }
  }

  lemma SmallStep(g: Geometry, fs: Fs, fs': Fs, head: nat, name: Name, comp: Name)
    requires head in fs.dirs && head in fs'.dirs && OthersFound(fs.dirs[head].items, fs'.dirs[head].items, ShortName(name))
    requires |Listing(g.kind, fs.dirs[head].items)| <= LIMIT && |Listing(g.kind, fs'.dirs[head].items)| <= LIMIT
    requires ShortName(comp) != ShortName(name)
    ensures Step(g.kind, fs', Folder(head), comp) == Step(g.kind, fs, Folder(head), comp)
  {
    hide Lookup, ShortName, Listing;
    SmallShowsAll(g.kind, fs.dirs[head].items, comp);
    SmallShowsAll(g.kind, fs'.dirs[head].items, comp);
  }

  lemma ElsewhereStep(g: Geometry, fs: Fs, fs': Fs, head: nat, name: Name, gone: nat, t: Target, comp: Name)
    requires OnlyEdited(g, fs, fs', head, name, gone) && t != Folder(head) && (t.Folder? ==> t.head in fs.dirs && (t.head != gone || t.head == 0))
    ensures Step(g.kind, fs', t, comp) == Step(g.kind, fs, t, comp)
  {
    hide Lookup, ShortName, OthersFound, IsEntry;
  }

  /** No other path leads to the directory that went. */
  lemma NotGone(g: Geometry, fs: Fs, fs': Fs, head: nat, name: Name, gone: nat, comps: seq<Name>)
    requires Refs(g, fs) && Headed(g, fs) && (0 in fs.dirs ==> g.rootCluster == 0) && OnlyEdited(g, fs, fs', head, name, gone)
    requires !Meets(g, fs, head, name, comps)
    ensures Walk(g, fs, comps) == Folder(gone) ==> gone == 0
  {
    hide Refs, Headed, Lookup, ShortName, OthersFound, Meets, Step, Walk;
    if gone != 0 && Walk(g, fs, comps) == Folder(gone) {
      var i: nat :| IsEntry(fs, head, i, name, gone);
      TargetMet(g, fs, head, i, comps);
      ShortMeets(g, fs, head, ItemAt(fs, head, i).name, name, comps);
    }
  }

  // ---- other files ----------------------------------------------------------------

  /** A file on another path keeps its chain and its bytes. */
  ghost predicate FileKept(d: Disk, d': Disk, g: Geometry, fs: Fs, fs': Fs, t: Target) {
    t.File? ==>
      && Fitting(d, g) && Fitting(d', g)
      && (t.first != 0 ==>
            && t.first in fs.files && t.first in fs'.files && fs'.files[t.first] == fs.files[t.first] && OnClusters(g, fs.files[t.first]))
      && FileBytes(d', g, fs', t.first, t.size) == FileBytes(d, g, fs, t.first, t.size)
  }

  lemma FileKeptIs(d: Disk, d': Disk, g: Geometry, fs: Fs, fs': Fs, kept: Fs, t: Target)
    requires FilesKept(d, d', g, kept)
    requires t.File? && t.first != 0 ==>
               && t.first in fs.files && t.first in fs'.files && fs'.files[t.first] == fs.files[t.first]
               && t.first in kept.files && kept.files[t.first] == fs.files[t.first]
    ensures FileKept(d, d', g, fs, fs', t)
  {
    hide ChainStream;
  }

  /** After a write every path that does not go through the written name leads where it led, and
      a file there has the chain and the bytes it had. */
  lemma WriteKeepsOthers(g: Geometry, d: Disk, d': Disk, fs: Fs, fs': Fs, head: nat, name: Name, fc: seq<nat>, data: Bytes, comps: seq<Name>)
    requires Refs(g, fs) && Headed(g, fs) && (0 in fs.dirs ==> g.rootCluster == 0) && Written(d', g, fs, fs', head, name, fc, data)
    requires FilesKept(d, d', g, Swapped(fs, OldFirst(fs, head, name), []))
    requires |Listing(g.kind, fs.dirs[head].items)| <= LIMIT && |Listing(g.kind, fs'.dirs[head].items)| <= LIMIT
    requires !Meets(g, fs, head, name, comps)
    ensures Walk(g, fs', comps) == Walk(g, fs, comps) && FileKept(d, d', g, fs, fs', Walk(g, fs, comps))
  {
    hide Refs, Headed, ShortName, Listing, OthersFound, Meets, Step, Walk, DataLaid, FilesKept, FoundItem, FileBytes, FileKept, JustEnough;
    OtherPathsKept(g, fs, fs', head, name, 0, comps);
    WalkLands(g, fs, comps);
    var t, old' := Walk(g, fs, comps), OldFirst(fs, head, name);
    if t.File? && t.first != 0 {
      if old' == t.first {
        OldEntry(fs, head, name);
        var i: nat :| IsEntry(fs, head, i, name, old');
        FileRef(g, fs, head, i);
        NotTheRoot(g, fs, head, ItemAt(fs, head, i));
        TargetMet(g, fs, head, i, comps);
        ShortMeets(g, fs, head, ItemAt(fs, head, i).name, name, comps);
      }
    }
    FileKeptIs(d, d', g, fs, fs', Swapped(fs, old', []), t);
  }

  lemma OldEntry(fs: Fs, head: nat, name: Name)
    requires head in fs.dirs && OldFirst(fs, head, name) != 0
    ensures exists i: nat :: IsEntry(fs, head, i, name, OldFirst(fs, head, name))
  {
    hide ShortName;
    var i := FirstShort(fs.dirs[head].items, ShortName(name)).value;
    assert IsEntry(fs, head, i, name, OldFirst(fs, head, name));
  }

  /** The same after a deletion. */
  lemma DeleteKeepsOthers(g: Geometry, d: Disk, d': Disk, fs: Fs, fs': Fs, head: nat, i: nat, comps: seq<Name>)
    requires Refs(g, fs) && Headed(g, fs) && (0 in fs.dirs ==> g.rootCluster == 0) && Deleted(fs, fs', head, i)
    requires FilesKept(d, d', g, Swapped(fs, ItemAt(fs, head, i).first, []))
    requires head in fs'.dirs
    requires |Listing(g.kind, fs.dirs[head].items)| <= LIMIT && |Listing(g.kind, fs'.dirs[head].items)| <= LIMIT
    requires !Meets(g, fs, head, ItemAt(fs, head, i).name, comps)
    ensures Walk(g, fs', comps) == Walk(g, fs, comps) && FileKept(d, d', g, fs, fs', Walk(g, fs, comps))
  {
    hide Refs, Headed, ShortName, Listing, OthersFound, Meets, Step, Walk, FilesKept, FoundItem, FileBytes, FileKept, JustEnough, RefOk;
    var it := ItemAt(fs, head, i);
    DeletedLookups(g, fs, fs', head, i);
    FileRef(g, fs, head, i);
    NotTheRoot(g, fs, head, it);
    assert it.first != 0 ==> IsEntry(fs, head, i, it.name, it.first);
    OtherPathsKept(g, fs, fs', head, it.name, it.first, comps);
    WalkLands(g, fs, comps);
    var t := Walk(g, fs, comps);
    if t.File? && t.first != 0 && t.first == it.first {
      TargetMet(g, fs, head, i, comps);
    }
    FileKeptIs(d, d', g, fs, fs', Swapped(fs, it.first, []), t);
  }

  lemma NotTheRoot(g: Geometry, fs: Fs, head: nat, it: Item)
    requires Headed(g, fs) && RefOk(g, fs, head, it) && it.Entry?
    ensures it.first == 0 || it.first != g.rootCluster
  {
  }

  /** The path that was written leads to the new file, which reads as the data; that fails
      only when the 32-bit sum that rounds the size up to clusters wraps. */
  lemma ReadAfterWrite(g: Geometry, d: Disk, fs: Fs, fs': Fs, head: nat, comps: seq<Name>, name: Name, fc: seq<nat>, data: Bytes)
    requires Fitting(d, g) && Refs(g, fs) && Headed(g, fs) && (0 in fs.dirs ==> g.rootCluster == 0)
    requires Walk(g, fs, comps) == Folder(head) && Written(d, g, fs, fs', head, name, fc, data)
    requires |Listing(g.kind, fs'.dirs[head].items)| <= LIMIT
    ensures var t := Walk(g, fs', comps + [name]);
            && t.File? && t.size == |data| && (t.first == 0 || (t.first in fs'.files && OnClusters(g, fs'.files[t.first])))
            && (FileBytes(d, g, fs', t.first, t.size) == data <==> |data| == 0 || RoundsUp(|data|, g.ClusterSize()))
  {
    hide Refs, Headed, FileBytes, ShortName, Listing, RoundsUp, ChainStream, JustEnough, Fitting, OthersFound, FoundItem;
    assert comps + [] == comps;
    WayKept(g, fs, fs', head, comps, []);
    WalkOne(g, fs', comps, name);
    SmallShowsAll(g.kind, fs'.dirs[head].items, name);
    LaidReads(d, g, fs', fc, data);
  }
}
