/** What an operation on one path means for all the others, and what deleting a new file undoes. */
module FatEffects {
  import opened Basics
  import opened Arith
  import opened FatDisk
  import opened FatCells
  import opened FatChains
  import opened FatTables
  import opened FatData
  import opened FatNames
  import opened FatDir
  import opened FatItems
  import opened FatScans
  import opened FatEdits
  import opened FatVolume
  import opened FatDirectory
  import opened FatCreate
  import opened FatStore
  import opened FatFrame
  import opened FatFs
  import opened FatRefs
  import opened FatFiles
  import opened FatOps
  import opened FatMkdir
  import opened FatPaths
  import opened FatStray
  import opened FatApi

  // ---- every other file ------------------------------------------------------------------

  /** Reading a path whose target and file are as before answers as before. */
  lemma SameAnswer(d: Disk, d': Disk, g: Geometry, fs: Fs, fs': Fs, t: Target)
    requires FileKept(d, d', g, fs, fs', t) && t.File?
    requires Fitting(d, g) && Fitting(d', g) && (t.first == 0 || (t.first in fs.files && OnClusters(g, fs.files[t.first])))
    ensures t.first == 0 || (t.first in fs'.files && OnClusters(g, fs'.files[t.first]))
    ensures FileBytes(d', g, fs', t.first, t.size) == FileBytes(d, g, fs, t.first, t.size)
  {
    hide FileBytes;
  }

  lemma OkFits(v: Volume, fs: Fs)
    requires Ok(v, fs)
    ensures Fitting(v.disk, v.g) && Headed(v.g, fs) && (0 in fs.dirs ==> v.g.rootCluster == 0)
  {
    hide FatOf, Mirrored, DirLaid, Forest, Chains;
    ZeroIsRoot(v.disk, v.g, fs);
  }

  /** Writing one path and reading another that does not go through the written name: the answer is
      the one it gave before. */
  method WriteThenReadOther(v: Volume, path: Name, data: Bytes, other: Name, ghost fs: Fs)
    returns (written: Status, before: Status, was: Bytes, after: Status, now: Bytes, ghost fs': Fs, ghost head: nat)
    requires Ok(v, fs) && Clean(ParentOf(path)) && Clean(other) && |data| < 0x1_0000_0000
    requires ParentWalk(v.g, fs, path).Folder? && ParentWalk(v.g, fs, path).head in fs.dirs
    requires LeafOf(path) != [] && GoodName(LeafOf(path)) && Spare(v, LeafOf(path))
    requires NameTaken(fs, ParentWalk(v.g, fs, path).head, LeafOf(path))
             || Visible(v.disk, v.g, fs, ParentWalk(v.g, fs, path).head, LeafOf(path))
    modifies v`disk, v`lastAllocated, v.buf, v`currentCluster, v`currentSize, v`currentIsDir
    ensures head == ParentWalk(v.g, fs, path).head
    ensures written == Success ==> Ok(v, fs') && head in fs'.dirs
    ensures written == Success && !Meets(v.g, fs, head, LeafOf(path), Comps(other))
            && |Listing(v.g.kind, fs.dirs[head].items)| <= LIMIT && |Listing(v.g.kind, fs'.dirs[head].items)| <= LIMIT ==>
              after == before && now == was
  {
    hide FatOf, Mirrored, Layout, Refs, Walk, Comps, FilesKept, Written, Visible, Contained, ParentOf, LeafOf, FreshChain, ChainStream,
         Listing, NameTaken, IsSubdir, FileBytes, GoodName, Meets, FileKept, Headed, Unharmed, Overran, SpaceTaken, ScanShort, ShortName;
    head, fs', after, now := ParentWalk(v.g, fs, path).head, fs, Unsuccessful, [];
    OkFits(v, fs);
    HeadIsDirectory(v.g, fs, Comps(ParentOf(path)));
    RootNumber(v.g);
    ghost var d := v.disk;
    before, was := ReadWhole(v, other, fs);
    ghost var at, fc;
    written, fs', at, fc := WriteFile(v, path, data, fs);
    if written != Success { return; }
    WrittenHead(v.disk, v.g, fs, fs', head, LeafOf(path), fc, data);
    ghost var t := Walk(v.g, fs, Comps(other));
    if !Meets(v.g, fs, head, LeafOf(path), Comps(other))
       && |Listing(v.g.kind, fs.dirs[head].items)| <= LIMIT && |Listing(v.g.kind, fs'.dirs[head].items)| <= LIMIT {
      WriteKeepsOthers(v.g, d, v.disk, fs, fs', head, LeafOf(path), fc, data, Comps(other));
      OkFits(v, fs');
      if t.File? { SameAnswer(d, v.disk, v.g, fs, fs', t); }
    }
    after, now := ReadWhole(v, other, fs');
  }

  /** The same for deleting one path and reading another. */
  method DeleteThenReadOther(v: Volume, path: Name, other: Name, ghost fs: Fs)
    returns (deleted: Status, before: Status, was: Bytes, after: Status, now: Bytes, ghost fs': Fs, ghost head: nat, ghost i: nat)
    requires Ok(v, fs) && Clean(ParentOf(path)) && Clean(other) && (LeafOf(path) != [] ==> GoodName(LeafOf(path)))
    modifies v`disk, v.buf, v`currentCluster, v`currentSize, v`currentIsDir
    ensures deleted == Success ==> InDir(fs, head, i) && ItemAt(fs, head, i).Entry? && Victim(fs, head, LeafOf(path)) == Some(i)
    ensures deleted == Success ==> Ok(v, fs') && head in fs'.dirs
    ensures deleted == Success && !Meets(v.g, fs, head, ItemAt(fs, head, i).name, Comps(other))
            && |Listing(v.g.kind, fs.dirs[head].items)| <= LIMIT && |Listing(v.g.kind, fs'.dirs[head].items)| <= LIMIT ==>
              after == before && now == was
  {
    hide FatOf, Mirrored, Layout, Refs, Walk, Comps, FilesKept, ParentOf, LeafOf, ChainStream, Listing, FileBytes, GoodName, Meets,
         FileKept, Headed, Victim, FreedFrom, AnswersBelow, Swapped, ShortName, FindEntry;
    fs', head, i, after, now := fs, 0, 0, Unsuccessful, [];
    OkFits(v, fs);
    ghost var d := v.disk;
    before, was := ReadWhole(v, other, fs);
    deleted, fs', head := DeleteFile(v, path, fs);
    if deleted != Success { return; }
    i := Victim(fs, head, LeafOf(path)).value;
    DeletedLookups(v.g, fs, fs', head, i);
    ghost var t := Walk(v.g, fs, Comps(other));
    if !Meets(v.g, fs, head, ItemAt(fs, head, i).name, Comps(other))
       && |Listing(v.g.kind, fs.dirs[head].items)| <= LIMIT && |Listing(v.g.kind, fs'.dirs[head].items)| <= LIMIT {
      DeleteKeepsOthers(v.g, d, v.disk, fs, fs', head, i, Comps(other));
      OkFits(v, fs');
      if t.File? { SameAnswer(d, v.disk, v.g, fs, fs', t); }
    }
    after, now := ReadWhole(v, other, fs');
  }

  // ---- deleting what was just written ------------------------------------------------------

  /** The chain that goes when an entry that points at `first` is deleted. */
  ghost function GoneChain(fs: Fs, first: nat): seq<nat> {
    if first != 0 && (first in fs.dirs || first in fs.files) then ChainOf(fs, first) else []
  }

  /** Deleting an entry gives back the clusters of its chain. */
  lemma GoneSpace(g: Geometry, fat: Fat, fat': Fat, fs: Fs, first: nat)
    requires 2 <= |fat| == g.maxCluster <= EofMarker(g.kind) && Headed(g, fs) && Forest(fat, EofMarker(g.kind), Chains(g, fs))
    requires first == 0 || first in fs.dirs || first in fs.files
    requires if first == 0 then fat' == fat else FreedFrom(fat, fat', first)
    ensures var r := GoneChain(fs, first);
            && FreeSet(fat') == FreeSet(fat) + Elems(r) && |FreeSet(fat')| == |FreeSet(fat)| + |r|
            && if first == 0 then r == [] else r in Chains(g, fs) && r != [] && r[0] == first
  {
    hide Chains, Forest, FreeSet, FreedFrom, Headed;
    if first == 0 {
      Singles();
    } else {
      KeyChain(g, fat, fs, first);
      FreeChainInForest(fat, fat', EofMarker(g.kind), Chains(g, fs), GoneChain(fs, first));
    }
  }

  /** A cluster belongs to one chain. */
  lemma OneChain(fat: Fat, eof: nat, chains: set<seq<nat>>, a: seq<nat>, b: seq<nat>, c: nat)
    requires Forest(fat, eof, chains) && a in chains && b in chains && c in a && c in b
    ensures a == b
  {
    hide Chain;
  }

  /** The table after writing a new file and a deletion, which freed the chain `r`. */
  lemma RestoredWhen(g: Geometry, fat: Fat, fat': Fat, fat'': Fat, fs': Fs, head: nat, fc: seq<nat>, cs: seq<nat>, r: seq<nat>)
    requires 2 <= |fat| == |fat'| <= EofMarker(g.kind) && head in fs'.dirs && SpaceTaken(fat, fat', fc, cs, fs'.dirs[head].cs)
    requires Forest(fat', EofMarker(g.kind), Chains(g, fs')) && (fc != [] ==> fc in Chains(g, fs'))
    requires fs'.dirs[head].cs != cs ==> fs'.dirs[head].cs in Chains(g, fs')
    requires r != [] ==> r in Chains(g, fs') && r != fs'.dirs[head].cs
    requires if r == [] then fat'' == fat' else FreedFrom(fat', fat'', r[0])
    requires FreeSet(fat'') == FreeSet(fat') + Elems(r) && |FreeSet(fat'')| == |FreeSet(fat')| + |r|
    requires fs'.dirs[head].cs == cs ==> FreshChain(fat, fat', EofMarker(g.kind), fc)
    ensures fat'' == fat <==> fs'.dirs[head].cs == cs && r == fc
    ensures |FreeSet(fat'')| + |fc| + (|fs'.dirs[head].cs| - |cs|) == |FreeSet(fat)| + |r|
  {
    hide Forest, FreeSet, FreedFrom, FreshChain, Chains, Elems;
    var cs' := fs'.dirs[head].cs;
    if cs' == cs && r == fc {
      WriteThenDelete(fat, fat', fat'', EofMarker(g.kind), fc);
    }
    if fat'' == fat {
      SameClusters(FreeSet(fat'), Elems(r), Elems(fc), Elems(cs'[|cs|..]));
      GrowthStays(g, fat', fs', cs, cs', fc, r);
      FileBack(g, fat', fs', fc, r);
    }
  }

  lemma SameClusters(free: set<nat>, r: set<nat>, f: set<nat>, grown: set<nat>)
    requires free + r == free + f + grown && free !! f && free !! grown
    ensures f <= r && grown <= r
  {
  }

  /** If all clusters a write took are free again, the directory did not grow. */
  lemma GrowthStays(g: Geometry, fat': Fat, fs': Fs, cs: seq<nat>, cs': seq<nat>, fc: seq<nat>, r: seq<nat>)
    requires Forest(fat', EofMarker(g.kind), Chains(g, fs')) && (r != [] ==> r in Chains(g, fs') && r != cs')
    requires |cs| <= |cs'| && cs'[..|cs|] == cs && (cs' != cs ==> cs' in Chains(g, fs'))
    requires Elems(cs'[|cs|..]) <= Elems(r)
    ensures cs' == cs
  {
    hide Forest, Chains;
    if cs' != cs {
      var c := cs'[|cs|..][0];
      assert c in Elems(cs'[|cs|..]) && c in cs';
      OneChain(fat', EofMarker(g.kind), Chains(g, fs'), r, cs', c);
    } else {
      assert cs'[..|cs|] == cs';
    }
  }

  /** If the clusters of the file are free again, its chain is the one that went. */
  lemma FileBack(g: Geometry, fat': Fat, fs': Fs, fc: seq<nat>, r: seq<nat>)
    requires Forest(fat', EofMarker(g.kind), Chains(g, fs'))
    requires fc != [] ==> fc in Chains(g, fs')
    requires r != [] ==> r in Chains(g, fs')
    requires Elems(fc) <= Elems(r) && (fc == [] ==> r == [])
    ensures r == fc
  {
    hide Forest, Chains;
    if fc != [] {
      assert fc[0] in Elems(fc);
      OneChain(fat', EofMarker(g.kind), Chains(g, fs'), r, fc, fc[0]);
    }
  }

  lemma VolumeForest(v: Volume, fs: Fs)
    requires Ok(v, fs)
    ensures 2 <= |v.Fat()| == v.g.maxCluster <= EofMarker(v.g.kind) && Headed(v.g, fs)
    ensures Forest(v.Fat(), EofMarker(v.g.kind), Chains(v.g, fs)) && Refs(v.g, fs)
  {
    hide FatOf, Mirrored, DirLaid, Forest, Chains, Refs;
  }

  /** Deletion by name takes entry `a` of the changed directory. */
  ghost predicate Takes(fs: Fs, head: nat, name: Name, a: nat)
    requires head in fs.dirs
  {
    Victim(fs, head, name) == Some(a)
  }

  /** The new entry is the one deletion takes, and its chain the one that goes. */
  lemma TakenIsNew(g: Geometry, fs: Fs, head: nat, a: nat, i: nat, fc: seq<nat>)
    requires Refs(g, fs) && Headed(g, fs) && InDir(fs, head, a) && InDir(fs, head, i) && ItemAt(fs, head, a).Entry? && ItemAt(fs, head, i).Entry?
    requires ItemAt(fs, head, a).first == (if fc == [] then 0 else fc[0]) && (fc != [] ==> fc[0] in fs.files && fs.files[fc[0]] == fc && fc[0] != 0)
    ensures var r := GoneChain(fs, ItemAt(fs, head, i).first);
            && (i == a ==> r == fc)
            && (fc != [] && r == fc ==> i == a)
            && (r == [] || (r[0] == ItemAt(fs, head, i).first && r != fs.dirs[head].cs))
  {
    hide RefOk;
    FileRef(g, fs, head, i);
    TargetNotHere(g, fs, head, ItemAt(fs, head, i));
    if fc != [] && ItemAt(fs, head, i).first == fc[0] { assert SameTarget(ItemAt(fs, head, a), ItemAt(fs, head, i)); }
  }

  /** An entry points at another chain than that of its own directory. */
  lemma TargetNotHere(g: Geometry, fs: Fs, head: nat, it: Item)
    requires Headed(g, fs) && head in fs.dirs && it.Entry? && RefOk(g, fs, head, it)
    ensures it.first == 0 || it.first in fs.dirs || it.first in fs.files
    ensures var r := GoneChain(fs, it.first); r == [] || (r[0] == it.first && r != fs.dirs[head].cs)
  {
    hide JustEnough;
  }

  lemma DirChainHere(g: Geometry, fs: Fs, head: nat)
    requires Headed(g, fs) && head in fs.dirs && fs.dirs[head].cs != []
    ensures fs.dirs[head].cs in Chains(g, fs)
  {
  }

  lemma FileChainHere(g: Geometry, fs: Fs, fc: seq<nat>)
    requires fc != [] ==> fc[0] in fs.files && fs.files[fc[0]] == fc
    ensures fc != [] ==> fc in Chains(g, fs)
  {
  }

  lemma Distribute(x: nat, y: nat, spc: nat)
    requires 1 <= spc
    ensures x * spc * 512 == y * spc * 512 <==> x == y
    ensures (x + y) * spc * 512 == x * spc * 512 + y * spc * 512
  {
    if x < y { assert (y - x) * spc >= 1; assert y * spc == x * spc + (y - x) * spc; }
    if y < x { assert (x - y) * spc >= 1; assert x * spc == y * spc + (x - y) * spc; }
  }

  /** The chain that a deletion by name frees. */
  ghost function Returned(fs: Fs, head: nat, name: Name): seq<nat>
    requires head in fs.dirs
  {
    match Victim(fs, head, name)
    case None => []
    case Some(i) => GoneChain(fs, ItemAt(fs, head, i).first)
  }

  /** Deleting the new entry by its own name: it goes exactly when it answers and none before it does. */
  lemma TakesNew(fs: Fs, fs': Fs, head: nat, name: Name, fc: seq<nat>, size: nat, a: nat, b: nat)
    requires head in fs.dirs && head in fs'.dirs && GoodName(name)
    requires Added(fs.dirs[head].items, fs'.dirs[head].items, FileEntry(name, fc, size), a, b)
    ensures InDir(fs', head, a) && ItemAt(fs', head, a) == FileEntry(name, fc, size)
    ensures Takes(fs', head, name, a) <==>
              (NeedLfn(name) || name[|name| - 1] != DOT) && FirstAnswer(fs.dirs[head].items[..a], name) == None
  {
    hide NeedLfn, Answers, FirstAnswer;
    DeleteTakesNew(fs.dirs[head].items, fs'.dirs[head].items, FileEntry(name, fc, size), a, b);
    AnswersItself(name, ARCHIVE, if fc == [] then 0 else fc[0], size);
  }

  /** What writing a new file and deleting the same name leaves of the table and the free space. */
  ghost predicate Balance(fat: Fat, fat'': Fat, fs: Fs, fs': Fs, head: nat, name: Name, fc: seq<nat>, a: nat)
    requires head in fs.dirs && head in fs'.dirs
  {
    var same := fs'.dirs[head].cs == fs.dirs[head].cs;
    && (Takes(fs', head, name, a) ==> (fat'' == fat <==> same) && (|FreeSet(fat'')| == |FreeSet(fat)| <==> same))
    && (!Takes(fs', head, name, a) && fc != [] ==> fat'' != fat)
    && |FreeSet(fat'')| + |fc| + |fs'.dirs[head].cs| == |FreeSet(fat)| + |fs.dirs[head].cs| + |Returned(fs', head, name)|
  }

  lemma BalanceIs(g: Geometry, fat: Fat, fat': Fat, fat'': Fat, fs: Fs, fs': Fs, head: nat, name: Name, fc: seq<nat>, a: nat)
    requires 2 <= |fat| == |fat'| == g.maxCluster <= EofMarker(g.kind) && Headed(g, fs') && Refs(g, fs')
    requires Forest(fat', EofMarker(g.kind), Chains(g, fs')) && head in fs.dirs && head in fs'.dirs
    requires SpaceTaken(fat, fat', fc, fs.dirs[head].cs, fs'.dirs[head].cs)
    requires fs'.dirs[head].cs == fs.dirs[head].cs ==> FreshChain(fat, fat', EofMarker(g.kind), fc)
    requires InDir(fs', head, a) && ItemAt(fs', head, a).Entry? && ItemAt(fs', head, a).first == (if fc == [] then 0 else fc[0])
    requires fc != [] ==> fc[0] in fs'.files && fs'.files[fc[0]] == fc && fc[0] != 0
    requires match Victim(fs', head, name)
             case None => fat'' == fat'
             case Some(i) => InDir(fs', head, i) && ItemAt(fs', head, i).Entry?
                             && var first := ItemAt(fs', head, i).first; if first == 0 then fat'' == fat' else FreedFrom(fat', fat'', first)
    ensures Balance(fat, fat'', fs, fs', head, name, fc, a)
  {
    hide Forest, Chains, Refs, FreeSet, FreedFrom, FreshChain, Headed, Victim, RefOk, GoneChain, SpaceTaken;
    var r := Returned(fs', head, name);
    match Victim(fs', head, name) {
      case None =>
        Singles();
      case Some(i) =>
        FileRef(g, fs', head, i);
        TargetNotHere(g, fs', head, ItemAt(fs', head, i));
        GoneSpace(g, fat', fat'', fs', ItemAt(fs', head, i).first);
        TakenIsNew(g, fs', head, a, i, fc);
    }
    FileChainHere(g, fs', fc);
    GrownHere(g, fat, fat', fs', head, fc, fs.dirs[head].cs);
    RestoredWhen(g, fat, fat', fat'', fs', head, fc, fs.dirs[head].cs, r);
  }

  /** A directory that grew is on a chain. */
  lemma GrownHere(g: Geometry, fat: Fat, fat': Fat, fs': Fs, head: nat, fc: seq<nat>, cs: seq<nat>)
    requires Headed(g, fs') && head in fs'.dirs && SpaceTaken(fat, fat', fc, cs, fs'.dirs[head].cs)
    ensures fs'.dirs[head].cs != cs ==> fs'.dirs[head].cs in Chains(g, fs') && |fs'.dirs[head].cs| == |cs| + 1
  {
    hide Chains, Elems, FreeSet, Headed;
    var cs' := fs'.dirs[head].cs;
    if |cs'| == |cs| { assert cs'[..|cs|] == cs'; }
    if cs' != [] { DirChainHere(g, fs', head); }
  }

  /** The parent of a written path is where it was. */
  lemma WayThere(v: Volume, fs: Fs, fs': Fs, path: Name, head: nat, name: Name, fc: seq<nat>, data: Bytes)
    requires Refs(v.g, fs) && Headed(v.g, fs) && (0 in fs.dirs ==> v.g.rootCluster == 0)
    requires ParentWalk(v.g, fs, path) == Folder(head) && Written(v.disk, v.g, fs, fs', head, name, fc, data)
    ensures head in fs'.dirs && ParentWalk(v.g, fs', path) == Folder(head)
    ensures fc != [] ==> fc[0] in fs'.files && fs'.files[fc[0]] == fc && fc[0] != 0
  {
    hide Refs, Headed, Walk, Comps, ParentOf, FoundItem, OthersFound, DataLaid, ShortName;
    var xs := Comps(ParentOf(path));
    assert xs + [] == xs;
    WayKept(v.g, fs, fs', head, xs, []);
  }

  /** What writing a new file leaves: its entry is item `a`, its chain `fc`. */
  ghost predicate NewThere(fat: Fat, fat': Fat, g: Geometry, fs: Fs, fs': Fs, head: nat, fc: seq<nat>, a: nat)
    requires head in fs.dirs
  {
    && head in fs'.dirs && SpaceTaken(fat, fat', fc, fs.dirs[head].cs, fs'.dirs[head].cs)
    && (fs'.dirs[head].cs == fs.dirs[head].cs ==> FreshChain(fat, fat', EofMarker(g.kind), fc))
    && InDir(fs', head, a) && ItemAt(fs', head, a).Entry? && ItemAt(fs', head, a).first == (if fc == [] then 0 else fc[0])
    && (fc != [] ==> fc[0] in fs'.files && fs'.files[fc[0]] == fc && fc[0] != 0)
  }

  /** The entry of a new name is taken by a deletion of the name. */
  ghost predicate TakesOwn(fs: Fs, head: nat, name: Name, a: nat)
    requires head in fs.dirs && GoodName(name)
  {
    && a <= |fs.dirs[head].items| && (NeedLfn(name) || name[|name| - 1] != DOT)
    && FirstAnswer(fs.dirs[head].items[..a], name) == None
  }

  /** Fat32WriteFile for a new name. */
  method WriteNew(v: Volume, path: Name, data: Bytes, ghost fs: Fs)
    returns (written: Status, ghost fs': Fs, ghost head: nat, ghost fc: seq<nat>, ghost a: nat)
    requires Ok(v, fs) && Clean(ParentOf(path)) && |data| < 0x1_0000_0000
    requires ParentWalk(v.g, fs, path).Folder? && ParentWalk(v.g, fs, path).head in fs.dirs
    requires LeafOf(path) != [] && GoodName(LeafOf(path)) && Spare(v, LeafOf(path))
    requires !NameTaken(fs, ParentWalk(v.g, fs, path).head, LeafOf(path))
    requires Visible(v.disk, v.g, fs, ParentWalk(v.g, fs, path).head, LeafOf(path))
    modifies v`disk, v`lastAllocated, v.buf, v`currentCluster, v`currentSize, v`currentIsDir
    ensures written == Success || written == DiskFull
    ensures written == DiskFull ==> Ok(v, fs) && v.Fat() == old(v.Fat())
    ensures head == ParentWalk(v.g, fs, path).head && head in fs.dirs
    ensures written == Success ==> Ok(v, fs') && NewThere(old(v.Fat()), v.Fat(), v.g, fs, fs', head, fc, a)
    ensures written == Success ==> ParentWalk(v.g, fs', path) == Folder(head)
    ensures written == Success ==> a <= |fs.dirs[head].items|
    ensures written == Success ==> (Takes(fs', head, LeafOf(path), a) <==> TakesOwn(fs, head, LeafOf(path), a))
  {
    hide FatOf, Mirrored, Layout, Refs, Walk, Comps, FilesKept, Written, Visible, Contained, ParentOf, LeafOf, FreshChain, ChainStream,
         Listing, NameTaken, IsSubdir, FileBytes, GoodName, Meets, FileKept, Headed, Unharmed, Overran, SpaceTaken, ScanShort, ShortName,
         Victim, FreeSet, Takes, NeedLfn, FirstAnswer, Added, SlotsNeeded, Chain, PassesForEntry;
    fs', fc, a, head := fs, [], 0, ParentWalk(v.g, fs, path).head;
    ghost var name := LeafOf(path);
    OkFits(v, fs);
    VolumeForest(v, fs);
    HeadIsDirectory(v.g, fs, Comps(ParentOf(path)));
    RootNumber(v.g);
    NoSubdir(fs, head, name);
    ghost var at;
    written, fs', at, fc := WriteFile(v, path, data, fs);
    if written != Success { return; }
    WayThere(v, fs, fs', path, head, name, fc, data);
    ghost var b;
    a, b :| Added(fs.dirs[head].items, fs'.dirs[head].items, FileEntry(name, fc, |data|), a, b);
    TakesNew(fs, fs', head, name, fc, |data|, a, b);
    AddedBelow(fs.dirs[head].items, fs'.dirs[head].items, FileEntry(name, fc, |data|), a, b);
  }

  lemma AddedBelow(items: seq<Item>, items': seq<Item>, e: Item, a: nat, b: nat)
    requires Added(items, items', e, a, b)
    ensures a <= |items|
  {
  }

  lemma NoSubdir(fs: Fs, head: nat, name: Name)
    requires head in fs.dirs && !NameTaken(fs, head, name)
    ensures !IsSubdir(fs, head, name)
  {
  }

  /** Fat32DeleteFile, with what it does to the table. */
  method DeleteThere(v: Volume, path: Name, ghost fs: Fs, ghost head: nat) returns (deleted: Status)
    requires Ok(v, fs) && Clean(ParentOf(path)) && LeafOf(path) != [] && GoodName(LeafOf(path))
    requires ParentWalk(v.g, fs, path) == Folder(head) && head in fs.dirs
    modifies v`disk, v.buf, v`currentCluster, v`currentSize, v`currentIsDir
    ensures v.Valid() && (deleted == Success <==> Victim(fs, head, LeafOf(path)).Some?)
    ensures match Victim(fs, head, LeafOf(path))
            case None => v.Fat() == old(v.Fat())
            case Some(i) =>
              && InDir(fs, head, i) && ItemAt(fs, head, i).Entry?
              && var first := ItemAt(fs, head, i).first; if first == 0 then v.Fat() == old(v.Fat()) else FreedFrom(old(v.Fat()), v.Fat(), first)
  {
    hide FatOf, Mirrored, Layout, Refs, Walk, Comps, FilesKept, ParentOf, LeafOf, Victim, FreedFrom, Swapped,
         FindEntry, AnswersBelow, GoodName, Headed;
    OkFits(v, fs);
    VolumeForest(v, fs);
    HeadIsDirectory(v.g, fs, Comps(ParentOf(path)));
    RootNumber(v.g);
    ghost var fs', at;
    deleted, fs', at := DeleteFile(v, path, fs);
  }

  /** Writes a new file, deletes the same path, and asks for the free space before and after. When
      the deletion takes the new entry the allocation table and the free space are as before if and
      only if the directory did not grow; when it takes another entry, or none, the table is not. */
  method WriteThenDeletePath(v: Volume, path: Name, data: Bytes, ghost fs: Fs)
    returns (written: Status, before: nat, deleted: Status, after: nat, ghost fs': Fs, ghost head: nat, ghost fc: seq<nat>, ghost a: nat)
    requires Ok(v, fs) && Clean(ParentOf(path)) && |data| < 0x1_0000_0000
    requires ParentWalk(v.g, fs, path).Folder? && ParentWalk(v.g, fs, path).head in fs.dirs
    requires LeafOf(path) != [] && GoodName(LeafOf(path)) && Spare(v, LeafOf(path))
    requires !NameTaken(fs, ParentWalk(v.g, fs, path).head, LeafOf(path))
    requires Visible(v.disk, v.g, fs, ParentWalk(v.g, fs, path).head, LeafOf(path))
    modifies v`disk, v`lastAllocated, v.buf, v`currentCluster, v`currentSize, v`currentIsDir
    ensures written == Success || written == DiskFull
    ensures head == ParentWalk(v.g, fs, path).head && head in fs.dirs && v.Valid()
    ensures written == DiskFull ==> after == before && v.Fat() == old(v.Fat())
    ensures written == Success ==>
              && head in fs'.dirs && a <= |fs.dirs[head].items|
              && (Takes(fs', head, LeafOf(path), a) <==> TakesOwn(fs, head, LeafOf(path), a))
              && (deleted == Success <==> Victim(fs', head, LeafOf(path)).Some?)
              && Balance(old(v.Fat()), v.Fat(), fs, fs', head, LeafOf(path), fc, a)
    ensures written == Success && TakesOwn(fs, head, LeafOf(path), a) ==>
              && (after == before <==> fs'.dirs[head].cs == fs.dirs[head].cs)
              && (v.Fat() == old(v.Fat()) <==> fs'.dirs[head].cs == fs.dirs[head].cs)
    ensures written == Success && !TakesOwn(fs, head, LeafOf(path), a) && fc != [] ==> v.Fat() != old(v.Fat())
    ensures written == Success ==>
              after + (|fc| + |fs'.dirs[head].cs|) * v.g.spc * 512
              == before + (|fs.dirs[head].cs| + |Returned(fs', head, LeafOf(path))|) * v.g.spc * 512
  {
    hide FatOf, Mirrored, Layout, Refs, Walk, Comps, Visible, Contained, ParentOf, LeafOf, NameTaken, GoodName, Headed, Victim, FreeSet,
         Returned, SpaceTaken, FreshChain, FreedFrom, Takes, TakesOwn, Forest, Chains, SlotsNeeded, Balance;
    deleted := Unsuccessful;
    ghost var fat := v.Fat();
    before := GetFreeSize(v);
    VolumeForest(v, fs);
    written, fs', head, fc, a := WriteNew(v, path, data, fs);
    ghost var fat' := v.Fat();
    if written == Success {
      VolumeForest(v, fs');
      deleted := DeleteThere(v, path, fs', head);
      BalanceIs(v.g, fat, fat', v.Fat(), fs, fs', head, LeafOf(path), fc, a);
      Sums(fat, v.Fat(), fs, fs', head, LeafOf(path), fc, a, v.g.spc);
    }
    after := GetFreeSize(v);
  }

  /** The balance in bytes. */
  lemma Sums(fat: Fat, fat'': Fat, fs: Fs, fs': Fs, head: nat, name: Name, fc: seq<nat>, a: nat, spc: nat)
    requires head in fs.dirs && head in fs'.dirs && Balance(fat, fat'', fs, fs', head, name, fc, a) && 1 <= spc
    ensures var before, after := |FreeSet(fat)| * spc * 512, |FreeSet(fat'')| * spc * 512;
            var same := fs'.dirs[head].cs == fs.dirs[head].cs;
            && (Takes(fs', head, name, a) ==> (after == before <==> same) && (fat'' == fat <==> same))
            && (!Takes(fs', head, name, a) && fc != [] ==> fat'' != fat)
            && after + (|fc| + |fs'.dirs[head].cs|) * spc * 512
               == before + (|fs.dirs[head].cs| + |Returned(fs', head, name)|) * spc * 512
  {
    hide FreeSet, Takes, Returned;
    var x, y := |FreeSet(fat'')|, |FreeSet(fat)|;
    Distribute(x, y, spc);
    Distribute(x, |fc| + |fs'.dirs[head].cs|, spc);
    Distribute(y, |fs.dirs[head].cs| + |Returned(fs', head, name)|, spc);
    assert x + (|fc| + |fs'.dirs[head].cs|) == y + (|fs.dirs[head].cs| + |Returned(fs', head, name)|);
  }
}
