/** The driver's entry points that take a path. */
module FatApi {
  import opened Basics
  import opened Arith
  import opened FatDisk
  import opened FatCells
  import opened FatChains
  import opened FatTables
  import opened FatData
  import opened FatNames
  import opened FatDir
  import opened FatItems
  import opened FatScans
  import opened FatEdits
  import opened FatSlots
  import opened FatReadAt
  import opened FatVolume
  import opened FatDirectory
  import opened FatCreate
  import opened FatStore
  import opened FatFrame
  import opened FatFs
  import opened FatRefs
  import opened FatFiles
  import opened FatOps
  import opened FatMkdir
  import opened FatPaths
  import opened FatStray

  const MAX_PATH: nat := 256

  /** A path whose components are all names an entry can have: not a name of dots only, nor one that
      starts with the byte of an erased slot. */
  ghost predicate Clean(path: Name) {
    |path| < MAX_PATH && forall k :: 0 <= k < |Comps(path)| ==> GoodName(Comps(path)[k])
  }

  // ---- Fat32OpenPath ---------------------------------------------------------

  /** Compares the listed entries with one component. */
  method Choose(es: seq<DirEntry>, comp: Name) returns (r: Option<DirEntry>)
    ensures r == FirstMatch(es, comp)
  {
    hide EqualFold, ShortName;
    var j := 0;
    while j < |es|
      invariant j <= |es| && FirstMatch(es, comp) == FirstMatch(es[j..], comp)
    {
      if EqualFold(es[j].name, comp) { return Some(es[j]); }
      if ShortName(es[j].name) == ShortName(comp) { return Some(es[j]); }
      assert es[j..][1..] == es[j + 1..];
      j := j + 1;
    }
    r := None;
  }

  /** Cuts the next component off the path. */
  method NextComponent(path: Name, from: nat) returns (comp: Name, next: nat)
    requires from <= |path| < MAX_PATH
    ensures from <= next <= |path| && comp == path[from..][..WordLen(path[from..])]
    ensures comp != [] ==> Comps(path[from..]) == [comp] + Comps(path[next..])
    ensures comp == [] ==> Comps(path[from..]) == Comps(path[next..])
    ensures from < |path| ==> from < next
  {
    next := from;
    while next < |path| && !IsSep(path[next]) && next - from < MAX_PATH - 1
      invariant from <= next <= |path| && forall i :: from <= i < next ==> !IsSep(path[i])
    {
      next := next + 1;
    }
    comp := path[from..next];
    ghost var p: Name := path[from..];
    assert p == comp + path[next..];
    WordLenIs(comp, path[next..]);
    assert p[..|comp|] == comp && p[|comp|..] == path[next..];
    if next < |path| {
      assert path[next..][1..] == path[next + 1..];
      next := next + 1;
    }
  }

  /** What the volume's open-file fields say. */
  ghost predicate Opened(v: Volume, t: Target)
    reads v
  {
    match t
    case Missing => true
    case Folder(h) => v.currentCluster == h && v.currentIsDir
    case File(f, n) => v.currentCluster == f && v.currentSize == n && !v.currentIsDir
  }

  /** Fat32ReadDir with room for the 64 entries Fat32OpenPath looks at, then the choice. */
  method LookupIn(v: Volume, h: nat, comp: Name, ghost fs: Fs) returns (r: Option<DirEntry>)
    requires Carries(v, fs) && h in fs.dirs && GoodName(comp)
    modifies v.buf
    ensures match Lookup(v.g.kind, fs.dirs[h].items, comp)
            case None => r == None
            case Some(it) => r == Some(Shown(it))
  {
    hide FatOf, Mirrored, Layout, DirSectors, SlotsOf, Lay, ItemOk, ReadDirList, Zeros, Listing, Shown, ShortName;
    CarriesAt(v, fs, h);
    ghost var kind, items, ss := v.g.kind, fs.dirs[h].items, Slots(v, h, fs.dirs[h].cs);
    var es := ReadDir(v, h, 64, fs.dirs[h].cs);
    assert ss == Lay(kind, items) + ss[|Lay(kind, items)|..];
    ReadItems(kind, items, ss[|Lay(kind, items)|..], 64);
    LookupLimited(kind, items, comp, 64);
    r := Choose(es, comp);
  }

  /** One component of Fat32OpenPath. */
  method Enter(v: Volume, comp: Name, ghost fs: Fs, ghost done: seq<Name>) returns (more: bool, status: Status)
    requires Ok(v, fs) && GoodName(comp) && Walk(v.g, fs, done) == Folder(v.currentCluster)
    modifies v.buf, v`currentCluster, v`currentSize, v`currentIsDir
    ensures Ok(v, fs)
    ensures more <==> Walk(v.g, fs, done + [comp]).Folder?
    ensures more ==> v.currentIsDir && v.currentSize == 0
    ensures !more ==> status == if Walk(v.g, fs, done + [comp]) == Missing then NoSuchFile else Success
    ensures Opened(v, Walk(v.g, fs, done + [comp]))
  {
    hide FatOf, Mirrored, Layout, Refs, Step, Walk, Lookup, Shown, Headed, GoodName, JustEnough;
    EnterIs(v.disk, v.g, fs, done, v.currentCluster, comp);
    var r := LookupIn(v, v.currentCluster, comp, fs);
    if r == None { return false, NoSuchFile; }
    v.currentCluster, v.currentSize, v.currentIsDir := r.value.first, r.value.size, r.value.isDir;
    more, status := r.value.isDir, Success;
  }

  lemma EnterIs(d: Disk, g: Geometry, fs: Fs, done: seq<Name>, h: nat, comp: Name)
    requires Layout(d, g, fs) && Refs(g, fs) && Walk(g, fs, done) == Folder(h)
    ensures h in fs.dirs
    ensures Walk(g, fs, done + [comp])
         == match Lookup(g.kind, fs.dirs[h].items, comp)
            case None => Missing
            case Some(it) => if Shown(it).isDir then Folder(Shown(it).first) else File(Shown(it).first, Shown(it).size)
    ensures var r := Lookup(g.kind, fs.dirs[h].items, comp); r.Some? && Shown(r.value).isDir ==> Shown(r.value).size == 0
  {
    hide Layout, Refs, Step, Walk, Lookup, Shown, Headed;
    HeadedLayout(d, g, fs);
    WalkLands(g, fs, done);
    WalkOne(g, fs, done, comp);
    StepIs(g, fs, h, comp);
  }

  /** Fat32OpenPath. */
  method OpenPath(v: Volume, path: Name, ghost fs: Fs) returns (status: Status)
    requires Ok(v, fs) && Clean(path)
    modifies v.buf, v`currentCluster, v`currentSize, v`currentIsDir
    ensures Ok(v, fs)
    ensures status == if Walk(v.g, fs, Comps(path)) == Missing then NoSuchFile else Success
    ensures Opened(v, Walk(v.g, fs, Comps(path)))
    ensures Walk(v.g, fs, Comps(path)).Folder? ==> v.currentSize == 0
  {
    hide FatOf, Mirrored, Layout, Refs, Step, Walk, Lookup, Comps, WordLen, GoodName;
    v.currentCluster, v.currentSize, v.currentIsDir := v.g.rootCluster, 0, true;
    var p := 0;
    ghost var all, done := Comps(path), [];
    RootWalk(v.g, fs);
    assert path[0..] == path;
    while p < |path|
      invariant p <= |path| && Ok(v, fs) && v.disk == old(v.disk)
      invariant all == done + Comps(path[p..])
      invariant Walk(v.g, fs, done) == Folder(v.currentCluster) && v.currentIsDir && v.currentSize == 0
    {
      var comp, next := NextComponent(path, p);
      p := next;
      if comp != [] {
        assert all[|done|] == comp;
        var more;
        more, status := Enter(v, comp, fs, done);
        done := done + [comp];
        if !more {
          WalkStays(v.g, fs, done, Comps(path[p..]));
          assert done + Comps(path[p..]) == all;
          return;
        }
      }
    }
    assert path[p..] == [] && done == all;
    v.currentIsDir := true;
    return Success;
  }

  lemma RootWalk(g: Geometry, fs: Fs)
    ensures Walk(g, fs, []) == Folder(g.rootCluster)
    ensures Comps([]) == []
  {
  }

  /** One step, in the terms the driver reads off the entry. */
  lemma StepIs(g: Geometry, fs: Fs, h: nat, comp: Name)
    requires Refs(g, fs) && h in fs.dirs
    ensures Step(g.kind, fs, Folder(h), comp)
         == match Lookup(g.kind, fs.dirs[h].items, comp)
            case None => Missing
            case Some(it) => if Shown(it).isDir then Folder(Shown(it).first) else File(Shown(it).first, Shown(it).size)
    ensures var r := Lookup(g.kind, fs.dirs[h].items, comp); r.Some? && Shown(r.value).isDir ==> Shown(r.value).size == 0
  {
    hide ShortName, Listing, JustEnough;
    match FirstShort(fs.dirs[h].items, ShortName(comp))
    case None =>
    case Some(i) => FileRef(g, fs, h, i);
  }

  // ---- whole files and slices ------------------------------------------------

  /** Fat32OpenPath and Fat32ReadFile: the bytes of the file. */
  method ReadWhole(v: Volume, path: Name, ghost fs: Fs) returns (status: Status, out: Bytes)
    requires Ok(v, fs) && Clean(path)
    modifies v.buf, v`currentCluster, v`currentSize, v`currentIsDir
    ensures Ok(v, fs)
    ensures match Walk(v.g, fs, Comps(path))
            case Missing => status == NoSuchFile && out == []
            case Folder(_) => status == Unsuccessful && out == []
            case File(f, n) =>
              && status == Success && (f == 0 || (f in fs.files && OnClusters(v.g, fs.files[f])))
              && out == FileBytes(v.disk, v.g, fs, f, n)
  {
    hide FatOf, Mirrored, Layout, Refs, Walk, ChainStream, JustEnough;
    HeadedLayout(v.disk, v.g, fs);
    out := [];
    status := OpenPath(v, path, fs);
    if status != Success { return; }
    if v.currentIsDir { return Unsuccessful, []; }
    WalkLands(v.g, fs, Comps(path));
    ghost var f, cs := v.currentCluster, if v.currentCluster == 0 then [] else fs.files[v.currentCluster];
    ChainThere(v, fs, f, cs);
    out := v.ReadFile(cs);
  }

  lemma ChainThere(v: Volume, fs: Fs, f: nat, cs: seq<nat>)
    requires Carries(v, fs) && if f == 0 then cs == [] else f in fs.files && cs == fs.files[f]
    ensures v.Holds(cs) && v.ChainAt(f, cs)
  {
    hide FatOf, Mirrored, DirLaid, Forest, Chains;
    if f != 0 { KeyChain(v.g, v.Fat(), fs, f); }
  }

  /** Fat32ReadFileAt. */
  method ReadFileAt(v: Volume, path: Name, offset: nat, count: nat, ghost fs: Fs) returns (status: Status, out: Bytes)
    requires Ok(v, fs) && Clean(path) && offset < 0x1_0000_0000 && count < 0x1_0000_0000
    modifies v.buf, v`currentCluster, v`currentSize, v`currentIsDir
    ensures Ok(v, fs)
    ensures match Walk(v.g, fs, Comps(path))
            case Missing => status == NoSuchFile && out == []
            case Folder(_) => status == EndOfFile && out == []
            case File(f, n) =>
              if n == 0 || f == 0 then status == EndOfFile && out == []
              else
                && f in fs.files && OnClusters(v.g, fs.files[f]) && n <= |ChainStream(v.disk, v.g, fs.files[f])|
                && (status, out) == ReadAtResult(ChainStream(v.disk, v.g, fs.files[f]), n, v.g.ClusterSize(), offset, count)
  {
    hide FatOf, Mirrored, Layout, Refs, Walk, ChainStream, FatReadAt.Wrap, ReadAtResult, RefOk;
    HeadedLayout(v.disk, v.g, fs);
    out := [];
    status := OpenPath(v, path, fs);
    if status != Success { return; }
    ghost var t := Walk(v.g, fs, Comps(path));
    WalkLands(v.g, fs, Comps(path));
    SizeFits(v, fs, Comps(path));
    ghost var cs := if t.File? then (if t.first == 0 then [] else fs.files[t.first]) else fs.dirs[t.head].cs;
    TargetChain(v, fs, t, cs);
    status, out := v.ReadOpenAt(offset, count, cs);
  }

  lemma TargetChain(v: Volume, fs: Fs, t: Target, cs: seq<nat>)
    requires Carries(v, fs) && t != Missing
    requires t.Folder? ==> t.head in fs.dirs && cs == fs.dirs[t.head].cs
    requires t.File? ==> if t.first == 0 then cs == [] else t.first in fs.files && cs == fs.files[t.first]
    ensures v.Holds(cs) && v.ChainAt(if t.Folder? then t.head else t.first, cs)
  {
    hide FatOf, Mirrored, DirLaid, Forest, Chains;
    if t.File? {
      ChainThere(v, fs, t.first, cs);
    } else if !FixedRoot(v.g, t.head) {
      KeyChain(v.g, v.Fat(), fs, t.head);
    }
  }

  /** Sizes are 32-bit numbers. */
  lemma SizeFits(v: Volume, fs: Fs, comps: seq<Name>)
    requires Carries(v, fs) && Headed(v.g, fs) && Refs(v.g, fs)
    ensures Walk(v.g, fs, comps).File? ==> Walk(v.g, fs, comps).size < 0x1_0000_0000
  {
    hide FatOf, Mirrored, Layout, Refs, ShortName, Headed;
    if comps != [] {
      var front := comps[..|comps| - 1];
      SizeFits(v, fs, front);
      WalkLands(v.g, fs, front);
      if Walk(v.g, fs, front).Folder? {
        SizesStored(v, fs, Walk(v.g, fs, front).head);
      }
    }
  }

  lemma SizesStored(v: Volume, fs: Fs, h: nat)
    requires Carries(v, fs) && h in fs.dirs
    ensures forall i :: 0 <= i < |fs.dirs[h].items| && fs.dirs[h].items[i].Entry? ==> fs.dirs[h].items[i].size < 0x1_0000_0000
  {
    hide FatOf, Mirrored, Layout, ShortName;
    CarriesAt(v, fs, h);
    var items := fs.dirs[h].items;
    forall i | 0 <= i < |items| && items[i].Entry? ensures items[i].size < 0x1_0000_0000 {
      assert ItemOk(v.g.kind, items[i]);
    }
  }

  // ---- writing and deleting by path ------------------------------------------

  function Stripped(path: Name): Name {
    if path != [] && path[0] == SLASH then Stripped(path[1..]) else path
  }

  /** Index of the last slash below `n`, or -1. */
  function LastSlash(p: Name, n: nat): (k: int)
    requires n <= |p|
    ensures -1 <= k < n
    ensures k >= 0 ==> p[k] == SLASH
    ensures forall i :: k < i < n ==> p[i] != SLASH
  {
    if n == 0 then -1 else if p[n - 1] == SLASH then n - 1 else LastSlash(p, n - 1)
  }

  function ParentOf(path: Name): Name {
    var p := Stripped(path);
    var k := LastSlash(p, |p|);
    if k < 0 then [] else p[..k]
  }

  function LeafOf(path: Name): Name {
    var p := Stripped(path);
    p[LastSlash(p, |p|) + 1..]
  }

  lemma {:induction false} StrippedComps(path: Name)
    ensures Comps(Stripped(path)) == Comps(path)
  {
    if path != [] && path[0] == SLASH {
      StrippedComps(path[1..]);
    }
  }

  /** Splitting at the last slash splits off the last component. */
  lemma SplitComps(path: Name)
    requires LeafOf(path) != [] && forall i :: 0 <= i < |LeafOf(path)| ==> !IsSep(LeafOf(path)[i])
    ensures Comps(path) == Comps(ParentOf(path)) + [LeafOf(path)]
  {
    hide Comps;
    var p, parent, leaf := Stripped(path), ParentOf(path), LeafOf(path);
    StrippedComps(path);
    if LastSlash(p, |p|) < 0 {
      assert p == leaf;
      OneComp(leaf);
      NoComps();
      assert [] + [leaf] == [leaf];
    } else {
      assert p == parent + [SLASH] + leaf;
      CompsSnoc(parent, leaf);
    }
  }

  lemma NoComps()
    ensures Comps([]) == []
  {
  }

  /** The head of Fat32WriteFile and Fat32DeleteFile. */
  method SplitPath(path: Name) returns (ok: bool, parent: Name, name: Name)
    ensures ok <==> LeafOf(path) != []
    ensures ok ==> parent == ParentOf(path) && name == LeafOf(path)
  {
    hide Stripped, LastSlash;
    ok, parent, name := false, [], [];
    var p := DropSlashes(path);
    if p == [] { return; }
    var last := FindLastSlash(p);
    parent := if last < 0 then [] else p[..last];
    name := p[last + 1..];
    ok := name != [];
  }

  /** The loop that looks for the last slash. */
  method FindLastSlash(p: Name) returns (last: int)
    ensures last == LastSlash(p, |p|)
  {
    hide LastSlash;
    last := -1;
    var scan := 0;
    NoSlash(p);
    while scan < |p|
      invariant scan <= |p| && last == LastSlash(p, scan)
    {
      NextSlash(p, scan);
      if p[scan] == SLASH { last := scan; }
      scan := scan + 1;
    }
  }

  lemma NoSlash(p: Name)
    ensures LastSlash(p, 0) == -1
  {
  }

  lemma NextSlash(p: Name, n: nat)
    requires n < |p|
    ensures LastSlash(p, n + 1) == if p[n] == SLASH then n else LastSlash(p, n)
  {
  }

  /** The directory a new entry goes to. */
  ghost function ParentWalk(g: Geometry, fs: Fs, path: Name): Target { Walk(g, fs, Comps(ParentOf(path))) }

  /** Opens the parent of a path; an empty parent is the root. Whatever the parent is, its first
      cluster is taken for a directory's; `dir` says whether it is one. */
  method OpenParent(v: Volume, parent: Name, ghost fs: Fs) returns (status: Status, head: nat, dir: bool)
    requires Ok(v, fs) && Clean(parent)
    modifies v.buf, v`currentCluster, v`currentSize, v`currentIsDir
    ensures Ok(v, fs)
    ensures if Walk(v.g, fs, Comps(parent)) == Missing then status == NotFound
            else status == Success && head == HeadOf(Walk(v.g, fs, Comps(parent)))
    ensures status == Success ==> (dir <==> !Stray(v.g, Walk(v.g, fs, Comps(parent)))) && (dir <==> head in fs.dirs)
    ensures status == Success && dir ==> At(v, fs, head)
    ensures status == Success && !dir ==> head == 0 || head in fs.files
  {
    hide FatOf, Mirrored, Layout, Refs, Walk, Comps, DirOk;
    HeadedLayout(v.disk, v.g, fs);
    ZeroIsRoot(v.disk, v.g, fs);
    RootNumber(v.g);
    head, dir := v.g.rootCluster, true;
    if parent == [] {
      RootWalk(v.g, fs);
      status := Success;
    } else {
      status := OpenPath(v, parent, fs);
      if status != Success { status := NotFound; return; }
      head, dir := v.currentCluster, v.currentIsDir || (v.currentCluster == 0 && !v.g.kind.Fat32?);
      v.Close();
    }
    HeadIsDirectory(v.g, fs, Comps(parent));
    if dir { CarriesAt(v, fs, head); }
  }

  lemma ZeroIsRoot(d: Disk, g: Geometry, fs: Fs)
    requires Layout(d, g, fs)
    ensures 0 in fs.dirs ==> g.rootCluster == 0
  {
    hide FatOf, Mirrored, DirLaid, Forest, Chains;
    if 0 in fs.dirs && !FixedRoot(g, 0) { KeyChain(g, FatOf(d, g), fs, 0); }
  }

  /** The sector behind the volume can be read, should a very long name lead there. */
  ghost predicate Spare(v: Volume, name: Name)
    reads v
  {
    SlotsNeeded(name) <= v.g.spc * 16 || v.g.totalSectors < |v.disk|
  }

  /** Fat32WriteFile. What it takes for the parent directory is one exactly when the path is no
      `Stray`; only then does it promise that the other files are left alone. */
  method WriteFile(v: Volume, path: Name, data: Bytes, ghost fs: Fs)
    returns (status: Status, ghost fs': Fs, ghost head: nat, ghost fc: seq<nat>)
    requires Ok(v, fs) && Clean(ParentOf(path)) && |data| < 0x1_0000_0000
    requires LeafOf(path) != [] ==> GoodName(LeafOf(path)) && Spare(v, LeafOf(path))
    modifies v`disk, v`lastAllocated, v.buf, v`currentCluster, v`currentSize, v`currentIsDir
    ensures status == InvalidParameter <==> LeafOf(path) == []
    ensures status == NotFound <==> LeafOf(path) != [] && ParentWalk(v.g, fs, path) == Missing
    ensures status in {InvalidParameter, NotFound, AccessDenied, Astray} ==> v.disk == old(v.disk) && Ok(v, fs)
    ensures status in {InvalidParameter, NotFound, AccessDenied, DiskFull, Success, Astray}
    ensures status !in {InvalidParameter, NotFound} ==>
              head == HeadOf(ParentWalk(v.g, fs, path)) && (head in fs.dirs <==> !Stray(v.g, ParentWalk(v.g, fs, path)))
    ensures status !in {InvalidParameter, NotFound} && head !in fs.dirs ==>
              && (head != 0 ==> head in fs.files)
              && (status in {AccessDenied, Astray} <==> head == 0 || PassesForEntry(old(v.disk), v.g, fs, head, LeafOf(path)))
              && (status == DiskFull ==> Ok(v, fs) && v.Fat() == old(v.Fat()) && FilesKept(old(v.disk), v.disk, v.g, fs))
              && (status == Success ==> v.Valid() && head in fs.files && !Unharmed(old(v.disk), v.disk, v.g, fs.files[head]))
    ensures status !in {InvalidParameter, NotFound} && head in fs.dirs ==>
              && status != Astray && (status == AccessDenied <==> IsSubdir(fs, head, LeafOf(path)))
              && (status == DiskFull && !NameTaken(fs, head, LeafOf(path)) ==>
                    Ok(v, fs) && v.Fat() == old(v.Fat()) && FilesKept(old(v.disk), v.disk, v.g, fs))
              && (status == DiskFull && NameTaken(fs, head, LeafOf(path)) ==>
                    var fs0 := Swapped(fs, OldFirst(fs, head, LeafOf(path)), []);
                    Carries(v, fs0) && FilesKept(old(v.disk), v.disk, v.g, fs0) && head in fs0.dirs && fs0.dirs[head] == fs.dirs[head])
              && (status == Success && (NameTaken(fs, head, LeafOf(path)) || Visible(old(v.disk), v.g, fs, head, LeafOf(path))) ==>
                    && Ok(v, fs') && Written(v.disk, v.g, fs, fs', head, LeafOf(path), fc, data)
                    && FilesKept(old(v.disk), v.disk, v.g, Swapped(fs, OldFirst(fs, head, LeafOf(path)), [])))
              && (status == Success && !NameTaken(fs, head, LeafOf(path)) && !Contained(old(v.disk), v.g, fs, head, LeafOf(path)) ==>
                    exists cs: seq<nat> ::
                      IsDir(v, head, cs) && Overran(old(v.disk), v.disk, v.g, fc, fs.dirs[head].cs, cs, FileOf(LeafOf(path), fc, |data|)))
              && (status == Success && !NameTaken(fs, head, LeafOf(path)) && Contained(old(v.disk), v.g, fs, head, LeafOf(path))
                  && !Visible(old(v.disk), v.g, fs, head, LeafOf(path)) ==>
                    exists cs: seq<nat> :: IsDir(v, head, cs) && ScanShort(Slots(v, head, cs), ShortName(LeafOf(path))) == None)
              && (status == Success && !NameTaken(fs, head, LeafOf(path)) && Visible(old(v.disk), v.g, fs, head, LeafOf(path)) ==>
                    && head in fs'.dirs
                    && (fs'.dirs[head].cs == fs.dirs[head].cs ==> FreshChain(old(v.Fat()), v.Fat(), EofMarker(v.g.kind), fc))
                    && SpaceTaken(old(v.Fat()), v.Fat(), fc, fs.dirs[head].cs, fs'.dirs[head].cs)
                    && exists a, b :: Added(fs.dirs[head].items, fs'.dirs[head].items, FileEntry(LeafOf(path), fc, |data|), a, b))
  {
    hide FatOf, Mirrored, Layout, Refs, Walk, Comps, DirOk, FilesKept, DataLaid, Written, Visible, Contained, Overran, FatStore.RoundsUp,
         ParentOf, LeafOf, FreshChain, Unharmed, ScanShort, ShortName, SlotsNeeded, DirSectors, SlotsOf, Chain, PassesForEntry,
         SpaceTaken;
    fs', head, fc := fs, 0, [];
    var ok, parent, name := SplitPath(path);
    if !ok { return InvalidParameter, fs, 0, []; }
    var at, dir;
    status, at, dir := OpenParent(v, parent, fs);
    if status != Success { return; }
    head := at;
    if dir {
      status, fs', fc := WriteFileIn(v, at, name, data, fs);
    } else if at == 0 {
      status := Astray;
    } else {
      status := WriteBelowFile(v, at, name, data, fs);
    }
  }

  /** Writing a file and reading it back by the same path gives the data: the name must be
      visible, the directory must not exceed the 64 entries Fat32OpenPath looks at, and the
      rounding sum must fit 32 bits. */
  method ReadBack(v: Volume, path: Name, data: Bytes, ghost fs: Fs) returns (written: Status, status: Status, out: Bytes, ghost fs': Fs)
    requires Ok(v, fs) && Clean(path) && Clean(ParentOf(path)) && |data| < 0x1_0000_0000
    requires ParentWalk(v.g, fs, path).Folder? && ParentWalk(v.g, fs, path).head in fs.dirs
    requires LeafOf(path) != [] && GoodName(LeafOf(path)) && Spare(v, LeafOf(path))
    requires forall i :: 0 <= i < |LeafOf(path)| ==> !IsSep(LeafOf(path)[i])
    requires !IsSubdir(fs, ParentWalk(v.g, fs, path).head, LeafOf(path))
    requires NameTaken(fs, ParentWalk(v.g, fs, path).head, LeafOf(path))
             || Visible(v.disk, v.g, fs, ParentWalk(v.g, fs, path).head, LeafOf(path))
    modifies v`disk, v`lastAllocated, v.buf, v`currentCluster, v`currentSize, v`currentIsDir
    ensures written == Success || written == DiskFull
    ensures written == Success ==> Ok(v, fs') && ParentWalk(v.g, fs, path).head in fs'.dirs
    ensures written == Success && |Listing(v.g.kind, fs'.dirs[ParentWalk(v.g, fs, path).head].items)| <= LIMIT ==>
              status == Success && (out == data <==> |data| == 0 || RoundsUp(|data|, v.g.ClusterSize()))
  {
    hide FatOf, Mirrored, Layout, Refs, Walk, Comps, FilesKept, Written, Visible, FatStore.RoundsUp, ParentOf, LeafOf, FreshChain,
         ChainStream, Listing, NameTaken, IsSubdir, FileBytes, GoodName;
    status, out := Unsuccessful, [];
    HeadedLayout(v.disk, v.g, fs);
    ZeroIsRoot(v.disk, v.g, fs);
    ghost var head, fc;
    written, fs', head, fc := WriteFile(v, path, data, fs);
    if written != Success { return; }
    WrittenHead(v.disk, v.g, fs, fs', head, LeafOf(path), fc, data);
    if |Listing(v.g.kind, fs'.dirs[head].items)| <= LIMIT {
      ReadAfterWrite(v.g, v.disk, fs, fs', head, Comps(ParentOf(path)), LeafOf(path), fc, data);
      SplitComps(path);
    }
    status, out := ReadWhole(v, path, fs');
  }

  lemma WrittenHead(d: Disk, g: Geometry, fs: Fs, fs': Fs, head: nat, name: Name, fc: seq<nat>, data: Bytes)
    requires Written(d, g, fs, fs', head, name, fc, data)
    ensures head in fs'.dirs
  {
  }

  /** Fat32DeleteFile. */
  method DeleteFile(v: Volume, path: Name, ghost fs: Fs) returns (status: Status, ghost fs': Fs, ghost head: nat)
    requires Ok(v, fs) && Clean(ParentOf(path))
    requires LeafOf(path) != [] ==> GoodName(LeafOf(path))
    modifies v`disk, v.buf, v`currentCluster, v`currentSize, v`currentIsDir
    ensures status == InvalidParameter <==> LeafOf(path) == []
    ensures status == NotFound <==> LeafOf(path) != [] && ParentWalk(v.g, fs, path) == Missing
    ensures status in {InvalidParameter, NotFound, NoSuchFile, Success, Astray}
    ensures status != Success ==> v.disk == old(v.disk) && Ok(v, fs)
    ensures status !in {InvalidParameter, NotFound} ==>
              head == HeadOf(ParentWalk(v.g, fs, path)) && (head in fs.dirs <==> !Stray(v.g, ParentWalk(v.g, fs, path)))
    ensures status !in {InvalidParameter, NotFound} && head !in fs.dirs ==>
              (status == NoSuchFile <==> head == 0 || (head in fs.files && AnswersBelow(old(v.disk), v.g, fs, head, LeafOf(path)) == None)) && status != Success
    ensures status !in {InvalidParameter, NotFound} && head in fs.dirs ==>
              status != Astray && (status == NoSuchFile <==> Victim(fs, head, LeafOf(path)) == None)
    ensures status == Success ==>
              && head in fs.dirs && Ok(v, fs') && Deleted(fs, fs', head, Victim(fs, head, LeafOf(path)).value)
              && FilesKept(old(v.disk), v.disk, v.g, Swapped(fs, ItemAt(fs, head, Victim(fs, head, LeafOf(path)).value).first, []))
    ensures status == Success ==>
              var first := ItemAt(fs, head, Victim(fs, head, LeafOf(path)).value).first;
              if first == 0 then v.Fat() == old(v.Fat()) else FreedFrom(old(v.Fat()), v.Fat(), first)
  {
    hide FatOf, Mirrored, Layout, Refs, Walk, Comps, DirOk, FilesKept, ParentOf, LeafOf, Victim, Deleted, FreedFrom, Swapped,
         FindEntry, DirSectors, SlotsOf, AnswersBelow, FoundBelow;
    fs', head := fs, 0;
    var ok, parent, name := SplitPath(path);
    if !ok { return InvalidParameter, fs, 0; }
    var at, dir;
    status, at, dir := OpenParent(v, parent, fs);
    if status != Success { return; }
    head := at;
    if dir {
      status, fs' := DeleteFileIn(v, at, name, fs);
    } else if at == 0 {
      status := NoSuchFile;
    } else {
      var place;
      status, place := DeleteBelowFile(v, at, name, fs);
    }
  }

  // ---- Fat32CreateDirectory --------------------------------------------------

  /** The path without leading and trailing slashes. */
  function Bare(path: Name): Name {
    TrimEnd(Stripped(path))
  }

  function TrimEnd(p: Name): Name {
    if |p| > 1 && p[|p| - 1] == SLASH then TrimEnd(p[..|p| - 1]) else p
  }

  lemma {:induction false} BareSplits(path: Name)
    requires Stripped(path) != []
    ensures Bare(path) != [] && Stripped(Bare(path)) == Bare(path) && LeafOf(Bare(path)) != [] && |Bare(path)| <= |path|
  {
    StrippedStart(path);
    TrimEndKeeps(Stripped(path));
  }

  lemma {:induction false} StrippedStart(path: Name)
    ensures |Stripped(path)| <= |path|
    ensures Stripped(path) != [] ==> Stripped(path)[0] != SLASH
  {
    if path != [] && path[0] == SLASH {
      StrippedStart(path[1..]);
    }
  }

  lemma {:induction false} TrimEndKeeps(p: Name)
    requires p != [] && p[0] != SLASH
    ensures var q := TrimEnd(p); q != [] && q[0] == p[0] && q[|q| - 1] != SLASH && |q| <= |p|
    ensures Comps(TrimEnd(p)) == Comps(p)
  {
    hide Comps;
    if |p| > 1 && p[|p| - 1] == SLASH {
      TrimEndKeeps(p[..|p| - 1]);
      CompsThenSlash(p[..|p| - 1]);
      assert p[..|p| - 1] + [SLASH] == p;
    }
  }

  lemma {:induction false} CompsThenSlash(p: Name)
    ensures Comps(p + [SLASH]) == Comps(p)
    decreases |p|
  {
    var whole: Name := p + [SLASH];
    if p == [] {
      assert whole[1..] == [];
    } else if IsSep(p[0]) {
      assert whole[1..] == p[1..] + [SLASH];
      CompsThenSlash(p[1..]);
    } else {
      var n := WordLen(p);
      assert whole == p[..n] + (p[n..] + [SLASH]);
      WordLenIs(p[..n], p[n..] + [SLASH]);
      assert whole[n..] == p[n..] + [SLASH] && whole[..n] == p[..n];
      CompsThenSlash(p[n..]);
    }
  }

  lemma BareComps(path: Name)
    requires Stripped(path) != []
    ensures Comps(Bare(path)) == Comps(path)
  {
    StrippedStart(path);
    StrippedComps(path);
    TrimEndKeeps(Stripped(path));
  }

  /** A path that leads nowhere has a new name in a small parent directory. */
  lemma MissingIsNew(g: Geometry, fs: Fs, path: Name, head: nat)
    requires Stripped(path) != [] && (forall i :: 0 <= i < |LeafOf(Bare(path))| ==> !IsSep(LeafOf(Bare(path))[i]))
    requires Walk(g, fs, Comps(path)) == Missing && ParentWalk(g, fs, Bare(path)) == Folder(head) && head in fs.dirs
    requires |Listing(g.kind, fs.dirs[head].items)| <= LIMIT
    ensures FirstShort(fs.dirs[head].items, ShortName(LeafOf(Bare(path)))) == None
  {
    hide Comps, Bare, LeafOf, ParentOf, ShortName, Listing, Lookup, Stripped, IsSep;
    BareSplits(path);
    BareComps(path);
    SplitComps(Bare(path));
    WalkOne(g, fs, Comps(ParentOf(Bare(path))), LeafOf(Bare(path)));
    SmallShowsAll(g.kind, fs.dirs[head].items, LeafOf(Bare(path)));
  }

  /** Below a file every path leads to the file. */
  lemma MissingParent(g: Geometry, fs: Fs, path: Name)
    requires Stripped(path) != [] && Walk(g, fs, Comps(path)) == Missing
    requires forall i :: 0 <= i < |LeafOf(Bare(path))| ==> !IsSep(LeafOf(Bare(path))[i])
    ensures !ParentWalk(g, fs, Bare(path)).File?
  {
    hide Comps, Bare, LeafOf, ParentOf, Lookup, Stripped, IsSep, Walk;
    BareSplits(path);
    BareComps(path);
    SplitComps(Bare(path));
    if ParentWalk(g, fs, Bare(path)).File? {
      WalkStays(g, fs, Comps(ParentOf(Bare(path))), [LeafOf(Bare(path))]);
    }
  }

  /** A name an entry can have, without a backslash. */
  ghost predicate NewLeaf(v: Volume, name: Name)
    reads v
  {
    GoodName(name) && Spare(v, name) && forall i :: 0 <= i < |name| ==> !IsSep(name[i])
  }

  /** All entries of a directory are among those Fat32OpenPath looks at. */
  ghost predicate SmallDir(g: Geometry, fs: Fs, t: Target) {
    t.Folder? && t.head in fs.dirs ==> |Listing(g.kind, fs.dirs[t.head].items)| <= LIMIT
  }

  /** The new directory is there if its entry is visible; if the entry did not stay inside its
      cluster, it ran over. */
  ghost predicate NewDirThere(v: Volume, d: Disk, fs: Fs, fs': Fs, head: nat, name: Name, c: nat)
    reads v
  {
    && Layout(d, v.g, fs) && head in fs.dirs
    && (Visible(d, v.g, fs, head, name) ==> Ok(v, fs') && DirAdded(v.g, fs, fs', head, name, c) && FilesKept(d, v.disk, v.g, fs))
    && (!Contained(d, v.g, fs, head, name) ==>
          exists cs: seq<nat> :: IsDir(v, head, cs) && Overran(d, v.disk, v.g, [c], fs.dirs[head].cs, cs, NewEntry(name, DIRECTORY, c, 0)))
  }

  /** Fat32CreateDirectory. A path that already leads somewhere is left alone. */
  method CreateDirectory(v: Volume, path: Name, ghost fs: Fs) returns (status: Status, ghost fs': Fs, ghost head: nat, ghost c: nat)
    requires Ok(v, fs) && Clean(path) && Clean(ParentOf(Bare(path))) && (Stripped(path) != [] ==> NewLeaf(v, LeafOf(Bare(path))))
    requires SmallDir(v.g, fs, ParentWalk(v.g, fs, Bare(path)))
    modifies v`disk, v`lastAllocated, v.buf, v`currentCluster, v`currentSize, v`currentIsDir
    ensures status == InvalidParameter <==> Stripped(path) == []
    ensures status == NotFound <==> Stripped(path) != [] && Walk(v.g, fs, Comps(path)) == Missing && ParentWalk(v.g, fs, Bare(path)) == Missing
    ensures status in {InvalidParameter, NotFound} ==> v.disk == old(v.disk) && Ok(v, fs)
    ensures Stripped(path) != [] && Walk(v.g, fs, Comps(path)) != Missing ==>
              status == Success && v.disk == old(v.disk) && Ok(v, fs)
    ensures Stripped(path) != [] && Walk(v.g, fs, Comps(path)) == Missing ==>
              status == NotFound || (ParentWalk(v.g, fs, Bare(path)) == Folder(head) && head in fs.dirs)
    ensures status == DiskFull ==> Ok(v, fs) && v.Fat() == old(v.Fat()) && FilesKept(old(v.disk), v.disk, v.g, fs)
    ensures Stripped(path) != [] && Walk(v.g, fs, Comps(path)) == Missing && status == Success ==>
              NewDirThere(v, old(v.disk), fs, fs', head, LeafOf(Bare(path)), c)
    ensures status in {InvalidParameter, NotFound, DiskFull, Success}
  {
    hide FatOf, Mirrored, Layout, Refs, Walk, Comps, DirOk, FilesKept, ParentOf, LeafOf, Stripped, Bare, Visible, Contained, Overran, DirAdded,
         SlotsNeeded, Chain,
         Listing, FirstShort, ShortName, GoodName, IsSep;
    fs', head, c := fs, 0, 0;
    var p := DropSlashes(path);
    if p == [] { return InvalidParameter, fs, 0, 0; }
    status := OpenPath(v, path, fs);
    if status == Success {
      v.Close();
      return;
    }
    var q := CutSlashes(p, path);
    var ok, parent, name := SplitPath(q);
    BareSplits(path);
    MissingParent(v.g, fs, path);
    var at, dir;
    status, at, dir := OpenParent(v, parent, fs);
    if status != Success { return; }
    head := at;
    MissingIsNew(v.g, fs, path, head);
    status, fs', c := CreateDirectoryIn(v, at, name, fs);
  }

  method DropSlashes(path: Name) returns (p: Name)
    ensures p == Stripped(path)
  {
    hide Stripped;
    var start := 0;
    StrippedFrom(path, 0);
    while start < |path| && path[start] == SLASH
      invariant start <= |path| && Stripped(path) == Stripped(path[start..])
    {
      StrippedFrom(path, start);
      start := start + 1;
    }
    StrippedFrom(path, start);
    p := path[start..];
  }

  method CutSlashes(p: Name, ghost path: Name) returns (q: Name)
    requires p == Stripped(path) && p != []
    ensures q == Bare(path)
  {
    hide Stripped;
    var len := |p|;
    assert p[..len] == p;
    while len > 1 && p[len - 1] == SLASH
      invariant 1 <= len <= |p| && TrimEnd(p[..len]) == TrimEnd(p)
    {
      assert p[..len][..len - 1] == p[..len - 1];
      len := len - 1;
    }
    q := p[..len];
  }

  lemma StrippedFrom(path: Name, k: nat)
    requires k <= |path|
    ensures k == 0 ==> Stripped(path[k..]) == Stripped(path)
    ensures k < |path| && path[k] == SLASH ==> Stripped(path[k..]) == Stripped(path[k + 1..])
    ensures k == |path| ==> Stripped(path[k..]) == []
    ensures k < |path| && path[k] != SLASH ==> Stripped(path[k..]) == path[k..]
  {
    assert path[0..] == path;
    if k < |path| { assert path[k..][1..] == path[k + 1..]; }
  }
}
