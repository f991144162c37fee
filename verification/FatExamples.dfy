/** Inputs on which the driver falls short of what its callers expect, each an instance of
    the condition proved where the operation is. */
module FatExamples {
  import opened Basics
  import opened Arith
  import opened FatDisk
  import opened FatCells
  import opened FatData
  import opened FatNames
  import opened FatDir
  import opened FatItems
  import opened FatScans
  import opened FatReadAt
  import opened FatSlots
  import opened FatVolume
  import opened FatDirectory
  import opened FatCreate
  import opened FatStore
  import opened FatFs
  import opened FatFiles
  import opened FatOps
  import opened FatMkdir
  import opened FatPaths
  import opened FatStray
  import opened FatApi
  import FatOddNames

  /** A read whose end wraps round 2^32 is not clamped: for a file of 1000 bytes on one cluster
      of 4096 it returns the rest of the cluster as well. */
  lemma ReadsPastTheEnd(b: Bytes)
    requires |b| == 4096
    ensures ReadAtResult(b, 1000, 4096, 1, 0xFFFF_FFFF) == (Success, b[1..4096])
    ensures ReadAtResult(b, 1000, 4096, 1, 0xFFFF_FFFF) != (Success, b[..1000][1..1000])
  {
    Remainder(0x1_0000_0000, 0x1_0000_0000, 1, 0);
    assert |b[1..4096]| == 4095 && |b[..1000][1..1000]| == 999;
  }

  /** A file within a cluster of 4 GiB gets a size but no cluster at all. */
  lemma SizeWithoutClusters()
    ensures !RoundsUp(0xFFFF_FFFF, 4096) && Wrap(0xFFFF_FFFF + 4096 - 1) / 4096 == 0
  {
    ClustersNeeded(0xFFFF_FFFF, 8);
  }

  /** Deleting looks for the name the entry shows, which has lost its trailing dot. */
  lemma DottedNameLost(attr: u8, first: nat, size: nat)
    ensures var name: Name := [0x46, 0x4F, 0x4F, 0x2E]; GoodName(name) && !Answers(Entry(name, attr, first, size), name)
  {
    var name: Name := [0x46, 0x4F, 0x4F, 0x2E];
    LastDotIs(name, 3);
    assert Base(name) == [0x46, 0x4F, 0x4F] && Extension(name) == [];
    assert ShortName(name)[0] == 0x46;
    assert Spaces(11)[0] == SPACE && DOT_RAW[0] == DOT && DOT_DOT_RAW[0] == DOT;
    assert !NeedLfn(name);
    AnswersItself(name, attr, first, size);
  }

  /** A file whose only entry is "A.TXT" is deleted as "a.txt". */
  lemma DeletedInAnyCase(attr: u8, first: nat, size: nat)
    ensures FirstAnswer([Entry(A_TXT, attr, first, size)], [0x61, 0x2E, 0x74, 0x78, 0x74]) == Some(0)
  {
    hide NeedLfn, ShortName, DisplayName, Answers;
    var it, lower: Name := Entry(A_TXT, attr, first, size), [0x61, 0x2E, 0x74, 0x78, 0x74];
    FatOddNames.GoodNames(A_TXT);
    AnswersItself(A_TXT, attr, first, size);
    AnswersCase(it, A_TXT, lower);
  }

  /** Live slots, then fewer free-forever slots than the run needs: the group is passed over. */
  lemma {:induction false} GroupTooShort(g: seq<Slot>, needed: nat, live: nat, k: nat)
    requires 1 <= needed && k <= live < |g| && |g| - live < needed && IsEnd(g[live])
    requires forall i :: 0 <= i < live ==> !IsEnd(g[i]) && !IsGone(g[i])
    ensures FreeRun(g, needed, k, 0) == None
    decreases live - k
  {
    if k < live { GroupTooShort(g, needed, live, k + 1); }
  }

  /** In a directory of two groups whose first ends in a few free-forever slots, the new entry goes
      to the second group, and every later scan stops before it. */
  lemma LeftoverHides(ss: seq<Slot>, gs: nat, needed: nat, live: nat)
    requires 1 <= needed <= gs * 16 && |ss| == Steps(2, gs) * 16 && live < gs * 16 && gs * 16 - live < needed
    requires forall i :: 0 <= i < live ==> !IsEnd(ss[i]) && !IsGone(ss[i])
    requires forall i :: live <= i < |ss| ==> IsEnd(ss[i])
    ensures TargetSlot(ss, gs, needed, 0, 2) == gs * 16 && !NoEndBelow(ss, gs * 16)
  {
    hide IsEnd, IsGone, FreeRun;
    assert Steps(0, gs) == 0 && Steps(1, gs) == gs && Steps(2, gs) == gs + gs;
    GroupTooShort(ss[0..gs * 16], needed, live, 0);
    FreshGroup(ss[gs * 16..(gs + gs) * 16], needed);
    assert TargetSlot(ss, gs, needed, 1, 2) == gs * 16;
    assert IsEnd(ss[live]);
  }

  lemma FreshGroup(g: seq<Slot>, needed: nat)
    requires 1 <= needed <= |g| && IsEnd(g[0])
    ensures FreeRun(g, needed, 0, 0) == Some(0)
  {
  }

  /** Clusters of one sector, fifteen one-slot entries, and a file whose name needs two slots. */
  lemma HiddenFile(live: Slot)
    requires !IsEnd(live) && !IsGone(live)
    ensures var ss := seq(15, i => live) + seq(17, i => Zeros(32));
            TargetSlot(ss, 1, 2, 0, 2) == 16 && !NoEndBelow(ss, 16)
  {
    hide TargetSlot, NoEndBelow;
    var ss: seq<Slot> := seq(15, i => live) + seq(17, i => Zeros(32));
    assert Steps(2, 1) == 2 by { StepsIsProduct(2, 1); }
    LeftoverHides(ss, 1, 2, 15);
  }

  /** A name of 196 bytes or more needs more slots than a cluster of one sector has. */
  lemma LongNameNeeds(name: Name)
    requires 196 <= |name| <= 255
    ensures SlotsNeeded(name) > 16
  {
    hide NeedLfn;
    LongNeedsLfn(name);
    assert LfnCount(name) >= 16;
  }

  lemma LongNeedsLfn(name: Name)
    requires |name| > 12
    ensures NeedLfn(name)
  {
  }

  /** No group has room for more slots than it has, so that such a name always grows the directory. */
  lemma {:induction false} NoGroupHolds(ss: seq<Slot>, gs: nat, needed: nat, i: nat, count: nat)
    requires gs * 16 < needed && |ss| == Steps(count, gs) * 16 && i <= count
    ensures TargetSlot(ss, gs, needed, i, count) == |ss|
    decreases count - i
  {
    hide FreeRun;
    if i < count {
      StepsApart(i, count, gs);
      FreeRunInside(ss[Steps(i, gs) * 16..Steps(i + 1, gs) * 16], needed, 0, 0);
      NoGroupHolds(ss, gs, needed, i + 1, count);
    }
  }

  /** On a volume with clusters of one sector every new name of 196 bytes or more that does not fill
      the disk runs out of its cluster, whatever the directory, unless that is the fixed root. */
  lemma LongNameSpills(d: Disk, g: Geometry, fs: Fs, head: nat, name: Name)
    requires Layout(d, g, fs) && head in fs.dirs && g.spc == 1 && !FixedRoot(g, head) && 196 <= |name| <= 255
    ensures !Contained(d, g, fs, head, name)
  {
    hide Layout, TargetSlot, SlotsNeeded, SlotsOf, DirSectors;
    LongNameNeeds(name);
    NoGroupHolds(SlotsThere(d, g, fs, head), 1, SlotsNeeded(name), 0, GroupCount(g, head, fs.dirs[head].cs));
  }

  const A_TXT: Name := [0x41, 0x2E, 0x54, 0x58, 0x54]

  /** With a file "A.TXT" in the root, writing or deleting "/A.TXT/X" takes the file for a directory. */
  lemma FileAsDirectory(g: Geometry, fs: Fs, f: nat, size: nat)
    requires Headed(g, fs) && f != 0 && fs.dirs[g.rootCluster].items == [Entry(A_TXT, ARCHIVE, f, size)]
    ensures var path: Name := [SLASH] + A_TXT + [SLASH, 0x58];
            ParentWalk(g, fs, path) == File(f, size) && Stray(g, ParentWalk(g, fs, path)) && LeafOf(path) == [0x58]
  {
    hide Comps, ShortName, Lookup;
    var path: Name := [SLASH] + A_TXT + [SLASH, 0x58];
    var p := path[1..];
    assert Stripped(path) == p;
    LastSlashIs(p, 5);
    assert p[..5] == A_TXT && p[6..] == [0x58];
    OneComp(A_TXT);
    var it := Entry(A_TXT, ARCHIVE, f, size);
    assert FirstShort([it], ShortName(A_TXT)) == Some(0);
    OnlyItem(g.kind, it);
    EmptyWalkIs(g, fs);
    assert [] + [A_TXT] == [A_TXT];
    WalkOne(g, fs, [], A_TXT);
  }

  lemma OnlyItem(kind: FatType, it: Item)
    requires it.Entry?
    ensures Lookup(kind, [it], it.name) == Some(it)
  {
    hide ShortName;
    assert [it][..0] == [];
  }

  lemma EmptyWalkIs(g: Geometry, fs: Fs)
    ensures Walk(g, fs, []) == Folder(g.rootCluster)
  {
  }

  lemma {:induction false} LastSlashIs(p: Name, k: nat)
    requires k < |p| && p[k] == SLASH && forall i :: k < i < |p| ==> p[i] != SLASH
    ensures LastSlash(p, |p|) == k
  {
  }
}
