/** Four-level page tables in physical memory: what a walk finds, who owns which table
    frame, and what each kind of table write does to the translations of every space. */
module PageTables {
  import opened Basics

  /** A 64-bit table word as its three fields: bits 0-11, the 40-bit frame number in bits
      12-51, and bits 52-63. */
  datatype Pte = Pte(low: nat, frame: nat, high: nat)
  {
    predicate Present() { low % 2 == 1 }              // VMM_PRESENT
    predicate Writable() { low / 2 % 2 == 1 }         // VMM_WRITABLE
    predicate User() { low / 4 % 2 == 1 }             // VMM_USER
    predicate Huge() { low / 128 % 2 == 1 }           // VMM_HUGE
    predicate Fits() { low < 0x1000 && frame < FRAMES && high < 0x1000 }
  }

  const FRAMES: nat := 0x100_0000_0000
  const ENTRIES: nat := 512

  /** What VMM_USER or-ed into a word does. */
  function WithUser(e: Pte): Pte { if e.User() then e else e.(low := e.low + 4) }

  lemma WithUserIs(e: Pte)
    requires e.Fits()
    ensures WithUser(e).User() && WithUser(e).Present() == e.Present() && WithUser(e).Huge() == e.Huge()
    ensures WithUser(e).frame == e.frame && WithUser(e).high == e.high && WithUser(e).Fits() && WithUser(e).Writable() == e.Writable()
  {
    if !e.User() { AddFour(e.low, e.low / 8, e.low % 8); }
  }

  lemma AddFour(low: nat, m: nat, r: nat)
    requires low == 8 * m + r && r < 4 && low < 0x1000
    ensures (low + 4) % 2 == low % 2 && (low + 4) / 2 % 2 == low / 2 % 2 && (low + 4) / 4 % 2 == 1
    ensures (low + 4) / 128 == low / 128 && low + 4 < 0x1000
  {
    assert low / 8 == m && (low + 4) / 8 == m;
    assert low / 128 == m / 16 && (low + 4) / 128 == m / 16;
    assert low / 2 == 4 * m + r / 2 && (low + 4) / 2 == 4 * m + 2 + r / 2 && (low + 4) / 4 == 2 * m + 1;
  }

  const EMPTY: Pte := Pte(0, 0, 0)

  type Table = t: seq<Pte> | |t| == ENTRIES witness seq(ENTRIES, i => EMPTY)

  function NoEntries(): Table { seq(ENTRIES, i => EMPTY) }

  /** Physical memory, as tables. */
  type Memory = seq<Table>

  type Path = seq<nat>

  /** The table a walk from `root` along `path` reaches. */
  function Reach(mem: Memory, root: nat, path: Path): Option<nat> {
    if path == [] then Some(root)
    else
      match Reach(mem, root, path[..|path| - 1])
      case None => None
      case Some(t) =>
        var i := path[|path| - 1];
        if t < |mem| && i < ENTRIES && mem[t][i].Present() then Some(mem[t][i].frame) else None
  }


  /** The four indices of a page. */
  predicate IsPage(q: Path) { |q| == 4 && forall k :: 0 <= k < 4 ==> q[k] < ENTRIES }

  /** The leaf entry a page is translated by. */
  function Leaf(mem: Memory, root: nat, q: Path): Option<Pte>
    requires IsPage(q)
  {
    match Reach(mem, root, q[..3])
    case None => None
    case Some(t) => if t < |mem| && mem[t][q[3]].Present() then Some(mem[t][q[3]]) else None
  }

  /** The frame a page is translated to: the abstract view of an address space. */
  function Translate(mem: Memory, root: nat, q: Path): Option<nat>
    requires IsPage(q)
  {
    match Leaf(mem, root, q) case None => None case Some(e) => Some(e.frame)
  }

  /** The path of a virtual page number: nine bits a level, from bit 47 of the address down. */
  function PathOf(n: nat): (q: Path)
    ensures IsPage(q)
  {
    [n / 0x800_0000 % ENTRIES, n / 0x4_0000 % ENTRIES, n / 0x200 % ENTRIES, n % ENTRIES]
  }

  /** The page number of a path. */
  function NumberOf(q: Path): nat
    requires IsPage(q)
  {
    q[0] * 0x800_0000 + q[1] * 0x4_0000 + q[2] * 0x200 + q[3]
  }

  lemma NumberOfPath(n: nat)
    requires n < 0x10_0000_0000
    ensures NumberOf(PathOf(n)) == n
    ensures n < 0x8_0000_0000 <==> PathOf(n)[0] < 256
  {
    assert n / 0x4_0000 / 0x200 == n / 0x800_0000 && n / 0x200 / 0x200 == n / 0x4_0000;
  }

  /** Different pages have different paths. */
  lemma PathsDiffer(m: nat, n: nat)
    requires m < 0x10_0000_0000 && n < 0x10_0000_0000 && PathOf(m) == PathOf(n)
    ensures m == n
  {
    NumberOfPath(m);
    NumberOfPath(n);
  }

  // ---- ownership -------------------------------------------------------------

  /** Where a table frame belongs: an address space (named by its root) and the indices
      that lead to it. */
  datatype Role = Role(space: nat, path: Path)

  /** The kernel half of every space is the kernel's own. */
  function SpaceOf(kernel: nat, space: nat, path: Path): nat {
    if path != [] && path[0] >= 256 then kernel else space
  }

  /** What table `t` of role `r` may hold at index `i`. */
  ghost predicate EntryOk(owner: map<nat, Role>, kernel: nat, r: Role, e: Pte, i: nat) {
    e.Fits() &&
    (|r.path| < 3 && e.Present() ==>
       && !e.Huge() && e.high == 0
       && e.frame in owner && owner[e.frame] == Role(SpaceOf(kernel, r.space, r.path + [i]), r.path + [i]))
  }

  /** Every table frame has one owner and one place; all tables hang together. */
  ghost predicate Tree(mem: Memory, owner: map<nat, Role>, kernel: nat) {
    && kernel in owner && owner[kernel] == Role(kernel, [])
    && (forall t :: t in owner ==> t < |mem| && t < FRAMES && |owner[t].path| <= 3 && IsSpace(owner, owner[t].space))
    && (forall t :: t in owner ==> Reach(mem, owner[t].space, owner[t].path) == Some(t))
    && (forall t :: t in owner ==> owner[t].path != [] && owner[t].path[0] >= 256 ==> owner[t].space == kernel)
    && (forall t, i :: t in owner && 0 <= i < ENTRIES ==> EntryOk(owner, kernel, owner[t], mem[t][i], i))
  }

  /** `root` is the top table of an address space. */
  ghost predicate IsSpace(owner: map<nat, Role>, root: nat) {
    root in owner && owner[root] == Role(root, [])
  }

  lemma RoleAt(mem: Memory, owner: map<nat, Role>, kernel: nat, t: nat, i: nat)
    requires Tree(mem, owner, kernel) && t in owner && i < ENTRIES
    ensures t < |mem| && EntryOk(owner, kernel, owner[t], mem[t][i], i)
  {
  }

  /** A walk ends at the table whose role is that walk. */
  lemma {:induction false} ReachRole(mem: Memory, owner: map<nat, Role>, kernel: nat, root: nat, path: Path)
    requires Tree(mem, owner, kernel) && IsSpace(owner, root) && |path| <= 3
    ensures var t := Reach(mem, root, path);
            t.Some? ==> t.value in owner && owner[t.value] == Role(SpaceOf(kernel, root, path), path)
  {
    hide Tree, EntryOk;
    if path != [] {
      var front, i := path[..|path| - 1], path[|path| - 1];
      ReachRole(mem, owner, kernel, root, front);
      match Reach(mem, root, front)
      case None =>
      case Some(t) =>
        if i < ENTRIES && t < |mem| && mem[t][i].Present() {
          RoleAt(mem, owner, kernel, t, i);
          ChildRole(mem, owner, kernel, root, path, t, i);
        }
    }
  }

  lemma ChildRole(mem: Memory, owner: map<nat, Role>, kernel: nat, root: nat, path: Path, t: nat, i: nat)
    requires path != [] && |path| <= 3 && t < |mem| && i < ENTRIES && i == path[|path| - 1]
    requires EntryOk(owner, kernel, Role(SpaceOf(kernel, root, path[..|path| - 1]), path[..|path| - 1]), mem[t][i], i)
    requires mem[t][i].Present()
    ensures mem[t][i].frame in owner && owner[mem[t][i].frame] == Role(SpaceOf(kernel, root, path), path)
  {
    assert path[..|path| - 1] + [i] == path;
  }

  // ---- writes ----------------------------------------------------------------

  function Write(mem: Memory, t: nat, i: nat, e: Pte): Memory
    requires t < |mem| && i < ENTRIES
  {
    mem[t := mem[t][i := e]]
  }

  /** Every space of `owner` translates every page the same in both memories. */
  ghost predicate SameViews(mem: Memory, mem': Memory, owner: map<nat, Role>) {
    forall root, q :: IsSpace(owner, root) && IsPage(q) ==> Leaf(mem', root, q) == Leaf(mem, root, q)
  }

  /** Every walk from a top table of `owner` that got to a table still gets to it. */
  ghost predicate ReachKept(mem: Memory, mem': Memory, owner: map<nat, Role>) {
    forall root, path: Path :: IsSpace(owner, root) && |path| <= 3 && Reach(mem, root, path).Some? ==>
      Reach(mem', root, path) == Reach(mem, root, path)
  }

  lemma ReachKeptTwice(mem: Memory, mem1: Memory, mem2: Memory, owner: map<nat, Role>, owner': map<nat, Role>)
    requires ReachKept(mem, mem1, owner) && ReachKept(mem1, mem2, owner')
    requires forall t :: t in owner ==> t in owner' && owner'[t] == owner[t]
    ensures ReachKept(mem, mem2, owner)
  {
    hide Reach;
  }

  lemma ReachKeptSelf(mem: Memory, owner: map<nat, Role>)
    ensures ReachKept(mem, mem, owner)
  {
  }

  lemma SameViewsTwice(mem: Memory, mem1: Memory, mem2: Memory, owner: map<nat, Role>, owner': map<nat, Role>)
    requires SameViews(mem, mem1, owner) && SameViews(mem1, mem2, owner')
    requires forall t :: t in owner ==> t in owner' && owner'[t] == owner[t]
    ensures SameViews(mem, mem2, owner)
  {
    hide Leaf;
  }

  // Writing a frame that is no table.

  lemma {:induction false} OutsideReach(mem: Memory, mem': Memory, owner: map<nat, Role>, kernel: nat, root: nat, path: Path)
    requires Tree(mem, owner, kernel) && IsSpace(owner, root) && |path| <= 3 && |mem'| == |mem|
    requires forall t :: t in owner && t < |mem| ==> mem'[t] == mem[t]
    ensures Reach(mem', root, path) == Reach(mem, root, path)
  {
    if path != [] {
      var front := path[..|path| - 1];
      OutsideReach(mem, mem', owner, kernel, root, front);
      ReachRole(mem, owner, kernel, root, front);
    }
  }

  lemma Outside(mem: Memory, mem': Memory, owner: map<nat, Role>, kernel: nat)
    requires Tree(mem, owner, kernel) && |mem'| == |mem| && forall t :: t in owner && t < |mem| ==> mem'[t] == mem[t]
    ensures Tree(mem', owner, kernel) && SameViews(mem, mem', owner) && ReachKept(mem, mem', owner)
  {
    hide Reach, EntryOk;
    forall root, path: Path | IsSpace(owner, root) && |path| <= 3 ensures Reach(mem', root, path) == Reach(mem, root, path) {
      OutsideReach(mem, mem', owner, kernel, root, path);
    }
    forall t | t in owner ensures Reach(mem', owner[t].space, owner[t].path) == Some(t) {
      OutsideReach(mem, mem', owner, kernel, owner[t].space, owner[t].path);
    }
    forall t, i | t in owner && 0 <= i < ENTRIES ensures EntryOk(owner, kernel, owner[t], mem'[t][i], i) {
      RoleAt(mem, owner, kernel, t, i);
    }
    forall root, q | IsSpace(owner, root) && IsPage(q) ensures Leaf(mem', root, q) == Leaf(mem, root, q) {
      OutsideReach(mem, mem', owner, kernel, root, q[..3]);
      ReachRole(mem, owner, kernel, root, q[..3]);
    }
  }

  // Setting VMM_USER in an entry.

  lemma {:induction false} UserReach(mem: Memory, t: nat, i: nat, root: nat, path: Path)
    requires t < |mem| && i < ENTRIES && mem[t][i].Fits()
    ensures Reach(Write(mem, t, i, WithUser(mem[t][i])), root, path) == Reach(mem, root, path)
  {
    hide WithUser;
    WithUserIs(mem[t][i]);
    if path != [] {
      UserReach(mem, t, i, root, path[..|path| - 1]);
    }
  }

  lemma UserSet(mem: Memory, owner: map<nat, Role>, kernel: nat, t: nat, i: nat)
    requires Tree(mem, owner, kernel) && t in owner && i < ENTRIES && |owner[t].path| < 3
    ensures t < |mem| && Tree(Write(mem, t, i, WithUser(mem[t][i])), owner, kernel)
    ensures SameViews(mem, Write(mem, t, i, WithUser(mem[t][i])), owner) && ReachKept(mem, Write(mem, t, i, WithUser(mem[t][i])), owner)
  {
    hide Reach, EntryOk, WithUser;
    forall root, path: Path | IsSpace(owner, root) && |path| <= 3
      ensures Reach(Write(mem, t, i, WithUser(mem[t][i])), root, path) == Reach(mem, root, path)
    {
      UserKeeps(mem, owner, kernel, t, i, root, path);
    }
    RoleAt(mem, owner, kernel, t, i);
    UserEntry(owner, kernel, owner[t], mem[t][i], i);
    var mem' := Write(mem, t, i, WithUser(mem[t][i]));
    forall x | x in owner ensures Reach(mem', owner[x].space, owner[x].path) == Some(x) {
      UserReach(mem, t, i, owner[x].space, owner[x].path);
    }
    forall x, j | x in owner && 0 <= j < ENTRIES ensures EntryOk(owner, kernel, owner[x], mem'[x][j], j) {
      RoleAt(mem, owner, kernel, x, j);
    }
    forall root, q | IsSpace(owner, root) && IsPage(q) ensures Leaf(mem', root, q) == Leaf(mem, root, q) {
      UserReach(mem, t, i, root, q[..3]);
      ReachRole(mem, owner, kernel, root, q[..3]);
    }
  }

  lemma UserKeeps(mem: Memory, owner: map<nat, Role>, kernel: nat, t: nat, i: nat, root: nat, path: Path)
    requires Tree(mem, owner, kernel) && t in owner && i < ENTRIES && t < |mem|
    ensures Reach(Write(mem, t, i, WithUser(mem[t][i])), root, path) == Reach(mem, root, path)
  {
    hide Reach, WithUser;
    RoleAt(mem, owner, kernel, t, i);
    UserReach(mem, t, i, root, path);
  }

  lemma UserEntry(owner: map<nat, Role>, kernel: nat, r: Role, e: Pte, i: nat)
    requires EntryOk(owner, kernel, r, e, i)
    ensures e.Fits() && EntryOk(owner, kernel, r, WithUser(e), i)
  {
    hide WithUser;
    WithUserIs(e);
  }

  // Hanging an empty table into a free entry.

  lemma {:induction false} LinkReach(mem: Memory, owner: map<nat, Role>, kernel: nat, t: nat, i: nat, e: Pte, root: nat, path: Path)
    requires Tree(mem, owner, kernel) && t in owner && t < |mem| && i < ENTRIES && !mem[t][i].Present()
    requires e.frame < |mem| && e.frame !in owner && mem[e.frame] == NoEntries()
    requires IsSpace(owner, root) && |path| <= 3
    ensures var was, now := Reach(mem, root, path), Reach(Write(mem, t, i, e), root, path);
            if was.Some? then now == was else now == None || now == Some(e.frame)
  {
    hide Tree;
    if path != [] {
      var front := path[..|path| - 1];
      LinkReach(mem, owner, kernel, t, i, e, root, front);
      ReachRole(mem, owner, kernel, root, front);
    }
  }

  /** The role of the table hung into entry `i` of table `t`. */
  function Below(r: Role, i: nat): Role { Role(r.space, r.path + [i]) }

  lemma Linked(mem: Memory, owner: map<nat, Role>, kernel: nat, t: nat, i: nat, e: Pte)
    requires Tree(mem, owner, kernel) && t in owner && t < |mem| && i < ENTRIES && !mem[t][i].Present() && |owner[t].path| < 3
    requires e.frame < |mem| && e.frame !in owner && mem[e.frame] == NoEntries()
    requires e.Fits() && e.Present() && !e.Huge() && e.high == 0
    requires SpaceOf(kernel, owner[t].space, owner[t].path + [i]) == owner[t].space
    ensures Tree(Write(mem, t, i, e), owner[e.frame := Below(owner[t], i)], kernel)
    ensures SameViews(mem, Write(mem, t, i, e), owner) && ReachKept(mem, Write(mem, t, i, e), owner)
  {
    hide Reach, EntryOk;
    forall root, path: Path | IsSpace(owner, root) && |path| <= 3 && Reach(mem, root, path).Some?
      ensures Reach(Write(mem, t, i, e), root, path) == Reach(mem, root, path)
    {
      LinkReach(mem, owner, kernel, t, i, e, root, path);
    }
    var mem', f := Write(mem, t, i, e), e.frame;
    var owner' := owner[f := Below(owner[t], i)];
    forall x | x in owner' ensures Reach(mem', owner'[x].space, owner'[x].path) == Some(x) {
      if x == f {
        LinkReach(mem, owner, kernel, t, i, e, owner[t].space, owner[t].path);
        ReachSnoc(mem', owner[t].space, owner[t].path, i);
      } else {
        LinkReach(mem, owner, kernel, t, i, e, owner[x].space, owner[x].path);
      }
    }
    forall x, j | x in owner' && 0 <= j < ENTRIES ensures EntryOk(owner', kernel, owner'[x], mem'[x][j], j) {
      if x == f {
        EmptyEntry(owner', kernel, owner'[f], j);
      } else {
        RoleAt(mem, owner, kernel, x, j);
        LinkEntry(owner, owner', kernel, owner[x], mem[x][j], j, f);
        NewEntryOk(owner', kernel, owner[t], e, i);
      }
    }
    forall root, q | IsSpace(owner, root) && IsPage(q) ensures Leaf(mem', root, q) == Leaf(mem, root, q) {
      LinkReach(mem, owner, kernel, t, i, e, root, q[..3]);
      ReachRole(mem, owner, kernel, root, q[..3]);
    }
  }

  lemma ReachSnoc(mem: Memory, root: nat, path: Path, i: nat)
    ensures Reach(mem, root, path + [i])
         == match Reach(mem, root, path)
            case None => None
            case Some(t) => if t < |mem| && i < ENTRIES && mem[t][i].Present() then Some(mem[t][i].frame) else None
  {
    assert (path + [i])[..|path|] == path;
  }

  lemma EmptyEntry(owner: map<nat, Role>, kernel: nat, r: Role, j: nat)
    requires j < ENTRIES
    ensures EntryOk(owner, kernel, r, NoEntries()[j], j)
  {
  }

  lemma LinkEntry(owner: map<nat, Role>, owner': map<nat, Role>, kernel: nat, r: Role, e: Pte, j: nat, f: nat)
    requires EntryOk(owner, kernel, r, e, j) && f !in owner && f in owner' && owner' == owner[f := owner'[f]]
    ensures EntryOk(owner', kernel, r, e, j)
  {
  }

  lemma NewEntryOk(owner: map<nat, Role>, kernel: nat, r: Role, e: Pte, i: nat)
    requires e.Fits() && !e.Huge() && e.high == 0 && e.frame in owner && owner[e.frame] == Below(r, i)
    requires SpaceOf(kernel, r.space, r.path + [i]) == r.space
    ensures EntryOk(owner, kernel, r, e, i)
  {
  }

  // Writing a leaf entry.

  lemma {:induction false} LeafReach(mem: Memory, owner: map<nat, Role>, kernel: nat, t: nat, d: nat, e: Pte, root: nat, path: Path)
    requires Tree(mem, owner, kernel) && t in owner && t < |mem| && d < ENTRIES && |owner[t].path| == 3
    requires IsSpace(owner, root) && |path| <= 3
    ensures Reach(Write(mem, t, d, e), root, path) == Reach(mem, root, path)
  {
    hide Tree;
    if path != [] {
      var front := path[..|path| - 1];
      LeafReach(mem, owner, kernel, t, d, e, root, front);
      ReachRole(mem, owner, kernel, root, front);
    }
  }

  /** Page `q` of space `root` is translated by entry `d` of table `t`. */
  predicate UsesEntry(mem: Memory, root: nat, q: Path, t: nat, d: nat)
    requires IsPage(q)
  {
    Reach(mem, root, q[..3]) == Some(t) && q[3] == d
  }

  lemma LeafWritten(mem: Memory, owner: map<nat, Role>, kernel: nat, t: nat, d: nat, e: Pte)
    requires Tree(mem, owner, kernel) && t in owner && t < |mem| && d < ENTRIES && |owner[t].path| == 3 && e.Fits()
    ensures Tree(Write(mem, t, d, e), owner, kernel)
    ensures forall root, q :: IsSpace(owner, root) && IsPage(q) ==>
              Leaf(Write(mem, t, d, e), root, q) ==
              if UsesEntry(mem, root, q, t, d) then (if e.Present() then Some(e) else None) else Leaf(mem, root, q)
    ensures ReachKept(mem, Write(mem, t, d, e), owner)
  {
    hide Reach, EntryOk;
    var mem' := Write(mem, t, d, e);
    forall root, path: Path | IsSpace(owner, root) && |path| <= 3 ensures Reach(mem', root, path) == Reach(mem, root, path) {
      LeafReach(mem, owner, kernel, t, d, e, root, path);
    }
    forall x | x in owner ensures Reach(mem', owner[x].space, owner[x].path) == Some(x) {
      LeafReach(mem, owner, kernel, t, d, e, owner[x].space, owner[x].path);
    }
    forall x, j | x in owner && 0 <= j < ENTRIES ensures EntryOk(owner, kernel, owner[x], mem'[x][j], j) {
      RoleAt(mem, owner, kernel, x, j);
      LeafEntryOk(owner, kernel, owner[t], e, d);
    }
    forall root, q | IsSpace(owner, root) && IsPage(q)
      ensures Leaf(mem', root, q) ==
              if UsesEntry(mem, root, q, t, d) then (if e.Present() then Some(e) else None) else Leaf(mem, root, q)
    {
      LeafReach(mem, owner, kernel, t, d, e, root, q[..3]);
      ReachRole(mem, owner, kernel, root, q[..3]);
    }
  }

  lemma LeafEntryOk(owner: map<nat, Role>, kernel: nat, r: Role, e: Pte, d: nat)
    requires |r.path| == 3 && e.Fits()
    ensures EntryOk(owner, kernel, r, e, d)
  {
  }

  /** Below slot 256 a table serves one page of one space only. */
  lemma PrivateEntry(mem: Memory, owner: map<nat, Role>, kernel: nat, root: nat, q: Path, root': nat, q': Path, t: nat, d: nat)
    requires Tree(mem, owner, kernel) && IsSpace(owner, root) && IsSpace(owner, root') && IsPage(q) && IsPage(q')
    requires UsesEntry(mem, root, q, t, d) && UsesEntry(mem, root', q', t, d)
    ensures q' == q && (q[0] < 256 ==> root' == root)
  {
    hide Tree;
    ReachRole(mem, owner, kernel, root, q[..3]);
    ReachRole(mem, owner, kernel, root', q'[..3]);
    assert q[..3] == q'[..3];
    assert forall k :: 0 <= k < 3 ==> q[k] == q[..3][k] && q'[k] == q'[..3][k];
  }

  /** In the kernel half, a space that shares the slot walks to the kernel's own tables. */
  lemma {:induction false} SharedReach(mem: Memory, owner: map<nat, Role>, kernel: nat, root: nat, path: Path)
    requires Tree(mem, owner, kernel) && IsSpace(owner, root) && 1 <= |path| <= 3 && 256 <= path[0] < ENTRIES
    requires Reach(mem, root, path[..1]).Some?
    ensures Reach(mem, root, path) == Reach(mem, kernel, path)
  {
    hide Tree;
    if |path| == 1 {
      assert path[..1] == path;
      ReachRole(mem, owner, kernel, root, path);
      OwnedReach(mem, owner, kernel, Reach(mem, root, path).value);
    } else {
      var front := path[..|path| - 1];
      assert front[..1] == path[..1];
      SharedReach(mem, owner, kernel, root, front);
    }
  }

  lemma OwnedReach(mem: Memory, owner: map<nat, Role>, kernel: nat, t: nat)
    requires Tree(mem, owner, kernel) && t in owner
    ensures Reach(mem, owner[t].space, owner[t].path) == Some(t)
  {
  }

  /** A kernel mapping under a slot the space has is seen there as the kernel sees it. */
  lemma KernelSeenEverywhere(mem: Memory, owner: map<nat, Role>, kernel: nat, root: nat, q: Path)
    requires Tree(mem, owner, kernel) && IsSpace(owner, root) && IsPage(q) && 256 <= q[0]
    requires Reach(mem, root, q[..1]).Some?
    ensures Leaf(mem, root, q) == Leaf(mem, kernel, q)
  {
    hide Tree, Reach;
    assert q[..3][..1] == q[..1];
    SharedReach(mem, owner, kernel, root, q[..3]);
  }

  // ---- the ways of user code -------------------------------------------------

  /** User code gets to the table at the end of `path`: every entry on the way lets it pass. */
  predicate UserWay(mem: Memory, root: nat, path: Path) {
    path == []
    || (var front, i := path[..|path| - 1], path[|path| - 1];
        UserWay(mem, root, front)
        && match Reach(mem, root, front)
           case None => false
           case Some(t) => t < |mem| && i < ENTRIES && mem[t][i].Present() && mem[t][i].User())
  }

  /** User code can use page `q`. */
  predicate UserWalk(mem: Memory, root: nat, q: Path)
    requires IsPage(q)
  {
    UserWay(mem, root, q[..3]) && Leaf(mem, root, q).Some? && Leaf(mem, root, q).value.User()
  }

  /** What leads somewhere leads there still, and is as open to user code as it was. */
  predicate EntryKept(e: Pte, e': Pte) {
    e.Present() ==> e'.Present() && e'.frame == e.frame && (e.User() ==> e'.User()) && e'.Writable() == e.Writable()
  }

  /** The entries that lead to tables are kept; without `user` none of them changes. */
  ghost predicate WaysKept(mem: Memory, mem': Memory, owner: map<nat, Role>, user: bool) {
    forall t, i :: t in owner && |owner[t].path| < 3 && t < |mem| && t < |mem'| && 0 <= i < ENTRIES ==>
      EntryKept(mem[t][i], mem'[t][i]) && (!user && mem[t][i].Present() ==> mem'[t][i] == mem[t][i])
  }

  /** Table `t` hangs on a writable entry, which is open to user code if and only if `user` is set. */
  ghost predicate HungAt(mem: Memory, owner: map<nat, Role>, t: nat, user: bool) {
    && t in owner && owner[t].path != []
    && exists p :: HungOn(mem, owner, t, p, user)
  }

  ghost predicate HungOn(mem: Memory, owner: map<nat, Role>, t: nat, p: nat, user: bool)
    requires t in owner && owner[t].path != []
  {
    var front, i := owner[t].path[..|owner[t].path| - 1], owner[t].path[|owner[t].path| - 1];
    && p in owner && p < |mem| && i < ENTRIES && |owner[p].path| < 3 && owner[p] == Role(owner[t].space, front)
    && mem[p][i].Present() && mem[p][i].frame == t && mem[p][i].Writable() && (mem[p][i].User() <==> user)
  }

  /** From `mem` to `mem'` ways are kept, and every new table below a top table hangs as `user` says. */
  ghost predicate Ways(mem: Memory, mem': Memory, owner: map<nat, Role>, owner': map<nat, Role>, user: bool) {
    && |mem'| == |mem| && WaysKept(mem, mem', owner, user)
    && forall t :: t in owner' && t !in owner && owner'[t].path != [] ==> HungAt(mem', owner', t, user)
  }

  lemma WaysSelf(mem: Memory, owner: map<nat, Role>, user: bool)
    ensures Ways(mem, mem, owner, owner, user)
  {
  }

  lemma WaysTwice(m: Memory, m1: Memory, m2: Memory, o: map<nat, Role>, o1: map<nat, Role>, o2: map<nat, Role>, user: bool)
    requires Ways(m, m1, o, o1, user) && Ways(m1, m2, o1, o2, user)
    requires forall t :: t in o ==> t in o1 && o1[t] == o[t]
    requires forall t :: t in o1 ==> t in o2 && o2[t] == o1[t]
    ensures Ways(m, m2, o, o2, user)
  {
    hide EntryKept;
    forall t, i | t in o && |o[t].path| < 3 && t < |m| && 0 <= i < ENTRIES
      ensures EntryKept(m[t][i], m2[t][i]) && (!user && m[t][i].Present() ==> m2[t][i] == m[t][i])
    {
      assert EntryKept(m[t][i], m1[t][i]) && EntryKept(m1[t][i], m2[t][i]);
      KeptTwice(m[t][i], m1[t][i], m2[t][i]);
    }
    forall t | t in o2 && t !in o && o2[t].path != [] ensures HungAt(m2, o2, t, user) {
      if t in o1 {
        var p :| HungOn(m1, o1, t, p, user);
        HungStays(m1, m2, o1, o2, t, p, user);
      }
    }
  }

  /** Ways are kept whichever kind of mapping was made. */
  lemma WaysStay(m: Memory, m': Memory, o: map<nat, Role>, o': map<nat, Role>, user: bool)
    requires Ways(m, m', o, o', user)
    ensures WaysStand(m, m', o)
  {
    hide EntryKept;
  }

  /** Same size, and every way kept. */
  ghost predicate WaysStand(m: Memory, m': Memory, o: map<nat, Role>) { |m'| == |m| && WaysKept(m, m', o, true) }

  lemma KeptTwice(e: Pte, e1: Pte, e2: Pte)
    requires EntryKept(e, e1) && EntryKept(e1, e2)
    ensures EntryKept(e, e2) && (e.Present() ==> e1.Present())
  {
  }

  lemma HungStays(m1: Memory, m2: Memory, o1: map<nat, Role>, o2: map<nat, Role>, t: nat, p: nat, user: bool)
    requires t in o1 && o1[t].path != [] && HungOn(m1, o1, t, p, user) && |m2| == |m1| && WaysKept(m1, m2, o1, user)
    requires forall x :: x in o1 ==> x in o2 && o2[x] == o1[x]
    ensures HungAt(m2, o2, t, user)
  {
    var i := o1[t].path[|o1[t].path| - 1];
    assert EntryKept(m1[p][i], m2[p][i]);
    assert HungOn(m2, o2, t, p, user);
  }

  /** User code gets where it got. */
  lemma {:induction false} WayKept(mem: Memory, mem': Memory, owner: map<nat, Role>, kernel: nat, user: bool, root: nat, path: Path)
    requires Tree(mem, owner, kernel) && IsSpace(owner, root) && |path| <= 3 && |mem'| == |mem| && WaysKept(mem, mem', owner, user)
    requires Reach(mem, root, path).Some?
    ensures Reach(mem', root, path) == Reach(mem, root, path) && (UserWay(mem, root, path) ==> UserWay(mem', root, path))
  {
    hide Tree, EntryKept, WaysKept;
    if path != [] {
      var front, i := path[..|path| - 1], path[|path| - 1];
      WayKept(mem, mem', owner, kernel, user, root, front);
      ReachRole(mem, owner, kernel, root, front);
      KeptAt(mem, mem', owner, user, Reach(mem, root, front).value, i);
    }
  }

  lemma KeptAt(mem: Memory, mem': Memory, owner: map<nat, Role>, user: bool, t: nat, i: nat)
    requires WaysKept(mem, mem', owner, user) && t in owner && |owner[t].path| < 3 && t < |mem| == |mem'| && i < ENTRIES
    ensures mem[t][i].Present() ==> mem'[t][i].Present() && mem'[t][i].frame == mem[t][i].frame && (mem[t][i].User() ==> mem'[t][i].User())
  {
    assert EntryKept(mem[t][i], mem'[t][i]);
  }

  /** A page user code can use stays so while its own entry stays. */
  lemma UserWalkKept(mem: Memory, mem': Memory, owner: map<nat, Role>, kernel: nat, user: bool, root: nat, q: Path)
    requires Tree(mem, owner, kernel) && IsSpace(owner, root) && IsPage(q) && |mem'| == |mem| && WaysKept(mem, mem', owner, user)
    requires UserWalk(mem, root, q) && Leaf(mem', root, q) == Leaf(mem, root, q)
    ensures UserWalk(mem', root, q)
  {
    hide Tree, WaysKept, UserWay, Reach;
    WayKept(mem, mem', owner, kernel, user, root, q[..3]);
  }

  lemma UserStep(mem: Memory, root: nat, path: Path, i: nat, t: nat)
    requires Reach(mem, root, path) == Some(t) && t < |mem| && i < ENTRIES && mem[t][i].Present()
    ensures UserWay(mem, root, path + [i]) <==> UserWay(mem, root, path) && mem[t][i].User()
  {
    assert (path + [i])[..|path|] == path;
  }

  /** Setting VMM_USER in one entry. */
  lemma UserOpens(mem: Memory, owner: map<nat, Role>, t: nat, i: nat)
    requires t < |mem| && i < ENTRIES && mem[t][i].Fits()
    ensures Ways(mem, Write(mem, t, i, WithUser(mem[t][i])), owner, owner, true)
  {
    hide WithUser;
    WithUserIs(mem[t][i]);
  }

  /** Hanging a new table into a free entry. */
  lemma HangOpens(mem: Memory, owner: map<nat, Role>, t: nat, i: nat, e: Pte, user: bool)
    requires t in owner && t < |mem| && i < ENTRIES && |owner[t].path| < 3 && !mem[t][i].Present()
    requires e.frame < |mem| && e.frame !in owner && e.Present() && e.Writable() && (e.User() <==> user)
    ensures Ways(mem, Write(mem[e.frame := NoEntries()], t, i, e), owner, owner[e.frame := Below(owner[t], i)], user)
  {
    var mem', owner' := Write(mem[e.frame := NoEntries()], t, i, e), owner[e.frame := Below(owner[t], i)];
    var path := owner[t].path + [i];
    assert path[..|path| - 1] == owner[t].path;
    assert HungOn(mem', owner', e.frame, t, user);
  }

  /** Writing an entry of a last-level table. */
  lemma LeafOpens(mem: Memory, owner: map<nat, Role>, t: nat, d: nat, e: Pte, user: bool)
    requires t in owner && t < |mem| && d < ENTRIES && |owner[t].path| == 3
    ensures Ways(mem, Write(mem, t, d, e), owner, owner, user)
  {
  }

  // Opening and dropping an address space.

  /** The top table of a new space: the kernel half of the kernel's. */
  function NewTop(mem: Memory, kernel: nat): Table
    requires kernel < |mem|
  {
    seq(ENTRIES, i requires 0 <= i < ENTRIES => if i >= 256 then mem[kernel][i] else EMPTY)
  }

  lemma SpaceOpened(mem: Memory, owner: map<nat, Role>, kernel: nat, root: nat)
    requires Tree(mem, owner, kernel) && root < |mem| && root < FRAMES && root !in owner
    ensures kernel < |mem|
    ensures var mem', owner' := mem[root := NewTop(mem, kernel)], owner[root := Role(root, [])];
            Tree(mem', owner', kernel) && IsSpace(owner', root) && SameViews(mem, mem', owner) && ReachKept(mem, mem', owner)
    ensures var mem' := mem[root := NewTop(mem, kernel)];
            && (forall q :: IsPage(q) ==> Leaf(mem', root, q) == if q[0] < 256 then None else Leaf(mem, kernel, q))
            && (forall i: nat :: 256 <= i < ENTRIES ==> Reach(mem', root, [i]) == Reach(mem', kernel, [i]))
  {
    hide Reach, EntryOk;
    RoleAt(mem, owner, kernel, kernel, 0);
    var mem', owner' := mem[root := NewTop(mem, kernel)], owner[root := Role(root, [])];
    Outside(mem, mem', owner, kernel);
    EmptyReach(mem', root);
    forall x, j | x in owner' && 0 <= j < ENTRIES ensures EntryOk(owner', kernel, owner'[x], mem'[x][j], j) {
      if x == root {
        RoleAt(mem, owner, kernel, kernel, j);
        NewTopEntry(mem, owner, owner', kernel, root, j);
      } else {
        RoleAt(mem', owner, kernel, x, j);
        LinkEntry(owner, owner', kernel, owner[x], mem'[x][j], j, root);
      }
    }
    forall i: nat | 256 <= i < ENTRIES ensures Reach(mem', root, [i]) == Reach(mem', kernel, [i]) {
      NewTopReach(mem, owner, kernel, root, [i]);
      OutsideReach(mem, mem', owner, kernel, kernel, [i]);
    }
    forall q | IsPage(q) ensures Leaf(mem', root, q) == if q[0] < 256 then None else Leaf(mem, kernel, q) {
      NewTopView(mem, owner, kernel, root, q);
    }
  }

  lemma EmptyReach(mem: Memory, root: nat)
    ensures Reach(mem, root, []) == Some(root)
  {
  }

  lemma NewTopEntry(mem: Memory, owner: map<nat, Role>, owner': map<nat, Role>, kernel: nat, root: nat, j: nat)
    requires kernel < |mem| && j < ENTRIES && EntryOk(owner, kernel, Role(kernel, []), mem[kernel][j], j)
    requires root !in owner && owner' == owner[root := Role(root, [])]
    ensures EntryOk(owner', kernel, Role(root, []), NewTop(mem, kernel)[j], j)
  {
    assert [] + [j] == [j];
  }

  lemma NewTopView(mem: Memory, owner: map<nat, Role>, kernel: nat, root: nat, q: Path)
    requires Tree(mem, owner, kernel) && root < |mem| && root !in owner && IsPage(q) && kernel < |mem|
    ensures Leaf(mem[root := NewTop(mem, kernel)], root, q) == if q[0] < 256 then None else Leaf(mem, kernel, q)
  {
    hide Reach;
    var mem' := mem[root := NewTop(mem, kernel)];
    NewTopReach(mem, owner, kernel, root, q[..3]);
    if q[0] >= 256 {
      ReachRole(mem, owner, kernel, kernel, q[..3]);
    }
  }

  lemma {:induction false} NewTopReach(mem: Memory, owner: map<nat, Role>, kernel: nat, root: nat, path: Path)
    requires Tree(mem, owner, kernel) && root < |mem| && root !in owner && kernel < |mem| && kernel in owner && IsSpace(owner, kernel)
    requires 1 <= |path| <= 3 && path[0] < ENTRIES
    ensures Reach(mem[root := NewTop(mem, kernel)], root, path) == if path[0] < 256 then None else Reach(mem, kernel, path)
  {
    hide Tree;
    var mem' := mem[root := NewTop(mem, kernel)];
    var front := path[..|path| - 1];
    if |path| == 1 {
      assert front == [];
    } else {
      NewTopReach(mem, owner, kernel, root, front);
      ReachRole(mem, owner, kernel, kernel, front);
    }
  }

  /** The owners left when a space other than the kernel's is gone. */
  function Dropped(owner: map<nat, Role>, root: nat): map<nat, Role> {
    map t | t in owner && owner[t].space != root :: owner[t]
  }

  lemma SpaceDropped(mem: Memory, owner: map<nat, Role>, kernel: nat, root: nat)
    requires Tree(mem, owner, kernel) && root != kernel
    ensures Tree(mem, Dropped(owner, root), kernel)
  {
    hide Reach, EntryOk;
    var owner' := Dropped(owner, root);
    forall x, j | x in owner' && 0 <= j < ENTRIES ensures EntryOk(owner', kernel, owner'[x], mem[x][j], j) {
      RoleAt(mem, owner, kernel, x, j);
      DroppedEntry(owner, kernel, root, owner[x], mem[x][j], j);
    }
  }

  lemma DroppedEntry(owner: map<nat, Role>, kernel: nat, root: nat, r: Role, e: Pte, j: nat)
    requires EntryOk(owner, kernel, r, e, j) && r.space != root && root != kernel
    ensures EntryOk(Dropped(owner, root), kernel, r, e, j)
  {
  }
}
