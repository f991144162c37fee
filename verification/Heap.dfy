/** The kernel heap: first fit with splitting, coalescing and growth over a doubly linked
    list of address ranges. */
module Heap {
  import opened Basics

  const MAGIC: nat := 0x48454150
  const HEADER: nat := 40                       // sizeof(HeapBlock)
  const MIN_BLOCK: nat := 16
  const PAGE: nat := 4096
  const WORD: nat := 0x1_0000_0000_0000_0000    // one past the largest u64

  // ---- the heap as a list of chunks ------------------------------------------

  /** A block: header at `addr`, then `size` bytes of payload. */
  datatype Chunk = Chunk(addr: nat, size: nat, free: bool)
  {
    function Payload(): nat { addr + HEADER }
    function End(): nat { addr + HEADER + size }
  }

  predicate Apart(a: Chunk, b: Chunk) { a.End() <= b.addr || b.End() <= a.addr }

  /** Blocks inside the address space, pairwise disjoint. */
  ghost predicate Laid(blocks: seq<Chunk>) {
    && (forall i :: 0 <= i < |blocks| ==> PAGE <= blocks[i].addr && blocks[i].End() <= WORD)
    && forall i, j :: 0 <= i < j < |blocks| ==> Apart(blocks[i], blocks[j])
  }

  /** Header plus payload of all blocks. */
  function Total(blocks: seq<Chunk>): nat {
    if blocks == [] then 0 else Total(blocks[..|blocks| - 1]) + HEADER + blocks[|blocks| - 1].size
  }

  /** Payload of the live blocks. */
  function Used(blocks: seq<Chunk>): nat {
    if blocks == [] then 0
    else Used(blocks[..|blocks| - 1]) + if blocks[|blocks| - 1].free then 0 else blocks[|blocks| - 1].size
  }

  lemma {:induction false} SumsConcat(xs: seq<Chunk>, ys: seq<Chunk>)
    ensures Total(xs + ys) == Total(xs) + Total(ys) && Used(xs + ys) == Used(xs) + Used(ys)
  {
    if ys == [] {
      assert xs + ys == xs;
    } else {
      var front := ys[..|ys| - 1];
      SumsConcat(xs, front);
      assert (xs + ys)[..|xs + ys| - 1] == xs + front;
    }
  }

  lemma SumsOne(b: Chunk)
    ensures Total([b]) == HEADER + b.size && Used([b]) == if b.free then 0 else b.size
  {
    assert [b][..0] == [];
  }

  /** The sums around a stretch `ys` of the list. */
  lemma SumsAround(xs: seq<Chunk>, ys: seq<Chunk>, zs: seq<Chunk>)
    ensures Total(xs + ys + zs) == Total(xs) + Total(ys) + Total(zs)
    ensures Used(xs + ys + zs) == Used(xs) + Used(ys) + Used(zs)
  {
    SumsConcat(xs, ys);
    SumsConcat(xs + ys, zs);
  }

  /** A size rounded up to a multiple of 16, the sum in 64 bits. */
  function Rounded(size: nat): nat { (size + 15) % WORD / 16 * 16 }

  /** What KmAlloc rounds a request to: at least the request, unless the sum wraps to nothing. */
  lemma RoundedIs(size: nat)
    requires size < WORD
    ensures if size <= WORD - 16 then size <= Rounded(size) < size + 16 else Rounded(size) == 0
    ensures Rounded(size) % 16 == 0
  {
    if size <= WORD - 16 {
      assert (size + 15) % WORD == size + 15;
    } else {
      assert (size + 15) % WORD == size + 15 - WORD;
    }
  }

  predicate Fits(b: Chunk, size: nat) { b.free && b.size >= size }

  /** The first block that can take `size` bytes. */
  function FirstFit(blocks: seq<Chunk>, size: nat): (i: nat)
    ensures i <= |blocks| && (i < |blocks| ==> Fits(blocks[i], size))
    ensures forall j :: 0 <= j < i ==> !Fits(blocks[j], size)
  {
    if blocks == [] then 0 else if Fits(blocks[0], size) then 0 else 1 + FirstFit(blocks[1..], size)
  }

  /** Block `i` taken for `size` bytes; the rest split off when it can hold a block. */
  function Taken(blocks: seq<Chunk>, i: nat, size: nat): seq<Chunk>
    requires i < |blocks|
  {
    var b := blocks[i];
    blocks[..i]
    + (if b.size >= size + HEADER + MIN_BLOCK then
         [Chunk(b.addr, size, false), Chunk(b.addr + HEADER + size, b.size - size - HEADER, true)]
       else [b.(free := false)])
    + blocks[i + 1..]
  }

  /** The pages HeapExpand asks for, its sum in 64 bits. */
  function PagesFor(size: nat): nat { (size + HEADER + PAGE - 1) % WORD / PAGE }

  /** No fewer pages hold a header and `size` bytes, unless the sum wraps. */
  lemma PagesAreLeast(size: nat)
    requires size + HEADER + PAGE - 1 < WORD
    ensures (PagesFor(size) - 1) * PAGE < size + HEADER <= PagesFor(size) * PAGE
  {
    assert (size + HEADER + PAGE - 1) % WORD == size + HEADER + PAGE - 1;
  }

  function Extended(blocks: seq<Chunk>, base: nat, pages: nat): seq<Chunk>
    requires 1 <= pages
  {
    blocks + [Chunk(base, pages * PAGE - HEADER, true)]
  }

  /** Fresh pages: in the address space and clear of every block. */
  ghost predicate Fresh(blocks: seq<Chunk>, base: nat, pages: nat) {
    && PAGE <= base && base + pages * PAGE <= WORD
    && forall i :: 0 <= i < |blocks| ==> blocks[i].End() <= base || base + pages * PAGE <= blocks[i].addr
  }

  predicate Mergeable(a: Chunk, b: Chunk) { b.addr == a.End() }

  function Joined(a: Chunk, b: Chunk): Chunk { a.(size := a.size + HEADER + b.size) }

  /** Block `i` freed. */
  function Released(blocks: seq<Chunk>, i: nat): seq<Chunk>
    requires i < |blocks|
  {
    blocks[i := blocks[i].(free := true)]
  }

  /** The first half of HeapCoalesce: the next block, if free and adjacent, is swallowed. */
  function JoinNext(blocks: seq<Chunk>, i: nat): (bs: seq<Chunk>)
    requires i < |blocks|
    ensures i < |bs|
  {
    if i + 1 < |blocks| && blocks[i + 1].free && Mergeable(blocks[i], blocks[i + 1]) then
      blocks[..i] + [Joined(blocks[i], blocks[i + 1])] + blocks[i + 2..]
    else blocks
  }

  /** The second half: the block is swallowed by the previous one, if free and adjacent. */
  function JoinPrev(blocks: seq<Chunk>, i: nat): seq<Chunk>
    requires i < |blocks|
  {
    if i > 0 && blocks[i - 1].free && Mergeable(blocks[i - 1], blocks[i]) then
      blocks[..i - 1] + [Joined(blocks[i - 1], blocks[i])] + blocks[i + 1..]
    else blocks
  }

  function Coalesced(blocks: seq<Chunk>, i: nat): seq<Chunk>
    requires i < |blocks|
  {
    JoinPrev(JoinNext(blocks, i), i)
  }

  // ---- live blocks -----------------------------------------------------------

  ghost predicate IsLive(blocks: seq<Chunk>, b: Chunk) { b in blocks && !b.free }

  /** The live blocks of `after` are those of `before`, plus `more`, minus `less`. */
  ghost predicate LiveChange(before: seq<Chunk>, after: seq<Chunk>, more: set<Chunk>, less: set<Chunk>) {
    forall b: Chunk :: IsLive(after, b) <==> (IsLive(before, b) && b !in less) || b in more
  }

  /** Taking a block keeps the layout and adds exactly one live block, at the start of a
      free one and at least `size` bytes long. */
  lemma TakenOk(blocks: seq<Chunk>, i: nat, size: nat)
    requires Laid(blocks) && i < |blocks| && Fits(blocks[i], size)
    ensures var after := Taken(blocks, i, size);
            && Laid(after) && Total(after) == Total(blocks) && i < |after|
            && after[i].addr == blocks[i].addr && after[i].size >= size && !after[i].free
            && Used(after) == Used(blocks) + after[i].size
            && LiveChange(blocks, after, {after[i]}, {})
  {
    hide Total, Used;
    var b, after := blocks[i], Taken(blocks, i, size);
    var xs, zs := blocks[..i], blocks[i + 1..];
    assert blocks == xs + [b] + zs;
    SumsAround(xs, [b], zs);
    SumsOne(b);
    if b.size >= size + HEADER + MIN_BLOCK {
      var p, q := Chunk(b.addr, size, false), Chunk(b.addr + HEADER + size, b.size - size - HEADER, true);
      SumsAround(xs, [p, q], zs);
      SumsTwo(p, q);
    } else {
      SumsAround(xs, [b.(free := false)], zs);
      SumsOne(b.(free := false));
    }
    TakenLive(blocks, i, size);
    TakenLaid(blocks, i, size);
  }

  lemma SumsTwo(p: Chunk, q: Chunk)
    ensures Total([p, q]) == 2 * HEADER + p.size + q.size
    ensures Used([p, q]) == (if p.free then 0 else p.size) + if q.free then 0 else q.size
  {
    SumsOne(p);
    SumsOne(q);
    SumsConcat([p], [q]);
    assert [p] + [q] == [p, q];
  }

  lemma TakenLaid(blocks: seq<Chunk>, i: nat, size: nat)
    requires Laid(blocks) && i < |blocks| && Fits(blocks[i], size)
    ensures Laid(Taken(blocks, i, size))
  {
    var after := Taken(blocks, i, size);
    var k := |after| - |blocks|;
    forall j | 0 <= j < |after| ensures PAGE <= after[j].addr && after[j].End() <= WORD {
      if j > i + k { assert after[j] == blocks[j - k]; }
    }
    forall a, c | 0 <= a < c < |after| ensures Apart(after[a], after[c]) {
      if a > i + k { assert after[a] == blocks[a - k]; }
      if c > i + k { assert after[c] == blocks[c - k]; }
    }
  }

  lemma TakenLive(blocks: seq<Chunk>, i: nat, size: nat)
    requires i < |blocks| && Fits(blocks[i], size)
    ensures i < |Taken(blocks, i, size)| && LiveChange(blocks, Taken(blocks, i, size), {Taken(blocks, i, size)[i]}, {})
  {
    var after := Taken(blocks, i, size);
    assert blocks == blocks[..i] + [blocks[i]] + blocks[i + 1..];
  }

  lemma ExtendedOk(blocks: seq<Chunk>, base: nat, pages: nat)
    requires Laid(blocks) && 1 <= pages && Fresh(blocks, base, pages)
    ensures var after := Extended(blocks, base, pages);
            && Laid(after) && Total(after) == Total(blocks) + pages * PAGE && Used(after) == Used(blocks)
            && LiveChange(blocks, after, {}, {})
  {
    hide Total, Used;
    var n := Chunk(base, pages * PAGE - HEADER, true);
    SumsConcat(blocks, [n]);
    SumsOne(n);
  }

  lemma ReleasedOk(blocks: seq<Chunk>, i: nat)
    requires Laid(blocks) && i < |blocks| && !blocks[i].free
    ensures var after := Released(blocks, i);
            && Laid(after) && Total(after) == Total(blocks) && Used(after) + blocks[i].size == Used(blocks)
            && LiveChange(blocks, after, {}, {blocks[i]})
  {
    hide Total, Used, Laid, LiveChange;
    var b, after := blocks[i], Released(blocks, i);
    var xs, zs := blocks[..i], blocks[i + 1..];
    assert blocks == xs + [b] + zs && after == xs + [b.(free := true)] + zs;
    SumsAround(xs, [b], zs);
    SumsAround(xs, [b.(free := true)], zs);
    SumsOne(b);
    SumsOne(b.(free := true));
    ReleasedLaid(blocks, i);
    ReleasedLive(blocks, i);
  }

  lemma ReleasedLaid(blocks: seq<Chunk>, i: nat)
    requires Laid(blocks) && i < |blocks|
    ensures Laid(Released(blocks, i))
  {
    var after := Released(blocks, i);
    forall a, c | 0 <= a < c < |after| ensures Apart(after[a], after[c]) { assert Apart(blocks[a], blocks[c]); }
  }

  lemma ReleasedLive(blocks: seq<Chunk>, i: nat)
    requires Laid(blocks) && i < |blocks| && !blocks[i].free
    ensures LiveChange(blocks, Released(blocks, i), {}, {blocks[i]})
  {
    var b, after := blocks[i], Released(blocks, i);
    forall j | 0 <= j < |blocks| && j != i ensures blocks[j] != b {
      if j < i { assert Apart(blocks[j], blocks[i]); } else { assert Apart(blocks[i], blocks[j]); }
    }
    forall c: Chunk ensures IsLive(after, c) <==> IsLive(blocks, c) && c != b {
      if IsLive(blocks, c) && c != b {
        var j :| 0 <= j < |blocks| && blocks[j] == c;
        assert after[j] == c;
      }
    }
  }

  /** Joining two free neighbours. */
  lemma JoinOk(blocks: seq<Chunk>, i: nat)
    requires Laid(blocks) && i + 1 < |blocks| && blocks[i].free && blocks[i + 1].free && Mergeable(blocks[i], blocks[i + 1])
    ensures var after := blocks[..i] + [Joined(blocks[i], blocks[i + 1])] + blocks[i + 2..];
            && Laid(after) && Total(after) == Total(blocks) && Used(after) == Used(blocks)
            && LiveChange(blocks, after, {}, {})
  {
    hide Total, Used;
    var a, b := blocks[i], blocks[i + 1];
    var xs, zs := blocks[..i], blocks[i + 2..];
    assert blocks == xs + [a, b] + zs;
    SumsAround(xs, [a, b], zs);
    SumsAround(xs, [Joined(a, b)], zs);
    SumsTwo(a, b);
    SumsOne(Joined(a, b));
    JoinLaid(blocks, i);
  }

  lemma JoinLaid(blocks: seq<Chunk>, i: nat)
    requires Laid(blocks) && i + 1 < |blocks| && Mergeable(blocks[i], blocks[i + 1])
    ensures Laid(blocks[..i] + [Joined(blocks[i], blocks[i + 1])] + blocks[i + 2..])
  {
    var after := blocks[..i] + [Joined(blocks[i], blocks[i + 1])] + blocks[i + 2..];
    forall j | 0 <= j < |after| ensures PAGE <= after[j].addr && after[j].End() <= WORD {
      if j > i { assert after[j] == blocks[j + 1]; }
    }
    forall a, c | 0 <= a < c < |after| ensures Apart(after[a], after[c]) {
      if a > i { assert after[a] == blocks[a + 1]; }
      if c > i { assert after[c] == blocks[c + 1]; }
      if a == i { assert Apart(blocks[i], blocks[c + 1]) && Apart(blocks[i + 1], blocks[c + 1]); }
      if c == i { assert Apart(blocks[a], blocks[i]) && Apart(blocks[a], blocks[i + 1]); }
    }
  }

  /** Freeing and coalescing: exactly the freed block stops being live; nothing is lost. */
  lemma FreedOk(blocks: seq<Chunk>, i: nat)
    requires Laid(blocks) && i < |blocks| && !blocks[i].free
    ensures var after := Coalesced(Released(blocks, i), i);
            && Laid(after) && Total(after) == Total(blocks) && Used(after) + blocks[i].size == Used(blocks)
            && LiveChange(blocks, after, {}, {blocks[i]})
  {
    hide Total, Used, Laid;
    ReleasedOk(blocks, i);
    var b1 := Released(blocks, i);
    if JoinNext(b1, i) != b1 { JoinOk(b1, i); }
    var b2 := JoinNext(b1, i);
    if i > 0 && b2[i - 1].free && Mergeable(b2[i - 1], b2[i]) {
      JoinOk(b2, i - 1);
    }
  }

  // ---- what freeing and taking leave -------------------------------------------

  /** Two free neighbours on the list that lie side by side. */
  predicate Seam(blocks: seq<Chunk>, i: int) {
    0 <= i && i + 1 < |blocks| && blocks[i].free && blocks[i + 1].free && blocks[i + 1].addr == blocks[i].addr + HEADER + blocks[i].size
  }

  /** Block `i` was freed: in place of it, and of those of its two neighbours that were free and lay
      against it, there is one free block over all their bytes. */
  ghost predicate FreedInto(before: seq<Chunk>, after: seq<Chunk>, i: nat) {
    && i < |before|
    && (var freed := before[i := before[i].(free := true)];
        var a := if Seam(freed, i - 1) then i - 1 else i;
        var b := if Seam(freed, i) then i + 1 else i;
        var first, last := freed[a], freed[b];
        && |after| == |before| - (b - a) && after[..a] == before[..a] && after[a + 1..] == before[b + 1..]
        && after[a].free && after[a].addr == first.addr && after[a].End() == last.addr + HEADER + last.size)
  }

  lemma FreedIntoOne(blocks: seq<Chunk>, i: nat)
    requires i < |blocks|
    ensures FreedInto(blocks, Coalesced(Released(blocks, i), i), i)
  {
    var b1 := Released(blocks, i);
    var b2 := JoinNext(b1, i);
    var b3 := JoinPrev(b2, i);
    var a := if Seam(b1, i - 1) then i - 1 else i;
    var b := if Seam(b1, i) then i + 1 else i;
    assert b2[i + 1..] == blocks[b + 1..];
    assert b2[..i] == blocks[..i];
    assert b3[..a] == blocks[..a] && b3[a + 1..] == blocks[b + 1..];
  }

  /** No seam anywhere. */
  ghost predicate Seamless(blocks: seq<Chunk>) { forall i :: !Seam(blocks, i) }

  /** Freeing leaves no seam if there was none. */
  lemma FreedSeamless(before: seq<Chunk>, after: seq<Chunk>, i: nat)
    requires Seamless(before) && FreedInto(before, after, i)
    ensures Seamless(after)
  {
    var freed := before[i := before[i].(free := true)];
    var a := if Seam(freed, i - 1) then i - 1 else i;
    var b := if Seam(freed, i) then i + 1 else i;
    forall j ensures !Seam(after, j) {
      if 0 <= j && j + 1 < |after| {
        FreedAt(before, after, i, a, b, j);
        FreedAt(before, after, i, a, b, j + 1);
        assert !Seam(before, if j < a then j else j + (b - a));
        if j + 1 == a && a > 0 { assert !Seam(before, a - 1); }
        if j == a && b + 1 < |before| { assert !Seam(before, b); }
      }
    }
  }

  lemma FreedAt(before: seq<Chunk>, after: seq<Chunk>, i: nat, a: nat, b: nat, j: nat)
    requires a <= b < |before| && |after| == |before| - (b - a) && after[..a] == before[..a] && after[a + 1..] == before[b + 1..] && j < |after|
    ensures j < a ==> after[j] == before[j]
    ensures j > a ==> after[j] == before[j + (b - a)]
  {
    if j < a { assert after[j] == after[..a][j]; }
    if j > a { assert after[j] == after[a + 1..][j - a - 1]; }
  }

  /** What is taken from a free block starts where it did and is no larger than it has to be: what is
      over and can hold a block stays free behind it. */
  ghost predicate CutFrom(before: seq<Chunk>, after: seq<Chunk>, i: nat, size: nat) {
    && i < |before| && i < |after| && !after[i].free && after[i].addr == before[i].addr
    && size <= after[i].size < size + HEADER + MIN_BLOCK && after[..i] == before[..i]
    && if after[i].size == before[i].size then after[i + 1..] == before[i + 1..]
       else
         && i + 1 < |after| && after[i + 1].free && after[i + 1].addr == after[i].End() && after[i + 1].End() == before[i].End()
         && after[i].size == size && after[i + 2..] == before[i + 1..]
  }

  lemma TakenIsCut(blocks: seq<Chunk>, i: nat, size: nat)
    requires i < |blocks| && Fits(blocks[i], size)
    ensures var after := Taken(blocks, i, size);
            CutFrom(blocks, after, i, size) && i < |after| && size <= after[i].size < size + HEADER + MIN_BLOCK
  {
    var after := Taken(blocks, i, size);
    assert after[..i] == blocks[..i];
    if blocks[i].size >= size + HEADER + MIN_BLOCK {
      assert after[i + 2..] == blocks[i + 1..];
    } else {
      assert after[i + 1..] == blocks[i + 1..];
    }
  }

  /** Taking a free block leaves no seam if there was none. */
  lemma TakenSeamless(before: seq<Chunk>, after: seq<Chunk>, i: nat, size: nat)
    requires Seamless(before) && CutFrom(before, after, i, size) && before[i].free
    ensures Seamless(after)
  {
    forall j ensures !Seam(after, j) {
      if 0 <= j && j + 1 < |after| {
        var k := if after[i].size == before[i].size then 0 else 1;
        assert !Seam(before, if j <= i then j else j - k);
        if j < i { assert after[j] == after[..i][j]; }
        if j + 1 < i { assert after[j + 1] == after[..i][j + 1]; }
        if j > i + k { assert after[j] == after[i + 1 + k..][j - i - 1 - k]; }
        if j + 1 > i + k { assert after[j + 1] == after[i + 1 + k..][j - i - k]; }
      }
    }
  }

  /** Growing joins nothing: it leaves a seam exactly when the new pages lie against a free last block. */
  lemma ExtendedSeamless(blocks: seq<Chunk>, base: nat, pages: nat)
    requires Seamless(blocks) && 1 <= pages
    ensures Seamless(Extended(blocks, base, pages)) <==>
              !(blocks != [] && blocks[|blocks| - 1].free && base == blocks[|blocks| - 1].End())
  {
    var after := Extended(blocks, base, pages);
    if blocks != [] {
      assert Seam(after, |blocks| - 1) <==> blocks[|blocks| - 1].free && base == blocks[|blocks| - 1].End();
    }
    forall j | j != |blocks| - 1 ensures !Seam(after, j) { assert !Seam(blocks, j); }
  }

  // ---- the list in memory ----------------------------------------------------

  /** HeapBlock. */
  datatype Header = Header(magic: nat, size: nat, free: bool, next: nat, prev: nat)

  /** The address of block `i`; 0, the null pointer, beyond the list. */
  function AddrAt(blocks: seq<Chunk>, i: int): nat {
    if 0 <= i < |blocks| then blocks[i].addr else 0
  }

  function HeaderFor(blocks: seq<Chunk>, i: nat): Header
    requires i < |blocks|
  {
    Header(MAGIC, blocks[i].size, blocks[i].free, AddrAt(blocks, i + 1), AddrAt(blocks, i - 1))
  }

  /** The headers in memory spell the list `blocks`. */
  ghost predicate Spelled(mem: map<nat, Header>, head: nat, blocks: seq<Chunk>) {
    && head == AddrAt(blocks, 0)
    && forall i :: 0 <= i < |blocks| ==> blocks[i].addr in mem && mem[blocks[i].addr] == HeaderFor(blocks, i)
  }

  ghost predicate DistinctAddrs(blocks: seq<Chunk>) {
    forall i, j :: 0 <= i < j < |blocks| ==> blocks[i].addr != blocks[j].addr
  }

  lemma LaidDistinct(blocks: seq<Chunk>)
    requires Laid(blocks)
    ensures DistinctAddrs(blocks) && forall i :: 0 <= i < |blocks| ==> blocks[i].addr != 0
  {
    forall i, j | 0 <= i < j < |blocks| ensures blocks[i].addr != blocks[j].addr { assert Apart(blocks[i], blocks[j]); }
  }

  lemma SpelledAt(mem: map<nat, Header>, head: nat, blocks: seq<Chunk>, i: nat)
    requires Spelled(mem, head, blocks) && i < |blocks|
    ensures blocks[i].addr in mem && mem[blocks[i].addr] == HeaderFor(blocks, i)
  {
  }

  // The three edits of a doubly linked list.

  /** A block of the list gets another size or state. */
  lemma ResizeSpelled(mem: map<nat, Header>, head: nat, blocks: seq<Chunk>, i: nat, size: nat, free: bool)
    requires Spelled(mem, head, blocks) && DistinctAddrs(blocks) && i < |blocks|
    ensures var a := blocks[i].addr;
            a in mem && Spelled(mem[a := mem[a].(size := size, free := free)], head, blocks[i := Chunk(a, size, free)])
  {
    var a, after := blocks[i].addr, blocks[i := Chunk(blocks[i].addr, size, free)];
    SpelledAt(mem, head, blocks, i);
    var mem' := mem[a := mem[a].(size := size, free := free)];
    forall j | 0 <= j < |after| ensures after[j].addr in mem' && mem'[after[j].addr] == HeaderFor(after, j) {
      SpelledAt(mem, head, blocks, j);
    }
  }

  function Inserted(blocks: seq<Chunk>, i: nat, n: Chunk): seq<Chunk>
    requires i < |blocks|
  {
    blocks[..i + 1] + [n] + blocks[i + 1..]
  }

  /** The memory once `n` is linked in behind the block at `a`, whose successor was `next`. */
  function LinkedIn(mem: map<nat, Header>, a: nat, next: nat, n: Chunk): map<nat, Header>
    requires a in mem && (next != 0 ==> next in mem)
  {
    var m1 := mem[n.addr := Header(MAGIC, n.size, n.free, next, a)];
    var m2 := if next != 0 then m1[next := m1[next].(prev := n.addr)] else m1;
    m2[a := m2[a].(next := n.addr)]
  }

  lemma InsertSpelled(mem: map<nat, Header>, head: nat, blocks: seq<Chunk>, i: nat, n: Chunk)
    requires Spelled(mem, head, blocks) && i < |blocks| && DistinctAddrs(Inserted(blocks, i, n))
    requires n.addr != 0 && forall j :: 0 <= j < |blocks| ==> blocks[j].addr != 0
    ensures var a, next := blocks[i].addr, AddrAt(blocks, i + 1);
            a in mem && (next != 0 ==> next in mem) && Spelled(LinkedIn(mem, a, next, n), head, Inserted(blocks, i, n))
  {
    var a, next, after := blocks[i].addr, AddrAt(blocks, i + 1), Inserted(blocks, i, n);
    SpelledAt(mem, head, blocks, i);
    if next != 0 { SpelledAt(mem, head, blocks, i + 1); }
    var mem' := LinkedIn(mem, a, next, n);
    forall j | 0 <= j < |after| ensures after[j].addr in mem' && mem'[after[j].addr] == HeaderFor(after, j) {
      InsertedAt(mem, head, blocks, i, n, j);
    }
  }

  lemma InsertedAt(mem: map<nat, Header>, head: nat, blocks: seq<Chunk>, i: nat, n: Chunk, j: nat)
    requires Spelled(mem, head, blocks) && i < |blocks| && DistinctAddrs(Inserted(blocks, i, n)) && j <= |blocks|
    requires n.addr != 0 && forall j :: 0 <= j < |blocks| ==> blocks[j].addr != 0
    requires blocks[i].addr in mem && (AddrAt(blocks, i + 1) != 0 ==> AddrAt(blocks, i + 1) in mem)
    ensures var mem', after := LinkedIn(mem, blocks[i].addr, AddrAt(blocks, i + 1), n), Inserted(blocks, i, n);
            after[j].addr in mem' && mem'[after[j].addr] == HeaderFor(after, j)
  {
    hide Spelled, LinkedIn;
    var after, a, next := Inserted(blocks, i, n), blocks[i].addr, AddrAt(blocks, i + 1);
    InsertedHeader(blocks, i, n, i);
    InsertedHeader(blocks, i, n, i + 1);
    if i + 1 < |blocks| { InsertedHeader(blocks, i, n, i + 2); }
    InsertedHeader(blocks, i, n, j);
    if j != i + 1 { SpelledAt(mem, head, blocks, if j <= i then j else j - 1); }
    LinkedInAt(mem, a, next, n, after[j].addr);
  }

  /** The headers of a list with `n` inserted, in terms of those of the list. */
  lemma InsertedHeader(blocks: seq<Chunk>, i: nat, n: Chunk, j: nat)
    requires i < |blocks| && j <= |blocks|
    ensures Inserted(blocks, i, n)[j] == if j <= i then blocks[j] else if j == i + 1 then n else blocks[j - 1]
    ensures HeaderFor(Inserted(blocks, i, n), j) ==
            if j < i then HeaderFor(blocks, j)
            else if j == i then HeaderFor(blocks, i).(next := n.addr)
            else if j == i + 1 then Header(MAGIC, n.size, n.free, AddrAt(blocks, i + 1), blocks[i].addr)
            else if j == i + 2 then HeaderFor(blocks, i + 1).(prev := n.addr)
            else HeaderFor(blocks, j - 1)
  {
  }

  lemma LinkedInAt(mem: map<nat, Header>, a: nat, next: nat, n: Chunk, x: nat)
    requires a in mem && (next != 0 ==> next in mem) && a != n.addr && a != next && next != n.addr && n.addr != 0
    requires x in mem || x == n.addr
    ensures var mem' := LinkedIn(mem, a, next, n);
            && x in mem'
            && mem'[x] == if x == a then mem[a].(next := n.addr)
                          else if x == n.addr then Header(MAGIC, n.size, n.free, next, a)
                          else if x == next && next != 0 then mem[next].(prev := n.addr)
                          else mem[x]
  {
  }

  function Removed(blocks: seq<Chunk>, i: nat): seq<Chunk>
    requires i + 1 < |blocks|
  {
    blocks[..i + 1] + blocks[i + 2..]
  }

  /** The memory once the successor of the block at `a` is unlinked; `next` is the one behind it. */
  function LinkedOut(mem: map<nat, Header>, a: nat, next: nat): map<nat, Header>
    requires a in mem && (next != 0 ==> next in mem)
  {
    var m1 := mem[a := mem[a].(next := next)];
    if next != 0 then m1[next := m1[next].(prev := a)] else m1
  }

  lemma RemoveSpelled(mem: map<nat, Header>, head: nat, blocks: seq<Chunk>, i: nat)
    requires Spelled(mem, head, blocks) && DistinctAddrs(blocks) && i + 1 < |blocks|
    requires forall j :: 0 <= j < |blocks| ==> blocks[j].addr != 0
    ensures var a, next := blocks[i].addr, AddrAt(blocks, i + 2);
            a in mem && (next != 0 ==> next in mem) && Spelled(LinkedOut(mem, a, next), head, Removed(blocks, i))
  {
    var a, next, after := blocks[i].addr, AddrAt(blocks, i + 2), Removed(blocks, i);
    SpelledAt(mem, head, blocks, i);
    if next != 0 { SpelledAt(mem, head, blocks, i + 2); }
    var mem' := LinkedOut(mem, a, next);
    forall j | 0 <= j < |after| ensures after[j].addr in mem' && mem'[after[j].addr] == HeaderFor(after, j) {
      RemovedAt(mem, head, blocks, i, j);
    }
  }

  lemma RemovedAt(mem: map<nat, Header>, head: nat, blocks: seq<Chunk>, i: nat, j: nat)
    requires Spelled(mem, head, blocks) && DistinctAddrs(blocks) && i + 1 < |blocks| && j + 1 < |blocks|
    requires forall j :: 0 <= j < |blocks| ==> blocks[j].addr != 0
    requires blocks[i].addr in mem && (AddrAt(blocks, i + 2) != 0 ==> AddrAt(blocks, i + 2) in mem)
    ensures var mem', after := LinkedOut(mem, blocks[i].addr, AddrAt(blocks, i + 2)), Removed(blocks, i);
            after[j].addr in mem' && mem'[after[j].addr] == HeaderFor(after, j)
  {
    hide Spelled, LinkedOut;
    var after, a, next := Removed(blocks, i), blocks[i].addr, AddrAt(blocks, i + 2);
    RemovedHeader(blocks, i, j);
    var k := if j <= i then j else j + 1;
    SpelledAt(mem, head, blocks, k);
    LinkedOutAt(mem, a, next, blocks[k].addr);
  }

  /** The headers of a list without the successor of block `i`, in terms of those of the list. */
  lemma RemovedHeader(blocks: seq<Chunk>, i: nat, j: nat)
    requires i + 1 < |blocks| && j + 1 < |blocks|
    ensures Removed(blocks, i)[j] == if j <= i then blocks[j] else blocks[j + 1]
    ensures HeaderFor(Removed(blocks, i), j) ==
            if j < i then HeaderFor(blocks, j)
            else if j == i then HeaderFor(blocks, i).(next := AddrAt(blocks, i + 2))
            else if j == i + 1 then HeaderFor(blocks, i + 2).(prev := blocks[i].addr)
            else HeaderFor(blocks, j + 1)
  {
  }

  lemma LinkedOutAt(mem: map<nat, Header>, a: nat, next: nat, x: nat)
    requires a in mem && (next != 0 ==> next in mem) && a != next && x in mem
    ensures var mem' := LinkedOut(mem, a, next);
            && x in mem'
            && mem'[x] == if x == a then mem[a].(next := next)
                          else if x == next && next != 0 then mem[next].(prev := a)
                          else mem[x]
  {
  }

  // ---- what the heap writes ----------------------------------------------------

  /** The header at `a` changed. */
  predicate Written(m: map<nat, Header>, m': map<nat, Header>, a: nat) {
    (a in m) != (a in m') || (a in m && m[a] != m'[a])
  }

  /** No header written between `m` and `m'` overlaps the payload of a live block. */
  ghost predicate Untouched(m: map<nat, Header>, m': map<nat, Header>, blocks: seq<Chunk>) {
    forall x: Chunk, a: nat :: IsLive(blocks, x) && Written(m, m', a) ==> a + HEADER <= x.Payload() || x.End() <= a
  }

  ghost predicate HasAddr(blocks: seq<Chunk>, a: nat) { exists k :: 0 <= k < |blocks| && blocks[k].addr == a }

  /** Writing only headers of a list of disjoint blocks leaves every payload of that list alone. */
  lemma HeadersBesidePayloads(m: map<nat, Header>, m': map<nat, Header>, live: seq<Chunk>, list: seq<Chunk>)
    requires Laid(list) && forall x: Chunk :: IsLive(live, x) ==> IsLive(list, x)
    requires forall a: nat :: Written(m, m', a) ==> HasAddr(list, a)
    ensures Untouched(m, m', live)
  {
    hide Written, IsLive;
    forall x: Chunk, a: nat | IsLive(live, x) && Written(m, m', a) ensures a + HEADER <= x.Payload() || x.End() <= a {
      var k :| 0 <= k < |list| && list[k].addr == a;
      LiveAt(list, x, k);
    }
  }

  lemma LiveAt(list: seq<Chunk>, x: Chunk, k: nat)
    requires Laid(list) && IsLive(list, x) && k < |list|
    ensures list[k] == x || Apart(list[k], x)
  {
    var i :| 0 <= i < |list| && list[i] == x;
    if i < k { assert Apart(list[i], list[k]); }
    if k < i { assert Apart(list[k], list[i]); }
  }

  lemma UntouchedTwice(m0: map<nat, Header>, m1: map<nat, Header>, m2: map<nat, Header>, first: seq<Chunk>, second: seq<Chunk>, live: seq<Chunk>)
    requires Untouched(m0, m1, first) && Untouched(m1, m2, second)
    requires forall x: Chunk :: IsLive(live, x) ==> IsLive(first, x) && IsLive(second, x)
    ensures Untouched(m0, m2, live)
  {
    hide IsLive;
    forall x: Chunk, a: nat | IsLive(live, x) && Written(m0, m2, a) ensures a + HEADER <= x.Payload() || x.End() <= a {
      assert Written(m0, m1, a) || Written(m1, m2, a);
    }
  }

  /** Only headers at these addresses changed. */
  ghost predicate OnlyAt(m: map<nat, Header>, m': map<nat, Header>, addrs: set<nat>) {
    forall x: nat :: Written(m, m', x) ==> x in addrs
  }

  function Link(next: nat): set<nat> { if next == 0 then {} else {next} }

  lemma LinkedInWrites(mem: map<nat, Header>, a: nat, next: nat, n: Chunk, h: Header)
    requires a in mem && (next != 0 ==> next in mem)
    ensures OnlyAt(mem, LinkedIn(mem, a, next, n)[a := h], {a, n.addr} + Link(next))
    ensures OnlyAt(mem, LinkedIn(mem, a, next, n), {a, n.addr} + Link(next)) && a in LinkedIn(mem, a, next, n)
  {
  }

  lemma LinkedOutWrites(mem: map<nat, Header>, a: nat, next: nat, h: Header)
    requires a in mem && (next != 0 ==> next in mem)
    ensures OnlyAt(mem, LinkedOut(mem, a, next)[a := h], {a} + Link(next))
  {
  }

  /** The headers TakeBlock writes belong to the list it leaves. */
  lemma TakenWrites(m: map<nat, Header>, m': map<nat, Header>, blocks: seq<Chunk>, i: nat, size: nat)
    requires Laid(blocks) && Spelled(m, AddrAt(blocks, 0), blocks) && i < |blocks| && Fits(blocks[i], size)
    requires var b := blocks[i];
             if b.size >= size + HEADER + MIN_BLOCK then
               OnlyAt(m, m', {b.addr, b.addr + HEADER + size} + Link(AddrAt(blocks, i + 1)))
             else OnlyAt(m, m', {b.addr})
    ensures Untouched(m, m', blocks)
  {
    hide Written, Spelled, Untouched, Total, Used;
    TakenOk(blocks, i, size);
    var after := Taken(blocks, i, size);
    assert after[i].addr == blocks[i].addr && HasAddr(after, blocks[i].addr);
    if blocks[i].size >= size + HEADER + MIN_BLOCK {
      assert after[i + 1].addr == blocks[i].addr + HEADER + size;
      if i + 1 < |blocks| { assert after[i + 2] == blocks[i + 1]; }
    }
    HeadersBesidePayloads(m, m', blocks, after);
  }

  lemma OwnWrites(m: map<nat, Header>, m': map<nat, Header>, live: seq<Chunk>, blocks: seq<Chunk>, i: nat, next: nat)
    requires Laid(blocks) && i < |blocks| && (next == 0 || HasAddr(blocks, next))
    requires forall x: Chunk :: IsLive(live, x) ==> IsLive(blocks, x)
    requires OnlyAt(m, m', {blocks[i].addr} + Link(next))
    ensures Untouched(m, m', live)
  {
    hide Written, Untouched;
    assert HasAddr(blocks, blocks[i].addr);
    HeadersBesidePayloads(m, m', live, blocks);
  }

  /** The headers HeapExpand writes belong to the list it leaves. */
  lemma ExtendedWrites(m: map<nat, Header>, m': map<nat, Header>, blocks: seq<Chunk>, base: nat, pages: nat)
    requires Laid(blocks) && 1 <= pages && Fresh(blocks, base, pages)
    requires OnlyAt(m, m', {base}) || (blocks != [] && OnlyAt(m, m', {blocks[|blocks| - 1].addr, base}))
    ensures Untouched(m, m', Extended(blocks, base, pages))
  {
    hide Written, Untouched;
    ExtendedOk(blocks, base, pages);
    var after := Extended(blocks, base, pages);
    assert after[|blocks|].addr == base;
    if blocks != [] { assert after[|blocks| - 1] == blocks[|blocks| - 1]; }
    HeadersBesidePayloads(m, m', after, after);
  }

  lemma OneWritten(m: map<nat, Header>, a: nat, h: Header)
    ensures OnlyAt(m, m[a := h], {a})
  {
  }

  lemma NothingWritten(m: map<nat, Header>, blocks: seq<Chunk>)
    ensures Untouched(m, m, blocks)
  {
  }

  class KernelHeap {
    var head: nat                      // g_heap_head
    var total: nat                     // g_heap_total
    var used: nat                      // g_heap_used
    var mem: map<nat, Header>          // block headers, by address
    ghost var blocks: seq<Chunk>

    ghost predicate Valid()
      reads this
    {
      Laid(blocks) && Spelled(mem, head, blocks) && total == Total(blocks) && used == Used(blocks)
    }

    /** The empty heap, before HeapInit grows it. */
    constructor ()
      ensures Valid() && blocks == []
    {
      head, total, used, mem, blocks := 0, 0, 0, map[], [];
    }

    /** HeapExpand, given the address at which PmmAllocPages granted the pages (0 for none). */
    method HeapExpand(minSize: nat, grant: nat) returns (ok: bool)
      requires Valid() && minSize < WORD
      requires grant != 0 ==> PagesFor(minSize) >= 1 && Fresh(blocks, grant, PagesFor(minSize))
      modifies this
      ensures Valid() && ok == (grant != 0)
      ensures blocks == if ok then Extended(old(blocks), grant, PagesFor(minSize)) else old(blocks)
      ensures Untouched(old(mem), mem, blocks)
    {
      hide Total, Used, Spelled, Laid, LinkedIn, Fresh, Untouched, Written, OnlyAt;
      NothingWritten(mem, blocks);
      var pages := (minSize + HEADER + PAGE - 1) % WORD / PAGE;
      if grant == 0 { return false; }
      var bytes := pages * PAGE;
      ghost var n := Chunk(grant, bytes - HEADER, true);
      ExtendedOk(blocks, grant, pages);
      LaidDistinct(blocks);
      LaidDistinct(Extended(blocks, grant, pages));
      HeadIs(mem, head, blocks);
      if head != 0 {
        var last := LastBlock();
        Behind(blocks, n);
        InsertSpelled(mem, head, blocks, |blocks| - 1, n);
        LinkedInWrites(mem, last, 0, n, mem[last]);
        assert {last, grant} + Link(0) == {last, grant};
        mem := LinkedIn(mem, last, 0, Chunk(grant, bytes - HEADER, true));
      } else {
        FirstSpelled(mem, n);
        OneWritten(mem, grant, Header(MAGIC, bytes - HEADER, true, 0, 0));
        assert Extended(blocks, grant, pages) == [n];
        mem := mem[grant := Header(MAGIC, bytes - HEADER, true, 0, 0)];
        head := grant;
      }
      ExtendedWrites(old(mem), mem, blocks, grant, pages);
      total := total + bytes;
      blocks := Extended(blocks, grant, pages);
      ok := true;
    }

    /** The walk to the last block. */
    method LastBlock() returns (last: nat)
      requires Valid() && head != 0
      ensures blocks != [] && last == blocks[|blocks| - 1].addr && last in mem
    {
      hide Total, Used;
      LaidDistinct(blocks);
      last := head;
      ghost var i := 0;
      while mem[last].next != 0
        invariant 0 <= i < |blocks| && last == blocks[i].addr && last in mem
        decreases |blocks| - i
      {
        SpelledAt(mem, head, blocks, i);
        last := mem[last].next;
        i := i + 1;
      }
      SpelledAt(mem, head, blocks, i);
    }

    /** HeapSplitBlock on a block that fits, which is then marked used. */
    method TakeBlock(block: nat, size: nat, ghost i: nat)
      requires Valid() && i < |blocks| && block == blocks[i].addr && Fits(blocks[i], size)
      modifies this
      ensures Valid() && blocks == Taken(old(blocks), i, size) && Untouched(old(mem), mem, old(blocks))
    {
      hide Total, Used, Spelled, Laid, LinkedIn, LiveChange, Untouched, Written, OnlyAt;
      HeadAddr(mem, head, blocks);
      ghost var before, after := blocks, Taken(blocks, i, size);
      TakenOk(blocks, i, size);
      LaidDistinct(blocks);
      LaidDistinct(after);
      SpelledAt(mem, head, blocks, i);
      var h := mem[block];
      ghost var linked := mem;
      if h.size >= size + HEADER + MIN_BLOCK {
        var rest := Chunk(block + HEADER + size, h.size - size - HEADER, true);
        SplitOff(blocks, i, size, rest);
        InsertSpelled(mem, head, blocks, i, rest);
        mem := LinkedIn(mem, block, h.next, rest);
        blocks := Inserted(blocks, i, rest);
        ResizeSpelled(mem, head, blocks, i, size, false);
        linked := mem;
        LinkedInWrites(old(mem), block, h.next, rest, linked[block].(size := size, free := false));
        mem := mem[block := mem[block].(size := size)];
      } else {
        ResizeSpelled(mem, head, blocks, i, h.size, false);
        OneWritten(mem, block, h.(free := false));
        assert after == blocks[i := Chunk(block, h.size, false)];
      }
      mem := mem[block := mem[block].(free := false)];
      assert mem == linked[block := linked[block].(size := after[i].size, free := false)];
      TakenWrites(old(mem), mem, before, i, size);
      used := used + mem[block].size;
      blocks := after;
    }

    /** KmAlloc, given what PmmAllocPages answers each time the heap grows. `got` is None when
        the kernel panics for lack of memory; `n` counts the growths. */
    method KmAlloc(size: nat, grants: seq<nat>) returns (got: Option<nat>, ghost b: Chunk, ghost n: nat)
      requires Valid() && size < WORD && GrantsOk(blocks, grants, PagesFor(Rounded(size)))
      modifies this
      ensures Valid() && n <= |grants|
      ensures size == 0 ==> got == Some(0) && blocks == old(blocks) && n == 0
      ensures got == Some(0) || got.None? ==> LiveChange(old(blocks), blocks, {}, {}) && used == old(used)
      ensures got == Some(0) <==> size == 0 || (Rounded(size) == 0 && got.Some? && n > 0)
      ensures got.Some? && got.value != 0 ==>
                && LiveChange(old(blocks), blocks, {b}, {}) && IsLive(blocks, b) && !IsLive(old(blocks), b)
                && got.value == b.Payload() && Rounded(size) <= b.size < Rounded(size) + HEADER + MIN_BLOCK && used == old(used) + b.size
      ensures total == old(total) + n * (PagesFor(Rounded(size)) * PAGE)
      ensures if size != 0 && !OneGrowth(size) then got.None? && n == Granted(grants) else n <= 1
      ensures var i := FirstFit(old(blocks), Rounded(size));
              size != 0 && i < |old(blocks)| ==>
                && got == Some(old(blocks)[i].Payload()) && n == 0 && CutFrom(old(blocks), blocks, i, Rounded(size)) && b == blocks[i]
                && (Seamless(old(blocks)) ==> Seamless(blocks))
      ensures Untouched(old(mem), mem, old(blocks))
      decreases |grants|
    {
      hide Total, Used, Spelled, Laid, LiveChange, PagesFor, Rounded, Untouched, OneGrowth, Granted, GrantsOk, Fresh, CutFrom, Seamless, Taken, FirstFit, Extended, IsLive;
      NothingWritten(mem, blocks);
      b, n := Chunk(0, 0, true), 0;
      NothingChanged(blocks);
      if size == 0 { return Some(0), b, 0; }
      var r := Round(size);
      ghost var before := blocks;
      var block, found;
      ghost var i;
      found, block, i := Search(r);
      GrowthStep(blocks, size, grants);
      if found {
        TakenOk(blocks, i, r);
        LaidDistinct(blocks);
        FreeIsNotLive(blocks, i);
        TakeBlock(block, r, i);
        b := blocks[i];
        TakenNew(before, i, r);
        TakenIsCut(before, i, r);
        if Seamless(before) { TakenSeamless(before, blocks, i, r); }
        return Some(block + HEADER), b, 0;
      }
      var grant := if grants == [] then 0 else grants[0];
      GrantStep(blocks, grants, PagesFor(r));
      var ok := HeapExpand(r, grant);
      if !ok { return None, b, 0; }
      RoundedAgain(size);
      ExtendedOk(before, grant, PagesFor(r));
      ghost var grown, m1 := blocks, mem;
      got, b, n := KmAlloc(r, grants[1..]);
      GrownOnce(before, grant, r, size);
      LiveTwice(before, grown, blocks, b, got.Some? && got.value != 0);
      SameLive(before, grown);
      UntouchedTwice(old(mem), m1, mem, grown, grown, before);
      n := n + 1;
    }

    /** The rounding of KmAlloc. */
    method Round(size: nat) returns (r: nat)
      requires 0 < size < WORD
      ensures r == Rounded(size) && r < WORD
    {
      r := (size + 15) % WORD / 16 * 16;
    }

    /** The search loop of KmAlloc. */
    method Search(size: nat) returns (found: bool, block: nat, ghost i: nat)
      requires Valid()
      ensures i == FirstFit(blocks, size) && (found <==> i < |blocks|)
      ensures found ==> block == blocks[i].addr
    {
      hide Total, Used, Spelled, Laid;
      LaidDistinct(blocks);
      HeadIs(mem, head, blocks);
      found, block, i := false, head, 0;
      HeadAddr(mem, head, blocks);
      while block != 0
        invariant i <= |blocks| && block == AddrAt(blocks, i) && !found
        invariant forall j :: 0 <= j < i ==> !Fits(blocks[j], size)
        decreases |blocks| - i
      {
        SpelledAt(mem, head, blocks, i);
        if mem[block].free && mem[block].size >= size {
          found := true;
          FirstFitIs(blocks, size, i);
          return;
        }
        block := mem[block].next;
        i := i + 1;
      }
      FirstFitIs(blocks, size, i);
    }

    /** HeapCoalesce of a freed block. */
    method Coalesce(block: nat, ghost i: nat)
      requires Valid() && i < |blocks| && block == blocks[i].addr && blocks[i].free
      modifies `mem, `blocks
      ensures Valid() && blocks == Coalesced(old(blocks), i)
      ensures Untouched(old(mem), mem, blocks) && LiveChange(old(blocks), blocks, {}, {})
    {
      hide Total, Used, Spelled, Laid, LinkedOut, LiveChange, Untouched;
      NothingWritten(mem, blocks);
      NothingChanged(blocks);
      ghost var before := blocks;
      LaidDistinct(blocks);
      SpelledAt(mem, head, blocks, i);
      var next := mem[block].next;
      if next != 0 {
        SpelledAt(mem, head, blocks, i + 1);
        if mem[next].magic == MAGIC && mem[next].free && block + HEADER + mem[block].size == next {
          JoinOk(blocks, i);
          Join(block, i);
        }
      }
      assert blocks == JoinNext(before, i);
      ghost var mid, m1 := blocks, mem;
      NothingWritten(mem, blocks);
      NothingChanged(blocks);
      LaidDistinct(blocks);
      SpelledAt(mem, head, blocks, i);
      var prev := mem[block].prev;
      if prev != 0 {
        SpelledAt(mem, head, blocks, i - 1);
        if mem[prev].magic == MAGIC && mem[prev].free && prev + HEADER + mem[prev].size == block {
          JoinOk(blocks, i - 1);
          Join(prev, i - 1);
        }
      }
      assert blocks == JoinPrev(mid, i);
      SameLive(before, mid);
      SameLive(mid, blocks);
      SameIsChange(before, blocks);
      UntouchedTwice(old(mem), m1, mem, mid, blocks, blocks);
    }

    /** A block swallows its successor. */
    method Join(block: nat, ghost i: nat)
      requires Valid() && i + 1 < |blocks| && block == blocks[i].addr && blocks[i].free && blocks[i + 1].free
      requires Mergeable(blocks[i], blocks[i + 1])
      modifies `mem, `blocks
      ensures Valid() && blocks == old(blocks)[..i] + [Joined(old(blocks)[i], old(blocks)[i + 1])] + old(blocks)[i + 2..]
      ensures Untouched(old(mem), mem, blocks) && LiveChange(old(blocks), blocks, {}, {})
    {
      hide Total, Used, Spelled, Laid, LinkedOut, LiveChange, Untouched, Written, OnlyAt;
      ghost var before := blocks;
      JoinOk(blocks, i);
      LaidDistinct(blocks);
      SpelledAt(mem, head, blocks, i);
      SpelledAt(mem, head, blocks, i + 1);
      var next := mem[block].next;
      var size := mem[block].size + HEADER + mem[next].size;
      RemoveSpelled(mem, head, blocks, i);
      RemovedDistinct(blocks, i);
      ghost var behind := mem[next].next;
      LinkedOutWrites(mem, block, behind, Header(MAGIC, size, true, behind, mem[block].prev));
      if behind != 0 { assert HasAddr(before, behind) by { assert before[i + 2].addr == behind; } }
      mem := LinkedOut(mem, block, mem[next].next);
      blocks := Removed(blocks, i);
      ResizeSpelled(mem, head, blocks, i, size, true);
      SpelledAt(mem, head, blocks, i);
      mem := mem[block := mem[block].(size := size)];
      assert mem[block].free;
      blocks := blocks[i := Chunk(block, size, true)];
      assert blocks == before[..i] + [Joined(before[i], before[i + 1])] + before[i + 2..];
      SameLive(before, blocks);
      OwnWrites(old(mem), mem, blocks, before, i, behind);
    }

    /** KmFree. `ok` is false when the kernel panics (a block that is already free). */
    method KmFree(ptr: nat, ghost i: nat) returns (ok: bool)
      requires Valid() && (ptr != 0 ==> i < |blocks| && ptr == blocks[i].Payload())
      modifies this
      ensures Valid()
      ensures ok == (ptr == 0 || !old(blocks)[i].free)
      ensures ptr == 0 || !ok ==> blocks == old(blocks)
      ensures ptr != 0 && ok ==>
                && blocks == Coalesced(Released(old(blocks), i), i)
                && LiveChange(old(blocks), blocks, {}, {old(blocks)[i]})
                && used + old(blocks)[i].size == old(used) && total == old(total)
                && FreedInto(old(blocks), blocks, i) && (Seamless(old(blocks)) ==> Seamless(blocks))
      ensures Untouched(old(mem), mem, blocks)
    {
      hide Total, Used, Spelled, Laid, LiveChange, Coalesced, Untouched, Written, OnlyAt, FreedInto, Seamless;
      ghost var before := blocks;
      NothingWritten(mem, blocks);
      if ptr == 0 { return true; }
      var block := ptr - HEADER;
      SpelledAt(mem, head, blocks, i);
      LaidDistinct(blocks);
      if mem[block].magic != MAGIC { return false; }
      if mem[block].free { return false; }
      ReleasedOk(blocks, i);
      FreedOk(blocks, i);
      ResizeSpelled(mem, head, blocks, i, mem[block].size, true);
      OneWritten(mem, block, mem[block].(free := true));
      mem := mem[block := mem[block].(free := true)];
      ghost var m1 := mem;
      FreedLive(blocks, i);
      assert {block} + Link(0) == {block};
      OwnWrites(old(mem), mem, Released(blocks, i), blocks, i, 0);
      used := used - mem[block].size;
      assert Released(blocks, i) == blocks[i := Chunk(block, mem[block].size, true)];
      blocks := Released(blocks, i);
      ghost var mid := blocks;
      Coalesce(block, i);
      SameLive(mid, blocks);
      UntouchedTwice(old(mem), m1, mem, mid, blocks, blocks);
      FreedIntoOne(before, i);
      if Seamless(before) { FreedSeamless(before, blocks, i); }
      ok := true;
    }
  }


  /** Every grant is fresh when it comes; no pages asked for, none granted. */
  ghost predicate GrantsOk(blocks: seq<Chunk>, grants: seq<nat>, pages: nat)
    decreases grants
  {
    grants == [] || grants[0] == 0
    || (1 <= pages && Fresh(blocks, grants[0], pages) && GrantsOk(Extended(blocks, grants[0], pages), grants[1..], pages))
  }

  /** HeapExpand's own sum does not wrap. Such a request needs one growth at most; any other takes
      every grant there is and is never met. */
  predicate OneGrowth(size: nat) { Rounded(size) + HEADER + PAGE - 1 < WORD }

  /** How often the heap can grow before a grant is refused. */
  function Granted(grants: seq<nat>): (n: nat)
    ensures n <= |grants|
  {
    if grants == [] || grants[0] == 0 then 0 else 1 + Granted(grants[1..])
  }

  /** No block of the address space holds a request that one growth cannot meet. */
  lemma NothingThatBig(blocks: seq<Chunk>, size: nat)
    requires Laid(blocks) && !OneGrowth(size)
    ensures FirstFit(blocks, Rounded(size)) == |blocks|
  {
    hide Rounded;
  }

  /** What the first grant decides. */
  lemma GrowthStep(blocks: seq<Chunk>, size: nat, grants: seq<nat>)
    requires Laid(blocks) && 0 < size < WORD
    ensures !OneGrowth(size) ==> FirstFit(blocks, Rounded(size)) == |blocks| && Rounded(size) != 0
    ensures OneGrowth(Rounded(size)) <==> OneGrowth(size)
    ensures Granted(grants) == if grants == [] || grants[0] == 0 then 0 else 1 + Granted(grants[1..])
  {
    RoundedAgain(size);
    if !OneGrowth(size) { NothingThatBig(blocks, size); }
  }

  lemma GrantStep(blocks: seq<Chunk>, grants: seq<nat>, pages: nat)
    requires GrantsOk(blocks, grants, pages)
    ensures grants != [] && grants[0] != 0 ==>
              1 <= pages && Fresh(blocks, grants[0], pages) && GrantsOk(Extended(blocks, grants[0], pages), grants[1..], pages)
  {
  }

  /** A request of 2^64 - 16 bytes takes page after page until none is left. */
  lemma EndlessRequest()
    ensures Rounded(WORD - 16) == WORD - 16 && PagesFor(WORD - 16) == 1 && !OneGrowth(WORD - 16)
  {
    RoundedIs(WORD - 16);
  }

  /** KmAlloc gives at least the bytes asked for if and only if the rounding does not wrap. */
  lemma EnoughBytes(size: nat, b: Chunk)
    requires 0 < size < WORD && Rounded(size) <= b.size && PAGE <= b.addr && b.End() <= WORD
    ensures b.size >= size <==> size <= WORD - 16
  {
    RoundedIs(size);
  }

  /** A request of 2^64 - 1 bytes is rounded to nothing. */
  lemma HugeRequest()
    ensures Rounded(WORD - 1) == 0
  {
  }

  lemma RoundedAgain(size: nat)
    requires 0 < size < WORD
    ensures Rounded(Rounded(size)) == Rounded(size) < WORD
  {
    RoundedIs(size);
  }

  lemma {:induction false} FirstFitIs(blocks: seq<Chunk>, size: nat, i: nat)
    requires i <= |blocks| && (i < |blocks| ==> Fits(blocks[i], size)) && forall j :: 0 <= j < i ==> !Fits(blocks[j], size)
    ensures FirstFit(blocks, size) == i
  {
    hide Fits;
  }

  lemma HeadAddr(mem: map<nat, Header>, head: nat, blocks: seq<Chunk>)
    requires Spelled(mem, head, blocks)
    ensures head == AddrAt(blocks, 0)
  {
  }

  lemma SameLive(before: seq<Chunk>, after: seq<Chunk>)
    requires LiveChange(before, after, {}, {})
    ensures forall x: Chunk :: IsLive(before, x) <==> IsLive(after, x)
  {
  }

  lemma SameIsChange(before: seq<Chunk>, after: seq<Chunk>)
    requires forall x: Chunk :: IsLive(before, x) <==> IsLive(after, x)
    ensures LiveChange(before, after, {}, {})
  {
  }

  lemma FreedLive(blocks: seq<Chunk>, i: nat)
    requires i < |blocks|
    ensures forall x: Chunk :: IsLive(Released(blocks, i), x) ==> IsLive(blocks, x)
  {
  }

  lemma NothingChanged(blocks: seq<Chunk>)
    ensures LiveChange(blocks, blocks, {}, {})
  {
  }

  lemma FreeIsNotLive(blocks: seq<Chunk>, i: nat)
    requires Laid(blocks) && i < |blocks| && blocks[i].free
    ensures forall c: Chunk :: IsLive(blocks, c) ==> c.addr != blocks[i].addr
  {
    LaidDistinct(blocks);
  }

  lemma TakenNew(blocks: seq<Chunk>, i: nat, size: nat)
    requires i < |blocks| && Fits(blocks[i], size)
    ensures var after := Taken(blocks, i, size);
            i < |after| && after[i].addr == blocks[i].addr && IsLive(after, after[i])
  {
  }

  lemma LiveTwice(before: seq<Chunk>, mid: seq<Chunk>, after: seq<Chunk>, b: Chunk, got: bool)
    requires LiveChange(before, mid, {}, {}) && (if got then LiveChange(mid, after, {b}, {}) else LiveChange(mid, after, {}, {}))
    ensures if got then LiveChange(before, after, {b}, {}) && (IsLive(before, b) <==> IsLive(mid, b)) else LiveChange(before, after, {}, {})
  {
  }

  /** Pages enough for the request hold it. */
  lemma GrownOnce(before: seq<Chunk>, grant: nat, r: nat, size: nat)
    requires r == Rounded(size) && 1 <= PagesFor(r)
    ensures OneGrowth(size) ==> FirstFit(Extended(before, grant, PagesFor(r)), r) < |Extended(before, grant, PagesFor(r))|
  {
    var after := Extended(before, grant, PagesFor(r));
    if OneGrowth(size) {
      var k := |before|;
      assert Fits(after[k], r);
    }
  }

  lemma HeadIs(mem: map<nat, Header>, head: nat, blocks: seq<Chunk>)
    requires Spelled(mem, head, blocks) && forall i :: 0 <= i < |blocks| ==> blocks[i].addr != 0
    ensures head == 0 <==> blocks == []
  {
  }

  lemma FirstSpelled(mem: map<nat, Header>, n: Chunk)
    ensures Spelled(mem[n.addr := Header(MAGIC, n.size, n.free, 0, 0)], n.addr, [n])
  {
  }

  lemma Behind(blocks: seq<Chunk>, n: Chunk)
    requires blocks != []
    ensures Inserted(blocks, |blocks| - 1, n) == blocks + [n] && AddrAt(blocks, |blocks|) == 0
  {
  }

  lemma SplitOff(blocks: seq<Chunk>, i: nat, size: nat, rest: Chunk)
    requires i < |blocks| && blocks[i].size >= size + HEADER + MIN_BLOCK
    requires rest == Chunk(blocks[i].addr + HEADER + size, blocks[i].size - size - HEADER, true)
    requires DistinctAddrs(Taken(blocks, i, size))
    ensures Inserted(blocks, i, rest)[i := Chunk(blocks[i].addr, size, false)] == Taken(blocks, i, size)
    ensures DistinctAddrs(Inserted(blocks, i, rest))
  {
    var a, b := Inserted(blocks, i, rest), Taken(blocks, i, size);
    assert a[i := Chunk(blocks[i].addr, size, false)] == b;
    forall x, y | 0 <= x < y < |a| ensures a[x].addr != a[y].addr { assert a[x].addr == b[x].addr && a[y].addr == b[y].addr; }
  }

  lemma RemovedDistinct(blocks: seq<Chunk>, i: nat)
    requires DistinctAddrs(blocks) && i + 1 < |blocks|
    ensures DistinctAddrs(Removed(blocks, i))
  {
  }
}
