/** The physical page allocator: a bitmap of used pages, a bitmap of pinned ones, and a
    count of the used pages. Addresses are page numbers; page 0 doubles as "none". */
module Pmm {
  import opened Basics

  /** How many bits are set. */
  function Count(bits: seq<bool>): (n: nat)
    ensures n <= |bits|
  {
    if bits == [] then 0 else Count(bits[..|bits| - 1]) + if bits[|bits| - 1] then 1 else 0
  }

  lemma {:induction false} CountFlip(bits: seq<bool>, i: nat, b: bool)
    requires i < |bits|
    ensures Count(bits[i := b]) == Count(bits) - (if bits[i] then 1 else 0) + if b then 1 else 0
  {
    var n := |bits| - 1;
    if i == n {
      assert bits[i := b][..n] == bits[..n];
    } else {
      CountFlip(bits[..n], i, b);
      assert bits[i := b][..n] == bits[..n][i := b];
    }
  }

  lemma CountPositive(bits: seq<bool>, i: nat)
    requires i < |bits| && bits[i]
    ensures Count(bits) >= 1
  {
    CountFlip(bits, i, false);
  }

  lemma {:induction false} CountAll(bits: seq<bool>)
    requires forall i :: 0 <= i < |bits| ==> bits[i]
    ensures Count(bits) == |bits|
  {
    if bits != [] {
      CountAll(bits[..|bits| - 1]);
    }
  }

  /** The bits of pages `a` up to `b` set. */
  function SetRange(bits: seq<bool>, a: nat, b: nat): (bits': seq<bool>)
    requires a <= b <= |bits|
    ensures |bits'| == |bits|
    ensures forall i :: 0 <= i < |bits| ==> bits'[i] == (bits[i] || a <= i < b)
  {
    seq(|bits|, i requires 0 <= i < |bits| => bits[i] || a <= i < b)
  }

  lemma {:induction false} CountRange(bits: seq<bool>, a: nat, b: nat)
    requires a <= b <= |bits| && forall i :: a <= i < b ==> !bits[i]
    ensures Count(SetRange(bits, a, b)) == Count(bits) + (b - a)
  {
    if a == b {
      assert SetRange(bits, a, b) == bits;
    } else {
      CountRange(bits, a, b - 1);
      CountFlip(SetRange(bits, a, b - 1), b - 1, true);
      assert SetRange(bits, a, b) == SetRange(bits, a, b - 1)[b - 1 := true];
    }
  }

  // ---- the allocator as a value ----------------------------------------------

  /** One bit of each bitmap per page. */
  datatype Frames = Frames(used: seq<bool>, pinned: seq<bool>)
  {
    predicate Valid() {
      |used| == |pinned| && 1 <= |used| && used[0]
    }

    predicate Free(page: nat) { page < |used| && !used[page] }

    /** A page that PmmFreePage would release. */
    predicate Releasable(page: nat) { 0 < page < |used| && used[page] && page < |pinned| && !pinned[page] }
  }

  function Release(f: Frames, page: nat): Frames {
    if f.Releasable(page) then f.(used := f.used[page := false]) else f
  }

  function Take(f: Frames, page: nat, count: nat): Frames
    requires page + count <= |f.used|
  {
    f.(used := SetRange(f.used, page, page + count))
  }

  function Pin(f: Frames, page: nat): Frames {
    if 0 < page < |f.pinned| then f.(pinned := f.pinned[page := true]) else f
  }

  /** `count` free pages in a row. */
  predicate FreeRun(f: Frames, page: nat, count: nat) {
    page + count <= |f.used| && forall i :: page <= i < page + count ==> !f.used[i]
  }

  // ---- runs ------------------------------------------------------------------

  /** One call, with the page it answered. */
  datatype Call = Alloc(page: nat, count: nat) | Free(page: nat) | PinIt(page: nat)

  /** An allocation can only answer a free run. */
  predicate Possible(f: Frames, c: Call) {
    c.Alloc? ==> 1 <= c.count && FreeRun(f, c.page, c.count)
  }

  function After(f: Frames, c: Call): Frames
    requires Possible(f, c)
  {
    match c
    case Alloc(p, n) => Take(f, p, n)
    case Free(p) => Release(f, p)
    case PinIt(p) => Pin(f, p)
  }

  /** The call hands out page `page`. */
  predicate HandsOut(c: Call, page: nat) { c.Alloc? && c.page <= page < c.page + c.count }

  ghost predicate Run(f: Frames, calls: seq<Call>)
    decreases calls
  {
    calls == [] || (Possible(f, calls[0]) && Run(After(f, calls[0]), calls[1..]))
  }

  /** A page pinned while allocated is never handed out again, whatever is called. */
  lemma {:induction false} PinnedForever(f: Frames, calls: seq<Call>, page: nat)
    requires f.Valid() && page < |f.used| && f.used[page] && f.pinned[page] && Run(f, calls)
    ensures forall k :: 0 <= k < |calls| ==> !HandsOut(calls[k], page)
    decreases calls
  {
    if calls != [] {
      PinnedForever(After(f, calls[0]), calls[1..], page);
      forall k | 0 <= k < |calls| ensures !HandsOut(calls[k], page) {
        if k > 0 { assert calls[k] == calls[1..][k - 1]; }
      }
    }
  }

  /** Page 0 is never handed out, so an answer of 0 always means "none". */
  lemma {:induction false} ZeroNeverHandedOut(f: Frames, calls: seq<Call>)
    requires f.Valid() && Run(f, calls)
    ensures forall k :: 0 <= k < |calls| ==> !HandsOut(calls[k], 0)
    decreases calls
  {
    if calls != [] {
      ZeroNeverHandedOut(After(f, calls[0]), calls[1..]);
      forall k | 0 <= k < |calls| ensures !HandsOut(calls[k], 0) {
        if k > 0 { assert calls[k] == calls[1..][k - 1]; }
      }
    }
  }

  // ---- releasing a list ------------------------------------------------------

  function ReleaseAll(f: Frames, pages: seq<nat>): Frames {
    if pages == [] then f else Release(ReleaseAll(f, pages[..|pages| - 1]), pages[|pages| - 1])
  }


  /** Releasing distinct releasable pages frees exactly them, each once. */
  lemma {:induction false} ReleaseAllIs(f: Frames, pages: seq<nat>)
    requires f.Valid() && Distinct(pages) && forall i :: 0 <= i < |pages| ==> f.Releasable(pages[i])
    ensures var f' := ReleaseAll(f, pages);
            && f'.Valid() && |f'.used| == |f.used| && f'.pinned == f.pinned
            && (forall p :: 0 <= p < |f.used| ==> f'.used[p] == (f.used[p] && p !in pages))
            && Count(f'.used) + |pages| == Count(f.used)
  {
    if pages != [] {
      var front, last := pages[..|pages| - 1], pages[|pages| - 1];
      ReleaseAllIs(f, front);
      var g := ReleaseAll(f, front);
      forall i | 0 <= i < |front| ensures front[i] != last { assert front[i] == pages[i]; }
      assert g.Releasable(last);
      CountFlip(g.used, last, false);
      assert pages == front + [last];
    }
  }

  lemma {:induction false} ReleaseAllConcat(f: Frames, xs: seq<nat>, ys: seq<nat>)
    ensures ReleaseAll(f, xs + ys) == ReleaseAll(ReleaseAll(f, xs), ys)
  {
    if ys == [] {
      assert xs + ys == xs;
    } else {
      var front := ys[..|ys| - 1];
      ReleaseAllConcat(f, xs, front);
      assert (xs + ys)[..|xs + ys| - 1] == xs + front;
    }
  }

  // ---- the allocator at work ------------------------------------------------

  /** An entry of the boot memory map, in pages. */
  datatype Region = Region(kind: int, start: nat, pages: nat)

  predicate Usable(r: Region) { r.kind == 7 || r.kind == 4 || r.kind == 3 }

  predicate Covers(r: Region, page: nat) { r.start <= page < r.start + r.pages }

  class PageAllocator {
    const highest: nat            // g_pmm_highest_page
    const used: array<bool>       // g_pmm_bitmap
    const pinned: array<bool>     // g_pmm_pinned
    var usedPages: nat            // g_pmm_used_pages

    ghost predicate Valid()
      reads this, used, pinned
    {
      && used != pinned && used.Length == pinned.Length == highest && State().Valid() && usedPages == Count(used[..])
    }

    ghost function State(): Frames
      reads this, used, pinned
    {
      Frames(used[..], pinned[..])
    }

    /** PmmInit on a memory map that ends at page `top`: only the usable regions are free,
        and of those neither the reserved ones nor page 0. */
    constructor (memoryMap: seq<Region>, reserved: seq<Region>, top: nat)
      requires 1 <= top && forall r :: r in memoryMap && Usable(r) ==> r.start + r.pages <= top
      ensures Valid() && fresh(used) && fresh(pinned) && highest == top
      ensures forall p :: 0 <= p < top ==>
                !pinned[p]
                && (used[p] <==> p == 0 || (exists r :: r in reserved && Covers(r, p))
                                 || !(exists r :: r in memoryMap && Usable(r) && Covers(r, p)))
    {
      highest := top;
      used := new bool[top](i => true);
      pinned := new bool[top](i => false);
      usedPages := top;
      new;
      CountAll(used[..]);
      FreeUsable(memoryMap);
      MarkReserved(reserved);
      if !used[0] {
        CountFlip(used[..], 0, true);
        ghost var was := used[..];
        used[0] := true;
        assert used[..] == was[0 := true];
        usedPages := usedPages + 1;
      }
    }

    method FreeUsable(memoryMap: seq<Region>)
      requires used.Length == highest && used != pinned && usedPages == Count(used[..])
      requires forall p :: 0 <= p < highest ==> used[p]
      modifies this`usedPages, used
      ensures usedPages == Count(used[..])
      ensures forall p :: 0 <= p < highest ==> (used[p] <==> !(exists r :: r in memoryMap && Usable(r) && Covers(r, p)))
    {
      var i := 0;
      while i < |memoryMap|
        invariant i <= |memoryMap| && usedPages == Count(used[..])
        invariant forall p :: 0 <= p < highest ==> (used[p] <==> !(exists r :: r in memoryMap[..i] && Usable(r) && Covers(r, p)))
      {
        if Usable(memoryMap[i]) {
          SetPages(memoryMap[i], false);
        }
        assert memoryMap[..i + 1] == memoryMap[..i] + [memoryMap[i]];
        i := i + 1;
      }
      assert memoryMap[..i] == memoryMap;
    }

    method MarkReserved(reserved: seq<Region>)
      requires used.Length == highest && used != pinned && usedPages == Count(used[..])
      modifies this`usedPages, used
      ensures usedPages == Count(used[..])
      ensures forall p :: 0 <= p < highest ==> (used[p] <==> old(used[p]) || (exists r :: r in reserved && Covers(r, p)))
    {
      var i := 0;
      while i < |reserved|
        invariant i <= |reserved| && usedPages == Count(used[..])
        invariant forall p :: 0 <= p < highest ==> (used[p] <==> old(used[p]) || (exists r :: r in reserved[..i] && Covers(r, p)))
      {
        SetPages(reserved[i], true);
        assert reserved[..i + 1] == reserved[..i] + [reserved[i]];
        i := i + 1;
      }
      assert reserved[..i] == reserved;
    }

    /** The loops of PmmInit and PmmMarkRegionUsed: gives every page of a region the bit
        `b`, counting the changes. */
    method SetPages(r: Region, b: bool)
      requires used.Length == highest && used != pinned && usedPages == Count(used[..])
      modifies this`usedPages, used
      ensures usedPages == Count(used[..])
      ensures forall p :: 0 <= p < highest ==> used[p] == if Covers(r, p) then b else old(used[p])
    {
      var j := r.start;
      while j < r.start + r.pages && j < highest
        invariant r.start <= j <= r.start + r.pages && usedPages == Count(used[..])
        invariant forall p :: 0 <= p < highest ==> used[p] == if r.start <= p < j then b else old(used[p])
      {
        if used[j] != b {
          CountFlip(used[..], j, b);
          ghost var was := used[..];
          used[j] := b;
          assert used[..] == was[j := b];
          usedPages := if b then usedPages + 1 else usedPages - 1;
        }
        j := j + 1;
      }
    }

    /** PmmAllocPage: the lowest free page, or 0. */
    method AllocPage() returns (page: nat)
      requires Valid()
      modifies this`usedPages, used
      ensures Valid()
      ensures page == 0 <==> forall i :: 0 <= i < highest ==> old(used[i])
      ensures page == 0 ==> State() == old(State())
      ensures page != 0 ==>
                && page < highest && old(State()).Free(page) && State() == Take(old(State()), page, 1)
                && forall i :: 0 <= i < page ==> old(used[i])
    {
      var i := 0;
      while i < highest
        invariant i <= highest && forall k :: 0 <= k < i ==> used[k]
      {
        if !used[i] {
          CountFlip(used[..], i, true);
          ghost var was := used[..];
          used[i] := true;
          assert used[..] == was[i := true] == SetRange(was, i, i + 1);
          usedPages := usedPages + 1;
          return i;
        }
        i := i + 1;
      }
      page := 0;
    }

    /** PmmAllocPages: the lowest run of `count` free pages, or 0. */
    method AllocPages(count: nat) returns (page: nat)
      requires Valid()
      modifies this`usedPages, used
      ensures Valid()
      ensures page == 0 ==> State() == old(State())
      ensures page == 0 <==> count == 0 || forall p :: 0 <= p ==> !FreeRun(old(State()), p, count)
      ensures page != 0 ==>
                && FreeRun(old(State()), page, count) && State() == Take(old(State()), page, count)
                && forall p :: 0 <= p < page ==> !FreeRun(old(State()), p, count)
    {
      if count == 0 { return 0; }
      if count == 1 {
        page := AllocPage();
        ghost var f := old(State());
        if page != 0 { assert FreeRun(f, page, 1); }
        forall p | 0 <= p && (page == 0 || p < page) ensures !FreeRun(f, p, 1) {
          if p < highest { assert f.used[p]; }
        }
        return;
      }
      ghost var f := State();
      var found, start, i := 0, 0, 0;
      while i < highest
        invariant i <= highest && State() == f && Valid() && found < count && found <= i
        invariant found != 0 ==> start == i - found && forall k :: start <= k < i ==> !used[k]
        invariant forall p :: 0 <= p < i - found ==> !FreeRun(f, p, count)
      {
        if !used[i] {
          if found == 0 { start := i; }
          found := found + 1;
          if found == count {
            MarkRun(start, count);
            assert FreeRun(f, start, count);
            assert start != 0;
            return start;
          }
        } else {
          forall p | 0 <= p < i + 1 ensures !FreeRun(f, p, count) {
            if i - found <= p { assert f.used[i] && p <= i; }
          }
          found := 0;
        }
        i := i + 1;
      }
      forall p | 0 <= p ensures !FreeRun(f, p, count) {
        if highest - found <= p { assert highest < p + count; }
      }
      page := 0;
    }

    method MarkRun(start: nat, count: nat)
      requires Valid() && FreeRun(State(), start, count)
      modifies this`usedPages, used
      ensures Valid() && State() == Take(old(State()), start, count)
    {
      hide Count;
      ghost var was := used[..];
      CountRange(was, start, start + count);
      var j := start;
      while j < start + count
        invariant start <= j <= start + count && used[..] == SetRange(was, start, j) && usedPages == old(usedPages)
      {
        used[j] := true;
        j := j + 1;
      }
      usedPages := usedPages + count;
    }

    /** PmmFreePage; the boundary page `highest` itself is not passed in. */
    method FreePage(page: nat)
      requires Valid() && page != highest
      modifies this`usedPages, used
      ensures Valid() && State() == Release(old(State()), page)
    {
      if page == 0 { return; }
      if page > highest { return; }
      if pinned[page] { return; }
      if !used[page] { return; }
      CountFlip(used[..], page, false);
      ghost var was := used[..];
      CountPositive(was, page);
      used[page] := false;
      assert used[..] == was[page := false];
      usedPages := usedPages - 1;
    }

    /** PmmPinPage. */
    method PinPage(page: nat)
      requires Valid()
      modifies pinned
      ensures Valid() && State() == Pin(old(State()), page)
    {
      if page == 0 { return; }
      if page >= highest { return; }
      pinned[page] := true;
      assert pinned[..] == old(pinned[..])[page := true];
    }

    /** PmmIsPageTracked. */
    function IsTracked(page: nat): bool { page < highest }
  }
}
