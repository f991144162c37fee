/** Two quicksorts and a binary search over a caller's array, for any total preorder. */
module Sorting {

  /** The comparison is a total preorder, as the C standard asks of it. */
  ghost predicate TotalPreorder<T(!new)>(cmp: (T, T) -> int) {
    && (forall x, y :: cmp(x, y) < 0 <==> cmp(y, x) > 0)
    && (forall x, y, z :: cmp(x, y) <= 0 && cmp(y, z) <= 0 ==> cmp(x, z) <= 0)
  }

  ghost predicate Sorted<T>(s: seq<T>, cmp: (T, T) -> int) {
    forall i, j :: 0 <= i < j < |s| ==> cmp(s[i], s[j]) <= 0
  }

  ghost predicate AllBelow<T>(s: seq<T>, v: T, cmp: (T, T) -> int) { forall i :: 0 <= i < |s| ==> cmp(s[i], v) <= 0 }
  ghost predicate AllAbove<T>(s: seq<T>, v: T, cmp: (T, T) -> int) { forall i :: 0 <= i < |s| ==> cmp(v, s[i]) <= 0 }

  ghost predicate Perm<T>(s: seq<T>, t: seq<T>) { multiset(s) == multiset(t) }

  lemma Reflexive<T(!new)>(x: T, cmp: (T, T) -> int)
    requires TotalPreorder(cmp)
    ensures cmp(x, x) == 0
  {
  }

  lemma SwapPerm<T>(s: seq<T>, i: nat, j: nat)
    requires i < |s| && j < |s|
    ensures Perm(s, s[i := s[j]][j := s[i]])
  {
  }

  lemma PermBelow<T>(s: seq<T>, t: seq<T>, v: T, cmp: (T, T) -> int)
    requires Perm(s, t) && AllBelow(s, v, cmp)
    ensures AllBelow(t, v, cmp)
  {
    forall i | 0 <= i < |t| ensures cmp(t[i], v) <= 0 {
      assert t[i] in multiset(s);
      assert t[i] in s;
    }
  }

  lemma PermAbove<T>(s: seq<T>, t: seq<T>, v: T, cmp: (T, T) -> int)
    requires Perm(s, t) && AllAbove(s, v, cmp)
    ensures AllAbove(t, v, cmp)
  {
    forall i | 0 <= i < |t| ensures cmp(v, t[i]) <= 0 {
      assert t[i] in multiset(s);
      assert t[i] in s;
    }
  }

  /** Sorted parts on either side of a value, put together. */
  lemma SortedParts<T(!new)>(s: seq<T>, t: seq<T>, v: T, cmp: (T, T) -> int)
    requires TotalPreorder(cmp) && Sorted(s, cmp) && Sorted(t, cmp) && AllBelow(s, v, cmp) && AllAbove(t, v, cmp)
    ensures Sorted(s + t, cmp)
  {
    var u := s + t;
    forall i, j | 0 <= i < j < |u| ensures cmp(u[i], u[j]) <= 0 {
      if i < |s| <= j {
        assert cmp(s[i], v) <= 0 && cmp(v, t[j - |s|]) <= 0;
      }
    }
  }

  /** The elements a sort works on, and the rest of the array. */
  ghost predicate OnlyInside<T>(was: seq<T>, now: seq<T>, base: nat, num: nat) {
    && |now| == |was| && base + num <= |was|
    && now[..base] == was[..base] && now[base + num..] == was[base + num..]
    && Perm(was[base..base + num], now[base..base + num])
  }

  lemma OnlyInsideTwice<T>(a: seq<T>, b: seq<T>, c: seq<T>, base: nat, num: nat)
    requires OnlyInside(a, b, base, num) && OnlyInside(b, c, base, num)
    ensures OnlyInside(a, c, base, num)
  {
  }

  /** Changing a part of the range changes the range only. */
  lemma OnlyInsidePart<T>(a: seq<T>, b: seq<T>, base: nat, num: nat, lo: nat, n: nat)
    requires base + num <= |a| && base <= lo && lo + n <= base + num && OnlyInside(a, b, lo, n)
    ensures OnlyInside(a, b, base, num)
  {
    InsideSize(a, b, lo, n);
    hide OnlyInside, Perm;
    KeptBelow(a, b, lo, n, 0, base);
    KeptAbove(a, b, lo, n, base + num, |a| - (base + num));
    RangePerm(a, b, base, num, lo, n);
    MakeInside(a, b, base, num);
  }

  lemma MakeInside<T>(a: seq<T>, b: seq<T>, base: nat, num: nat)
    requires base + num <= |a| && |b| == |a| && b[0..base] == a[0..base] && Perm(a[base..base + num], b[base..base + num])
    requires b[base + num..base + num + (|a| - (base + num))] == a[base + num..base + num + (|a| - (base + num))]
    ensures OnlyInside(a, b, base, num)
  {
    hide Perm;
    assert a[..base] == a[0..base] && b[..base] == b[0..base];
    assert a[base + num..] == a[base + num..|a|] && b[base + num..] == b[base + num..|a|];
  }

  lemma RangePerm<T>(a: seq<T>, b: seq<T>, base: nat, num: nat, lo: nat, n: nat)
    requires base + num <= |a| == |b| && base <= lo && lo + n <= base + num && OnlyInside(a, b, lo, n)
    ensures Perm(a[base..base + num], b[base..base + num])
  {
    PartsPerm(a, b, lo, n);
    hide OnlyInside, Perm;
    KeptBelow(a, b, lo, n, base, lo - base);
    KeptAbove(a, b, lo, n, lo + n, base + num - (lo + n));
    CutMiddle(a, base, num, lo, n);
    CutMiddle(b, base, num, lo, n);
    assert lo + n + (base + num - (lo + n)) == base + num && base + (lo - base) == lo;
    PermAround(a[base..lo], a[lo..lo + n], b[lo..lo + n], a[lo + n..base + num]);
  }

  lemma CutMiddle<T>(s: seq<T>, base: nat, num: nat, lo: nat, n: nat)
    requires base + num <= |s| && base <= lo && lo + n <= base + num
    ensures s[base..base + num] == s[base..lo] + s[lo..lo + n] + s[lo + n..base + num]
  {
  }

  lemma PermAround<T>(x: seq<T>, m: seq<T>, m': seq<T>, z: seq<T>)
    requires Perm(m, m')
    ensures Perm(x + m + z, x + m' + z)
  {
  }

  /** What lies below, or above, a changed range is as before. */
  lemma KeptBelow<T>(a: seq<T>, b: seq<T>, lo: nat, n: nat, from: nat, m: nat)
    requires OnlyInside(a, b, lo, n) && from + m <= lo
    ensures from + m <= |a| && from + m <= |b| && b[from..from + m] == a[from..from + m]
    ensures m == 1 ==> b[from] == a[from]
  {
    forall x | from <= x < from + m ensures b[x] == a[x] { assert b[x] == b[..lo][x] && a[x] == a[..lo][x]; }
  }

  lemma KeptAbove<T>(a: seq<T>, b: seq<T>, lo: nat, n: nat, from: nat, m: nat)
    requires OnlyInside(a, b, lo, n) && lo + n <= from && from + m <= |a|
    ensures from + m <= |b| && b[from..from + m] == a[from..from + m]
    ensures m == 1 ==> b[from] == a[from]
  {
    forall x | from <= x < from + m ensures b[x] == a[x] {
      assert b[x] == b[lo + n..][x - (lo + n)] && a[x] == a[lo + n..][x - (lo + n)];
    }
  }

  /** A swap inside the range. */
  lemma SwapInside<T>(a: seq<T>, base: nat, num: nat, i: nat, j: nat)
    requires base + num <= |a| && i < num && j < num
    ensures var b, s := a[base + i := a[base + j]][base + j := a[base + i]], a[base..base + num];
            OnlyInside(a, b, base, num) && b[base..base + num] == s[i := s[j]][j := s[i]]
  {
    var b, s := a[base + i := a[base + j]][base + j := a[base + i]], a[base..base + num];
    assert b[base..base + num] == s[i := s[j]][j := s[i]];
    SwapPerm(s, i, j);
  }

  /** qsort_swap, swap_bytes. */
  method Swap<T>(a: array<T>, x: nat, y: nat)
    requires x < a.Length && y < a.Length
    modifies a
    ensures a[..] == old(a[..])[x := old(a[..])[y]][y := old(a[..])[x]]
  {
    a[x], a[y] := a[y], a[x];
  }

  /** Exchanges two elements of the range. */
  method Exchange<T>(a: array<T>, base: nat, num: nat, i: nat, j: nat, ghost start: seq<T>)
    requires base + num <= a.Length && i < num && j < num && OnlyInside(start, a[..], base, num)
    modifies a
    ensures OnlyInside(start, a[..], base, num)
    ensures var s := old(a[base..base + num]); a[base..base + num] == s[i := s[j]][j := s[i]]
  {
    hide OnlyInside;
    ghost var before := a[..];
    SwapInside(before, base, num, i, j);
    Swap(a, base + i, base + j);
    OnlyInsideTwice(start, before, a[..], base, num);
    assert a[base..base + num] == a[..][base..base + num] && before[base..base + num] == old(a[base..base + num]);
  }

  lemma At<T>(a: array<T>, base: nat, num: nat, i: nat)
    requires base + num <= a.Length && i < num
    ensures a[base..base + num][i] == a[base + i]
  {
  }

  // ---- the Hoare partition with a moving pivot ---------------------------------

  /** What the partition of `s` around `v` has done: the scans stand at `i` and `j`, the pivot
      at `p`, and at `up` and `down` there are elements that stop them. */
  ghost predicate Scanning<T>(s: seq<T>, cmp: (T, T) -> int, v: T, p: nat, i: nat, j: nat, up: nat, down: nat)
    ensures Scanning(s, cmp, v, p, i, j, up, down) ==> j < |s| && p < |s| && s[p] == v && i <= up < |s| && down <= j
  {
    && j < |s| && p < |s| && s[p] == v
    && i <= up < |s| && cmp(v, s[up]) <= 0
    && down <= j && cmp(s[down], v) <= 0
    && AllBelow(s[..i], v, cmp) && AllAbove(s[j + 1..], v, cmp)
  }

  /** The upward scan: skips elements below the pivot. */
  method ScanUp<T(!new)>(a: array<T>, base: nat, num: nat, p: nat, from: nat, cmp: (T, T) -> int, ghost j: nat, ghost up: nat, ghost down: nat)
    returns (i: nat)
    requires TotalPreorder(cmp) && base + num <= a.Length && p < num
    requires Scanning(a[base..base + num], cmp, a[base + p], p, from, j, up, down)
    ensures from <= i && Scanning(a[base..base + num], cmp, a[base + p], p, i, j, up, down)
    ensures cmp(a[base + p], a[base + i]) <= 0
  {
    hide TotalPreorder, AllBelow, AllAbove;
    i := from;
    ghost var s, v := a[base..base + num], a[base + p];
    while cmp(a[base + i], a[base + p]) < 0
      invariant from <= i <= up && AllBelow(s[..i], v, cmp)
      decreases up - i
    {
      At(a, base, num, i);
      Flip(a[base + i], v, cmp);
      BelowMore(s, i, v, cmp);
      i := i + 1;
    }
    Flip(a[base + i], v, cmp);
  }

  lemma Flip<T(!new)>(x: T, y: T, cmp: (T, T) -> int)
    requires TotalPreorder(cmp)
    ensures (cmp(x, y) < 0 <==> cmp(y, x) > 0) && (cmp(y, x) < 0 <==> cmp(x, y) > 0)
  {
  }

  lemma BelowMore<T>(s: seq<T>, i: nat, v: T, cmp: (T, T) -> int)
    requires i < |s| && AllBelow(s[..i], v, cmp) && cmp(s[i], v) <= 0
    ensures AllBelow(s[..i + 1], v, cmp)
  {
    assert s[..i + 1] == s[..i] + [s[i]];
  }

  lemma AboveMore<T>(s: seq<T>, j: nat, v: T, cmp: (T, T) -> int)
    requires j < |s| && AllAbove(s[j + 1..], v, cmp) && cmp(v, s[j]) <= 0
    ensures AllAbove(s[j..], v, cmp)
  {
    assert s[j..] == [s[j]] + s[j + 1..];
  }

  /** The downward scan: skips elements above the pivot. */
  method ScanDown<T(!new)>(a: array<T>, base: nat, num: nat, p: nat, from: nat, cmp: (T, T) -> int, ghost i: nat, ghost up: nat, ghost down: nat)
    returns (j: nat)
    requires TotalPreorder(cmp) && base + num <= a.Length && p < num
    requires Scanning(a[base..base + num], cmp, a[base + p], p, i, from, up, down)
    ensures j <= from && Scanning(a[base..base + num], cmp, a[base + p], p, i, j, up, down)
    ensures cmp(a[base + j], a[base + p]) <= 0
  {
    hide TotalPreorder, AllBelow, AllAbove;
    j := from;
    ghost var s, v := a[base..base + num], a[base + p];
    while cmp(a[base + j], a[base + p]) > 0
      invariant down <= j <= from && AllAbove(s[j + 1..], v, cmp)
      decreases j
    {
      At(a, base, num, j);
      Flip(a[base + j], v, cmp);
      AboveMore(s, j, v, cmp);
      j := j - 1;
    }
  }

  /** The step of the partition: a swap, the pivot followed, both scans moved on. */
  lemma Swapped<T(!new)>(s: seq<T>, cmp: (T, T) -> int, v: T, p: nat, i: nat, j: nat, up: nat, down: nat)
    requires TotalPreorder(cmp) && Scanning(s, cmp, v, p, i, j, up, down) && i < j
    requires cmp(v, s[i]) <= 0 && cmp(s[j], v) <= 0
    ensures Scanning(s[i := s[j]][j := s[i]], cmp, v, if p == i then j else if p == j then i else p, i + 1, j - 1, j, i)
  {
    var t := s[i := s[j]][j := s[i]];
    assert t[..i + 1] == s[..i] + [s[j]];
    assert t[j..] == [s[i]] + s[j + 1..];
  }

  lemma Split<T>(s: seq<T>, cmp: (T, T) -> int, v: T, p: nat, i: nat, j: nat, up: nat, down: nat)
    requires Scanning(s, cmp, v, p, i, j, up, down) && i >= j && cmp(v, s[i]) <= 0
    ensures AllBelow(s[..i], v, cmp) && AllAbove(s[i..], v, cmp)
  {
    forall k | 0 <= k < |s[i..]| ensures cmp(v, s[i..][k]) <= 0 {
      if i + k > j { assert s[i..][k] == s[j + 1..][i + k - (j + 1)]; }
    }
  }

  /** The partition of qsort on `num` elements from `base` on: both sides come out non-empty,
      and neither scan leaves the range. */
  method Partition<T(!new)>(a: array<T>, base: nat, num: nat, cmp: (T, T) -> int) returns (i: nat, ghost v: T)
    requires TotalPreorder(cmp) && base + num <= a.Length && 2 <= num
    modifies a
    ensures 0 < i < num && OnlyInside(old(a[..]), a[..], base, num)
    ensures AllBelow(a[base..base + num][..i], v, cmp) && AllAbove(a[base..base + num][i..], v, cmp)
  {
    hide TotalPreorder, AllBelow, AllAbove, OnlyInside, Scanning;
    var pivot: nat, j: nat := num / 2, num - 1;
    v := a[base + pivot];
    i := 0;
    Reflexive(v, cmp);
    StartScan(a[base..base + num], cmp, v, pivot);
    SelfInside(a[..], base, num);
    ghost var up, down, first := pivot, pivot, true;
    while true
      invariant OnlyInside(old(a[..]), a[..], base, num)
      invariant Scanning(a[base..base + num], cmp, v, pivot, i, j, up, down)
      invariant if first then up == down == pivot && 0 < pivot else 0 < i
      decreases if first then 1 else 0, j
    {
      At(a, base, num, pivot);
      i := ScanUp(a, base, num, pivot, i, cmp, j, up, down);
      j := ScanDown(a, base, num, pivot, j, cmp, i, up, down);
      ghost var s := a[base..base + num];
      At(a, base, num, i);
      At(a, base, num, j);
      if i >= j {
        Split(s, cmp, v, pivot, i, j, up, down);
        return;
      }
      Swapped(s, cmp, v, pivot, i, j, up, down);
      Exchange(a, base, num, i, j, old(a[..]));
      if pivot == i { pivot := j; } else if pivot == j { pivot := i; }
      up, down, first := j, i, false;
      i, j := i + 1, j - 1;
    }
  }

  lemma StartScan<T>(s: seq<T>, cmp: (T, T) -> int, v: T, p: nat)
    requires p < |s| && s[p] == v && cmp(v, v) == 0
    ensures Scanning(s, cmp, v, p, 0, |s| - 1, p, p)
  {
  }

  lemma SelfInside<T>(s: seq<T>, base: nat, num: nat)
    requires base + num <= |s|
    ensures OnlyInside(s, s, base, num)
  {
  }

  /** qsort: the range sorted, everything else untouched. */
  method HoareSort<T(!new)>(a: array<T>, base: nat, num: nat, cmp: (T, T) -> int)
    requires TotalPreorder(cmp) && base + num <= a.Length
    modifies a
    ensures Sorted(a[base..base + num], cmp) && OnlyInside(old(a[..]), a[..], base, num)
    decreases num
  {
    hide TotalPreorder, AllBelow, AllAbove, OnlyInside;
    if num < 2 {
      SelfInside(a[..], base, num);
      return;
    }
    ghost var a0 := a[..];
    ghost var v;
    var i;
    i, v := Partition(a, base, num, cmp);
    ghost var a1 := a[..];
    HoareSort(a, base, i, cmp);
    ghost var a2 := a[..];
    HoareSort(a, base + i, num - i, cmp);
    BothSorted(a0, a1, a2, a[..], base, num, i, i, v, cmp);
    assert a[base..base + num] == a[..][base..base + num];
  }

  /** Sorting both sides of a partition sorts the whole. The sides may leave out a middle
      element that is the pivot itself. */
  lemma BothSorted<T(!new)>(a0: seq<T>, a1: seq<T>, a2: seq<T>, a3: seq<T>, base: nat, num: nat, i: nat, k: nat, v: T, cmp: (T, T) -> int)
    requires TotalPreorder(cmp) && base + num <= |a0| && i <= k <= i + 1 && k <= num
    requires OnlyInside(a0, a1, base, num) && OnlyInside(a1, a2, base, i) && OnlyInside(a2, a3, base + k, num - k)
    requires AllBelow(a1[base..base + num][..i], v, cmp) && AllAbove(a1[base..base + num][i..], v, cmp)
    requires k == i + 1 ==> a1[base + i] == v
    requires Sorted(a2[base..base + i], cmp) && Sorted(a3[base + k..base + num], cmp)
    ensures Sorted(a3[base..base + num], cmp) && OnlyInside(a0, a3, base, num)
  {
    hide TotalPreorder, OnlyInside, Sorted, AllBelow, AllAbove, Perm;
    BothInside(a0, a1, a2, a3, base, num, i, k);
    LeftPart(a1, a2, a3, base, num, i, k, v, cmp);
    RightPart(a1, a2, a3, base, num, i, k, v, cmp);
    if k == i {
      SortedParts(a3[base..base + i], a3[base + i..base + num], v, cmp);
      CutTwo(a3, base, num, i);
    } else {
      KeptBelow(a2, a3, base + k, num - k, base + i, 1);
      KeptAbove(a1, a2, base, i, base + i, 1);
      Middle(a3[base..base + i], a3[base + (i + 1)..base + num], v, cmp);
      CutThree(a3, base, num, i);
    }
  }

  lemma LeftPart<T(!new)>(a1: seq<T>, a2: seq<T>, a3: seq<T>, base: nat, num: nat, i: nat, k: nat, v: T, cmp: (T, T) -> int)
    requires |a1| == |a2| == |a3| && base + num <= |a1| && i <= k <= num
    requires OnlyInside(a1, a2, base, i) && OnlyInside(a2, a3, base + k, num - k)
    requires AllBelow(a1[base..base + num][..i], v, cmp) && Sorted(a2[base..base + i], cmp)
    ensures AllBelow(a3[base..base + i], v, cmp) && Sorted(a3[base..base + i], cmp)
  {
    hide OnlyInside, Sorted, AllBelow, Perm;
    KeptBelow(a2, a3, base + k, num - k, base, i);
    PartsPerm(a1, a2, base, i);
    assert a1[base..base + num][..i] == a1[base..base + i];
    PermBelow(a1[base..base + i], a2[base..base + i], v, cmp);
  }

  lemma RightPart<T(!new)>(a1: seq<T>, a2: seq<T>, a3: seq<T>, base: nat, num: nat, i: nat, k: nat, v: T, cmp: (T, T) -> int)
    requires |a1| == |a2| == |a3| && base + num <= |a1| && i <= k <= num
    requires OnlyInside(a1, a2, base, i) && OnlyInside(a2, a3, base + k, num - k)
    requires AllAbove(a1[base..base + num][i..], v, cmp)
    ensures AllAbove(a3[base + k..base + num], v, cmp)
  {
    hide OnlyInside, Perm;
    KeptAbove(a1, a2, base, i, base + k, num - k);
    PartsPerm(a2, a3, base + k, num - k);
    assert base + k + (num - k) == base + num;
    AboveTail(a1, base, num, i, k, v, cmp);
    PermAbove(a1[base + k..base + num], a3[base + k..base + num], v, cmp);
  }

  lemma AboveTail<T>(s: seq<T>, base: nat, num: nat, i: nat, k: nat, v: T, cmp: (T, T) -> int)
    requires base + num <= |s| && i <= k <= num && AllAbove(s[base..base + num][i..], v, cmp)
    ensures AllAbove(s[base + k..base + num], v, cmp)
  {
    var t, u := s[base + k..base + num], s[base..base + num][i..];
    forall x | 0 <= x < |t| ensures cmp(v, t[x]) <= 0 {
      assert t[x] == u[k - i + x];
    }
  }

  lemma BothInside<T>(a0: seq<T>, a1: seq<T>, a2: seq<T>, a3: seq<T>, base: nat, num: nat, i: nat, k: nat)
    requires base + num <= |a0| && i <= k <= num
    requires OnlyInside(a0, a1, base, num) && OnlyInside(a1, a2, base, i) && OnlyInside(a2, a3, base + k, num - k)
    ensures OnlyInside(a0, a3, base, num)
    ensures |a1| == |a0| && |a2| == |a0| && |a3| == |a0|
  {
    InsideSize(a0, a1, base, num);
    InsideSize(a1, a2, base, i);
    InsideSize(a2, a3, base + k, num - k);
    hide OnlyInside;
    OnlyInsidePart(a1, a2, base, num, base, i);
    OnlyInsidePart(a2, a3, base, num, base + k, num - k);
    OnlyInsideTwice(a0, a1, a2, base, num);
    OnlyInsideTwice(a0, a2, a3, base, num);
  }

  lemma InsideSize<T>(a: seq<T>, b: seq<T>, base: nat, num: nat)
    requires OnlyInside(a, b, base, num)
    ensures |a| == |b|
  {
  }

  lemma CutTwo<T>(s: seq<T>, base: nat, num: nat, i: nat)
    requires i <= num && base + num <= |s|
    ensures s[base..base + num] == s[base..base + i] + s[base + i..base + num]
  {
  }

  lemma CutThree<T>(s: seq<T>, base: nat, num: nat, i: nat)
    requires i < num && base + num <= |s|
    ensures s[base..base + num] == s[base..base + i] + ([s[base + i]] + s[base + (i + 1)..base + num])
  {
  }

  lemma PartsPerm<T>(a: seq<T>, b: seq<T>, lo: nat, n: nat)
    requires OnlyInside(a, b, lo, n)
    ensures lo + n <= |a| && lo + n <= |b| && Perm(a[lo..lo + n], b[lo..lo + n])
  {
  }

  lemma Middle<T(!new)>(l: seq<T>, r: seq<T>, v: T, cmp: (T, T) -> int)
    requires TotalPreorder(cmp) && Sorted(l, cmp) && Sorted(r, cmp) && AllBelow(l, v, cmp) && AllAbove(r, v, cmp)
    ensures Sorted(l + ([v] + r), cmp)
  {
    Reflexive(v, cmp);
    SortedParts([v], r, v, cmp);
    SortedParts(l, [v] + r, v, cmp);
  }

  // ---- the Lomuto partition ------------------------------------------------------

  /** The loop of the C runtime's qsort: elements below `i` are less than the last one, the
      scanned rest are not. */
  method LomutoPartition<T(!new)>(a: array<T>, base: nat, num: nat, cmp: (T, T) -> int) returns (i: nat, ghost v: T)
    requires TotalPreorder(cmp) && base + num <= a.Length && 2 <= num
    modifies a
    ensures i < num && OnlyInside(old(a[..]), a[..], base, num) && a[base + i] == v
    ensures AllBelow(a[base..base + num][..i], v, cmp) && AllAbove(a[base..base + num][i..], v, cmp)
  {
    hide TotalPreorder, OnlyInside, AllBelow, AllAbove;
    var pivot := num - 1;
    v := a[base + pivot];
    i := 0;
    SelfInside(a[..], base, num);
    NothingYet(v, cmp);
    var j := 0;
    assert a[base..base + num][..0] == [] && a[base..base + num][0..0] == [];
    while j < num - 1
      invariant i <= j <= num - 1 && OnlyInside(old(a[..]), a[..], base, num) && a[base..base + num][num - 1] == v
      invariant AllBelow(a[base..base + num][..i], v, cmp) && AllAbove(a[base..base + num][i..j], v, cmp)
    {
      ghost var s := a[base..base + num];
      At(a, base, num, j);
      At(a, base, num, num - 1);
      if cmp(a[base + j], a[base + pivot]) < 0 {
        Exchange(a, base, num, i, j, old(a[..]));
        SmallerMoved(s, a[base..base + num], i, j, v, cmp);
        i := i + 1;
      } else {
        LargerStays(s, i, j, v, cmp);
      }
      j := j + 1;
    }
    ghost var s := a[base..base + num];
    Exchange(a, base, num, i, pivot, old(a[..]));
    PivotPlaced(s, a[base..base + num], i, v, cmp);
    At(a, base, num, i);
  }

  lemma NothingYet<T>(v: T, cmp: (T, T) -> int)
    ensures AllBelow([], v, cmp) && AllAbove([], v, cmp)
  {
  }

  lemma SmallerMoved<T(!new)>(s: seq<T>, t: seq<T>, i: nat, j: nat, v: T, cmp: (T, T) -> int)
    requires i <= j < |s| && t == s[i := s[j]][j := s[i]] && cmp(s[j], v) < 0
    requires AllBelow(s[..i], v, cmp) && AllAbove(s[i..j], v, cmp)
    ensures AllBelow(t[..i + 1], v, cmp) && AllAbove(t[i + 1..j + 1], v, cmp)
  {
    assert t[..i + 1] == s[..i] + [s[j]];
    if i < j { assert t[i + 1..j + 1] == s[i..j][1..] + [s[i..j][0]]; }
  }

  lemma LargerStays<T(!new)>(s: seq<T>, i: nat, j: nat, v: T, cmp: (T, T) -> int)
    requires TotalPreorder(cmp) && i <= j < |s| && cmp(s[j], v) >= 0 && AllAbove(s[i..j], v, cmp)
    ensures AllAbove(s[i..j + 1], v, cmp)
  {
    assert s[i..j + 1] == s[i..j] + [s[j]];
  }

  lemma PivotPlaced<T(!new)>(s: seq<T>, t: seq<T>, i: nat, v: T, cmp: (T, T) -> int)
    requires TotalPreorder(cmp) && i < |s| && s[|s| - 1] == v && t == s[i := v][|s| - 1 := s[i]]
    requires AllBelow(s[..i], v, cmp) && AllAbove(s[i..|s| - 1], v, cmp)
    ensures AllBelow(t[..i], v, cmp) && AllAbove(t[i..], v, cmp) && t[i] == v
  {
    Reflexive(v, cmp);
    assert t[..i] == s[..i];
    forall k | 0 <= k < |t[i..]| ensures cmp(v, t[i..][k]) <= 0 {
      if 0 < k < |s| - 1 - i { assert t[i..][k] == s[i..|s| - 1][k]; }
      if k == |s| - 1 - i && k > 0 { assert t[i..][k] == s[i..|s| - 1][0]; }
    }
  }

  /** The C runtime's qsort. */
  method LomutoSort<T(!new)>(a: array<T>, base: nat, num: nat, cmp: (T, T) -> int)
    requires TotalPreorder(cmp) && base + num <= a.Length
    modifies a
    ensures Sorted(a[base..base + num], cmp) && OnlyInside(old(a[..]), a[..], base, num)
    decreases num
  {
    hide TotalPreorder, AllBelow, AllAbove, OnlyInside;
    if num <= 1 {
      SelfInside(a[..], base, num);
      return;
    }
    ghost var a0 := a[..];
    ghost var v;
    var i;
    i, v := LomutoPartition(a, base, num, cmp);
    ghost var a1 := a[..];
    LomutoSort(a, base, i, cmp);
    ghost var a2 := a[..];
    LomutoSort(a, base + (i + 1), num - i - 1, cmp);
    BothSorted(a0, a1, a2, a[..], base, num, i, i + 1, v, cmp);
    assert a[base..base + num] == a[..][base..base + num];
  }

  // ---- bsearch ---------------------------------------------------------------------

  /** bsearch: an element equal to the key if and only if there is one. */
  method BinarySearch<T(!new)>(key: T, a: array<T>, cmp: (T, T) -> int) returns (found: bool, at: nat)
    requires TotalPreorder(cmp) && Sorted(a[..], cmp)
    ensures found ==> at < a.Length && cmp(key, a[at]) == 0
    ensures found <==> exists k :: 0 <= k < a.Length && cmp(key, a[k]) == 0
  {
    found, at := false, 0;
    var lo, hi := 0, a.Length;
    while lo < hi
      invariant 0 <= lo <= hi <= a.Length && !found
      invariant forall k :: 0 <= k < lo ==> cmp(key, a[k]) > 0
      invariant forall k :: hi <= k < a.Length ==> cmp(key, a[k]) < 0
    {
      var mid := lo + (hi - lo) / 2;
      var r := cmp(key, a[mid]);
      if r == 0 { return true, mid; }
      if r < 0 {
        forall k | mid <= k < a.Length ensures cmp(key, a[k]) < 0 { LessStays(a[..], cmp, key, mid, k); }
        hi := mid;
      } else {
        forall k | 0 <= k <= mid ensures cmp(key, a[k]) > 0 { MoreStays(a[..], cmp, key, k, mid); }
        lo := mid + 1;
      }
    }
  }

  lemma LessStays<T(!new)>(s: seq<T>, cmp: (T, T) -> int, key: T, i: nat, k: nat)
    requires TotalPreorder(cmp) && Sorted(s, cmp) && i <= k < |s| && cmp(key, s[i]) < 0
    ensures cmp(key, s[k]) < 0
  {
    if i < k { assert cmp(s[i], s[k]) <= 0; }
  }

  lemma MoreStays<T(!new)>(s: seq<T>, cmp: (T, T) -> int, key: T, k: nat, i: nat)
    requires TotalPreorder(cmp) && Sorted(s, cmp) && k <= i < |s| && cmp(key, s[i]) > 0
    ensures cmp(key, s[k]) > 0
  {
    if k < i { assert cmp(s[k], s[i]) <= 0; }
  }
}
