/** The file allocation table as a plain sequence of entries: reachability,
    cluster chains, forests of disjoint chains, and free space. */
module FatChains {

  type Fat = seq<nat>

  /** Every data entry is free, an in-range successor, or an end-of-chain mark
      (or the reserved value 1). */
  ghost predicate InRange(fat: Fat, eof: nat) {
    && 2 <= |fat| <= eof
    && forall c :: 2 <= c < |fat| ==> fat[c] < |fat| || eof <= fat[c]
  }

  ghost predicate IsCluster(fat: Fat, c: nat) { 2 <= c < |fat| }

  ghost function Clusters(fat: Fat): set<nat> { set c: nat | c < |fat| && IsCluster(fat, c) }

  /** `p` follows table entries from `a` to `b`. */
  ghost predicate Path(fat: Fat, p: seq<nat>, a: nat, b: nat) {
    && |p| >= 1 && p[0] == a && p[|p| - 1] == b
    && (forall i :: 0 <= i < |p| ==> IsCluster(fat, p[i]))
    && forall i :: 0 <= i < |p| - 1 ==> fat[p[i]] == p[i + 1]
  }

  ghost predicate Reaches(fat: Fat, a: nat, b: nat) {
    exists p :: Path(fat, p, a, b)
  }

  /** `cs` is a complete chain: linked in order and closed by an end mark. */
  ghost predicate Chain(fat: Fat, eof: nat, cs: seq<nat>) {
    && |cs| >= 1
    && (forall i :: 0 <= i < |cs| ==> IsCluster(fat, cs[i]))
    && (forall i :: 0 <= i < |cs| - 1 ==> fat[cs[i]] == cs[i + 1])
    && eof <= fat[cs[|cs| - 1]]
  }

  ghost predicate Disjoint(a: seq<nat>, b: seq<nat>) {
    forall i, j :: 0 <= i < |a| && 0 <= j < |b| ==> a[i] != b[j]
  }

  /** Complete chains that share no cluster. */
  ghost predicate Forest(fat: Fat, eof: nat, chains: set<seq<nat>>) {
    && (forall cs :: cs in chains ==> Chain(fat, eof, cs))
    && forall a, b :: a in chains && b in chains && a != b ==> Disjoint(a, b)
  }

  ghost function Elems(cs: seq<nat>): set<nat> { set c | c in cs }

  function FreeSet(fat: Fat): set<nat> {
    set c | 2 <= c < |fat| && fat[c] == 0
  }

  /** The table with exactly the clusters reachable from `a` set free. */
  ghost predicate FreedFrom(fat: Fat, fat': Fat, a: nat) {
    && |fat'| == |fat|
    && forall x :: 0 <= x < |fat| ==> fat'[x] == if Reaches(fat, a, x) then 0 else fat[x]
  }

  // ---- chains --------------------------------------------------------------

  /** A chain never visits a cluster twice, so it is acyclic. */
  lemma ChainDistinct(fat: Fat, eof: nat, cs: seq<nat>, i: nat, j: nat)
    requires |fat| <= eof && Chain(fat, eof, cs) && i < j < |cs|
    ensures cs[i] != cs[j]
    decreases |cs| - j
  {
    assert fat[cs[i]] == cs[i + 1] && IsCluster(fat, cs[i + 1]);
    if j < |cs| - 1 {
      ChainDistinct(fat, eof, cs, i + 1, j + 1);
    }
  }

  /** A chain is exactly what its head reaches. */
  lemma ChainReach(fat: Fat, eof: nat, cs: seq<nat>, x: nat)
    requires |fat| <= eof && Chain(fat, eof, cs)
    ensures Reaches(fat, cs[0], x) <==> x in cs
  {
    if x in cs {
      var i :| 0 <= i < |cs| && cs[i] == x;
      assert Path(fat, cs[..i + 1], cs[0], x);
    }
    if Reaches(fat, cs[0], x) {
      var p :| Path(fat, p, cs[0], x);
      PathFollows(fat, eof, cs, p, |p| - 1);
    }
  }

  lemma PathFollows(fat: Fat, eof: nat, cs: seq<nat>, p: seq<nat>, i: nat)
    requires |fat| <= eof && Chain(fat, eof, cs)
    requires i < |p| && Path(fat, p, cs[0], p[|p| - 1])
    ensures i < |cs| && p[i] == cs[i]
  {
    if i > 0 {
      PathFollows(fat, eof, cs, p, i - 1);
      assert fat[p[i - 1]] == p[i] && IsCluster(fat, p[i]);
    }
  }

  /** What the walk along a chain reads at position `i`. */
  lemma ChainNext(fat: Fat, eof: nat, cs: seq<nat>, i: nat)
    requires |fat| <= eof && Chain(fat, eof, cs) && i < |cs|
    ensures IsCluster(fat, cs[i])
    ensures i + 1 < |cs| ==> fat[cs[i]] == cs[i + 1] && 2 <= cs[i + 1] < eof
    ensures i + 1 == |cs| ==> eof <= fat[cs[i]]
  {
    assert i + 1 < |cs| ==> IsCluster(fat, cs[i + 1]);
  }

  // ---- freeing -------------------------------------------------------------

  lemma ReachStep(fat: Fat, a: nat, c: nat)
    requires Reaches(fat, a, c) && IsCluster(fat, fat[c])
    ensures Reaches(fat, a, fat[c])
  {
    var p :| Path(fat, p, a, c);
    assert Path(fat, p + [fat[c]], a, fat[c]);
  }

  /** A set holding `a` and closed under successors holds everything reachable. */
  lemma ClosedHoldsReach(fat: Fat, s: set<nat>, a: nat, x: nat)
    requires a in s && Reaches(fat, a, x)
    requires forall c :: c in s && IsCluster(fat, c) && IsCluster(fat, fat[c]) ==> fat[c] in s
    ensures x in s
  {
    var p :| Path(fat, p, a, x);
    var i := 0;
    while i < |p| - 1
      invariant 0 <= i < |p| && p[i] in s
    {
      assert fat[p[i]] == p[i + 1] && IsCluster(fat, p[i + 1]);
      i := i + 1;
    }
  }

  /** The state of a freeing walk from `a`: `freed` is behind it, `c` ahead. */
  ghost predicate FreeingSoFar(fat: Fat, now: Fat, a: nat, c: nat, freed: set<nat>) {
    && |now| == |fat|
    && (forall x :: 0 <= x < |fat| ==> now[x] == if x in freed then 0 else fat[x])
    && (forall x :: x in freed ==> Reaches(fat, a, x))
    && (IsCluster(fat, c) ==> Reaches(fat, a, c))
    && (a in freed || c == a)
    && forall x :: x in freed && IsCluster(fat, x) && IsCluster(fat, fat[x]) ==> fat[x] in freed || fat[x] == c
  }

  /** The next-fit scan from `start` that ends at `c` passed over `x`. */
  ghost predicate SkippedFrom(start: nat, c: nat, x: nat) {
    if start <= c then start <= x < c else start <= x || x < c
  }

  lemma FreeingStep(fat: Fat, now: Fat, eof: nat, a: nat, c: nat, freed: set<nat>)
    requires InRange(fat, eof) && FreeingSoFar(fat, now, a, c, freed) && IsCluster(fat, c)
    ensures 2 <= now[c] < eof ==> c !in freed && now[c] == fat[c] && IsCluster(fat, fat[c])
    ensures 2 <= now[c] < eof ==> FreeingSoFar(fat, now[c := 0], a, now[c], freed + {c})
    ensures !(2 <= now[c] < eof) ==> FreeingOver(fat, now[c := 0], a, freed + {c})
  {
    if 2 <= now[c] < eof {
      ReachStep(fat, a, c);
    }
  }

  /** The walk has nothing ahead of it. */
  ghost predicate FreeingOver(fat: Fat, now: Fat, a: nat, freed: set<nat>) {
    && |now| == |fat|
    && (forall x :: 0 <= x < |fat| ==> now[x] == if x in freed then 0 else fat[x])
    && (forall x :: x in freed ==> Reaches(fat, a, x))
    && a in freed
    && forall x :: x in freed && IsCluster(fat, x) && IsCluster(fat, fat[x]) ==> fat[x] in freed
  }

  lemma FreeingDone(fat: Fat, now: Fat, a: nat, freed: set<nat>)
    requires FreeingOver(fat, now, a, freed)
    ensures FreedFrom(fat, now, a)
  {
    forall x | Reaches(fat, a, x) ensures x in freed { ClosedHoldsReach(fat, freed, a, x); }
  }

  /** Freeing a chain of a forest removes that chain and no other, and gives back
      exactly its clusters. */
  lemma FreeChainInForest(fat: Fat, fat': Fat, eof: nat, chains: set<seq<nat>>, cs: seq<nat>)
    requires 2 <= |fat| <= eof && Forest(fat, eof, chains) && cs in chains && FreedFrom(fat, fat', cs[0])
    ensures Forest(fat', eof, chains - {cs})
    ensures FreeSet(fat') == FreeSet(fat) + Elems(cs)
    ensures |FreeSet(fat')| == |FreeSet(fat)| + |cs|
  {
    forall x ensures Reaches(fat, cs[0], x) <==> x in cs { ChainReach(fat, eof, cs, x); }
    forall ds | ds in chains - {cs} ensures Chain(fat', eof, ds) {
      assert Chain(fat, eof, ds) && Disjoint(ds, cs);
    }
    ChainSize(fat, eof, cs);
    var freed := Elems(cs);
    forall c | c in FreeSet(fat) ensures c !in freed { FreeOffChains(fat, eof, cs, c); }
    assert forall c :: c in freed ==> IsCluster(fat, c);
    assert FreeSet(fat') == FreeSet(fat) + freed && FreeSet(fat) !! freed;
  }

  lemma ChainSize(fat: Fat, eof: nat, cs: seq<nat>)
    requires |fat| <= eof && Chain(fat, eof, cs)
    ensures |Elems(cs)| == |cs|
  {
    forall i, j | 0 <= i < j < |cs| ensures cs[i] != cs[j] { ChainDistinct(fat, eof, cs, i, j); }
    DistinctSize(cs);
  }

  lemma {:induction false} DistinctSize(cs: seq<nat>)
    requires forall i, j :: 0 <= i < j < |cs| ==> cs[i] != cs[j]
    ensures |Elems(cs)| == |cs|
  {
    if cs != [] {
      var front, last := cs[..|cs| - 1], cs[|cs| - 1];
      DistinctSize(front);
      assert cs == front + [last] && last !in front;
      assert Elems(cs) == Elems(front) + {last};
    }
  }

  // ---- allocating ----------------------------------------------------------

  /** A free cluster lies on no chain. */
  lemma FreeOffChains(fat: Fat, eof: nat, cs: seq<nat>, c: nat)
    requires 2 <= |fat| <= eof && Chain(fat, eof, cs) && IsCluster(fat, c) && fat[c] == 0
    ensures c !in cs
  {
    forall i | 0 <= i < |cs| ensures cs[i] != c {
      assert i == |cs| - 1 || (fat[cs[i]] == cs[i + 1] && IsCluster(fat, cs[i + 1]));
    }
  }

  /** Writing a cluster that lies off a chain keeps the chain. */
  lemma ChainKept(fat: Fat, eof: nat, cs: seq<nat>, c: nat, v: nat)
    requires Chain(fat, eof, cs) && c < |fat| && c !in cs
    ensures Chain(fat[c := v], eof, cs)
  {
  }

  /** Claiming a free cluster keeps the forest and adds a one-cluster chain. */
  lemma ClaimInForest(fat: Fat, eof: nat, chains: set<seq<nat>>, c: nat)
    requires 2 <= |fat| <= eof && Forest(fat, eof, chains) && IsCluster(fat, c) && fat[c] == 0
    ensures Forest(fat[c := eof], eof, chains + {[c]})
    ensures FreeSet(fat[c := eof]) == FreeSet(fat) - {c} && c in FreeSet(fat)
  {
    forall cs | cs in chains ensures Chain(fat[c := eof], eof, cs) && c !in cs {
      FreeOffChains(fat, eof, cs, c);
      ChainKept(fat, eof, cs, c, eof);
    }
  }

  /** Linking a freshly claimed cluster behind a chain's last one extends that
      chain and keeps all others. */
  lemma LinkInForest(fat: Fat, eof: nat, chains: set<seq<nat>>, cs: seq<nat>, c: nat)
    requires 2 <= |fat| <= eof && Forest(fat, eof, chains) && cs in chains && [c] in chains && cs != [c]
    ensures Forest(fat[cs[|cs| - 1] := c], eof, chains - {cs, [c]} + {cs + [c]})
    ensures FreeSet(fat[cs[|cs| - 1] := c]) == FreeSet(fat)
  {
    var last := cs[|cs| - 1];
    var fat' := fat[last := c];
    assert Chain(fat, eof, [c]) && Disjoint(cs, [c]) && c == [c][0];
    forall ds | ds in chains - {cs, [c]}
      ensures Chain(fat', eof, ds) && Disjoint(ds, cs + [c]) && Disjoint(cs + [c], ds)
    {
      assert Disjoint(ds, cs) && Disjoint(ds, [c]);
      ChainKept(fat, eof, ds, last, c);
    }
    forall i | 0 <= i < |cs| - 1 ensures cs[i] != last { ChainDistinct(fat, eof, cs, i, |cs| - 1); }
    assert Chain(fat', eof, cs + [c]);
  }

  /** `fat'` differs from `fat` by one complete chain built from free clusters. */
  ghost predicate FreshChain(fat: Fat, fat': Fat, eof: nat, cs: seq<nat>) {
    && |fat'| == |fat|
    && (forall i :: 0 <= i < |cs| ==> cs[i] in FreeSet(fat))
    && (cs != [] ==> Chain(fat', eof, cs))
    && forall x :: 0 <= x < |fat| && x !in cs ==> fat'[x] == fat[x]
  }

  lemma NothingFresh(fat: Fat, fat': Fat, eof: nat)
    ensures FreshChain(fat, fat', eof, []) <==> fat' == fat
  {
  }

  lemma ChainLast(fat: Fat, fat': Fat, eof: nat, cs: seq<nat>)
    requires FreshChain(fat, fat', eof, cs) && cs != []
    ensures IsCluster(fat', cs[|cs| - 1])
  {
  }

  lemma FreshFree(fat: Fat, fat': Fat, eof: nat, cs: seq<nat>)
    requires 2 <= |fat| <= eof && FreshChain(fat, fat', eof, cs)
    ensures FreeSet(fat') == FreeSet(fat) - Elems(cs)
    ensures |FreeSet(fat)| == |FreeSet(fat')| + |cs|
  {
    if cs != [] {
      forall c | c in FreeSet(fat') ensures c !in cs { FreeOffChains(fat', eof, cs, c); }
      ChainSize(fat', eof, cs);
    }
    assert FreeSet(fat) == FreeSet(fat') + Elems(cs);
  }

  /** One more cluster claimed and linked behind the last one. */
  lemma FreshGrows(fat: Fat, fat': Fat, eof: nat, cs: seq<nat>, c: nat)
    requires 2 <= |fat| <= eof && FreshChain(fat, fat', eof, cs) && c in FreeSet(fat')
    ensures c in FreeSet(fat) && c !in cs
    ensures cs == [] ==> FreshChain(fat, fat'[c := eof], eof, [c])
    ensures cs != [] ==> FreshChain(fat, fat'[c := eof][cs[|cs| - 1] := c], eof, cs + [c])
  {
    FreshFree(fat, fat', eof, cs);
    if cs != [] {
      LinkedChain(fat', eof, cs, c);
      var cs', fat'' := cs + [c], fat'[c := eof][cs[|cs| - 1] := c];
      assert cs'[|cs|] == c && cs'[|cs| - 1] == cs[|cs| - 1];
      forall x | 0 <= x < |fat| && x !in cs' ensures fat''[x] == fat[x] {
        assert x !in cs;
      }
    }
  }

  lemma LinkedChain(fat: Fat, eof: nat, cs: seq<nat>, c: nat)
    requires 2 <= |fat| <= eof && Chain(fat, eof, cs) && IsCluster(fat, c) && c !in cs
    ensures Chain(fat[c := eof][cs[|cs| - 1] := c], eof, cs + [c])
  {
    var last := cs[|cs| - 1];
    forall i | 0 <= i < |cs| - 1 ensures cs[i] != last { ChainDistinct(fat, eof, cs, i, |cs| - 1); }
  }

  /** Freeing a fresh chain restores the table. */
  lemma FreshUndone(fat: Fat, fat': Fat, fat'': Fat, eof: nat, cs: seq<nat>)
    requires 2 <= |fat| <= eof && FreshChain(fat, fat', eof, cs) && cs != []
    requires FreedFrom(fat', fat'', cs[0])
    ensures fat'' == fat
  {
    forall x | 0 <= x < |fat| ensures fat''[x] == fat[x] {
      ChainReach(fat', eof, cs, x);
      if x in cs { assert x in FreeSet(fat); }
    }
  }

  /** A fresh chain joins a forest. */
  lemma FreshInForest(fat: Fat, fat': Fat, eof: nat, chains: set<seq<nat>>, cs: seq<nat>)
    requires 2 <= |fat| <= eof && FreshChain(fat, fat', eof, cs) && cs != [] && Forest(fat, eof, chains)
    ensures Forest(fat', eof, chains + {cs}) && cs !in chains
  {
    forall ds | ds in chains ensures Chain(fat', eof, ds) && Disjoint(ds, cs) && Disjoint(cs, ds) {
      forall i | 0 <= i < |cs| ensures cs[i] !in ds { FreeOffChains(fat, eof, ds, cs[i]); }
    }
    assert !Disjoint(cs, cs) by { assert cs[0] == cs[0]; }
  }

  lemma FreshInRange(fat: Fat, fat': Fat, eof: nat, cs: seq<nat>)
    requires InRange(fat, eof) && FreshChain(fat, fat', eof, cs)
    ensures InRange(fat', eof)
  {
    forall x | 2 <= x < |fat'| ensures fat'[x] < |fat'| || eof <= fat'[x] {
      if x in cs {
        var i :| 0 <= i < |cs| && cs[i] == x;
        assert i < |cs| - 1 ==> fat'[cs[i]] == cs[i + 1] && IsCluster(fat', cs[i + 1]);
      }
    }
  }

  lemma FreedInRange(fat: Fat, fat': Fat, eof: nat, a: nat)
    requires InRange(fat, eof) && FreedFrom(fat, fat', a)
    ensures InRange(fat', eof)
  {
  }
}
