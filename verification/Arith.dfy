/** Small facts about division, remainders and products. */
module Arith {

  /** `k` steps of `s`: the product, kept as an addition so that facts about
      consecutive table and cluster positions stay linear. */
  function Steps(k: nat, s: nat): nat {
    if k == 0 then 0 else Steps(k - 1, s) + s
  }

  lemma {:induction false} StepsIsProduct(k: nat, s: nat)
    ensures Steps(k, s) == k * s
  {
    if k > 0 {
      StepsIsProduct(k - 1, s);
      assert (k - 1) * s + s == k * s;
    }
  }

  lemma {:induction false} StepsApart(j: nat, k: nat, s: nat)
    requires j < k
    ensures Steps(j, s) + s <= Steps(k, s)
  {
    if j + 1 < k {
      StepsApart(j, k - 1, s);
    }
  }

  /** The quotient is the number of whole steps. */
  lemma QuotientSteps(n: nat, k: nat, s: nat)
    requires 0 < s && Steps(k, s) <= n < Steps(k + 1, s)
    ensures n / s == k
  {
    StepsIsProduct(k, s);
    Remainder(n, s, k, n - Steps(k, s));
  }

  lemma Remainder(v: int, m: int, q: int, r: int)
    requires 0 <= r < m && v == m * q + r
    ensures v % m == r && v / m == q
  {
    assert m * (v / m - q) == r - v % m;
    Multiple(m, v / m - q);
  }

  lemma Multiple(m: int, d: int)
    requires 0 < m
    ensures 1 <= d ==> m <= m * d
    ensures d <= -1 ==> m * d <= -m
  {
  }

  /** Cutting `v` at `a` and the rest at `b` loses nothing of its value below `a * b`. */
  lemma TwoCuts(v: nat, a: nat, b: nat)
    requires 0 < a && 0 < b
    ensures 0 < a * b && v % a + a * (v / a % b) == v % (a * b)
  {
    var x := v / a;
    var y, z, r := x / b, x % b, v % a;
    assert v == a * b * y + (a * z + r) by {
      assert v == a * x + r && x == b * y + z;
    }
    assert 0 <= a * z + r < a * b by {
      assert a * z <= a * (b - 1);
    }
    Remainder(v, a * b, y, a * z + r);
  }

  function Min(a: nat, b: nat): nat { if a < b then a else b }
}
