/** Powers, and facts about products and set sizes, that several modules use. */
module Basics {
  function Pow2(e: nat): (p: nat)
    ensures p > 0
    decreases e
  {
    if e == 0 then 1 else 2 * Pow2(e - 1)
  }

  lemma DivIs(x: nat, d: nat, q: nat, r: nat)
    requires x == q * d + r && r < d
    ensures x / d == q
  {
    var k, m := x / d, x % d;
    assert x == k * d + m;
    if k < q {
      MulLeq(d, k + 1, q);
    } else if q < k {
      MulLeq(d, q + 1, k);
    }
  }

  lemma MulStep(n: int, m: int)
    ensures (n + 1) * m == n * m + m
  {
  }

  lemma MulLeq(a: nat, b: int, c: int)
    requires b <= c
    ensures a * b <= a * c
  {
  }

  lemma SmallerSubset<T>(a: set<T>, b: set<T>)
    requires a < b
    ensures |a| < |b|
  {
    var rest := b - a;
    assert b == a + rest && |b| == |a| + |rest|;
  }

  lemma SubsetCard<T>(a: set<T>, b: set<T>)
    requires a <= b
    ensures |a| <= |b|
  {
    if a != b { SmallerSubset(a, b); }
  }
}
