/** Counting distinct and widely spaced numbers. */
module Pigeonhole {
  predicate Distinct(s: seq<nat>) {
    forall i, j | 0 <= i < j < |s| :: s[i] != s[j]
  }

  predicate AllBelow(s: seq<nat>, n: nat) {
    forall i | 0 <= i < |s| :: s[i] < n
  }

  lemma FirstNotBelowZero(s: seq<nat>)
    requires s != []
    ensures !AllBelow(s, 0)
  {
    assert !(s[0] < 0);
  }

  lemma {:induction false} DistinctBelow(s: seq<nat>, n: nat)
    requires Distinct(s) && AllBelow(s, n)
    ensures |s| <= n
    decreases n
  {
    if n == 0 {
      if s != [] { FirstNotBelowZero(s); }
    } else {
      var last := n - 1;
      if exists k | 0 <= k < |s| :: s[k] == last {
        var k: nat :| k < |s| && s[k] == last;
        DistinctBelow(s[..k] + s[k + 1..], last);
      } else {
        DistinctBelow(s, last);
      }
    }
  }

  predicate Spaced(s: seq<nat>, d: nat) {
    forall i, j | 0 <= i < j < |s| :: s[i] + d <= s[j] || s[j] + d <= s[i]
  }

  lemma SameBlock(x: nat, y: nat, d: nat)
    requires d > 0 && x / d == y / d
    ensures x < y + d
  {
    assert x == d * (x / d) + x % d;
    assert y == d * (y / d) + y % d;
  }

  lemma BlockBelow(x: nat, n: nat, d: nat)
    requires d > 0 && x < n
    ensures x / d < (n + d - 1) / d
  {
    var q := x / d;
    assert x == d * q + x % d;
    assert n + d - 1 >= d * (q + 1);
    DivAtLeast(n + d - 1, d, q + 1);
  }

  lemma DivAtLeast(x: nat, d: nat, q: nat)
    requires d > 0 && x >= d * q
    ensures x / d >= q
  {
    var k := x / d;
    assert x == d * k + x % d < d * (k + 1);
    assert d * q < d * (k + 1);
  }

  /** Numbers below `n` at least `d` apart: at most one per block of `d`. */
  lemma SpacedBelow(s: seq<nat>, n: nat, d: nat)
    requires d > 0 && AllBelow(s, n) && Spaced(s, d)
    ensures |s| <= (n + d - 1) / d
  {
    var blocks: seq<nat> := seq(|s|, i requires 0 <= i < |s| => s[i] / d);
    forall i, j | 0 <= i < j < |s| ensures blocks[i] != blocks[j] {
      if s[i] / d == s[j] / d {
        SameBlock(s[i], s[j], d);
        SameBlock(s[j], s[i], d);
      }
    }
    forall i | 0 <= i < |s| ensures blocks[i] < (n + d - 1) / d {
      BlockBelow(s[i], n, d);
    }
    DistinctBelow(blocks, (n + d - 1) / d);
  }
}
