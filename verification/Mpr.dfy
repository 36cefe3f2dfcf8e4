/** Multipoint-relay selection: the greedy heuristic of section 8.3.1 of RFC 3626. */
module Mpr {
  import opened Basics
  import opened Options
  import opened Graphs

  function Ends(arcs: seq<Arc>): set<nat> {
    set a | a in arcs :: a.to
  }

  function Neighbours(view: View, u: nat): set<nat>
    requires u < |view.adj|
  {
    Ends(view.adj[u])
  }

  /** `w` is a neighbour of a neighbour of `u`. */
  predicate ViaNeighbour(view: View, u: nat, w: nat)
    requires u < |view.adj|
  {
    exists v | v in Neighbours(view, u) :: v < |view.adj| && w in Neighbours(view, v)
  }

  /** Neighbours of neighbours that are neither `u` nor its neighbours. */
  function TwoHop(view: View, u: nat): set<nat>
    requires u < |view.adj|
  {
    set w: nat | w < view.n && w != u && w !in Neighbours(view, u) && ViaNeighbour(view, u, w)
  }

  lemma NeighboursInside(view: View, u: nat)
    requires Valid(view) && u < view.n
    ensures forall v | v in Neighbours(view, u) :: v < view.n
  {
    forall v | v in Neighbours(view, u) ensures v < view.n {
      var a :| a in view.adj[u] && a.to == v;
      var i :| 0 <= i < |view.adj[u]| && view.adj[u][i] == a;
    }
  }

  /** The two-hop neighbours, collected list by list. */
  method CollectTwoHop(view: View, u: nat) returns (n2: set<nat>)
    requires Valid(view) && u < view.n
    ensures n2 == TwoHop(view, u)
  {
    n2 := {};
    var n1 := Neighbours(view, u);
    for i := 0 to |view.adj[u]|
      invariant n2 <= TwoHop(view, u)
      invariant forall j | 0 <= j < i :: Neighbours(view, view.adj[u][j].to) - n1 - {u} <= n2
    {
      var v := view.adj[u][i].to;
      for k := 0 to |view.adj[v]|
        invariant n2 <= TwoHop(view, u)
        invariant forall j | 0 <= j < i :: Neighbours(view, view.adj[u][j].to) - n1 - {u} <= n2
        invariant forall j | 0 <= j < k :: view.adj[v][j].to in n2 || view.adj[v][j].to in n1 + {u}
      {
        var w := view.adj[v][k].to;
        if w != u && w !in n1 {
          assert v in n1 && w in Neighbours(view, v);
          n2 := n2 + {w};
        }
      }
    }
    forall w | w in TwoHop(view, u) ensures w in n2 {
      var v :| v in n1 && v < |view.adj| && w in Neighbours(view, v);
      var j :| 0 <= j < |view.adj[u]| && view.adj[u][j].to == v;
      assert w in Neighbours(view, view.adj[u][j].to) - n1 - {u};
    }
  }

  /** How many entries of the list lead into `target`. */
  function CountInto(arcs: seq<Arc>, target: set<nat>): nat
    decreases |arcs|
  {
    if arcs == [] then 0 else (if arcs[0].to in target then 1 else 0) + CountInto(arcs[1..], target)
  }

  /** The two-hop neighbours no pick reaches. */
  function Uncovered(view: View, u: nat, picks: seq<nat>): set<nat>
    requires u < |view.adj|
    decreases |picks|
  {
    if picks == [] then TwoHop(view, u)
    else
      var last := picks[|picks| - 1];
      Uncovered(view, u, picks[..|picks| - 1]) - (if last < |view.adj| then Neighbours(view, last) else {})
  }

  /** Pick `t` is a neighbour not picked before that covers most; ties go to the lowest id. */
  ghost predicate BestPick(view: View, u: nat, picks: seq<nat>, t: nat)
    requires u < |view.adj| && t < |picks|
  {
    var best, left := picks[t], Uncovered(view, u, picks[..t]);
    && best < |view.adj| && best in Neighbours(view, u) && best !in picks[..t]
    && CountInto(view.adj[best], left) > 0
    && forall v | v in Neighbours(view, u) && v !in picks[..t] && v < |view.adj| ::
         CountInto(view.adj[v], left) < CountInto(view.adj[best], left)
         || (CountInto(view.adj[v], left) == CountInto(view.adj[best], left) && best <= v)
  }

  ghost predicate Greedy(view: View, u: nat, picks: seq<nat>) {
    && Valid(view) && u < view.n
    && forall t | 0 <= t < |picks| :: BestPick(view, u, picks, t)
  }

  lemma {:induction false} CountPositive(arcs: seq<Arc>, target: set<nat>, x: nat)
    requires x in Ends(arcs) && x in target
    ensures CountInto(arcs, target) > 0
    decreases |arcs|
  {
    if arcs[0].to != x {
      assert x in Ends(arcs[1..]) by {
        var a :| a in arcs && a.to == x;
        assert a in arcs[1..];
      }
      CountPositive(arcs[1..], target, x);
    }
  }

  /** While something is uncovered some neighbour not yet picked reaches it. */
  lemma ProgressPossible(view: View, u: nat, picks: seq<nat>, x: nat) returns (v: nat)
    requires Valid(view) && u < view.n
    requires x in Uncovered(view, u, picks)
    ensures v in Neighbours(view, u) && v < view.n && v !in picks
        && CountInto(view.adj[v], Uncovered(view, u, picks)) > 0
  {
    NeighboursInside(view, u);
    UncoveredParts(view, u, picks);
    v :| v in Neighbours(view, u) && v < |view.adj| && x in Neighbours(view, v);
    CountPositive(view.adj[v], Uncovered(view, u, picks), x);
  }

  lemma {:induction false} UncoveredParts(view: View, u: nat, picks: seq<nat>)
    requires u < |view.adj|
    ensures Uncovered(view, u, picks) <= TwoHop(view, u)
    ensures forall v | v in picks && v < |view.adj| :: Neighbours(view, v) !! Uncovered(view, u, picks)
    decreases |picks|
  {
    if picks != [] {
      var n := |picks| - 1;
      UncoveredParts(view, u, picks[..n]);
      assert forall v | v in picks :: v in picks[..n] || v == picks[n];
    }
  }

  lemma OneMorePick(view: View, u: nat, picks: seq<nat>, v: nat)
    requires u < |view.adj| && v < |view.adj|
    ensures Uncovered(view, u, picks + [v]) == Uncovered(view, u, picks) - Ends(view.adj[v])
  {
    assert (picks + [v])[..|picks|] == picks;
  }

  /** The best candidate of the neighbour list, as `max_by` chooses it. */
  method Best(view: View, u: nat, mprs: seq<nat>, uncovered: set<nat>) returns (best: Option<nat>)
    requires Valid(view) && u < view.n
    ensures best.Some? ==> best.value in Neighbours(view, u) && best.value < view.n && best.value !in mprs
    ensures forall v | v in Neighbours(view, u) && v !in mprs && v < view.n :: best.Some?
              && (CountInto(view.adj[v], uncovered) < CountInto(view.adj[best.value], uncovered)
                  || (CountInto(view.adj[v], uncovered) == CountInto(view.adj[best.value], uncovered)
                     && best.value <= v))
  {
    best := None;
    var arcs := view.adj[u];
    for i := 0 to |arcs|
      invariant best.Some? ==> best.value in Neighbours(view, u) && best.value < view.n && best.value !in mprs
      invariant forall j | 0 <= j < i && arcs[j].to !in mprs :: best.Some?
                  && (CountInto(view.adj[arcs[j].to], uncovered) < CountInto(view.adj[best.value], uncovered)
                      || (CountInto(view.adj[arcs[j].to], uncovered) == CountInto(view.adj[best.value], uncovered)
                         && best.value <= arcs[j].to))
    {
      var v := arcs[i].to;
      if v !in mprs {
        if best.None? {
          best := Some(v);
        } else {
          var c, b := CountInto(view.adj[v], uncovered), CountInto(view.adj[best.value], uncovered);
          if b < c || (b == c && v < best.value) { best := Some(v); }
        }
      }
    }
  }

  /** Node `u`'s relays: in the end every two-hop neighbour is covered, so neither early exit
      of the loop is ever taken. */
  method MprSet(view: View, u: nat) returns (mprs: seq<nat>)
    requires Valid(view) && u < view.n
    ensures Greedy(view, u, mprs) && Uncovered(view, u, mprs) == {}
  {
    mprs := [];
    var uncovered := CollectTwoHop(view, u);
    while uncovered != {}
      invariant Greedy(view, u, mprs) && uncovered == Uncovered(view, u, mprs)
      decreases |uncovered|
    {
      ghost var x :| x in uncovered;
      ghost var v := ProgressPossible(view, u, mprs, x);
      var best := Best(view, u, mprs, uncovered);
      if best.None? || CountInto(view.adj[best.value], uncovered) == 0 { break; }
      PickStep(view, u, mprs, best.value, uncovered);
      uncovered, mprs := uncovered - Ends(view.adj[best.value]), mprs + [best.value];
    }
  }

  lemma PickStep(view: View, u: nat, picks: seq<nat>, best: nat, left: set<nat>)
    requires Greedy(view, u, picks) && left == Uncovered(view, u, picks)
    requires best < view.n && best in Neighbours(view, u) && best !in picks && CountInto(view.adj[best], left) > 0
    requires forall v | v in Neighbours(view, u) && v !in picks && v < view.n ::
               CountInto(view.adj[v], left) < CountInto(view.adj[best], left)
               || (CountInto(view.adj[v], left) == CountInto(view.adj[best], left) && best <= v)
    ensures Greedy(view, u, picks + [best])
    ensures Uncovered(view, u, picks + [best]) == left - Ends(view.adj[best])
    ensures |left - Ends(view.adj[best])| < |left|
  {
    OneMorePick(view, u, picks, best);
    CountWitness(view.adj[best], left);
    var x :| x in Ends(view.adj[best]) * left;
    assert x in left && x !in left - Ends(view.adj[best]);
    SmallerSubset(left - Ends(view.adj[best]), left);
    assert (picks + [best])[..|picks|] == picks;
    GreedyExtends(view, u, picks, best);
  }

  lemma {:induction false} CountWitness(arcs: seq<Arc>, target: set<nat>)
    requires CountInto(arcs, target) > 0
    ensures Ends(arcs) * target != {}
    decreases |arcs|
  {
    if arcs[0].to in target {
      assert arcs[0].to in Ends(arcs) * target;
    } else {
      CountWitness(arcs[1..], target);
      var x :| x in Ends(arcs[1..]) * target;
      assert x in Ends(arcs) * target;
    }
  }

  lemma GreedyExtends(view: View, u: nat, picks: seq<nat>, best: nat)
    requires Greedy(view, u, picks) && best < view.n && BestPick(view, u, picks + [best], |picks|)
    ensures Greedy(view, u, picks + [best])
  {
    var more := picks + [best];
    forall t | 0 <= t < |more| ensures BestPick(view, u, more, t) {
      assert t < |picks| ==> more[..t] == picks[..t] && BestPick(view, u, picks, t);
    }
  }

  // ---- How good the greedy choice is ------------------------------------------------------

  /** No adjacency list names a neighbour twice. */
  ghost predicate Simple(view: View) {
    forall u | 0 <= u < |view.adj| :: DistinctEnds(view.adj[u])
  }

  ghost predicate DistinctEnds(arcs: seq<Arc>) {
    forall i, j | 0 <= i < j < |arcs| :: arcs[i].to != arcs[j].to
  }

  lemma {:induction false} CountIsCardinality(arcs: seq<Arc>, target: set<nat>)
    requires DistinctEnds(arcs)
    ensures CountInto(arcs, target) == |Ends(arcs) * target|
    decreases |arcs|
  {
    if arcs == [] {
      assert Ends(arcs) * target == {};
    } else {
      CountIsCardinality(arcs[1..], target);
      assert Ends(arcs) == Ends(arcs[1..]) + {arcs[0].to};
      assert arcs[0].to !in Ends(arcs[1..]);
      OneMoreEnd(Ends(arcs[1..]), arcs[0].to, target);
    }
  }

  lemma OneMoreEnd(ends: set<nat>, to: nat, target: set<nat>)
    requires to !in ends
    ensures |(ends + {to}) * target| == |ends * target| + if to in target then 1 else 0
  {
    if to in target {
      assert (ends + {to}) * target == ends * target + {to};
    } else {
      assert (ends + {to}) * target == ends * target;
    }
  }

  /** Everything some relay of the list reaches. */
  function Reached(view: View, relays: seq<nat>): set<nat>
    decreases |relays|
  {
    if relays == [] then {}
    else
      var last := relays[|relays| - 1];
      Reached(view, relays[..|relays| - 1]) + (if last < |view.adj| then Neighbours(view, last) else {})
  }

  lemma UnionCard(a: set<nat>, b: set<nat>)
    ensures |a + b| <= |a| + |b|
  {
    assert a + b == a + (b - a);
    SubsetCard(b - a, b);
  }

  /** When each relay reaches at most `m` of a set, `k` of them reach at most k*m of it. */
  lemma {:induction false} ReachedBound(view: View, left: set<nat>, relays: seq<nat>, m: nat)
    requires forall v | v in relays :: v < |view.adj| && |Neighbours(view, v) * left| <= m
    ensures |Reached(view, relays) * left| <= |relays| * m
    decreases |relays|
  {
    hide Neighbours;
    if relays != [] {
      var n := |relays| - 1;
      assert relays[n] in relays;
      ReachedBound(view, left, relays[..n], m);
      var before, last := Reached(view, relays[..n]) * left, Neighbours(view, relays[n]) * left;
      assert Reached(view, relays) * left == before + last;
      UnionCard(before, last);
      MulStep(n, m);
    }
  }

  function Pow(b: nat, e: nat): nat
    decreases e
  {
    if e == 0 then 1 else b * Pow(b, e - 1)
  }

  /** These neighbours together reach every two-hop neighbour. */
  ghost predicate IsCover(view: View, u: nat, cover: seq<nat>)
    requires u < |view.adj|
  {
    (forall v | v in cover :: v < |view.adj| && v in Neighbours(view, u)) && TwoHop(view, u) <= Reached(view, cover)
  }

  lemma TakesNoMoreThanBest(view: View, u: nat, picks: seq<nat>, t: nat, v: nat)
    requires Greedy(view, u, picks) && t < |picks| && Simple(view) && v in Neighbours(view, u) && v < view.n
    ensures picks[t] < view.n
    ensures |Ends(view.adj[v]) * Uncovered(view, u, picks[..t])|
         <= CountInto(view.adj[picks[t]], Uncovered(view, u, picks[..t]))
  {
    var left := Uncovered(view, u, picks[..t]);
    assert BestPick(view, u, picks, t);
    CountIsCardinality(view.adj[v], left);
    if v in picks[..t] {
      UncoveredParts(view, u, picks[..t]);
      assert Ends(view.adj[v]) * left == {};
    }
  }

  /** One pick leaves at most (k-1)/k of what was uncovered, for any cover by k neighbours. */
  lemma OnePickBound(view: View, u: nat, picks: seq<nat>, t: nat, cover: seq<nat>)
    requires Greedy(view, u, picks) && t < |picks| && Simple(view) && IsCover(view, u, cover) && cover != []
    ensures Shares(|cover|, |Uncovered(view, u, picks[..t + 1])|, |Uncovered(view, u, picks[..t])|)
  {
    hide TwoHop, Uncovered, Reached, CountInto, Shares, DistinctEnds;
    var left, best := Uncovered(view, u, picks[..t]), picks[t];
    assert BestPick(view, u, picks, t);
    var m := CountInto(view.adj[best], left);
    forall v | v in cover ensures v < |view.adj| && |Neighbours(view, v) * left| <= m {
      TakesNoMoreThanBest(view, u, picks, t, v);
    }
    ReachedBound(view, left, cover, m);
    UncoveredParts(view, u, picks[..t]);
    assert Reached(view, cover) * left == left;
    PickTakes(view, u, picks, t, left, m);
    LessByShare(|cover|, |left|, |Uncovered(view, u, picks[..t + 1])|, m);
  }

  lemma PickTakes(view: View, u: nat, picks: seq<nat>, t: nat, left: set<nat>, m: nat)
    requires u < |view.adj| && t < |picks| && picks[t] < |view.adj| && DistinctEnds(view.adj[picks[t]])
    requires left == Uncovered(view, u, picks[..t]) && m == CountInto(view.adj[picks[t]], left)
    ensures |left| == |Uncovered(view, u, picks[..t + 1])| + m
  {
    hide Uncovered, Ends, CountInto, DistinctEnds;
    CountIsCardinality(view.adj[picks[t]], left);
    assert picks[..t + 1] == picks[..t] + [picks[t]];
    OneMorePick(view, u, picks[..t], picks[t]);
    SplitCard(left, Ends(view.adj[picks[t]]));
  }

  lemma SplitCard(all: set<nat>, part: set<nat>)
    ensures |all| == |all - part| + |part * all|
  {
    assert all == (all - part) + part * all;
  }

  /** `now` is at most (k-1)/k of `before`. */
  predicate Shares(k: nat, now: nat, before: nat) {
    k >= 1 && k * now <= (k - 1) * before
  }

  lemma LessByShare(k: nat, left: nat, after: nat, m: nat)
    requires k >= 1 && left == after + m && left <= k * m
    ensures Shares(k, after, left)
  {
    assert k * left == k * after + k * m;
    assert (k - 1) * left == k * left - left;
  }

  /** After `t` picks at most ((k-1)/k)^t of the two-hop neighbours are uncovered, however few
      neighbours k could cover them all. */
  lemma {:induction false} GreedyBound(view: View, u: nat, picks: seq<nat>, t: nat, cover: seq<nat>)
    requires Greedy(view, u, picks) && t <= |picks| && Simple(view) && IsCover(view, u, cover) && cover != []
    ensures Pow(|cover|, t) * |Uncovered(view, u, picks[..t])| <= Pow(|cover| - 1, t) * |TwoHop(view, u)|
    decreases t
  {
    hide TwoHop, BestPick, Simple, IsCover, Neighbours, Shares;
    if t == 0 {
      assert picks[..0] == [];
    } else {
      hide Uncovered;
      GreedyBound(view, u, picks, t - 1, cover);
      OnePickBound(view, u, picks, t - 1, cover);
      Compound(|cover|, Pow(|cover|, t - 1), Pow(|cover| - 1, t - 1),
               |Uncovered(view, u, picks[..t])|, |Uncovered(view, u, picks[..t - 1])|, |TwoHop(view, u)|);
    }
  }

  lemma Compound(k: nat, p: nat, q: nat, now: nat, before: nat, all: nat)
    requires Shares(k, now, before) && p * before <= q * all
    ensures (k * p) * now <= ((k - 1) * q) * all
  {
    calc {
      (k * p) * now;
      == p * (k * now);
      <= { MulLeq(p, k * now, (k - 1) * before); } p * ((k - 1) * before);
      == (k - 1) * (p * before);
      <= { MulLeq(k - 1, p * before, q * all); } (k - 1) * (q * all);
      == ((k - 1) * q) * all;
    }
  }

  // ---- Which relays are needed ---------------------------------------------------------------

  lemma {:induction false} ReachedIs(view: View, relays: seq<nat>, x: nat)
    ensures x in Reached(view, relays) <==> exists v | v in relays :: v < |view.adj| && x in Neighbours(view, v)
    decreases |relays|
  {
    hide Neighbours;
    if relays != [] {
      var n := |relays| - 1;
      ReachedIs(view, relays[..n], x);
      assert relays == relays[..n] + [relays[n]];
      assert relays[n] in relays;
    }
  }

  lemma {:induction false} UncoveredIs(view: View, u: nat, picks: seq<nat>)
    requires u < |view.adj|
    ensures Uncovered(view, u, picks) == TwoHop(view, u) - Reached(view, picks)
    decreases |picks|
  {
    hide Neighbours, TwoHop;
    if picks != [] { UncoveredIs(view, u, picks[..|picks| - 1]); }
  }

  /** What the `t`-th pick was the first to cover, and no later pick covers again. */
  function Private(view: View, u: nat, picks: seq<nat>, t: nat): set<nat>
    requires u < |view.adj| && t < |picks| && picks[t] < |view.adj|
  {
    Uncovered(view, u, picks[..t]) * Neighbours(view, picks[t]) - Reached(view, picks[t + 1..])
  }

  /** No relay can be left out: picks that cover everything are all of them. */
  ghost predicate Minimal(view: View, u: nat, picks: seq<nat>)
    requires u < |view.adj|
  {
    forall some: seq<nat> | Among(some, picks) && Uncovered(view, u, some) == {} :: Among(picks, some)
  }

  predicate Among(some: seq<nat>, all: seq<nat>) {
    forall v | v in some :: v in all
  }

  lemma PicksDistinct(view: View, u: nat, picks: seq<nat>)
    requires Greedy(view, u, picks)
    ensures forall i, j | 0 <= i < j < |picks| :: picks[i] != picks[j]
    ensures forall t | 0 <= t < |picks| :: picks[t] < view.n
  {
    hide Uncovered, Neighbours, CountInto;
    forall t | 0 <= t < |picks| ensures picks[t] < view.n && picks[t] !in picks[..t] {
      assert BestPick(view, u, picks, t);
    }
    forall i, j | 0 <= i < j < |picks| ensures picks[i] != picks[j] {
      assert picks[..j][i] == picks[i];
    }
  }

  /** Whoever covers a private two-hop neighbour of the `t`-th pick is that pick. */
  lemma OnlyPick(view: View, u: nat, picks: seq<nat>, t: nat, x: nat, v: nat)
    requires u < |view.adj| && t < |picks| && picks[t] < |view.adj|
    requires x in Private(view, u, picks, t) && v in picks && v < |view.adj| && x in Neighbours(view, v)
    ensures v == picks[t]
  {
    hide Neighbours, TwoHop, Uncovered, Reached;
    UncoveredIs(view, u, picks[..t]);
    ReachedIs(view, picks[..t], x);
    ReachedIs(view, picks[t + 1..], x);
    assert picks == picks[..t] + [picks[t]] + picks[t + 1..];
  }

  lemma PrivateIsNeeded(view: View, u: nat, picks: seq<nat>, t: nat, some: seq<nat>)
    requires u < |view.adj| && t < |picks| && picks[t] < |view.adj| && Private(view, u, picks, t) != {}
    requires Among(some, picks) && Uncovered(view, u, some) == {}
    ensures picks[t] in some
  {
    var x :| x in Private(view, u, picks, t);
    hide Neighbours, TwoHop, Reached;
    UncoveredIs(view, u, picks[..t]);
    UncoveredIs(view, u, some);
    assert x !in TwoHop(view, u) - Reached(view, some);
    ReachedIs(view, some, x);
    var v :| v in some && v < |view.adj| && x in Neighbours(view, v);
    OnlyPick(view, u, picks, t, x, v);
  }

  lemma OthersCover(view: View, u: nat, picks: seq<nat>, t: nat)
    requires u < |view.adj| && t < |picks| && picks[t] < |view.adj|
    requires Uncovered(view, u, picks) == {} && Private(view, u, picks, t) == {}
    ensures Uncovered(view, u, picks[..t] + picks[t + 1..]) == {}
  {
    hide Neighbours, TwoHop, Uncovered, Reached;
    var early, late := picks[..t], picks[t + 1..];
    UncoveredIs(view, u, picks);
    UncoveredIs(view, u, early);
    UncoveredIs(view, u, early + late);
    assert picks == early + [picks[t]] + late;
    forall x | x in TwoHop(view, u) ensures x in Reached(view, early + late) {
      assert x !in TwoHop(view, u) - Reached(view, picks);
      assert x !in Private(view, u, picks, t);
      ReachedIs(view, picks, x);
      ReachedIs(view, early, x);
      ReachedIs(view, late, x);
      ReachedIs(view, early + late, x);
    }
  }

  lemma AllNeeded(view: View, u: nat, picks: seq<nat>, some: seq<nat>)
    requires u < |view.adj| && forall t | 0 <= t < |picks| :: picks[t] < |view.adj| && Private(view, u, picks, t) != {}
    requires Among(some, picks) && Uncovered(view, u, some) == {}
    ensures Among(picks, some)
  {
    hide Uncovered, Private;
    forall v | v in picks ensures v in some {
      var t :| 0 <= t < |picks| && picks[t] == v;
      PrivateIsNeeded(view, u, picks, t, some);
    }
  }

  lemma OneTooMany(view: View, u: nat, picks: seq<nat>, t: nat)
    requires u < |view.adj| && t < |picks| && picks[t] < |view.adj| && Uncovered(view, u, picks) == {}
    requires Private(view, u, picks, t) == {} && picks[t] !in picks[..t] + picks[t + 1..]
    ensures !Minimal(view, u, picks)
  {
    hide Uncovered, Private;
    OthersCover(view, u, picks, t);
    var others := picks[..t] + picks[t + 1..];
    assert Among(others, picks);
    assert picks[t] in picks;
  }

  /** The greedy relays are minimal exactly when each of them was the first to cover something
      that no later one covers again. */
  lemma MinimalExactlyWhen(view: View, u: nat, picks: seq<nat>)
    requires Greedy(view, u, picks) && Uncovered(view, u, picks) == {}
    ensures forall t | 0 <= t < |picks| :: picks[t] < |view.adj|
    ensures Minimal(view, u, picks) <==> forall t | 0 <= t < |picks| :: Private(view, u, picks, t) != {}
  {
    PicksDistinct(view, u, picks);
    hide Uncovered, Private, BestPick, Minimal, Among;
    if forall t | 0 <= t < |picks| :: Private(view, u, picks, t) != {} {
      forall some: seq<nat> | Among(some, picks) && Uncovered(view, u, some) == {} ensures Among(picks, some) {
        AllNeeded(view, u, picks, some);
      }
      MinimalIf(view, u, picks);
    }
    if t :| 0 <= t < |picks| && Private(view, u, picks, t) == {} {
      OneTooMany(view, u, picks, t);
    }
  }

  lemma MinimalIf(view: View, u: nat, picks: seq<nat>)
    requires u < |view.adj|
    requires forall some: seq<nat> | Among(some, picks) && Uncovered(view, u, some) == {} :: Among(picks, some)
    ensures Minimal(view, u, picks)
  {
  }

  /** The last pick covers something nobody else does, and where no list names a neighbour twice
      so does the last but one. */
  lemma LastPicksAreNeeded(view: View, u: nat, picks: seq<nat>, t: nat)
    requires Greedy(view, u, picks) && t < |picks| && picks[t] < |view.adj|
    requires t + 1 == |picks| || (t + 2 == |picks| && Simple(view))
    ensures Private(view, u, picks, t) != {}
  {
    var p, left := picks[t], Uncovered(view, u, picks[..t]);
    assert BestPick(view, u, picks, t);
    CountWitness(view.adj[p], left);
    if t + 1 == |picks| {
      assert picks[t + 1..] == [];
      assert Private(view, u, picks, t) == left * Ends(view.adj[p]);
    } else {
      var q := picks[t + 1];
      assert BestPick(view, u, picks, t + 1);
      assert picks[..t + 1] == picks[..t] + [p];
      OneMorePick(view, u, picks[..t], p);
      CountWitness(view.adj[q], left - Ends(view.adj[p]));
      assert q !in picks[..t] by { assert forall v | v in picks[..t] :: v in picks[..t + 1]; }
      assert picks[t + 2..] == [] && picks[t + 1..] == [q];
      assert Reached(view, [q]) == Neighbours(view, q);
      TakesNoMoreThanBest(view, u, picks, t, q);
      CountIsCardinality(view.adj[p], left);
      if Private(view, u, picks, t) == {} {
        MoreThan(left, Ends(view.adj[p]), Ends(view.adj[q]));
      }
    }
  }

  lemma MoreThan(left: set<nat>, p: set<nat>, q: set<nat>)
    requires q * (left - p) != {} && left * p - q == {}
    ensures |q * left| > |p * left|
  {
    var x :| x in q * (left - p);
    forall y | y in p * left ensures y in q {
      assert y !in left * p - q;
    }
    assert p * left <= q * left - {x};
    SubsetCard(p * left, q * left - {x});
  }

  /** One or two relays are always minimal. */
  lemma TwoAreMinimal(view: View, u: nat, picks: seq<nat>)
    requires Greedy(view, u, picks) && Uncovered(view, u, picks) == {} && Simple(view) && |picks| <= 2
    ensures Minimal(view, u, picks)
  {
    MinimalExactlyWhen(view, u, picks);
    hide Greedy, Simple, Private, Uncovered, Minimal;
    forall t | 0 <= t < |picks| ensures Private(view, u, picks, t) != {} {
      LastPicksAreNeeded(view, u, picks, t);
    }
  }

  lemma BestIsOne(view: View, u: nat, a: seq<nat>, b: seq<nat>, t: nat)
    requires u < |view.adj| && t < |a| && t < |b| && a[..t] == b[..t]
    requires BestPick(view, u, a, t) && BestPick(view, u, b, t)
    ensures a[t] == b[t]
  {
    hide Neighbours, Uncovered, CountInto;
  }

  lemma {:induction false} CommonPrefix(view: View, u: nat, a: seq<nat>, b: seq<nat>, t: nat)
    requires Greedy(view, u, a) && Greedy(view, u, b) && t <= |a| && t <= |b|
    ensures a[..t] == b[..t]
    decreases t
  {
    hide BestPick;
    if t > 0 {
      CommonPrefix(view, u, a, b, t - 1);
      assert BestPick(view, u, a, t - 1) && BestPick(view, u, b, t - 1);
      BestIsOne(view, u, a, b, t - 1);
    }
  }

  lemma NoLonger(view: View, u: nat, a: seq<nat>, b: seq<nat>)
    requires Greedy(view, u, a) && Greedy(view, u, b) && Uncovered(view, u, b) == {}
    ensures |a| <= |b|
  {
    var t := |b|;
    if t < |a| {
      CommonPrefix(view, u, a, b, t);
      assert b[..t] == b;
      assert BestPick(view, u, a, t);
      CountWitness(view.adj[a[t]], {});
    }
  }

  /** The greedy choice is a function of the topology: there is one greedy run that covers
      everything. */
  lemma GreedyIsOne(view: View, u: nat, a: seq<nat>, b: seq<nat>)
    requires Greedy(view, u, a) && Uncovered(view, u, a) == {}
    requires Greedy(view, u, b) && Uncovered(view, u, b) == {}
    ensures a == b
  {
    hide Greedy, Uncovered;
    NoLonger(view, u, a, b);
    NoLonger(view, u, b, a);
    CommonPrefix(view, u, a, b, |a|);
    assert a[..|a|] == a && b[..|b|] == b;
  }

  function LinksTo(ids: seq<nat>): (arcs: seq<Arc>)
    ensures |arcs| == |ids| && forall i | 0 <= i < |ids| :: arcs[i] == Arc(ids[i], 1)
  {
    seq(|ids|, (i: int) requires 0 <= i < |ids| => Arc(ids[i], 1))
  }

  /** Node 0 with the neighbours 1, 2 and 3, and 4 to 7 two hops away. */
  function EightNodes(): View {
    View(8, [LinksTo([1, 2, 3]), LinksTo([0, 4, 5]), LinksTo([0, 4, 6]), LinksTo([0, 5, 7]),
             LinksTo([1, 2]), LinksTo([1, 3]), LinksTo([2]), LinksTo([3])])
  }

  lemma EndsAre(ids: seq<nat>, ends: set<nat>)
    requires ends == set x | x in ids
    ensures Ends(LinksTo(ids)) == ends
  {
    var arcs := LinksTo(ids);
    forall x | x in ids ensures x in Ends(arcs) {
      var i :| 0 <= i < |ids| && ids[i] == x;
      assert arcs[i] in arcs && arcs[i].to == x;
    }
  }

  /** What the counterexample needs of its topology. */
  ghost predicate Tangled(view: View) {
    && Valid(view) && Simple(view) && |view.adj| == view.n == 8
    && forall v | 0 <= v < 4 :: Neighbours(view, v) == Near(v)
  }

  /** Who the first four of the eight nodes reach. */
  function Near(v: nat): set<nat> {
    if v == 0 then {1, 2, 3}
    else if v == 1 then {0, 4, 5}
    else if v == 2 then {0, 4, 6}
    else if v == 3 then {0, 5, 7}
    else {}
  }

  lemma FourEnds()
    ensures Ends(LinksTo([1, 2, 3])) == {1, 2, 3} && Ends(LinksTo([0, 4, 5])) == {0, 4, 5}
    ensures Ends(LinksTo([0, 4, 6])) == {0, 4, 6} && Ends(LinksTo([0, 5, 7])) == {0, 5, 7}
  {
    EndsAre([1, 2, 3], {1, 2, 3});
    EndsAre([0, 4, 5], {0, 4, 5});
    EndsAre([0, 4, 6], {0, 4, 6});
    EndsAre([0, 5, 7], {0, 5, 7});
  }

  lemma EightNodesSound()
    ensures Valid(EightNodes()) && Simple(EightNodes())
  {
  }

  lemma EightNodesAreTangled()
    ensures Tangled(EightNodes())
  {
    FourEnds();
    EightNodesSound();
    hide Valid, Simple, LinksTo, Ends;
  }

  lemma TwoHopIs(view: View)
    requires Tangled(view)
    ensures TwoHop(view, 0) == {4, 5, 6, 7}
  {
    hide Neighbours;
    assert Neighbours(view, 0) == {1, 2, 3} && Neighbours(view, 1) == {0, 4, 5};
    assert Neighbours(view, 2) == {0, 4, 6} && Neighbours(view, 3) == {0, 5, 7};
    forall w ensures w in TwoHop(view, 0) <==> w in {4, 5, 6, 7} {
      assert ViaNeighbour(view, 0, w) <==> w in {0, 4, 5, 6, 7};
    }
  }

  lemma LeftBy(view: View, picks: seq<nat>, v: nat, after: seq<nat>)
    requires 0 < |view.adj| && v < |view.adj| && after == picks + [v]
    ensures Uncovered(view, 0, after) == Uncovered(view, 0, picks) - Neighbours(view, v)
  {
    OneMorePick(view, 0, picks, v);
  }

  lemma LeftFirst(view: View)
    requires Tangled(view)
    ensures Uncovered(view, 0, []) == {4, 5, 6, 7} && Uncovered(view, 0, [1]) == {6, 7}
  {
    TwoHopIs(view);
    assert Uncovered(view, 0, []) == TwoHop(view, 0);
    LeftBy(view, [], 1, [1]);
    hide TwoHop, Uncovered, Neighbours, Valid, Simple;
  }

  lemma LeftThen(view: View)
    requires Tangled(view)
    ensures Uncovered(view, 0, [1, 2]) == {7} && Uncovered(view, 0, [1, 2, 3]) == {}
  {
    LeftFirst(view);
    LeftBy(view, [1], 2, [1, 2]);
    LeftBy(view, [1, 2], 3, [1, 2, 3]);
    hide TwoHop, Uncovered, Neighbours, Valid, Simple;
  }

  lemma TwoAndThreeDo(view: View)
    requires Tangled(view)
    ensures Uncovered(view, 0, [2, 3]) == {}
  {
    LeftFirst(view);
    LeftBy(view, [], 2, [2]);
    LeftBy(view, [2], 3, [2, 3]);
    hide TwoHop, Uncovered, Neighbours, Valid, Simple;
  }

  lemma CountIs(view: View, v: nat, left: set<nat>, both: set<nat>)
    requires Tangled(view) && v < 4 && Near(v) * left == both
    ensures CountInto(view.adj[v], left) == |both|
  {
    CountIsCardinality(view.adj[v], left);
    hide Near, Valid, CountInto;
  }

  /** Of neighbours that cover as much as each other the lowest is picked. */
  lemma PickIs(view: View, t: nat, left: set<nat>, covers: nat)
    requires Tangled(view) && t < 3 && left == Uncovered(view, 0, [1, 2, 3][..t]) && covers > 0
    requires forall v | t < v <= 3 :: CountInto(view.adj[v], left) == covers
    ensures BestPick(view, 0, [1, 2, 3], t)
  {
    hide Uncovered, CountInto, Valid, Simple, Neighbours;
    var picks := [1, 2, 3];
    assert picks[t] == t + 1 && forall v | t < v <= 3 :: v !in picks[..t];
    forall v: nat | 1 <= v <= t ensures v in picks[..t] {
      assert picks[..t][v - 1] == v;
    }
  }

  lemma FirstMeets()
    ensures Near(1) * {4, 5, 6, 7} == {4, 5} && Near(2) * {4, 5, 6, 7} == {4, 6}
    ensures Near(3) * {4, 5, 6, 7} == {5, 7}
  {
  }

  lemma LaterMeets()
    ensures Near(2) * {6, 7} == {6} && Near(3) * {6, 7} == {7} && Near(3) * {7} == {7}
  {
  }

  lemma FirstCounts(view: View)
    requires Tangled(view)
    ensures CountInto(view.adj[1], Uncovered(view, 0, [])) == 2
    ensures CountInto(view.adj[2], Uncovered(view, 0, [])) == CountInto(view.adj[3], Uncovered(view, 0, [])) == 2
  {
    hide Neighbours, Uncovered, CountInto, Valid, Simple, Near;
    LeftFirst(view);
    FirstMeets();
    CountIs(view, 1, {4, 5, 6, 7}, {4, 5});
    CountIs(view, 2, {4, 5, 6, 7}, {4, 6});
    CountIs(view, 3, {4, 5, 6, 7}, {5, 7});
  }

  lemma SecondCounts(view: View)
    requires Tangled(view)
    ensures CountInto(view.adj[2], Uncovered(view, 0, [1])) == CountInto(view.adj[3], Uncovered(view, 0, [1])) == 1
  {
    hide Neighbours, Uncovered, CountInto, Valid, Simple, Near;
    LeftFirst(view);
    LaterMeets();
    CountIs(view, 2, {6, 7}, {6});
    CountIs(view, 3, {6, 7}, {7});
  }

  lemma ThirdCounts(view: View)
    requires Tangled(view)
    ensures CountInto(view.adj[3], Uncovered(view, 0, [1, 2])) == 1
  {
    hide Neighbours, Uncovered, CountInto, Valid, Simple, Near;
    LeftThen(view);
    LaterMeets();
    CountIs(view, 3, {7}, {7});
  }

  lemma FirstIsOne(view: View)
    requires Tangled(view)
    ensures BestPick(view, 0, [1, 2, 3], 0)
  {
    hide Neighbours, Uncovered, CountInto, Valid, Simple, BestPick, Near;
    FirstCounts(view);
    assert [1, 2, 3][..0] == [];
    PickIs(view, 0, Uncovered(view, 0, []), 2);
  }

  lemma SecondIsTwo(view: View)
    requires Tangled(view)
    ensures BestPick(view, 0, [1, 2, 3], 1)
  {
    hide Neighbours, Uncovered, CountInto, Valid, Simple, BestPick, Near;
    SecondCounts(view);
    assert [1, 2, 3][..1] == [1];
    PickIs(view, 1, Uncovered(view, 0, [1]), 1);
  }

  lemma ThirdIsThree(view: View)
    requires Tangled(view)
    ensures BestPick(view, 0, [1, 2, 3], 2)
  {
    hide Neighbours, Uncovered, CountInto, Valid, Simple, BestPick, Near;
    ThirdCounts(view);
    assert [1, 2, 3][..2] == [1, 2];
    PickIs(view, 2, Uncovered(view, 0, [1, 2]), 1);
  }

  /** The greedy relays need not be minimal, nor the fewest: here the run picks 1, 2 and 3, though
      2 and 3 alone cover everything. */
  lemma GreedyNeedNotBeMinimal(view: View)
    requires Tangled(view)
    ensures Greedy(view, 0, [1, 2, 3]) && Uncovered(view, 0, [1, 2, 3]) == {}
    ensures Uncovered(view, 0, [2, 3]) == {} && !Minimal(view, 0, [1, 2, 3])
  {
    hide BestPick, Uncovered, Neighbours, Simple, Valid, Near;
    LeftThen(view);
    TwoAndThreeDo(view);
    FirstIsOne(view);
    SecondIsTwo(view);
    ThirdIsThree(view);
    assert Among([2, 3], [1, 2, 3]) && 1 in [1, 2, 3] && 1 !in [2, 3];
  }
}
