/** Distance-vector routing: in-place Bellman-Ford with a metric "infinity". */
module DistanceVector {
  import opened Options
  import opened Graphs

  /** `dist[u][d]` and `next[u][d]`: every node's vector and chosen next hops. */
  datatype Vectors = Vectors(dist: seq<seq<nat>>, next: seq<seq<Option<nat>>>)

  ghost predicate Shaped(view: View, s: Vectors) {
    && |s.dist| == |s.next| == view.n
    && (forall u | 0 <= u < view.n :: |s.dist[u]| == |s.next[u]| == view.n)
  }

  /** Relaxing destination `d` at `u` over one arc. */
  function Relaxed(s: Vectors, max: nat, u: nat, a: Arc, d: nat): Vectors
    requires u < |s.dist| == |s.next| && a.to < |s.dist| && d < |s.dist[u]| == |s.next[u]| && d < |s.dist[a.to]|
  {
    if s.dist[a.to][d] == UNREACHABLE then s
    else
      var cand := Capped(a.cost + s.dist[a.to][d]);
      if cand < max && cand < s.dist[u][d] then
        var row: seq<nat> := s.dist[u][d := cand];
        var hops: seq<Option<nat>> := s.next[u][d := Some(a.to)];
        Vectors(s.dist[u := row], s.next[u := hops])
      else s
  }

  function Initial(n: nat): Vectors {
    Vectors(seq(n, u requires 0 <= u < n => seq(n, d requires 0 <= d < n => if d == u then 0 else UNREACHABLE)),
            seq(n, _ => seq(n, _ => None)))
  }

  // ---- What every single relaxation keeps -------------------------------------------------

  /** The chosen hop is a neighbour whose vector accounts for the rest of the distance. */
  ghost predicate Supported(view: View, s: Vectors, max: nat, u: nat, d: nat)
    requires Valid(view) && Shaped(view, s) && u < view.n && d < view.n
  {
    && s.dist[u][d] <= UNREACHABLE
    && (u == d ==> s.dist[u][d] == 0 && s.next[u][d] == None)
    && (u != d && s.dist[u][d] == UNREACHABLE ==> s.next[u][d] == None)
    && (u != d && s.dist[u][d] < UNREACHABLE ==>
          && s.dist[u][d] < max
          && s.next[u][d].Some?
          && exists i :: 0 <= i < |view.adj[u]| && view.adj[u][i].to == s.next[u][d].value
                         && s.dist[u][d] >= view.adj[u][i].cost + s.dist[view.adj[u][i].to][d])
    && (s.dist[u][d] < UNREACHABLE ==> HasWalk(view, u, d, s.dist[u][d]))
  }

  ghost predicate AllSupported(view: View, s: Vectors, max: nat) {
    && Valid(view) && Shaped(view, s) && max <= UNREACHABLE
    && forall u, d | 0 <= u < view.n && 0 <= d < view.n :: Supported(view, s, max, u, d)
  }

  ghost predicate Lower(s: Vectors, s': Vectors)
    requires |s.dist| == |s'.dist| && forall u | 0 <= u < |s.dist| :: |s.dist[u]| == |s'.dist[u]|
  {
    forall u, d | 0 <= u < |s.dist| && 0 <= d < |s.dist[u]| :: s'.dist[u][d] <= s.dist[u][d]
  }

  lemma InitialSupported(view: View, max: nat)
    requires Valid(view) && max <= UNREACHABLE
    ensures AllSupported(view, Initial(view.n), max)
  {
    forall u: nat | u < view.n ensures HasWalk(view, u, u, 0) {
      assert IsWalk(view, u, u, []) && Cost([]) == 0;
    }
  }

  /** Any one relaxation, of any node over any of its arcs, keeps every distance grounded in a
      walk and every next hop supported. */
  lemma RelaxationKeepsSupport(view: View, s: Vectors, max: nat, u: nat, i: nat, d: nat)
    requires AllSupported(view, s, max) && u < view.n && i < |view.adj[u]| && d < view.n
    ensures AllSupported(view, Relaxed(s, max, u, view.adj[u][i], d), max)
    ensures Lower(s, Relaxed(s, max, u, view.adj[u][i], d))
  {
    var s' := Relaxed(s, max, u, view.adj[u][i], d);
    assert Shaped(view, s') && Lower(s, s');
    hide Relaxed, Supported;
    forall x, y | 0 <= x < view.n && 0 <= y < view.n ensures Supported(view, s', max, x, y) {
      RelaxedSupports(view, s, max, u, i, d, x, y);
    }
  }

  lemma RelaxedSupports(view: View, s: Vectors, max: nat, u: nat, i: nat, d: nat, x: nat, y: nat)
    requires AllSupported(view, s, max) && u < view.n && i < |view.adj[u]| && d < view.n && x < view.n && y < view.n
    requires Shaped(view, Relaxed(s, max, u, view.adj[u][i], d))
    ensures Supported(view, Relaxed(s, max, u, view.adj[u][i], d), max, x, y)
  {
    var a := view.adj[u][i];
    assert Supported(view, s, max, a.to, d);
    assert Supported(view, s, max, u, d);
    assert Supported(view, s, max, x, y);
    hide HasWalk;
    if s.dist[a.to][d] < UNREACHABLE { ArcThenWalk(view, u, a, d, s.dist[a.to][d]); }
  }

  /** One relaxation of a schedule. */
  datatype Move = Move(node: nat, arc: nat, dest: nat)

  ghost predicate MovesOn(view: View, moves: seq<Move>) {
    forall k | 0 <= k < |moves| ::
      moves[k].node < |view.adj| && moves[k].arc < |view.adj[moves[k].node]| && moves[k].dest < view.n
  }

  /** The vectors after any schedule of relaxations. */
  ghost function AfterMoves(view: View, max: nat, moves: seq<Move>): (s: Vectors)
    requires Valid(view) && max <= UNREACHABLE && MovesOn(view, moves)
    ensures AllSupported(view, s, max)
    decreases |moves|
  {
    if moves == [] then
      InitialSupported(view, max);
      Initial(view.n)
    else
      var last := moves[|moves| - 1];
      var s := AfterMoves(view, max, moves[..|moves| - 1]);
      RelaxationKeepsSupport(view, s, max, last.node, last.arc, last.dest);
      Relaxed(s, max, last.node, view.adj[last.node][last.arc], last.dest)
  }

  /** A chain of next hops towards `d`. */
  ghost predicate NextChain(s: Vectors, d: nat, path: seq<nat>) {
    && path != [] && path[|path| - 1] == d
    && forall i | 0 <= i < |path| - 1 ::
         path[i] < |s.next| && d < |s.next[path[i]]| && s.next[path[i]][d] == Some(path[i + 1])
  }

  ghost predicate Descends(s: Vectors, d: nat, path: seq<nat>) {
    && (forall i | 0 <= i < |path| :: path[i] < |s.dist| && d < |s.dist[path[i]]|)
    && forall i, j | 0 <= i < j < |path| :: s.dist[path[j]][d] < s.dist[path[i]][d]
  }

  /** With positive costs, the next hops of supported vectors lead from any reached node to the
      destination, at ever smaller distance. */
  lemma {:induction false} SupportedChain(view: View, s: Vectors, max: nat, u: nat, d: nat) returns (path: seq<nat>)
    requires AllSupported(view, s, max) && PositiveCosts(view) && u < view.n && d < view.n
    requires s.dist[u][d] < UNREACHABLE
    ensures path != [] && path[0] == u && NextChain(s, d, path) && Descends(s, d, path)
    decreases s.dist[u][d]
  {
    assert Supported(view, s, max, u, d);
    if u == d {
      path := [u];
    } else {
      var i :| 0 <= i < |view.adj[u]| && view.adj[u][i].to == s.next[u][d].value
               && s.dist[u][d] >= view.adj[u][i].cost + s.dist[view.adj[u][i].to][d];
      var rest := SupportedChain(view, s, max, view.adj[u][i].to, d);
      path := [u] + rest;
    }
  }

  /** The next hops are free of loops after every single relaxation of every schedule. */
  lemma LoopFreeAlways(view: View, max: nat, moves: seq<Move>, u: nat, d: nat) returns (path: seq<nat>)
    requires Valid(view) && PositiveCosts(view) && max <= UNREACHABLE && MovesOn(view, moves)
    requires u < view.n && d < view.n && AfterMoves(view, max, moves).dist[u][d] < UNREACHABLE
    ensures path != [] && path[0] == u && NextChain(AfterMoves(view, max, moves), d, path) && NoRepeat(path)
  {
    path := SupportedChain(view, AfterMoves(view, max, moves), max, u, d);
  }

  // ---- Rounds --------------------------------------------------------------------------

  /** No walk of at most `k` arcs that costs less than `max` beats the vector. */
  ghost predicate GoodUpTo(view: View, s: Vectors, max: nat, k: nat, u: nat, d: nat)
    requires Shaped(view, s) && u < view.n && d < view.n
  {
    forall w | IsWalk(view, u, d, w) && |w| <= k && Cost(w) < max :: s.dist[u][d] <= Cost(w)
  }

  ghost predicate AllGoodUpTo(view: View, s: Vectors, max: nat, k: nat)
    requires Shaped(view, s)
  {
    forall u, d | 0 <= u < view.n && 0 <= d < view.n :: GoodUpTo(view, s, max, k, u, d)
  }

  /** ... nor one that takes this arc first and at most `k` more. */
  ghost predicate GoodVia(view: View, s: Vectors, max: nat, k: nat, u: nat, a: Arc, d: nat)
    requires Shaped(view, s) && u < view.n && d < view.n
  {
    forall w | IsWalk(view, a.to, d, w) && |w| <= k && a.cost + Cost(w) < max :: s.dist[u][d] <= a.cost + Cost(w)
  }

  ghost predicate RowGoodVia(view: View, s: Vectors, max: nat, k: nat, u: nat, i: nat, upTo: nat)
    requires Valid(view) && Shaped(view, s) && u < view.n && i < |view.adj[u]| && upTo <= view.n
  {
    forall d | 0 <= d < upTo :: GoodVia(view, s, max, k, u, view.adj[u][i], d)
  }

  ghost predicate NodeGood(view: View, s: Vectors, max: nat, k: nat, u: nat, upTo: nat)
    requires Valid(view) && Shaped(view, s) && u < view.n && upTo <= |view.adj[u]|
  {
    forall i | 0 <= i < upTo :: RowGoodVia(view, s, max, k, u, i, view.n)
  }

  /** Nothing to do: relaxing this changes nothing. */
  ghost predicate Tight(s: Vectors, max: nat, u: nat, a: Arc, d: nat)
    requires u < |s.dist| == |s.next| && a.to < |s.dist| && d < |s.dist[u]| == |s.next[u]| && d < |s.dist[a.to]|
  {
    Relaxed(s, max, u, a, d) == s
  }

  ghost predicate RowTight(view: View, s: Vectors, max: nat, u: nat, i: nat, upTo: nat)
    requires Valid(view) && Shaped(view, s) && u < view.n && i < |view.adj[u]| && upTo <= view.n
  {
    forall d | 0 <= d < upTo :: Tight(s, max, u, view.adj[u][i], d)
  }

  ghost predicate NodeTight(view: View, s: Vectors, max: nat, u: nat, upTo: nat)
    requires Valid(view) && Shaped(view, s) && u < view.n && upTo <= |view.adj[u]|
  {
    forall i | 0 <= i < upTo :: RowTight(view, s, max, u, i, view.n)
  }

  ghost predicate FixedPoint(view: View, s: Vectors, max: nat)
    requires Valid(view) && Shaped(view, s)
  {
    forall u | 0 <= u < view.n :: NodeTight(view, s, max, u, |view.adj[u]|)
  }

  /** One arc of one node, over all destinations. */
  method RelaxRow(view: View, max: nat, u: nat, i: nat, ghost k: nat, s: Vectors) returns (s': Vectors, changed: bool)
    requires AllSupported(view, s, max) && u < view.n && i < |view.adj[u]| && AllGoodUpTo(view, s, max, k)
    ensures AllSupported(view, s', max) && Lower(s, s') && AllGoodUpTo(view, s', max, k)
    ensures RowGoodVia(view, s', max, k, u, i, view.n)
    ensures !changed ==> s' == s && RowTight(view, s, max, u, i, view.n)
  {
    hide Supported, GoodUpTo, GoodVia, Relaxed, HasWalk;
    s', changed := s, false;
    for d := 0 to view.n
      invariant AllSupported(view, s', max) && Lower(s, s') && AllGoodUpTo(view, s', max, k)
      invariant RowGoodVia(view, s', max, k, u, i, d)
      invariant !changed ==> s' == s && RowTight(view, s, max, u, i, d)
    {
      var t := Relaxed(s', max, u, view.adj[u][i], d);
      RelaxationKeepsSupport(view, s', max, u, i, d);
      LowerKeepsGood(view, s', t, max, k);
      RelaxedIsGood(view, s', max, k, u, i, d);
      LowerKeepsRowGood(view, s', t, max, k, u, i, d);
      changed := changed || t != s';
      s' := t;
    }
  }

  lemma LowerKeepsGood(view: View, s: Vectors, s': Vectors, max: nat, k: nat)
    requires Shaped(view, s) && Shaped(view, s') && Lower(s, s') && AllGoodUpTo(view, s, max, k)
    ensures AllGoodUpTo(view, s', max, k)
  {
    forall u, d | 0 <= u < view.n && 0 <= d < view.n ensures GoodUpTo(view, s', max, k, u, d) {
      assert GoodUpTo(view, s, max, k, u, d);
    }
  }

  lemma LowerKeepsNodeGood(view: View, s: Vectors, s': Vectors, max: nat, k: nat, u: nat, upTo: nat)
    requires Valid(view) && Shaped(view, s) && Shaped(view, s') && Lower(s, s') && u < view.n && upTo <= |view.adj[u]|
    requires NodeGood(view, s, max, k, u, upTo)
    ensures NodeGood(view, s', max, k, u, upTo)
  {
    forall i | 0 <= i < upTo ensures RowGoodVia(view, s', max, k, u, i, view.n) {
      assert RowGoodVia(view, s, max, k, u, i, view.n);
      LowerKeepsRowGood(view, s, s', max, k, u, i, view.n);
    }
  }

  lemma LowerKeepsRowGood(view: View, s: Vectors, s': Vectors, max: nat, k: nat, u: nat, i: nat, upTo: nat)
    requires Valid(view) && Shaped(view, s) && Shaped(view, s') && Lower(s, s')
    requires u < view.n && i < |view.adj[u]| && upTo <= view.n && RowGoodVia(view, s, max, k, u, i, upTo)
    ensures RowGoodVia(view, s', max, k, u, i, upTo)
  {
    forall d | 0 <= d < upTo ensures GoodVia(view, s', max, k, u, view.adj[u][i], d) {
      assert GoodVia(view, s, max, k, u, view.adj[u][i], d);
    }
  }

  /** A relaxed entry is no worse than its arc followed by any short walk. */
  lemma RelaxedIsGood(view: View, s: Vectors, max: nat, k: nat, u: nat, i: nat, d: nat)
    requires AllSupported(view, s, max) && u < view.n && i < |view.adj[u]| && d < view.n && AllGoodUpTo(view, s, max, k)
    ensures GoodVia(view, Relaxed(s, max, u, view.adj[u][i], d), max, k, u, view.adj[u][i], d)
  {
    var a := view.adj[u][i];
    var s' := Relaxed(s, max, u, a, d);
    forall w | IsWalk(view, a.to, d, w) && |w| <= k && a.cost + Cost(w) < max
      ensures s'.dist[u][d] <= a.cost + Cost(w)
    {
      assert GoodUpTo(view, s, max, k, a.to, d);
      assert s.dist[a.to][d] <= Cost(w);
    }
  }

  /** All the arcs of one node. */
  method RelaxNode(view: View, max: nat, u: nat, ghost k: nat, s: Vectors) returns (s': Vectors, changed: bool)
    requires AllSupported(view, s, max) && u < view.n && AllGoodUpTo(view, s, max, k)
    ensures AllSupported(view, s', max) && Lower(s, s') && AllGoodUpTo(view, s', max, k)
    ensures NodeGood(view, s', max, k, u, |view.adj[u]|)
    ensures !changed ==> s' == s && NodeTight(view, s, max, u, |view.adj[u]|)
  {
    hide Supported, GoodUpTo, RowGoodVia, RowTight;
    s', changed := s, false;
    for i := 0 to |view.adj[u]|
      invariant AllSupported(view, s', max) && Lower(s, s') && AllGoodUpTo(view, s', max, k)
      invariant NodeGood(view, s', max, k, u, i)
      invariant !changed ==> s' == s && NodeTight(view, s, max, u, i)
    {
      var t, c := RelaxRow(view, max, u, i, k, s');
      LowerKeepsNodeGood(view, s', t, max, k, u, i);
      s', changed := t, changed || c;
    }
  }

  /** One round: every node takes in its neighbours' vectors, in place. */
  method Round(view: View, max: nat, ghost k: nat, s: Vectors) returns (s': Vectors, changed: bool)
    requires AllSupported(view, s, max) && AllGoodUpTo(view, s, max, k)
    ensures AllSupported(view, s', max) && AllGoodUpTo(view, s', max, k + 1)
    ensures !changed ==> s' == s && FixedPoint(view, s, max)
  {
    s', changed := s, false;
    for u := 0 to view.n
      invariant AllSupported(view, s', max) && AllGoodUpTo(view, s', max, k)
      invariant forall x | 0 <= x < u :: NodeGood(view, s', max, k, x, |view.adj[x]|)
      invariant !changed ==> s' == s && forall x | 0 <= x < u :: NodeTight(view, s, max, x, |view.adj[x]|)
    {
      var t, c := RelaxNode(view, max, u, k, s');
      forall x | 0 <= x < u ensures NodeGood(view, t, max, k, x, |view.adj[x]|) {
        LowerKeepsNodeGood(view, s', t, max, k, x, |view.adj[x]|);
      }
      s', changed := t, changed || c;
    }
    ghost var more := k + 1;
    forall u, d | 0 <= u < view.n && 0 <= d < view.n ensures GoodUpTo(view, s', max, more, u, d) {
      OneArcMore(view, s', max, k, u, d);
    }
  }

  lemma OneArcMore(view: View, s: Vectors, max: nat, k: nat, u: nat, d: nat)
    requires AllSupported(view, s, max) && u < view.n && d < view.n && NodeGood(view, s, max, k, u, |view.adj[u]|)
    ensures GoodUpTo(view, s, max, k + 1, u, d)
  {
    assert Supported(view, s, max, u, d);
    forall w | IsWalk(view, u, d, w) && |w| <= k + 1 && Cost(w) < max ensures s.dist[u][d] <= Cost(w) {
      if w != [] {
        var i :| 0 <= i < |view.adj[u]| && view.adj[u][i] == w[0];
        assert RowGoodVia(view, s, max, k, u, i, view.n);
        assert GoodVia(view, s, max, k, u, view.adj[u][i], d);
      }
    }
  }

  /** Short walks are enough: the vectors are exact once walks of `n` arcs are accounted for. */
  lemma ShortWalksSuffice(view: View, s: Vectors, max: nat, u: nat, d: nat, w: seq<Arc>)
    requires AllSupported(view, s, max) && AllGoodUpTo(view, s, max, view.n) && u < view.n && d < view.n
    requires IsWalk(view, u, d, w) && Cost(w) < max
    ensures s.dist[u][d] <= Cost(w)
  {
    var short := Shorten(view, u, d, w);
    assert GoodUpTo(view, s, max, view.n, u, d);
  }

  /** At a fixed point no walk below `max` beats the vector. */
  lemma {:induction false} FixedPointBeatsWalks(view: View, s: Vectors, max: nat, u: nat, d: nat, w: seq<Arc>)
    requires AllSupported(view, s, max) && FixedPoint(view, s, max) && u < view.n && d < view.n
    requires IsWalk(view, u, d, w) && Cost(w) < max
    ensures s.dist[u][d] <= Cost(w)
    decreases |w|
  {
    assert Supported(view, s, max, u, d);
    if w != [] {
      var i :| 0 <= i < |view.adj[u]| && view.adj[u][i] == w[0];
      FixedPointBeatsWalks(view, s, max, w[0].to, d, w[1..]);
      assert NodeTight(view, s, max, u, |view.adj[u]|) && RowTight(view, s, max, u, i, view.n);
      assert Tight(s, max, u, view.adj[u][i], d);
    }
  }

  /** Every entry is the least cost, when that is below `max`. */
  ghost predicate Exact(view: View, s: Vectors, max: nat)
    requires Shaped(view, s)
  {
    forall u, d | 0 <= u < view.n && 0 <= d < view.n ::
      forall w | IsWalk(view, u, d, w) && Cost(w) < max :: s.dist[u][d] <= Cost(w)
  }

  lemma ExactIsFixedPoint(view: View, s: Vectors, max: nat)
    requires AllSupported(view, s, max) && Exact(view, s, max)
    ensures FixedPoint(view, s, max)
  {
    forall u, i, d | 0 <= u < view.n && 0 <= i < |view.adj[u]| && 0 <= d < view.n
      ensures Tight(s, max, u, view.adj[u][i], d)
    {
      var a := view.adj[u][i];
      assert Supported(view, s, max, a.to, d);
      if s.dist[a.to][d] < UNREACHABLE && a.cost + s.dist[a.to][d] < max {
        ArcThenWalk(view, u, a, d, s.dist[a.to][d]);
        var w :| IsWalk(view, u, d, w) && Cost(w) == a.cost + s.dist[a.to][d];
      }
    }
    forall u | 0 <= u < view.n ensures NodeTight(view, s, max, u, |view.adj[u]|) {
      forall i | 0 <= i < |view.adj[u]| ensures RowTight(view, s, max, u, i, view.n) {
      }
    }
  }

  /** The rounds, at most `n` of them, end at the fixed point, where every entry is exact. */
  method Converge(view: View, max: nat) returns (s: Vectors)
    requires Valid(view) && max <= UNREACHABLE
    ensures AllSupported(view, s, max) && Exact(view, s, max) && FixedPoint(view, s, max)
  {
    s := Initial(view.n);
    InitialSupported(view, max);
    assert AllGoodUpTo(view, s, max, 0);
    var settled := false;
    var k := 0;
    while k < view.n && !settled
      invariant k <= view.n && AllSupported(view, s, max)
      invariant if settled then FixedPoint(view, s, max) else AllGoodUpTo(view, s, max, k)
      decreases view.n - k
    {
      var changed;
      s, changed := Round(view, max, k, s);
      settled := !changed;
      k := k + 1;
    }
    forall u, d, w | 0 <= u < view.n && 0 <= d < view.n && IsWalk(view, u, d, w) && Cost(w) < max
      ensures s.dist[u][d] <= Cost(w)
    {
      if settled {
        FixedPointBeatsWalks(view, s, max, u, d, w);
      } else {
        ShortWalksSuffice(view, s, max, u, d, w);
      }
    }
    ExactIsFixedPoint(view, s, max);
  }

  // ---- Tables --------------------------------------------------------------------------

  lemma EntryCorrect(view: View, s: Vectors, max: nat, u: nat, d: nat)
    requires AllSupported(view, s, max) && Exact(view, s, max) && u < view.n && d < view.n && u != d
    ensures s.next[u][d].Some? <==> s.dist[u][d] < UNREACHABLE
    ensures s.next[u][d].Some?
        ==> s.dist[u][d] < max && RowCorrect(view, u, RouteEntry(d, s.next[u][d].value, s.dist[u][d]))
    ensures s.next[u][d].None? ==> LeastCost(view, u, d, max, max)
  {
    assert Supported(view, s, max, u, d);
    if s.next[u][d].Some? {
      var i: nat :| i < |view.adj[u]| && view.adj[u][i].to == s.next[u][d].value
                    && s.dist[u][d] >= view.adj[u][i].cost + s.dist[view.adj[u][i].to][d];
      ExactHop(view, s, max, u, d, i);
      hide Exact, LeastCost, Supported;
      assert view.adj[u][i] in view.adj[u];
    }
  }

  /** Where all is exact the distance is made up of the arc taken and the rest. */
  lemma ExactHop(view: View, s: Vectors, max: nat, u: nat, d: nat, i: nat)
    requires AllSupported(view, s, max) && Exact(view, s, max) && u < view.n && d < view.n && i < |view.adj[u]|
    requires s.dist[u][d] < max && s.dist[u][d] >= view.adj[u][i].cost + s.dist[view.adj[u][i].to][d]
    ensures s.dist[u][d] == view.adj[u][i].cost + s.dist[view.adj[u][i].to][d]
    ensures LeastCost(view, u, d, UNREACHABLE, s.dist[u][d])
    ensures LeastCost(view, view.adj[u][i].to, d, UNREACHABLE, s.dist[view.adj[u][i].to][d])
  {
    var a := view.adj[u][i];
    assert Supported(view, s, max, a.to, d);
    ExactLeast(view, s, max, u, d);
    ExactLeast(view, s, max, a.to, d);
    ArcThenWalk(view, u, a, d, s.dist[a.to][d]);
    var w :| IsWalk(view, u, d, w) && Cost(w) == a.cost + s.dist[a.to][d];
  }

  lemma ExactLeast(view: View, s: Vectors, max: nat, u: nat, d: nat)
    requires AllSupported(view, s, max) && Exact(view, s, max) && u < view.n && d < view.n && s.dist[u][d] < max
    ensures LeastCost(view, u, d, UNREACHABLE, s.dist[u][d])
  {
    assert Supported(view, s, max, u, d);
  }

  /** Node `u`'s table: its vector's rows with a next hop. */
  method TableOf(view: View, max: nat, s: Vectors, u: nat) returns (table: Table)
    requires AllSupported(view, s, max) && Exact(view, s, max) && u < view.n
    ensures TableCorrect(view, u, table, max)
  {
    table := [];
    for d := 0 to view.n
      invariant OneRowEach(table) && forall e | e in table :: e.dest < d
      invariant forall x: nat ::
                  Lookup(table, x) ==
                    if x < d && x != u && s.next[u][x].Some?
                    then Some(RouteEntry(x, s.next[u][x].value, s.dist[u][x])) else None
    {
      if d != u && s.next[u][d].Some? {
        var e := RouteEntry(d, s.next[u][d].value, s.dist[u][d]);
        forall x: nat {
          LookupAppend(table, e, x);
        }
        table := table + [e];
      }
    }
    forall d: nat
      ensures match Lookup(table, d)
              case Some(e) => d != u && d < view.n && e.metric < max && RowCorrect(view, u, e)
              case None => d == u || d >= view.n || LeastCost(view, u, d, max, max)
    {
      if d < view.n && d != u { EntryCorrect(view, s, max, u, d); }
    }
  }

  method Compute(view: View, max: nat) returns (tables: seq<Table>)
    requires Valid(view) && max <= UNREACHABLE
    ensures TablesCorrect(view, tables, max)
  {
    var s := Converge(view, max);
    tables := [];
    for u := 0 to view.n
      invariant |tables| == u && forall x | 0 <= x < u :: TableCorrect(view, x, tables[x], max)
    {
      var table := TableOf(view, max, s, u);
      tables := tables + [table];
    }
  }

  /** Distance-vector tables are the link-state ones restricted to metrics below `max`: the
      same destinations, at the same metrics. */
  lemma RefinesLinkState(view: View, dv: seq<Table>, ls: seq<Table>, max: nat, u: nat, d: nat)
    requires Valid(view) && max <= UNREACHABLE
    requires TablesCorrect(view, dv, max) && TablesCorrect(view, ls, UNREACHABLE) && u < view.n
    ensures Lookup(dv[u], d).Some? <==> Lookup(ls[u], d).Some? && Lookup(ls[u], d).value.metric < max
    ensures Lookup(dv[u], d).Some? ==> Lookup(dv[u], d).value.metric == Lookup(ls[u], d).value.metric
  {
    assert TableCorrect(view, u, dv[u], max) && TableCorrect(view, u, ls[u], UNREACHABLE);
    LookupIn(dv[u], d);
    LookupIn(ls[u], d);
    if d != u && d < view.n {
      var c1 := if Lookup(dv[u], d).Some? then Lookup(dv[u], d).value.metric else max;
      var b1 := if Lookup(dv[u], d).Some? then UNREACHABLE else max;
      var c2 := if Lookup(ls[u], d).Some? then Lookup(ls[u], d).value.metric else UNREACHABLE;
      LeastCostUnique(view, u, d, b1, c1, UNREACHABLE, c2);
    }
  }
}
