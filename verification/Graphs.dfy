/**
 Weighted topologies, walks over them and least costs: what a route is measured against.
 */
module Graphs {
  import opened Options
  import opened Pigeonhole

  /** One `(neighbour, link_cost)` entry of an adjacency list. */
  datatype Arc = Arc(to: nat, cost: nat)

  datatype View = View(n: nat, adj: seq<seq<Arc>>)

  /** `u32::MAX`: the cost of no route. */
  const UNREACHABLE: nat := 0xFFFF_FFFF

  /** `u32::saturating_add`, on a sum already taken. */
  function Capped(c: nat): nat {
    if c <= UNREACHABLE then c else UNREACHABLE
  }

  ghost predicate Valid(view: View) {
    |view.adj| == view.n && forall u, i | 0 <= u < view.n && 0 <= i < |view.adj[u]| :: view.adj[u][i].to < view.n
  }

  /** Every link costs something: what loop freedom needs. */
  ghost predicate PositiveCosts(view: View) {
    forall u, i | 0 <= u < |view.adj| && 0 <= i < |view.adj[u]| :: view.adj[u][i].cost >= 1
  }

  // ---- Walks -----------------------------------------------------------------------

  /** `w` lists the arcs of a walk from `u` to `v`. */
  ghost predicate IsWalk(view: View, u: nat, v: nat, w: seq<Arc>)
    decreases |w|
  {
    if w == [] then u == v
    else u < |view.adj| && w[0] in view.adj[u] && IsWalk(view, w[0].to, v, w[1..])
  }

  function Cost(w: seq<Arc>): nat
    decreases |w|
  {
    if w == [] then 0 else w[0].cost + Cost(w[1..])
  }

  lemma {:induction false} WalkConcat(view: View, u: nat, m: nat, v: nat, a: seq<Arc>, b: seq<Arc>)
    requires IsWalk(view, u, m, a) && IsWalk(view, m, v, b)
    ensures IsWalk(view, u, v, a + b) && Cost(a + b) == Cost(a) + Cost(b)
    decreases |a|
  {
    if a == [] {
      assert a + b == b;
    } else {
      WalkConcat(view, a[0].to, m, v, a[1..], b);
      assert (a + b)[1..] == a[1..] + b;
    }
  }

  function NodeAt(u: nat, w: seq<Arc>, i: nat): nat
    requires i <= |w|
  {
    if i == 0 then u else w[i - 1].to
  }

  lemma {:induction false} WalkSplit(view: View, u: nat, v: nat, w: seq<Arc>, i: nat)
    requires IsWalk(view, u, v, w) && i <= |w|
    ensures IsWalk(view, u, NodeAt(u, w, i), w[..i]) && IsWalk(view, NodeAt(u, w, i), v, w[i..])
    ensures Cost(w) == Cost(w[..i]) + Cost(w[i..])
    decreases |w|
  {
    if i == 0 {
      assert w[0..] == w;
    } else {
      WalkSplit(view, w[0].to, v, w[1..], i - 1);
      assert w[1..][..i - 1] == w[..i][1..];
      assert w[1..][i - 1..] == w[i..];
    }
  }

  lemma NodesInside(view: View, u: nat, v: nat, w: seq<Arc>, i: nat)
    requires Valid(view) && IsWalk(view, u, v, w) && i <= |w| && u < view.n
    ensures NodeAt(u, w, i) < view.n
  {
    if i > 0 {
      WalkSplit(view, u, v, w, i - 1);
      assert w[i - 1..][0] == w[i - 1];
      var at := NodeAt(u, w, i - 1);
      assert w[i - 1] in view.adj[at];
    }
  }

  /** More visited nodes than there are: one is visited twice. */
  lemma VisitedTwice(view: View, u: nat, v: nat, w: seq<Arc>) returns (i: nat, j: nat)
    requires Valid(view) && IsWalk(view, u, v, w) && u < view.n <= |w|
    ensures i < j <= |w| && NodeAt(u, w, i) == NodeAt(u, w, j)
  {
    var nodes := seq(|w| + 1, k requires 0 <= k <= |w| => NodeAt(u, w, k));
    forall k | 0 <= k < |nodes| ensures nodes[k] < view.n {
      NodesInside(view, u, v, w, k);
    }
    if Distinct(nodes) { DistinctBelow(nodes, view.n); }
    i, j :| 0 <= i < j < |nodes| && nodes[i] == nodes[j];
  }

  /** Any walk can be cut to fewer arcs than there are nodes, at no greater cost. */
  lemma {:induction false} Shorten(view: View, u: nat, v: nat, w: seq<Arc>) returns (short: seq<Arc>)
    requires Valid(view) && IsWalk(view, u, v, w) && u < view.n
    ensures IsWalk(view, u, v, short) && Cost(short) <= Cost(w) && |short| < view.n
    decreases |w|
  {
    if |w| < view.n {
      short := w;
    } else {
      var i, j := VisitedTwice(view, u, v, w);
      WalkSplit(view, u, v, w, i);
      WalkSplit(view, u, v, w, j);
      WalkSplit(view, u, NodeAt(u, w, j), w[..j], i);
      assert w[..j][..i] == w[..i];
      WalkConcat(view, u, NodeAt(u, w, i), v, w[..i], w[j..]);
      short := Shorten(view, u, v, w[..i] + w[j..]);
    }
  }

  // ---- Least costs -----------------------------------------------------------------

  ghost predicate HasWalk(view: View, u: nat, v: nat, c: nat) {
    exists w :: IsWalk(view, u, v, w) && Cost(w) == c
  }

  ghost predicate NoneCheaper(view: View, u: nat, v: nat, c: nat) {
    forall w | IsWalk(view, u, v, w) :: c <= Cost(w)
  }

  /** `c` is the least cost from `u` to `v`, or `bound` when every walk costs that or more. */
  ghost predicate LeastCost(view: View, u: nat, v: nat, bound: nat, c: nat) {
    c <= bound && (c < bound ==> HasWalk(view, u, v, c)) && NoneCheaper(view, u, v, c)
  }

  lemma LeastCostUnique(view: View, u: nat, v: nat, b1: nat, c1: nat, b2: nat, c2: nat)
    requires LeastCost(view, u, v, b1, c1) && LeastCost(view, u, v, b2, c2) && b1 <= b2
    ensures c1 == if c2 < b1 then c2 else b1
  {
    if c2 < b2 {
      var w :| IsWalk(view, u, v, w) && Cost(w) == c2;
    }
    if c1 < b1 {
      var w :| IsWalk(view, u, v, w) && Cost(w) == c1;
    }
  }

  lemma ArcThenWalk(view: View, u: nat, a: Arc, v: nat, c: nat)
    requires u < |view.adj| && a in view.adj[u] && HasWalk(view, a.to, v, c)
    ensures HasWalk(view, u, v, a.cost + c)
  {
    var w :| IsWalk(view, a.to, v, w) && Cost(w) == c;
    assert ([a] + w)[1..] == w;
    assert IsWalk(view, u, v, [a] + w) && Cost([a] + w) == a.cost + c;
  }

  lemma NoneCheaperAfterArc(view: View, u: nat, a: Arc, v: nat, c: nat)
    requires u < |view.adj| && a in view.adj[u] && NoneCheaper(view, u, v, c) && a.cost <= c
    ensures NoneCheaper(view, a.to, v, c - a.cost)
  {
    forall w | IsWalk(view, a.to, v, w) ensures c - a.cost <= Cost(w) {
      assert ([a] + w)[1..] == w;
      assert IsWalk(view, u, v, [a] + w) && Cost([a] + w) == a.cost + Cost(w);
    }
  }

  // ---- Routing tables ----------------------------------------------------------------

  datatype RouteEntry = RouteEntry(dest: nat, nextHop: nat, metric: nat)
  type Table = seq<RouteEntry>

  /** The table's row for a destination. */
  function Lookup(table: Table, dest: nat): Option<RouteEntry>
    decreases |table|
  {
    if table == [] then None
    else if table[0].dest == dest then Some(table[0])
    else Lookup(table[1..], dest)
  }

  lemma {:induction false} LookupIn(table: Table, dest: nat)
    ensures Lookup(table, dest).Some? ==> Lookup(table, dest).value in table && Lookup(table, dest).value.dest == dest
    ensures Lookup(table, dest).None? <==> forall e | e in table :: e.dest != dest
    decreases |table|
  {
    if table == [] {
    } else {
      LookupIn(table[1..], dest);
      assert table == [table[0]] + table[1..];
    }
  }

  lemma {:induction false} LookupAppend(table: Table, e: RouteEntry, dest: nat)
    ensures Lookup(table + [e], dest) ==
              if Lookup(table, dest).Some? then Lookup(table, dest) else if e.dest == dest then Some(e) else None
    decreases |table|
  {
    if table == [] {
      assert [e][1..] == [];
    } else {
      LookupAppend(table[1..], e, dest);
      assert (table + [e])[1..] == table[1..] + [e];
    }
  }

  /** The hop starts a walk of the metric's cost, and the metric is the least cost. */
  ghost predicate RowCorrect(view: View, u: nat, e: RouteEntry) {
    && e.metric < UNREACHABLE
    && LeastCost(view, u, e.dest, UNREACHABLE, e.metric)
    && exists a :: u < |view.adj| && a in view.adj[u] && a.to == e.nextHop && a.cost <= e.metric
                   && LeastCost(view, e.nextHop, e.dest, UNREACHABLE, e.metric - a.cost)
  }

  ghost predicate OneRowEach(table: Table) {
    forall i, j | 0 <= i < j < |table| :: table[i].dest != table[j].dest
  }

  /** A node's table routes exactly the destinations whose least cost is below `bound`. */
  ghost predicate TableCorrect(view: View, u: nat, table: Table, bound: nat) {
    && OneRowEach(table)
    && forall d: nat ::
      match Lookup(table, d)
      case Some(e) => d != u && d < view.n && e.metric < bound && RowCorrect(view, u, e)
      case None => d == u || d >= view.n || LeastCost(view, u, d, bound, bound)
  }

  ghost predicate TablesCorrect(view: View, tables: seq<Table>, bound: nat) {
    |tables| == view.n && forall u | 0 <= u < view.n :: TableCorrect(view, u, tables[u], bound)
  }

  // ---- Following tables hop by hop ------------------------------------------------------

  /** `path` is what hop-by-hop forwarding to `d` visits: each node's own table names the next. */
  ghost predicate HopByHop(tables: seq<Table>, d: nat, path: seq<nat>) {
    && path != [] && path[|path| - 1] == d
    && forall i | 0 <= i < |path| - 1 ::
         path[i] != d && path[i] < |tables| && NextHop(tables, path[i], d) == Some(path[i + 1])
  }

  function NextHop(tables: seq<Table>, u: nat, d: nat): Option<nat>
    requires u < |tables|
  {
    match Lookup(tables[u], d)
    case Some(e) => Some(e.nextHop)
    case None => None
  }

  ghost predicate NoRepeat(path: seq<nat>) {
    forall i, j | 0 <= i < j < |path| :: path[i] != path[j]
  }

  /** The links of a path, as a walk. */
  ghost predicate Along(path: seq<nat>, w: seq<Arc>) {
    |path| == |w| + 1 && forall i | 0 <= i < |w| :: w[i].to == path[i + 1]
  }

  /** Following correct tables from any node with a route reaches the destination, visits no
      node twice, and costs the metric in all: each node's table is computed on its own. */
  lemma {:induction false} FollowingReaches(view: View, tables: seq<Table>, bound: nat, u: nat, d: nat)
    returns (path: seq<nat>, w: seq<Arc>)
    requires Valid(view) && PositiveCosts(view) && TablesCorrect(view, tables, bound) && bound <= UNREACHABLE
    requires u < view.n && Lookup(tables[u], d).Some?
    ensures path != [] && path[0] == u && HopByHop(tables, d, path) && NoRepeat(path)
    ensures Along(path, w) && IsWalk(view, u, d, w) && Cost(w) == Lookup(tables[u], d).value.metric
    ensures FallingTo(tables, d, path, Lookup(tables[u], d).value.metric)
    decreases Lookup(tables[u], d).value.metric
  {
    var a := OneHop(view, tables, bound, u, d);
    assert |tables| == view.n;
    hide Valid, PositiveCosts, TablesCorrect, IsWalk, Cost, Along, HopByHop, NoRepeat, FallingTo;
    var e := Lookup(tables[u], d).value;
    if e.nextHop == d {
      path, w := [u] + [d], [a] + [];
      JustThere(view, tables, d);
      WalkExtends(view, u, d, a, [], [d]);
      PathExtends(tables, d, u, [d]);
      TwoApart(tables, u, d, e.metric);
    } else {
      var rest, v := FollowingReaches(view, tables, bound, e.nextHop, d);
      path, w := [u] + rest, [a] + v;
      EndsThere(tables, d, rest);
      WalkExtends(view, u, d, a, v, rest);
      FollowedHeadIsNew(tables, d, u, e.metric, rest, e.metric - a.cost);
      FallsFurther(tables, d, u, rest, e.metric - a.cost, e.metric);
      PathExtends(tables, d, u, rest);
    }
  }

  lemma PathExtends(tables: seq<Table>, d: nat, u: nat, rest: seq<nat>)
    requires u < |tables| && u != d && HopByHop(tables, d, rest) && NextHop(tables, u, d) == Some(rest[0])
    ensures HopByHop(tables, d, [u] + rest)
  {
    var path := [u] + rest;
    forall i | 0 <= i < |path| - 1
      ensures path[i] != d && path[i] < |tables| && NextHop(tables, path[i], d) == Some(path[i + 1])
    {
      if i > 0 { assert path[i] == rest[i - 1] && path[i + 1] == rest[i]; }
    }
  }

  /** The next hop is a link away, and its own table has the rest of the metric. */
  lemma OneHop(view: View, tables: seq<Table>, bound: nat, u: nat, d: nat) returns (a: Arc)
    requires Valid(view) && PositiveCosts(view) && TablesCorrect(view, tables, bound) && bound <= UNREACHABLE
    requires u < view.n && Lookup(tables[u], d).Some?
    ensures u != d && a in view.adj[u] && a.to == Lookup(tables[u], d).value.nextHop && a.to < view.n
    ensures 1 <= a.cost <= Lookup(tables[u], d).value.metric
    ensures a.to == d ==> a.cost == Lookup(tables[u], d).value.metric
    ensures a.to != d ==> Lookup(tables[a.to], d).Some?
                          && Lookup(tables[a.to], d).value.metric == Lookup(tables[u], d).value.metric - a.cost
  {
    assert TableCorrect(view, u, tables[u], bound);
    LookupIn(tables[u], d);
    var e := Lookup(tables[u], d).value;
    a :| a in view.adj[u] && a.to == e.nextHop && a.cost <= e.metric
         && LeastCost(view, e.nextHop, d, UNREACHABLE, e.metric - a.cost);
    var i :| 0 <= i < |view.adj[u]| && view.adj[u][i] == a;
    if a.to == d {
      assert IsWalk(view, d, d, []) && Cost([]) == 0;
    } else {
      RestRouted(view, tables[a.to], bound, a.to, d, e.metric - a.cost);
    }
  }

  lemma RestRouted(view: View, table: Table, bound: nat, u: nat, d: nat, c: nat)
    requires TableCorrect(view, u, table, bound) && u != d && d < view.n
    requires LeastCost(view, u, d, UNREACHABLE, c) && c < bound <= UNREACHABLE
    ensures Lookup(table, d).Some? && Lookup(table, d).value.metric == c
  {
    LookupIn(table, d);
    if Lookup(table, d).None? {
      LeastCostUnique(view, u, d, bound, bound, UNREACHABLE, c);
    } else {
      LeastCostUnique(view, u, d, UNREACHABLE, Lookup(table, d).value.metric, UNREACHABLE, c);
    }
  }

  lemma WalkExtends(view: View, u: nat, d: nat, a: Arc, v: seq<Arc>, rest: seq<nat>)
    requires u < |view.adj| && a in view.adj[u] && IsWalk(view, a.to, d, v)
    requires rest != [] && rest[0] == a.to && Along(rest, v)
    ensures IsWalk(view, u, d, [a] + v) && Cost([a] + v) == a.cost + Cost(v) && Along([u] + rest, [a] + v)
  {
    assert ([a] + v)[1..] == v;
  }

  lemma JustThere(view: View, tables: seq<Table>, d: nat)
    ensures IsWalk(view, d, d, []) && Cost([]) == 0 && Along([d], []) && HopByHop(tables, d, [d])
  {
  }

  lemma EndsThere(tables: seq<Table>, d: nat, rest: seq<nat>)
    requires HopByHop(tables, d, rest)
    ensures rest != [] && rest[|rest| - 1] == d
  {
  }

  lemma TwoApart(tables: seq<Table>, u: nat, d: nat, m: nat)
    requires u != d
    ensures NoRepeat([u] + [d]) && FallingTo(tables, d, [u] + [d], m)
  {
  }

  lemma FallsFurther(tables: seq<Table>, d: nat, u: nat, rest: seq<nat>, f: nat, m: nat)
    requires FallingTo(tables, d, rest, f) && f < m && rest != [] && rest[0] < |tables|
    requires Lookup(tables[rest[0]], d).Some? && Lookup(tables[rest[0]], d).value.metric == f
    ensures FallingTo(tables, d, [u] + rest, m)
  {
    var path := [u] + rest;
    forall i | 0 < i < |path| - 1 ensures path[i] < |tables| && Lookup(tables[path[i]], d).Some?
                                          && Lookup(tables[path[i]], d).value.metric < m {
      assert path[i] == rest[i - 1];
    }
  }

  /** Between its ends the path's metrics are below `m`. */
  ghost predicate FallingTo(tables: seq<Table>, d: nat, path: seq<nat>, m: nat) {
    forall i | 0 < i < |path| - 1 ::
      path[i] < |tables| && Lookup(tables[path[i]], d).Some? && Lookup(tables[path[i]], d).value.metric < m
  }

  lemma FollowedHeadIsNew(tables: seq<Table>, d: nat, u: nat, m: nat, rest: seq<nat>, f: nat)
    requires u < |tables| && u != d && Lookup(tables[u], d).Some? && Lookup(tables[u], d).value.metric == m > f
    requires rest != [] && rest[|rest| - 1] == d && NoRepeat(rest)
    requires rest[0] < |tables| && Lookup(tables[rest[0]], d).Some? && Lookup(tables[rest[0]], d).value.metric == f
    requires FallingTo(tables, d, rest, f)
    ensures NoRepeat([u] + rest)
  {
    forall i | 0 <= i < |rest| ensures rest[i] != u {
    }
  }
}
