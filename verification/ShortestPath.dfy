/** Link-state routing: Dijkstra with a lazy-deletion heap. */
module ShortestPath {
  import opened Options
  import opened Graphs
  import opened Sums

  /** A heap entry: a cost and the node it was offered to. */
  type HeapEntry = (nat, nat)

  predicate EntryLeq(a: HeapEntry, b: HeapEntry) {
    a.0 < b.0 || (a.0 == b.0 && a.1 <= b.1)
  }

  /** The least entry of the heap, by cost, then node. */
  method PopLeast(heap: seq<HeapEntry>) returns (least: HeapEntry, rest: seq<HeapEntry>)
    requires heap != []
    ensures multiset(heap) == multiset(rest) + multiset{least}
    ensures |rest| == |heap| - 1
    ensures forall e | e in heap :: EntryLeq(least, e)
  {
    var at := 0;
    for i := 1 to |heap|
      invariant 0 <= at < |heap|
      invariant forall j | 0 <= j < i :: EntryLeq(heap[at], heap[j])
    {
      if !EntryLeq(heap[at], heap[i]) { at := i; }
    }
    least, rest := heap[at], heap[..at] + heap[at + 1..];
    assert heap == heap[..at] + [heap[at]] + heap[at + 1..];
  }

  /** A walk of this cost whose first arc goes to `hop`. */
  ghost predicate WalkVia(view: View, src: nat, hop: nat, v: nat, c: nat) {
    exists w: seq<Arc> :: w != [] && w[0].to == hop && IsWalk(view, src, v, w) && Cost(w) == c
  }

  lemma WalkViaExtend(view: View, src: nat, hop: nat, u: nat, a: Arc, c: nat)
    requires WalkVia(view, src, hop, u, c) && u < |view.adj| && a in view.adj[u]
    ensures WalkVia(view, src, hop, a.to, c + a.cost)
  {
    var w: seq<Arc> :| w != [] && w[0].to == hop && IsWalk(view, src, u, w) && Cost(w) == c;
    OneArc(view, u, a);
    WalkConcat(view, src, u, a.to, w, [a]);
    assert (w + [a])[0] == w[0];
  }

  lemma OneArc(view: View, u: nat, a: Arc)
    requires u < |view.adj| && a in view.adj[u]
    ensures IsWalk(view, u, a.to, [a]) && Cost([a]) == a.cost
    ensures WalkVia(view, u, a.to, a.to, a.cost)
  {
    assert [a][1..] == [];
  }

  /** What the two arrays say of one node. */
  ghost predicate Grounded(view: View, src: nat, v: nat, d: nat, hop: Option<nat>) {
    && d <= UNREACHABLE
    && (v == src ==> d == 0)
    && (v != src && d < UNREACHABLE ==> hop.Some? && WalkVia(view, src, hop.value, v, d))
  }

  ghost predicate AllGrounded(view: View, src: nat, dist: seq<nat>, firstHop: seq<Option<nat>>) {
    |dist| == |firstHop| == view.n && forall v | 0 <= v < view.n :: Grounded(view, src, v, dist[v], firstHop[v])
  }

  ghost predicate ArcRelaxed(dist: seq<nat>, u: nat, a: Arc)
    requires u < |dist| && a.to < |dist|
  {
    dist[a.to] <= Capped(dist[u] + a.cost)
  }

  ghost predicate Relaxed(view: View, dist: seq<nat>, u: nat, upTo: nat)
    requires Valid(view) && |dist| == view.n && u < view.n && upTo <= |view.adj[u]|
  {
    forall i | 0 <= i < upTo :: ArcRelaxed(dist, u, view.adj[u][i])
  }

  /** A reached node is either still in the heap at its distance, or all its arcs are relaxed. */
  ghost predicate Pending(view: View, dist: seq<nat>, heap: seq<HeapEntry>, u: nat)
    requires Valid(view) && |dist| == view.n && u < view.n
  {
    dist[u] < UNREACHABLE ==> (dist[u], u) in heap || Relaxed(view, dist, u, |view.adj[u]|)
  }

  ghost predicate HeapSound(view: View, dist: seq<nat>, heap: seq<HeapEntry>)
    requires |dist| == view.n
  {
    forall e | e in heap :: e.1 < view.n && dist[e.1] <= e.0 < UNREACHABLE
  }

  /** One arc out of `u`: the offer is taken when it is cheaper than what `v` had. */
  method Relax(view: View, src: nat, u: nat, a: Arc, dist: seq<nat>, firstHop: seq<Option<nat>>, heap: seq<HeapEntry>)
    returns (dist': seq<nat>, firstHop': seq<Option<nat>>, heap': seq<HeapEntry>)
    requires Valid(view) && src < view.n && u < view.n && a in view.adj[u] && a.to < view.n
    requires AllGrounded(view, src, dist, firstHop) && HeapSound(view, dist, heap) && dist[u] < UNREACHABLE
    ensures AllGrounded(view, src, dist', firstHop') && HeapSound(view, dist', heap')
    ensures dist'[u] == dist[u] && ArcRelaxed(dist', u, a)
    ensures forall v | 0 <= v < view.n :: dist'[v] <= dist[v]
    ensures forall v | 0 <= v < view.n && dist'[v] < dist[v] :: (dist'[v], v) in heap'
    ensures forall e | e in heap :: e in heap'
    ensures (dist', heap') == (dist, heap) || Sum(dist') < Sum(dist)
  {
    dist', firstHop', heap' := dist, firstHop, heap;
    var offer := Capped(dist[u] + a.cost);
    if offer < dist[a.to] {
      OneArc(view, u, a);
      var hop := if u == src then Some(a.to) else firstHop[u];
      if u != src { WalkViaExtend(view, src, firstHop[u].value, u, a, dist[u]); }
      SumUpdate(dist, a.to, offer);
      dist' := dist[a.to := offer];
      firstHop' := firstHop[a.to := hop];
      heap' := heap + [(offer, a.to)];
    }
  }

  lemma RelaxedStays(view: View, dist: seq<nat>, dist': seq<nat>, u: nat, upTo: nat)
    requires Valid(view) && |dist| == |dist'| == view.n && u < view.n && upTo <= |view.adj[u]|
    requires Relaxed(view, dist, u, upTo) && dist'[u] == dist[u]
    requires forall v | 0 <= v < view.n :: dist'[v] <= dist[v]
    ensures Relaxed(view, dist', u, upTo)
  {
    forall i | 0 <= i < upTo ensures ArcRelaxed(dist', u, view.adj[u][i]) {
      assert ArcRelaxed(dist, u, view.adj[u][i]);
    }
  }

  lemma PendingStays(view: View, dist: seq<nat>, heap: seq<HeapEntry>, dist': seq<nat>, heap': seq<HeapEntry>, u: nat)
    requires Valid(view) && |dist| == |dist'| == view.n && u < view.n
    requires Pending(view, dist, heap, u)
    requires forall v | 0 <= v < view.n :: dist'[v] <= dist[v]
    requires forall v | 0 <= v < view.n && dist'[v] < dist[v] :: (dist'[v], v) in heap'
    requires forall e | e in heap :: e in heap'
    ensures Pending(view, dist', heap', u)
  {
    if dist'[u] == dist[u] < UNREACHABLE && (dist[u], u) !in heap {
      RelaxedStays(view, dist, dist', u, |view.adj[u]|);
    }
  }

  /** Every arc out of the node popped. */
  method RelaxAll(view: View, src: nat, u: nat, dist: seq<nat>, firstHop: seq<Option<nat>>, heap: seq<HeapEntry>)
    returns (dist': seq<nat>, firstHop': seq<Option<nat>>, heap': seq<HeapEntry>)
    requires Valid(view) && src < view.n && u < view.n
    requires AllGrounded(view, src, dist, firstHop) && HeapSound(view, dist, heap) && dist[u] < UNREACHABLE
    requires forall x | 0 <= x < view.n && x != u :: Pending(view, dist, heap, x)
    ensures AllGrounded(view, src, dist', firstHop') && HeapSound(view, dist', heap')
    ensures forall x | 0 <= x < view.n :: Pending(view, dist', heap', x)
    ensures (dist', heap') == (dist, heap) || Sum(dist') < Sum(dist)
  {
    dist', firstHop', heap' := dist, firstHop, heap;
    for i := 0 to |view.adj[u]|
      invariant AllGrounded(view, src, dist', firstHop') && HeapSound(view, dist', heap')
      invariant dist'[u] == dist[u] && Relaxed(view, dist', u, i)
      invariant forall x | 0 <= x < view.n && x != u :: Pending(view, dist', heap', x)
      invariant (dist', heap') == (dist, heap) || Sum(dist') < Sum(dist)
    {
      ghost var before, heapBefore := dist', heap';
      dist', firstHop', heap' := Relax(view, src, u, view.adj[u][i], dist', firstHop', heap');
      RelaxedStays(view, before, dist', u, i);
      forall x | 0 <= x < view.n && x != u ensures Pending(view, dist', heap', x) {
        PendingStays(view, before, heapBefore, dist', heap', x);
      }
    }
  }

  /** With nothing pending, no walk is cheaper than the distance of where it ends. */
  lemma {:induction false} FixedPointIsLeast(view: View, dist: seq<nat>, u: nat, v: nat, w: seq<Arc>)
    requires Valid(view) && |dist| == view.n && u < view.n && IsWalk(view, u, v, w)
    requires forall x | 0 <= x < view.n :: dist[x] <= UNREACHABLE
    requires forall x | 0 <= x < view.n :: Pending(view, dist, [], x)
    ensures v < view.n && dist[v] <= Capped(dist[u] + Cost(w))
    decreases |w|
  {
    if w != [] {
      var i :| 0 <= i < |view.adj[u]| && view.adj[u][i] == w[0];
      assert Pending(view, dist, [], u);
      assert dist[u] < UNREACHABLE ==> ArcRelaxed(dist, u, view.adj[u][i]);
      FixedPointIsLeast(view, dist, w[0].to, v, w[1..]);
    }
  }

  /** Dijkstra from `src`: least costs and first hops. */
  method Distances(view: View, src: nat) returns (dist: seq<nat>, firstHop: seq<Option<nat>>)
    requires Valid(view) && src < view.n
    ensures AllGrounded(view, src, dist, firstHop)
    ensures forall v | 0 <= v < view.n :: LeastCost(view, src, v, UNREACHABLE, dist[v])
  {
    dist := seq(view.n, v requires 0 <= v < view.n => if v == src then 0 else UNREACHABLE);
    firstHop := seq(view.n, _ => None);
    var heap: seq<HeapEntry> := [(0, src)];
    while heap != []
      invariant AllGrounded(view, src, dist, firstHop) && HeapSound(view, dist, heap)
      invariant forall x | 0 <= x < view.n :: Pending(view, dist, heap, x)
      decreases Sum(dist), |heap|
    {
      var least, rest := PopLeast(heap);
      AfterPop(view, dist, heap, least, rest);
      heap := rest;
      if least.0 <= dist[least.1] {
        dist, firstHop, heap := RelaxAll(view, src, least.1, dist, firstHop, heap);
      }
    }
    forall v | 0 <= v < view.n ensures LeastCost(view, src, v, UNREACHABLE, dist[v]) {
      assert Grounded(view, src, v, dist[v], firstHop[v]);
      if v == src { assert IsWalk(view, src, src, []) && Cost([]) == 0; }
      forall w | IsWalk(view, src, v, w) ensures dist[v] <= Cost(w) {
        assert Grounded(view, src, src, dist[src], firstHop[src]);
        FixedPointIsLeast(view, dist, src, v, w);
      }
    }
  }

  lemma AfterPop(view: View, dist: seq<nat>, heap: seq<HeapEntry>, least: HeapEntry, rest: seq<HeapEntry>)
    requires Valid(view) && |dist| == view.n && HeapSound(view, dist, heap)
    requires forall x | 0 <= x < view.n :: Pending(view, dist, heap, x)
    requires multiset(heap) == multiset(rest) + multiset{least}
    ensures least in heap && HeapSound(view, dist, rest)
    ensures forall x | 0 <= x < view.n && (x != least.1 || least.0 > dist[x]) :: Pending(view, dist, rest, x)
  {
    assert least in multiset(heap);
    forall e | e in rest ensures e in heap {
      assert e in multiset(rest) && e in multiset(heap);
    }
    forall e | e in heap && e != least ensures e in rest {
      assert e in multiset(heap) && e in multiset(rest);
    }
    forall x | 0 <= x < view.n && (x != least.1 || least.0 > dist[x]) ensures Pending(view, dist, rest, x) {
      assert Pending(view, dist, heap, x);
      assert (dist[x], x) != least;
    }
  }

  /** Node `src`'s routing table. */
  method DijkstraTable(view: View, src: nat) returns (table: Table)
    requires Valid(view) && src < view.n
    ensures TableCorrect(view, src, table, UNREACHABLE)
  {
    var dist, firstHop := Distances(view, src);
    table := [];
    for d := 0 to view.n
      invariant OneRowEach(table) && forall e | e in table :: e.dest < d
      invariant forall x: nat ::
                  Lookup(table, x) ==
                    if x < d && x != src && dist[x] != UNREACHABLE
                    then Some(RouteEntry(x, firstHop[x].value, dist[x])) else None
    {
      assert Grounded(view, src, d, dist[d], firstHop[d]);
      if d != src && dist[d] != UNREACHABLE {
        var e := RouteEntry(d, firstHop[d].value, dist[d]);
        forall x: nat {
          LookupAppend(table, e, x);
        }
        table := table + [e];
      }
    }
    forall d: nat
      ensures match Lookup(table, d)
              case Some(e) => d != src && d < view.n && e.metric < UNREACHABLE && RowCorrect(view, src, e)
              case None => d == src || d >= view.n || LeastCost(view, src, d, UNREACHABLE, UNREACHABLE)
    {
      if Lookup(table, d).Some? {
        assert Grounded(view, src, d, dist[d], firstHop[d]);
        RowFromWalk(view, src, Lookup(table, d).value);
      }
    }
  }

  /** A first hop on a walk of least cost has the rest as its own least cost. */
  lemma RowFromWalk(view: View, src: nat, e: RouteEntry)
    requires src < |view.adj| && LeastCost(view, src, e.dest, UNREACHABLE, e.metric) && e.metric < UNREACHABLE
    requires WalkVia(view, src, e.nextHop, e.dest, e.metric)
    ensures RowCorrect(view, src, e)
  {
    var w: seq<Arc> :| w != [] && w[0].to == e.nextHop && IsWalk(view, src, e.dest, w) && Cost(w) == e.metric;
    var a := w[0];
    assert IsWalk(view, a.to, e.dest, w[1..]) && Cost(w[1..]) == e.metric - a.cost;
    NoneCheaperAfterArc(view, src, a, e.dest, e.metric);
    assert a in view.adj[src] && LeastCost(view, e.nextHop, e.dest, UNREACHABLE, e.metric - a.cost);
  }

  /** Every node computes its table on its own. */
  method Compute(view: View) returns (tables: seq<Table>)
    requires Valid(view)
    ensures TablesCorrect(view, tables, UNREACHABLE)
  {
    tables := [];
    for u := 0 to view.n
      invariant |tables| == u && forall x | 0 <= x < u :: TableCorrect(view, x, tables[x], UNREACHABLE)
    {
      var table := DijkstraTable(view, u);
      tables := tables + [table];
    }
  }
}
