/** Breadth-first search for a shortest path. */
module Bfs {
  import opened Options

  type Adjacency = seq<seq<nat>>

  predicate Valid(adj: Adjacency) {
    forall u | 0 <= u < |adj| :: forall v | v in adj[u] :: v < |adj|
  }

  predicate Edge(adj: Adjacency, u: nat, v: nat) {
    u < |adj| && v in adj[u]
  }

  /** Consecutive nodes are neighbours. */
  predicate Walk(adj: Adjacency, p: seq<nat>) {
    p != [] && forall k | 0 < k < |p| :: Edge(adj, p[k - 1], p[k])
  }

  predicate Path(adj: Adjacency, p: seq<nat>, src: nat, dst: nat) {
    Walk(adj, p) && p[0] == src && p[|p| - 1] == dst
  }

  ghost predicate Connected(adj: Adjacency, src: nat, dst: nat) {
    exists p :: Path(adj, p, src, dst)
  }

  ghost predicate Shortest(adj: Adjacency, p: seq<nat>, src: nat, dst: nat) {
    Path(adj, p, src, dst) && forall q | Path(adj, q, src, dst) :: |p| <= |q|
  }

  // ---- The search tree ----------------------------------------------------------------------

  predicate Seen(prev: seq<Option<nat>>, v: nat) {
    v < |prev| && prev[v].Some?
  }

  /** Every node seen but the source hangs one further out than its predecessor. */
  ghost predicate Tree(adj: Adjacency, src: nat, prev: seq<Option<nat>>, dist: seq<nat>) {
    && |prev| == |dist| == |adj|
    && Seen(prev, src) && dist[src] == 0
    && forall v | Seen(prev, v) && v != src :: Hangs(adj, prev, dist, v)
  }

  ghost predicate Hangs(adj: Adjacency, prev: seq<Option<nat>>, dist: seq<nat>, v: nat)
    requires |prev| == |dist| == |adj| && Seen(prev, v)
  {
    var u := prev[v].value;
    Seen(prev, u) && Edge(adj, u, v) && dist[v] == dist[u] + 1
  }

  /** The queue is in order of distance, and nothing seen is two further out than its head. */
  ghost predicate Queue(prev: seq<Option<nat>>, dist: seq<nat>, q: seq<nat>, head: nat) {
    && |prev| == |dist|
    && (forall i | 0 <= i < |q| :: Seen(prev, q[i]) && head <= dist[q[i]])
    && (forall i, j | 0 <= i < j < |q| :: dist[q[i]] <= dist[q[j]])
    && forall v: nat | Seen(prev, v) :: dist[v] <= head + 1
  }

  /** All neighbours are seen, at most one further out. */
  ghost predicate Settled(adj: Adjacency, prev: seq<Option<nat>>, dist: seq<nat>, v: nat)
    requires |prev| == |dist| == |adj|
  {
    forall w: nat | Edge(adj, v, w) :: Seen(prev, w) && dist[w] <= dist[v] + 1
  }

  /** Everything seen is settled, but what is still queued and `but`. */
  ghost predicate AllSettled(adj: Adjacency, prev: seq<Option<nat>>, dist: seq<nat>, q: seq<nat>, but: set<nat>)
    requires |prev| == |dist| == |adj|
  {
    forall v: nat | Seen(prev, v) && v !in q && v !in but :: Settled(adj, prev, dist, v)
  }

  /** Whatever a walk reaches within `head` hops has been seen, at that distance or less. */
  lemma {:induction false} NearIsSeen(adj: Adjacency, src: nat, prev: seq<Option<nat>>, dist: seq<nat>,
                                     head: nat, p: seq<nat>)
    requires Tree(adj, src, prev, dist) && Walk(adj, p) && p[0] == src && |p| - 1 <= head
    requires forall v: nat | Seen(prev, v) && dist[v] < head :: Settled(adj, prev, dist, v)
    ensures Seen(prev, p[|p| - 1]) && dist[p[|p| - 1]] <= |p| - 1
    decreases |p|
  {
    var n := |p| - 1;
    if n > 0 {
      NearIsSeen(adj, src, prev, dist, head, p[..n]);
      assert Edge(adj, p[n - 1], p[n]);
    }
  }

  /** A node not yet seen is further out than the node being settled. */
  lemma UnseenIsFar(adj: Adjacency, src: nat, prev: seq<Option<nat>>, dist: seq<nat>, q: seq<nat>,
                    u: nat, dst: nat, p: seq<nat>)
    requires Tree(adj, src, prev, dist) && Seen(prev, u) && Queue(prev, dist, q, dist[u])
    requires AllSettled(adj, prev, dist, q, {u}) && !Seen(prev, dst) && Path(adj, p, src, dst)
    ensures |p| >= dist[u] + 2
  {
    if |p| - 1 <= dist[u] {
      NearIsSeen(adj, src, prev, dist, dist[u], p);
    }
  }

  lemma FoundShortest(adj: Adjacency, src: nat, prev: seq<Option<nat>>, dist: seq<nat>, q: seq<nat>,
                      u: nat, dst: nat, path: seq<nat>)
    requires Settling(adj, src, prev, dist, q, u) && !Seen(prev, dst)
    requires Path(adj, path, src, dst) && |path| == dist[u] + 2
    ensures Shortest(adj, path, src, dst)
  {
    forall p | Path(adj, p, src, dst) ensures |path| <= |p| {
      UnseenIsFar(adj, src, prev, dist, q, u, dst, p);
    }
  }

  /** When everything seen is settled, everything reachable has been seen. */
  lemma {:induction false} ReachableIsSeen(adj: Adjacency, src: nat, prev: seq<Option<nat>>, dist: seq<nat>,
          p: seq<nat>)
    requires Tree(adj, src, prev, dist) && AllSettled(adj, prev, dist, [], {}) && Walk(adj, p) && p[0] == src
    ensures Seen(prev, p[|p| - 1])
    decreases |p|
  {
    var n := |p| - 1;
    if n > 0 {
      ReachableIsSeen(adj, src, prev, dist, p[..n]);
      assert Edge(adj, p[n - 1], p[n]);
    }
  }

  // ---- The search ---------------------------------------------------------------------------

  /** From `dst` back to the source, then reversed. */
  method TracePath(adj: Adjacency, src: nat, dst: nat, prev: seq<Option<nat>>, ghost dist: seq<nat>)
    returns (path: seq<nat>)
    requires Tree(adj, src, prev, dist) && Seen(prev, dst)
    ensures Path(adj, path, src, dst) && |path| == dist[dst] + 1
  {
    path := [dst];
    var c := dst;
    while c != src
      invariant Seen(prev, c) && Path(adj, path, c, dst)
      invariant |path| + dist[c] == dist[dst] + 1
      decreases dist[c]
    {
      assert Hangs(adj, prev, dist, c);
      ghost var was := path;
      path := [prev[c].value] + path;
      c := prev[c].value;
      forall k: nat | 0 < k < |path| ensures Edge(adj, path[k - 1], path[k]) {
        if k > 1 { assert Edge(adj, was[k - 2], was[k - 1]); }
      }
    }
  }

  /** The state while `u` is being settled. */
  ghost predicate Settling(adj: Adjacency, src: nat, prev: seq<Option<nat>>, dist: seq<nat>, q: seq<nat>, u: nat) {
    && Tree(adj, src, prev, dist) && Seen(prev, u)
    && Queue(prev, dist, q, dist[u])
    && AllSettled(adj, prev, dist, q, {u})
  }

  lemma SeeNew(adj: Adjacency, src: nat, prev: seq<Option<nat>>, dist: seq<nat>, q: seq<nat>, u: nat, v: nat)
    requires Settling(adj, src, prev, dist, q, u) && Edge(adj, u, v) && v < |adj| && !Seen(prev, v)
    ensures Settling(adj, src, prev[v := Some(u)], dist[v := dist[u] + 1], q + [v], u)
  {
    var prev', dist' := prev[v := Some(u)], dist[v := dist[u] + 1];
    forall x | Seen(prev', x) && x != src ensures Hangs(adj, prev', dist', x) {
      if x != v { assert Hangs(adj, prev, dist, x); }
    }
    forall x: nat | Seen(prev', x) && x !in q + [v] && x !in {u} ensures Settled(adj, prev', dist', x) {
      assert x !in q && Settled(adj, prev, dist, x);
    }
  }

  /** A node taken off the queue that turns out settled leaves the invariant for the next. */
  ghost predicate Searching(adj: Adjacency, src: nat, prev: seq<Option<nat>>, dist: seq<nat>, q: seq<nat>) {
    && Tree(adj, src, prev, dist)
    && AllSettled(adj, prev, dist, q, {})
    && (q != [] ==> Seen(prev, q[0]) && Queue(prev, dist, q, dist[q[0]]))
  }

  lemma TakeHead(adj: Adjacency, src: nat, prev: seq<Option<nat>>, dist: seq<nat>, q: seq<nat>)
    requires Searching(adj, src, prev, dist, q) && q != []
    ensures Settling(adj, src, prev, dist, q[1..], q[0])
  {
    assert q == [q[0]] + q[1..];
  }

  lemma HeadSettled(adj: Adjacency, src: nat, prev: seq<Option<nat>>, dist: seq<nat>, q: seq<nat>, u: nat)
    requires Settling(adj, src, prev, dist, q, u) && forall w: nat | Edge(adj, u, w) :: Seen(prev, w)
    ensures Searching(adj, src, prev, dist, q)
  {
    if q != [] {
      assert q[0] in q;
      forall i | 0 <= i < |q| ensures dist[q[0]] <= dist[q[i]] {
        if i > 0 { assert dist[q[0]] <= dist[q[i]]; }
      }
    }
  }

  function Nowhere(n: nat): (prev: seq<Option<nat>>)
    ensures |prev| == n
  {
    seq(n, _ => None)
  }

  ghost function Unseen(prev: seq<Option<nat>>): (all: set<nat>)
    ensures forall v: nat :: v in all <==> v < |prev| && !Seen(prev, v)
    decreases |prev|
  {
    if prev == [] then {}
    else
      var n := |prev| - 1;
      assert forall v: nat | v < n :: prev[..n][v] == prev[v];
      Unseen(prev[..n]) + if prev[n].None? then {n} else {}
  }

  lemma FewerUnseen(prev: seq<Option<nat>>, v: nat, u: nat)
    requires v < |prev| && !Seen(prev, v)
    ensures Unseen(prev[v := Some(u)]) < Unseen(prev)
  {
    assert v in Unseen(prev) && v !in Unseen(prev[v := Some(u)]);
    forall x | x in Unseen(prev[v := Some(u)]) ensures x in Unseen(prev) {}
  }

  /** Settle `u`: its neighbours not yet seen are queued, unless one of them is `dst`. */
  method Settle(adj: Adjacency, src: nat, dst: nat, u: nat, prev0: seq<Option<nat>>, ghost dist0: seq<nat>,
          q0: seq<nat>)
    returns (prev: seq<Option<nat>>, ghost dist: seq<nat>, q: seq<nat>, found: Option<seq<nat>>)
    requires Valid(adj) && Settling(adj, src, prev0, dist0, q0, u) && !Seen(prev0, dst)
    ensures found.Some? ==> Shortest(adj, found.value, src, dst)
    ensures found.None? ==> Searching(adj, src, prev, dist, q) && !Seen(prev, dst)
    ensures found.None? ==> Unseen(prev) < Unseen(prev0) || (prev == prev0 && q == q0)
  {
    hide AllSettled, Hangs, Queue, Shortest, Searching;
    prev, dist, q := prev0, dist0, q0;
    var list := adj[u];
    for k := 0 to |list|
      invariant Settling(adj, src, prev, dist, q, u) && !Seen(prev, dst)
      invariant forall i | 0 <= i < k :: Seen(prev, list[i])
      invariant Unseen(prev) < Unseen(prev0) || (prev == prev0 && q == q0)
    {
      var v := list[k];
      assert Edge(adj, u, v);
      if prev[v].None? {
        SeeNew(adj, src, prev, dist, q, u, v);
        FewerUnseen(prev, v, u);
        ghost var near, far := prev, dist;
        prev, dist := prev[v := Some(u)], dist[v := dist[u] + 1];
        if v == dst {
          var path := TracePath(adj, src, dst, prev, dist);
          FoundShortest(adj, src, near, far, q, u, dst, path);
          return prev, dist, q, Some(path);
        }
        q := q + [v];
      }
    }
    HeadSettled(adj, src, prev, dist, q, u);
    found := None;
  }

  lemma OnlySource(adj: Adjacency, src: nat, prev: seq<Option<nat>>, dist: seq<nat>)
    requires src < |adj| && prev == Nowhere(|adj|)[src := Some(src)] && dist == seq(|adj|, _ => 0)
    ensures Searching(adj, src, prev, dist, [src])
  {
  }

  /** A shortest path from `src` to `dst`, if there is any. */
  method Search(src: nat, dst: nat, adj: Adjacency) returns (found: Option<seq<nat>>)
    requires Valid(adj) && (src != dst ==> src < |adj|)
    ensures found.Some? ==> Shortest(adj, found.value, src, dst)
    ensures found.None? ==> !Connected(adj, src, dst)
  {
    if src == dst {
      assert Path(adj, [src], src, dst);
      return Some([src]);
    }
    var prev: seq<Option<nat>> := Nowhere(|adj|)[src := Some(src)];
    ghost var dist: seq<nat> := seq(|adj|, _ => 0);
    OnlySource(adj, src, prev, dist);
    var q: seq<nat> := [src];
    while q != []
      invariant Searching(adj, src, prev, dist, q) && !Seen(prev, dst)
      decreases Unseen(prev), |q|
    {
      var u := q[0];
      TakeHead(adj, src, prev, dist, q);
      prev, dist, q, found := Settle(adj, src, dst, u, prev, dist, q[1..]);
      if found.Some? {
        return;
      }
    }
    if Connected(adj, src, dst) {
      var p :| Path(adj, p, src, dst);
      ReachableIsSeen(adj, src, prev, dist, p);
    }
    found := None;
  }
}
