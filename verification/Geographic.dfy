/** Greedy geographic forwarding: strict progress, hence no loops. */
module Geographic {
  import opened Options
  import opened Graphs

  /** The first of the nearest neighbours strictly nearer to the destination than `mine`. */
  function NearestCloser(arcs: seq<Arc>, far: nat -> real, mine: real): Option<nat>
    decreases |arcs|
  {
    if arcs == [] then None
    else
      var v := arcs[0].to;
      match NearestCloser(arcs[1..], far, mine)
      case None => if far(v) < mine then Some(v) else None
      case Some(w) => if far(v) < mine && far(v) <= far(w) then Some(v) else Some(w)
  }

  function Towards(distance: (nat, nat) -> real, d: nat): nat -> real {
    (v: nat) => distance(v, d)
  }

  /** Node `u`'s hop towards `d`, `distance` being the Euclidean distance between nodes. */
  function GreedyHop(view: View, distance: (nat, nat) -> real, u: nat, d: nat): Option<nat>
    requires u < |view.adj|
  {
    NearestCloser(view.adj[u], Towards(distance, d), distance(u, d))
  }

  lemma {:induction false} NearestIsNearest(arcs: seq<Arc>, far: nat -> real, mine: real)
    ensures NearestCloser(arcs, far, mine).None? <==> forall a | a in arcs :: far(a.to) >= mine
    ensures match NearestCloser(arcs, far, mine)
            case None => true
            case Some(v) =>
              far(v) < mine && (exists a :: a in arcs && a.to == v) && forall a | a in arcs :: far(v) <= far(a.to)
    decreases |arcs|
  {
    if arcs != [] {
      NearestIsNearest(arcs[1..], far, mine);
      assert arcs == [arcs[0]] + arcs[1..];
      assert arcs[0] in arcs;
    }
  }

  /** Of equally near neighbours the first listed is chosen. */
  lemma {:induction false} NearestIsFirst(arcs: seq<Arc>, far: nat -> real, mine: real) returns (k: nat)
    requires NearestCloser(arcs, far, mine).Some?
    ensures k < |arcs| && NearestCloser(arcs, far, mine) == Some(arcs[k].to)
    ensures forall j | 0 <= j < k :: far(arcs[k].to) < far(arcs[j].to)
    decreases |arcs|
  {
    var v := arcs[0].to;
    match NearestCloser(arcs[1..], far, mine)
    case None =>
      k := 0;
    case Some(w) =>
      if far(v) < mine && far(v) <= far(w) {
        k := 0;
      } else {
        var rest := NearestIsFirst(arcs[1..], far, mine);
        k := rest + 1;
        NearestIsNearest(arcs[1..], far, mine);
      }
  }

  /** A destination is left unrouted exactly at a void: no neighbour is strictly closer. */
  lemma UnroutedExactlyAtVoid(view: View, distance: (nat, nat) -> real, u: nat, d: nat)
    requires u < |view.adj|
    ensures GreedyHop(view, distance, u, d).None?
        <==> forall a | a in view.adj[u] :: distance(a.to, d) >= distance(u, d)
  {
    NearestIsNearest(view.adj[u], Towards(distance, d), distance(u, d));
  }

  ghost predicate GreedyPath(view: View, distance: (nat, nat) -> real, d: nat, path: seq<nat>) {
    forall i | 0 <= i < |path| - 1 :: path[i] < |view.adj| && GreedyHop(view, distance, path[i], d) == Some(path[i + 1])
  }

  /** Along a greedy path the distance to the destination strictly falls, so no node repeats. */
  lemma {:induction false} GreedyIsLoopFree(view: View, distance: (nat, nat) -> real, d: nat, path: seq<nat>)
    requires GreedyPath(view, distance, d, path)
    ensures forall i, j | 0 <= i < j < |path| :: distance(path[j], d) < distance(path[i], d)
    ensures NoRepeat(path)
    decreases |path|
  {
    if |path| > 1 {
      var n := |path| - 1;
      GreedyIsLoopFree(view, distance, d, path[..n]);
      var u := path[n - 1];
      NearestIsNearest(view.adj[u], Towards(distance, d), distance(u, d));
      assert GreedyHop(view, distance, path[n - 1], d) == Some(path[n]);
      forall i | 0 <= i < n ensures distance(path[n], d) < distance(path[i], d) {
        if i < n - 1 { assert path[..n][i] == path[i] && path[..n][n - 1] == u; }
      }
    }
  }
}
