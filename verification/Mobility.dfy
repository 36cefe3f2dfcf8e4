/**
 Stateless forwarding against a committed route over any sequence of graphs. A broken route stays
 down for `repair` time units; an epoch is `dt` of them.
 */
module Mobility {
  import opened Basics
  import opened Bfs
  import opened Options

  /** Is every hop of the route still there? */
  predicate RouteUp(route: seq<nat>, adj: Adjacency) {
    forall k | 0 < k < |route| :: Edge(adj, route[k - 1], route[k])
  }

  /** A repair takes this many epochs. */
  function RepairEpochs(repair: nat, dt: nat): nat
    requires dt > 0
  {
    (repair + dt - 1) / dt
  }

  lemma RepairedWhen(e: nat, k: nat, repair: nat, dt: nat)
    requires dt > 0
    ensures e * dt >= k * dt + repair <==> e >= k + RepairEpochs(repair, dt)
  {
    var r := RepairEpochs(repair, dt);
    assert (repair + dt - 1) == dt * r + (repair + dt - 1) % dt;
    if e >= k + r {
      assert e * dt >= (k + r) * dt;
    } else {
      assert e * dt <= (k + r - 1) * dt;
    }
  }

  // ---- Counting epochs ------------------------------------------------------------------------

  function Count(b: seq<bool>): nat
    decreases |b|
  {
    if b == [] then 0 else Count(b[..|b| - 1]) + (if b[|b| - 1] then 1 else 0)
  }

  /** The last epoch in which the route broke, or -1. */
  function LastBreak(broke: seq<bool>): (last: int)
    ensures -1 <= last < |broke|
    ensures last >= 0 ==> broke[last]
    ensures forall k | last < k < |broke| :: !broke[k]
    decreases |broke|
  {
    if broke == [] then -1
    else if broke[|broke| - 1] then |broke| - 1
    else LastBreak(broke[..|broke| - 1])
  }

  /** In the last of these epochs a break is still being repaired. */
  predicate Repairing(broke: seq<bool>, r: nat) {
    exists k | 0 <= k < |broke| :: broke[k] && |broke| - 1 < k + r
  }

  lemma RepairingSinceLast(broke: seq<bool>, r: nat)
    ensures Repairing(broke, r) <==> LastBreak(broke) >= 0 && |broke| - 1 < LastBreak(broke) + r
  {
  }

  /** The committed route delivers in an epoch exactly when a path exists and no break is being
      repaired. */
  ghost predicate DeliversUnlessRepairing(connected: seq<bool>, delivered: seq<bool>, broke: seq<bool>, r: nat) {
    && |connected| == |delivered| == |broke|
    && forall e | 0 <= e < |broke| ::
         delivered[e] <==> connected[e] && !Repairing(broke[..e + 1], r)
  }

  /** How many epochs the last break still keeps the route down. */
  function Remaining(broke: seq<bool>, r: nat): nat {
    var last := LastBreak(broke);
    if last >= 0 && |broke| < last + r then last + r - |broke| else 0
  }

  /** What the committed route misses is paid for by its breaks. */
  lemma {:induction false} MissedAreRepairs(connected: seq<bool>, delivered: seq<bool>, broke: seq<bool>, r: nat)
    requires DeliversUnlessRepairing(connected, delivered, broke, r)
    ensures Count(delivered) <= Count(connected)
    ensures Count(connected) + Remaining(broke, r) <= Count(delivered) + r * Count(broke)
    decreases |broke|
  {
    if broke != [] {
      var n := |broke| - 1;
      var before := broke[..n];
      forall e | 0 <= e < n ensures delivered[..n][e] <==> connected[..n][e] && !Repairing(before[..e + 1], r) {
        assert before[..e + 1] == broke[..e + 1];
      }
      MissedAreRepairs(connected[..n], delivered[..n], before, r);
      assert broke[..n + 1] == broke;
      RepairingSinceLast(broke, r);
      assert r * (Count(before) + 1) == r * Count(before) + r;
    }
  }

  // ---- One pair of nodes, epoch by epoch ----------------------------------------------------------

  predicate Graphs(graphs: seq<Adjacency>, n: nat) {
    forall e | 0 <= e < |graphs| :: |graphs[e]| == n && Valid(graphs[e])
  }

  ghost predicate Tracks(graphs: seq<Adjacency>, c: nat, p: nat, connected: seq<bool>) {
    |connected| <= |graphs| && forall e | 0 <= e < |connected| :: connected[e] <==> Connected(graphs[e], c, p)
  }

  /** When the route is allowed again. */
  function DownUntil(broke: seq<bool>, repair: nat, dt: nat): int {
    if LastBreak(broke) < 0 then -1 else LastBreak(broke) * dt + repair
  }

  /** The committed route joins the pair, and it is not down. */
  predicate Standing(committed: Option<seq<nat>>, c: nat, p: nat) {
    committed.Some? ==>
      && committed.value != []
      && committed.value[0] == c && committed.value[|committed.value| - 1] == p
  }

  lemma UpMeansConnected(route: seq<nat>, adj: Adjacency, c: nat, p: nat)
    requires Standing(Some(route), c, p) && RouteUp(route, adj)
    ensures Connected(adj, c, p)
  {
    assert Path(adj, route, c, p);
  }

  lemma NotDown(broke: seq<bool>, e: nat, repair: nat, dt: nat)
    requires dt > 0 && |broke| == e + 1
    ensures e * dt >= DownUntil(broke, repair, dt) <==> !Repairing(broke, RepairEpochs(repair, dt))
  {
    RepairingSinceLast(broke, RepairEpochs(repair, dt));
    if LastBreak(broke) >= 0 { RepairedWhen(e, LastBreak(broke), repair, dt); }
  }

  /** What is committed for the next epoch: the route if it did not break, else a shortest path if the
      epoch delivered, else none. */
  ghost predicate Follows(adj: Adjacency, c: nat, p: nat, before: Option<seq<nat>>, after: Option<seq<nat>>,
                          delivered: bool, broke: bool) {
    && (broke <==> before.Some? && !Walk(adj, before.value))
    && if before.Some? && !broke then after == before
       else if delivered then after.Some? && Shortest(adj, after.value, c, p)
       else after.None?
  }

  /** The routes committed as each epoch begins, and what became of them. */
  ghost predicate RoutesFollow(graphs: seq<Adjacency>, c: nat, p: nat, routes: seq<Option<seq<nat>>>,
                               delivered: seq<bool>, broke: seq<bool>) {
    && |routes| == |delivered| + 1 == |broke| + 1 <= |graphs| + 1 && routes[0] == None
    && forall e | 0 <= e < |broke| :: Follows(graphs[e], c, p, routes[e], routes[e + 1], delivered[e], broke[e])
  }

  lemma OneMoreRoute(graphs: seq<Adjacency>, c: nat, p: nat, routes: seq<Option<seq<nat>>>, delivered: seq<bool>,
                     broke: seq<bool>, next: Option<seq<nat>>, d: bool, b: bool)
    requires RoutesFollow(graphs, c, p, routes, delivered, broke) && |broke| < |graphs|
    requires Follows(graphs[|broke|], c, p, routes[|broke|], next, d, b)
    ensures RoutesFollow(graphs, c, p, routes + [next], delivered + [d], broke + [b])
  {
    hide Follows;
  }

  /** One epoch of the committed route at time `t`: what is committed, until when it is down,
      whether it delivered and whether it broke. */
  method Forward(c: nat, p: nat, adj: Adjacency, t: nat, repair: nat, committed0: Option<seq<nat>>, downUntil0: int)
    returns (committed: Option<seq<nat>>, downUntil: int, delivered: bool, broke: bool)
    requires Valid(adj) && c < |adj| && Standing(committed0, c, p)
    requires committed0.Some? ==> t >= downUntil0
    ensures Standing(committed, c, p) && (committed.Some? ==> t >= downUntil)
    ensures broke <==> committed0.Some? && !Walk(adj, committed0.value)
    ensures Follows(adj, c, p, committed0, committed, delivered, broke)
    ensures downUntil == if broke then t + repair else downUntil0
    ensures delivered <==> t >= downUntil && Connected(adj, c, p)
  {
    committed, downUntil, delivered, broke := committed0, downUntil0, false, false;
    var intact := committed.Some? && RouteUp(committed.value, adj);
    if intact && t >= downUntil {
      UpMeansConnected(committed.value, adj, c, p);
      delivered := true;
    } else {
      // A route that is intact is not down.
      assert !intact;
      if committed.Some? && !intact {
        broke := true;
        committed := None;
        downUntil := t + repair;
      }
      if t >= downUntil {
        var path := Search(c, p, adj);
        if path.Some? {
          committed := path;
          delivered := true;
        }
      }
    }
  }

  lemma AppendBreak(broke: seq<bool>, b: bool)
    ensures LastBreak(broke + [b]) == if b then |broke| else LastBreak(broke)
    ensures Count(broke + [b]) == Count(broke) + if b then 1 else 0
  {
    assert (broke + [b])[..|broke|] == broke;
  }

  /** All epochs of one pair: the stateless deliveries, the committed route's, and its breaks.
      Stateless forwarding delivers in every connected epoch; the committed route in those in
      which no break is being repaired. */
  method Trial(c: nat, p: nat, graphs: seq<Adjacency>, repair: nat, dt: nat)
    returns (ndnOk: nat, ipOk: nat, breaks: nat,
             ghost connected: seq<bool>, ghost delivered: seq<bool>, ghost broke: seq<bool>,
             ghost routes: seq<Option<seq<nat>>>)
    requires dt > 0 && exists n :: c < n && Graphs(graphs, n)
    ensures |connected| == |graphs| && Tracks(graphs, c, p, connected)
    ensures DeliversUnlessRepairing(connected, delivered, broke, RepairEpochs(repair, dt))
    ensures RoutesFollow(graphs, c, p, routes, delivered, broke)
    ensures ndnOk == Count(connected) && ipOk == Count(delivered) && breaks == Count(broke)
    ensures ipOk <= ndnOk <= ipOk + RepairEpochs(repair, dt) * breaks
  {
    NoRoute(graphs, c, p);
    hide RoutesFollow, Follows, Walk, Repairing, DeliversUnlessRepairing, Count, LastBreak, DownUntil;
    hide Tracks, Connected, Shortest, RepairEpochs;
    var r := RepairEpochs(repair, dt);
    var committed: Option<seq<nat>> := None;
    var downUntil := -1;
    ndnOk, ipOk, breaks := 0, 0, 0;
    connected, delivered, broke, routes := [], [], [], [None];
    NothingYet(graphs, c, p, r, repair, dt);
    for e := 0 to |graphs|
      invariant |connected| == |delivered| == |broke| == e
      invariant Tracks(graphs, c, p, connected) && DeliversUnlessRepairing(connected, delivered, broke, r)
      invariant ndnOk == Count(connected) && ipOk == Count(delivered) && breaks == Count(broke)
      invariant downUntil == DownUntil(broke, repair, dt)
      invariant |routes| == e + 1 && routes[e] == committed && RoutesFollow(graphs, c, p, routes, delivered, broke)
      invariant Standing(committed, c, p) && (committed.Some? ==> e * dt >= downUntil)
    {
      var adj := graphs[e];
      var path := Search(c, p, adj);
      PathDecides(adj, c, p, path);
      if path.Some? {
        ndnOk := ndnOk + 1;
      }
      var t := e * dt;
      var arrived, lost;
      committed, downUntil, arrived, lost := Forward(c, p, adj, t, repair, committed, downUntil);
      if arrived { ipOk := ipOk + 1; }
      if lost { breaks := breaks + 1; }
      TrackOne(graphs, c, p, connected, path.Some?);
      AppendBreak(connected, path.Some?);
      AppendBreak(delivered, arrived);
      AppendBreak(broke, lost);
      DownAfter(broke, lost, repair, dt);
      NotDown(broke + [lost], e, repair, dt);
      OneMoreEpoch(connected, delivered, broke, r, path.Some?, arrived, lost);
      OneMoreRoute(graphs, c, p, routes, delivered, broke, committed, arrived, lost);
      routes := routes + [committed];
      connected, delivered, broke := connected + [path.Some?], delivered + [arrived], broke + [lost];
      MulStep(e, dt);
    }
    MissedAreRepairs(connected, delivered, broke, r);
  }

  lemma NothingYet(graphs: seq<Adjacency>, c: nat, p: nat, r: nat, repair: nat, dt: nat)
    ensures Tracks(graphs, c, p, []) && DeliversUnlessRepairing([], [], [], r)
    ensures Count([]) == 0 && DownUntil([], repair, dt) == -1
  {
  }

  lemma NoRoute(graphs: seq<Adjacency>, c: nat, p: nat)
    ensures RoutesFollow(graphs, c, p, [None], [], [])
  {
  }

  lemma PathDecides(adj: Adjacency, c: nat, p: nat, path: Option<seq<nat>>)
    requires path.Some? ==> Shortest(adj, path.value, c, p)
    requires path.None? ==> !Connected(adj, c, p)
    ensures path.Some? <==> Connected(adj, c, p)
  {
  }

  lemma TrackOne(graphs: seq<Adjacency>, c: nat, p: nat, connected: seq<bool>, now: bool)
    requires Tracks(graphs, c, p, connected) && |connected| < |graphs|
    requires now <==> Connected(graphs[|connected|], c, p)
    ensures Tracks(graphs, c, p, connected + [now])
  {
  }

  lemma DownAfter(broke: seq<bool>, b: bool, repair: nat, dt: nat)
    ensures DownUntil(broke + [b], repair, dt) == if b then |broke| * dt + repair else DownUntil(broke, repair, dt)
  {
    AppendBreak(broke, b);
  }

  lemma OneMoreEpoch(connected: seq<bool>, delivered: seq<bool>, broke: seq<bool>, r: nat, c: bool, d: bool, b: bool)
    requires DeliversUnlessRepairing(connected, delivered, broke, r)
    requires d <==> c && !Repairing(broke + [b], r)
    ensures DeliversUnlessRepairing(connected + [c], delivered + [d], broke + [b], r)
  {
    forall e | 0 <= e <= |broke|
      ensures (delivered + [d])[e] <==> (connected + [c])[e] && !Repairing((broke + [b])[..e + 1], r)
    {
      if e < |broke| {
        assert (broke + [b])[..e + 1] == broke[..e + 1];
      } else {
        assert (broke + [b])[..e + 1] == broke + [b];
      }
    }
  }

  // ---- The study ------------------------------------------------------------------------------------

  predicate Pairs(pairs: seq<(nat, nat)>, n: nat) {
    forall k | 0 <= k < |pairs| :: pairs[k].0 < pairs[k].1 < n
  }

  /** Summed over the pairs: stateless forwarding never delivers less, and what the committed
      routes miss is at most a repair per break. */
  method Run(pairs: seq<(nat, nat)>, graphs: seq<Adjacency>, n: nat, repair: nat, dt: nat)
    returns (ndnOk: nat, ipOk: nat, breaks: nat, total: nat)
    requires dt > 0 && Graphs(graphs, n) && Pairs(pairs, n)
    ensures ipOk <= ndnOk <= ipOk + RepairEpochs(repair, dt) * breaks
    ensures ndnOk <= total == |pairs| * |graphs|
  {
    hide RepairEpochs, Graphs;
    ndnOk, ipOk, breaks, total := 0, 0, 0, 0;
    for k := 0 to |pairs|
      invariant ipOk <= ndnOk <= ipOk + RepairEpochs(repair, dt) * breaks
      invariant ndnOk <= total == k * |graphs|
    {
      var ndn, ip, lost, connected, delivered, broke, routes := Trial(pairs[k].0, pairs[k].1, graphs, repair, dt);
      CountAtMost(connected);
      Distribute(RepairEpochs(repair, dt), breaks, lost);
      MulStep(k, |graphs|);
      ndnOk, ipOk, breaks := ndnOk + ndn, ipOk + ip, breaks + lost;
      total := total + |graphs|;
    }
  }

  lemma Distribute(r: nat, x: nat, y: nat)
    ensures r * (x + y) == r * x + r * y
  {
  }

  lemma {:induction false} CountAtMost(b: seq<bool>)
    ensures Count(b) <= |b|
    decreases |b|
  {
    if b != [] { CountAtMost(b[..|b| - 1]); }
  }
}
