/** A whole IP network: links go up and down, routes are recomputed, packets cross it. */
module IpNetwork {
  import opened Options
  import opened Graphs
  import opened Ip

  /** The topology of the links that are up. */
  function UpView(n: nat, links: seq<Link>, up: seq<bool>): View
    requires |links| == |up|
  {
    View(n, seq(n, u requires 0 <= u < n => ArcsOf(UpLinks(links, up), u)))
  }

  /** What looking up `d` gives once the table is installed. */
  function Via(table: Table, faceTo: map<nat, nat>, d: nat): Option<nat> {
    match Lookup(table, d)
    case Some(e) => if e.nextHop in faceTo then Some(faceTo[e.nextHop]) else None
    case None => None
  }

  lemma AddrsDistinct(a: nat, b: nat)
    requires a < 254 && b < 254 && Addr(a) == Addr(b)
    ensures a == b
  {
  }

  lemma BestRouteAppend(routes: seq<Route>, r: Route, dst: nat)
    ensures var best := BestRoute(routes, dst);
            BestRoute(routes + [r], dst) ==
              if InPrefix(dst, r.net, r.len) && (best.None? || best.value.len <= r.len) then Some(r) else best
  {
    assert (routes + [r])[..|routes|] == routes;
  }

  lemma HostRoutesAppend(table: Table, e: RouteEntry, faceTo: map<nat, nat>)
    ensures HostRoutes(table + [e], faceTo)
         == if e.nextHop in faceTo then HostRoutes(table, faceTo) + [Route(Addr(e.dest), 32, faceTo[e.nextHop])]
            else HostRoutes(table, faceTo)
  {
    assert (table + [e])[..|table|] == table;
  }

  lemma HostPrefix(a: nat, b: nat, via: nat)
    requires a < 254 && b < 254
    ensures InPrefix(Addr(a), Route(Addr(b), 32, via).net, 32) <==> a == b
  {
    if Addr(a) == Addr(b) { AddrsDistinct(a, b); }
  }

  /** Host routes looked up by longest prefix give the table's row. */
  lemma {:induction false} HostRoutesLookup(table: Table, faceTo: map<nat, nat>, d: nat)
    requires OneRowEach(table) && d < 254 && forall e | e in table :: e.dest < 254
    ensures Lpm(HostRoutes(table, faceTo), Addr(d)) == Via(table, faceTo, d)
    ensures BestRoute(HostRoutes(table, faceTo), Addr(d)).Some?
        ==> BestRoute(HostRoutes(table, faceTo), Addr(d)).value.len == 32
    decreases |table|
  {
    if table != [] {
      var n := |table| - 1;
      var rest, e := table[..n], table[n];
      assert forall i | 0 <= i < n :: rest[i] == table[i];
      HostRoutesLookup(rest, faceTo, d);
      LookupAppend(rest, e, d);
      assert rest + [e] == table;
      LookupIn(rest, d);
      HostRoutesAppend(rest, e, faceTo);
      hide HostRoutes, BestRoute, InPrefix, Addr, Lookup;
      if e.nextHop in faceTo {
        var routes := HostRoutes(rest, faceTo);
        var r := Route(Addr(e.dest), 32, faceTo[e.nextHop]);
        HostPrefix(d, e.dest, r.via);
        BestRouteAppend(routes, r, Addr(d));
      }
    }
  }

  // ---- A network whose routes were just recomputed ------------------------------------------

  ghost predicate Wired(net: Net, links: seq<Link>, faceTo: seq<map<nat, nat>>) {
    && net.n <= 254 && NetShape(net) && RepeatsUp(links, net.up)
    && LinksInside(net.n, links) && FacesMatch(net.n, links, net.faces, faceTo)
  }

  ghost predicate Installed(net: Net, faceTo: seq<map<nat, nat>>, tables: seq<Table>) {
    && NetShape(net) && |faceTo| == |tables| == net.n
    && forall u, d | 0 <= u < net.n && 0 <= d < net.n :: Lpm(net.routes[u], Addr(d)) == Via(tables[u], faceTo[u], d)
  }

  /** The tables are those of the up topology, and they are installed. */
  ghost predicate Rerouted(net: Net, links: seq<Link>, faceTo: seq<map<nat, nat>>, tables: seq<Table>) {
    && Wired(net, links, faceTo) && Installed(net, faceTo, tables)
    && TablesCorrect(UpView(net.n, links, net.up), tables, UNREACHABLE)
  }

  lemma UpLinksInside(n: nat, links: seq<Link>, up: seq<bool>)
    requires |links| == |up| && LinksInside(n, links)
    ensures LinksInside(n, UpLinks(links, up))
  {
    var ups := UpLinks(links, up);
    forall k | 0 <= k < |ups| ensures ups[k].0 < n && ups[k].1 < n {
      UpLinksExactly(links, up, ups[k]);
    }
  }

  lemma UpViewValid(n: nat, links: seq<Link>, up: seq<bool>)
    requires |links| == |up| && LinksInside(n, links)
    ensures Valid(UpView(n, links, up)) && PositiveCosts(UpView(n, links, up))
  {
    UpLinksInside(n, links, up);
    FromLinksValid(n, UpLinks(links, up), UpView(n, links, up));
  }

  /** An arc of the up topology is an up link. */
  lemma ArcIsUpLink(n: nat, links: seq<Link>, up: seq<bool>, u: nat, a: Arc) returns (k: nat)
    requires |links| == |up| && u < n && a in UpView(n, links, up).adj[u]
    ensures k < |links| && up[k] && Joins(links[k], u, a.to) && a.cost == 1
  {
    var ups := UpLinks(links, up);
    ArcsOfExactly(ups, u, a.to);
    ArcsCostOne(ups, u, a);
    assert a == Arc(a.to, 1);
    var j :| 0 <= j < |ups| && Joins(ups[j], u, a.to);
    UpLinksExactly(links, up, ups[j]);
    k :| 0 <= k < |links| && up[k] && links[k] == ups[j];
  }

  /** If any link between two nodes is up, so is the last. */
  lemma LastIsUp(links: seq<Link>, up: seq<bool>, last: nat, k: nat, u: nat, v: nat)
    requires RepeatsUp(links, up) && last < |links| && k < |links| && up[k]
    requires Joins(links[last], u, v) && Joins(links[k], u, v)
    requires forall j | last < j < |links| :: !Joins(links[j], u, v)
    ensures up[last]
  {
    if k != last { assert Joins(links[k], links[last].0, links[last].1); }
  }

  /** Where a node's table names a next hop, its route sends the packet exactly there. */
  lemma HopArrives(net: Net, links: seq<Link>, faceTo: seq<map<nat, nat>>, tables: seq<Table>, u: nat, d: nat)
    requires Rerouted(net, links, faceTo, tables) && u < net.n && d < net.n
    requires Lookup(tables[u], d).Some?
    ensures Lpm(net.routes[u], Addr(d)).Some?
    ensures Arrives(net, u, Lpm(net.routes[u], Addr(d)).value) == Some(Lookup(tables[u], d).value.nextHop)
  {
    var e := Lookup(tables[u], d).value;
    var k := NextHopIsUp(net.n, links, net.up, tables, u, d);
    hide TablesCorrect, RepeatsUp, UpView, Lookup, Lpm;
    assert e.nextHop in faceTo[u];
    var face := net.faces[u][faceTo[u][e.nextHop]];
    LastIsUp(links, net.up, face.link, k, u, e.nextHop);
  }

  /** The next hop of a row is at the other end of a link that is up. */
  lemma NextHopIsUp(n: nat, links: seq<Link>, up: seq<bool>, tables: seq<Table>, u: nat, d: nat) returns (k: nat)
    requires |links| == |up| && TablesCorrect(UpView(n, links, up), tables, UNREACHABLE)
    requires u < n && d < n && Lookup(tables[u], d).Some?
    ensures k < |links| && up[k] && Joins(links[k], u, Lookup(tables[u], d).value.nextHop)
  {
    var view, e := UpView(n, links, up), Lookup(tables[u], d).value;
    assert TableCorrect(view, u, tables[u], UNREACHABLE);
    var a :| a in view.adj[u] && a.to == e.nextHop && a.cost <= e.metric
             && LeastCost(view, e.nextHop, e.dest, UNREACHABLE, e.metric - a.cost);
    k := ArcIsUpLink(n, links, up, u, a);
  }

  /** `u` is `d`, or its table routes `d`. */
  ghost predicate Routed(tables: seq<Table>, u: nat, d: nat) {
    u == d || (u < |tables| && Lookup(tables[u], d).Some?)
  }

  ghost function Metric(tables: seq<Table>, u: nat, d: nat): nat
    requires Routed(tables, u, d)
  {
    if u == d then 0 else Lookup(tables[u], d).value.metric
  }

  /** The packet's next hop is up, and one closer to `d`. */
  ghost predicate HopCloser(net: Net, tables: seq<Table>, u: nat, d: nat)
    requires NetShape(net) && u < net.n && Routed(tables, u, d)
  {
    && Addr(u) != Addr(d) && Lpm(net.routes[u], Addr(d)).Some?
    && var v := Arrives(net, u, Lpm(net.routes[u], Addr(d)).value);
       v.Some? && Routed(tables, v.value, d) && Metric(tables, u, d) == Metric(tables, v.value, d) + 1
  }

  /** Every node with a route hands the packet to one closer. */
  ghost predicate Descending(net: Net, tables: seq<Table>, d: nat) {
    NetShape(net) && forall u: nat | u < net.n && u != d && Routed(tables, u, d) :: HopCloser(net, tables, u, d)
  }

  ghost predicate UnitCosts(view: View) {
    forall u, i | 0 <= u < |view.adj| && 0 <= i < |view.adj[u]| :: view.adj[u][i].cost == 1
  }

  lemma UpViewUnit(n: nat, links: seq<Link>, up: seq<bool>)
    requires |links| == |up|
    ensures UnitCosts(UpView(n, links, up))
  {
    var view := UpView(n, links, up);
    forall u, i | 0 <= u < |view.adj| && 0 <= i < |view.adj[u]| ensures view.adj[u][i].cost == 1 {
      var k := ArcIsUpLink(n, links, up, u, view.adj[u][i]);
    }
  }

  /** With unit costs the next hop's metric is one less. */
  lemma MetricFalls(view: View, tables: seq<Table>, u: nat, d: nat)
    requires Valid(view) && UnitCosts(view) && PositiveCosts(view) && TablesCorrect(view, tables, UNREACHABLE)
    requires u < view.n && u != d && Routed(tables, u, d)
    ensures var v := Lookup(tables[u], d).value.nextHop;
            Routed(tables, v, d) && Metric(tables, u, d) == Metric(tables, v, d) + 1
  {
    var a := OneHop(view, tables, UNREACHABLE, u, d);
    var i :| 0 <= i < |view.adj[u]| && view.adj[u][i] == a;
  }

  lemma ReroutedDescends(net: Net, links: seq<Link>, faceTo: seq<map<nat, nat>>, tables: seq<Table>, d: nat)
    requires Rerouted(net, links, faceTo, tables) && d < net.n
    ensures Descending(net, tables, d)
  {
    forall u: nat | u < net.n && u != d && Routed(tables, u, d) ensures HopCloser(net, tables, u, d) {
      ReroutedHop(net, links, faceTo, tables, u, d);
    }
  }

  lemma ReroutedHop(net: Net, links: seq<Link>, faceTo: seq<map<nat, nat>>, tables: seq<Table>, u: nat, d: nat)
    requires Rerouted(net, links, faceTo, tables) && u < net.n && d < net.n
    requires u != d && Routed(tables, u, d)
    ensures HopCloser(net, tables, u, d)
  {
    if Addr(u) == Addr(d) { AddrsDistinct(u, d); }
    UpViewValid(net.n, links, net.up);
    UpViewUnit(net.n, links, net.up);
    MetricFalls(UpView(net.n, links, net.up), tables, u, d);
    HopArrives(net, links, faceTo, tables, u, d);
  }

  /** From a node `m` hops away, a packet arrives exactly when its TTL is more than `m`, and
      is never dropped for want of a route or lost on a link. */
  lemma {:induction false} JourneyAlongTables(net: Net, tables: seq<Table>, u: nat, d: nat, pkt: Packet, done: nat)
    requires Descending(net, tables, d) && u < net.n
    requires pkt.dst == Addr(d) && pkt.ttl >= 1 && Routed(tables, u, d)
    ensures if Metric(tables, u, d) < pkt.ttl then Journey(net, u, pkt, done).Delivered?
            else Journey(net, u, pkt, done).DroppedTtl?
    ensures Metric(tables, u, d) < pkt.ttl ==>
              && Journey(net, u, pkt, done).at == d
              && Journey(net, u, pkt, done).forwards == done + Metric(tables, u, d)
    decreases pkt.ttl
  {
    if u != d {
      assert HopCloser(net, tables, u, d);
      if pkt.ttl > 1 {
        var v := Arrives(net, u, Lpm(net.routes[u], Addr(d)).value).value;
        JourneyAlongTables(net, tables, v, d, pkt.(ttl := pkt.ttl - 1), done + 1);
      }
    }
  }

  /** A request travels like a packet that has already made its first hop. */
  lemma OriginateAlongTables(net: Net, tables: seq<Table>, s: nat, d: nat, pkt: Packet)
    requires Descending(net, tables, d) && s < net.n && s != d && pkt.dst == Addr(d) && pkt.ttl == TTL
    requires Routed(tables, s, d)
    ensures if Metric(tables, s, d) <= 64 then Originate(net, s, pkt).Delivered? else Originate(net, s, pkt).DroppedTtl?
    ensures Originate(net, s, pkt).Delivered? ==>
              && Originate(net, s, pkt).at == d
              && Originate(net, s, pkt).forwards + 1 == Metric(tables, s, d)
  {
    assert HopCloser(net, tables, s, d);
    var v := Arrives(net, s, Lpm(net.routes[s], Addr(d)).value).value;
    JourneyAlongTables(net, tables, v, d, pkt, 0);
  }

  /** `d` can be reached from `u` over at most `k` up links. */
  ghost predicate WithinHops(view: View, u: nat, d: nat, k: nat) {
    exists w :: IsWalk(view, u, d, w) && |w| <= k
  }

  lemma {:induction false} CostIsHops(view: View, u: nat, v: nat, w: seq<Arc>)
    requires UnitCosts(view) && IsWalk(view, u, v, w)
    ensures Cost(w) == |w|
    decreases |w|
  {
    if w != [] {
      var i :| 0 <= i < |view.adj[u]| && view.adj[u][i] == w[0];
      CostIsHops(view, w[0].to, v, w[1..]);
    }
  }

  /** The table has a row for `d` exactly when `d` is reachable, and its metric is the hop
      distance. */
  lemma MetricIsHopDistance(view: View, table: Table, u: nat, d: nat, k: nat)
    requires Valid(view) && UnitCosts(view) && TableCorrect(view, u, table, UNREACHABLE)
    requires u < view.n <= 254 && d < view.n && u != d
    ensures Lookup(table, d).Some? && Lookup(table, d).value.metric <= k <==> WithinHops(view, u, d, k)
    ensures Lookup(table, d).Some? <==> WithinHops(view, u, d, view.n)
  {
    LookupIn(table, d);
    var row := Lookup(table, d);
    if row.Some? {
      var w :| IsWalk(view, u, d, w) && Cost(w) == row.value.metric;
      CostIsHops(view, u, d, w);
      var short := Shorten(view, u, d, w);
      assert |w| <= k ==> WithinHops(view, u, d, k);
      assert WithinHops(view, u, d, view.n);
    }
    forall w | IsWalk(view, u, d, w) ensures row.Some? && row.value.metric <= |w| {
      var short := Shorten(view, u, d, w);
      CostIsHops(view, u, d, short);
      CostIsHops(view, u, d, w);
    }
  }

  lemma UnroutedNotSent(net: Net, faceTo: seq<map<nat, nat>>, tables: seq<Table>, s: nat, d: nat, pkt: Packet)
    requires Installed(net, faceTo, tables) && s < net.n && d < net.n && s != d && pkt.dst == Addr(d)
    requires !Routed(tables, s, d)
    ensures Originate(net, s, pkt) == NotSent
  {
    assert Via(tables[s], faceTo[s], d) == None;
  }

  /** After a re-route, a TTL-64 request between distinct nodes is delivered exactly when they
      are at most 64 up links apart; otherwise it dies of TTL, or is never sent when there is no
      path.  No node on the way drops it for lack of a route, and it is forwarded once for each
      hop but the first. */
  lemma EndToEnd(net: Net, links: seq<Link>, faceTo: seq<map<nat, nat>>, tables: seq<Table>, s: nat, d: nat,
          number: nat)
    requires Rerouted(net, links, faceTo, tables) && s < net.n && d < net.n && s != d
    ensures var view, o := UpView(net.n, links, net.up), Originate(net, s, Request(s, d, number));
            && (o.Delivered? <==> WithinHops(view, s, d, 64))
            && (o.NotSent? <==> !WithinHops(view, s, d, net.n))
            && (o.Delivered? || o.DroppedTtl? || o.NotSent?)
            && (o.Delivered? ==>
                  o.at == d && WithinHops(view, s, d, o.forwards + 1) && !WithinHops(view, s, d, o.forwards))
  {
    var view := UpView(net.n, links, net.up);
    UpViewValid(net.n, links, net.up);
    UpViewUnit(net.n, links, net.up);
    ReroutedDescends(net, links, faceTo, tables, d);
    MetricIsHopDistance(view, tables[s], s, d, 64);
    if Routed(tables, s, d) {
      OriginateAlongTables(net, tables, s, d, Request(s, d, number));
      MetricIsHopDistance(view, tables[s], s, d, Metric(tables, s, d));
      MetricIsHopDistance(view, tables[s], s, d, Metric(tables, s, d) - 1);
    } else {
      UnroutedNotSent(net, faceTo, tables, s, d, Request(s, d, number));
    }
  }

  // ---- Links that are up, under any routes --------------------------------------------------

  /** A link between the two nodes, in either direction, is up. */
  ghost predicate UpHop(links: seq<Link>, up: seq<bool>, u: nat, v: nat) {
    exists k :: 0 <= k < |links| && k < |up| && up[k] && (links[k] == (u, v) || links[k] == (v, u))
  }

  /** Each node of the path is one link that is up from the one before. */
  ghost predicate UpPath(links: seq<Link>, up: seq<bool>, p: seq<nat>, u: nat, d: nat) {
    && p != [] && p[0] == u && p[|p| - 1] == d
    && forall i | 0 < i < |p| :: UpHop(links, up, p[i - 1], p[i])
  }

  ghost predicate Reaches(links: seq<Link>, up: seq<bool>, u: nat, d: nat, hops: nat) {
    exists p :: UpPath(links, up, p, u, d) && |p| <= hops + 1
  }

  lemma ArcIsUpHop(n: nat, links: seq<Link>, up: seq<bool>, u: nat, v: nat)
    requires |links| == |up| && LinksInside(n, links) && u < n
    ensures Arc(v, 1) in UpView(n, links, up).adj[u] <==> UpHop(links, up, u, v)
  {
    var ups := UpLinks(links, up);
    ArcsOfExactly(ups, u, v);
    if Arc(v, 1) in UpView(n, links, up).adj[u] {
      var k := ArcIsUpLink(n, links, up, u, Arc(v, 1));
    }
    if UpHop(links, up, u, v) {
      var k :| 0 <= k < |links| && k < |up| && up[k] && (links[k] == (u, v) || links[k] == (v, u));
      UpLinksExactly(links, up, links[k]);
      var j :| 0 <= j < |ups| && ups[j] == links[k];
      assert Joins(ups[j], u, v);
    }
  }

  lemma UpHopInside(n: nat, links: seq<Link>, up: seq<bool>, u: nat, v: nat)
    requires LinksInside(n, links) && UpHop(links, up, u, v)
    ensures u < n && v < n
  {
  }

  lemma {:induction false} WalkIsUpPath(n: nat, links: seq<Link>, up: seq<bool>, u: nat, d: nat, w: seq<Arc>)
    returns (p: seq<nat>)
    requires |links| == |up| && LinksInside(n, links) && u < n && IsWalk(UpView(n, links, up), u, d, w)
    ensures UpPath(links, up, p, u, d) && |p| == |w| + 1
    decreases |w|
  {
    if w == [] {
      p := [u];
    } else {
      var k := ArcIsUpLink(n, links, up, u, w[0]);
      ArcIsUpHop(n, links, up, u, w[0].to);
      UpHopInside(n, links, up, u, w[0].to);
      var rest := WalkIsUpPath(n, links, up, w[0].to, d, w[1..]);
      p := OneUpHop(links, up, u, w[0].to, d, rest);
    }
  }

  lemma OneUpHop(links: seq<Link>, up: seq<bool>, u: nat, v: nat, d: nat, rest: seq<nat>) returns (p: seq<nat>)
    requires UpHop(links, up, u, v) && UpPath(links, up, rest, v, d)
    ensures UpPath(links, up, p, u, d) && |p| == |rest| + 1
  {
    hide UpHop;
    p := [u] + rest;
    forall i | 0 < i < |p| ensures UpHop(links, up, p[i - 1], p[i]) {
      if i > 1 { assert UpHop(links, up, rest[i - 2], rest[i - 1]); }
    }
  }

  lemma {:induction false} UpPathIsWalk(n: nat, links: seq<Link>, up: seq<bool>, u: nat, d: nat, p: seq<nat>)
    returns (w: seq<Arc>)
    requires |links| == |up| && LinksInside(n, links) && u < n && UpPath(links, up, p, u, d)
    ensures IsWalk(UpView(n, links, up), u, d, w) && |p| == |w| + 1
    decreases |p|
  {
    if |p| == 1 {
      w := [];
    } else {
      assert UpHop(links, up, p[0], p[1]);
      ArcIsUpHop(n, links, up, u, p[1]);
      UpHopInside(n, links, up, u, p[1]);
      UpPathRest(links, up, p, u, d);
      var rest := UpPathIsWalk(n, links, up, p[1], d, p[1..]);
      w := [Arc(p[1], 1)] + rest;
      assert w[1..] == rest;
    }
  }

  lemma UpPathRest(links: seq<Link>, up: seq<bool>, p: seq<nat>, u: nat, d: nat)
    requires UpPath(links, up, p, u, d) && |p| > 1
    ensures UpPath(links, up, p[1..], p[1], d)
  {
    hide UpHop;
    forall i | 0 < i < |p| - 1 ensures UpHop(links, up, p[1..][i - 1], p[1..][i]) {
      assert UpHop(links, up, p[i], p[i + 1]);
    }
  }

  /** Hops in the computed topology are hops over links that are up. */
  lemma WithinHopsReaches(n: nat, links: seq<Link>, up: seq<bool>, u: nat, d: nat, hops: nat)
    requires |links| == |up| && LinksInside(n, links) && u < n
    ensures WithinHops(UpView(n, links, up), u, d, hops) <==> Reaches(links, up, u, d, hops)
  {
    if WithinHops(UpView(n, links, up), u, d, hops) {
      var w :| IsWalk(UpView(n, links, up), u, d, w) && |w| <= hops;
      var p := WalkIsUpPath(n, links, up, u, d, w);
    }
    if Reaches(links, up, u, d, hops) {
      var p :| UpPath(links, up, p, u, d) && |p| <= hops + 1;
      var w := UpPathIsWalk(n, links, up, u, d, p);
    }
  }

  /** Whatever the routes, a packet gets to the next node only over a link that is up. */
  lemma ArrivesOverUpLink(net: Net, links: seq<Link>, faceTo: seq<map<nat, nat>>, u: nat, via: nat)
    requires Wired(net, links, faceTo) && u < net.n
    ensures Arrives(net, u, via).Some? ==> UpHop(links, net.up, u, Arrives(net, u, via).value)
    ensures via < |net.faces[u]| ==>
              (Arrives(net, u, via).Some? <==> net.up[net.faces[u][via].link])
  {
    if Arrives(net, u, via).Some? {
      var face := net.faces[u][via];
      assert Joins(links[face.link], u, face.peer);
    }
  }

  lemma ReachesFurther(links: seq<Link>, up: seq<bool>, u: nat, v: nat, d: nat, hops: nat)
    requires UpHop(links, up, u, v) && Reaches(links, up, v, d, hops)
    ensures Reaches(links, up, u, d, hops + 1)
  {
    hide UpHop, UpPath;
    var rest :| UpPath(links, up, rest, v, d) && |rest| <= hops + 1;
    var p := OneUpHop(links, up, u, v, d, rest);
  }

  lemma AtOnce(links: seq<Link>, up: seq<bool>, u: nat)
    ensures Reaches(links, up, u, u, 0)
  {
    assert UpPath(links, up, [u], u, u);
  }

  lemma JourneyVia(net: Net, u: nat, pkt: Packet, done: nat) returns (via: nat)
    requires NetShape(net) && u < net.n
    requires pkt.dst != Addr(u) && Journey(net, u, pkt, done).Delivered?
    ensures pkt.ttl > 1 && Arrives(net, u, via).Some? && Arrives(net, u, via).value < net.n
    ensures Journey(net, u, pkt, done)
         == Journey(net, Arrives(net, u, via).value, pkt.(ttl := pkt.ttl - 1), done + 1)
  {
    hide Addr, Lpm;
    via := Lpm(net.routes[u], pkt.dst).value;
    ArrivesInside(net, u, via);
    hide Arrives, NetShape;
  }

  lemma OriginateVia(net: Net, s: nat, pkt: Packet) returns (via: nat)
    requires NetShape(net) && s < net.n && Originate(net, s, pkt).Delivered?
    ensures Arrives(net, s, via).Some? && Arrives(net, s, via).value < net.n
    ensures Originate(net, s, pkt) == Journey(net, Arrives(net, s, via).value, pkt, 0)
  {
    hide Addr, Lpm, Journey;
    via := Lpm(net.routes[s], pkt.dst).value;
    ArrivesInside(net, s, via);
    hide Arrives, NetShape;
  }

  lemma ArrivesInside(net: Net, u: nat, via: nat)
    requires NetShape(net) && u < net.n
    ensures Arrives(net, u, via).Some? ==> Arrives(net, u, via).value < net.n
  {
  }

  /** Packets get from node to node over links that are up alone. */
  ghost predicate UpOnly(net: Net, links: seq<Link>)
    requires NetShape(net)
  {
    forall u, via | 0 <= u < net.n && Arrives(net, u, via).Some? :: UpHop(links, net.up, u, Arrives(net, u, via).value)
  }

  lemma WiredUpOnly(net: Net, links: seq<Link>, faceTo: seq<map<nat, nat>>)
    requires Wired(net, links, faceTo)
    ensures UpOnly(net, links)
  {
    forall u: nat, via: nat | u < net.n && Arrives(net, u, via).Some?
      ensures UpHop(links, net.up, u, Arrives(net, u, via).value)
    {
      ArrivesOverUpLink(net, links, faceTo, u, via);
    }
  }

  lemma {:induction false} JourneyOverUpLinks(net: Net, links: seq<Link>, u: nat, pkt: Packet, done: nat)
    requires NetShape(net) && UpOnly(net, links) && u < net.n
    requires Journey(net, u, pkt, done).Delivered?
    ensures var o := Journey(net, u, pkt, done);
            o.forwards >= done && pkt.dst == Addr(o.at) && Reaches(links, net.up, u, o.at, o.forwards - done)
    decreases pkt.ttl
  {
    hide UpHop, Reaches, Addr, Arrives;
    if pkt.dst == Addr(u) {
      AtOnce(links, net.up, u);
    } else {
      var via := JourneyVia(net, u, pkt, done);
      hide Journey, NetShape;
      var v := Arrives(net, u, via).value;
      JourneyOverUpLinks(net, links, v, pkt.(ttl := pkt.ttl - 1), done + 1);
      var o := Journey(net, u, pkt, done);
      ReachesFurther(links, net.up, u, v, o.at, o.forwards - done - 1);
    }
  }

  /** However stale the routes, a packet is delivered only along links that are up. */
  lemma DeliveredOverUpLinks(net: Net, links: seq<Link>, faceTo: seq<map<nat, nat>>, u: nat, pkt: Packet, done: nat)
    requires Wired(net, links, faceTo) && u < net.n && Journey(net, u, pkt, done).Delivered?
    ensures var o := Journey(net, u, pkt, done);
            o.forwards >= done && pkt.dst == Addr(o.at) && Reaches(links, net.up, u, o.at, o.forwards - done)
  {
    hide Journey, Reaches, Addr;
    WiredUpOnly(net, links, faceTo);
    JourneyOverUpLinks(net, links, u, pkt, done);
  }

  lemma OriginateOverUpLinks(net: Net, links: seq<Link>, s: nat, pkt: Packet)
    requires NetShape(net) && UpOnly(net, links) && s < net.n && Originate(net, s, pkt).Delivered?
    ensures var o := Originate(net, s, pkt);
            pkt.dst == Addr(o.at) && Reaches(links, net.up, s, o.at, o.forwards + 1)
  {
    hide UpHop, Reaches, Addr, Arrives, Journey;
    var via := OriginateVia(net, s, pkt);
    hide Originate, NetShape;
    var v := Arrives(net, s, via).value;
    JourneyOverUpLinks(net, links, v, pkt, 0);
    var o := Originate(net, s, pkt);
    ReachesFurther(links, net.up, s, v, o.at, o.forwards);
  }

  /** The same for a packet of the node's own. */
  lemma OriginatedOverUpLinks(net: Net, links: seq<Link>, faceTo: seq<map<nat, nat>>, s: nat, pkt: Packet)
    requires Wired(net, links, faceTo) && s < net.n && Originate(net, s, pkt).Delivered?
    ensures var o := Originate(net, s, pkt);
            pkt.dst == Addr(o.at) && Reaches(links, net.up, s, o.at, o.forwards + 1)
  {
    hide Originate, Reaches, Addr;
    WiredUpOnly(net, links, faceTo);
    OriginateOverUpLinks(net, links, s, pkt);
  }

  /** After a re-route a request is delivered exactly when some path of at most 64 links that are up
      leads to its destination. */
  lemma DeliveredExactlyWhenReached(net: Net, links: seq<Link>, faceTo: seq<map<nat, nat>>, tables: seq<Table>,
                                    s: nat, d: nat, number: nat)
    requires Rerouted(net, links, faceTo, tables) && s < net.n && d < net.n && s != d
    ensures Originate(net, s, Request(s, d, number)).Delivered? <==> Reaches(links, net.up, s, d, 64)
  {
    EndToEnd(net, links, faceTo, tables, s, d, number);
    WithinHopsReaches(net.n, links, net.up, s, d, 64);
    hide Originate, Reaches, WithinHops;
  }

  // ---- The way back ------------------------------------------------------------------------

  lemma ArcBack(n: nat, links: seq<Link>, up: seq<bool>, u: nat, a: Arc)
    requires |links| == |up| && LinksInside(n, links) && u < n && a in UpView(n, links, up).adj[u]
    ensures a.to < n && Arc(u, 1) in UpView(n, links, up).adj[a.to]
  {
    var k := ArcIsUpLink(n, links, up, u, a);
    var ups := UpLinks(links, up);
    UpLinksExactly(links, up, links[k]);
    var j :| 0 <= j < |ups| && ups[j] == links[k];
    ArcsOfExactly(ups, a.to, u);
    assert Joins(ups[j], a.to, u);
  }

  lemma {:induction false} WalkBack(n: nat, links: seq<Link>, up: seq<bool>, u: nat, v: nat, w: seq<Arc>)
    returns (back: seq<Arc>)
    requires |links| == |up| && LinksInside(n, links) && u < n && IsWalk(UpView(n, links, up), u, v, w)
    ensures IsWalk(UpView(n, links, up), v, u, back) && |back| == |w|
    decreases |w|
  {
    var view := UpView(n, links, up);
    if w == [] {
      back := [];
    } else {
      ArcBack(n, links, up, u, w[0]);
      var rest := WalkBack(n, links, up, w[0].to, v, w[1..]);
      assert [Arc(u, 1)][1..] == [];
      assert IsWalk(view, w[0].to, u, [Arc(u, 1)]);
      WalkConcat(view, v, w[0].to, u, rest, [Arc(u, 1)]);
      back := rest + [Arc(u, 1)];
    }
  }

  lemma EchoAnswers(s: nat, d: nat, number: nat)
    ensures Request(s, d, number) == Packet(Addr(s), Addr(d), 64, false, number)
    ensures EchoReply(d, Request(s, d, number)) == Packet(Addr(d), Addr(s), 64, true, number)
  {
  }

  /** A request that arrives is answered: the echo reply gets back over as many hops. */
  lemma ReplyReturns(net: Net, links: seq<Link>, faceTo: seq<map<nat, nat>>, tables: seq<Table>, s: nat, d: nat,
          number: nat)
    requires Rerouted(net, links, faceTo, tables) && s < net.n && d < net.n && s != d
    requires Originate(net, s, Request(s, d, number)).Delivered?
    ensures Originate(net, d, EchoReply(d, Request(s, d, number)))
        == Delivered(s, Originate(net, s, Request(s, d, number)).forwards)
    ensures EchoReply(d, Request(s, d, number)) == Packet(Addr(d), Addr(s), 64, true, number)
  {
    var there, back := Request(s, d, number), EchoReply(d, Request(s, d, number));
    EchoAnswers(s, d, number);
    assert NetShape(net) && |tables| == net.n && |net.up| == |links| && LinksInside(net.n, links);
    assert net.n <= 254 && TablesCorrect(UpView(net.n, links, net.up), tables, UNREACHABLE);
    hide Rerouted, Wired, NetShape, Installed, TablesCorrect, LinksInside, UpView;
    hide Originate, EchoReply, Request, Addr, Lpm, Lookup;
    ReroutedDescends(net, links, faceTo, tables, d);
    ReroutedDescends(net, links, faceTo, tables, s);
    SameMetric(net.n, links, net.up, tables, s, d);
    if !Routed(tables, s, d) { UnroutedNotSent(net, faceTo, tables, s, d, there); }
    OriginateAlongTables(net, tables, s, d, there);
    OriginateAlongTables(net, tables, d, s, back);
  }

  lemma SameMetric(n: nat, links: seq<Link>, up: seq<bool>, tables: seq<Table>, s: nat, d: nat)
    requires |links| == |up| && LinksInside(n, links) && n <= 254 && s < n && d < n && s != d
    requires TablesCorrect(UpView(n, links, up), tables, UNREACHABLE)
    ensures Routed(tables, s, d) <==> Routed(tables, d, s)
    ensures Routed(tables, s, d) ==> Metric(tables, s, d) == Metric(tables, d, s)
  {
    var view := UpView(n, links, up);
    UpViewValid(n, links, up);
    UpViewUnit(n, links, up);
    MetricIsHopDistance(view, tables[s], s, d, n);
    MetricIsHopDistance(view, tables[d], d, s, n);
    SameHops(n, links, up, s, d, n);
    if Routed(tables, s, d) && Routed(tables, d, s) {
      var m, k := Metric(tables, s, d), Metric(tables, d, s);
      MetricIsHopDistance(view, tables[s], s, d, m);
      MetricIsHopDistance(view, tables[d], d, s, m);
      SameHops(n, links, up, s, d, m);
      MetricIsHopDistance(view, tables[s], s, d, k);
      MetricIsHopDistance(view, tables[d], d, s, k);
      SameHops(n, links, up, s, d, k);
    }
  }

  lemma SameHops(n: nat, links: seq<Link>, up: seq<bool>, s: nat, d: nat, k: nat)
    requires |links| == |up| && LinksInside(n, links) && s < n && d < n
    ensures WithinHops(UpView(n, links, up), s, d, k) <==> WithinHops(UpView(n, links, up), d, s, k)
  {
    var view := UpView(n, links, up);
    if WithinHops(view, s, d, k) {
      var w :| IsWalk(view, s, d, w) && |w| <= k;
      var back := WalkBack(n, links, up, s, d, w);
    }
    if WithinHops(view, d, s, k) {
      var w :| IsWalk(view, d, s, w) && |w| <= k;
      var back := WalkBack(n, links, up, d, s, w);
    }
  }
}
