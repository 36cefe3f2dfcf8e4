/** The running network: an object whose links, routes and counters change in place. */
module IpDevice {
  import opened Options
  import opened Graphs
  import opened Sums
  import opened Ip
  import opened IpNetwork
  import ShortestPath

  /** The first link between two nodes. */
  function FirstLink(links: seq<Link>, a: nat, b: nat): Option<nat>
    decreases |links|
  {
    if links == [] then None
    else
      var before := FirstLink(links[..|links| - 1], a, b);
      if before.Some? then before
      else if Joins(links[|links| - 1], a, b) then Some(|links| - 1) else None
  }

  lemma {:induction false} FirstLinkExactly(links: seq<Link>, a: nat, b: nat)
    ensures match FirstLink(links, a, b)
            case Some(k) => k < |links| && Joins(links[k], a, b) && forall j | 0 <= j < k :: !Joins(links[j], a, b)
            case None => forall j | 0 <= j < |links| :: !Joins(links[j], a, b)
    ensures FirstLink(links, a, b).None? <==> forall j | 0 <= j < |links| :: links[j] != (a, b) && links[j] != (b, a)
    decreases |links|
  {
    if links != [] {
      var n := |links| - 1;
      FirstLinkExactly(links[..n], a, b);
      assert forall j | 0 <= j < n :: links[..n][j] == links[j];
    }
  }

  /** What handling a packet leads to. */
  datatype Handled = Ends(outcome: Outcome) | GoesOn(node: nat)

  /** The handling of one packet at one node. */
  function Step(net: Net, u: nat, pkt: Packet, done: nat): Handled
    requires NetShape(net) && u < net.n
  {
    if pkt.dst == Addr(u) then Ends(Delivered(u, done))
    else if pkt.ttl <= 1 then Ends(DroppedTtl(u, done))
    else
      match Lpm(net.routes[u], pkt.dst)
      case None => Ends(DroppedNoRoute(u, done))
      case Some(via) =>
        if Arrives(net, u, via).Some? then GoesOn(Arrives(net, u, via).value) else Ends(LostOnLink(u, done + 1))
  }

  /** What becomes of the packet after that. */
  function Fate(net: Net, h: Handled, pkt: Packet, done: nat): Outcome
    requires NetShape(net) && (h.GoesOn? ==> h.node < net.n && pkt.ttl > 1)
  {
    match h
    case Ends(o) => o
    case GoesOn(v) => Journey(net, v, pkt.(ttl := pkt.ttl - 1), done + 1)
  }

  lemma StepIsJourney(net: Net, u: nat, pkt: Packet, done: nat)
    requires NetShape(net) && u < net.n
    ensures var h := Step(net, u, pkt, done);
            && (h.GoesOn? ==> h.node < net.n && pkt.ttl > 1)
            && Fate(net, h, pkt, done) == Journey(net, u, pkt, done)
            && (h.Ends? ==>
                  && !h.outcome.NotSent? && h.outcome.at == u
                  && h.outcome.forwards == done + (if h.outcome.LostOnLink? then 1 else 0))
  {
  }

  lemma OriginatedReaches(net: Net, links: seq<Link>, faceTo: seq<map<nat, nat>>, s: nat, pkt: Packet)
    requires Wired(net, links, faceTo) && s < net.n
    ensures var o := Originate(net, s, pkt);
            o.Delivered? ==> Reaches(links, net.up, s, o.at, o.forwards + 1)
  {
    if Originate(net, s, pkt).Delivered? { OriginatedOverUpLinks(net, links, faceTo, s, pkt); }
  }

  lemma StepOverUpLink(net: Net, links: seq<Link>, faceTo: seq<map<nat, nat>>, u: nat, pkt: Packet, done: nat)
    requires Wired(net, links, faceTo) && u < net.n
    ensures var h := Step(net, u, pkt, done);
            h.GoesOn? ==> UpHop(links, net.up, u, h.node)
    ensures var via := Lpm(net.routes[u], pkt.dst);
            (pkt.dst != Addr(u) && pkt.ttl > 1 && via.Some? && via.value < |net.faces[u]|
             && !net.up[net.faces[u][via.value].link])
            ==> Step(net, u, pkt, done) == Ends(LostOnLink(u, done + 1))
  {
    if Lpm(net.routes[u], pkt.dst).Some? {
      ArrivesOverUpLink(net, links, faceTo, u, Lpm(net.routes[u], pkt.dst).value);
    }
    hide UpHop, Addr, Lpm;
  }

  /** The nodes a packet has been at: where it is handled now is the last, or one link that is up
      from it. */
  ghost predicate OnTrail(links: seq<Link>, up: seq<bool>, trail: seq<nat>, start: nat, h: Handled, done: nat) {
    && |trail| == done + 1
    && match h
       case Ends(o) =>
         !o.NotSent? && UpPath(links, up, trail, start, o.at) && o.forwards == done + (if o.LostOnLink? then 1 else 0)
       case GoesOn(v) => UpPath(links, up, trail, start, trail[done]) && UpHop(links, up, trail[done], v)
  }

  /** Handling at node `u`, where the trail ends. */
  lemma TrailEndsAt(net: Net, links: seq<Link>, faceTo: seq<map<nat, nat>>, trail: seq<nat>, start: nat, u: nat,
                    pkt: Packet, done: nat)
    requires Wired(net, links, faceTo) && u < net.n
    requires |trail| == done + 1 && UpPath(links, net.up, trail, start, u)
    ensures OnTrail(links, net.up, trail, start, Step(net, u, pkt, done), done)
  {
    StepOverUpLink(net, links, faceTo, u, pkt, done);
    StepIsJourney(net, u, pkt, done);
    hide Step, UpHop, Journey, Wired;
  }

  lemma StartTrail(links: seq<Link>, up: seq<bool>, start: nat)
    ensures UpPath(links, up, [start], start, start)
  {
  }

  lemma TrailIs(links: seq<Link>, up: seq<bool>, trail: seq<nat>, start: nat, h: Handled, done: nat)
    requires OnTrail(links, up, trail, start, h, done)
    ensures |trail| == done + 1
    ensures h.Ends? ==> UpPath(links, up, trail, start, h.outcome.at)
    ensures h.Ends? ==> |trail| == h.outcome.forwards + (if h.outcome.LostOnLink? then 0 else 1)
  {
  }

  lemma TrailGrows(links: seq<Link>, up: seq<bool>, trail: seq<nat>, start: nat, v: nat, done: nat)
    requires OnTrail(links, up, trail, start, GoesOn(v), done)
    ensures UpPath(links, up, trail + [v], start, v)
  {
    hide UpHop;
  }

  /** A per-node counter with one more at node `u`, if it counts there. */
  function Counted(counter: seq<nat>, u: nat, hit: bool): seq<nat> {
    if hit && u < |counter| then counter[u := counter[u] + 1] else counter
  }

  /** A counter kept for one outcome: one more where the packet ended, if that is how it ended. */
  function Ended(counter: seq<nat>, outcome: Outcome, hit: bool): seq<nat> {
    if outcome.NotSent? then counter else Counted(counter, outcome.at, hit)
  }

  /** The nodes together forwarded `times` more, and none less. */
  predicate Forwarded(before: seq<nat>, after: seq<nat>, times: nat) {
    && |after| == |before| && Sum(after) == Sum(before) + times
    && forall u | 0 <= u < |before| :: after[u] >= before[u]
  }

  lemma OneMore(before: seq<nat>, counter: seq<nat>, times: nat, u: nat)
    requires Forwarded(before, counter, times) && u < |counter|
    ensures Forwarded(before, Counted(counter, u, true), times + 1)
    ensures Counted(counter, u, false) == counter
  {
    hide Sum;
    SumUpdate(counter, u, counter[u] + 1);
  }

  lemma NoneYet(counter: seq<nat>)
    ensures Forwarded(counter, counter, 0)
  {
  }

  class Network {
    const n: nat
    const links: seq<Link>
    var up: seq<bool>
    var faces: seq<seq<Face>>
    var faceTo: seq<map<nat, nat>>
    var routes: seq<seq<Route>>
    // per-node counters
    var forwarded: seq<nat>
    var delivered: seq<nat>
    var droppedNoRoute: seq<nat>
    var droppedTtl: seq<nat>
    /** The tables last installed. */
    ghost var tables: seq<Table>

    ghost function State(): Net
      reads `faces, `up, `routes
    {
      Net(n, faces, up, routes)
    }

    ghost predicate Sound()
      reads `faces, `up, `routes, `faceTo
    {
      Wired(State(), links, faceTo)
    }

    ghost predicate Valid()
      reads this
    {
      Sound() && CountersShaped()
    }

    /** Routes were recomputed since the last change of a link. */
    ghost predicate UpToDate()
      reads `faces, `up, `routes, `faceTo, `tables
    {
      Rerouted(State(), links, faceTo, tables)
    }

    /** Wire the links, all up, and route by link state. */
    constructor (n: nat, links: seq<Link>)
      requires n <= 254 && LinksInside(n, links)
      ensures Valid() && UpToDate() && this.n == n && this.links == links
      ensures up == seq(|links|, _ => true)
    {
      this.n, this.links := n, links;
      up := seq(|links|, _ => true);
      forwarded, delivered := seq(n, _ => 0), seq(n, _ => 0);
      droppedNoRoute, droppedTtl := seq(n, _ => 0), seq(n, _ => 0);
      routes := seq(n, _ => []);
      var f, t := WireLinks(n, links);
      faces, faceTo := f, t;
      tables := [];
      new;
      Reroute();
    }

    /** Cut or restore the first link between two nodes; whether there is one. */
    method SetLink(a: nat, b: nat, isUp: bool) returns (found: bool)
      requires Valid()
      modifies this`up
      ensures Valid()
      ensures found <==> FirstLink(links, a, b).Some?
      ensures !found ==> up == old(up)
      ensures |up| == |old(up)|
      ensures found ==> forall k | 0 <= k < |up| ::
                up[k] == if FirstLink(links, a, b) == Some(k) then isUp else old(up)[k]
    {
      hide FirstLink, Rerouted, Wired;
      var at := FindLink(links, a, b);
      found := at.Some?;
      if found {
        CutKeepsWired(State(), links, faceTo, a, b, at.value, isUp);
        up := up[at.value := isUp];
      }
    }

    /** Recompute every table over the links that are up, and install them. */
    method Reroute()
      requires Valid()
      modifies this`routes, this`tables
      ensures Valid() && UpToDate()
    {
      UpLinksInside(n, links, up);
      var view := FromLinks(n, UpLinks(links, up));
      assert view == UpView(n, links, up);
      UpViewValid(n, links, up);
      var computed := ShortestPath.Compute(view);
      var installed := [];
      for u := 0 to n
        invariant |installed| == u
        invariant forall x | 0 <= x < u :: installed[x] == HostRoutes(computed[x], faceTo[x])
      {
        var r := ToRoutes(computed[u], faceTo[u]);
        installed := installed + [r];
      }
      routes, tables := installed, computed;
      forall u, d | 0 <= u < n && 0 <= d < n
        ensures Lpm(routes[u], Addr(d)) == Via(tables[u], faceTo[u], d)
      {
        RowsInside(view, u, tables[u]);
        HostRoutesLookup(tables[u], faceTo[u], d);
      }
    }

    /** Node `u` handles a packet forwarded `done` times so far: it ends here, counted once,
        or goes on to a neighbour with one less to live. */
    method Handle(u: nat, pkt: Packet, done: nat) returns (result: Handled)
      requires Valid() && u < n
      modifies this`forwarded, this`delivered, this`droppedNoRoute, this`droppedTtl
      ensures Valid() && result == Step(State(), u, pkt, done)
      ensures result.GoesOn? ==> UpHop(links, up, u, result.node)
      ensures OutOfCutFace(u, pkt) ==> result == Ends(LostOnLink(u, done + 1))
      ensures forwarded == Counted(old(forwarded), u, result.GoesOn? || result.outcome.LostOnLink?)
      ensures delivered == Counted(old(delivered), u, result.Ends? && result.outcome.Delivered?)
      ensures droppedTtl == Counted(old(droppedTtl), u, result.Ends? && result.outcome.DroppedTtl?)
      ensures droppedNoRoute == Counted(old(droppedNoRoute), u, result.Ends? && result.outcome.DroppedNoRoute?)
    {
      result := Step(Net(n, faces, up, routes), u, pkt, done);
      StepOverUpLink(State(), links, faceTo, u, pkt, done);
      Count(u, result);
    }

    /** The packet is to be forwarded, and its route leads out of a face whose link is down. */
    ghost predicate OutOfCutFace(u: nat, pkt: Packet)
      requires Valid() && u < n
      reads this
    {
      && pkt.dst != Addr(u) && pkt.ttl > 1 && Lpm(routes[u], pkt.dst).Some?
      && var via := Lpm(routes[u], pkt.dst).value;
         via < |faces[u]| && !up[faces[u][via].link]
    }

    ghost predicate CountersShaped()
      reads `forwarded, `delivered, `droppedNoRoute, `droppedTtl
    {
      |forwarded| == |delivered| == |droppedNoRoute| == |droppedTtl| == n
    }

    /** Node `u`'s counters after handling a packet: exactly one of the four goes up. */
    method Count(u: nat, result: Handled)
      requires CountersShaped() && u < n
      modifies this`forwarded, this`delivered, this`droppedNoRoute, this`droppedTtl
      ensures CountersShaped()
      ensures forwarded == Counted(old(forwarded), u, result.GoesOn? || result.outcome.LostOnLink?)
      ensures delivered == Counted(old(delivered), u, result.Ends? && result.outcome.Delivered?)
      ensures droppedTtl == Counted(old(droppedTtl), u, result.Ends? && result.outcome.DroppedTtl?)
      ensures droppedNoRoute == Counted(old(droppedNoRoute), u, result.Ends? && result.outcome.DroppedNoRoute?)
    {
      match result {
        case GoesOn(_) => forwarded := forwarded[u := forwarded[u] + 1];
        case Ends(LostOnLink(_, _)) => forwarded := forwarded[u := forwarded[u] + 1];
        case Ends(Delivered(_, _)) => delivered := delivered[u := delivered[u] + 1];
        case Ends(DroppedTtl(_, _)) => droppedTtl := droppedTtl[u := droppedTtl[u] + 1];
        case Ends(DroppedNoRoute(_, _)) => droppedNoRoute := droppedNoRoute[u := droppedNoRoute[u] + 1];
        case Ends(NotSent) =>
      }
    }

    /** Carry a packet from node to node until it is delivered, dropped or lost. */
    method Carry(start: nat, packet: Packet) returns (outcome: Outcome, ghost trail: seq<nat>)
      requires Valid() && start < n
      modifies this`forwarded, this`delivered, this`droppedNoRoute, this`droppedTtl
      ensures Valid() && outcome == Journey(State(), start, packet, 0) && !outcome.NotSent?
      ensures UpPath(links, up, trail, start, outcome.at)
      ensures |trail| == outcome.forwards + (if outcome.LostOnLink? then 0 else 1)
      ensures Forwarded(old(forwarded), forwarded, outcome.forwards)
      ensures delivered == Ended(old(delivered), outcome, outcome.Delivered?)
      ensures droppedTtl == Ended(old(droppedTtl), outcome, outcome.DroppedTtl?)
      ensures droppedNoRoute == Ended(old(droppedNoRoute), outcome, outcome.DroppedNoRoute?)
    {
      StartTrail(links, up, start);
      hide Journey, Step, NetShape, Forwarded, LinksInside, FacesMatch, RepeatsUp, UpHop, UpPath, OnTrail;
      var pkt, done: nat := packet, 0;
      NoneYet(forwarded);
      OneMore(forwarded, forwarded, 0, start);
      var result := Handle(start, pkt, done);
      StepIsJourney(State(), start, pkt, done);
      trail := [start];
      TrailEndsAt(State(), links, faceTo, trail, start, start, pkt, done);
      while result.GoesOn?
        invariant Valid()
        invariant result.GoesOn? ==> pkt.ttl > 1 && result.node < n
        invariant Fate(State(), result, pkt, done) == Journey(State(), start, packet, 0)
        invariant result.Ends? ==> !result.outcome.NotSent?
        invariant OnTrail(links, up, trail, start, result, done)
        invariant Forwarded(old(forwarded), forwarded, if result.GoesOn? then done + 1 else result.outcome.forwards)
        invariant delivered == if result.Ends?
            then Ended(old(delivered), result.outcome, result.outcome.Delivered?) else old(delivered)
        invariant droppedTtl == if result.Ends?
            then Ended(old(droppedTtl), result.outcome, result.outcome.DroppedTtl?) else old(droppedTtl)
        invariant droppedNoRoute == if result.Ends?
            then Ended(old(droppedNoRoute), result.outcome, result.outcome.DroppedNoRoute?) else old(droppedNoRoute)
        decreases pkt.ttl
      {
        TrailIs(links, up, trail, start, result, done);
        pkt, done := pkt.(ttl := pkt.ttl - 1), done + 1;
        StepIsJourney(State(), result.node, pkt, done);
        TrailGrows(links, up, trail, start, result.node, done - 1);
        trail := trail + [result.node];
        TrailEndsAt(State(), links, faceTo, trail, start, result.node, pkt, done);
        OneMore(old(forwarded), forwarded, done, result.node);
        result := Handle(result.node, pkt, done);
      }
      TrailIs(links, up, trail, start, result, done);
      outcome := result.outcome;
    }

    /** Look up and send a packet of `s`'s own. */
    method SendFrom(s: nat, packet: Packet) returns (outcome: Outcome)
      requires Valid() && s < n
      modifies this`forwarded, this`delivered, this`droppedNoRoute, this`droppedTtl
      ensures Valid() && outcome == Originate(State(), s, packet)
      ensures outcome.Delivered? ==> Reaches(links, up, s, outcome.at, outcome.forwards + 1)
      ensures droppedNoRoute == Ended(old(droppedNoRoute), outcome, outcome.DroppedNoRoute?)
    {
      hide Reaches, Journey, LinksInside, FacesMatch, RepeatsUp;
      var via := Lpm(routes[s], packet.dst);
      if via.None? {
        return NotSent;
      }
      var next := Arrives(Net(n, faces, up, routes), s, via.value);
      if next.None? {
        return LostOnLink(s, 0);
      }
      ghost var trail;
      OriginatedReaches(State(), links, faceTo, s, packet);
      outcome, trail := Carry(next.value, packet);
    }

    /** Send a request from `s` to `d` over up-to-date routes and a simple link list: it is
        delivered exactly when 64 hops over up links are enough, and no node drops it for want
        of a route. */
    method Ping(s: nat, d: nat, number: nat) returns (outcome: Outcome)
      requires Valid() && UpToDate() && s < n && d < n && s != d
      modifies this`forwarded, this`delivered, this`droppedNoRoute, this`droppedTtl
      ensures Valid() && UpToDate()
      ensures outcome.Delivered? <==> WithinHops(UpView(n, links, up), s, d, 64)
      ensures outcome.Delivered? <==> Reaches(links, up, s, d, 64)
      ensures droppedNoRoute == old(droppedNoRoute)
      ensures outcome == Originate(State(), s, Request(s, d, number))
    {
      var net := Net(n, faces, up, routes);
      EndToEnd(net, links, faceTo, tables, s, d, number);
      DeliveredExactlyWhenReached(net, links, faceTo, tables, s, d, number);
      outcome := SendFrom(s, Request(s, d, number));
    }
  }

  lemma RowsInside(view: View, u: nat, table: Table)
    requires TableCorrect(view, u, table, UNREACHABLE) && view.n <= 254
    ensures forall e | e in table :: e.dest < 254
  {
    forall e | e in table ensures e.dest < 254 {
      LookupIn(table, e.dest);
      assert Lookup(table, e.dest).Some?;
    }
  }

  /** A table's rows as host routes. */
  method ToRoutes(table: Table, faceTo: map<nat, nat>) returns (routes: seq<Route>)
    ensures routes == HostRoutes(table, faceTo)
  {
    routes := [];
    for i := 0 to |table|
      invariant routes == HostRoutes(table[..i], faceTo)
    {
      assert table[..i + 1][..i] == table[..i];
      if table[i].nextHop in faceTo {
        routes := routes + [Route(Addr(table[i].dest), 32, faceTo[table[i].nextHop])];
      }
    }
    assert table[..|table|] == table;
  }

  method FindLink(links: seq<Link>, a: nat, b: nat) returns (at: Option<nat>)
    ensures at == FirstLink(links, a, b)
    ensures at.Some? ==> at.value < |links|
  {
    FirstLinkExactly(links, a, b);
    for k := 0 to |links|
      invariant forall j | 0 <= j < k :: !Joins(links[j], a, b)
    {
      if Joins(links[k], a, b) {
        return Some(k);
      }
    }
    at := None;
  }

  lemma WiredAnyUp(net: Net, up: seq<bool>, links: seq<Link>, faceTo: seq<map<nat, nat>>)
    requires Wired(net, links, faceTo) && RepeatsUp(links, up)
    ensures Wired(net.(up := up), links, faceTo)
  {
    hide FacesMatch, LinksInside;
  }

  lemma CutKeepsWired(net: Net, links: seq<Link>, faceTo: seq<map<nat, nat>>, a: nat, b: nat, first: nat, isUp: bool)
    requires Wired(net, links, faceTo) && FirstLink(links, a, b) == Some(first)
    ensures first < |net.up| == |links| && Wired(net.(up := net.up[first := isUp]), links, faceTo)
  {
    FirstLinkExactly(links, a, b);
    assert RepeatsUp(links, net.up);
    hide Wired, FirstLink;
    CutFirst(links, net.up, first, a, b, isUp);
    WiredAnyUp(net, net.up[first := isUp], links, faceTo);
  }

  /** The first link between two nodes may be cut or restored. */
  lemma CutFirst(links: seq<Link>, up: seq<bool>, first: nat, a: nat, b: nat, isUp: bool)
    requires RepeatsUp(links, up) && first < |links| && Joins(links[first], a, b)
    requires forall j | 0 <= j < first :: !Joins(links[j], a, b)
    ensures RepeatsUp(links, up[first := isUp])
  {
    var changed := up[first := isUp];
    forall j, k | 0 <= j < k < |links| && Joins(links[j], links[k].0, links[k].1) ensures changed[k] {
      assert k == first ==> Joins(links[j], a, b);
    }
  }

  /** Attach a face at each end of every link, and note which face leads to which neighbour. */
  method WireLinks(n: nat, links: seq<Link>) returns (faces: seq<seq<Face>>, faceTo: seq<map<nat, nat>>)
    requires LinksInside(n, links)
    ensures FacesMatch(n, links, faces, faceTo)
  {
    faces, faceTo := seq(n, _ => []), seq(n, _ => map[]);
    for k := 0 to |links|
      invariant FacesSound(n, links, faces, faceTo) && LastFaces(n, links, k, faces, faceTo)
      invariant EndsUpTo(links, k, faceTo)
    {
      ghost var before := faceTo;
      faces, faceTo := AttachLink(n, links, k, faces, faceTo);
      EndsOneMore(links, k, before, faceTo);
    }
  }

  ghost predicate EndsUpTo(links: seq<Link>, k: nat, faceTo: seq<map<nat, nat>>) {
    k <= |links| && forall j | 0 <= j < k :: BothEnds(links[j], faceTo)
  }

  lemma EndsOneMore(links: seq<Link>, k: nat, before: seq<map<nat, nat>>, after: seq<map<nat, nat>>)
    requires k < |links| && EndsUpTo(links, k, before) && BothEnds(links[k], after)
    requires forall l | BothEnds(l, before) :: BothEnds(l, after)
    ensures EndsUpTo(links, k + 1, after)
  {
  }

  /** The maps name link `k`'s faces where it joins, and no later ones elsewhere. */
  lemma LastFacesStep(n: nat, links: seq<Link>, k: nat, faces: seq<seq<Face>>, faceTo: seq<map<nat, nat>>)
    requires k < |links| && FacesSound(n, links, faces, faceTo) && LastFaces(n, links, k, faces, faceTo)
    requires forall u, v | 0 <= u < n && v in faceTo[u] && Joins(links[k], u, v) :: faces[u][faceTo[u][v]].link == k
    ensures LastFaces(n, links, k + 1, faces, faceTo)
  {
  }

  method AttachLink(n: nat, links: seq<Link>, k: nat, faces: seq<seq<Face>>, faceTo: seq<map<nat, nat>>)
    returns (faces': seq<seq<Face>>, faceTo': seq<map<nat, nat>>)
    requires LinksInside(n, links) && k < |links| && FacesSound(n, links, faces, faceTo)
    requires LastFaces(n, links, k, faces, faceTo)
    ensures FacesSound(n, links, faces', faceTo') && BothEnds(links[k], faceTo')
    ensures LastFaces(n, links, k + 1, faces', faceTo')
    ensures forall l | BothEnds(l, faceTo) :: BothEnds(l, faceTo')
  {
    assert |faces| == |faceTo| == n;
    hide FacesSound, LastFaces;
    var (a, b) := links[k];
    var f, t := AttachFace(links, faces, faceTo, a, Face(k, b));
    faces', faceTo' := AttachFace(links, f, t, b, Face(k, a));
    LastFacesStep(n, links, k, faces', faceTo');
  }

  function AddFace(faces: seq<seq<Face>>, u: nat, f: Face): seq<seq<Face>>
    requires u < |faces|
  {
    faces[u := faces[u] + [f]]
  }

  function NameFace(faces: seq<seq<Face>>, faceTo: seq<map<nat, nat>>, u: nat, f: Face): seq<map<nat, nat>>
    requires u < |faces| == |faceTo|
  {
    var names: map<nat, nat> := faceTo[u][f.peer := |faces[u]|];
    faceTo[u := names]
  }

  /** The map of `v` names the face `g` for `w`. */
  predicate Named(faces: seq<seq<Face>>, faceTo: seq<map<nat, nat>>, v: nat, w: nat, g: Face) {
    && v < |faces| && v < |faceTo| && w in faceTo[v] && faceTo[v][w] < |faces[v]|
    && faces[v][faceTo[v][w]] == g
  }

  lemma NamesOne(faces: seq<seq<Face>>, faceTo: seq<map<nat, nat>>, u: nat, f: Face, v: nat, w: nat, g: Face)
    requires u < |faces| == |faceTo|
    ensures Named(AddFace(faces, u, f), NameFace(faces, faceTo, u, f), u, f.peer, f)
    ensures Named(faces, faceTo, v, w, g) && !(v == u && w == f.peer)
        ==> Named(AddFace(faces, u, f), NameFace(faces, faceTo, u, f), v, w, g)
  {
  }

  lemma SoundShape(links: seq<Link>, faces: seq<seq<Face>>, faceTo: seq<map<nat, nat>>)
    requires FacesSound(|faces|, links, faces, faceTo)
    ensures |faceTo| == |faces|
  {
  }

  lemma AttachKeeps(faces: seq<seq<Face>>, faceTo: seq<map<nat, nat>>, u: nat, f: Face)
    requires u < |faces| == |faceTo|
    ensures |AddFace(faces, u, f)| == |faces|
    ensures forall l | BothEnds(l, faceTo) :: BothEnds(l, NameFace(faces, faceTo, u, f))
  {
  }

  lemma AttachSound(links: seq<Link>, faces: seq<seq<Face>>, faceTo: seq<map<nat, nat>>, u: nat, f: Face)
    requires FacesSound(|faces|, links, faces, faceTo) && u < |faces|
    requires f.peer < |faces| && f.link < |links| && Joins(links[f.link], u, f.peer)
    ensures FacesSound(|faces|, links, AddFace(faces, u, f), NameFace(faces, faceTo, u, f))
  {
    hide Joins;
  }

  lemma AttachLast(links: seq<Link>, faces: seq<seq<Face>>, faceTo: seq<map<nat, nat>>, u: nat, f: Face)
    requires FacesSound(|faces|, links, faces, faceTo) && u < |faces| && f.link <= |links|
    requires FacesSound(|faces|, links, AddFace(faces, u, f), NameFace(faces, faceTo, u, f))
    requires LastFaces(|faces|, links, f.link, faces, faceTo)
    ensures LastFaces(|faces|, links, f.link, AddFace(faces, u, f), NameFace(faces, faceTo, u, f))
  {
    hide Joins;
    var more: seq<seq<Face>> := AddFace(faces, u, f);
    var names := NameFace(faces, faceTo, u, f);
    forall x: nat, v: nat, j: nat | x < |faces| && v in names[x] && more[x][names[x][v]].link < j < f.link
      ensures !Joins(links[j], x, v)
    {
      assert !(x == u && v == f.peer);
      assert v in faceTo[x] && faces[x][faceTo[x][v]] == more[x][names[x][v]];
    }
  }

  /** One more face of node `u`, the one its map now names for the peer. */
  method AttachFace(links: seq<Link>, faces: seq<seq<Face>>, faceTo: seq<map<nat, nat>>, u: nat, f: Face)
    returns (faces': seq<seq<Face>>, faceTo': seq<map<nat, nat>>)
    requires FacesSound(|faces|, links, faces, faceTo) && u < |faces|
    requires f.peer < |faces| && f.link < |links| && Joins(links[f.link], u, f.peer)
    requires LastFaces(|faces|, links, f.link, faces, faceTo)
    ensures |faces'| == |faces| && FacesSound(|faces|, links, faces', faceTo')
    ensures LastFaces(|faces|, links, f.link, faces', faceTo')
    ensures forall l | BothEnds(l, faceTo) :: BothEnds(l, faceTo')
    ensures Named(faces', faceTo', u, f.peer, f)
    ensures forall v, w, g | Named(faces, faceTo, v, w, g) && !(v == u && w == f.peer) ::
              Named(faces', faceTo', v, w, g)
  {
    SoundShape(links, faces, faceTo);
    hide FacesSound, LastFaces, Named, AddFace, NameFace, Joins, BothEnds;
    AttachSound(links, faces, faceTo, u, f);
    AttachLast(links, faces, faceTo, u, f);
    AttachKeeps(faces, faceTo, u, f);
    faces' := AddFace(faces, u, f);
    faceTo' := NameFace(faces, faceTo, u, f);
    NamesOne(faces, faceTo, u, f, u, f.peer, f);
    forall v, w, g | Named(faces, faceTo, v, w, g) && !(v == u && w == f.peer) ensures Named(faces', faceTo', v, w, g) {
      NamesOne(faces, faceTo, u, f, v, w, g);
    }
  }
}
