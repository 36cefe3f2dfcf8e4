/** The in-sim IP plane: longest-prefix match, TTL forwarding, and re-routing over up links. */
module Ip {
  import opened Options
  import opened Graphs
  import opened Basics

  // ---- Addresses and longest-prefix match -----------------------------------------------

  /** The bits an address keeps under a prefix mask: all but the low `bits`. */
  function Kept(a: nat, bits: nat): int {
    a / Pow2(bits)
  }

  predicate InPrefix(a: nat, net: nat, len: nat) {
    if len == 0 then true
    else if len >= 32 then a == net
    else Kept(a, 32 - len) == Kept(net, 32 - len)
  }

  datatype Route = Route(net: nat, len: nat, via: nat)

  /** The most specific matching route; of equally specific ones the last installed. */
  function BestRoute(routes: seq<Route>, dst: nat): Option<Route>
    decreases |routes|
  {
    if routes == [] then None
    else
      var last := routes[|routes| - 1];
      var best := BestRoute(routes[..|routes| - 1], dst);
      if InPrefix(dst, last.net, last.len) && (best.None? || best.value.len <= last.len) then Some(last) else best
  }

  function Lpm(routes: seq<Route>, dst: nat): Option<nat> {
    match BestRoute(routes, dst)
    case Some(r) => Some(r.via)
    case None => None
  }

  /** No matching route is more specific than the one chosen, and none is chosen only when
      none matches. */
  lemma {:induction false} LpmIsLongest(routes: seq<Route>, dst: nat)
    ensures BestRoute(routes, dst).None? <==> forall r | r in routes :: !InPrefix(dst, r.net, r.len)
    ensures match BestRoute(routes, dst)
            case None => true
            case Some(b) => b in routes && InPrefix(dst, b.net, b.len)
                            && forall r | r in routes && InPrefix(dst, r.net, r.len) :: r.len <= b.len
    decreases |routes|
  {
    if routes != [] {
      var n := |routes| - 1;
      LpmIsLongest(routes[..n], dst);
      assert routes == routes[..n] + [routes[n]];
    }
  }

  /** Of equally specific matching routes the last is chosen. */
  lemma {:induction false} LpmIsLast(routes: seq<Route>, dst: nat) returns (k: nat)
    requires BestRoute(routes, dst).Some?
    ensures k < |routes| && BestRoute(routes, dst) == Some(routes[k])
    ensures forall j | k < j < |routes| && InPrefix(dst, routes[j].net, routes[j].len) :: routes[j].len < routes[k].len
    decreases |routes|
  {
    hide InPrefix;
    var n := |routes| - 1;
    if BestRoute(routes[..n], dst).Some? && BestRoute(routes, dst) == BestRoute(routes[..n], dst)
       && !(InPrefix(dst, routes[n].net, routes[n].len) && BestRoute(routes[..n], dst).value.len <= routes[n].len)
    {
      k := LpmIsLast(routes[..n], dst);
    } else {
      k := n;
    }
  }

  /** Bit `i` of an address, from the right. */
  function Bit(a: nat, i: nat): nat {
    a / Pow2(i) % 2
  }

  lemma Halved(a: nat, i: nat)
    ensures a / Pow2(i) == 2 * (a / Pow2(i + 1)) + Bit(a, i)
  {
    var p := Pow2(i);
    var q, r := a / p, a % p;
    var h, b := q / 2, q % 2;
    assert a == q * p + r;
    assert q == 2 * h + b;
    assert q * p == h * (2 * p) + b * p;
    assert b * p + r < 2 * p;
    DivIs(a, 2 * p, h, b * p + r);
  }

  lemma {:induction false} SameHighBits(a: nat, b: nat, i: nat)
    requires a < 0x1_0000_0000 && b < 0x1_0000_0000 && i <= 32
    ensures a / Pow2(i) == b / Pow2(i) <==> forall k: nat | i <= k < 32 :: Bit(a, k) == Bit(b, k)
    decreases 32 - i
  {
    if i == 32 {
      assert Pow2(32) == 0x1_0000_0000 by { PowerOf32(); }
    } else {
      Halved(a, i);
      Halved(b, i);
      SameHighBits(a, b, i + 1);
      assert (forall k: nat | i <= k < 32 :: Bit(a, k) == Bit(b, k))
        <==> Bit(a, i) == Bit(b, i) && forall k: nat | i + 1 <= k < 32 :: Bit(a, k) == Bit(b, k);
      hide Bit, Pow2;
    }
  }

  lemma PowerOf32()
    ensures Pow2(32) == 0x1_0000_0000
  {
    assert Pow2(8) == 256;
    assert Pow2(16) == 65536;
    assert Pow2(24) == 0x100_0000;
  }

  /** An address is within a prefix exactly when its first `len` bits are the prefix's. */
  lemma InPrefixExactlyWhen(a: nat, net: nat, len: nat)
    requires a < 0x1_0000_0000 && net < 0x1_0000_0000 && len <= 32
    ensures InPrefix(a, net, len) <==> forall k: nat | 32 - len <= k < 32 :: Bit(a, k) == Bit(net, k)
  {
    SameHighBits(a, net, 32 - len);
    if len == 32 { assert Pow2(0) == 1; }
    if len == 0 { assert forall k: nat | 32 <= k < 32 :: Bit(a, k) == Bit(net, k); }
    hide Bit;
  }

  /** Node `i`'s address, `10.0.0.{i+1}`, the last octet truncated to eight bits. */
  function Addr(i: nat): nat {
    0x0A00_0000 + (i + 1) % 256
  }

  function Octet(a: nat, i: nat): nat {
    a / Pow2(8 * i) % 256
  }

  /** The address reads 10.0.0 and one more than the node. */
  lemma AddrReads(i: nat)
    requires i < 254
    ensures Octet(Addr(i), 3) == 10 && Octet(Addr(i), 2) == Octet(Addr(i), 1) == 0 && Octet(Addr(i), 0) == i + 1
  {
    ByteBounds();
    hide Pow2;
    var x := 0x0A00_0000 + (i + 1);
    DivIs(x, 0x100_0000, 10, i + 1);
    DivIs(x, 65536, 2560, i + 1);
    DivIs(x, 256, 655360, i + 1);
    assert x / 1 % 256 == i + 1;
    assert Addr(i) == x;
    hide Addr;
  }

  lemma ByteBounds()
    ensures Pow2(0) == 1 && Pow2(8) == 256 && Pow2(16) == 65536 && Pow2(24) == 0x100_0000
  {
    assert Pow2(8) == 256;
    assert Pow2(16) == 65536;
  }

  // ---- The network, as a value ------------------------------------------------------------

  /** One end of a link: the link and the node at the other end. */
  datatype Face = Face(link: nat, peer: nat)

  datatype Packet = Packet(src: nat, dst: nat, ttl: nat, reply: bool, number: nat)

  datatype Net = Net(n: nat, faces: seq<seq<Face>>, up: seq<bool>, routes: seq<seq<Route>>)

  datatype Outcome =
    | Delivered(at: nat, forwards: nat)
    | DroppedTtl(at: nat, forwards: nat)
    | DroppedNoRoute(at: nat, forwards: nat)
    | LostOnLink(at: nat, forwards: nat)
    | NotSent

  ghost predicate NetShape(net: Net) {
    && |net.faces| == |net.routes| == net.n
    && forall u, i | 0 <= u < net.n && 0 <= i < |net.faces[u]| ::
         net.faces[u][i].peer < net.n && net.faces[u][i].link < |net.up|
  }

  /** Where a frame sent out of face `via` of node `u` arrives, if its link is up. */
  function Arrives(net: Net, u: nat, via: nat): Option<nat>
    requires NetShape(net) && u < net.n
  {
    if via < |net.faces[u]| && net.up[net.faces[u][via].link] then Some(net.faces[u][via].peer) else None
  }

  /** What becomes of a packet handled by node `u`, having been forwarded `done` times. */
  function Journey(net: Net, u: nat, pkt: Packet, done: nat): Outcome
    requires NetShape(net) && u < net.n
    decreases pkt.ttl
  {
    if pkt.dst == Addr(u) then Delivered(u, done)
    else if pkt.ttl <= 1 then DroppedTtl(u, done)
    else
      match Lpm(net.routes[u], pkt.dst)
      case None => DroppedNoRoute(u, done)
      case Some(via) =>
        match Arrives(net, u, via)
        case None => LostOnLink(u, done + 1)
        case Some(v) => Journey(net, v, pkt.(ttl := pkt.ttl - 1), done + 1)
  }

  /** A packet `u` originates: looked up and sent, its TTL not yet decremented. */
  function Originate(net: Net, u: nat, pkt: Packet): Outcome
    requires NetShape(net) && u < net.n
  {
    match Lpm(net.routes[u], pkt.dst)
    case None => NotSent
    case Some(via) =>
      match Arrives(net, u, via)
      case None => LostOnLink(u, 0)
      case Some(v) => Journey(net, v, pkt, 0)
  }

  const TTL: nat := 64

  function Request(u: nat, d: nat, number: nat): Packet {
    Packet(Addr(u), Addr(d), TTL, false, number)
  }

  function EchoReply(d: nat, pkt: Packet): Packet {
    Packet(Addr(d), pkt.src, TTL, true, pkt.number)
  }

  /** Under any tables, even looping ones, a packet is forwarded fewer times than its TTL. */
  lemma {:induction false} ForwardsBounded(net: Net, u: nat, pkt: Packet, done: nat)
    requires NetShape(net) && u < net.n && pkt.ttl >= 1
    ensures !Journey(net, u, pkt, done).NotSent?
    ensures done <= Journey(net, u, pkt, done).forwards <= done + pkt.ttl - 1
    decreases pkt.ttl
  {
    if pkt.dst != Addr(u) && pkt.ttl > 1 && Lpm(net.routes[u], pkt.dst).Some? {
      var v := Arrives(net, u, Lpm(net.routes[u], pkt.dst).value);
      if v.Some? { ForwardsBounded(net, v.value, pkt.(ttl := pkt.ttl - 1), done + 1); }
    }
  }

  lemma OriginatedForwardsBounded(net: Net, u: nat, pkt: Packet)
    requires NetShape(net) && u < net.n && pkt.ttl == TTL
    ensures Originate(net, u, pkt).NotSent? || Originate(net, u, pkt).forwards <= 63
  {
    match Lpm(net.routes[u], pkt.dst)
    case None =>
    case Some(via) =>
      match Arrives(net, u, via)
      case None =>
      case Some(v) => ForwardsBounded(net, v, pkt, 0);
  }

  // ---- Topologies from link lists -----------------------------------------------------------

  type Link = (nat, nat)

  predicate Joins(l: Link, a: nat, b: nat) {
    l == (a, b) || l == (b, a)
  }

  ghost predicate LinksInside(n: nat, links: seq<Link>) {
    forall k | 0 <= k < |links| :: links[k].0 < n && links[k].1 < n
  }

  /** Of several links between the same nodes only the first is ever cut. */
  ghost predicate RepeatsUp(links: seq<Link>, up: seq<bool>) {
    |up| == |links| && forall j, k | 0 <= j < k < |links| && Joins(links[j], links[k].0, links[k].1) :: up[k]
  }

  /** The unit-cost arcs `links` give node `u`, in list order. */
  function ArcsOf(links: seq<Link>, u: nat): seq<Arc>
    decreases |links|
  {
    if links == [] then []
    else
      var (a, b) := links[|links| - 1];
      ArcsOf(links[..|links| - 1], u)
      + (if a == u then [Arc(b, 1)] else [])
      + (if b == u then [Arc(a, 1)] else [])
  }

  lemma ArcsOfLast(links: seq<Link>, u: nat, a: Arc)
    requires links != []
    ensures a in ArcsOf(links, u)
       <==> a in ArcsOf(links[..|links| - 1], u) || (a.cost == 1 && Joins(links[|links| - 1], u, a.to))
  {
  }

  lemma {:induction false} ArcsOfExactly(links: seq<Link>, u: nat, v: nat)
    ensures Arc(v, 1) in ArcsOf(links, u) <==> exists k :: 0 <= k < |links| && Joins(links[k], u, v)
    decreases |links|
  {
    hide Joins;
    if links != [] {
      var n := |links| - 1;
      ArcsOfLast(links, u, Arc(v, 1));
      ArcsOfExactly(links[..n], u, v);
      hide ArcsOf;
      assert forall j | 0 <= j < n :: Joins(links[..n][j], u, v) == Joins(links[j], u, v);
    }
  }

  lemma {:induction false} ArcsCostOne(links: seq<Link>, u: nat, a: Arc)
    requires a in ArcsOf(links, u)
    ensures a.cost == 1
    decreases |links|
  {
    ArcsOfLast(links, u, a);
    if a in ArcsOf(links[..|links| - 1], u) { ArcsCostOne(links[..|links| - 1], u, a); }
  }

  method FromLinks(n: nat, links: seq<Link>) returns (view: View)
    requires LinksInside(n, links)
    ensures view.n == n && |view.adj| == n && forall u | 0 <= u < n :: view.adj[u] == ArcsOf(links, u)
  {
    var adj := seq(n, _ => []);
    for k := 0 to |links|
      invariant |adj| == n && forall u | 0 <= u < n :: adj[u] == ArcsOf(links[..k], u)
    {
      assert links[..k + 1][..k] == links[..k];
      var (a, b) := links[k];
      adj := adj[a := adj[a] + [Arc(b, 1)]];
      adj := adj[b := adj[b] + [Arc(a, 1)]];
    }
    assert links[..|links|] == links;
    view := View(n, adj);
  }

  lemma FromLinksValid(n: nat, links: seq<Link>, view: View)
    requires LinksInside(n, links)
    requires view.n == n && |view.adj| == n && forall u | 0 <= u < n :: view.adj[u] == ArcsOf(links, u)
    ensures Valid(view) && PositiveCosts(view)
  {
    forall u, i | 0 <= u < n && 0 <= i < |view.adj[u]| ensures view.adj[u][i].to < n && view.adj[u][i].cost == 1 {
      var a := view.adj[u][i];
      assert a in ArcsOf(links, u);
      ArcsOfExactly(links, u, a.to);
      ArcsCostOne(links, u, a);
      assert a == Arc(a.to, 1);
      var k :| 0 <= k < |links| && Joins(links[k], u, a.to);
    }
  }

  // ---- Installed routes ------------------------------------------------------------------

  /** The links that are up. */
  function UpLinks(links: seq<Link>, up: seq<bool>): seq<Link>
    requires |links| == |up|
    decreases |links|
  {
    if links == [] then []
    else
      var n := |links| - 1;
      UpLinks(links[..n], up[..n]) + (if up[n] then [links[n]] else [])
  }

  lemma {:induction false} UpLinksExactly(links: seq<Link>, up: seq<bool>, l: Link)
    requires |links| == |up|
    ensures l in UpLinks(links, up) <==> exists k :: 0 <= k < |links| && up[k] && links[k] == l
    decreases |links|
  {
    if links != [] {
      var n := |links| - 1;
      UpLinksExactly(links[..n], up[..n], l);
      assert forall j | 0 <= j < n :: (up[..n][j] && links[..n][j] == l) == (up[j] && links[j] == l);
    }
  }

  /** Every face leads over its link to its peer, and the maps name such faces. */
  ghost predicate FacesSound(n: nat, links: seq<Link>, faces: seq<seq<Face>>, faceTo: seq<map<nat, nat>>) {
    && |faces| == |faceTo| == n
    && (forall u, i | 0 <= u < n && 0 <= i < |faces[u]| ::
          faces[u][i].peer < n && faces[u][i].link < |links| && Joins(links[faces[u][i].link], u, faces[u][i].peer))
    && (forall u, v | 0 <= u < n && v in faceTo[u] :: faceTo[u][v] < |faces[u]| && faces[u][faceTo[u][v]].peer == v)
  }

  /** Each end of the link has a face towards the other. */
  ghost predicate BothEnds(l: Link, faceTo: seq<map<nat, nat>>) {
    l.0 < |faceTo| && l.1 < |faceTo| && l.1 in faceTo[l.0] && l.0 in faceTo[l.1]
  }

  /** Of the first `k` links between two nodes the maps name the face of the last. */
  ghost predicate LastFaces(n: nat, links: seq<Link>, k: nat, faces: seq<seq<Face>>, faceTo: seq<map<nat, nat>>)
    requires k <= |links| && FacesSound(n, links, faces, faceTo)
  {
    forall u, v, j | 0 <= u < n && v in faceTo[u] && faces[u][faceTo[u][v]].link < j < k :: !Joins(links[j], u, v)
  }

  ghost predicate FacesMatch(n: nat, links: seq<Link>, faces: seq<seq<Face>>, faceTo: seq<map<nat, nat>>) {
    && FacesSound(n, links, faces, faceTo) && LastFaces(n, links, |links|, faces, faceTo)
    && forall k | 0 <= k < |links| :: BothEnds(links[k], faceTo)
  }

  /** A table's rows as host routes out of the faces towards their next hops. */
  function HostRoutes(table: Table, faceTo: map<nat, nat>): seq<Route>
    decreases |table|
  {
    if table == [] then []
    else
      HostRoutes(table[..|table| - 1], faceTo)
      + (var e := table[|table| - 1]; if e.nextHop in faceTo then [Route(Addr(e.dest), 32, faceTo[e.nextHop])] else [])
  }
}
