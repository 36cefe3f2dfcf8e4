/**
 One LoRa channel shared by all nodes without carrier sense. Windows of frames on air are pruned
 as time passes; a frame is lost when an overlapping one reaches the receiver and capture does not
 save it. Received power and range are arbitrary functions, times are nanoseconds.
 */
module LoraMedium {
  import opened Options

  const MAX_TIME: nat := 0xFFFF_FFFF_FFFF_FFFF

  function SatAdd(a: nat, b: nat): nat {
    if a + b <= MAX_TIME then a + b else MAX_TIME
  }

  function SatSub(a: nat, b: nat): nat {
    if b <= a then a - b else 0
  }

  /** One frame's airtime, the off-time after it, and what the medium's frames share. */
  datatype Config = Config(air: nat, off: nat, sf: nat, channel: nat, dutyEnforced: bool, margin: int)

  datatype Window = Window(id: nat, node: nat, start: nat, end: nat, sf: nat, channel: nat)

  /** Where the nodes are: who is within range of whom, and how strongly. */
  datatype Geometry = Geometry(nodes: nat, inRange: (nat, nat) -> bool, rssi: (nat, nat) -> int)

  datatype Medium = Medium(windows: seq<Window>, nextAllowed: seq<nat>, geo: Geometry, nextId: nat,
                           collisions: nat, gated: nat, transmissions: nat)

  // ---- Starting a frame -----------------------------------------------------------------

  predicate Regulated(c: Config, s: Medium, node: nat) {
    c.dutyEnforced && node < |s.nextAllowed|
  }

  predicate IsGated(c: Config, s: Medium, node: nat, now: nat) {
    Regulated(c, s, node) && now < s.nextAllowed[node]
  }

  function Live(windows: seq<Window>, cutoff: nat): seq<Window>
    decreases |windows|
  {
    if windows == [] then []
    else
      var before, w := Live(windows[..|windows| - 1], cutoff), windows[|windows| - 1];
      if w.end >= cutoff then before + [w] else before
  }

  function NewWindow(c: Config, id: nat, node: nat, now: nat): Window {
    Window(id, node, now, SatAdd(now, c.air), c.sf, c.channel)
  }

  function Begun(c: Config, s: Medium, node: nat, now: nat): Medium {
    if IsGated(c, s, node, now) then s.(gated := s.gated + 1)
    else
      var w := NewWindow(c, s.nextId, node, now);
      s.(windows := Live(s.windows, SatSub(now, c.air)) + [w],
         nextId := s.nextId + 1,
         nextAllowed := if Regulated(c, s, node) then s.nextAllowed[node := SatAdd(w.end, c.off)]
                        else s.nextAllowed,
         transmissions := s.transmissions + 1)
  }

  // ---- Resolving a frame ------------------------------------------------------------------

  predicate Overlap(v: Window, w: Window) {
    w.start < v.end && v.start < w.end
  }

  predicate Interferes(g: Geometry, me: Window, node: nat, rx: nat, w: Window) {
    && w.id != me.id && w.node != node && w.sf == me.sf && w.channel == me.channel
    && Overlap(me, w)
    && w.node < g.nodes && rx < g.nodes && g.inRange(w.node, rx)
  }

  /** The frame is as much stronger at the receiver as capture needs. */
  predicate Captures(c: Config, g: Geometry, node: nat, rx: nat, w: Window) {
    node < g.nodes && g.rssi(node, rx) >= g.rssi(w.node, rx) + c.margin
  }

  /** The frame is decoded at `rx`: it captures the receiver from everything that interferes. */
  predicate Survives(c: Config, g: Geometry, windows: seq<Window>, me: Window, node: nat, rx: nat) {
    forall w | w in windows :: Interferes(g, me, node, rx, w) ==> Captures(c, g, node, rx, w)
  }

  function Find(windows: seq<Window>, id: nat): (found: Option<Window>)
    ensures found.Some? ==> found.value in windows && found.value.id == id
    ensures found.None? ==> forall w | w in windows :: w.id != id
    decreases |windows|
  {
    if windows == [] then None
    else if windows[0].id == id then Some(windows[0])
    else Find(windows[1..], id)
  }

  /** A frame no longer on the list counts as decoded. */
  predicate Resolved(c: Config, s: Medium, id: nat, node: nat, rx: nat) {
    var me := Find(s.windows, id);
    me.None? || Survives(c, s.geo, s.windows, me.value, node, rx)
  }

  /** New positions; the regulator's table follows the number of nodes. */
  function Resized(allowed: seq<nat>, n: nat): (r: seq<nat>)
    ensures |r| == n
  {
    if n <= |allowed| then allowed[..n] else allowed + seq(n - |allowed|, _ => 0)
  }

  // ---- The medium, updated in place ---------------------------------------------------------

  class LoraMedium {
    const c: Config
    var windows: seq<Window>
    var nextAllowed: seq<nat>
    var geo: Geometry
    var nextId: nat
    var collisions: nat
    var gated: nat
    var transmissions: nat

    function State(): Medium
      reads this
    {
      Medium(windows, nextAllowed, geo, nextId, collisions, gated, transmissions)
    }

    constructor (c: Config, geo: Geometry)
      ensures this.c == c && State() == Fresh(geo)
    {
      this.c, this.geo := c, geo;
      windows, nextAllowed := [], seq(geo.nodes, _ => 0);
      nextId, collisions, gated, transmissions := 0, 0, 0, 0;
    }

    method SetPositions(geo: Geometry)
      modifies this
      ensures State() == old(State()).(geo := geo, nextAllowed := Resized(old(nextAllowed), geo.nodes))
    {
      if |nextAllowed| != geo.nodes {
        nextAllowed := Resized(nextAllowed, geo.nodes);
      }
      this.geo := geo;
    }

    /** Drop the windows that ended more than an airtime ago. */
    method Prune(cutoff: nat)
      modifies this`windows
      ensures windows == Live(old(windows), cutoff)
    {
      var kept := [];
      for k := 0 to |windows|
        invariant kept == Live(windows[..k], cutoff)
        invariant windows == old(windows)
      {
        assert windows[..k + 1][..k] == windows[..k];
        if windows[k].end >= cutoff {
          kept := kept + [windows[k]];
        }
      }
      assert windows[..|windows|] == windows;
      windows := kept;
    }

    /** Start a frame: its id, or nothing when the regulator gates it. */
    method BeginTx(node: nat, now: nat) returns (id: Option<nat>)
      modifies this
      ensures State() == Begun(c, old(State()), node, now)
      ensures id == if IsGated(c, old(State()), node, now) then None else Some(old(nextId))
    {
      if c.dutyEnforced && node < |nextAllowed| && now < nextAllowed[node] {
        gated := gated + 1;
        return None;
      }
      Prune(SatSub(now, c.air));
      id := Some(nextId);
      nextId := nextId + 1;
      var end := SatAdd(now, c.air);
      windows := windows + [Window(id.value, node, now, end, c.sf, c.channel)];
      if c.dutyEnforced && node < |nextAllowed| {
        nextAllowed := nextAllowed[node := SatAdd(end, c.off)];
      }
      transmissions := transmissions + 1;
    }

    /** Whether frame `id` of `node` is decoded at `rx`: compare it with the loudest interferer. */
    method Resolve(id: nat, node: nat, rx: nat) returns (survive: bool)
      modifies this`collisions
      ensures survive == Resolved(c, old(State()), id, node, rx)
      ensures collisions == old(collisions) + (if survive then 0 else 1)
    {
      var found := Find(windows, id);
      if found.None? {
        return true;
      }
      var me := found.value;
      var loudest := 0;
      var interfered := false;
      for k := 0 to |windows|
        invariant interfered <==> exists w | w in windows[..k] :: Interferes(geo, me, node, rx, w)
        invariant interfered ==> exists w | w in windows[..k] ::
          Interferes(geo, me, node, rx, w) && geo.rssi(w.node, rx) == loudest
        invariant interfered ==> forall w | w in windows[..k] ::
          Interferes(geo, me, node, rx, w) ==> geo.rssi(w.node, rx) <= loudest
      {
        var w := windows[k];
        assert windows[..k + 1] == windows[..k] + [w] && w in windows[..k + 1];
        if w.id == id || w.node == node || w.sf != me.sf || w.channel != me.channel {
        } else if w.start < me.end && me.start < w.end {
          if w.node < geo.nodes && rx < geo.nodes && geo.inRange(w.node, rx) {
            var power := geo.rssi(w.node, rx);
            loudest := if interfered && power <= loudest then loudest else power;
            interfered := true;
          }
        }
      }
      assert windows[..|windows|] == windows;
      if !interfered {
        return true;
      }
      survive := node < geo.nodes && geo.rssi(node, rx) >= loudest + c.margin;
      if !survive {
        collisions := collisions + 1;
      }
    }
  }

  function Fresh(geo: Geometry): Medium {
    Medium([], seq(geo.nodes, _ => 0), geo, 0, 0, 0, 0)
  }
}
