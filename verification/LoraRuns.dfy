/**
 Runs of the LoRa medium: pruning loses nothing that matters, verdicts are final when the frame
 ends, and they do not depend on the order of simultaneous calls.
 */
module LoraRuns {
  import opened LoraMedium

  datatype Call =
    | Begin(node: nat, now: nat)
    | Resolve(at: nat, id: nat, node: nat, rx: nat)
    | Relocate(geo: Geometry)

  function Step(c: Config, s: Medium, call: Call): Medium {
    match call
    case Begin(node, now) => Begun(c, s, node, now)
    case Resolve(_, id, node, rx) =>
      if Resolved(c, s, id, node, rx) then s else s.(collisions := s.collisions + 1)
    case Relocate(geo) => s.(geo := geo, nextAllowed := Resized(s.nextAllowed, geo.nodes))
  }

  function After(c: Config, geo: Geometry, calls: seq<Call>): Medium
    decreases |calls|
  {
    if calls == [] then Fresh(geo)
    else Step(c, After(c, geo, calls[..|calls| - 1]), calls[|calls| - 1])
  }

  predicate Accepts(c: Config, s: Medium, call: Call) {
    call.Begin? && !IsGated(c, s, call.node, call.now)
  }

  /** Every window that ever went on air. */
  function Everything(c: Config, geo: Geometry, calls: seq<Call>): seq<Window>
    decreases |calls|
  {
    if calls == [] then []
    else
      var before, call := calls[..|calls| - 1], calls[|calls| - 1];
      var s := After(c, geo, before);
      if Accepts(c, s, call)
      then Everything(c, geo, before) + [NewWindow(c, s.nextId, call.node, call.now)]
      else Everything(c, geo, before)
  }

  // ---- What pruning keeps ---------------------------------------------------------------------

  /** The latest start asked for. */
  function Latest(calls: seq<Call>): nat
    decreases |calls|
  {
    if calls == [] then 0
    else if calls[|calls| - 1].Begin? then calls[|calls| - 1].now
    else Latest(calls[..|calls| - 1])
  }

  /** Starts are asked for in time order. */
  predicate Ordered(calls: seq<Call>)
    decreases |calls|
  {
    if calls == [] then true
    else
      var before, call := calls[..|calls| - 1], calls[|calls| - 1];
      Ordered(before) && (call.Begin? ==> Latest(before) <= call.now)
  }

  lemma {:induction false} LiveAre(windows: seq<Window>, cutoff: nat, w: Window)
    ensures w in Live(windows, cutoff) <==> w in windows && w.end >= cutoff
    decreases |windows|
  {
    if windows != [] {
      LiveAre(windows[..|windows| - 1], cutoff, w);
      assert windows == windows[..|windows| - 1] + [windows[|windows| - 1]];
    }
  }

  /** The list holds only windows that were on air, and all those that ended late enough. */
  ghost predicate KeepsLate(c: Config, geo: Geometry, calls: seq<Call>) {
    var kept, all := After(c, geo, calls).windows, Everything(c, geo, calls);
    && (forall w | w in kept :: w in all)
    && (forall w | w in all && w.end >= SatSub(Latest(calls), c.air) :: w in kept)
  }

  lemma {:induction false} PruningKeepsLate(c: Config, geo: Geometry, calls: seq<Call>)
    requires Ordered(calls)
    ensures KeepsLate(c, geo, calls)
    decreases |calls|
  {
    if calls != [] {
      var before, call := calls[..|calls| - 1], calls[|calls| - 1];
      PruningKeepsLate(c, geo, before);
      var s := After(c, geo, before);
      if Accepts(c, s, call) {
        var w := NewWindow(c, s.nextId, call.node, call.now);
        forall v ensures v in Live(s.windows, SatSub(call.now, c.air)) <==>
                         v in s.windows && v.end >= SatSub(call.now, c.air) {
          LiveAre(s.windows, SatSub(call.now, c.air), v);
        }
      }
    }
  }

  /** Windows carry their position as identifier. */
  lemma {:induction false} IdsAreUnique(c: Config, geo: Geometry, calls: seq<Call>)
    ensures After(c, geo, calls).nextId == |Everything(c, geo, calls)|
    ensures forall k | 0 <= k < |Everything(c, geo, calls)| ::
              Everything(c, geo, calls)[k].id == k
    decreases |calls|
  {
    if calls != [] { IdsAreUnique(c, geo, calls[..|calls| - 1]); }
  }

  lemma {:induction false} WindowIs(c: Config, geo: Geometry, calls: seq<Call>, w: Window)
    requires w in Everything(c, geo, calls)
    ensures w == NewWindow(c, w.id, w.node, w.start)
    ensures w.end == if w.start + c.air < 0x1_0000_0000_0000_0000 then w.start + c.air else 0xFFFF_FFFF_FFFF_FFFF
    decreases |calls|
  {
    var before := calls[..|calls| - 1];
    if w in Everything(c, geo, before) { WindowIs(c, geo, before, w); }
  }

  lemma SameId(c: Config, geo: Geometry, calls: seq<Call>, v: Window, w: Window)
    requires v in Everything(c, geo, calls) && w in Everything(c, geo, calls) && v.id == w.id
    ensures v == w
  {
    IdsAreUnique(c, geo, calls);
  }

  /** Pruning is invisible: a frame resolved no later than its window ends gets the verdict of the
      whole history, provided starts came in time order. */
  lemma PruningIsInvisible(c: Config, geo: Geometry, calls: seq<Call>, at: nat, me: Window,
                           node: nat, rx: nat)
    requires Ordered(calls) && Latest(calls) <= at <= me.end && me in Everything(c, geo, calls)
    ensures var s := After(c, geo, calls);
            Resolved(c, s, me.id, node, rx)
            <==> Survives(c, s.geo, Everything(c, geo, calls), me, node, rx)
  {
    var s, all := After(c, geo, calls), Everything(c, geo, calls);
    PruningKeepsLate(c, geo, calls);
    WindowIs(c, geo, calls, me);
    var found := Find(s.windows, me.id);
    assert me in s.windows;
    SameId(c, geo, calls, found.value, me);
    if Survives(c, s.geo, s.windows, me, node, rx) {
      forall w | w in all && Interferes(s.geo, me, node, rx, w) ensures Captures(c, s.geo, node, rx, w) {
        assert w in s.windows;
      }
    }
  }

  // ---- Verdicts are final ---------------------------------------------------------------------

  /** Every start asked for is at `from` or later. */
  ghost predicate NoEarlier(calls: seq<Call>, from: nat) {
    forall call | call in calls :: call.Begin? ==> call.now >= from
  }

  lemma {:induction false} LaterWindows(c: Config, geo: Geometry, calls: seq<Call>, more: seq<Call>, from: nat)
    requires NoEarlier(more, from)
    ensures forall w | w in Everything(c, geo, calls) :: w in Everything(c, geo, calls + more)
    ensures forall w | w in Everything(c, geo, calls + more) ::
              w in Everything(c, geo, calls) || w.start >= from
    decreases |more|
  {
    if more == [] {
      assert calls + more == calls;
    } else {
      var n := |more| - 1;
      assert more[n] in more;
      LaterWindows(c, geo, calls, more[..n], from);
      assert (calls + more)[..|calls + more| - 1] == calls + more[..n];
    }
  }

  /** Frames that start when this one has ended, or later, change nothing. */
  lemma VerdictIsFinal(c: Config, geo: Geometry, calls: seq<Call>, more: seq<Call>, g: Geometry,
                       me: Window, node: nat, rx: nat)
    requires NoEarlier(more, me.end)
    ensures Survives(c, g, Everything(c, geo, calls), me, node, rx)
       <==> Survives(c, g, Everything(c, geo, calls + more), me, node, rx)
  {
    LaterWindows(c, geo, calls, more, me.end);
  }

  // ---- Two overlapping frames ------------------------------------------------------------------

  /** `w` does not keep `v` from being decoded at `rx`: it does not disturb it there, or `v`
      captures the receiver from it. */
  predicate Passes(c: Config, g: Geometry, v: Window, w: Window, rx: nat) {
    Interferes(g, v, v.node, rx, w) ==> Captures(c, g, v.node, rx, w)
  }

  /** Both frames are on the medium at the same time and reach the receiver. */
  predicate Collide(g: Geometry, v: Window, w: Window, rx: nat) {
    && v.node != w.node && Overlap(v, w)
    && v.node < g.nodes && w.node < g.nodes && rx < g.nodes
    && g.inRange(v.node, rx) && g.inRange(w.node, rx)
  }

  lemma {:induction false} OrderedPrefix(calls: seq<Call>, more: seq<Call>)
    requires Ordered(calls + more)
    ensures Ordered(calls)
    decreases |more|
  {
    if more == [] {
      assert calls + more == calls;
    } else {
      assert (calls + more)[..|calls + more| - 1] == calls + more[..|more| - 1];
      OrderedPrefix(calls, more[..|more| - 1]);
    }
  }

  /** `v` is resolved after `calls`, no sooner than everything asked for and when its window is
      over for all that starts later; `w` is resolved after `more` calls, no later than its end. */
  ghost predicate ResolvedInTurn(c: Config, geo: Geometry, calls: seq<Call>, more: seq<Call>,
                                 t1: nat, t2: nat, v: Window, w: Window) {
    && Ordered(calls + more) && NoEarlier(more, v.end)
    && Latest(calls) <= t1 <= v.end && Latest(calls + more) <= t2 <= w.end
    && v in Everything(c, geo, calls) && w in Everything(c, geo, calls + more)
  }

  lemma Together(c: Config, geo: Geometry, calls: seq<Call>, more: seq<Call>,
                 t1: nat, t2: nat, v: Window, w: Window)
    requires ResolvedInTurn(c, geo, calls, more, t1, t2, v, w) && v.node != w.node && Overlap(v, w)
    ensures Ordered(calls) && v.id != w.id && v.sf == w.sf && v.channel == w.channel
    ensures w in Everything(c, geo, calls) && v in Everything(c, geo, calls + more)
  {
    OrderedPrefix(calls, more);
    LaterWindows(c, geo, calls, more, v.end);
    SameIdSameNode(c, geo, calls + more, v, w);
    WindowIs(c, geo, calls + more, v);
    WindowIs(c, geo, calls + more, w);
  }

  /** Nothing but `w` keeps `v` from being decoded. */
  ghost predicate OthersPass(c: Config, g: Geometry, all: seq<Window>, v: Window, w: Window, rx: nat) {
    forall x | x in all && x != v && x != w :: Passes(c, g, v, x, rx)
  }

  lemma SurvivesBy(c: Config, g: Geometry, all: seq<Window>, v: Window, w: Window, rx: nat)
    requires w in all && v != w
    ensures Survives(c, g, all, v, v.node, rx) <==> Passes(c, g, v, w, rx) && OthersPass(c, g, all, v, w, rx)
  {
    if Passes(c, g, v, w, rx) && OthersPass(c, g, all, v, w, rx) {
      forall x | x in all && Interferes(g, v, v.node, rx, x) ensures Captures(c, g, v.node, rx, x) {
        assert x != v;
        if x != w { assert Passes(c, g, v, x, rx); }
      }
    }
    if Survives(c, g, all, v, v.node, rx) {
      assert OthersPass(c, g, all, v, w, rx);
    }
  }

  /** In a run two overlapping frames of different nodes, each resolved in its turn with the
      positions of that moment, are both decoded exactly when each passes the other at its own
      moment and nothing else keeps either from being decoded. */
  lemma BothDecodedExactlyWhen(c: Config, geo: Geometry, calls: seq<Call>, more: seq<Call>,
                               t1: nat, t2: nat, v: Window, w: Window, rx: nat)
    requires ResolvedInTurn(c, geo, calls, more, t1, t2, v, w) && v.node != w.node && Overlap(v, w)
    ensures var s1, s2, all := After(c, geo, calls), After(c, geo, calls + more), Everything(c, geo, calls + more);
            Resolved(c, s1, v.id, v.node, rx) && Resolved(c, s2, w.id, w.node, rx) <==>
            && Passes(c, s1.geo, v, w, rx) && Passes(c, s2.geo, w, v, rx)
            && OthersPass(c, s1.geo, all, v, w, rx) && OthersPass(c, s2.geo, all, w, v, rx)
  {
    var s1, s2 := After(c, geo, calls), After(c, geo, calls + more);
    Together(c, geo, calls, more, t1, t2, v, w);
    PruningIsInvisible(c, geo, calls, t1, v, v.node, rx);
    PruningIsInvisible(c, geo, calls + more, t2, w, w.node, rx);
    VerdictIsFinal(c, geo, calls, more, s1.geo, v, v.node, rx);
    SurvivesBy(c, s1.geo, Everything(c, geo, calls + more), v, w, rx);
    SurvivesBy(c, s2.geo, Everything(c, geo, calls + more), w, v, rx);
  }

  /** Of two colliding frames at most one is decoded, if the nodes stand at both verdicts where
      they stood at the other. */
  lemma AtMostOneDecoded(c: Config, geo: Geometry, calls: seq<Call>, more: seq<Call>,
                         t1: nat, t2: nat, v: Window, w: Window, rx: nat)
    requires ResolvedInTurn(c, geo, calls, more, t1, t2, v, w) && c.margin > 0
    requires After(c, geo, calls).geo == After(c, geo, calls + more).geo
    requires Collide(After(c, geo, calls).geo, v, w, rx)
    ensures !(Resolved(c, After(c, geo, calls), v.id, v.node, rx)
              && Resolved(c, After(c, geo, calls + more), w.id, w.node, rx))
  {
    Together(c, geo, calls, more, t1, t2, v, w);
    BothDecodedExactlyWhen(c, geo, calls, more, t1, t2, v, w, rx);
  }

  /** Without a capture margin over the other frame, where the nodes stand at its own verdict,
      each of two colliding frames is lost. */
  lemma BothLostWithoutCapture(c: Config, geo: Geometry, calls: seq<Call>, more: seq<Call>,
                               t1: nat, t2: nat, v: Window, w: Window, rx: nat)
    requires ResolvedInTurn(c, geo, calls, more, t1, t2, v, w)
    ensures var s1 := After(c, geo, calls);
            Collide(s1.geo, v, w, rx) && s1.geo.rssi(v.node, rx) < s1.geo.rssi(w.node, rx) + c.margin
            ==> !Resolved(c, s1, v.id, v.node, rx)
    ensures var s2 := After(c, geo, calls + more);
            Collide(s2.geo, v, w, rx) && s2.geo.rssi(w.node, rx) < s2.geo.rssi(v.node, rx) + c.margin
            ==> !Resolved(c, s2, w.id, w.node, rx)
  {
    if v.node != w.node && Overlap(v, w) {
      Together(c, geo, calls, more, t1, t2, v, w);
      PruningIsInvisible(c, geo, calls, t1, v, v.node, rx);
      PruningIsInvisible(c, geo, calls + more, t2, w, w.node, rx);
    }
  }

  lemma Extend(c: Config, geo: Geometry, calls: seq<Call>, call: Call)
    ensures After(c, geo, calls + [call]) == Step(c, After(c, geo, calls), call)
    ensures Everything(c, geo, calls + [call])
         == if Accepts(c, After(c, geo, calls), call)
            then Everything(c, geo, calls) + [NewWindow(c, After(c, geo, calls).nextId, call.node, call.now)]
            else Everything(c, geo, calls)
    ensures Latest(calls + [call]) == if call.Begin? then call.now else Latest(calls)
    ensures Ordered(calls + [call]) <==> Ordered(calls) && (call.Begin? ==> Latest(calls) <= call.now)
  {
    assert (calls + [call])[..|calls|] == calls;
  }

  /** `who` alone is strong, everywhere. */
  function Loud(nodes: nat, who: nat, power: int): Geometry {
    Geometry(nodes, (x: nat, y: nat) => true, (x: nat, y: nat) => if x == who then power else 0)
  }

  /** Two nodes start at the same instant. */
  function TwoStart(a: nat, b: nat, t: nat): seq<Call> {
    [Begin(a, t)] + [Begin(b, t)]
  }

  lemma OneStarted(c: Config, geo: Geometry, a: nat, t: nat)
    requires a < geo.nodes
    ensures var calls := [Begin(a, t)];
            && Everything(c, geo, calls) == [NewWindow(c, 0, a, t)]
            && After(c, geo, calls) == Begun(c, Fresh(geo), a, t) && Latest(calls) == t && Ordered(calls)
  {
    NoneStarted(c, geo);
    FreshAccepts(c, geo, a, t);
    hide After, Everything, Ordered, Latest, Accepts, Begun, Fresh;
    var none: seq<Call> := [];
    assert none + [Begin(a, t)] == [Begin(a, t)];
    Extend(c, geo, none, Begin(a, t));
  }

  lemma NoneStarted(c: Config, geo: Geometry)
    ensures After(c, geo, []) == Fresh(geo) && Everything(c, geo, []) == [] && Ordered([]) && Latest([]) == 0
  {
  }

  lemma FreshAccepts(c: Config, geo: Geometry, a: nat, t: nat)
    requires a < geo.nodes
    ensures Accepts(c, Fresh(geo), Begin(a, t)) && Fresh(geo).nextId == 0
  {
  }

  /** One node's start leaves another free to start. */
  lemma OtherIsFree(c: Config, geo: Geometry, a: nat, b: nat, t: nat)
    requires a < geo.nodes && b < geo.nodes && a != b
    ensures var s := Begun(c, Fresh(geo), a, t);
            s.nextId == 1 && s.geo == geo && Accepts(c, s, Begin(b, t))
  {
    hide Live;
  }

  lemma OtherStarts(c: Config, s: Medium, b: nat, t: nat)
    ensures Step(c, s, Begin(b, t)).geo == s.geo
  {
    hide Live;
  }

  lemma TwoStarted(c: Config, geo: Geometry, a: nat, b: nat, t: nat)
    requires a < geo.nodes && b < geo.nodes && a != b
    ensures var calls := TwoStart(a, b, t);
            && Everything(c, geo, calls) == [NewWindow(c, 0, a, t), NewWindow(c, 1, b, t)]
            && After(c, geo, calls).geo == geo && Latest(calls) == t && Ordered(calls)
  {
    hide After, Everything, Ordered, Latest, Begun, Fresh;
    OneStarted(c, geo, a, t);
    OtherIsFree(c, geo, a, b, t);
    Extend(c, geo, [Begin(a, t)], Begin(b, t));
    OtherStarts(c, Begun(c, Fresh(geo), a, t), b, t);
  }

  lemma ThenMoved(c: Config, geo: Geometry, calls: seq<Call>, after: Geometry)
    ensures var moved := calls + [Relocate(after)];
            && Everything(c, geo, moved) == Everything(c, geo, calls)
            && After(c, geo, moved).geo == after && Latest(moved) == Latest(calls)
            && (Ordered(moved) <==> Ordered(calls))
  {
    Extend(c, geo, calls, Relocate(after));
  }

  /** Positions are those of the moment a frame is resolved, so nodes that move between the two
      verdicts can have both of two colliding frames decoded, whatever the margin. */
  lemma MovingDecodesBoth(c: Config, nodes: nat, a: nat, b: nat, rx: nat, t: nat, power: nat)
    requires a < nodes && b < nodes && rx < nodes && a != b && c.air > 0 && t < MAX_TIME && power >= c.margin
    ensures var before, after := Loud(nodes, a, power), Loud(nodes, b, power);
            var calls, more := TwoStart(a, b, t), [Relocate(after)];
            var v, w := NewWindow(c, 0, a, t), NewWindow(c, 1, b, t);
            && ResolvedInTurn(c, before, calls, more, t, t, v, w)
            && Collide(before, v, w, rx) && Collide(after, v, w, rx)
            && Resolved(c, After(c, before, calls), v.id, a, rx)
            && Resolved(c, After(c, before, calls + more), w.id, b, rx)
  {
    hide After, Everything, Ordered, Latest, Resolved;
    var before, after := Loud(nodes, a, power), Loud(nodes, b, power);
    var calls, more := TwoStart(a, b, t), [Relocate(after)];
    TwoStarted(c, before, a, b, t);
    ThenMoved(c, before, calls, after);
    BothDecodedExactlyWhen(c, before, calls, more, t, t, NewWindow(c, 0, a, t), NewWindow(c, 1, b, t), rx);
  }

  function Begins(calls: seq<Call>): nat
    decreases |calls|
  {
    if calls == [] then 0
    else Begins(calls[..|calls| - 1]) + (if calls[|calls| - 1].Begin? then 1 else 0)
  }

  /** Every frame offered is counted once, as sent or as gated. */
  lemma {:induction false} OfferedFramesAreCounted(c: Config, geo: Geometry, calls: seq<Call>)
    ensures After(c, geo, calls).transmissions == |Everything(c, geo, calls)|
    ensures After(c, geo, calls).transmissions + After(c, geo, calls).gated == Begins(calls)
    decreases |calls|
  {
    if calls != [] { OfferedFramesAreCounted(c, geo, calls[..|calls| - 1]); }
  }

  // ---- The regulator sees each node alone --------------------------------------------------------

  /** The starts node `node` asks for. */
  function Asked(calls: seq<Call>, node: nat): seq<nat>
    decreases |calls|
  {
    if calls == [] then []
    else
      var before, call := Asked(calls[..|calls| - 1], node), calls[|calls| - 1];
      if call.Begin? && call.node == node then before + [call.now] else before
  }

  /** The starts of the node's frames. */
  function Starts(windows: seq<Window>, node: nat): seq<nat>
    decreases |windows|
  {
    if windows == [] then []
    else
      var before, w := Starts(windows[..|windows| - 1], node), windows[|windows| - 1];
      if w.node == node then before + [w.start] else before
  }

  /** When the regulator allows the next start, after these were granted. */
  function AllowedFrom(c: Config, granted: seq<nat>): nat {
    if granted == [] then 0 else SatAdd(SatAdd(granted[|granted| - 1], c.air), c.off)
  }

  /** The starts the regulator grants one node, from what the node asks for alone. */
  function Granted(c: Config, asked: seq<nat>): seq<nat>
    decreases |asked|
  {
    if asked == [] then []
    else
      var before, t := Granted(c, asked[..|asked| - 1]), asked[|asked| - 1];
      if c.dutyEnforced && t < AllowedFrom(c, before) then before else before + [t]
  }

  /** The positions always cover the node. */
  ghost predicate Covered(calls: seq<Call>, node: nat) {
    forall call | call in calls :: call.Relocate? ==> node < call.geo.nodes
  }

  /** A node that stays on the medium is regulated by its own past alone. */
  lemma {:induction false} RegulatedAlone(c: Config, geo: Geometry, calls: seq<Call>, node: nat)
    requires node < geo.nodes && Covered(calls, node)
    ensures Starts(Everything(c, geo, calls), node) == Granted(c, Asked(calls, node))
    ensures node < |After(c, geo, calls).nextAllowed|
    ensures c.dutyEnforced ==>
              After(c, geo, calls).nextAllowed[node] == AllowedFrom(c, Granted(c, Asked(calls, node)))
    decreases |calls|
  {
    if calls != [] {
      var before, call := calls[..|calls| - 1], calls[|calls| - 1];
      assert call in calls;
      assert Covered(before, node);
      RegulatedAlone(c, geo, before, node);
      var s, all := After(c, geo, before), Everything(c, geo, before);
      if call.Begin? && call.node == node {
        assert Asked(calls, node)[..|Asked(before, node)|] == Asked(before, node);
      }
      if Accepts(c, s, call) {
        var w := NewWindow(c, s.nextId, call.node, call.now);
        assert (all + [w])[..|all|] == all;
      }
    }
  }

  /** The number of nodes never changes. */
  ghost predicate SameNodes(calls: seq<Call>, n: nat) {
    forall call | call in calls :: call.Relocate? ==> call.geo.nodes == n
  }

  /** What is not on the medium is not regulated. */
  lemma {:induction false} OutsidersAreFree(c: Config, geo: Geometry, calls: seq<Call>, node: nat)
    requires SameNodes(calls, geo.nodes) && node >= geo.nodes
    ensures Starts(Everything(c, geo, calls), node) == Asked(calls, node)
    ensures |After(c, geo, calls).nextAllowed| == geo.nodes
    decreases |calls|
  {
    if calls != [] {
      var before, call := calls[..|calls| - 1], calls[|calls| - 1];
      assert call in calls;
      assert SameNodes(before, geo.nodes);
      OutsidersAreFree(c, geo, before, node);
      var s, all := After(c, geo, before), Everything(c, geo, before);
      if Accepts(c, s, call) {
        var w := NewWindow(c, s.nextId, call.node, call.now);
        assert (all + [w])[..|all|] == all;
      }
    }
  }

  // ---- Order of simultaneous calls ----------------------------------------------------------------

  lemma {:induction false} StartsAre(windows: seq<Window>, node: nat, t: nat)
    ensures t in Starts(windows, node) <==> exists w | w in windows :: w.node == node && w.start == t
    decreases |windows|
  {
    if windows != [] {
      var before, last := windows[..|windows| - 1], windows[|windows| - 1];
      StartsAre(before, node, t);
      assert windows == before + [last];
      assert last in windows;
    }
  }

  /** The calls of each node are the same and in the same order; between nodes they may be
      ordered differently. */
  ghost predicate SameAsked(a: seq<Call>, b: seq<Call>) {
    forall node :: Asked(a, node) == Asked(b, node)
  }

  lemma SameStarts(c: Config, geo: Geometry, a: seq<Call>, b: seq<Call>, node: nat)
    requires SameNodes(a, geo.nodes) && SameNodes(b, geo.nodes) && SameAsked(a, b)
    ensures Starts(Everything(c, geo, a), node) == Starts(Everything(c, geo, b), node)
  {
    if node < geo.nodes {
      RegulatedAlone(c, geo, a, node);
      RegulatedAlone(c, geo, b, node);
    } else {
      OutsidersAreFree(c, geo, a, node);
      OutsidersAreFree(c, geo, b, node);
    }
  }

  /** A window of one run has its counterpart in the other. */
  lemma Counterpart(c: Config, geo: Geometry, a: seq<Call>, b: seq<Call>, v: Window) returns (w: Window)
    requires SameNodes(a, geo.nodes) && SameNodes(b, geo.nodes) && SameAsked(a, b)
    requires v in Everything(c, geo, a)
    ensures w in Everything(c, geo, b) && w == v.(id := w.id)
  {
    SameStarts(c, geo, a, b, v.node);
    StartsAre(Everything(c, geo, a), v.node, v.start);
    StartsAre(Everything(c, geo, b), v.node, v.start);
    w :| w in Everything(c, geo, b) && w.node == v.node && w.start == v.start;
    WindowIs(c, geo, a, v);
    WindowIs(c, geo, b, w);
  }

  lemma OrderHalf(c: Config, geo: Geometry, g: Geometry, a: seq<Call>, b: seq<Call>, v: Window, w: Window, rx: nat)
    requires SameNodes(a, geo.nodes) && SameNodes(b, geo.nodes) && SameAsked(a, b)
    requires v in Everything(c, geo, a) && w in Everything(c, geo, b) && w == v.(id := w.id)
    requires Survives(c, g, Everything(c, geo, a), v, v.node, rx)
    ensures Survives(c, g, Everything(c, geo, b), w, w.node, rx)
  {
    forall y | y in Everything(c, geo, b) && Interferes(g, w, w.node, rx, y)
      ensures Captures(c, g, w.node, rx, y)
    {
      var x := Counterpart(c, geo, b, a, y);
      SameIdSameNode(c, geo, a, v, x);
      assert Interferes(g, v, v.node, rx, x);
    }
  }

  lemma SameIdSameNode(c: Config, geo: Geometry, calls: seq<Call>, v: Window, x: Window)
    requires v in Everything(c, geo, calls) && x in Everything(c, geo, calls) && x.node != v.node
    ensures x.id != v.id
  {
    IdsAreUnique(c, geo, calls);
  }

  /** The verdict on a frame depends on when each node asked to send, not on how the calls of
      different nodes were interleaved, nor on the identifiers that gave. */
  lemma OrderDoesNotMatter(c: Config, geo: Geometry, a: seq<Call>, b: seq<Call>, at: nat, v: Window, w: Window, rx: nat)
    requires Ordered(a) && Ordered(b) && SameAsked(a, b)
    requires SameNodes(a, geo.nodes) && SameNodes(b, geo.nodes)
    requires After(c, geo, a).geo == After(c, geo, b).geo
    requires v in Everything(c, geo, a) && w in Everything(c, geo, b) && w == v.(id := w.id)
    requires Latest(a) <= at <= v.end && Latest(b) <= at
    ensures Resolved(c, After(c, geo, a), v.id, v.node, rx) <==> Resolved(c, After(c, geo, b), w.id, w.node, rx)
  {
    var g := After(c, geo, a).geo;
    PruningIsInvisible(c, geo, a, at, v, v.node, rx);
    PruningIsInvisible(c, geo, b, at, w, w.node, rx);
    if Survives(c, g, Everything(c, geo, a), v, v.node, rx) { OrderHalf(c, geo, g, a, b, v, w, rx); }
    if Survives(c, g, Everything(c, geo, b), w, w.node, rx) { OrderHalf(c, geo, g, b, a, w, v, rx); }
  }
}
