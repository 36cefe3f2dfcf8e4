/**
 The duty cycle over whole runs: how far apart a node's frames are, how much of any interval they
 fill, and when the regulator forgets.
 */
module LoraDuty {
  import opened LoraMedium
  import opened LoraRuns

  /** The limit the regulator works with: no less than a billionth. */
  function Floor(limit: real): real {
    if limit > 0.000000001 then limit else 0.000000001
  }

  /** Off-time after `air` on air at a duty cycle of `limit`: just enough for the airtime to be no
      more than the limit's share of the whole. */
  function OffTime(air: real, limit: real): (off: real)
    requires air >= 0.0
    ensures off >= 0.0
    ensures (air + off) * Floor(limit) >= air
    ensures limit <= 1.0 ==> (air + off) * Floor(limit) == air
  {
    var off := air / Floor(limit) - air;
    if off > 0.0 then off else 0.0
  }

  function Period(c: Config): nat {
    c.air + c.off
  }

  /** Consecutive starts are at least a period apart. */
  predicate SpacedBy(starts: seq<nat>, period: nat) {
    forall k | 0 < k < |starts| :: starts[k - 1] + period <= starts[k]
  }

  predicate BeforeTheEnd(starts: seq<nat>) {
    forall k | 0 <= k < |starts| :: starts[k] < MAX_TIME
  }

  lemma {:induction false} GrantedAreSpaced(c: Config, asked: seq<nat>)
    requires c.dutyEnforced && BeforeTheEnd(asked)
    ensures SpacedBy(Granted(c, asked), Period(c)) && BeforeTheEnd(Granted(c, asked))
    decreases |asked|
  {
    if asked != [] { GrantedAreSpaced(c, asked[..|asked| - 1]); }
  }

  /** Nothing is asked for at the very last instant, where times saturate. */
  predicate InTime(calls: seq<Call>) {
    forall k | 0 <= k < |calls| :: calls[k].Begin? ==> calls[k].now < MAX_TIME
  }

  lemma {:induction false} AskedBeforeTheEnd(calls: seq<Call>, node: nat)
    requires InTime(calls)
    ensures BeforeTheEnd(Asked(calls, node))
    decreases |calls|
  {
    if calls != [] { AskedBeforeTheEnd(calls[..|calls| - 1], node); }
  }

  /** With enforcement on, the starts of a node that stays on the medium are an airtime and an
      off-time apart. */
  lemma StartsAreSpaced(c: Config, geo: Geometry, calls: seq<Call>, node: nat)
    requires c.dutyEnforced && node < geo.nodes && Covered(calls, node)
    requires InTime(calls)
    ensures SpacedBy(Starts(Everything(c, geo, calls), node), Period(c))
  {
    RegulatedAlone(c, geo, calls, node);
    AskedBeforeTheEnd(calls, node);
    GrantedAreSpaced(c, Asked(calls, node));
  }

  lemma {:induction false} EarlierStarts(starts: seq<nat>, period: nat, t: nat)
    requires SpacedBy(starts, period) && starts != [] && t in starts[..|starts| - 1]
    ensures t + period <= starts[|starts| - 1]
    decreases |starts|
  {
    var rest := starts[..|starts| - 1];
    var last := |rest| - 1;
    if t != rest[last] {
      assert rest == rest[..last] + [rest[last]];
      EarlierStarts(rest, period, t);
    }
  }

  lemma {:induction false} SpacedWindows(windows: seq<Window>, node: nat, period: nat, i: nat, j: nat)
    requires i < j < |windows| && windows[i].node == windows[j].node == node
    requires SpacedBy(Starts(windows, node), period)
    ensures windows[i].start + period <= windows[j].start
    decreases |windows|
  {
    var n := |windows| - 1;
    var rest := windows[..n];
    if j < n {
      var all, some := Starts(windows, node), Starts(rest, node);
      assert forall k | 0 <= k < |some| :: some[k] == all[k];
      SpacedWindows(rest, node, period, i, j);
    } else {
      assert windows[i] in rest;
      StartsAre(rest, node, windows[i].start);
      var starts := Starts(windows, node);
      assert starts[..|starts| - 1] == Starts(rest, node);
      EarlierStarts(starts, period, windows[i].start);
    }
  }

  /** A regulated node never has two frames on air at once. */
  lemma NodeNeverOverlapsItself(c: Config, geo: Geometry, calls: seq<Call>, i: nat, j: nat)
    requires var all := Everything(c, geo, calls); i < j < |all| && all[i].node == all[j].node
    requires var node := Everything(c, geo, calls)[i].node; node < geo.nodes && Covered(calls, node)
    requires c.dutyEnforced
    requires InTime(calls)
    ensures !Overlap(Everything(c, geo, calls)[i], Everything(c, geo, calls)[j])
  {
    var all := Everything(c, geo, calls);
    StartsAreSpaced(c, geo, calls, all[i].node);
    SpacedWindows(all, all[i].node, Period(c), i, j);
    WindowIs(c, geo, calls, all[i]);
  }

  // ---- On-air time in an interval ---------------------------------------------------------------

  function Max(x: int, y: int): int {
    if x >= y then x else y
  }

  function Min(x: int, y: int): int {
    if x <= y then x else y
  }

  /** How much of a frame started at `s` falls between `a` and `b`. */
  function Part(s: nat, air: nat, a: nat, b: nat): nat {
    Max(0, Min(s + air, b) - Max(s, a))
  }

  /** The time on air between `a` and `b`. */
  function OnAir(starts: seq<nat>, air: nat, a: nat, b: nat): nat
    decreases |starts|
  {
    if starts == [] then 0
    else OnAir(starts[..|starts| - 1], air, a, b) + Part(starts[|starts| - 1], air, a, b)
  }

  lemma {:induction false} AllBefore(starts: seq<nat>, period: nat, air: nat, a: nat, b: nat)
    requires SpacedBy(starts, period) && air <= period && starts != []
    requires starts[|starts| - 1] + air <= a
    ensures OnAir(starts, air, a, b) == 0
    decreases |starts|
  {
    if |starts| > 1 { AllBefore(starts[..|starts| - 1], period, air, a, b); }
  }

  /** Only the last of the frames started before `a` reaches past it. */
  lemma StartedBefore(starts: seq<nat>, period: nat, air: nat, a: nat, b: nat)
    requires SpacedBy(starts, period) && air <= period && starts != []
    requires starts[|starts| - 1] < a
    ensures OnAir(starts, air, a, b) <= Max(0, starts[|starts| - 1] + air - a)
  {
    var n := |starts| - 1;
    if n > 0 { AllBefore(starts[..n], period, air, a, b); }
  }

  lemma Exchange(x: nat, air: nat, period: nat, gap: int)
    requires x <= air <= period && gap >= x - air + period
    ensures period * x <= air * gap
  {
    assert (air - x) * (period - air) >= 0;
    assert air * gap >= air * (x - air + period);
  }

  lemma OneMoreFrame(period: nat, air: nat, before: nat, part: nat, gap: nat)
    requires period * before <= air * gap && part <= air
    ensures period * (before + part) <= air * gap + period * air
  {
    assert period * (before + part) == period * before + period * part;
    assert period * part <= period * air;
  }

  lemma Apart(period: nat, air: nat, before: nat, earlier: int, gap: int)
    requires period * before <= air * earlier + period * air && earlier + period <= gap
    ensures period * before <= air * gap
  {
    assert air * (earlier + period) == air * earlier + period * air;
    assert air * (earlier + period) <= air * gap;
  }

  lemma {:induction false} OnAirUpToLast(starts: seq<nat>, period: nat, air: nat, a: nat, b: nat)
    requires SpacedBy(starts, period) && air <= period && starts != []
    requires a <= starts[|starts| - 1]
    ensures period * OnAir(starts, air, a, b) <= air * (starts[|starts| - 1] - a) + period * air
    decreases |starts|
  {
    var n := |starts| - 1;
    var rest, last := starts[..n], starts[n];
    var before, gap := OnAir(rest, air, a, b), last - a;
    if n > 0 {
      var previous := rest[n - 1];
      assert previous + period <= last;
      if a <= previous {
        OnAirUpToLast(rest, period, air, a, b);
        Apart(period, air, before, previous - a, gap);
      } else {
        StartedBefore(rest, period, air, a, b);
        if before > 0 { Exchange(before, air, period, gap); }
      }
    }
    OneMoreFrame(period, air, before, Part(last, air, a, b), gap);
  }

  lemma Raise(x: int, air: nat, early: int, late: int, rest: int)
    requires x <= air * early + rest && early <= late
    ensures x <= air * late + rest
  {
    assert air * early <= air * late;
  }

  lemma OneFrameAtMost(x: nat, period: nat, air: nat, gap: nat)
    requires x <= air
    ensures period * x <= air * gap + period * air
  {
    assert period * x <= period * air;
  }

  /** Frames at least a period apart fill no more of an interval than the airtime's share of the
      period, and one frame more. */
  lemma {:induction false} ShareOfInterval(starts: seq<nat>, period: nat, air: nat, a: nat, b: nat)
    requires SpacedBy(starts, period) && air <= period && a <= b
    ensures period * OnAir(starts, air, a, b) <= air * (b - a) + period * air
    decreases |starts|
  {
    var n := |starts| - 1;
    if starts == [] {
      OneFrameAtMost(0, period, air, b - a);
    } else if b <= starts[n] {
      ShareOfInterval(starts[..n], period, air, a, b);
      assert Part(starts[n], air, a, b) == 0;
    } else if a <= starts[n] {
      OnAirUpToLast(starts, period, air, a, b);
      Raise(period * OnAir(starts, air, a, b), air, starts[n] - a, b - a, period * air);
    } else {
      StartedBefore(starts, period, air, a, b);
      OneFrameAtMost(OnAir(starts, air, a, b), period, air, b - a);
    }
  }

  /** Whole nanoseconds: the off-time set is within `slack` of the exact one. */
  predicate OffWithin(c: Config, limit: real, slack: real) {
    c.off as real + slack >= OffTime(c.air as real, limit)
  }

  /** `x` on air in an interval of `gap` is at most the limit's share of it and one frame more. If
      the off-time set is `slack` short of the exact one, the share grows in the proportion of
      `slack` to the period. */
  predicate WithinLimit(c: Config, limit: real, slack: real, x: nat, gap: nat) {
    Period(c) as real * (x - c.air) as real <= Floor(limit) * gap as real * (Period(c) as real + slack)
  }

  lemma LimitedShare(limit: real, air: real, period: real, slack: real, x: real, gap: real)
    requires (period + slack) * limit >= air && gap >= 0.0
    requires period * x <= air * gap + period * air
    ensures period * (x - air) <= limit * gap * (period + slack)
  {
    var most := (period + slack) * limit;
    assert air * gap <= most * gap;
    assert most * gap == limit * gap * (period + slack);
    assert period * (x - air) == period * x - period * air;
  }

  lemma PeriodOf(c: Config, limit: real, slack: real)
    requires OffWithin(c, limit, slack)
    ensures (Period(c) as real + slack) * Floor(limit) >= c.air as real
  {
    var exact := c.air as real + OffTime(c.air as real, limit);
    assert (Period(c) as real + slack) * Floor(limit) >= exact * Floor(limit);
  }

  lemma Reals(period: nat, x: nat, air: nat, gap: nat)
    requires period * x <= air * gap + period * air
    ensures period as real * x as real <= air as real * gap as real + period as real * air as real
  {
    assert (period * x) as real == period as real * x as real;
    assert (air * gap) as real == air as real * gap as real;
    assert (period * air) as real == period as real * air as real;
  }

  lemma ShareWithinLimit(c: Config, limit: real, slack: real, x: nat, gap: nat)
    requires OffWithin(c, limit, slack) && Period(c) * x <= c.air * gap + Period(c) * c.air
    ensures WithinLimit(c, limit, slack, x, gap)
  {
    PeriodOf(c, limit, slack);
    Reals(Period(c), x, c.air, gap);
    hide OffTime, Floor, Period;
    LimitedShare(Floor(limit), c.air as real, Period(c) as real, slack, x as real, gap as real);
  }

  /** In every interval of every run a node that stays on the medium is on air within the limit,
      whatever the limit and however the off-time is rounded. */
  lemma DutyCycleHolds(c: Config, geo: Geometry, calls: seq<Call>, node: nat, limit: real, slack: real,
                       a: nat, b: nat)
    requires c.dutyEnforced && node < geo.nodes && Covered(calls, node)
    requires InTime(calls)
    requires OffWithin(c, limit, slack) && a <= b
    ensures WithinLimit(c, limit, slack, OnAir(Starts(Everything(c, geo, calls), node), c.air, a, b), b - a)
  {
    hide WithinLimit, OffWithin, OnAir;
    var starts := Starts(Everything(c, geo, calls), node);
    StartsAreSpaced(c, geo, calls, node);
    ShareOfInterval(starts, Period(c), c.air, a, b);
    ShareWithinLimit(c, limit, slack, OnAir(starts, c.air, a, b), b - a);
  }

  lemma DivideBy(p: real, x: real, y: real)
    requires p > 0.0 && p * x <= p * y
    ensures x <= y
  {
    assert (p * x) / p == x && (p * y) / p == y;
  }

  lemma ShareIsPositive(limit: real, gap: nat)
    ensures Floor(limit) * gap as real >= 0.0
  {
  }

  lemma NoSlack(c: Config, limit: real, x: nat, gap: nat)
    requires WithinLimit(c, limit, 0.0, x, gap) && (c.air == 0 ==> x == 0)
    ensures x as real <= Floor(limit) * gap as real + c.air as real
  {
    ShareIsPositive(limit, gap);
    var p, share := Period(c) as real, Floor(limit) * gap as real;
    if c.air > 0 {
      assert p * (x - c.air) as real <= share * (p + 0.0);
      DivideBy(p, (x - c.air) as real, share);
    }
  }

  lemma {:induction false} NothingOnAir(starts: seq<nat>, a: nat, b: nat)
    ensures OnAir(starts, 0, a, b) == 0
    decreases |starts|
  {
    if starts != [] { NothingOnAir(starts[..|starts| - 1], a, b); }
  }

  /** With an off-time no shorter than the exact one there is no slack: at most the limit's share
      of the interval and one frame more. */
  lemma DutyCycleHoldsExactly(c: Config, geo: Geometry, calls: seq<Call>, node: nat, limit: real, a: nat, b: nat)
    requires c.dutyEnforced && node < geo.nodes && Covered(calls, node)
    requires InTime(calls)
    requires OffWithin(c, limit, 0.0) && a <= b
    ensures OnAir(Starts(Everything(c, geo, calls), node), c.air, a, b) as real
         <= Floor(limit) * (b - a) as real + c.air as real
  {
    hide WithinLimit, OffWithin, OnAir, Floor, Starts, Everything, Covered, InTime;
    var starts := Starts(Everything(c, geo, calls), node);
    DutyCycleHolds(c, geo, calls, node, limit, 0.0, a, b);
    if c.air == 0 { NothingOnAir(starts, a, b); }
    NoSlack(c, limit, OnAir(starts, c.air, a, b), b - a);
  }

  /** A limit of one part in `parts` means an off-time of the other parts. */
  lemma OffTimeExact(air: nat, parts: nat)
    requires 0 < parts <= 1000000000
    ensures OffTime(air as real, 1.0 / parts as real) == (air * (parts - 1)) as real
  {
    ShareAboveFloor(parts);
    var a, k, limit := air as real, parts as real, 1.0 / parts as real;
    QuotientByShare(a, k, limit);
    assert (air * (parts - 1)) as real == a * (k - 1.0);
    assert a * k - a == a * (k - 1.0);
    assert a * (k - 1.0) >= 0.0;
  }

  lemma QuotientByShare(a: real, k: real, limit: real)
    requires k > 0.0 && limit == 1.0 / k
    ensures limit > 0.0 && a / limit == a * k
  {
    assert limit * k == 1.0;
    var q := a / limit;
    calc {
      q;
      == q * (limit * k);
      == (q * limit) * k;
      == a * k;
    }
  }

  lemma TimesAtMost(k: real, x: real, y: real)
    requires k > 0.0 && x * k <= y * k
    ensures x <= y
  {
    DivideBy(k, x, y);
  }

  lemma ShareAboveFloor(parts: nat)
    requires 0 < parts <= 1000000000
    ensures Floor(1.0 / parts as real) == 1.0 / parts as real
  {
    var k := parts as real;
    var limit := 1.0 / k;
    assert limit * k == 1.0;
    assert 0.000000001 * k <= 1.0;
    TimesAtMost(k, 0.000000001, limit);
  }

  /** The limit is one part in `parts`, and the off-time the other parts. */
  predicate OnePart(c: Config, parts: nat) {
    0 < parts <= 1000000000 && c.off == c.air * (parts - 1)
  }

  function Limit(parts: nat): real {
    if parts == 0 then 1.0 else 1.0 / parts as real
  }

  lemma OnePartIsOff(c: Config, parts: nat)
    requires OnePart(c, parts)
    ensures OffWithin(c, Limit(parts), 0.0)
  {
    OffTimeExact(c.air, parts);
  }

  /** At such a limit the bound is one of whole numbers. */
  lemma OnePartIn(c: Config, geo: Geometry, calls: seq<Call>, node: nat, parts: nat, a: nat, b: nat)
    requires c.dutyEnforced && node < geo.nodes && Covered(calls, node)
    requires InTime(calls)
    requires OnePart(c, parts) && a <= b
    ensures parts * OnAir(Starts(Everything(c, geo, calls), node), c.air, a, b) <= (b - a) + parts * c.air
  {
    hide OffTime, Floor, OnAir, OnePart, Limit, OffWithin, Covered, Everything, Starts;
    OnePartIsOff(c, parts);
    DutyCycleHoldsExactly(c, geo, calls, node, Limit(parts), a, b);
    OneOver(c, parts, OnAir(Starts(Everything(c, geo, calls), node), c.air, a, b), b - a);
  }

  lemma OneOver(c: Config, parts: nat, x: nat, gap: nat)
    requires OnePart(c, parts) && x as real <= Floor(Limit(parts)) * gap as real + c.air as real
    ensures parts * x <= gap + parts * c.air
  {
    var air := c.air;
    var p := parts as real;
    var limit := 1.0 / p;
    assert limit * p == 1.0;
    assert limit >= 0.000000001;
    assert p * x as real <= p * (limit * gap as real) + p * air as real;
    assert p * (limit * gap as real) == gap as real;
    assert (parts * x) as real == p * x as real && (parts * air) as real == p * air as real;
  }

  // ---- When the regulator forgets --------------------------------------------------------------

  /** A node the regulator's table does not cover starts whenever it asks. */
  lemma UncoveredIsFree(c: Config, geo: Geometry, calls: seq<Call>, node: nat, t: nat)
    requires |After(c, geo, calls).nextAllowed| <= node
    ensures Starts(Everything(c, geo, calls + [Begin(node, t)]), node) == Starts(Everything(c, geo, calls), node) + [t]
    ensures After(c, geo, calls + [Begin(node, t)]).nextAllowed == After(c, geo, calls).nextAllowed
  {
    var s, all := After(c, geo, calls), Everything(c, geo, calls);
    var w := NewWindow(c, s.nextId, node, t);
    Extend(c, geo, calls, Begin(node, t));
    assert (all + [w])[..|all|] == all;
  }

  /** After any run a relocation that drops a node lets it start twice at the same instant,
      whatever the limit. */
  lemma DroppedNodeIsFree(c: Config, geo: Geometry, calls: seq<Call>, small: Geometry, node: nat, t: nat)
    requires small.nodes <= node
    ensures Starts(Everything(c, geo, calls + [Relocate(small)] + [Begin(node, t)] + [Begin(node, t)]), node)
         == Starts(Everything(c, geo, calls), node) + [t, t]
  {
    var moved := calls + [Relocate(small)];
    Extend(c, geo, calls, Relocate(small));
    UncoveredIsFree(c, geo, moved, node, t);
    UncoveredIsFree(c, geo, moved + [Begin(node, t)], node, t);
  }

  /** The regulator's table follows the number of nodes, so after any run taking a node off the
      medium and putting it back lets it start at once, whatever the limit. */
  lemma ShrinkingForgetsDuty(c: Config, geo: Geometry, calls: seq<Call>, small: Geometry, large: Geometry,
                             node: nat, t: nat)
    requires small.nodes <= node < large.nodes
    ensures Starts(Everything(c, geo, calls + [Relocate(small)] + [Relocate(large)] + [Begin(node, t)]), node)
         == Starts(Everything(c, geo, calls), node) + [t]
  {
    var shrunk := calls + [Relocate(small)];
    var back := shrunk + [Relocate(large)];
    Extend(c, geo, calls, Relocate(small));
    Extend(c, geo, shrunk, Relocate(large));
    Extend(c, geo, back, Begin(node, t));
    ForgottenEntry(After(c, geo, calls).nextAllowed, small.nodes, large.nodes, node);
    var all := Everything(c, geo, calls);
    var w := NewWindow(c, After(c, geo, back).nextId, node, t);
    assert (all + [w])[..|all|] == all;
  }

  lemma ForgottenEntry(allowed: seq<nat>, small: nat, large: nat, node: nat)
    requires small <= node < large
    ensures Resized(Resized(allowed, small), large)[node] == 0
  {
  }

  /** The positions set in the course of a run. */
  function Relocations(calls: seq<Call>): seq<Geometry>
    decreases |calls|
  {
    if calls == [] then []
    else
      var before, call := Relocations(calls[..|calls| - 1]), calls[|calls| - 1];
      if call.Relocate? then before + [call.geo] else before
  }

  /** In every run with these relocations, the node's starts are a period apart. */
  ghost predicate AlwaysSpaced(c: Config, geo: Geometry, gs: seq<Geometry>, node: nat) {
    forall calls: seq<Call> | Relocations(calls) == gs && Ordered(calls) && InTime(calls) ::
      SpacedBy(Starts(Everything(c, geo, calls), node), Period(c))
  }

  /** The initial positions and every later ones cover the node. */
  predicate AlwaysCovered(geo: Geometry, gs: seq<Geometry>, node: nat) {
    node < geo.nodes && forall k | 0 <= k < |gs| :: node < gs[k].nodes
  }

  lemma {:induction false} CoveredByAll(calls: seq<Call>, node: nat)
    requires forall k | 0 <= k < |Relocations(calls)| :: node < Relocations(calls)[k].nodes
    ensures Covered(calls, node)
    decreases |calls|
  {
    if calls != [] {
      var n := |calls| - 1;
      var gs := Relocations(calls);
      if calls[n].Relocate? { assert node < gs[|gs| - 1].nodes; }
      forall k | 0 <= k < |Relocations(calls[..n])| ensures node < Relocations(calls[..n])[k].nodes {
        assert Relocations(calls[..n])[k] == gs[k];
      }
      CoveredByAll(calls[..n], node);
      assert calls == calls[..n] + [calls[n]];
    }
  }

  function Moves(gs: seq<Geometry>): seq<Call>
    decreases |gs|
  {
    if gs == [] then [] else Moves(gs[..|gs| - 1]) + [Relocate(gs[|gs| - 1])]
  }

  lemma Appended(calls: seq<Call>, call: Call)
    ensures Relocations(calls + [call])
        == if call.Relocate? then Relocations(calls) + [call.geo] else Relocations(calls)
    ensures InTime(calls + [call]) <==> InTime(calls) && (call.Begin? ==> call.now < MAX_TIME)
  {
    var more := calls + [call];
    assert more[..|calls|] == calls && more[|calls|] == call;
    assert forall k | 0 <= k < |calls| :: more[k] == calls[k];
  }

  /** What a run that only sets positions leaves as it was. */
  predicate Moved(c: Config, geo: Geometry, calls: seq<Call>, moved: seq<Call>) {
    && Everything(c, geo, moved) == Everything(c, geo, calls)
    && Latest(moved) == Latest(calls)
    && Ordered(moved) == Ordered(calls) && InTime(moved) == InTime(calls)
  }

  lemma OneMove(c: Config, geo: Geometry, calls: seq<Call>, g: Geometry)
    ensures Moved(c, geo, calls, calls + [Relocate(g)])
    ensures Relocations(calls + [Relocate(g)]) == Relocations(calls) + [g]
    ensures |After(c, geo, calls + [Relocate(g)]).nextAllowed| == g.nodes
  {
    Extend(c, geo, calls, Relocate(g));
    Appended(calls, Relocate(g));
    hide After, Everything, Latest, Ordered, InTime, Relocations;
  }

  /** Relocations alone put nothing on air. */
  lemma {:induction false} MovesAre(c: Config, geo: Geometry, calls: seq<Call>, gs: seq<Geometry>)
    ensures Moved(c, geo, calls, calls + Moves(gs))
    ensures Relocations(calls + Moves(gs)) == Relocations(calls) + gs
    ensures |After(c, geo, calls + Moves(gs)).nextAllowed|
         == if gs == [] then |After(c, geo, calls).nextAllowed| else gs[|gs| - 1].nodes
    decreases |gs|
  {
    hide After, Everything, Latest, Ordered, InTime, Relocations;
    if gs == [] {
      assert calls + Moves(gs) == calls;
    } else {
      var n := |gs| - 1;
      var before := calls + Moves(gs[..n]);
      assert calls + Moves(gs) == before + [Relocate(gs[n])];
      MovesAre(c, geo, calls, gs[..n]);
      OneMove(c, geo, before, gs[n]);
      assert gs == gs[..n] + [gs[n]];
    }
  }

  lemma NothingYet(c: Config, geo: Geometry)
    ensures Everything(c, geo, []) == [] && Latest([]) == 0
    ensures Ordered([]) && InTime([]) && Relocations([]) == []
    ensures |After(c, geo, []).nextAllowed| == geo.nodes
  {
  }

  /** A start at the very beginning by a node the table does not cover. */
  lemma FreeStart(c: Config, geo: Geometry, calls: seq<Call>, node: nat)
    requires |After(c, geo, calls).nextAllowed| <= node
    requires Ordered(calls) && InTime(calls) && Latest(calls) == 0
    ensures var more := calls + [Begin(node, 0)];
            && Starts(Everything(c, geo, more), node) == Starts(Everything(c, geo, calls), node) + [0]
            && After(c, geo, more).nextAllowed == After(c, geo, calls).nextAllowed
            && Ordered(more) && InTime(more) && Latest(more) == 0 && Relocations(more) == Relocations(calls)
  {
    UncoveredIsFree(c, geo, calls, node, 0);
    Extend(c, geo, calls, Begin(node, 0));
    Appended(calls, Begin(node, 0));
    hide After, Everything, Latest, Ordered, InTime, Relocations, Starts;
  }

  /** The run that sets the first `k` positions, starts the node twice and sets the others. */
  function Twice(gs: seq<Geometry>, k: nat, node: nat): seq<Call>
    requires k <= |gs|
  {
    Moves(gs[..k]) + [Begin(node, 0)] + [Begin(node, 0)] + Moves(gs[k..])
  }

  /** With the node off the medium by the first `k` positions it starts twice at once. */
  lemma TwiceAtOnce(c: Config, geo: Geometry, gs: seq<Geometry>, k: nat, node: nat)
    requires k <= |gs| && node >= (if k == 0 then geo else gs[k - 1]).nodes
    ensures var calls := Twice(gs, k, node);
            && Relocations(calls) == gs && Ordered(calls) && InTime(calls)
            && Starts(Everything(c, geo, calls), node) == [0, 0]
  {
    hide After, Everything, Latest, Ordered, InTime, Relocations;
    NothingYet(c, geo);
    MovesAre(c, geo, [], gs[..k]);
    assert [] + Moves(gs[..k]) == Moves(gs[..k]);
    FreeStart(c, geo, Moves(gs[..k]), node);
    FreeStart(c, geo, Moves(gs[..k]) + [Begin(node, 0)], node);
    MovesAre(c, geo, Moves(gs[..k]) + [Begin(node, 0)] + [Begin(node, 0)], gs[k..]);
    assert [] + gs[..k] + gs[k..] == gs;
  }

  /** The off-time holds in every run with these relocations exactly when the initial positions and
      every later ones cover the node. */
  lemma SpacedExactlyWhenCovered(c: Config, geo: Geometry, gs: seq<Geometry>, node: nat)
    requires c.dutyEnforced && Period(c) > 0
    ensures AlwaysSpaced(c, geo, gs, node) <==> AlwaysCovered(geo, gs, node)
  {
    hide After, Everything, Latest, Ordered, InTime, Relocations, Starts, Moves;
    if AlwaysCovered(geo, gs, node) {
      forall calls: seq<Call> | Relocations(calls) == gs && Ordered(calls) && InTime(calls)
        ensures SpacedBy(Starts(Everything(c, geo, calls), node), Period(c))
      {
        CoveredByAll(calls, node);
        StartsAreSpaced(c, geo, calls, node);
      }
    } else {
      var k := 0;
      if node < geo.nodes {
        var j :| 0 <= j < |gs| && node >= gs[j].nodes;
        k := j + 1;
      }
      TwiceAtOnce(c, geo, gs, k, node);
      var twice := Starts(Everything(c, geo, Twice(gs, k, node)), node);
      assert twice[0] + Period(c) > twice[1];
    }
  }
}
