/**
 A single-radio chain under slotted carrier sense: links that share a node, disturb each other's
 receiver or hear each other's transmitter cannot run together.
 */
module Chain {
  import opened Pigeonhole
  import opened Relay
  import opened Sums

  const SLOTS: nat := 20000

  function Abs(x: int): nat {
    if x < 0 then -x else x
  }

  predicate Conflict(csRange: int, halfDuplex: bool, a: Tx, c: Tx) {
    || (halfDuplex && (a.t == c.t || a.t == c.r || a.r == c.t || a.r == c.r))
    || Abs(a.t - c.r) <= csRange || Abs(c.t - a.r) <= csRange
    || Abs(a.t - c.t) <= csRange
  }

  function Admits(csRange: int, halfDuplex: bool): (seq<Tx>, Tx) -> bool {
    (active: seq<Tx>, c: Tx) => !exists a | a in active :: Conflict(csRange, halfDuplex, a, c)
  }

  function ChainLine(hops: nat, csRange: int, halfDuplex: bool, roundTrip: bool): Line {
    Line(hops, roundTrip, Admits(csRange, halfDuplex))
  }

  /** How many of the nodes ever transmit. */
  function Senders(u: Line): nat {
    if u.roundTrip then u.hops + 1 else u.hops
  }

  // ---- How many links fit in a slot -------------------------------------------------------

  predicate NoConflicts(csRange: int, halfDuplex: bool, list: seq<Tx>) {
    forall i, j | 0 <= i < j < |list| :: !Conflict(csRange, halfDuplex, list[i], list[j])
  }

  lemma {:induction false} GreedyKeepsApart(u: Line, csRange: int, halfDuplex: bool, c: seq<Tx>)
    requires u.admits == Admits(csRange, halfDuplex)
    ensures NoConflicts(csRange, halfDuplex, Greedy(u, c))
    decreases |c|
  {
    if c != [] {
      GreedyKeepsApart(u, csRange, halfDuplex, c[..|c| - 1]);
    }
  }

  /** A candidate is left out only for a link that runs. */
  lemma {:induction false} GreedyIsMaximal(u: Line, csRange: int, halfDuplex: bool, c: seq<Tx>, x: Tx)
    requires u.admits == Admits(csRange, halfDuplex) && x in c
    ensures x in Greedy(u, c) || exists a | a in Greedy(u, c) :: Conflict(csRange, halfDuplex, a, x)
    decreases |c|
  {
    var rest, last := c[..|c| - 1], c[|c| - 1];
    assert c == rest + [last];
    if x != last {
      GreedyIsMaximal(u, csRange, halfDuplex, rest, x);
    }
  }

  /** The two links can run together: no sender within the carrier-sense range of the other or of its
      receiver, and under half-duplex no node in both. */
  predicate Together(csRange: int, halfDuplex: bool, a: Tx, c: Tx) {
    && (c.t > a.t + csRange || a.t > c.t + csRange)
    && (c.r > a.t + csRange || a.t > c.r + csRange)
    && (a.r > c.t + csRange || c.t > a.r + csRange)
    && (halfDuplex ==> {a.t, a.r} !! {c.t, c.r})
  }

  lemma TogetherIs(csRange: int, halfDuplex: bool, a: Tx, c: Tx)
    requires csRange >= 0
    ensures Together(csRange, halfDuplex, a, c) <==> !Conflict(csRange, halfDuplex, a, c)
  {
  }

  /** A candidate runs exactly when it can run together with every running link before it in the
      slot's order. */
  lemma RunsExactlyWhen(u: Line, csRange: nat, halfDuplex: bool, s: State, k: nat)
    requires u.admits == Admits(csRange, halfDuplex) && Shaped(u, s) && k < |Order(u, s)|
    ensures var order := Order(u, s);
            order[k] in Active(u, s)
            <==> forall j | 0 <= j < k && order[j] in Active(u, s) :: Together(csRange, halfDuplex, order[j], order[k])
  {
    var order := Order(u, s);
    OrderAre(u, s);
    PickedExactly(u, order, k);
    GreedyPrefix(u, order, k);
    forall a ensures Together(csRange, halfDuplex, a, order[k]) <==> !Conflict(csRange, halfDuplex, a, order[k]) {
      TogetherIs(csRange, halfDuplex, a, order[k]);
    }
    hide Together, Conflict, Order, Active, Greedy;
    var before := Greedy(u, order[..k]);
    assert forall j | 0 <= j < k :: order[j] in order[..k];
    assert u.admits(before, order[k]) <==> forall a | a in before :: Together(csRange, halfDuplex, a, order[k]);
  }

  /** Whatever runs together can. */
  lemma RunningAreTogether(u: Line, csRange: nat, halfDuplex: bool, s: State, a: Tx, c: Tx)
    requires u.admits == Admits(csRange, halfDuplex) && Shaped(u, s)
    requires a in Active(u, s) && c in Active(u, s) && a != c
    ensures Together(csRange, halfDuplex, a, c)
  {
    var order := Order(u, s);
    OrderAre(u, s);
    GreedyAre(u, order);
    var i: nat :| i < |order| && order[i] == a;
    var j: nat :| j < |order| && order[j] == c;
    if i < j {
      RunsExactlyWhen(u, csRange, halfDuplex, s, j);
    } else {
      RunsExactlyWhen(u, csRange, halfDuplex, s, i);
    }
  }

  lemma ActiveBound(u: Line, csRange: nat, halfDuplex: bool, s: State)
    requires u.admits == Admits(csRange, halfDuplex) && Valid(u, s)
    ensures |Active(u, s)| <= (Senders(u) + csRange) / (csRange + 1)
  {
    ActiveRuns(u, s);
    var active := Active(u, s);
    if Candidates(u, s) != [] {
      GreedyKeepsApart(u, csRange, halfDuplex, Rotated(Candidates(u, s), Turn(u, s)));
    }
    var senders: seq<nat> := seq(|active|, i requires 0 <= i < |active| => active[i].t);
    forall i: nat | i < |active| ensures senders[i] < Senders(u) {
      assert active[i] in active;
    }
    forall i, j | 0 <= i < j < |senders|
      ensures senders[i] + (csRange + 1) <= senders[j] || senders[j] + (csRange + 1) <= senders[i]
    {
      assert !Conflict(csRange, halfDuplex, active[i], active[j]);
    }
    SpacedBelow(senders, Senders(u), csRange + 1);
  }

  lemma ReuseBound(u: Line, csRange: nat, halfDuplex: bool)
    requires u.admits == Admits(csRange, halfDuplex)
    ensures RunsAtMost(u, (Senders(u) + csRange) / (csRange + 1))
  {
    var reuse := (Senders(u) + csRange) / (csRange + 1);
    forall s ensures BusyAtMost(u, s, reuse) {
      if Valid(u, s) { ActiveBound(u, csRange, halfDuplex, s); }
    }
  }

  lemma AloneRuns(u: Line, csRange: nat, halfDuplex: bool)
    requires u.admits == Admits(csRange, halfDuplex)
    ensures FirstRuns(u)
  {
  }

  /** Transmitters that run together are more than the carrier-sense range apart, and while there
      are hops something runs in every slot; so the channel time of the delivered objects is at
      most the slots times the spatial reuse, and falls short of the slots by no more than the
      objects in flight. */
  lemma ChainCapacity(hops: nat, csRange: nat, halfDuplex: bool, roundTrip: bool, slots: nat)
    requires hops > 0
    ensures var u := ChainLine(hops, csRange, halfDuplex, roundTrip);
            var reuse := (Senders(u) + csRange) / (csRange + 1);
            slots - (u.Trip() - 1) * 64 <= u.Trip() * Run(u, Start(u), slots).done <= slots * reuse
  {
    hide Run, Start, FirstRuns, RunsAtMost;
    var u := ChainLine(hops, csRange, halfDuplex, roundTrip);
    AloneRuns(u, csRange, halfDuplex);
    ReuseBound(u, csRange, halfDuplex);
    Capacity(u, slots, (Senders(u) + csRange) / (csRange + 1));
  }

  /** When the whole chain is within carrier-sense range exactly one link runs in every slot. */
  lemma OneLinkPerSlot(hops: nat, csRange: nat, halfDuplex: bool, roundTrip: bool, s: State)
    requires 1 <= hops <= csRange
    requires Valid(ChainLine(hops, csRange, halfDuplex, roundTrip), s)
    ensures Ran(ChainLine(hops, csRange, halfDuplex, roundTrip), s) == 1
  {
    var u := ChainLine(hops, csRange, halfDuplex, roundTrip);
    ActiveBound(u, csRange, halfDuplex, Refilled(u, s));
    DivIsOne(Senders(u) + csRange, csRange + 1);
    RanSome(u, s);
  }

  lemma DivIsOne(x: nat, d: nat)
    requires 0 < d && x < 2 * d
    ensures x / d <= 1
  {
  }

  /** The textbook collapse: a chain within carrier-sense range delivers one object per `2 * hops`
      slots with round trips, one per `hops` without, less at most a window in flight. */
  lemma Collapse(hops: nat, csRange: nat, halfDuplex: bool, roundTrip: bool, slots: nat)
    requires 1 <= hops <= csRange
    ensures var trip := if roundTrip then 2 * hops else hops;
            var u := ChainLine(hops, csRange, halfDuplex, roundTrip);
            slots - (trip - 1) * 64 <= trip * Run(u, Start(u), slots).done <= slots
  {
    hide Run, Start, FirstRuns, RunsAtMost;
    var u := ChainLine(hops, csRange, halfDuplex, roundTrip);
    AloneRuns(u, csRange, halfDuplex);
    ReuseBound(u, csRange, halfDuplex);
    DivIsOne(Senders(u) + csRange, csRange + 1);
    AtMostOne(u, (Senders(u) + csRange) / (csRange + 1));
    Capacity(u, slots, 1);
  }

  lemma AtMostOne(u: Line, reuse: nat)
    requires RunsAtMost(u, reuse) && reuse <= 1
    ensures RunsAtMost(u, 1)
  {
    forall s ensures BusyAtMost(u, s, 1) {
      assert BusyAtMost(u, s, reuse);
    }
  }

  // ---- The simulation ---------------------------------------------------------------------

  /** Activate each candidate that no active link disturbs. */
  method Schedule(u: Line, csRange: int, halfDuplex: bool, cands: seq<Tx>) returns (active: seq<Tx>)
    requires u.admits == Admits(csRange, halfDuplex)
    ensures active == Greedy(u, cands)
  {
    active := [];
    for k := 0 to |cands|
      invariant active == Greedy(u, cands[..k])
    {
      var c := cands[k];
      assert cands[..k + 1][..k] == cands[..k];
      var conflict := exists a | a in active :: Conflict(csRange, halfDuplex, a, c);
      if !conflict {
        active := active + [c];
      }
    }
    assert cands[..|cands|] == cands;
  }

  method PlaySlot(flow: Flow, csRange: int, halfDuplex: bool)
    requires flow.u.admits == Admits(csRange, halfDuplex) && Valid(flow.u, flow.Now())
    modifies flow
    ensures flow.Now() == Slot(flow.u, old(flow.Now()))
  {
    hide Sum, Refilled, Forwards, Backwards, MoveAll, Rotated;
    flow.Refill();
    var cands := flow.Collect();
    if cands == [] {
      return;
    }
    ActiveRuns(flow.u, flow.Now());
    var rr := (flow.rr + 1) % |cands|;
    var active := Schedule(flow.u, csRange, halfDuplex, Rotated(cands, rr));
    flow.Execute(active);
    flow.rr := rr;
  }

  method PlaySlots(u: Line, csRange: int, halfDuplex: bool, slots: nat) returns (done: nat)
    requires u.admits == Admits(csRange, halfDuplex)
    ensures done == Run(u, Start(u), slots).done
  {
    hide Slot, Run, Valid;
    var flow := new Flow(u);
    ghost var left := slots;
    for slot := 0 to slots
      invariant flow.u == u && left == slots - slot && Valid(u, flow.Now())
      invariant Run(u, flow.Now(), left) == Run(u, Start(u), slots)
    {
      RunStep(u, flow.Now(), left);
      PlaySlot(flow, csRange, halfDuplex);
      left := left - 1;
    }
    RunStep(u, flow.Now(), left);
    done := flow.done;
  }

  /** Delivered objects per slot of the saturated flow. */
  method ChainTput(hops: nat, csRange: int, halfDuplex: bool, roundTrip: bool) returns (tput: real)
    ensures var u := ChainLine(hops, csRange, halfDuplex, roundTrip);
            tput == Run(u, Start(u), 20000).done as real / 20000.0
  {
    var done := PlaySlots(ChainLine(hops, csRange, halfDuplex, roundTrip), csRange, halfDuplex, SLOTS);
    tput := done as real / SLOTS as real;
  }
}
