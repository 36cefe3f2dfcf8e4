/**
 Several radios per node and several channels: the chain again, with half-duplex per radio and
 interference per channel, and single-hop pipes that share one region.
 */
module Mrmc {
  import opened Chain
  import opened Pigeonhole
  import opened Relay
  import opened Sums

  /** Coupling above which two transmissions collide. */
  const THRESH: real := 0.1

  type Coupling = (nat, nat) -> real

  /** Perfectly orthogonal channels. */
  function Orthogonal(): Coupling {
    (a: nat, b: nat) => if a == b then 1.0 else 0.0
  }

  /** Neighbouring channels leak at a fifth, the next ones at its square. */
  function AdjacentLeak(): Coupling {
    (a: nat, b: nat) =>
      if a == b then 1.0 else if Chain.Abs(a - b) == 1 then 0.2 else if Chain.Abs(a - b) == 2 then 0.04 else 0.0
  }

  predicate Couples(coupling: Coupling, a: nat, b: nat) {
    coupling(a, b) > THRESH
  }

  /** Pipe or hop `i`'s channel, as a byte. */
  function ChannelOf(i: nat, channels: nat): nat {
    if channels == 0 then 0 else i % channels % 256
  }

  // ---- The chain ------------------------------------------------------------------------------

  datatype Radios = Radios(channels: nat, radios: nat, csRange: int, coupling: Coupling)

  /** The hop a link belongs to, in either direction. */
  function Hop(a: Tx): nat {
    if a.t < a.r then a.t else a.r
  }

  function Channel(m: Radios, a: Tx): nat {
    ChannelOf(Hop(a), m.channels)
  }

  predicate Disturbs(m: Radios, a: Tx, c: Tx) {
    && Couples(m.coupling, Channel(m, a), Channel(m, c))
    && (Abs(a.t - c.r) <= m.csRange || Abs(c.t - a.r) <= m.csRange || Abs(a.t - c.t) <= m.csRange)
  }

  function Touches(a: Tx, x: nat): nat {
    if a.t == x || a.r == x then 1 else 0
  }

  /** How many of `x`'s radios are busy. */
  function RadioUse(active: seq<Tx>, x: nat): nat
    decreases |active|
  {
    if active == [] then 0
    else RadioUse(active[..|active| - 1], x) + Touches(active[|active| - 1], x)
  }

  predicate FreeRadios(m: Radios, active: seq<Tx>, c: Tx) {
    RadioUse(active, c.t) < m.radios && RadioUse(active, c.r) < m.radios
  }

  function Admits(m: Radios): (seq<Tx>, Tx) -> bool {
    (active: seq<Tx>, c: Tx) =>
      FreeRadios(m, active, c) && !exists a | a in active :: Disturbs(m, a, c)
  }

  function MrmcLine(hops: nat, m: Radios): Line {
    Line(hops, true, Admits(m))
  }

  // ---- The radio budget -------------------------------------------------------------------------

  function BusyRadios(active: seq<Tx>, n: nat): nat
    decreases n
  {
    if n == 0 then 0 else BusyRadios(active, n - 1) + RadioUse(active, n - 1)
  }

  lemma {:induction false} NoneBusy(n: nat)
    ensures BusyRadios([], n) == 0
    decreases n
  {
    if n > 0 { NoneBusy(n - 1); }
  }

  lemma {:induction false} BusyGrows(active: seq<Tx>, c: Tx, n: nat)
    requires c.t != c.r
    ensures BusyRadios(active + [c], n)
         == BusyRadios(active, n) + (if c.t < n then 1 else 0) + (if c.r < n then 1 else 0)
    decreases n
  {
    if n > 0 {
      BusyGrows(active, c, n - 1);
      assert (active + [c])[..|active|] == active;
    }
  }

  ghost predicate Budgeted(u: Line, m: Radios, active: seq<Tx>) {
    && BusyRadios(active, u.hops + 1) == 2 * |active|
    && forall x :: RadioUse(active, x) <= m.radios
  }

  lemma {:induction false} GreedyIsBudgeted(u: Line, m: Radios, c: seq<Tx>)
    requires u.admits == Admits(m) && forall a | a in c :: IsLink(u, a)
    ensures Budgeted(u, m, Greedy(u, c))
    decreases |c|
  {
    if c == [] {
      NoneBusy(u.hops + 1);
    } else {
      var rest, last := c[..|c| - 1], c[|c| - 1];
      var before := Greedy(u, rest);
      assert last in c;
      GreedyIsBudgeted(u, m, rest);
      BusyGrows(before, last, u.hops + 1);
      assert (before + [last])[..|before|] == before;
    }
  }

  lemma {:induction false} BusyAtMostAll(m: Radios, active: seq<Tx>, n: nat)
    requires forall x :: RadioUse(active, x) <= m.radios
    ensures BusyRadios(active, n) <= n * m.radios
    decreases n
  {
    if n > 0 {
      BusyAtMostAll(m, active, n - 1);
      OneMore(RadioUse(active, n - 1), BusyRadios(active, n - 1), n - 1, m.radios);
    }
  }

  lemma RadioBound(u: Line, m: Radios, s: State)
    requires u.admits == Admits(m) && Valid(u, s)
    ensures |Active(u, s)| <= (u.hops + 1) * m.radios / 2
  {
    var c := Candidates(u, s);
    if c != [] {
      var d := Rotated(c, Turn(u, s));
      CandidatesAre(u, s);
      RotatedAre(c, Turn(u, s));
      GreedyIsBudgeted(u, m, d);
      BusyAtMostAll(m, Greedy(u, d), u.hops + 1);
    }
  }

  // ---- The channels -------------------------------------------------------------------------------

  predicate NoneDisturbed(m: Radios, list: seq<Tx>) {
    forall i, j | 0 <= i < j < |list| :: !Disturbs(m, list[i], list[j])
  }

  lemma {:induction false} GreedyDisturbsNone(u: Line, m: Radios, c: seq<Tx>)
    requires u.admits == Admits(m)
    ensures NoneDisturbed(m, Greedy(u, c))
    decreases |c|
  {
    if c != [] { GreedyDisturbsNone(u, m, c[..|c| - 1]); }
  }

  lemma CodeDistinct(c: nat, d: nat, x: nat, y: nat, blocks: nat)
    requires x < blocks && y < blocks && (c != d || x != y)
    ensures Pair(c, x, blocks) != Pair(d, y, blocks)
  {
    if c < d { assert d * blocks >= (c + 1) * blocks; }
    if d < c { assert c * blocks >= (d + 1) * blocks; }
  }

  lemma CodeBelow(c: nat, channels: nat, x: nat, blocks: nat)
    requires c < channels && x < blocks
    ensures Pair(c, x, blocks) < channels * blocks
  {
    assert channels * blocks >= (c + 1) * blocks;
  }

  /** The senders of one channel that can run together, at most. */
  function Reuse(u: Line, m: Radios): nat
    requires m.csRange >= 0
  {
    (u.hops + 1 + m.csRange) / (m.csRange + 1)
  }

  function Block(m: Radios, a: Tx): nat
    requires m.csRange >= 0
  {
    a.t / (m.csRange + 1)
  }

  /** One number for a channel and a block of nodes. */
  function Pair(c: nat, x: nat, blocks: nat): nat {
    c * blocks + x
  }

  function Code(u: Line, m: Radios, a: Tx): nat
    requires m.csRange >= 0
  {
    Pair(Channel(m, a), Block(m, a), Reuse(u, m))
  }

  lemma CodeInRange(u: Line, m: Radios, a: Tx)
    requires m.channels > 0 && m.csRange >= 0 && IsLink(u, a)
    ensures Block(m, a) < Reuse(u, m)
    ensures Code(u, m, a) < m.channels * Reuse(u, m)
  {
    BlockBelow(a.t, u.hops + 1, m.csRange + 1);
    CodeBelow(Channel(m, a), m.channels, Block(m, a), Reuse(u, m));
  }

  lemma SendersApart(m: Radios, a: Tx, c: Tx)
    requires m.csRange >= 0 && Couples(m.coupling, Channel(m, a), Channel(m, a)) && !Disturbs(m, a, c)
    ensures Channel(m, a) != Channel(m, c) || Block(m, a) != Block(m, c)
  {
    if Block(m, a) == Block(m, c) {
      SameBlock(a.t, c.t, m.csRange + 1);
      SameBlock(c.t, a.t, m.csRange + 1);
    }
  }

  lemma CodesDiffer(u: Line, m: Radios, a: Tx, c: Tx)
    requires m.channels > 0 && m.csRange >= 0 && IsLink(u, a) && IsLink(u, c)
    requires Couples(m.coupling, Channel(m, a), Channel(m, a)) && !Disturbs(m, a, c)
    ensures Code(u, m, a) != Code(u, m, c)
  {
    CodeInRange(u, m, a);
    CodeInRange(u, m, c);
    SendersApart(m, a, c);
    CodeDistinct(Channel(m, a), Channel(m, c), Block(m, a), Block(m, c), Reuse(u, m));
  }

  /** On each channel the senders are more than the carrier-sense range apart. */
  lemma SpacedPerChannel(u: Line, m: Radios, active: seq<Tx>)
    requires m.channels > 0 && m.csRange >= 0 && (forall c: nat :: Couples(m.coupling, c, c))
    requires NoneDisturbed(m, active) && forall a | a in active :: IsLink(u, a)
    ensures |active| <= m.channels * Reuse(u, m)
  {
    var codes: seq<nat> := seq(|active|, i requires 0 <= i < |active| => Code(u, m, active[i]));
    forall i: nat | i < |active| ensures codes[i] < m.channels * Reuse(u, m) {
      assert active[i] in active;
      CodeInRange(u, m, active[i]);
    }
    forall i, j | 0 <= i < j < |active| ensures codes[i] != codes[j] {
      assert active[i] in active && active[j] in active;
      CodesDiffer(u, m, active[i], active[j]);
    }
    DistinctBelow(codes, m.channels * Reuse(u, m));
  }

  lemma ChannelBound(u: Line, m: Radios, s: State)
    requires u.admits == Admits(m) && Valid(u, s)
    requires m.channels > 0 && m.csRange >= 0 && (forall c: nat :: Couples(m.coupling, c, c))
    ensures |Active(u, s)| <= m.channels * Reuse(u, m)
  {
    ActiveRuns(u, s);
    var c := Candidates(u, s);
    if c != [] { GreedyDisturbsNone(u, m, Rotated(c, Turn(u, s))); }
    SpacedPerChannel(u, m, Active(u, s));
  }

  /** A link that runs alone is admitted. */
  lemma FirstAdmitted(hops: nat, m: Radios)
    requires m.radios > 0
    ensures FirstRuns(MrmcLine(hops, m))
  {
  }

  /** Each running link keeps two of the radios busy, so the radios of all nodes bound the
      capacity. */
  lemma RadioCapacity(hops: nat, m: Radios, slots: nat)
    requires hops > 0 && m.radios > 0
    ensures var done := Run(MrmcLine(hops, m), Start(MrmcLine(hops, m)), slots).done;
            slots - (2 * hops - 1) * 64 <= 2 * hops * done <= slots * ((hops + 1) * m.radios / 2)
  {
    var u := MrmcLine(hops, m);
    var most := (hops + 1) * m.radios / 2;
    FirstAdmitted(hops, m);
    forall s ensures BusyAtMost(u, s, most) {
      if Valid(u, s) { RadioBound(u, m, s); }
    }
    Capacity(u, slots, most);
  }

  /** Channels bound it too: each carries no more than one channel's spatial reuse. */
  lemma ChannelCapacity(hops: nat, m: Radios, slots: nat)
    requires hops > 0 && m.radios > 0 && m.channels > 0 && m.csRange >= 0
    requires forall c: nat :: Couples(m.coupling, c, c)
    ensures 2 * hops * Run(MrmcLine(hops, m), Start(MrmcLine(hops, m)), slots).done
         <= slots * (m.channels * Reuse(MrmcLine(hops, m), m))
  {
    var u := MrmcLine(hops, m);
    var most := m.channels * Reuse(u, m);
    FirstAdmitted(hops, m);
    forall s ensures BusyAtMost(u, s, most) {
      if Valid(u, s) { ChannelBound(u, m, s); }
    }
    Capacity(u, slots, most);
  }

  // ---- Who runs, said of the links themselves -----------------------------------------------------

  /** The link joins nodes `i` and `i + 1`, in either direction. */
  predicate OnHop(a: Tx, i: nat) {
    a == Tx(i, i + 1) || a == Tx(i + 1, i)
  }

  /** No sender is within the carrier-sense range of the other or of its receiver. */
  predicate OutOfRange(csRange: int, a: Tx, c: Tx) {
    && (c.t > a.t + csRange || a.t > c.t + csRange)
    && (c.r > a.t + csRange || a.t > c.r + csRange)
    && (a.r > c.t + csRange || c.t > a.r + csRange)
  }

  /** Hop `i` is on channel `i` modulo the channels, as a byte. The two hops' channels couple above a
      tenth. */
  predicate HopsCouple(m: Radios, i: nat, j: nat)
    requires m.channels > 0
  {
    m.coupling(i % m.channels % 256, j % m.channels % 256) > 0.1
  }

  lemma DisturbsIs(m: Radios, a: Tx, c: Tx, i: nat, j: nat)
    requires m.channels > 0 && m.csRange >= 0 && OnHop(a, i) && OnHop(c, j)
    ensures Disturbs(m, a, c) <==> HopsCouple(m, i, j) && !OutOfRange(m.csRange, a, c)
  {
  }

  /** Links that run in one slot on channels that couple are out of each other's range: a hop uses
      one channel both ways. */
  lemma RunningKeepApart(hops: nat, m: Radios, s: State, x: nat, y: nat, i: nat, j: nat)
    requires m.channels > 0 && m.csRange >= 0 && Shaped(MrmcLine(hops, m), s)
    requires var active := Active(MrmcLine(hops, m), s); x < y < |active| && OnHop(active[x], i) && OnHop(active[y], j)
    ensures var active := Active(MrmcLine(hops, m), s);
            HopsCouple(m, i, j) ==> OutOfRange(m.csRange, active[x], active[y])
  {
    var u := MrmcLine(hops, m);
    OrderAre(u, s);
    GreedyDisturbsNone(u, m, Order(u, s));
    var active := Active(u, s);
    DisturbsIs(m, active[x], active[y], i, j);
  }

  lemma UseGrows(active: seq<Tx>, c: Tx)
    ensures forall x :: RadioUse(active + [c], x) == RadioUse(active, x) + Touches(c, x)
  {
    assert (active + [c])[..|active|] == active;
  }

  lemma NothingBusy()
    ensures forall x: nat :: RadioUse([], x) == 0
  {
  }

  /** The running links that a node is an end of. */
  function Busy(active: seq<Tx>, x: nat): set<Tx> {
    set a | a in active && (a.t == x || a.r == x)
  }

  lemma {:induction false} RadioUseIs(active: seq<Tx>, x: nat)
    requires NoDup(active)
    ensures RadioUse(active, x) == |Busy(active, x)|
    decreases |active|
  {
    if active == [] {
      assert Busy(active, x) == {};
    } else {
      var rest, last := active[..|active| - 1], active[|active| - 1];
      RadioUseIs(rest, x);
      assert active == rest + [last];
      BusyOneMore(rest, last, x);
      UseGrows(rest, last);
      hide Busy, RadioUse, NoDup;
    }
  }

  lemma BusyOneMore(rest: seq<Tx>, last: Tx, x: nat)
    requires NoDup(rest + [last])
    ensures |Busy(rest + [last], x)| == |Busy(rest, x)| + Touches(last, x)
  {
    var active, before := rest + [last], Busy(rest, x);
    forall i | 0 <= i < |rest| ensures rest[i] != last {
      assert active[i] == rest[i] && active[|rest|] == last;
    }
    assert Busy(active, x) == if last.t == x || last.r == x then before + {last} else before;
    assert last !in before;
  }

  /** Both ends have a radio to spare. */
  predicate RadiosToSpare(m: Radios, active: seq<Tx>, c: Tx) {
    |Busy(active, c.t)| < m.radios && |Busy(active, c.r)| < m.radios
  }

  /** A candidate runs exactly when the links that run before it in the slot's order leave both its
      ends a radio, and none of them on a channel that couples with its own is in range. */
  lemma RunsExactlyWhen(hops: nat, m: Radios, s: State, k: nat, i: nat)
    requires m.channels > 0 && m.csRange >= 0 && Shaped(MrmcLine(hops, m), s)
    requires k < |Order(MrmcLine(hops, m), s)| && OnHop(Order(MrmcLine(hops, m), s)[k], i)
    ensures var u := MrmcLine(hops, m);
            var c, before := Order(u, s)[k], Greedy(u, Order(u, s)[..k]);
            && (forall a :: a in before <==> a in Active(u, s) && a in Order(u, s)[..k])
            && (c in Active(u, s) <==>
                  RadiosToSpare(m, before, c)
                  && forall a, j: nat | a in before && OnHop(a, j) && HopsCouple(m, j, i) ::
                       OutOfRange(m.csRange, a, c))
  {
    var u := MrmcLine(hops, m);
    var order := Order(u, s);
    var c, before := order[k], Greedy(u, order[..k]);
    OrderAre(u, s);
    PickedExactly(u, order, k);
    GreedyPrefix(u, order, k);
    GreedyAre(u, order[..k]);
    RadioUseIs(before, c.t);
    RadioUseIs(before, c.r);
    NoneDisturb(u, m, s, before, c, i);
    hide Order, Active, Greedy, Busy, RadioUse, Disturbs, OutOfRange, HopsCouple, OnHop;
  }

  lemma NoneDisturb(u: Line, m: Radios, s: State, before: seq<Tx>, c: Tx, i: nat)
    requires m.channels > 0 && m.csRange >= 0 && Shaped(u, s) && OnHop(c, i)
    requires forall a | a in before :: Queued(u, s, a)
    ensures (exists a | a in before :: Disturbs(m, a, c))
       <==> !forall a, j: nat | a in before && OnHop(a, j) && HopsCouple(m, j, i) :: OutOfRange(m.csRange, a, c)
  {
    hide HopsCouple, OutOfRange, Disturbs;
    if a :| a in before && Disturbs(m, a, c) {
      var j: nat := if a.t < a.r then a.t else a.r;
      assert OnHop(a, j);
      DisturbsIs(m, a, c, j, i);
    }
    if a, j: nat :| a in before && OnHop(a, j) && HopsCouple(m, j, i) && !OutOfRange(m.csRange, a, c) {
      DisturbsIs(m, a, c, j, i);
    }
  }

  // ---- One radio on one channel is the plain chain ------------------------------------------------

  ghost predicate SameShape(u: Line, v: Line) {
    u.hops == v.hops && u.roundTrip == v.roundTrip
  }

  lemma {:induction false} SharedEndpoint(active: seq<Tx>, x: nat)
    ensures RadioUse(active, x) == 0 <==> forall a | a in active :: a.t != x && a.r != x
    decreases |active|
  {
    if active != [] {
      var rest, last := active[..|active| - 1], active[|active| - 1];
      SharedEndpoint(rest, x);
      assert active == rest + [last];
      assert last in active;
    }
  }

  lemma AdmitsAlike(m: Radios, active: seq<Tx>, c: Tx)
    requires m.channels == 1 && m.radios == 1 && Couples(m.coupling, 0, 0)
    ensures Admits(m)(active, c) <==> Chain.Admits(m.csRange, true)(active, c)
  {
    SharedEndpoint(active, c.t);
    SharedEndpoint(active, c.r);
    if Admits(m)(active, c) {
      forall a | a in active ensures !Conflict(m.csRange, true, a, c) {
        assert !Disturbs(m, a, c);
      }
    } else if FreeRadios(m, active, c) {
      var a :| a in active && Disturbs(m, a, c);
      assert Conflict(m.csRange, true, a, c);
    }
  }

  lemma {:induction false} GreedyAlike(u: Line, v: Line, m: Radios, c: seq<Tx>)
    requires m.channels == 1 && m.radios == 1 && Couples(m.coupling, 0, 0)
    requires u.admits == Admits(m) && v.admits == Chain.Admits(m.csRange, true)
    ensures Greedy(u, c) == Greedy(v, c)
    decreases |c|
  {
    if c != [] {
      var rest := c[..|c| - 1];
      GreedyAlike(u, v, m, rest);
      AdmitsAlike(m, Greedy(u, rest), c[|c| - 1]);
    }
  }

  lemma {:induction false} MovesAlike(u: Line, v: Line, s: State, c: seq<Tx>)
    requires SameShape(u, v) && Valid(u, s) && Valid(v, s) && Runnable(u, s, c) && Runnable(v, s, c)
    ensures MoveAll(u, s, c) == MoveAll(v, s, c)
    decreases |c|
  {
    if c != [] {
      MoveFirst(u, s, c);
      MoveFirst(v, s, c);
      MovesAlike(u, v, Move(u, s, c[0]), c[1..]);
    }
  }

  lemma SlotsAlike(u: Line, v: Line, m: Radios, s: State)
    requires m.channels == 1 && m.radios == 1 && Couples(m.coupling, 0, 0)
    requires u.admits == Admits(m) && v.admits == Chain.Admits(m.csRange, true)
    requires SameShape(u, v) && Valid(u, s)
    ensures Valid(v, s) && Slot(u, s) == Slot(v, s)
  {
    var f := Refilled(u, s);
    var c := Candidates(u, f);
    if c != [] {
      GreedyAlike(u, v, m, Rotated(c, Turn(u, f)));
      ActiveRuns(u, f);
      ActiveRuns(v, f);
      MovesAlike(u, v, f, Active(u, f));
    }
  }

  lemma {:induction false} RunsAlike(u: Line, v: Line, m: Radios, s: State, k: nat)
    requires m.channels == 1 && m.radios == 1 && Couples(m.coupling, 0, 0)
    requires u.admits == Admits(m) && v.admits == Chain.Admits(m.csRange, true)
    requires SameShape(u, v) && Valid(u, s) && Valid(v, s)
    ensures Run(u, s, k) == Run(v, s, k)
    decreases k
  {
    hide Slot, Valid, Run;
    RunStep(u, s, k);
    RunStep(v, s, k);
    if k > 0 {
      SlotsAlike(u, v, m, s);
      RunsAlike(u, v, m, Slot(u, s), k - 1);
    }
  }

  /** With one radio and one channel the multi-radio chain is, slot by slot, the half-duplex
      single-radio chain. */
  lemma SingleRadioIsTheChain(hops: nat, m: Radios, slots: nat)
    requires m.channels == 1 && m.radios == 1 && Couples(m.coupling, 0, 0)
    ensures var u, v := MrmcLine(hops, m), ChainLine(hops, m.csRange, true, true);
            Run(u, Start(u), slots) == Run(v, Start(v), slots)
  {
    var u, v := MrmcLine(hops, m), ChainLine(hops, m.csRange, true, true);
    RunsAlike(u, v, m, Start(u), slots);
  }

  // ---- The simulation -----------------------------------------------------------------------------

  method Schedule(u: Line, m: Radios, cands: seq<Tx>) returns (active: seq<Tx>)
    requires u.admits == Admits(m) && forall a | a in cands :: IsLink(u, a)
    ensures active == Greedy(u, cands)
  {
    hide Couples, Disturbs;
    NothingBusy();
    hide RadioUse;
    active := [];
    var radioUse: seq<nat> := seq(u.hops + 1, _ => 0);
    for k := 0 to |cands|
      invariant active == Greedy(u, cands[..k])
      invariant |radioUse| == u.hops + 1
      invariant forall x | 0 <= x <= u.hops :: radioUse[x] == RadioUse(active, x)
    {
      var c := cands[k];
      assert c in cands;
      assert cands[..k + 1][..k] == cands[..k];
      if radioUse[c.t] < m.radios && radioUse[c.r] < m.radios {
        var conflict := exists a | a in active :: Disturbs(m, a, c);
        if !conflict {
          UseGrows(active, c);
          radioUse := radioUse[c.t := radioUse[c.t] + 1];
          radioUse := radioUse[c.r := radioUse[c.r] + 1];
          active := active + [c];
        }
      }
    }
    assert cands[..|cands|] == cands;
  }

  method PlaySlot(flow: Flow, m: Radios)
    requires flow.u.admits == Admits(m) && Valid(flow.u, flow.Now())
    modifies flow
    ensures flow.Now() == Slot(flow.u, old(flow.Now()))
  {
    hide Sum, Refilled, Forwards, Backwards, MoveAll, Rotated;
    flow.Refill();
    var cands := flow.Collect();
    if cands == [] {
      return;
    }
    var rr := (flow.rr + 1) % |cands|;
    CandidatesAre(flow.u, flow.Now());
    RotatedAre(cands, rr);
    ActiveRuns(flow.u, flow.Now());
    var active := Schedule(flow.u, m, Rotated(cands, rr));
    flow.Execute(active);
    flow.rr := rr;
  }

  method PlaySlots(u: Line, m: Radios, slots: nat) returns (done: nat)
    requires u.admits == Admits(m)
    ensures done == Run(u, Start(u), slots).done
  {
    hide Slot, Run, Valid;
    var flow := new Flow(u);
    ghost var left := slots;
    for slot := 0 to slots
      invariant flow.u == u && left == slots - slot && Valid(u, flow.Now())
      invariant Run(u, flow.Now(), left) == Run(u, Start(u), slots)
    {
      RunStep(u, flow.Now(), left);
      PlaySlot(flow, m);
      left := left - 1;
    }
    RunStep(u, flow.Now(), left);
    done := flow.done;
  }

  /** Delivered objects per slot of the saturated flow. */
  method ChainMrmc(hops: nat, m: Radios) returns (tput: real)
    requires m.channels > 0
    ensures tput == Run(MrmcLine(hops, m), Start(MrmcLine(hops, m)), 20000).done as real / 20000.0
  {
    var done := PlaySlots(MrmcLine(hops, m), m, SLOTS);
    tput := done as real / SLOTS as real;
  }
}
