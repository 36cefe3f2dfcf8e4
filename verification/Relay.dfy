/**
 A saturated flow through a chain of relays, one slot at a time. Requests wait in `fwd` on their
 way from node 0 to node `hops`, answers in `rev` on their way back. Each slot a greedy scheduler
 picks links in a rotated order, and every picked link moves one packet one hop. What the
 scheduler lets run together is a parameter.
 */
module Relay {
  import opened Basics
  import opened Sums

  const WINDOW: nat := 64

  /** A pending transmission from node `t` to node `r`. */
  datatype Tx = Tx(t: nat, r: nat)

  datatype Line = Line(hops: nat, roundTrip: bool, admits: (seq<Tx>, Tx) -> bool) {
    /** How many hops one object needs. */
    function Trip(): nat {
      if roundTrip then 2 * hops else hops
    }
  }

  datatype State = State(fwd: seq<nat>, rev: seq<nat>, outstanding: nat, done: nat, rr: nat)

  predicate Shaped(u: Line, s: State) {
    |s.fwd| == |s.rev| == u.hops + 1
  }

  /** Nothing waits where it would already have been turned round or delivered, and every
      outstanding request is in some queue. */
  predicate Valid(u: Line, s: State) {
    && Shaped(u, s)
    && s.outstanding == Sum(s.fwd) + Sum(s.rev) <= WINDOW
    && s.rev[0] == 0
    && (u.hops > 0 ==> s.fwd[u.hops] == 0)
    && (!u.roundTrip || u.hops == 0 ==> Sum(s.rev) == 0)
  }

  // ---- Candidates -----------------------------------------------------------------------

  function Forwards(fwd: seq<nat>, k: nat): seq<Tx>
    requires k <= |fwd|
    decreases k
  {
    if k == 0 then []
    else Forwards(fwd, k - 1) + if fwd[k - 1] > 0 then [Tx(k - 1, k)] else []
  }

  function Backwards(rev: seq<nat>, k: nat): seq<Tx>
    requires k < |rev|
    decreases k
  {
    if k == 0 then []
    else Backwards(rev, k - 1) + if rev[k] > 0 then [Tx(k, k - 1)] else []
  }

  function Candidates(u: Line, s: State): seq<Tx>
    requires Shaped(u, s)
  {
    Forwards(s.fwd, u.hops) + if u.roundTrip then Backwards(s.rev, u.hops) else []
  }

  function Rotated(c: seq<Tx>, r: nat): seq<Tx>
    requires r <= |c|
  {
    c[r..] + c[..r]
  }

  function Greedy(u: Line, c: seq<Tx>): seq<Tx>
    decreases |c|
  {
    if c == [] then []
    else
      var before, last := Greedy(u, c[..|c| - 1]), c[|c| - 1];
      if u.admits(before, last) then before + [last] else before
  }

  function Turn(u: Line, s: State): nat
    requires Shaped(u, s) && Candidates(u, s) != []
  {
    (s.rr + 1) % |Candidates(u, s)|
  }

  /** The links that run in this slot. */
  function Active(u: Line, s: State): seq<Tx>
    requires Shaped(u, s)
  {
    var c := Candidates(u, s);
    if c == [] then [] else Greedy(u, Rotated(c, Turn(u, s)))
  }

  // ---- Moving packets ---------------------------------------------------------------------

  predicate IsLink(u: Line, a: Tx) {
    || (a.t < u.hops && a.r == a.t + 1)
    || (u.roundTrip && 0 < a.t <= u.hops && a.r == a.t - 1)
  }

  /** The link has a packet to move. */
  predicate Queued(u: Line, s: State, a: Tx)
    requires Shaped(u, s)
  {
    IsLink(u, a) && if a.r > a.t then s.fwd[a.t] > 0 else s.rev[a.t] > 0
  }

  /** One packet over one link. */
  function Move(u: Line, s: State, a: Tx): State
    requires Valid(u, s) && Queued(u, s, a)
  {
    SumAtLeast(s.fwd, a.t);
    SumAtLeast(s.rev, a.t);
    if a.r > a.t then
      var fwd := s.fwd[a.t := s.fwd[a.t] - 1];
      if a.r < u.hops then s.(fwd := fwd[a.r := fwd[a.r] + 1])
      else if u.roundTrip then s.(fwd := fwd, rev := s.rev[a.r := s.rev[a.r] + 1])
      else s.(fwd := fwd, done := s.done + 1, outstanding := s.outstanding - 1)
    else
      var rev := s.rev[a.t := s.rev[a.t] - 1];
      if a.r > 0 then s.(rev := rev[a.r := rev[a.r] + 1])
      else s.(rev := rev, done := s.done + 1, outstanding := s.outstanding - 1)
  }

  // ---- The potential ------------------------------------------------------------------------

  function Weighted(s: seq<nat>, w: nat -> int): int
    decreases |s|
  {
    if s == [] then 0 else Weighted(s[..|s| - 1], w) + w(|s| - 1) * s[|s| - 1]
  }

  lemma {:induction false} WeightedUpdate(s: seq<nat>, w: nat -> int, i: nat, x: nat)
    requires i < |s|
    ensures Weighted(s[i := x], w) == Weighted(s, w) + w(i) * (x - s[i])
    decreases |s|
  {
    var n := |s| - 1;
    if i < n {
      WeightedUpdate(s[..n], w, i, x);
      assert s[i := x][..n] == s[..n][i := x];
    } else {
      assert s[i := x][..n] == s[..n];
    }
  }

  function There(): nat -> int {
    (i: nat) => i
  }

  function Back(u: Line): nat -> int {
    (i: nat) => 2 * u.hops - i
  }

  /** How far the packets in flight have come. */
  function Progress(u: Line, s: State): int {
    Weighted(s.fwd, There()) + Weighted(s.rev, Back(u))
  }

  /** A packet moved from one place to the next. */
  lemma Shifted(s: seq<nat>, w: nat -> int, i: nat, j: nat)
    requires i < |s| && j < |s| && i != j && s[i] > 0
    ensures Sum(s[i := s[i] - 1][j := s[j] + 1]) == Sum(s)
    ensures Weighted(s[i := s[i] - 1][j := s[j] + 1], w) == Weighted(s, w) + w(j) - w(i)
  {
    Taken(s, w, i);
    Put(s[i := s[i] - 1], w, j);
  }

  lemma Taken(s: seq<nat>, w: nat -> int, i: nat)
    requires i < |s| && s[i] > 0
    ensures Sum(s[i := s[i] - 1]) == Sum(s) - 1
    ensures Weighted(s[i := s[i] - 1], w) == Weighted(s, w) - w(i)
  {
    SumUpdate(s, i, s[i] - 1);
    WeightedUpdate(s, w, i, s[i] - 1);
  }

  lemma Put(s: seq<nat>, w: nat -> int, i: nat)
    requires i < |s|
    ensures Sum(s[i := s[i] + 1]) == Sum(s) + 1
    ensures Weighted(s[i := s[i] + 1], w) == Weighted(s, w) + w(i)
  {
    SumUpdate(s, i, s[i] + 1);
    WeightedUpdate(s, w, i, s[i] + 1);
  }

  /** Hops done so far: those of the delivered objects and those of the packets in flight. */
  function Amount(u: Line, s: State): int {
    u.Trip() * s.done + Progress(u, s)
  }

  ghost predicate Advances(u: Line, s: State, t: State) {
    Valid(u, t) && Amount(u, t) == Amount(u, s) + 1
  }

  lemma HopAhead(u: Line, s: State, a: Tx)
    requires Valid(u, s) && Queued(u, s, a) && a.t < a.r < u.hops
    ensures Advances(u, s, Move(u, s, a))
  {
    hide Sum, Weighted;
    Shifted(s.fwd, There(), a.t, a.r);
  }

  lemma TurnRound(u: Line, s: State, a: Tx)
    requires Valid(u, s) && Queued(u, s, a) && a.t < a.r == u.hops && u.roundTrip
    ensures Advances(u, s, Move(u, s, a))
  {
    hide Sum, Weighted;
    Taken(s.fwd, There(), a.t);
    Put(s.rev, Back(u), a.r);
  }

  lemma Arrive(u: Line, s: State, a: Tx)
    requires Valid(u, s) && Queued(u, s, a) && a.t < a.r == u.hops && !u.roundTrip
    ensures Advances(u, s, Move(u, s, a))
  {
    MulStep(s.done, u.Trip());
    SumAtLeast(s.fwd, a.t);
    Taken(s.fwd, There(), a.t);
  }

  lemma HopBack(u: Line, s: State, a: Tx)
    requires Valid(u, s) && Queued(u, s, a) && 0 < a.r < a.t
    ensures Advances(u, s, Move(u, s, a))
  {
    hide Sum, Weighted;
    Shifted(s.rev, Back(u), a.t, a.r);
  }

  lemma Deliver(u: Line, s: State, a: Tx)
    requires Valid(u, s) && Queued(u, s, a) && 0 == a.r < a.t
    ensures Advances(u, s, Move(u, s, a))
  {
    hide Sum, Weighted;
    MulStep(s.done, u.Trip());
    SumAtLeast(s.rev, a.t);
    Taken(s.rev, Back(u), a.t);
  }

  /** Every move is one hop more, and nothing is lost or made. */
  lemma MoveAdvances(u: Line, s: State, a: Tx)
    requires Valid(u, s) && Queued(u, s, a)
    ensures Advances(u, s, Move(u, s, a))
  {
    if a.t < a.r {
      if a.r < u.hops { HopAhead(u, s, a); }
      else if u.roundTrip { TurnRound(u, s, a); }
      else { Arrive(u, s, a); }
    } else if a.r > 0 {
      HopBack(u, s, a);
    } else {
      Deliver(u, s, a);
    }
  }

  // ---- What the scheduler picks ---------------------------------------------------------------

  predicate NoDup(c: seq<Tx>) {
    forall i, j | 0 <= i < j < |c| :: c[i] != c[j]
  }

  /** Different links, each with a packet to move. */
  predicate Runnable(u: Line, s: State, c: seq<Tx>)
    requires Shaped(u, s)
  {
    NoDup(c) && forall a | a in c :: Queued(u, s, a)
  }

  lemma NoDupAppend(c: seq<Tx>, a: Tx)
    requires NoDup(c) && a !in c
    ensures NoDup(c + [a])
  {
  }

  lemma {:induction false} ForwardsAre(fwd: seq<nat>, k: nat)
    requires k <= |fwd|
    ensures NoDup(Forwards(fwd, k))
    ensures forall a :: a in Forwards(fwd, k) <==> a.t < k && a.r == a.t + 1 && fwd[a.t] > 0
    decreases k
  {
    var all := Forwards(fwd, k);
    if k > 0 {
      var before, more := Forwards(fwd, k - 1), if fwd[k - 1] > 0 then [Tx(k - 1, k)] else [];
      assert all == before + more;
      ForwardsAre(fwd, k - 1);
      hide Forwards;
      if more != [] { NoDupAppend(before, more[0]); }
      hide NoDup;
      forall a ensures a in all <==> a in before || a in more {}
    }
  }

  lemma {:induction false} BackwardsAre(rev: seq<nat>, k: nat)
    requires k < |rev|
    ensures NoDup(Backwards(rev, k))
    ensures forall a :: a in Backwards(rev, k) <==> 0 < a.t <= k && a.r == a.t - 1 && rev[a.t] > 0
    decreases k
  {
    var all := Backwards(rev, k);
    if k > 0 {
      var before, more := Backwards(rev, k - 1), if rev[k] > 0 then [Tx(k, k - 1)] else [];
      assert all == before + more;
      BackwardsAre(rev, k - 1);
      hide Backwards;
      forall a ensures a in all <==> a in before || a in more {}
    }
  }

  lemma CandidatesAre(u: Line, s: State)
    requires Shaped(u, s)
    ensures NoDup(Candidates(u, s))
    ensures forall a :: a in Candidates(u, s) <==> Queued(u, s, a)
  {
    ForwardsAre(s.fwd, u.hops);
    BackwardsAre(s.rev, u.hops);
  }

  lemma RotatedAre(c: seq<Tx>, r: nat)
    requires r <= |c| && NoDup(c)
    ensures NoDup(Rotated(c, r))
    ensures forall a :: a in Rotated(c, r) <==> a in c
  {
    assert c == c[..r] + c[r..];
  }

  lemma {:induction false} GreedyAre(u: Line, c: seq<Tx>)
    requires NoDup(c)
    ensures NoDup(Greedy(u, c))
    ensures forall a | a in Greedy(u, c) :: a in c
    decreases |c|
  {
    if c != [] {
      var rest := c[..|c| - 1];
      GreedyAre(u, rest);
      assert c == rest + [c[|c| - 1]];
      assert c[|c| - 1] !in rest;
    }
  }

  /** What is picked of the first `k` is what is picked in the end, among them. */
  lemma {:induction false} GreedyPrefix(u: Line, c: seq<Tx>, k: nat)
    requires NoDup(c) && k <= |c|
    ensures forall a :: a in Greedy(u, c[..k]) <==> a in Greedy(u, c) && a in c[..k]
    decreases |c|
  {
    if k < |c| {
      var n := |c| - 1;
      var rest, last := c[..n], c[n];
      GreedyPrefix(u, rest, k);
      GreedyAre(u, rest);
      assert rest[..k] == c[..k] && c == rest + [last];
      assert last !in rest && last !in c[..k];
    } else {
      assert c[..k] == c;
      GreedyAre(u, c);
    }
  }

  /** A candidate is picked exactly when those picked before it admit it. */
  lemma {:induction false} PickedExactly(u: Line, c: seq<Tx>, k: nat)
    requires NoDup(c) && k < |c|
    ensures c[k] in Greedy(u, c) <==> u.admits(Greedy(u, c[..k]), c[k])
    decreases |c|
  {
    var n := |c| - 1;
    var rest := c[..n];
    GreedyAre(u, rest);
    assert c == rest + [c[n]] && c[n] !in rest;
    if k < n {
      PickedExactly(u, rest, k);
      assert rest[..k] == c[..k] && c[k] in rest;
    } else {
      assert c[..k] == rest;
    }
  }

  /** The order of a slot: the candidates from the turn on, round the end. */
  function Order(u: Line, s: State): seq<Tx>
    requires Shaped(u, s)
  {
    var c := Candidates(u, s);
    if c == [] then [] else Rotated(c, Turn(u, s))
  }

  lemma OrderAre(u: Line, s: State)
    requires Shaped(u, s)
    ensures NoDup(Order(u, s)) && forall a :: a in Order(u, s) <==> Queued(u, s, a)
    ensures Active(u, s) == Greedy(u, Order(u, s))
  {
    CandidatesAre(u, s);
    if Candidates(u, s) != [] { RotatedAre(Candidates(u, s), Turn(u, s)); }
  }

  /** The turn goes on by one candidate a slot, and whoever's turn it is runs. */
  lemma TurnRuns(u: Line, s: State)
    requires Shaped(u, s) && Candidates(u, s) != [] && FirstRuns(u)
    ensures var c := Candidates(u, s);
            Order(u, s)[0] == c[(s.rr + 1) % |c|] && c[(s.rr + 1) % |c|] in Active(u, s)
  {
    var order := Order(u, s);
    OrderAre(u, s);
    PickedExactly(u, order, 0);
    assert order[..0] == [];
    assert order[0] in order;
    hide Greedy, Candidates, Active;
    assert IsLink(u, order[0]);
  }

  lemma ActiveRuns(u: Line, s: State)
    requires Shaped(u, s)
    ensures Runnable(u, s, Active(u, s))
  {
    CandidatesAre(u, s);
    var c := Candidates(u, s);
    if c != [] {
      RotatedAre(c, Turn(u, s));
      GreedyAre(u, Rotated(c, Turn(u, s)));
    }
  }

  lemma MoveLeavesOthers(u: Line, s: State, a: Tx, b: Tx)
    requires Valid(u, s) && Queued(u, s, a) && Queued(u, s, b) && a != b
    ensures Queued(u, Move(u, s, a), b)
  {
  }

  /** Running one of the links leaves the others with packets to move. */
  lemma RestRuns(u: Line, s: State, c: seq<Tx>)
    requires Valid(u, s) && Runnable(u, s, c) && c != []
    ensures Runnable(u, Move(u, s, c[0]), c[1..])
  {
    MoveAdvances(u, s, c[0]);
    forall b | b in c[1..] ensures Queued(u, Move(u, s, c[0]), b) {
      MoveLeavesOthers(u, s, c[0], b);
    }
  }

  /** All the picked links, one after the other. */
  function MoveAll(u: Line, s: State, c: seq<Tx>): (t: State)
    requires Valid(u, s) && Runnable(u, s, c)
    ensures Valid(u, t) && Amount(u, t) == Amount(u, s) + |c|
    decreases |c|
  {
    if c == [] then s
    else
      MoveAdvances(u, s, c[0]);
      RestRuns(u, s, c);
      MoveAll(u, Move(u, s, c[0]), c[1..])
  }

  lemma MoveFirst(u: Line, s: State, c: seq<Tx>)
    requires Valid(u, s) && Runnable(u, s, c) && c != []
    ensures Valid(u, Move(u, s, c[0])) && Runnable(u, Move(u, s, c[0]), c[1..])
    ensures MoveAll(u, s, c) == MoveAll(u, Move(u, s, c[0]), c[1..])
  {
    MoveAdvances(u, s, c[0]);
    RestRuns(u, s, c);
  }

  // ---- Runs ---------------------------------------------------------------------------------------

  /** The source keeps `WINDOW` requests outstanding. */
  function Refilled(u: Line, s: State): (t: State)
    requires Valid(u, s)
    ensures Valid(u, t) && Amount(u, t) == Amount(u, s)
    ensures t.outstanding == 64
  {
    if s.outstanding < WINDOW then
      var more := WINDOW - s.outstanding;
      SumUpdate(s.fwd, 0, s.fwd[0] + more);
      WeightedUpdate(s.fwd, There(), 0, s.fwd[0] + more);
      s.(fwd := s.fwd[0 := s.fwd[0] + more], outstanding := WINDOW)
    else s
  }

  function Slot(u: Line, s: State): (t: State)
    requires Valid(u, s)
    ensures Valid(u, t)
    ensures Amount(u, t) == Amount(u, s) + |Active(u, Refilled(u, s))|
  {
    var f := Refilled(u, s);
    if Candidates(u, f) == [] then f
    else
      ActiveRuns(u, f);
      MoveAll(u, f, Active(u, f)).(rr := Turn(u, f))
  }

  /** The state `k` slots after `s`. */
  function Run(u: Line, s: State, k: nat): (t: State)
    requires Valid(u, s)
    ensures Valid(u, t)
    decreases k
  {
    if k == 0 then s else Run(u, Slot(u, s), k - 1)
  }

  function Start(u: Line): (s: State)
    ensures Valid(u, s) && Amount(u, s) == 0
  {
    var none: seq<nat> := seq(u.hops + 1, _ => 0);
    SumZero(none);
    WeightedZero(none, There());
    WeightedZero(none, Back(u));
    State(none, none, 0, 0, 0)
  }

  lemma RunStep(u: Line, s: State, k: nat)
    requires Valid(u, s)
    ensures Run(u, s, k) == if k == 0 then s else Run(u, Slot(u, s), k - 1)
  {
    hide Slot;
  }

  lemma {:induction false} WeightedZero(s: seq<nat>, w: nat -> int)
    requires forall i | 0 <= i < |s| :: s[i] == 0
    ensures Weighted(s, w) == 0
    decreases |s|
  {
    if s != [] { WeightedZero(s[..|s| - 1], w); }
  }

  /** How many links run in the slot that `s` begins. */
  function Ran(u: Line, s: State): nat
    requires Valid(u, s)
  {
    |Active(u, Refilled(u, s))|
  }

  /** How many links run in the `k` slots after `s`. */
  function Activations(u: Line, s: State, k: nat): nat
    requires Valid(u, s)
    decreases k
  {
    if k == 0 then 0 else Ran(u, s) + Activations(u, Slot(u, s), k - 1)
  }

  lemma {:induction false} ActivationsCount(u: Line, s: State, k: nat)
    requires Valid(u, s)
    ensures Amount(u, Run(u, s, k)) == Amount(u, s) + Activations(u, s, k)
    decreases k
  {
    hide Slot, Valid, Amount;
    if k > 0 { ActivationsCount(u, Slot(u, s), k - 1); }
  }

  /** Every activation is a hop of a delivered object or of a packet still in flight. */
  lemma ActivationsAreProgress(u: Line, k: nat)
    ensures Activations(u, Start(u), k)
         == u.Trip() * Run(u, Start(u), k).done + Progress(u, Run(u, Start(u), k))
  {
    ActivationsCount(u, Start(u), k);
  }

  // ---- Capacity -------------------------------------------------------------------------------------

  /** No more than `most` links can run in one slot. */
  ghost predicate RunsAtMost(u: Line, most: nat) {
    forall s :: BusyAtMost(u, s, most)
  }

  ghost predicate BusyAtMost(u: Line, s: State, most: nat) {
    Valid(u, s) ==> |Active(u, s)| <= most
  }

  lemma RanAtMost(u: Line, s: State, most: nat)
    requires Valid(u, s) && RunsAtMost(u, most)
    ensures Ran(u, s) <= most
  {
    assert BusyAtMost(u, Refilled(u, s), most);
  }

  lemma OneMore(a: int, b: int, n: nat, most: nat)
    requires a <= most && b <= n * most
    ensures a + b <= (n + 1) * most
  {
  }

  lemma {:induction false} ActivationsAtMost(u: Line, s: State, k: nat, most: nat)
    requires Valid(u, s) && RunsAtMost(u, most)
    ensures Activations(u, s, k) <= k * most
    decreases k
  {
    hide Slot, Valid, Ran, RunsAtMost;
    if k > 0 {
      var next, n := Slot(u, s), k - 1;
      RanAtMost(u, s, most);
      ActivationsAtMost(u, next, n, most);
      OneMore(Ran(u, s), Activations(u, next, n), n, most);
    }
  }

  /** The first candidate always runs. */
  ghost predicate FirstRuns(u: Line) {
    forall a | IsLink(u, a) :: u.admits([], a)
  }

  lemma {:induction false} GreedyRunsSome(u: Line, c: seq<Tx>)
    requires c != [] && u.admits([], c[0])
    ensures Greedy(u, c) != []
    decreases |c|
  {
    if |c| > 1 { GreedyRunsSome(u, c[..|c| - 1]); }
  }

  lemma {:induction false} SumPositive(s: seq<nat>) returns (i: nat)
    requires Sum(s) > 0
    ensures i < |s| && s[i] > 0
    decreases |s|
  {
    i := |s| - 1;
    if s[i] == 0 { i := SumPositive(s[..i]); }
  }

  lemma SomeRuns(u: Line, s: State)
    requires Valid(u, s) && s.outstanding == WINDOW && u.hops > 0 && FirstRuns(u)
    ensures |Active(u, s)| >= 1
  {
    CandidatesAre(u, s);
    hide Candidates, Rotated, Greedy, Turn;
    if Sum(s.fwd) > 0 {
      var i := SumPositive(s.fwd);
      assert Queued(u, s, Tx(i, i + 1));
    } else {
      var i := SumPositive(s.rev);
      assert Queued(u, s, Tx(i, i - 1));
    }
    var c := Candidates(u, s);
    assert c != [];
    RotatedAre(c, Turn(u, s));
    var d := Rotated(c, Turn(u, s));
    assert d[0] in d;
    GreedyRunsSome(u, d);
  }

  lemma RanSome(u: Line, s: State)
    requires Valid(u, s) && u.hops > 0 && FirstRuns(u)
    ensures Ran(u, s) >= 1
  {
    SomeRuns(u, Refilled(u, s));
  }

  lemma {:induction false} ActivationsAtLeast(u: Line, s: State, k: nat)
    requires Valid(u, s) && u.hops > 0 && FirstRuns(u)
    ensures Activations(u, s, k) >= k
    decreases k
  {
    hide Slot;
    if k > 0 {
      var next, n := Slot(u, s), k - 1;
      RanSome(u, s);
      ActivationsAtLeast(u, next, n);
      assert Activations(u, s, k) == Ran(u, s) + Activations(u, next, n);
    }
  }

  lemma {:induction false} WeightedWithin(s: seq<nat>, w: nat -> int, most: nat)
    requires forall i: nat | i < |s| && s[i] > 0 :: 0 <= w(i) <= most
    ensures 0 <= Weighted(s, w) <= most * Sum(s)
    decreases |s|
  {
    if s != [] {
      var n := |s| - 1;
      WeightedWithin(s[..n], w, most);
      MulWithin(w(n), most, s[n]);
      assert most * Sum(s) == most * Sum(s[..n]) + most * s[n];
    }
  }

  lemma MulWithin(a: int, b: int, n: nat)
    requires n > 0 ==> 0 <= a <= b
    ensures 0 <= a * n <= b * n
  {
  }

  lemma BackWithin(u: Line, s: State)
    requires Valid(u, s) && u.hops > 0
    ensures 0 <= Weighted(s.rev, Back(u)) <= (u.Trip() - 1) * Sum(s.rev)
  {
    forall i: nat | i < |s.rev| && s.rev[i] > 0 ensures 0 <= Back(u)(i) <= u.Trip() - 1 {
      SumAtLeast(s.rev, i);
    }
    WeightedWithin(s.rev, Back(u), u.Trip() - 1);
  }

  lemma ThereWithin(u: Line, s: State)
    requires Valid(u, s) && u.hops > 0
    ensures 0 <= Weighted(s.fwd, There()) <= (u.Trip() - 1) * Sum(s.fwd)
  {
    WeightedWithin(s.fwd, There(), u.Trip() - 1);
  }

  lemma MulSum(m: nat, x: nat, y: nat)
    requires x + y <= WINDOW
    ensures m * x + m * y <= m * WINDOW
  {
    assert m * x + m * y == m * (x + y);
    MulWithin(x + y, WINDOW, m);
  }

  /** A packet in flight has at least one hop to go. */
  lemma ProgressWithin(u: Line, s: State)
    requires Valid(u, s) && u.hops > 0
    ensures 0 <= Progress(u, s) <= (u.Trip() - 1) * WINDOW
  {
    ThereWithin(u, s);
    BackWithin(u, s);
    MulSum(u.Trip() - 1, Sum(s.fwd), Sum(s.rev));
  }

  /** The capacity of the chain over `k` slots, in hops of delivered objects. */
  lemma Capacity(u: Line, k: nat, most: nat)
    requires u.hops > 0 && FirstRuns(u) && RunsAtMost(u, most)
    ensures k - (u.Trip() - 1) * WINDOW <= u.Trip() * Run(u, Start(u), k).done <= k * most
  {
    ActivationsAreProgress(u, k);
    ActivationsAtMost(u, Start(u), k, most);
    ActivationsAtLeast(u, Start(u), k);
    ProgressWithin(u, Run(u, Start(u), k));
  }

  // ---- The queues, updated in place -------------------------------------------------------------

  lemma RequestStays(u: Line, s: State)
    requires Valid(u, s) && s.outstanding < WINDOW
    ensures |s.fwd| > 0
    ensures var t := s.(fwd := s.fwd[0 := s.fwd[0] + 1], outstanding := s.outstanding + 1);
            Valid(u, t) && Refilled(u, t) == Refilled(u, s)
  {
    Put(s.fwd, There(), 0);
    hide Sum, Weighted;
  }

  class Flow {
    const u: Line
    var fwd: seq<nat>
    var rev: seq<nat>
    var outstanding: nat
    var done: nat
    var rr: nat

    function Now(): State
      reads this
    {
      State(fwd, rev, outstanding, done, rr)
    }

    constructor (u: Line)
      ensures this.u == u && Now() == Start(u)
    {
      this.u := u;
      fwd, rev := seq(u.hops + 1, _ => 0), seq(u.hops + 1, _ => 0);
      outstanding, done, rr := 0, 0, 0;
    }

    method Request()
      requires Valid(u, Now()) && outstanding < WINDOW
      modifies this
      ensures Valid(u, Now()) && Refilled(u, Now()) == Refilled(u, old(Now()))
      ensures outstanding == old(outstanding) + 1
    {
      hide Valid, Refilled;
      RequestStays(u, Now());
      fwd := fwd[0 := fwd[0] + 1];
      outstanding := outstanding + 1;
    }

    /** Keep the source saturated. */
    method Refill()
      requires Valid(u, Now())
      modifies this
      ensures Now() == Refilled(u, old(Now()))
    {
      while outstanding < WINDOW
        invariant Valid(u, Now()) && Refilled(u, Now()) == Refilled(u, old(Now()))
        decreases WINDOW - outstanding
      {
        Request();
      }
    }

    /** The links with something to send, forward ones first. */
    method Collect() returns (cands: seq<Tx>)
      requires Shaped(u, Now())
      ensures cands == Candidates(u, Now())
    {
      cands := [];
      for i := 0 to u.hops
        invariant cands == Forwards(fwd, i)
      {
        if fwd[i] > 0 {
          cands := cands + [Tx(i, i + 1)];
        }
      }
      if u.roundTrip {
        for i := 1 to u.hops + 1
          invariant cands == Forwards(fwd, u.hops) + Backwards(rev, i - 1)
        {
          if rev[i] > 0 {
            cands := cands + [Tx(i, i - 1)];
          }
        }
      }
    }

    method MoveOne(a: Tx)
      requires Valid(u, Now()) && Queued(u, Now(), a)
      modifies this
      ensures Now() == Move(u, old(Now()), a) && Valid(u, Now())
    {
      MoveAdvances(u, Now(), a);
      if a.r > a.t {
        fwd := fwd[a.t := fwd[a.t] - 1];
        if a.r == u.hops {
          if u.roundTrip {
            rev := rev[u.hops := rev[u.hops] + 1];
          } else {
            done, outstanding := done + 1, outstanding - 1;
          }
        } else {
          fwd := fwd[a.r := fwd[a.r] + 1];
        }
      } else {
        rev := rev[a.t := rev[a.t] - 1];
        if a.r == 0 {
          done, outstanding := done + 1, outstanding - 1;
        } else {
          rev := rev[a.r := rev[a.r] + 1];
        }
      }
    }

    /** Move one packet per active link. */
    method Execute(active: seq<Tx>)
      requires Valid(u, Now()) && Runnable(u, Now(), active)
      modifies this
      ensures Now() == MoveAll(u, old(Now()), active)
    {
      ghost var start, rest := Now(), active;
      for k := 0 to |active|
        invariant rest == active[k..]
        invariant Valid(u, Now()) && Runnable(u, Now(), rest)
        invariant MoveAll(u, Now(), rest) == MoveAll(u, start, active)
      {
        MoveFirst(u, Now(), rest);
        MoveOne(active[k]);
        rest := rest[1..];
      }
    }
  }
}
