/**
 Channel assignment by coordinate descent: pipes that share or adjoin a channel collide, an
 external flow may pin one channel. Costs are in hundredths.
 */
module ChannelDiversity {
  import opened Options
  import opened Sums

  /** Physical channels. */
  const C: nat := 8

  type Jam = Option<nat>

  predicate ValidJam(jam: Jam) {
    jam.Some? ==> jam.value < C
  }

  predicate Channels(out: seq<nat>) {
    forall i | 0 <= i < |out| :: out[i] < C
  }

  // ---- The cost of a channel -------------------------------------------------------------

  function At(load: seq<nat>, c: int): nat {
    if 0 <= c < |load| then load[c] else 0
  }

  function JamCost(c: int, jam: Jam): nat {
    if jam.None? then 0
    else if c == jam.value then 10000
    else if c == jam.value - 1 || c == jam.value + 1 then 2000
    else 0
  }

  /** Adjacent load is all but a full collision. */
  function Cost(c: int, load: seq<nat>, jam: Jam): nat {
    100 * At(load, c) + 95 * (At(load, c - 1) + At(load, c + 1)) + JamCost(c, jam)
  }

  /** The cheapest of the first `n` channels; of equals, the lowest. */
  function BestUpTo(load: seq<nat>, jam: Jam, n: nat): (best: nat)
    requires n > 0
    ensures best < n
    ensures forall c: nat | c < n :: Cost(best, load, jam) < Cost(c, load, jam)
              || (Cost(best, load, jam) == Cost(c, load, jam) && best <= c)
    decreases n
  {
    if n == 1 then 0
    else
      var before := BestUpTo(load, jam, n - 1);
      if Cost(n - 1, load, jam) < Cost(before, load, jam) then n - 1 else before
  }

  function Best(load: seq<nat>, jam: Jam): (best: nat)
    ensures best < C
    ensures forall c: nat | c < C :: Cost(best, load, jam) < Cost(c, load, jam)
              || (Cost(best, load, jam) == Cost(c, load, jam) && best <= c)
  {
    BestUpTo(load, jam, C)
  }

  /** The sensed load before any pipe: a jammed channel looks very busy. */
  function JamLoad(jam: Jam): (load: seq<nat>)
    requires ValidJam(jam)
    ensures |load| == C
  {
    var none: seq<nat> := seq(C, _ => 0);
    if jam.Some? then none[jam.value := 8] else none
  }

  /** The load of the pipes `0 .. n` but `except`. */
  function LoadOf(out: seq<nat>, n: nat, except: int, jam: Jam): (load: seq<nat>)
    requires n <= |out| && Channels(out) && ValidJam(jam)
    ensures |load| == C
    decreases n
  {
    if n == 0 then JamLoad(jam)
    else
      var before := LoadOf(out, n - 1, except, jam);
      if n - 1 == except then before else before[out[n - 1] := before[out[n - 1]] + 1]
  }

  // ---- Costs are pairwise interactions -----------------------------------------------------

  /** What two pipes on channels `a` and `b` cost each other. */
  function Interaction(a: int, b: int): nat {
    if a == b then 100 else if a == b + 1 || b == a + 1 then 95 else 0
  }

  /** What the jammer costs a pipe on `c`. */
  function JamInteraction(c: int, jam: Jam): nat {
    if jam.None? then 0 else 8 * Interaction(c, jam.value) + JamCost(c, jam)
  }

  /** What the pipes `0 .. n` but `except` cost a pipe on `c`. */
  function Toward(out: seq<nat>, n: nat, except: int, c: int): nat
    requires n <= |out|
    decreases n
  {
    if n == 0 then 0
    else Toward(out, n - 1, except, c) + if n - 1 == except then 0 else Interaction(c, out[n - 1])
  }

  lemma OneMorePipe(load: seq<nat>, jam: Jam, x: nat, c: nat)
    requires |load| == C && x < C && c < C
    ensures Cost(c, load[x := load[x] + 1], jam) == Cost(c, load, jam) + Interaction(c, x)
  {
  }

  lemma JamAlone(jam: Jam, c: nat)
    requires ValidJam(jam) && c < C
    ensures Cost(c, JamLoad(jam), jam) == JamInteraction(c, jam)
  {
  }

  lemma {:induction false} CostIsInteraction(out: seq<nat>, n: nat, except: int, jam: Jam, c: nat)
    requires n <= |out| && Channels(out) && ValidJam(jam) && c < C
    ensures Cost(c, LoadOf(out, n, except, jam), jam) == JamInteraction(c, jam) + Toward(out, n, except, c)
    decreases n
  {
    hide Cost, JamLoad;
    if n == 0 {
      JamAlone(jam, c);
    } else {
      CostIsInteraction(out, n - 1, except, jam, c);
      OneMorePipe(LoadOf(out, n - 1, except, jam), jam, out[n - 1], c);
    }
  }

  // ---- The cost said of the other pipes themselves ------------------------------------------------

  /** The pipes of `0 .. n` but `except` that are on the channel. */
  function On(out: seq<nat>, n: nat, except: int, c: int): set<nat>
    requires n <= |out|
  {
    set i: nat | i < n && i != except && out[i] == c
  }

  lemma {:induction false} LoadIs(out: seq<nat>, n: nat, except: int, jam: Jam, c: nat)
    requires n <= |out| && Channels(out) && ValidJam(jam) && c < C
    ensures LoadOf(out, n, except, jam)[c] == |On(out, n, except, c)| + (if jam == Some(c) then 8 else 0)
    decreases n
  {
    if n == 0 {
      assert On(out, 0, except, c) == {};
    } else {
      LoadIs(out, n - 1, except, jam, c);
      OnOneMore(out, n - 1, except, c);
      hide On, JamLoad;
    }
  }

  lemma OnOneMore(out: seq<nat>, last: nat, except: int, c: nat)
    requires last < |out|
    ensures |On(out, last + 1, except, c)|
         == |On(out, last, except, c)| + (if last != except && out[last] == c then 1 else 0)
  {
    var before := On(out, last, except, c);
    assert On(out, last + 1, except, c) == if last != except && out[last] == c then before + {last} else before;
    assert last !in before;
  }

  lemma NoneOn(out: seq<nat>, n: nat, except: int, c: int)
    requires n <= |out| && Channels(out) && (c < 0 || c >= C)
    ensures On(out, n, except, c) == {}
  {
  }

  /** What the jammer adds, its own sensed load included. */
  function JamAdds(c: int, jam: Jam): nat {
    if jam.None? then 0
    else if c == jam.value then 10800
    else if c == jam.value + 1 || c + 1 == jam.value then 2760
    else 0
  }

  /** A hundred for each other pipe on the channel, 95 for each next to it, and the jammer's. */
  lemma SensedCostIs(out: seq<nat>, n: nat, except: int, jam: Jam, c: nat)
    requires n <= |out| && Channels(out) && ValidJam(jam) && c < 8
    ensures Cost(c, LoadOf(out, n, except, jam), jam)
         == 100 * |On(out, n, except, c)| + 95 * (|On(out, n, except, c - 1)| + |On(out, n, except, c + 1)|)
            + JamAdds(c, jam)
  {
    LoadIs(out, n, except, jam, c);
    if c > 0 { LoadIs(out, n, except, jam, c - 1); } else { NoneOn(out, n, except, c - 1); }
    if c < 7 { LoadIs(out, n, except, jam, c + 1); } else { NoneOn(out, n, except, c + 1); }
    hide LoadOf, On;
  }

  /** Every other pipe, and the jammer, is at least two channels away. */
  predicate Clean(out: seq<nat>, n: nat, except: int, jam: Jam, c: nat)
    requires n <= |out|
  {
    && (forall i | 0 <= i < n && i != except :: out[i] >= c + 2 || c >= out[i] + 2)
    && (jam.Some? ==> jam.value >= c + 2 || c >= jam.value + 2)
  }

  lemma CleanIsFree(out: seq<nat>, n: nat, except: int, jam: Jam, c: nat)
    requires n <= |out| && Channels(out) && ValidJam(jam) && c < 8
    ensures Clean(out, n, except, jam, c) <==> Cost(c, LoadOf(out, n, except, jam), jam) == 0
  {
    SensedCostIs(out, n, except, jam, c);
    var here, below, above := On(out, n, except, c), On(out, n, except, c - 1), On(out, n, except, c + 1);
    assert Clean(out, n, except, jam, c) <==> here == {} && below == {} && above == {} && JamAdds(c, jam) == 0 by {
      if here == {} && below == {} && above == {} {
        forall i: nat | i < n && i != except ensures out[i] >= c + 2 || c >= out[i] + 2 {
          assert i !in here && i !in below && i !in above;
        }
      }
    }
    hide Cost, LoadOf, On;
  }

  /** While some channel is clean a pipe never takes one on or next to an occupied one. */
  lemma CleanIsTaken(out: seq<nat>, n: nat, except: int, jam: Jam, c: nat)
    requires n <= |out| && Channels(out) && ValidJam(jam) && c < 8 && Clean(out, n, except, jam, c)
    ensures Clean(out, n, except, jam, Best(LoadOf(out, n, except, jam), jam))
    ensures Best(LoadOf(out, n, except, jam), jam) <= c
  {
    var best := Best(LoadOf(out, n, except, jam), jam);
    CleanIsFree(out, n, except, jam, c);
    CleanIsFree(out, n, except, jam, best);
  }

  /** All pairs of pipes, and the jammer. */
  function Potential(out: seq<nat>, jam: Jam): nat
    decreases |out|
  {
    if out == [] then 0
    else
      var n := |out| - 1;
      Potential(out[..n], jam) + Toward(out[..n], n, n, out[n]) + JamInteraction(out[n], jam)
  }

  lemma {:induction false} TowardPrefix(out: seq<nat>, m: nat, n: nat, except: int, c: int)
    requires n <= m <= |out|
    ensures Toward(out[..m], n, except, c) == Toward(out, n, except, c)
    decreases n
  {
    if n > 0 { TowardPrefix(out, m, n - 1, except, c); }
  }

  lemma {:induction false} TowardIgnores(out: seq<nat>, n: nat, except: nat, x: nat, c: int)
    requires n <= |out| && except < |out|
    ensures Toward(out[except := x], n, except, c) == Toward(out, n, except, c)
    decreases n
  {
    if n > 0 { TowardIgnores(out, n - 1, except, x, c); }
  }

  lemma {:induction false} TowardMoves(out: seq<nat>, n: nat, i: nat, x: nat, c: int, except: int)
    requires i < n <= |out| && except != i
    ensures Toward(out[i := x], n, except, c) + Interaction(c, out[i]) == Toward(out, n, except, c) + Interaction(c, x)
    decreases n
  {
    if i == n - 1 {
      TowardBelow(out, n - 1, i, x, c, except);
    } else {
      TowardMoves(out, n - 1, i, x, c, except);
    }
  }

  lemma {:induction false} TowardBelow(out: seq<nat>, n: nat, i: nat, x: nat, c: int, except: int)
    requires n <= i < |out|
    ensures Toward(out[i := x], n, except, c) == Toward(out, n, except, c)
    decreases n
  {
    if n > 0 { TowardBelow(out, n - 1, i, x, c, except); }
  }

  function Own(out: seq<nat>, i: nat, c: nat, jam: Jam): nat {
    Toward(out, |out|, i, c) + JamInteraction(c, jam)
  }

  lemma LastMoves(out: seq<nat>, x: nat, jam: Jam)
    requires out != []
    ensures var i := |out| - 1;
            Potential(out[i := x], jam) + Own(out, i, out[i], jam) == Potential(out, jam) + Own(out, i, x, jam)
  {
    var n := |out| - 1;
    assert out[n := x][..n] == out[..n];
    TowardPrefix(out, n, n, n, out[n]);
    TowardPrefix(out, n, n, n, x);
  }

  /** Moving one pipe changes the potential by the change in that pipe's own cost. */
  lemma {:induction false} MoveChangesPotential(out: seq<nat>, i: nat, x: nat, jam: Jam)
    requires i < |out|
    ensures Potential(out[i := x], jam) + Own(out, i, out[i], jam) == Potential(out, jam) + Own(out, i, x, jam)
    decreases |out|
  {
    hide JamInteraction, Interaction;
    var n := |out| - 1;
    var rest := out[..n];
    if i == n {
      LastMoves(out, x, jam);
    } else {
      assert out[i := x][..n] == rest[i := x];
      MoveChangesPotential(rest, i, x, jam);
      TowardMoves(rest, n, i, x, out[n], n);
      TowardPrefix(out, n, n, i, out[i]);
      TowardPrefix(out, n, n, i, x);
      Symmetric(out[n], out[i]);
      Symmetric(out[n], x);
    }
  }

  lemma Symmetric(a: int, b: int)
    ensures Interaction(a, b) == Interaction(b, a)
  {
  }

  // ---- Best responses ------------------------------------------------------------------------

  /** Pipe `i` moves to the channel that is cheapest given the others. */
  function Respond(out: seq<nat>, i: nat, jam: Jam): (moved: seq<nat>)
    requires i < |out| && Channels(out) && ValidJam(jam)
    ensures |moved| == |out| && Channels(moved)
  {
    out[i := Best(LoadOf(out, |out|, i, jam), jam)]
  }

  /** A response never raises the potential, and keeps it only to move to a lower channel or not at
      all. */
  lemma ResponseNeverLoses(out: seq<nat>, i: nat, jam: Jam)
    requires i < |out| && Channels(out) && ValidJam(jam)
    ensures var moved := Respond(out, i, jam);
            Potential(moved, jam) < Potential(out, jam)
            || (Potential(moved, jam) == Potential(out, jam) && moved[i] <= out[i])
  {
    var load := LoadOf(out, |out|, i, jam);
    var best := Best(load, jam);
    CostIsInteraction(out, |out|, i, jam, best);
    CostIsInteraction(out, |out|, i, jam, out[i]);
    MoveChangesPotential(out, i, best, jam);
    hide LoadOf, Cost, Potential, Toward, JamInteraction;
  }

  lemma MovesOne(out: seq<nat>, i: nat, jam: Jam)
    requires i < |out| && Channels(out) && ValidJam(jam)
    ensures var moved := Respond(out, i, jam);
            moved == out[i := moved[i]] && (moved[i] == out[i] ==> moved == out)
  {
    hide Best, LoadOf;
  }

  /** No pipe would gain by moving alone. */
  ghost predicate LocalOptimum(out: seq<nat>, jam: Jam) {
    forall i: nat, c: nat | i < |out| && c < C :: NoGain(out, i, c, jam)
  }

  predicate NoGain(out: seq<nat>, i: nat, c: nat, jam: Jam)
    requires i < |out|
  {
    Potential(out, jam) <= Potential(out[i := c], jam)
  }

  lemma StayingIsBest(out: seq<nat>, i: nat, c: nat, jam: Jam)
    requires i < |out| && c < C && Channels(out) && ValidJam(jam) && Respond(out, i, jam) == out
    ensures NoGain(out, i, c, jam)
  {
    var load := LoadOf(out, |out|, i, jam);
    assert Best(load, jam) == out[i];
    CostIsInteraction(out, |out|, i, jam, c);
    CostIsInteraction(out, |out|, i, jam, out[i]);
    MoveChangesPotential(out, i, c, jam);
  }

  // ---- Passes ----------------------------------------------------------------------------------

  /** The pipes from `i` on respond in turn. */
  function PassFrom(out: seq<nat>, i: nat, jam: Jam): (moved: seq<nat>)
    requires i <= |out| && Channels(out) && ValidJam(jam)
    ensures |moved| == |out| && Channels(moved)
    decreases |out| - i
  {
    if i == |out| then out else PassFrom(Respond(out, i, jam), i + 1, jam)
  }

  function Passes(out: seq<nat>, n: nat, jam: Jam): (moved: seq<nat>)
    requires Channels(out) && ValidJam(jam)
    ensures |moved| == |out| && Channels(moved)
    decreases n
  {
    if n == 0 then out else Passes(PassFrom(out, 0, jam), n - 1, jam)
  }

  /** Cheaper, or as cheap on lower channels, or the same. */
  ghost predicate Progress(out: seq<nat>, moved: seq<nat>, jam: Jam) {
    || Potential(moved, jam) < Potential(out, jam)
    || (Potential(moved, jam) == Potential(out, jam) && Sum(moved) < Sum(out))
    || moved == out
  }

  lemma ResponseIsProgress(out: seq<nat>, i: nat, jam: Jam)
    requires i < |out| && Channels(out) && ValidJam(jam)
    ensures Progress(out, Respond(out, i, jam), jam)
  {
    ResponseNeverLoses(out, i, jam);
    MovesOne(out, i, jam);
    hide Respond, Potential;
    SumUpdate(out, i, Respond(out, i, jam)[i]);
  }

  /** A pass that changes anything makes progress, so passes never cycle. */
  lemma {:induction false} PassIsProgress(out: seq<nat>, i: nat, jam: Jam)
    requires i <= |out| && Channels(out) && ValidJam(jam)
    ensures Progress(out, PassFrom(out, i, jam), jam)
    decreases |out| - i
  {
    hide Respond, Potential;
    if i < |out| {
      ResponseIsProgress(out, i, jam);
      PassIsProgress(Respond(out, i, jam), i + 1, jam);
    }
  }

  /** Coordinate descent never loses, however many passes it makes. */
  lemma {:induction false} DescentNeverLoses(out: seq<nat>, n: nat, jam: Jam)
    requires Channels(out) && ValidJam(jam)
    ensures Potential(Passes(out, n, jam), jam) <= Potential(out, jam)
    decreases n
  {
    hide PassFrom, Potential;
    if n > 0 {
      PassIsProgress(out, 0, jam);
      DescentNeverLoses(PassFrom(out, 0, jam), n - 1, jam);
    }
  }

  lemma {:induction false} PassLeavesEarlier(out: seq<nat>, i: nat, k: nat, jam: Jam)
    requires k < i <= |out| && Channels(out) && ValidJam(jam)
    ensures PassFrom(out, i, jam)[k] == out[k]
    decreases |out| - i
  {
    hide Respond;
    if i < |out| {
      MovesOne(out, i, jam);
      PassLeavesEarlier(Respond(out, i, jam), i + 1, k, jam);
    }
  }

  /** A pass that changes nothing changed nothing on the way. */
  lemma {:induction false} UnchangedThroughout(out: seq<nat>, i: nat, k: nat, jam: Jam)
    requires i <= k < |out| && Channels(out) && ValidJam(jam) && PassFrom(out, i, jam) == out
    ensures Respond(out, k, jam) == out
    decreases |out| - i
  {
    hide Respond;
    var moved := Respond(out, i, jam);
    MovesOne(out, i, jam);
    PassLeavesEarlier(moved, i + 1, i, jam);
    if i < k { UnchangedThroughout(out, i + 1, k, jam); }
  }

  /** A pass that changes nothing has reached a local optimum. */
  lemma UnchangedIsLocalOptimum(out: seq<nat>, jam: Jam)
    requires Channels(out) && ValidJam(jam) && PassFrom(out, 0, jam) == out
    ensures LocalOptimum(out, jam)
  {
    forall i: nat, c: nat | i < |out| && c < C
      ensures NoGain(out, i, c, jam)
    {
      UnchangedThroughout(out, 0, i, jam);
      StayingIsBest(out, i, c, jam);
    }
  }

  lemma PassesUnfold(out: seq<nat>, n: nat, jam: Jam)
    requires Channels(out) && ValidJam(jam)
    ensures Passes(out, 0, jam) == out
    ensures Passes(out, n + 1, jam) == Passes(PassFrom(out, 0, jam), n, jam)
  {
    hide PassFrom;
  }

  /** A pass changes nothing any more, and no pipe would gain by moving alone. */
  ghost predicate Settled(out: seq<nat>, jam: Jam)
    requires Channels(out) && ValidJam(jam)
  {
    PassFrom(out, 0, jam) == out && LocalOptimum(out, jam)
  }

  /** From every assignment some number of passes reaches a local optimum, and stays there. */
  lemma {:induction false} DescentReachesOptimum(out: seq<nat>, jam: Jam) returns (n: nat)
    requires Channels(out) && ValidJam(jam)
    ensures Settled(Passes(out, n, jam), jam)
    decreases Potential(out, jam), Sum(out)
  {
    hide PassFrom, Potential, Sum, LocalOptimum, Passes;
    PassIsProgress(out, 0, jam);
    var moved := PassFrom(out, 0, jam);
    if moved == out {
      n := 0;
      UnchangedIsLocalOptimum(out, jam);
      PassesUnfold(out, 0, jam);
    } else {
      var rest := DescentReachesOptimum(moved, jam);
      n := rest + 1;
      PassesUnfold(out, rest, jam);
    }
  }

  // ---- The assignments -------------------------------------------------------------------------

  /** Each pipe joins on the channel that the pipes before it make cheapest. */
  function Sensed(k: nat, jam: Jam): (out: seq<nat>)
    requires ValidJam(jam)
    ensures |out| == k && Channels(out)
    decreases k
  {
    if k == 0 then []
    else
      var before := Sensed(k - 1, jam);
      before + [Best(LoadOf(before, k - 1, -1, jam), jam)]
  }

  lemma {:induction false} LoadExtends(out: seq<nat>, more: seq<nat>, n: nat, except: int, jam: Jam)
    requires n <= |out| && Channels(out) && Channels(out + more) && ValidJam(jam)
    ensures LoadOf(out + more, n, except, jam) == LoadOf(out, n, except, jam)
    decreases n
  {
    if n > 0 { LoadExtends(out, more, n - 1, except, jam); }
  }

  method BestChannel(load: seq<nat>, jam: Jam) returns (best: nat)
    ensures best == Best(load, jam)
  {
    best := 0;
    for c := 1 to C
      invariant best == BestUpTo(load, jam, c)
    {
      if Cost(c, load, jam) < Cost(best, load, jam) {
        best := c;
      }
    }
  }

  lemma OneJoins(out: seq<nat>, best: nat, n: nat, after: nat, jam: Jam)
    requires Channels(out) && best < C && ValidJam(jam) && n == |out| && after == n + 1
    ensures var load := LoadOf(out, n, -1, jam);
            LoadOf(out + [best], after, -1, jam) == load[best := load[best] + 1]
  {
    hide JamLoad;
    LoadExtends(out, [best], n, -1, jam);
  }

  /** Sequential greedy on the sensed load. */
  method SenseAvoid(k: nat, jam: Jam) returns (out: seq<nat>)
    requires ValidJam(jam)
    ensures out == Sensed(k, jam)
  {
    hide LoadOf, Best, JamLoad;
    var load := JamLoad(jam);
    out := [];
    NobodyYet(jam);
    for n := 0 to k
      invariant out == Sensed(n, jam) && load == LoadOf(out, n, -1, jam)
    {
      var best := BestChannel(load, jam);
      OneJoins(out, best, n, n + 1, jam);
      out := out + [best];
      load := load[best := load[best] + 1];
    }
  }

  lemma NobodyYet(jam: Jam)
    requires ValidJam(jam)
    ensures LoadOf([], 0, -1, jam) == JamLoad(jam)
  {
  }

  /** The load of all the pipes but `i`. */
  method SensedWithout(out: array<nat>, i: nat, jam: Jam) returns (load: seq<nat>)
    requires Channels(out[..]) && ValidJam(jam)
    ensures load == LoadOf(out[..], out.Length, i, jam)
  {
    hide JamLoad;
    load := JamLoad(jam);
    for m := 0 to out.Length
      invariant load == LoadOf(out[..], m, i, jam)
    {
      if m != i {
        load := load[out[m] := load[out[m]] + 1];
      }
    }
  }

  method RespondAt(out: array<nat>, i: nat, jam: Jam)
    requires i < out.Length && Channels(out[..]) && ValidJam(jam)
    modifies out
    ensures out[..] == Respond(old(out[..]), i, jam)
  {
    hide LoadOf, Best;
    var load := SensedWithout(out, i, jam);
    var best := BestChannel(load, jam);
    out[i] := best;
  }

  /** One pass of coordinate descent. */
  method Rebalance(out: array<nat>, jam: Jam)
    requires Channels(out[..]) && ValidJam(jam)
    modifies out
    ensures out[..] == PassFrom(old(out[..]), 0, jam)
  {
    hide Respond;
    for i := 0 to out.Length
      invariant Channels(out[..])
      invariant PassFrom(out[..], i, jam) == PassFrom(old(out[..]), 0, jam)
    {
      RespondAt(out, i, jam);
    }
  }

  lemma PassesStep(out: seq<nat>, n: nat, jam: Jam)
    requires Channels(out) && ValidJam(jam)
    ensures Passes(out, n, jam) == if n == 0 then out else Passes(PassFrom(out, 0, jam), n - 1, jam)
  {
  }

  /** Seeded with the sensed assignment, then rebalanced: it costs no more than the seed. */
  method SoftState(k: nat, jam: Jam) returns (out: array<nat>)
    requires ValidJam(jam)
    ensures out[..] == Passes(Sensed(k, jam), 6, jam)
    ensures Potential(out[..], jam) <= Potential(Sensed(k, jam), jam)
  {
    hide PassFrom, Sensed, Potential, Passes;
    var seed := SenseAvoid(k, jam);
    out := new nat[k](i requires 0 <= i < k => seed[i]);
    assert out[..] == seed;
    ghost var left := 6;
    for pass := 0 to 6
      invariant left == 6 - pass && Channels(out[..])
      invariant Passes(out[..], left, jam) == Passes(seed, 6, jam)
    {
      PassesStep(out[..], left, jam);
      Rebalance(out, jam);
      left := left - 1;
    }
    PassesStep(out[..], 0, jam);
    DescentNeverLoses(seed, 6, jam);
  }
}
