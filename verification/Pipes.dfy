/**
 Single-hop pipes that share one region, pipe `i` on channel `i` modulo the channels: how many can
 transmit at once when channels are orthogonal, and when neighbours leak.
 */
module Pipes {
  import opened Basics
  import opened Chain
  import opened Mrmc
  import opened Pigeonhole
  import opened Sums

  /** Every pipe's channel. */
  function Assigned(pipes: nat, channels: nat): (chan: seq<nat>)
    ensures |chan| == pipes
  {
    seq(pipes, (i: int) requires 0 <= i < pipes => ChannelOf(i, channels))
  }

  /** The order in which a round that starts at pipe `rr` tries the channels. */
  function Turned(chan: seq<nat>, rr: nat): (order: seq<nat>)
    requires rr <= |chan|
    ensures |order| == |chan|
  {
    chan[rr..] + chan[..rr]
  }

  function Channels(pipes: nat, channels: nat, rr: nat): seq<nat>
    requires rr < pipes
  {
    Turned(Assigned(pipes, channels), rr)
  }

  /** The channels of the pipes that transmit, in the order tried. */
  function Picked(coupling: Coupling, order: seq<nat>): seq<nat>
    decreases |order|
  {
    if order == [] then []
    else
      var before, c := Picked(coupling, order[..|order| - 1]), order[|order| - 1];
      if exists a | a in before :: Couples(coupling, a, c) then before else before + [c]
  }

  /** The channels in use are the first so many. */
  function Used(pipes: nat, channels: nat): nat {
    var c := if channels < 256 then channels else 256;
    if pipes < c then pipes else c
  }

  predicate Apart(coupling: Coupling, list: seq<nat>) {
    forall i, j | 0 <= i < j < |list| :: !Couples(coupling, list[i], list[j])
  }

  predicate Near(coupling: Coupling, list: seq<nat>, x: nat) {
    x in list || exists a | a in list :: Couples(coupling, a, x)
  }

  lemma {:induction false} PickedAre(coupling: Coupling, order: seq<nat>)
    ensures Apart(coupling, Picked(coupling, order))
    ensures forall x | x in Picked(coupling, order) :: x in order
    ensures forall x | x in order :: Near(coupling, Picked(coupling, order), x)
    decreases |order|
  {
    if order != [] {
      var rest, c := order[..|order| - 1], order[|order| - 1];
      PickedAre(coupling, rest);
      assert order == rest + [c];
      var before, after := Picked(coupling, rest), Picked(coupling, order);
      forall x | x in order ensures Near(coupling, after, x) {
        if x in rest { assert Near(coupling, before, x); }
      }
    }
  }

  lemma SmallMod(x: nat, n: nat)
    requires x < n
    ensures x % n == x
  {
  }

  lemma WrapMod(x: nat, n: nat)
    requires n <= x < 2 * n
    ensures x % n == x - n
  {
    var q := x / n;
    assert x == q * n + x % n;
    assert q == 1;
  }

  /** The pipe tried `k`-th is `k` places after the first, round the end. */
  lemma PipeTried(chan: seq<nat>, rr: nat, k: nat)
    requires rr < |chan| && k < |chan|
    ensures 0 <= (k + rr) % |chan| < |chan| && Turned(chan, rr)[k] == chan[(k + rr) % |chan|]
  {
    if k + rr < |chan| { SmallMod(k + rr, |chan|); } else { WrapMod(k + rr, |chan|); }
  }

  lemma ModAtMost(i: nat, n: nat)
    requires n > 0
    ensures i % n <= i
  {
    if i < n { SmallMod(i, n); }
  }

  lemma ChannelBelow(i: nat, pipes: nat, channels: nat)
    requires i < pipes && channels > 0
    ensures ChannelOf(i, channels) < Used(pipes, channels)
  {
    ModAtMost(i, channels);
    ModAtMost(i % channels, 256);
  }

  lemma ChannelSmall(x: nat, channels: nat)
    requires x < channels && x < 256
    ensures ChannelOf(x, channels) == x
  {
    SmallMod(x, channels);
  }

  lemma AssignedAre(pipes: nat, channels: nat)
    requires channels > 0
    ensures forall x: nat :: x in Assigned(pipes, channels) <==> x < Used(pipes, channels)
  {
    var chan := Assigned(pipes, channels);
    forall x: nat ensures x in chan <==> x < Used(pipes, channels) {
      if x < Used(pipes, channels) {
        ChannelSmall(x, channels);
        assert chan[x] == x;
      }
      if x in chan {
        var i: nat :| i < pipes && chan[i] == x;
        ChannelBelow(i, pipes, channels);
      }
    }
  }

  /** Whatever pipe a round starts at, the channels tried are the ones in use. */
  lemma ChannelsAre(pipes: nat, channels: nat, rr: nat)
    requires rr < pipes && channels > 0
    ensures forall x: nat :: x in Channels(pipes, channels, rr) <==> x < Used(pipes, channels)
  {
    var chan := Assigned(pipes, channels);
    AssignedAre(pipes, channels);
    forall x: nat ensures x in Channels(pipes, channels, rr) <==> x in chan {
      assert chan == chan[..rr] + chan[rr..];
    }
  }

  // ---- How many transmit ------------------------------------------------------------------------

  /** `x` is within `reach` of the list's entry `i`. */
  predicate Reaches(list: seq<nat>, i: nat, x: nat, reach: nat) {
    i < |list| && x <= list[i] + reach && list[i] <= x + reach
  }

  ghost predicate Reached(list: seq<nat>, x: nat, reach: nat) {
    exists i: nat :: Reaches(list, i, x, reach)
  }

  function Code(list: seq<nat>, i: nat, x: nat, reach: nat): nat
    requires Reaches(list, i, x, reach)
  {
    Pair(i, x + reach - list[i], 2 * reach + 1)
  }

  lemma {:induction false} CoverChoice(list: seq<nat>, n: nat, reach: nat) returns (near: seq<nat>)
    requires forall x: nat | x < n :: Reached(list, x, reach)
    ensures |near| == n && forall x: nat | x < n :: Reaches(list, near[x], x, reach)
    decreases n
  {
    if n == 0 {
      near := [];
    } else {
      var x := n - 1;
      assert Reached(list, x, reach);
      near := CoverChoice(list, x, reach);
      var i: nat :| Reaches(list, i, x, reach);
      near := near + [i];
    }
  }

  /** A list whose entries reach everything below `n` is not short. */
  lemma CoverIsLong(list: seq<nat>, n: nat, reach: nat)
    requires forall x: nat | x < n :: Reached(list, x, reach)
    ensures n <= |list| * (2 * reach + 1)
  {
    var near := CoverChoice(list, n, reach);
    var width := 2 * reach + 1;
    var codes: seq<nat> := seq(n, (x: int) requires 0 <= x < n => Code(list, near[x], x, reach));
    forall x: nat | x < n ensures codes[x] < |list| * width {
      CodeBelow(near[x], |list|, x + reach - list[near[x]], width);
    }
    forall x: nat, y: nat | x < y < n ensures codes[x] != codes[y] {
      CodeDistinct(near[x], near[y], x + reach - list[near[x]], y + reach - list[near[y]], width);
    }
    DistinctBelow(codes, |list| * width);
  }

  /** Orthogonal channels scale perfectly: every channel in use carries one pipe in every slot. */
  lemma OrthogonalScales(pipes: nat, channels: nat, rr: nat)
    requires rr < pipes && channels > 0
    ensures |Picked(Orthogonal(), Channels(pipes, channels, rr))| == Used(pipes, channels)
  {
    var order := Channels(pipes, channels, rr);
    var picked := Picked(Orthogonal(), order);
    ChannelsAre(pipes, channels, rr);
    PickedAre(Orthogonal(), order);
    forall i: nat | i < |picked| ensures picked[i] < Used(pipes, channels) {
      assert picked[i] in picked;
    }
    forall i, j | 0 <= i < j < |picked| ensures picked[i] != picked[j] {
      assert !Couples(Orthogonal(), picked[i], picked[j]);
    }
    DistinctBelow(picked, Used(pipes, channels));
    forall x: nat | x < Used(pipes, channels) ensures Reached(picked, x, 0) {
      assert Near(Orthogonal(), picked, x);
      var i: nat :| i < |picked| && picked[i] == x;
      assert Reaches(picked, i, x, 0);
    }
    CoverIsLong(picked, Used(pipes, channels), 0);
  }

  lemma LeaksToNeighbour(a: nat, x: nat)
    ensures Couples(AdjacentLeak(), a, x) <==> a <= x + 1 && x <= a + 1
  {
    assert AdjacentLeak()(a, x)
        == if a == x then 1.0
           else if Abs(a - x) == 1 then 0.2
           else if Abs(a - x) == 2 then 0.04
           else 0.0;
  }

  /** Each channel tried is the one after the last, or the first again. */
  predicate Ascending(order: seq<nat>) {
    forall k | 0 < k < |order| :: order[k] == 0 || order[k] == order[k - 1] + 1
  }

  lemma NextMod(i: nat, n: nat)
    requires n > 0
    ensures (i + 1) % n == 0 || (i + 1) % n == i % n + 1
  {
    var q, r := i / n, i % n;
    assert i + 1 == q * n + (r + 1);
    if r + 1 == n {
      assert i + 1 == (q + 1) * n;
      MultipleMod(q + 1, 0, n);
    } else {
      MultipleMod(q, r + 1, n);
    }
  }

  lemma MultipleIsLarge(d: int, n: nat)
    requires d != 0
    ensures d * n >= n || d * n <= -(n as int)
  {
    if d >= 1 {
      assert (d - 1) * n >= 0;
    } else {
      assert (-1 - d) * n >= 0;
    }
  }

  lemma MultipleMod(q: nat, r: nat, n: nat)
    requires r < n
    ensures (q * n + r) % n == r
  {
    var x := q * n + r;
    var k, m := x / n, x % n;
    assert x == k * n + m;
    assert (q - k) * n == q * n - k * n;
    if q != k { MultipleIsLarge(q - k, n); }
  }

  lemma NextChannel(i: nat, channels: nat)
    requires channels > 0
    ensures ChannelOf(i + 1, channels) == 0 || ChannelOf(i + 1, channels) == ChannelOf(i, channels) + 1
  {
    NextMod(i, channels);
    NextMod(i % channels, 256);
  }

  lemma OrderAscends(pipes: nat, channels: nat, rr: nat)
    requires rr < pipes && channels > 0
    ensures Ascending(Channels(pipes, channels, rr)) && |Channels(pipes, channels, rr)| == pipes
    ensures Channels(pipes, channels, rr)[0] == ChannelOf(rr, channels)
  {
    hide ChannelOf;
    var order := Channels(pipes, channels, rr);
    TriedAt(pipes, channels, rr, 0);
    forall k: nat | 0 < k < |order| ensures order[k] == 0 || order[k] == order[k - 1] + 1 {
      TriedAt(pipes, channels, rr, k);
      TriedAt(pipes, channels, rr, k - 1);
      if k == pipes - rr {
        ChannelSmall(0, channels);
      } else {
        NextChannel(Place(pipes, rr, k - 1), channels);
      }
    }
  }

  /** The pipe tried `k`-th. */
  function Place(pipes: nat, rr: nat, k: nat): nat {
    if rr + k < pipes then rr + k else rr + k - pipes
  }

  lemma TriedAt(pipes: nat, channels: nat, rr: nat, k: nat)
    requires rr < pipes && k < pipes
    ensures |Channels(pipes, channels, rr)| == pipes
    ensures Channels(pipes, channels, rr)[k] == ChannelOf(Place(pipes, rr, k), channels)
  {
    hide ChannelOf;
  }

  /** The channels picked: every other one from `s` on, `nb` of them, and from 0 on, `na`. */
  predicate InShape(s: nat, na: nat, nb: nat, x: nat) {
    || (x % 2 == 0 && x < 2 * na)
    || (x >= s && (x - s) % 2 == 0 && x < s + 2 * nb)
  }

  ghost predicate Shape(picked: seq<nat>, s: nat, na: nat, nb: nat) {
    && nb > 0 && 2 * na <= s && |picked| == na + nb
    && forall x: nat :: x in picked <==> InShape(s, na, nb, x)
  }

  /** The shape grows by the next of either row. */
  lemma ShapeGrows(picked: seq<nat>, s: nat, na: nat, nb: nat, c: nat) returns (na': nat, nb': nat)
    requires Shape(picked, s, na, nb)
    requires forall a | a in picked :: a > c + 1 || c > a + 1
    requires c == 0 || c - 2 in picked
    ensures Shape(picked + [c], s, na', nb')
  {
    assert InShape(s, na, nb, s);
    assert s in picked;
    if c < s {
      assert c == 2 * na by {
        if c != 0 { assert InShape(s, na, nb, c - 2); }
        assert c !in picked;
        assert !InShape(s, na, nb, c);
      }
      na', nb' := na + 1, nb;
    } else {
      assert c == s + 2 * nb by {
        assert InShape(s, na, nb, c - 2);
        assert c !in picked;
        assert !InShape(s, na, nb, c);
      }
      na', nb' := na, nb + 1;
    }
    forall x: nat ensures x in picked + [c] <==> InShape(s, na', nb', x) {
      assert x in picked <==> InShape(s, na, nb, x);
    }
  }

  lemma NewIsApart(picked: seq<nat>, c: nat)
    requires !exists a | a in picked :: Couples(AdjacentLeak(), a, c)
    ensures forall a | a in picked :: a > c + 1 || c > a + 1
  {
    hide Couples;
    forall a | a in picked ensures a > c + 1 || c > a + 1 {
      LeaksToNeighbour(a, c);
    }
  }

  /** A channel tried and not coupled with any picked: two above one of them, or the first. */
  lemma NewIsTwoAbove(order: seq<nat>, c: nat)
    requires order != [] && (c == 0 || c == order[|order| - 1] + 1)
    requires !exists a | a in Picked(AdjacentLeak(), order) :: Couples(AdjacentLeak(), a, c)
    ensures c == 0 || c - 2 in Picked(AdjacentLeak(), order)
    ensures forall a | a in Picked(AdjacentLeak(), order) :: a > c + 1 || c > a + 1
  {
    hide Couples, Picked;
    var picked := Picked(AdjacentLeak(), order);
    NewIsApart(picked, c);
    if c != 0 {
      PickedAre(AdjacentLeak(), order);
      assert order[|order| - 1] in order;
      assert Near(AdjacentLeak(), picked, c - 1);
      var a :| a in picked && (a == c - 1 || Couples(AdjacentLeak(), a, c - 1));
      LeaksToNeighbour(a, c - 1);
    }
  }

  lemma {:induction false} ShapeOf(order: seq<nat>) returns (na: nat, nb: nat)
    requires order != [] && Ascending(order)
    ensures Shape(Picked(AdjacentLeak(), order), order[0], na, nb)
    decreases |order|
  {
    var n := |order| - 1;
    var rest, c := order[..n], order[n];
    hide Couples, Shape;
    if n == 0 {
      assert Picked(AdjacentLeak(), rest) == [];
      assert Picked(AdjacentLeak(), order) == [c];
      na, nb := 0, 1;
      OneShape(c);
    } else {
      na, nb := ShapeOf(rest);
      if !exists a | a in Picked(AdjacentLeak(), rest) :: Couples(AdjacentLeak(), a, c) {
        NewIsTwoAbove(rest, c);
        na, nb := ShapeGrows(Picked(AdjacentLeak(), rest), order[0], na, nb, c);
      }
    }
  }

  lemma OneShape(c: nat)
    ensures Shape([c], c, 0, 1)
  {
  }

  /** When nothing in use is left uncoupled both rows are complete. */
  lemma ShapeComplete(picked: seq<nat>, s: nat, na: nat, nb: nat, used: nat)
    requires Shape(picked, s, na, nb) && s < used
    requires forall x | x in picked :: x < used
    requires forall x: nat | x < used :: Near(AdjacentLeak(), picked, x)
    ensures |picked| == (used + 1 - s % 2) / 2
  {
    assert s + 2 * nb - 2 < used by { assert InShape(s, na, nb, s + 2 * nb - 2); }
    if 2 * na + 2 <= s { NotNear(picked, s, na, nb, 2 * na); }
    if s + 2 * nb < used { NotNear(picked, s, na, nb, s + 2 * nb); }
  }

  lemma NotNear(picked: seq<nat>, s: nat, na: nat, nb: nat, x: nat)
    requires Shape(picked, s, na, nb) && (x == s + 2 * nb || (x == 2 * na && x + 2 <= s))
    ensures !Near(AdjacentLeak(), picked, x)
  {
    forall a: nat | a in picked ensures a != x && !Couples(AdjacentLeak(), a, x) {
      assert InShape(s, na, nb, a);
      LeaksToNeighbour(a, x);
    }
  }

  /** With leakage neighbouring channels still collide: half of the channels in use carry a pipe,
      rounded up if the slot starts on an even channel and down if on an odd one. */
  lemma LeakageTax(pipes: nat, channels: nat, rr: nat)
    requires rr < pipes && channels > 0
    ensures |Picked(AdjacentLeak(), Channels(pipes, channels, rr))|
         == (Used(pipes, channels) + 1 - ChannelOf(rr, channels) % 2) / 2
  {
    var order := Channels(pipes, channels, rr);
    var picked := Picked(AdjacentLeak(), order);
    ChannelsAre(pipes, channels, rr);
    OrderAscends(pipes, channels, rr);
    PickedAre(AdjacentLeak(), order);
    ChannelBelow(rr, pipes, channels);
    var na, nb := ShapeOf(order);
    hide Used, Channels, Couples, Shape, Picked, ChannelOf;
    ShapeComplete(picked, order[0], na, nb, Used(pipes, channels));
  }

  /** Every slot carries as many pipes, whichever pipe it starts at. */
  ghost predicate StartIsImmaterial(coupling: Coupling, pipes: nat, channels: nat) {
    forall a, b | 0 <= a < b < pipes ::
      |Picked(coupling, Channels(pipes, channels, a))| == |Picked(coupling, Channels(pipes, channels, b))|
  }

  lemma HalfOfEven(used: nat, odd: nat)
    requires odd < 2 && (used % 2 == 0 || odd == 0)
    ensures (used + 1 - odd) / 2 == (used + 1) / 2
  {
  }

  lemma FirstTwoChannels(pipes: nat, channels: nat)
    requires Used(pipes, channels) > 1
    ensures pipes > 1 && ChannelOf(0, channels) == 0 && ChannelOf(1, channels) == 1
  {
    ChannelSmall(0, channels);
    ChannelSmall(1, channels);
  }

  lemma CountWhereImmaterial(pipes: nat, channels: nat, rr: nat)
    requires rr < pipes && channels > 0 && (Used(pipes, channels) % 2 == 0 || Used(pipes, channels) == 1)
    ensures |Picked(AdjacentLeak(), Channels(pipes, channels, rr))| == (Used(pipes, channels) + 1) / 2
  {
    hide Channels, Picked, Used, ChannelOf;
    LeakageTax(pipes, channels, rr);
    ChannelBelow(rr, pipes, channels);
    HalfOfEven(Used(pipes, channels), ChannelOf(rr, channels) % 2);
  }

  /** With leakage where a slot starts is immaterial exactly when the channels in use are even in
      number, or only one. */
  lemma StartIsImmaterialExactlyWhen(pipes: nat, channels: nat)
    requires channels > 0
    ensures StartIsImmaterial(AdjacentLeak(), pipes, channels)
       <==> Used(pipes, channels) % 2 == 0 || Used(pipes, channels) == 1
  {
    var used := Used(pipes, channels);
    if used % 2 == 0 || used == 1 {
      forall a, b | 0 <= a < b < pipes
        ensures |Picked(AdjacentLeak(), Channels(pipes, channels, a))|
             == |Picked(AdjacentLeak(), Channels(pipes, channels, b))|
      {
        CountWhereImmaterial(pipes, channels, a);
        CountWhereImmaterial(pipes, channels, b);
      }
    } else {
      FirstTwoChannels(pipes, channels);
      LeakageTax(pipes, channels, 0);
      LeakageTax(pipes, channels, 1);
      hide Channels, Picked, Used, ChannelOf;
    }
  }

  // ---- The simulation ---------------------------------------------------------------------------

  /** One slot: each pipe in turn transmits unless one that does is coupled with it. */
  method PlayRound(chan: seq<nat>, coupling: Coupling, rr: nat) returns (active: seq<nat>)
    requires rr < |chan|
    ensures active == Picked(coupling, Turned(chan, rr))
  {
    hide Turned;
    ghost var order := Turned(chan, rr);
    active := [];
    for k := 0 to |chan|
      invariant |order| == |chan| && active == Picked(coupling, order[..k])
    {
      PipeTried(chan, rr, k);
      var c := chan[(k + rr) % |chan|];
      assert order[..k + 1][..k] == order[..k] && order[..k + 1][k] == c;
      var clash := exists a | a in active :: Couples(coupling, a, c);
      if !clash {
        active := active + [c];
      }
    }
    assert order[..|chan|] == order;
  }

  /** How many transmissions the pipes make in `slots` slots, the first of which starts at pipe
      `rr`. */
  function Total(pipes: nat, channels: nat, coupling: Coupling, rr: nat, slots: nat): nat
    requires rr < pipes
    decreases slots
  {
    if slots == 0 then 0
    else
      var active := Picked(coupling, Channels(pipes, channels, rr));
      |active| + Total(pipes, channels, coupling, After(rr, pipes), slots - 1)
  }

  function After(rr: nat, pipes: nat): (next: nat)
    requires rr < pipes
    ensures next < pipes
  {
    (rr + 1) % pipes
  }

  /** How many pipes transmit in a slot that starts at the pipe. */
  function StartingAt(pipes: nat, channels: nat, coupling: Coupling, start: nat): nat {
    if start < pipes then |Picked(coupling, Channels(pipes, channels, start))| else 0
  }

  /** The same for `slots` slots, the `k`-th starting `k` pipes after `rr`. */
  function PerSlot(pipes: nat, channels: nat, coupling: Coupling, rr: nat, slots: nat): (counts: seq<nat>)
    requires pipes > 0
    ensures |counts| == slots
  {
    seq<nat>(slots, (k: int) requires 0 <= k < slots => StartingAt(pipes, channels, coupling, (rr + k) % pipes))
  }

  lemma NextStart(pipes: nat, rr: nat, k: nat)
    requires rr < pipes
    ensures (rr + (k + 1)) % pipes == (After(rr, pipes) + k) % pipes
  {
    var x := rr + 1;
    if x == pipes {
      MultipleMod(1, 0, pipes);
      assert After(rr, pipes) == 0;
      var q, r := k / pipes, k % pipes;
      assert k == q * pipes + r;
      assert rr + (k + 1) == (q + 1) * pipes + r;
      MultipleMod(q + 1, r, pipes);
    } else {
      SmallMod(x, pipes);
    }
  }

  lemma {:induction false} SumFromFirst(s: seq<nat>)
    requires s != []
    ensures Sum(s) == s[0] + Sum(s[1..])
    decreases |s|
  {
    if |s| > 1 {
      var n := |s| - 1;
      SumFromFirst(s[..n]);
      assert s[..n][1..] == s[1..][..n - 1];
    }
  }

  /** Every pipe has its turn to start: the total is over slots that start at one pipe after the
      other, round the end. */
  lemma {:induction false} TotalIs(pipes: nat, channels: nat, coupling: Coupling, rr: nat, slots: nat)
    requires rr < pipes
    ensures Total(pipes, channels, coupling, rr, slots) == Sum(PerSlot(pipes, channels, coupling, rr, slots))
    decreases slots
  {
    hide Picked, Channels, Sum, After;
    if slots > 0 {
      TotalIs(pipes, channels, coupling, After(rr, pipes), slots - 1);
      SmallMod(rr, pipes);
      PerSlotRest(pipes, channels, coupling, rr, slots);
      SumFromFirst(PerSlot(pipes, channels, coupling, rr, slots));
    } else {
      NoSlots();
    }
  }

  lemma NoSlots()
    ensures Sum([]) == 0
  {
  }

  lemma PerSlotRest(pipes: nat, channels: nat, coupling: Coupling, rr: nat, slots: nat)
    requires rr < pipes && slots > 0
    ensures PerSlot(pipes, channels, coupling, rr, slots)[0] == StartingAt(pipes, channels, coupling, rr)
    ensures PerSlot(pipes, channels, coupling, rr, slots)[1..]
         == PerSlot(pipes, channels, coupling, After(rr, pipes), slots - 1)
  {
    hide StartingAt, After;
    SmallMod(rr, pipes);
    var counts, rest := PerSlot(pipes, channels, coupling, rr, slots),
                        PerSlot(pipes, channels, coupling, After(rr, pipes), slots - 1);
    forall k: nat | k < slots - 1 ensures counts[1..][k] == rest[k] {
      NextStart(pipes, rr, k);
    }
  }

  /** On orthogonal channels the aggregate is the slots times the channels in use. */
  lemma {:induction false} OrthogonalTotal(pipes: nat, channels: nat, rr: nat, slots: nat)
    requires rr < pipes && channels > 0
    ensures Total(pipes, channels, Orthogonal(), rr, slots) == slots * Used(pipes, channels)
    decreases slots
  {
    hide Picked, Channels, Used, After;
    if slots > 0 {
      OrthogonalScales(pipes, channels, rr);
      OrthogonalTotal(pipes, channels, After(rr, pipes), slots - 1);
      MulStep(slots - 1, Used(pipes, channels));
    }
  }

  /** With leakage it is half of that, rounded up or down in each slot. */
  lemma {:induction false} LeakyTotal(pipes: nat, channels: nat, rr: nat, slots: nat)
    requires rr < pipes && channels > 0
    ensures slots * (Used(pipes, channels) / 2) <= Total(pipes, channels, AdjacentLeak(), rr, slots)
    ensures Total(pipes, channels, AdjacentLeak(), rr, slots) <= slots * ((Used(pipes, channels) + 1) / 2)
    decreases slots
  {
    hide Picked, Channels, Used, After;
    if slots > 0 {
      LeakageTax(pipes, channels, rr);
      LeakyTotal(pipes, channels, After(rr, pipes), slots - 1);
      MulStep(slots - 1, Used(pipes, channels) / 2);
      MulStep(slots - 1, (Used(pipes, channels) + 1) / 2);
    }
  }

  method CountPipes(pipes: nat, channels: nat, coupling: Coupling, slots: nat) returns (total: nat)
    requires pipes > 0 && channels > 0
    ensures total == Total(pipes, channels, coupling, 0, slots)
  {
    hide Picked, Assigned, Turned;
    var chan := Assigned(pipes, channels);
    total := 0;
    var rr: nat := 0;
    ghost var left := slots;
    for slot := 0 to slots
      invariant rr < pipes && left == slots - slot
      invariant total + Total(pipes, channels, coupling, rr, left) == Total(pipes, channels, coupling, 0, slots)
    {
      var active := PlayRound(chan, coupling, rr);
      total := total + |active|;
      rr := After(rr, pipes);
      left := left - 1;
    }
  }

  /** Aggregate deliveries per slot. */
  method ParallelPipes(pipes: nat, channels: nat, coupling: Coupling) returns (perSlot: real)
    requires pipes > 0 && channels > 0
    ensures perSlot == Total(pipes, channels, coupling, 0, 20000) as real / 20000.0
  {
    var total := CountPipes(pipes, channels, coupling, SLOTS);
    perSlot := total as real / SLOTS as real;
  }
}
