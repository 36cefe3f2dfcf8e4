/**
 One generation of packets spread from node 0 over a graph, in rounds. Each round every willing
 node that overhearing does not suppress puts one packet on air, and each neighbour that does not
 lose it takes what is new. The specification goes by receiver, the loops by sender. Losses are
 an arbitrary function of the round, the sender and the receiver.
 */
module Dissemination {
  import opened Gf2
  import opened Sums
  import opened Basics
  import Bfs

  const BUDGET: nat := 32
  const C: nat := 2
  const MAXR: nat := 240

  /** The graph, its CCLF timers, the mode and the losses. */
  datatype Setup = Setup(nbr: seq<seq<nat>>, jitter: seq<int>, coded: bool, cclf: bool,
                         lost: (nat, nat, nat) -> bool)
  {
    predicate Valid() {
      && 0 < |nbr| == |jitter|
      && forall i | 0 <= i < |nbr| :: NoRepeats(nbr[i]) && forall j | j in nbr[i] :: j < |nbr|
    }
  }

  predicate NoRepeats(s: seq<nat>) {
    forall a, b | 0 <= a < b < |s| :: s[a] != s[b]
  }

  /** What a node knows: its coding basis, or the packets it has. */
  datatype Node = Node(basis: Basis, have: set<nat>)

  datatype State = State(nodes: seq<Node>, sent: seq<nat>)

  predicate Sound(node: Node) {
    Echelon(node.basis) && Below(node.have, G)
  }

  predicate Fits(u: Setup, s: State) {
    && |s.nodes| == |u.nbr| == |u.jitter| == |s.sent|
    && (forall i | 0 <= i < |s.nodes| :: Sound(s.nodes[i]))
    && u.Valid()
  }

  /** The first `k` packets. */
  function Packets(k: nat): (all: set<nat>)
    ensures forall b: nat :: b in all <==> b < k
  {
    if k == 0 then {} else Packets(k - 1) + {k - 1}
  }

  predicate Decoded(coded: bool, node: Node) {
    if coded then Rank(node.basis) >= G else node.have == Packets(G)
  }

  predicate KnowsSome(coded: bool, node: Node) {
    if coded then Rank(node.basis) > 0 else node.have != {}
  }

  /** The sender has something the receiver needs. */
  predicate Supplies(coded: bool, from: Node, to: Node)
    requires Sound(from) && Sound(to)
  {
    if coded then Helps(from.basis, to.basis) else from.have - to.have != {}
  }

  predicate Offers(u: Setup, s: State, i: nat)
    requires Fits(u, s) && i < |u.nbr|
  {
    exists j | j in u.nbr[i] :: Supplies(u.coded, s.nodes[i], s.nodes[j])
  }

  predicate Wants(u: Setup, s: State, i: nat)
    requires Fits(u, s) && i < |u.nbr|
  {
    s.sent[i] < BUDGET && KnowsSome(u.coded, s.nodes[i]) && Offers(u, s, i)
  }

  /** How many of the listed nodes satisfy `p`. */
  function Count(list: seq<nat>, p: nat -> bool): nat
    decreases |list|
  {
    if list == [] then 0
    else Count(list[..|list| - 1], p) + (if p(list[|list| - 1]) then 1 else 0)
  }

  lemma {:induction false} CountPositive(list: seq<nat>, p: nat -> bool)
    ensures Count(list, p) > 0 <==> exists j | j in list :: p(j)
    decreases |list|
  {
    if list != [] {
      var rest, last := list[..|list| - 1], list[|list| - 1];
      CountPositive(rest, p);
      assert list == rest + [last];
      assert last in list;
    }
  }

  function Earlier(u: Setup, s: State, i: nat): nat -> bool
    requires Fits(u, s) && i < |u.nbr|
  {
    (j: nat) => j < |u.nbr| && Wants(u, s, j) && u.jitter[j] < u.jitter[i]
  }

  /** Willing and not suppressed: fewer than `C` willing neighbours have an earlier timer. */
  predicate Transmits(u: Setup, s: State, i: nat)
    requires Fits(u, s) && i < |u.nbr|
  {
    Wants(u, s, i) && (u.cclf ==> Count(u.nbr[i], Earlier(u, s, i)) < C)
  }

  // ---- A round ----------------------------------------------------------------------------

  function Lacks(nodes: seq<Node>, b: nat): nat -> bool {
    (j: nat) => j < |nodes| && b !in nodes[j].have
  }

  /** How many neighbours of `i` lack packet `b`. */
  function Lacking(u: Setup, s: State, i: nat, b: nat): nat
    requires Fits(u, s) && i < |u.nbr|
  {
    Count(u.nbr[i], Lacks(s.nodes, b))
  }

  /** The packet of `i` that most neighbours lack; of equals, the lowest. */
  predicate IsPick(u: Setup, s: State, i: nat, b: nat)
    requires Fits(u, s) && i < |u.nbr|
  {
    b in s.nodes[i].have && forall c | c in s.nodes[i].have :: Behind(u, s, i, c, b)
  }

  predicate Behind(u: Setup, s: State, i: nat, c: nat, b: nat)
    requires Fits(u, s) && i < |u.nbr|
  {
    || Lacking(u, s, i, c) < Lacking(u, s, i, b)
    || (Lacking(u, s, i, c) == Lacking(u, s, i, b) && b <= c)
  }

  ghost function Pick(u: Setup, s: State, i: nat): nat
    requires Fits(u, s) && i < |u.nbr|
  {
    if exists b: nat :: IsPick(u, s, i, b) then
      var b: nat :| IsPick(u, s, i, b);
      b
    else 0
  }

  lemma PickUnique(u: Setup, s: State, i: nat, b: nat)
    requires Fits(u, s) && i < |u.nbr| && IsPick(u, s, i, b)
    ensures Pick(u, s, i) == b
  {
    var c := Pick(u, s, i);
    assert IsPick(u, s, i, c);
    assert Behind(u, s, i, b, c) && Behind(u, s, i, c, b);
  }

  /** What `to` knows after one packet of `from`; `pick` is the plain packet on air. */
  function Take(coded: bool, to: Node, from: Node, pick: nat): (node: Node)
    requires Sound(from) && Sound(to)
    ensures Sound(node)
  {
    if coded then
      RecodingGainsIffHelps(to.basis, from.basis);
      to.(basis := Recoded(to.basis, from.basis))
    else if pick in from.have then to.(have := to.have + {pick})
    else to
  }

  /** What `j` knows once the senders before `i` have had their turn in round `r`, all of them
      sending from what they knew when the round began. */
  ghost function Heard(u: Setup, r: nat, s: State, j: nat, i: nat): (node: Node)
    requires Fits(u, s) && j < |u.nbr| && i <= |u.nbr|
    ensures Sound(node)
    decreases i
  {
    if i == 0 then s.nodes[j]
    else
      var before := Heard(u, r, s, j, i - 1);
      if Transmits(u, s, i - 1) && j in u.nbr[i - 1] && !u.lost(r, i - 1, j)
      then Take(u.coded, before, s.nodes[i - 1], Pick(u, s, i - 1))
      else before
  }

  function SentNow(u: Setup, s: State, i: nat): nat
    requires Fits(u, s) && i < |u.nbr|
  {
    s.sent[i] + if Transmits(u, s, i) then 1 else 0
  }

  ghost function Next(u: Setup, r: nat, s: State): (t: State)
    requires Fits(u, s)
    ensures Fits(u, t)
  {
    State(seq(|u.nbr|, j requires 0 <= j < |u.nbr| => Heard(u, r, s, j, |u.nbr|)),
          seq(|u.nbr|, i requires 0 <= i < |u.nbr| => SentNow(u, s, i)))
  }

  lemma NextAt(u: Setup, r: nat, s: State, i: nat)
    requires Fits(u, s) && i < |u.nbr|
    ensures Next(u, r, s).nodes[i] == Heard(u, r, s, i, |u.nbr|) && Next(u, r, s).sent[i] == SentNow(u, s, i)
  {
    hide Heard, SentNow;
  }

  predicate Quiet(u: Setup, s: State)
    requires Fits(u, s)
  {
    forall i | 0 <= i < |u.nbr| :: !Wants(u, s, i)
  }

  // ---- Runs -------------------------------------------------------------------------------

  function Identity(): (b: Basis)
    ensures Echelon(b)
  {
    seq(G, p requires 0 <= p < G => {p})
  }

  function Nothing(): (b: Basis)
    ensures Echelon(b)
  {
    seq(G, p requires 0 <= p < G => {})
  }

  /** The source starts with everything, the others with nothing. */
  function Origin(coded: bool, i: nat): (node: Node)
    ensures Sound(node)
  {
    Node(if i == 0 && coded then Identity() else Nothing(), if i == 0 then Packets(G) else {})
  }

  function Start(u: Setup): (s: State)
    requires u.Valid()
    ensures Fits(u, s)
  {
    State(seq(|u.nbr|, i requires 0 <= i < |u.nbr| => Origin(u.coded, i)),
          seq(|u.nbr|, i requires 0 <= i < |u.nbr| => 0))
  }

  /** The state after `k` rounds. */
  ghost function After(u: Setup, k: nat): (s: State)
    requires u.Valid()
    ensures Fits(u, s)
    decreases k
  {
    if k == 0 then Start(u) else Next(u, k - 1, After(u, k - 1))
  }

  /** A route the packets can take, from the source. */
  predicate Route(u: Setup, p: seq<nat>) {
    Bfs.Walk(u.nbr, p) && p[0] == 0
  }

  ghost predicate Connected(u: Setup, i: nat) {
    Bfs.Connected(u.nbr, 0, i)
  }

  lemma LinkConnects(u: Setup, i: nat, j: nat)
    requires Connected(u, i) && Bfs.Edge(u.nbr, i, j)
    ensures Connected(u, j)
  {
    var p :| Bfs.Path(u.nbr, p, 0, i);
    assert Bfs.Path(u.nbr, p + [j], 0, j);
  }

  lemma {:induction false} RankPositive(b: seq<Vec>)
    ensures Rank(b) > 0 <==> exists p | 0 <= p < |b| :: b[p] != {}
    decreases |b|
  {
    if b != [] { RankPositive(b[..|b| - 1]); }
  }

  /** Every combination of the sixteen packets. */
  ghost predicate SpansAll(b: Basis) {
    forall x: Vec | (forall q | q in x :: q < 16) :: InSpan(b, x)
  }

  lemma RankSpansAll(b: Basis)
    requires Echelon(b)
    ensures Rank(b) >= G <==> SpansAll(b)
  {
    RankBound(b);
    FullRankIsEverything(b);
    hide InSpan, Rank;
    if Rank(b) >= G {
      forall x: Vec | (forall q | q in x :: q < 16) ensures InSpan(b, x) {
        assert Below(x, G);
      }
    }
    if SpansAll(b) {
      forall x: Vec | Below(x, G) ensures InSpan(b, x) {
        assert forall q | q in x :: q < 16;
      }
    }
  }

  /** Coded, every combination of the sixteen packets is within the node's span; plain, it has every
      packet. */
  ghost predicate HasEverything(coded: bool, node: Node) {
    if coded then SpansAll(node.basis) else forall b: nat | b < 16 :: b in node.have
  }

  /** To have decoded is to have everything. */
  lemma DecodedIsEverything(coded: bool, node: Node)
    requires Sound(node)
    ensures Decoded(coded, node) <==> HasEverything(coded, node)
  {
    if coded {
      RankSpansAll(node.basis);
    } else {
      assert forall b | b in node.have :: b < 16;
      if HasEverything(coded, node) { assert node.have == Packets(G); }
    }
  }

  // ---- Quiescence means success -----------------------------------------------------------

  lemma DecodedSpreads(coded: bool, from: Node, to: Node)
    requires Sound(from) && Sound(to) && Decoded(coded, from) && !Supplies(coded, from, to)
    ensures Decoded(coded, to)
  {
    if coded {
      RankBound(from.basis);
      FullRankIsEverything(from.basis);
      HelpsIsNonContainment(from.basis, to.basis);
      FullRankIsEverything(to.basis);
    } else {
      assert to.have == Packets(G);
    }
  }

  lemma DecodedKnows(coded: bool, node: Node)
    requires Decoded(coded, node)
    ensures KnowsSome(coded, node)
  {
    assert 0 in Packets(G);
  }

  lemma {:induction false} DecodedAlong(u: Setup, s: State, p: seq<nat>)
    requires Fits(u, s) && Quiet(u, s) && Unspent(s.sent)
    requires Decoded(u.coded, s.nodes[0]) && Route(u, p)
    ensures p[|p| - 1] < |u.nbr| && Decoded(u.coded, s.nodes[p[|p| - 1]])
    decreases |p|
  {
    var n := |p| - 1;
    if n > 0 {
      DecodedAlong(u, s, p[..n]);
      var i, j := p[n - 1], p[n];
      assert Bfs.Edge(u.nbr, i, j) && !Wants(u, s, i);
      DecodedKnows(u.coded, s.nodes[i]);
      DecodedSpreads(u.coded, s.nodes[i], s.nodes[j]);
    }
  }

  // ---- Knowledge only grows, and only along links -------------------------------------------

  ghost predicate Grown(was: Node, now: Node) {
    was.have <= now.have && Contained(was.basis, now.basis)
  }

  lemma {:induction false} HeardGrows(u: Setup, r: nat, s: State, j: nat, i: nat)
    requires Fits(u, s) && j < |u.nbr| && i <= |u.nbr|
    ensures Grown(s.nodes[j], Heard(u, r, s, j, i))
    decreases i
  {
    if i > 0 {
      HeardGrows(u, r, s, j, i - 1);
      RecodingGainsIffHelps(Heard(u, r, s, j, i - 1).basis, s.nodes[i - 1].basis);
    }
  }

  lemma DecodedStays(coded: bool, was: Node, now: Node)
    requires Sound(was) && Sound(now) && Grown(was, now) && Decoded(coded, was)
    ensures Decoded(coded, now)
  {
    if coded {
      ContainedRank(was.basis, now.basis);
    } else {
      assert now.have == Packets(G);
    }
  }

  /** A node that has decoded never loses it. */
  lemma {:induction false} DecodedForever(u: Setup, k: nat, later: nat, i: nat)
    requires u.Valid() && i < |u.nbr| && k <= later && Decoded(u.coded, After(u, k).nodes[i])
    ensures Decoded(u.coded, After(u, later).nodes[i])
    decreases later - k
  {
    hide Next, Start, Decoded, Grown, Sound;
    if k < later {
      var s := After(u, later - 1);
      DecodedForever(u, k, later - 1, i);
      NextAt(u, later - 1, s, i);
      HeardGrows(u, later - 1, s, i, |u.nbr|);
      DecodedStays(u.coded, s.nodes[i], After(u, later).nodes[i]);
    }
  }

  ghost predicate OnlyConnectedKnow(u: Setup, s: State)
    requires Fits(u, s)
  {
    forall i: nat | i < |u.nbr| && KnowsSome(u.coded, s.nodes[i]) :: Connected(u, i)
  }

  lemma {:induction false} HeardOnlyIfConnected(u: Setup, r: nat, s: State, j: nat, i: nat)
    requires Fits(u, s) && j < |u.nbr| && i <= |u.nbr| && OnlyConnectedKnow(u, s)
    requires KnowsSome(u.coded, Heard(u, r, s, j, i))
    ensures Connected(u, j)
    decreases i
  {
    if i > 0 {
      if Transmits(u, s, i - 1) && j in u.nbr[i - 1] {
        LinkConnects(u, i - 1, j);
      } else {
        HeardOnlyIfConnected(u, r, s, j, i - 1);
      }
    }
  }

  lemma OnlySourceKnows(u: Setup)
    requires u.Valid()
    ensures OnlyConnectedKnow(u, Start(u))
  {
    assert Bfs.Path(u.nbr, [0], 0, 0);
    assert Connected(u, 0);
    RankPositive(Nothing());
  }

  lemma NextOnlyIfConnected(u: Setup, r: nat, s: State)
    requires Fits(u, s) && OnlyConnectedKnow(u, s)
    ensures OnlyConnectedKnow(u, Next(u, r, s))
  {
    forall j: nat | j < |u.nbr| && KnowsSome(u.coded, Next(u, r, s).nodes[j]) ensures Connected(u, j) {
      HeardOnlyIfConnected(u, r, s, j, |u.nbr|);
    }
  }

  lemma {:induction false} OnlyConnectedEverKnow(u: Setup, k: nat)
    requires u.Valid()
    ensures OnlyConnectedKnow(u, After(u, k))
    decreases k
  {
    if k == 0 {
      OnlySourceKnows(u);
    } else {
      OnlyConnectedEverKnow(u, k - 1);
      NextOnlyIfConnected(u, k - 1, After(u, k - 1));
    }
  }

  lemma SourceDecoded(u: Setup)
    requires u.Valid()
    ensures Decoded(u.coded, Start(u).nodes[0])
  {
    RankBound(Identity());
  }

  /** When a run falls silent with no budget spent, exactly the nodes connected to the source
      have decoded. */
  lemma QuiescenceMeansSuccess(u: Setup, k: nat, i: nat)
    requires u.Valid() && i < |u.nbr| && Quiet(u, After(u, k)) && Unspent(After(u, k).sent)
    ensures Decoded(u.coded, After(u, k).nodes[i]) <==> Connected(u, i)
    ensures HasEverything(u.coded, After(u, k).nodes[i]) <==> Connected(u, i)
  {
    DecodedIsEverything(u.coded, After(u, k).nodes[i]);
    hide HasEverything;
    SourceDecoded(u);
    DecodedForever(u, 0, k, 0);
    OnlyConnectedEverKnow(u, k);
    if Connected(u, i) {
      var p :| Bfs.Path(u.nbr, p, 0, i);
      DecodedAlong(u, After(u, k), p);
    } else if Decoded(u.coded, After(u, k).nodes[i]) {
      DecodedKnows(u.coded, After(u, k).nodes[i]);
    }
  }

  // ---- Suppression never silences everyone --------------------------------------------------

  lemma {:induction false} EarliestExists(u: Setup, s: State, n: nat) returns (i: nat)
    requires Fits(u, s) && n <= |u.nbr| && exists j: nat :: j < n && Wants(u, s, j)
    ensures i < n && Wants(u, s, i)
    ensures forall j: nat | j < n && Wants(u, s, j) :: u.jitter[i] <= u.jitter[j]
    decreases n
  {
    var last := n - 1;
    if exists j: nat :: j < last && Wants(u, s, j) {
      i := EarliestExists(u, s, last);
      if Wants(u, s, last) && u.jitter[last] < u.jitter[i] {
        i := last;
      }
    } else {
      i := last;
    }
  }

  /** In every round with a willing node some node transmits, suppression or not. */
  lemma SomebodyTransmits(u: Setup, s: State) returns (i: nat)
    requires Fits(u, s) && !Quiet(u, s)
    ensures i < |u.nbr| && Transmits(u, s, i)
  {
    i := EarliestExists(u, s, |u.nbr|);
    CountPositive(u.nbr[i], Earlier(u, s, i));
  }

  // ---- Who is willing, and who is suppressed ----------------------------------------------------

  lemma {:induction false} CountIs(list: seq<nat>, p: nat -> bool)
    requires NoRepeats(list)
    ensures Count(list, p) == |set j | j in list && p(j)|
    decreases |list|
  {
    var all := set j | j in list && p(j);
    if list == [] {
      assert all == {};
    } else {
      var rest, last := list[..|list| - 1], list[|list| - 1];
      CountIs(rest, p);
      assert list == rest + [last];
      OneMoreSatisfies(rest, last, p);
      hide NoRepeats;
    }
  }

  lemma OneMoreSatisfies(rest: seq<nat>, last: nat, p: nat -> bool)
    requires NoRepeats(rest + [last])
    ensures |set j | j in rest + [last] && p(j)| == |set j | j in rest && p(j)| + (if p(last) then 1 else 0)
  {
    var list := rest + [last];
    forall i | 0 <= i < |rest| ensures rest[i] != last {
      assert list[i] == rest[i] && list[|rest|] == last;
    }
    var before := set j | j in rest && p(j);
    assert (set j | j in list && p(j)) == if p(last) then before + {last} else before;
    assert last !in before;
  }

  /** How many neighbours lack the packet. */
  lemma LackingIs(u: Setup, s: State, i: nat, b: nat)
    requires Fits(u, s) && i < |u.nbr|
    ensures Lacking(u, s, i, b) == |set j | j in u.nbr[i] && j < |s.nodes| && b !in s.nodes[j].have|
  {
    CountIs(u.nbr[i], Lacks(s.nodes, b));
    assert (set j | j in u.nbr[i] && Lacks(s.nodes, b)(j))
        == set j | j in u.nbr[i] && j < |s.nodes| && b !in s.nodes[j].have;
  }

  /** The sender has something that the receiver lacks. */
  ghost predicate HasMore(coded: bool, from: Node, to: Node) {
    if coded then exists x :: InSpan(from.basis, x) && !InSpan(to.basis, x)
    else exists b :: b in from.have && b !in to.have
  }

  lemma SuppliesIs(coded: bool, from: Node, to: Node)
    requires Sound(from) && Sound(to)
    ensures Supplies(coded, from, to) <==> HasMore(coded, from, to)
  {
    if coded {
      HelpsIsNonContainment(from.basis, to.basis);
    } else if HasMore(coded, from, to) {
      var b :| b in from.have && b !in to.have;
      assert b in from.have - to.have;
    }
  }

  /** A sender that has something for a receiver has something at all. */
  lemma MoreIsSome(coded: bool, from: Node, to: Node)
    requires Sound(from) && Sound(to) && HasMore(coded, from, to)
    ensures KnowsSome(coded, from)
  {
    if coded {
      var x :| InSpan(from.basis, x) && !InSpan(to.basis, x);
      ZeroInSpan(to.basis);
      SomeEntry(from.basis, x);
      RankPositive(from.basis);
    }
  }

  lemma {:induction false} SomeEntry(b: seq<Vec>, x: Vec)
    requires InSpan(b, x) && x != {}
    ensures exists p | 0 <= p < |b| :: b[p] != {}
    decreases |b|
  {
    var n := |b| - 1;
    if b[n] == {} {
      XorLaws(x, {}, {});
      SomeEntry(b[..n], x);
      var p :| 0 <= p < n && b[..n][p] != {};
      assert b[p] != {};
    }
  }

  /** A node is willing exactly when it has budget left and something that some neighbour lacks. */
  lemma WantsExactlyWhen(u: Setup, s: State, i: nat)
    requires Fits(u, s) && i < |u.nbr|
    ensures Wants(u, s, i)
       <==> s.sent[i] < 32 && exists j :: j in u.nbr[i] && j < |s.nodes| && HasMore(u.coded, s.nodes[i], s.nodes[j])
  {
    forall j | j in u.nbr[i]
      ensures j < |s.nodes| && (Supplies(u.coded, s.nodes[i], s.nodes[j]) <==> HasMore(u.coded, s.nodes[i], s.nodes[j]))
    {
      SuppliesIs(u.coded, s.nodes[i], s.nodes[j]);
    }
    hide Supplies, HasMore, KnowsSome;
    if j :| j in u.nbr[i] && j < |s.nodes| && HasMore(u.coded, s.nodes[i], s.nodes[j]) {
      MoreIsSome(u.coded, s.nodes[i], s.nodes[j]);
    }
  }

  /** The willing neighbours whose timers run out before the node's. */
  function Sooner(u: Setup, s: State, i: nat): set<nat>
    requires Fits(u, s) && i < |u.nbr|
  {
    set j | j in u.nbr[i] && j < |u.nbr| && Wants(u, s, j) && u.jitter[j] < u.jitter[i]
  }

  /** A willing node transmits exactly when it overhears fewer than two. */
  lemma TransmitsExactlyWhen(u: Setup, s: State, i: nat)
    requires Fits(u, s) && i < |u.nbr|
    ensures Transmits(u, s, i) <==> Wants(u, s, i) && (u.cclf ==> |Sooner(u, s, i)| < 2)
  {
    CountIs(u.nbr[i], Earlier(u, s, i));
    hide Wants;
    assert Sooner(u, s, i) == set j | j in u.nbr[i] && Earlier(u, s, i)(j);
  }

  /** All hear each other and all are willing. */
  predicate Clique(u: Setup, s: State)
    requires Fits(u, s)
  {
    && (forall i | 0 <= i < |u.nbr| :: Wants(u, s, i))
    && forall i, j | 0 <= i < |u.nbr| && 0 <= j < |u.nbr| && i != j :: j in u.nbr[i]
  }

  /** In a clique of willing nodes the two whose timers run out first transmit, and nobody else. */
  lemma CliqueTransmits(u: Setup, s: State, a: nat, b: nat, i: nat)
    requires Fits(u, s) && u.cclf && Clique(u, s) && a < |u.nbr| && b < |u.nbr| && a != b && i < |u.nbr|
    requires forall j | 0 <= j < |u.nbr| && j != a :: u.jitter[a] < u.jitter[j]
    requires forall j | 0 <= j < |u.nbr| && j != a && j != b :: u.jitter[b] < u.jitter[j]
    ensures Transmits(u, s, i) <==> i == a || i == b
  {
    TransmitsExactlyWhen(u, s, i);
    CliqueSooner(u, s, a, b, i);
    hide Transmits, Wants, Sooner, Clique;
    var sooner := Sooner(u, s, i);
    if i == b {
      SubsetCard(sooner, {a});
    } else if i != a {
      SubsetCard({a, b}, sooner);
    }
  }

  lemma CliqueSooner(u: Setup, s: State, a: nat, b: nat, i: nat)
    requires Fits(u, s) && Clique(u, s) && a < |u.nbr| && b < |u.nbr| && a != b && i < |u.nbr|
    requires forall j | 0 <= j < |u.nbr| && j != a :: u.jitter[a] < u.jitter[j]
    requires forall j | 0 <= j < |u.nbr| && j != a && j != b :: u.jitter[b] < u.jitter[j]
    ensures Wants(u, s, i)
    ensures var sooner := Sooner(u, s, i);
            if i == a then sooner == {} else if i == b then sooner <= {a} else {a, b} <= sooner
  {
    assert Wants(u, s, a) && Wants(u, s, b);
    hide Wants, Sound;
  }

  // ---- Nothing useless goes on air --------------------------------------------------------------

  lemma {:induction false} BestOf(u: Setup, s: State, i: nat, some: set<nat>) returns (b: nat)
    requires Fits(u, s) && i < |u.nbr| && some != {}
    ensures b in some && forall c | c in some :: Behind(u, s, i, c, b)
    decreases |some|
  {
    hide Lacking;
    var x :| x in some;
    var rest := some - {x};
    assert some == rest + {x};
    if rest == {} {
      b := x;
    } else {
      var y := BestOf(u, s, i, rest);
      b := if Behind(u, s, i, x, y) then y else x;
      forall c | c in some ensures Behind(u, s, i, c, b) {
        assert c == x || (c in rest && Behind(u, s, i, c, y));
      }
    }
  }

  lemma PickIsPick(u: Setup, s: State, i: nat)
    requires Fits(u, s) && i < |u.nbr| && s.nodes[i].have != {}
    ensures IsPick(u, s, i, Pick(u, s, i))
  {
    var b := BestOf(u, s, i, s.nodes[i].have);
    assert IsPick(u, s, i, b);
  }

  /** A willing node's packet is new to one of its neighbours: if it is received there, a coded
      receiver gains a rank, a plain one the packet on air. */
  lemma SomebodyLearns(u: Setup, s: State, i: nat) returns (j: nat)
    requires Fits(u, s) && i < |u.nbr| && Wants(u, s, i)
    ensures j in u.nbr[i]
    ensures var now := Take(u.coded, s.nodes[j], s.nodes[i], Pick(u, s, i));
            if u.coded then Rank(now.basis) == Rank(s.nodes[j].basis) + 1
            else Pick(u, s, i) !in s.nodes[j].have && now.have == s.nodes[j].have + {Pick(u, s, i)}
  {
    j :| j in u.nbr[i] && Supplies(u.coded, s.nodes[i], s.nodes[j]);
    if u.coded {
      RecodingGainsIffHelps(s.nodes[j].basis, s.nodes[i].basis);
    } else {
      var b :| b in s.nodes[i].have && b !in s.nodes[j].have;
      PickIsPick(u, s, i);
      j := LacksPick(u, s, i, j, b);
    }
  }

  lemma LacksPick(u: Setup, s: State, i: nat, j: nat, b: nat) returns (l: nat)
    requires Fits(u, s) && i < |u.nbr| && j in u.nbr[i] && b in s.nodes[i].have && b !in s.nodes[j].have
    requires IsPick(u, s, i, Pick(u, s, i))
    ensures l in u.nbr[i] && Pick(u, s, i) !in s.nodes[l].have
  {
    var pick := Pick(u, s, i);
    CountPositive(u.nbr[i], Lacks(s.nodes, b));
    assert Lacks(s.nodes, b)(j);
    assert Behind(u, s, i, b, pick);
    CountPositive(u.nbr[i], Lacks(s.nodes, pick));
    hide Count, Sound, Pick;
    l :| l in u.nbr[i] && Lacks(s.nodes, pick)(l);
  }

  // ---- Airtime --------------------------------------------------------------------------------

  predicate Unspent(sent: seq<nat>) {
    forall i | 0 <= i < |sent| :: sent[i] < BUDGET
  }

  predicate WithinBudget(sent: seq<nat>) {
    forall i | 0 <= i < |sent| :: sent[i] <= BUDGET
  }

  lemma {:induction false} SpentAtMost(sent: seq<nat>)
    requires WithinBudget(sent)
    ensures Sum(sent) <= |sent| * BUDGET
    decreases |sent|
  {
    if sent != [] { SpentAtMost(sent[..|sent| - 1]); }
  }

  // ---- The loops --------------------------------------------------------------------------------

  /** The plain packet on air: the one most neighbours lack. */
  method PlainPacket(u: Setup, s: State, i: nat) returns (best: nat)
    requires Fits(u, s) && i < |u.nbr| && s.nodes[i].have != {}
    ensures IsPick(u, s, i, best) && best == Pick(u, s, i)
  {
    var bestCount: int := -1;
    best := 0;
    for b := 0 to G
      invariant bestCount == -1 ==> forall c | c in s.nodes[i].have :: b <= c
      invariant bestCount != -1 ==> best in s.nodes[i].have && bestCount == Lacking(u, s, i, best) && best < b
      invariant bestCount != -1 ==> forall c | c in s.nodes[i].have && c < b :: Behind(u, s, i, c, best)
    {
      if b in s.nodes[i].have {
        var count := Lacking(u, s, i, b);
        if count > bestCount {
          bestCount, best := count, b;
        }
      }
    }
    var some :| some in s.nodes[i].have;
    PickUnique(u, s, i, best);
  }

  lemma HeardStep(u: Setup, r: nat, s: State, j: nat, i: nat, after: nat)
    requires Fits(u, s) && j < |u.nbr| && after == i + 1 <= |u.nbr|
    ensures Heard(u, r, s, j, after)
         == if Transmits(u, s, i) && j in u.nbr[i] && !u.lost(r, i, j)
            then Take(u.coded, Heard(u, r, s, j, i), s.nodes[i], Pick(u, s, i))
            else Heard(u, r, s, j, i)
  {
  }

  ghost predicate HeardUpTo(u: Setup, r: nat, s: State, nodes: seq<Node>, i: nat)
    requires Fits(u, s) && i <= |u.nbr|
  {
    |nodes| == |u.nbr| && forall j | 0 <= j < |nodes| :: nodes[j] == Heard(u, r, s, j, i)
  }

  lemma AllHeard(u: Setup, r: nat, s: State, i: nat, packet: nat, before: seq<Node>, nodes: seq<Node>)
    requires Fits(u, s) && i < |u.nbr| && Transmits(u, s, i) && HeardUpTo(u, r, s, before, i)
    requires u.coded || packet == Pick(u, s, i)
    requires |nodes| == |before| && forall j | 0 <= j < |nodes| ::
               Sound(before[j])
               && nodes[j] == if j in u.nbr[i] && !u.lost(r, i, j)
                              then Take(u.coded, before[j], s.nodes[i], packet) else before[j]
    ensures HeardUpTo(u, r, s, nodes, i + 1)
  {
    hide Heard, Transmits, Pick;
    forall j: nat | j < |nodes| ensures nodes[j] == Heard(u, r, s, j, i + 1) {
      HeardStep(u, r, s, j, i, i + 1);
    }
  }

  /** One sender's turn: each neighbour hears it or loses it. */
  method Broadcast(u: Setup, r: nat, s: State, i: nat, before: seq<Node>) returns (nodes: seq<Node>)
    requires Fits(u, s) && i < |u.nbr| && Transmits(u, s, i) && HeardUpTo(u, r, s, before, i)
    ensures HeardUpTo(u, r, s, nodes, i + 1)
  {
    assert KnowsSome(u.coded, s.nodes[i]);
    hide Heard, Transmits, Pick, Count;
    var packet := 0;
    if !u.coded {
      packet := PlainPacket(u, s, i);
    }
    nodes := before;
    var list := u.nbr[i];
    for k := 0 to |list|
      invariant |nodes| == |u.nbr|
      invariant forall j | 0 <= j < |nodes| :: j !in list[..k] ==> nodes[j] == before[j]
      invariant forall j | 0 <= j < |nodes| :: j in list[..k] ==>
        nodes[j] == if u.lost(r, i, j) then before[j] else Take(u.coded, before[j], s.nodes[i], packet)
    {
      var j := list[k];
      assert j in u.nbr[i];
      assert j !in list[..k];
      assert list[..k + 1] == list[..k] + [j];
      if !u.lost(r, i, j) {
        if u.coded {
          nodes := nodes[j := nodes[j].(basis := Recoded(nodes[j].basis, s.nodes[i].basis))];
        } else if packet in s.nodes[i].have && packet !in nodes[j].have {
          nodes := nodes[j := nodes[j].(have := nodes[j].have + {packet})];
        } else {
          assert nodes[j].have + {packet} == nodes[j].have;
        }
      }
    }
    assert list[..|list|] == list;
    AllHeard(u, r, s, i, packet, before, nodes);
  }

  lemma NextIs(u: Setup, r: nat, s: State, nodes: seq<Node>, sent: seq<nat>)
    requires Fits(u, s) && HeardUpTo(u, r, s, nodes, |u.nbr|) && |sent| == |u.nbr|
    requires forall i | 0 <= i < |u.nbr| :: sent[i] == SentNow(u, s, i)
    ensures State(nodes, sent) == Next(u, r, s)
  {
    assert nodes == Next(u, r, s).nodes;
    assert sent == Next(u, r, s).sent;
  }

  lemma SenderHasBudget(u: Setup, s: State, i: nat)
    requires Fits(u, s) && i < |u.nbr| && Transmits(u, s, i)
    ensures s.sent[i] < BUDGET
  {
  }

  lemma HeardNothing(u: Setup, r: nat, s: State)
    requires Fits(u, s)
    ensures HeardUpTo(u, r, s, s.nodes, 0)
  {
  }

  lemma HeardSilent(u: Setup, r: nat, s: State, nodes: seq<Node>, i: nat)
    requires Fits(u, s) && i < |u.nbr| && !Transmits(u, s, i) && HeardUpTo(u, r, s, nodes, i)
    ensures HeardUpTo(u, r, s, nodes, i + 1)
  {
    forall j: nat | j < |nodes| ensures nodes[j] == Heard(u, r, s, j, i + 1) {
      HeardStep(u, r, s, j, i, i + 1);
    }
  }

  /** One round; `total` is how many packets went on air. */
  method PlayRound(u: Setup, r: nat, s: State) returns (t: State, total: nat)
    requires Fits(u, s) && WithinBudget(s.sent)
    ensures t == Next(u, r, s) && WithinBudget(t.sent)
    ensures Sum(t.sent) == Sum(s.sent) + total
    ensures Quiet(u, s) || total > 0
  {
    hide Wants, Heard, Sound, HeardUpTo, Next, Sum;
    var tx := seq(|u.nbr|, i requires 0 <= i < |u.nbr| => Transmits(u, s, i));
    ghost var loud: nat := 0;
    if !Quiet(u, s) {
      loud := SomebodyTransmits(u, s);
    }
    var nodes, sent := s.nodes, s.sent;
    HeardNothing(u, r, s);
    total := 0;
    for i := 0 to |u.nbr|
      invariant HeardUpTo(u, r, s, nodes, i)
      invariant |sent| == |u.nbr| && WithinBudget(sent)
      invariant forall k | 0 <= k < |sent| :: sent[k] == if k < i then SentNow(u, s, k) else s.sent[k]
      invariant Sum(sent) == Sum(s.sent) + total
      invariant loud < i && !Quiet(u, s) ==> total > 0
    {
      if tx[i] {
        SenderHasBudget(u, s, i);
        SumUpdate(sent, i, sent[i] + 1);
        sent := sent[i := sent[i] + 1];
        total := total + 1;
        nodes := Broadcast(u, r, s, i, nodes);
      } else {
        HeardSilent(u, r, s, nodes, i);
      }
    }
    t := State(nodes, sent);
    NextIs(u, r, s, nodes, sent);
  }

  /** The nodes that have decoded. */
  method DecodedNodes(u: Setup, s: State) returns (decoded: set<nat>)
    requires Fits(u, s)
    ensures forall i: nat :: i in decoded <==> i < |u.nbr| && Decoded(u.coded, s.nodes[i])
  {
    hide Decoded, Sound;
    decoded := {};
    for i := 0 to |u.nbr|
      invariant forall j: nat :: j in decoded <==> j < i && Decoded(u.coded, s.nodes[j])
    {
      if Decoded(u.coded, s.nodes[i]) {
        decoded := decoded + {i};
      }
    }
  }

  /** These are the nodes that have everything. */
  ghost predicate ExactlyEverything(u: Setup, s: State, decoded: set<nat>)
    requires Fits(u, s)
  {
    forall i: nat :: i in decoded <==> i < |u.nbr| && HasEverything(u.coded, s.nodes[i])
  }

  lemma DecodedHaveEverything(u: Setup, s: State, decoded: set<nat>)
    requires Fits(u, s)
    requires forall i: nat :: i in decoded <==> i < |u.nbr| && Decoded(u.coded, s.nodes[i])
    ensures ExactlyEverything(u, s, decoded)
  {
    forall i: nat ensures i in decoded <==> i < |u.nbr| && HasEverything(u.coded, s.nodes[i]) {
      if i < |u.nbr| { DecodedIsEverything(u.coded, s.nodes[i]); }
    }
  }

  ghost predicate LoudBefore(u: Setup, rounds: nat)
    requires u.Valid()
  {
    forall k: nat | k < rounds :: !Quiet(u, After(u, k))
  }

  ghost predicate ExactlyConnected(u: Setup, decoded: set<nat>) {
    forall i: nat :: i in decoded <==> i < |u.nbr| && Connected(u, i)
  }

  lemma SilenceMeansSuccess(u: Setup, k: nat, decoded: set<nat>)
    requires u.Valid() && Quiet(u, After(u, k)) && Unspent(After(u, k).sent)
    requires forall i: nat :: i in decoded <==> i < |u.nbr| && Decoded(u.coded, After(u, k).nodes[i])
    ensures ExactlyConnected(u, decoded)
  {
    forall i: nat ensures i in decoded <==> i < |u.nbr| && Connected(u, i) {
      if i < |u.nbr| { QuiescenceMeansSuccess(u, k, i); }
    }
  }

  /** The whole run: who has decoded, the airtime, and whether the run fell silent before the
      round cap. Silence with no budget spent means that exactly the connected nodes decoded. */
  method Disseminate(u: Setup) returns (decoded: set<nat>, txTotal: nat, rounds: nat, quiet: bool)
    requires u.Valid()
    ensures rounds <= 240 && LoudBefore(u, rounds)
    ensures if quiet then Quiet(u, After(u, rounds)) else rounds == 240
    ensures txTotal == Sum(After(u, rounds).sent)
    ensures rounds <= txTotal <= |u.nbr| * 32
    ensures ExactlyEverything(u, After(u, rounds), decoded)
    ensures quiet && Unspent(After(u, rounds).sent) ==> ExactlyConnected(u, decoded)
  {
    hide Quiet, Next, Wants, Decoded, Sum;
    var s := Start(u);
    rounds, txTotal, quiet := 0, 0, false;
    SumZero(s.sent);
    while rounds < MAXR
      invariant rounds <= MAXR && Fits(u, s) && s == After(u, rounds) && WithinBudget(s.sent)
      invariant txTotal == Sum(s.sent) && rounds <= txTotal
      invariant LoudBefore(u, rounds)
      invariant !quiet
      decreases MAXR - rounds
    {
      if Quiet(u, s) {
        quiet := true;
        break;
      }
      var total;
      s, total := PlayRound(u, rounds, s);
      txTotal := txTotal + total;
      rounds := rounds + 1;
    }
    decoded := DecodedNodes(u, s);
    DecodedHaveEverything(u, s, decoded);
    SpentAtMost(s.sent);
    if quiet && Unspent(s.sent) {
      SilenceMeansSuccess(u, rounds, decoded);
    }
  }
}
