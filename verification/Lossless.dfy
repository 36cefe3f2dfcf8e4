/**
 Runs in which nothing is lost: no node sends more than one packet per packet of the generation,
 so the budget never binds, every run falls silent, and silence is success.
 */
module Lossless {
  import opened Basics
  import opened Sums
  import opened Gf2
  import opened Dissemination

  ghost predicate NoLoss(u: Setup) {
    forall r: nat, i: nat, j: nat :: !u.lost(r, i, j)
  }

  // ---- Coded: what sender and receiver have in common -------------------------------------------

  /** The two spans have at least `k` dimensions in common. */
  ghost predicate Shared(a: Basis, b: Basis, k: nat) {
    exists w: Basis :: IsCommon(w, a, b, k)
  }

  ghost predicate IsCommon(w: Basis, a: Basis, b: Basis, k: nat) {
    Echelon(w) && Rank(w) >= k && Contained(w, a) && Contained(w, b)
  }

  lemma ContainedThrough(a: Basis, b: Basis, c: Basis)
    requires Contained(a, b) && Contained(b, c)
    ensures Contained(a, c)
  {
    hide InSpan;
  }

  lemma SharedGrows(a: Basis, b: Basis, more: Basis, many: Basis, k: nat)
    requires Shared(a, b, k) && Contained(a, more) && Contained(b, many)
    ensures Shared(more, many, k)
  {
    var w: Basis :| IsCommon(w, a, b, k);
    ContainedThrough(w, a, more);
    ContainedThrough(w, b, many);
    hide Contained, Echelon;
    assert IsCommon(w, more, many, k);
  }

  /** Adding a vector that `b` has too keeps the span within `b`'s. */
  lemma AddedStays(w: Basis, b: Basis, v: Vec)
    requires Echelon(w) && Below(v, G) && Contained(w, b) && InSpan(b, v)
    ensures Echelon(Added(w, v)) && Contained(Added(w, v), b)
  {
    AddingGrowsExactly(w, v);
    assert (w + [v])[..|w|] == w;
    hide Added, Echelon;
    forall x | InSpan(Added(w, v), x) ensures InSpan(b, x) {
      assert InSpan(w + [v], x);
      if !InSpan(w, x) {
        assert InSpan(b, Xor(x, v));
        SpanClosed(b, Xor(x, v), v);
        XorLaws(x, v, {});
      }
    }
  }

  lemma AddedHolds(b: Basis, v: Vec)
    requires Echelon(b) && Below(v, G)
    ensures Contained(b, Added(b, v)) && InSpan(Added(b, v), v)
  {
    AddingGrowsExactly(b, v);
    assert (b + [v])[..|b|] == b;
    ZeroInSpan(b);
    XorLaws(v, {}, {});
    hide Added, Echelon;
    assert InSpan(b + [v], v);
    forall x | InSpan(b, x) ensures InSpan(Added(b, v), x) {
      assert InSpan(b + [v], x);
    }
  }

  /** Beyond what it has in common with a receiver it helps the sender knows more. */
  lemma HelperKnowsMore(a: Basis, b: Basis, k: nat)
    requires Echelon(a) && Echelon(b) && Shared(a, b, k) && Helps(a, b)
    ensures Rank(a) > k
  {
    var w: Basis :| IsCommon(w, a, b, k);
    var i :| 0 <= i < |a| && a[i] != {} && Residue(b, a[i]) != {};
    EntryInSpan(a, i);
    ResidueDecidesSpan(b, a[i]);
    AddingGrowsExactly(w, a[i]);
    AddedStays(w, a, a[i]);
    ContainedRank(Added(w, a[i]), a);
  }

  lemma {:induction false} RecodedAdds(b: Basis, a: Basis, from: nat) returns (i: nat)
    requires Echelon(a) && Echelon(b) && from <= |a|
    requires exists k :: from <= k < |a| && a[k] != {} && Residue(b, a[k]) != {}
    ensures i < |a| && Residue(b, a[i]) != {} && RecodedFrom(b, a, from) == Added(b, a[i])
    decreases |a| - from
  {
    if a[from] != {} && Residue(b, a[from]) != {} {
      i := from;
    } else {
      i := RecodedAdds(b, a, from + 1);
    }
  }

  /** Taking a packet the receiver has one more dimension in common with a sender that knows more. */
  lemma SharedAfterTaking(a: Basis, b: Basis, k: nat)
    requires Echelon(a) && Echelon(b) && Shared(a, b, k) && Rank(a) > k
    ensures Shared(a, Recoded(b, a), k + 1)
  {
    RecodingGainsIffHelps(b, a);
    if Helps(a, b) {
      var w: Basis :| IsCommon(w, a, b, k);
      var i := RecodedAdds(b, a, 0);
      SharedOneMore(w, a, b, k, i);
    } else {
      HelpsIsNonContainment(a, b);
      hide Echelon, Helps;
      assert IsCommon(a, a, b, k + 1);
    }
  }

  lemma SharedOneMore(w: Basis, a: Basis, b: Basis, k: nat, i: nat)
    requires Echelon(a) && Echelon(b) && IsCommon(w, a, b, k) && i < |a| && Residue(b, a[i]) != {}
    ensures Shared(a, Added(b, a[i]), k + 1)
  {
    var v := a[i];
    EntryInSpan(a, i);
    ResidueDecidesSpan(b, v);
    AddingGrowsExactly(w, v);
    AddingGrowsExactly(b, v);
    AddedStays(w, a, v);
    AddedHolds(b, v);
    ContainedThrough(w, b, Added(b, v));
    AddedStays(w, Added(b, v), v);
    hide Contained, Echelon, Added, InSpan;
    assert IsCommon(Added(w, v), a, Added(b, v), k + 1);
  }

  // ---- Coded: what was sent is shared ------------------------------------------------------------

  lemma GrownThrough(a: Node, b: Node, c: Node)
    requires Grown(a, b) && Grown(b, c)
    ensures Grown(a, c)
  {
    ContainedThrough(a.basis, b.basis, c.basis);
    hide Contained;
  }

  lemma {:induction false} HeardGrowsFrom(u: Setup, r: nat, s: State, j: nat, i: nat, n: nat)
    requires Fits(u, s) && j < |u.nbr| && i <= n <= |u.nbr|
    ensures Grown(Heard(u, r, s, j, i), Heard(u, r, s, j, n))
    decreases n
  {
    hide Fits, Transmits, Contained, Heard;
    if i < n {
      HeardGrowsFrom(u, r, s, j, i, n - 1);
      HeardOnce(u, r, s, j, n - 1);
      GrownThrough(Heard(u, r, s, j, i), Heard(u, r, s, j, n - 1), Heard(u, r, s, j, n));
    } else {
      SameGrown(Heard(u, r, s, j, i));
    }
  }

  lemma SameGrown(a: Node)
    ensures Grown(a, a)
  {
  }

  lemma HeardOnce(u: Setup, r: nat, s: State, j: nat, i: nat)
    requires Fits(u, s) && j < |u.nbr| && i < |u.nbr|
    ensures Grown(Heard(u, r, s, j, i), Heard(u, r, s, j, i + 1))
  {
    var before := Heard(u, r, s, j, i);
    HeardStep(u, r, s, j, i, i + 1);
    RecodingGainsIffHelps(before.basis, s.nodes[i].basis);
    SameGrown(before);
    hide Heard, Transmits, Contained, Recoded;
  }

  /** As many dimensions are common to a node and each neighbour as the node has sent packets. */
  ghost predicate SentIsShared(u: Setup, s: State)
    requires Fits(u, s)
  {
    forall i: nat, j: nat | i < |u.nbr| && j in u.nbr[i] ::
      Shared(s.nodes[i].basis, s.nodes[j].basis, s.sent[i])
  }

  lemma SenderKnowsMore(u: Setup, s: State, i: nat)
    requires Fits(u, s) && u.coded && SentIsShared(u, s) && i < |u.nbr| && Wants(u, s, i)
    ensures Rank(s.nodes[i].basis) > s.sent[i]
  {
    var j :| j in u.nbr[i] && Supplies(u.coded, s.nodes[i], s.nodes[j]);
    HelperKnowsMore(s.nodes[i].basis, s.nodes[j].basis, s.sent[i]);
  }

  lemma SharedOnTaking(u: Setup, s: State, i: nat, heard: Node)
    requires Fits(u, s) && u.coded && SentIsShared(u, s) && i < |u.nbr| && Sound(heard)
    requires Shared(s.nodes[i].basis, heard.basis, s.sent[i])
    ensures Shared(s.nodes[i].basis,
                   if Transmits(u, s, i) then Recoded(heard.basis, s.nodes[i].basis) else heard.basis, SentNow(u, s, i))
  {
    if Transmits(u, s, i) {
      SenderKnowsMore(u, s, i);
      SharedAfterTaking(s.nodes[i].basis, heard.basis, s.sent[i]);
    }
  }

  lemma SharedWhenHeard(u: Setup, r: nat, s: State, i: nat, j: nat)
    requires Fits(u, s) && NoLoss(u) && u.coded && SentIsShared(u, s) && i < |u.nbr| && j in u.nbr[i]
    ensures Shared(s.nodes[i].basis, Heard(u, r, s, j, i + 1).basis, SentNow(u, s, i))
  {
    HeardGrows(u, r, s, j, i);
    HeardStep(u, r, s, j, i, i + 1);
    SameGrown(s.nodes[i]);
    hide Heard, Shared, Contained, Recoded, Transmits;
    assert !u.lost(r, i, j);
    SharedGrows(s.nodes[i].basis, s.nodes[j].basis, s.nodes[i].basis, Heard(u, r, s, j, i).basis, s.sent[i]);
    SharedOnTaking(u, s, i, Heard(u, r, s, j, i));
  }

  lemma SharedInARound(u: Setup, r: nat, s: State, i: nat, j: nat)
    requires Fits(u, s) && NoLoss(u) && u.coded && SentIsShared(u, s) && i < |u.nbr| && j in u.nbr[i]
    ensures Shared(Heard(u, r, s, i, |u.nbr|).basis, Heard(u, r, s, j, |u.nbr|).basis, SentNow(u, s, i))
  {
    var n := |u.nbr|;
    hide Heard, Shared, Contained, SentNow;
    HeardGrows(u, r, s, i, n);
    HeardGrowsFrom(u, r, s, j, i + 1, n);
    SharedWhenHeard(u, r, s, i, j);
    SharedGrows(s.nodes[i].basis, Heard(u, r, s, j, i + 1).basis,
                Heard(u, r, s, i, n).basis, Heard(u, r, s, j, n).basis, SentNow(u, s, i));
  }

  lemma SharedNext(u: Setup, r: nat, s: State)
    requires Fits(u, s) && NoLoss(u) && u.coded && SentIsShared(u, s)
    ensures SentIsShared(u, Next(u, r, s))
  {
    hide Heard, Next, Shared, SentNow;
    var t := Next(u, r, s);
    forall i: nat, j: nat | i < |u.nbr| && j in u.nbr[i]
      ensures Shared(t.nodes[i].basis, t.nodes[j].basis, t.sent[i])
    {
      NextAt(u, r, s, i);
      NextAt(u, r, s, j);
      SharedInARound(u, r, s, i, j);
    }
  }

  lemma NothingShared(a: Basis, b: Basis)
    ensures Shared(a, b, 0)
  {
    forall x | InSpan(Nothing(), x) ensures x == {} {
      OnlyZero(Nothing(), x);
    }
    ZeroInSpan(a);
    ZeroInSpan(b);
    assert IsCommon(Nothing(), a, b, 0);
  }

  lemma {:induction false} OnlyZero(b: seq<Vec>, x: Vec)
    requires (forall p | 0 <= p < |b| :: b[p] == {}) && InSpan(b, x)
    ensures x == {}
    decreases |b|
  {
    if b != [] {
      XorLaws(x, {}, {});
      OnlyZero(b[..|b| - 1], x);
    }
  }

  lemma StartShares(u: Setup)
    requires u.Valid()
    ensures SentIsShared(u, Start(u))
  {
    hide Shared;
    var s := Start(u);
    forall i: nat, j: nat | i < |u.nbr| && j in u.nbr[i]
      ensures Shared(s.nodes[i].basis, s.nodes[j].basis, s.sent[i])
    {
      NothingShared(s.nodes[i].basis, s.nodes[j].basis);
    }
  }

  lemma {:induction false} CodedSentIsShared(u: Setup, k: nat)
    requires u.Valid() && NoLoss(u) && u.coded
    ensures SentIsShared(u, After(u, k))
    decreases k
  {
    hide Start, Next, SentIsShared, NoLoss;
    if k == 0 {
      StartShares(u);
    } else {
      CodedSentIsShared(u, k - 1);
      SharedNext(u, k - 1, After(u, k - 1));
    }
  }

  // ---- Plain: no packet goes on air twice ---------------------------------------------------------

  /** The packets of `i` that every neighbour has. */
  ghost function Done(u: Setup, s: State, i: nat): set<nat>
    requires Fits(u, s) && i < |u.nbr|
  {
    set b | b in s.nodes[i].have && forall j | j in u.nbr[i] :: b in s.nodes[j].have
  }

  ghost predicate SentIsDone(u: Setup, s: State)
    requires Fits(u, s)
  {
    forall i: nat | i < |u.nbr| :: s.sent[i] <= |Done(u, s, i)|
  }

  lemma DoneInARound(u: Setup, r: nat, s: State, i: nat)
    requires Fits(u, s) && i < |u.nbr|
    ensures Done(u, s, i) <= Done(u, Next(u, r, s), i)
  {
    var t := Next(u, r, s);
    HeardGrows(u, r, s, i, |u.nbr|);
    forall b | b in Done(u, s, i) ensures b in Done(u, t, i) {
      forall j | j in u.nbr[i] ensures b in t.nodes[j].have {
        HeardGrows(u, r, s, j, |u.nbr|);
      }
    }
  }

  lemma PickHeard(u: Setup, r: nat, s: State, i: nat, j: nat)
    requires Fits(u, s) && NoLoss(u) && !u.coded && i < |u.nbr| && Transmits(u, s, i) && j in u.nbr[i]
    requires Pick(u, s, i) in s.nodes[i].have
    ensures Pick(u, s, i) in Next(u, r, s).nodes[j].have
  {
    assert !u.lost(r, i, j);
    HeardStep(u, r, s, j, i, i + 1);
    HeardGrowsFrom(u, r, s, j, i + 1, |u.nbr|);
    hide Heard, Transmits, Contained;
  }

  lemma PickDone(u: Setup, r: nat, s: State, i: nat)
    requires Fits(u, s) && NoLoss(u) && !u.coded && i < |u.nbr| && Transmits(u, s, i)
    ensures Pick(u, s, i) !in Done(u, s, i) && Pick(u, s, i) in Done(u, Next(u, r, s), i)
  {
    var j := SomebodyLearns(u, s, i);
    PickIsPick(u, s, i);
    HeardGrows(u, r, s, i, |u.nbr|);
    forall j | j in u.nbr[i] ensures Pick(u, s, i) in Next(u, r, s).nodes[j].have {
      PickHeard(u, r, s, i, j);
    }
  }

  lemma DoneGrowsBySent(u: Setup, r: nat, s: State, i: nat)
    requires Fits(u, s) && NoLoss(u) && !u.coded && i < |u.nbr| && s.sent[i] <= |Done(u, s, i)|
    ensures SentNow(u, s, i) <= |Done(u, Next(u, r, s), i)|
  {
    DoneInARound(u, r, s, i);
    var was, now := Done(u, s, i), Done(u, Next(u, r, s), i);
    if Transmits(u, s, i) { PickDone(u, r, s, i); }
    hide Done, Next, Transmits, Pick;
    if Transmits(u, s, i) {
      SmallerSubset(was, now);
    } else {
      SubsetCard(was, now);
    }
  }

  lemma {:induction false} PlainSentIsDone(u: Setup, k: nat)
    requires u.Valid() && NoLoss(u) && !u.coded
    ensures SentIsDone(u, After(u, k))
    decreases k
  {
    hide Done;
    if k > 0 {
      PlainSentIsDone(u, k - 1);
      forall i: nat | i < |u.nbr| ensures After(u, k).sent[i] <= |Done(u, After(u, k), i)| {
        DoneGrowsBySent(u, k - 1, After(u, k - 1), i);
      }
    }
  }

  lemma {:induction false} PacketsCard(k: nat)
    ensures |Packets(k)| == k
    decreases k
  {
    if k > 0 { PacketsCard(k - 1); }
  }

  lemma BelowCard(have: set<nat>, k: nat)
    requires Below(have, k)
    ensures |have| <= k
  {
    PacketsCard(k);
    SubsetCard(have, Packets(k));
  }

  // ---- The budget never binds ----------------------------------------------------------------------

  /** Every node has sent at most one packet for each of the generation. */
  predicate AtMostGeneration(sent: seq<nat>) {
    forall i | 0 <= i < |sent| :: sent[i] <= G
  }

  lemma CodedSentInARound(u: Setup, s: State, i: nat)
    requires Fits(u, s) && u.coded && SentIsShared(u, s) && i < |u.nbr| && s.sent[i] <= G
    ensures SentNow(u, s, i) <= G
  {
    if Transmits(u, s, i) {
      SenderKnowsMore(u, s, i);
      RankBound(s.nodes[i].basis);
    }
  }

  lemma PlainSent(u: Setup, s: State, i: nat)
    requires Fits(u, s) && SentIsDone(u, s) && i < |u.nbr|
    ensures s.sent[i] <= G
  {
    BelowCard(Done(u, s, i), G);
  }

  /** Without losses no node ever sends more packets than the generation has, plain or coded. */
  lemma {:induction false} LosslessSendsFew(u: Setup, k: nat)
    requires u.Valid() && NoLoss(u)
    ensures AtMostGeneration(After(u, k).sent)
    decreases k
  {
    var s := After(u, k);
    if !u.coded { PlainSentIsDone(u, k); }
    if k > 0 {
      LosslessSendsFew(u, k - 1);
      if u.coded { CodedSentIsShared(u, k - 1); }
    }
    hide SentIsShared, SentIsDone, Transmits;
    forall i: nat | i < |u.nbr| ensures s.sent[i] <= G {
      if !u.coded {
        PlainSent(u, s, i);
      } else if k > 0 {
        CodedSentInARound(u, After(u, k - 1), i);
      }
    }
  }

  /** Without losses silence is success, with nothing said of the budget. */
  lemma LosslessSilenceIsSuccess(u: Setup, k: nat, i: nat)
    requires u.Valid() && NoLoss(u) && i < |u.nbr| && Quiet(u, After(u, k))
    ensures Decoded(u.coded, After(u, k).nodes[i]) <==> Connected(u, i)
    ensures HasEverything(u.coded, After(u, k).nodes[i]) <==> Connected(u, i)
  {
    hide HasEverything;
    LosslessSendsFew(u, k);
    QuiescenceMeansSuccess(u, k, i);
  }

  // ---- Every run falls silent ----------------------------------------------------------------------

  lemma {:induction false} SumRises(a: seq<nat>, b: seq<nat>, i: nat)
    requires |a| == |b| && (forall k | 0 <= k < |a| :: a[k] <= b[k])
    ensures Sum(a) <= Sum(b)
    ensures i < |a| && a[i] < b[i] ==> Sum(a) < Sum(b)
    decreases |a|
  {
    if a != [] { SumRises(a[..|a| - 1], b[..|b| - 1], i); }
  }

  lemma {:induction false} SumAtMost(sent: seq<nat>)
    requires AtMostGeneration(sent)
    ensures Sum(sent) <= |sent| * G
    decreases |sent|
  {
    if sent != [] { SumAtMost(sent[..|sent| - 1]); }
  }

  lemma MoreSent(u: Setup, r: nat, s: State, i: nat)
    requires Fits(u, s) && i < |u.nbr| && Transmits(u, s, i)
    ensures Sum(s.sent) < Sum(Next(u, r, s).sent)
  {
    hide Heard, Transmits, Next, Sum;
    var t := Next(u, r, s);
    forall k | 0 <= k < |u.nbr| ensures s.sent[k] <= t.sent[k] {
      NextAt(u, r, s, k);
    }
    NextAt(u, r, s, i);
    SumRises(s.sent, t.sent, i);
  }

  /** Each loud round puts something on air. */
  lemma {:induction false} LoudRoundsSend(u: Setup, k: nat)
    requires u.Valid() && LoudBefore(u, k)
    ensures k <= Sum(After(u, k).sent)
    decreases k
  {
    hide Next, Start, Sum, Quiet;
    if k > 0 {
      var s := After(u, k - 1);
      LoudRoundsSend(u, k - 1);
      var i := SomebodyTransmits(u, s);
      MoreSent(u, k - 1, s, i);
    }
  }

  /** Without losses a run is loud for no more rounds than the generation has packets for all
      nodes. */
  lemma LosslessFallsSilent(u: Setup, k: nat)
    requires u.Valid() && NoLoss(u) && LoudBefore(u, k)
    ensures k <= |u.nbr| * G
  {
    LoudRoundsSend(u, k);
    LosslessSendsFew(u, k);
    SumAtMost(After(u, k).sent);
  }

  lemma SomeQuiet(u: Setup, n: nat) returns (k: nat)
    requires u.Valid() && !LoudBefore(u, n)
    ensures k < n && Quiet(u, After(u, k))
  {
    hide Quiet, After;
    k :| k < n && Quiet(u, After(u, k));
  }

  /** So every run without losses succeeds: within that many rounds it falls silent, and then
      exactly the nodes connected to the source have decoded. */
  lemma LosslessRunSucceeds(u: Setup) returns (k: nat)
    requires u.Valid() && NoLoss(u)
    ensures k <= |u.nbr| * G && Quiet(u, After(u, k))
    ensures forall i: nat | i < |u.nbr| :: HasEverything(u.coded, After(u, k).nodes[i]) <==> Connected(u, i)
  {
    var most := |u.nbr| * G;
    if LoudBefore(u, most + 1) { LosslessFallsSilent(u, most + 1); }
    hide Quiet, After, Decoded, Connected, HasEverything;
    k := SomeQuiet(u, most + 1);
    forall i: nat | i < |u.nbr| ensures HasEverything(u.coded, After(u, k).nodes[i]) <==> Connected(u, i) {
      LosslessSilenceIsSuccess(u, k, i);
    }
  }

  /** With few enough nodes that is before the round cap. */
  lemma LosslessBeforeTheCap(u: Setup)
    requires u.Valid() && NoLoss(u) && |u.nbr| * G < MAXR
    ensures !LoudBefore(u, MAXR)
  {
    if LoudBefore(u, MAXR) { LosslessFallsSilent(u, MAXR); }
  }
}
