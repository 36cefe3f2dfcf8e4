/**
 A GF(2) coding basis in echelon form: entry `p` is zero or has highest set bit `p`.
 The span is defined without the form, as the exclusive-ors of subsets of the entries.
 */
module Gf2 {
  /** A combination of packets, as the set of its set bits: one bit per packet of the generation. */
  type Vec = set<nat>

  const G: nat := 16

  type Basis = seq<Vec>

  function Xor(v: Vec, w: Vec): Vec {
    (v - w) + (w - v)
  }

  // ---- Highest bits -------------------------------------------------------------------

  /** `v` has no bit at `p` or above. */
  predicate Below(v: Vec, p: nat) {
    forall q | q in v :: q < p
  }

  /** `v`'s highest set bit is `p`. */
  predicate HasTop(v: Vec, p: nat) {
    p in v && Below(v, p + 1)
  }

  /** The highest set bit. */
  function Top(v: Vec): (top: nat)
    requires v != {}
    ensures HasTop(v, top)
  {
    TopExists(v);
    var top :| top in v && HasTop(v, top);
    top
  }

  lemma TopExists(v: Vec)
    requires v != {}
    ensures exists top :: top in v && HasTop(v, top)
    decreases |v|
  {
    var q :| q in v;
    var rest := v - {q};
    assert v == rest + {q};
    if rest == {} {
      assert HasTop(v, q);
    } else {
      TopExists(rest);
      var t :| t in rest && HasTop(rest, t);
      assert HasTop(v, if t < q then q else t);
    }
  }

  /** One more than the highest bit. */
  function Width(v: Vec): nat {
    if v == {} then 0 else Top(v) + 1
  }

  lemma XorLowers(v: Vec, w: Vec, p: nat)
    requires HasTop(v, p) && HasTop(w, p)
    ensures Below(Xor(v, w), p) && Width(Xor(v, w)) < Width(v)
  {
    assert Top(v) == p;
  }

  // ---- Spans --------------------------------------------------------------------------

  /** `v` is the exclusive-or of some of the entries. */
  predicate InSpan(b: seq<Vec>, v: Vec)
    decreases |b|
  {
    if b == [] then v == {}
    else InSpan(b[..|b| - 1], v) || InSpan(b[..|b| - 1], Xor(v, b[|b| - 1]))
  }

  lemma {:induction false} ZeroInSpan(b: seq<Vec>)
    ensures InSpan(b, {})
    decreases |b|
  {
    if b != [] { ZeroInSpan(b[..|b| - 1]); }
  }

  lemma XorLaws(x: Vec, y: Vec, e: Vec)
    ensures Xor(Xor(x, e), Xor(y, e)) == Xor(x, y)
    ensures Xor(Xor(x, e), y) == Xor(Xor(x, y), e)
    ensures Xor(x, Xor(y, e)) == Xor(Xor(x, y), e)
    ensures Xor(x, x) == {} && Xor(x, {}) == x && Xor(Xor(x, y), y) == x && Xor(x, y) == Xor(y, x)
  {
  }

  lemma {:induction false} SpanClosed(b: seq<Vec>, x: Vec, y: Vec)
    requires InSpan(b, x) && InSpan(b, y)
    ensures InSpan(b, Xor(x, y))
    decreases |b|
  {
    if b != [] {
      var rest, e := b[..|b| - 1], b[|b| - 1];
      XorLaws(x, y, e);
      if InSpan(rest, x) {
        if InSpan(rest, y) { SpanClosed(rest, x, y); } else { SpanClosed(rest, x, Xor(y, e)); }
      } else {
        if InSpan(rest, y) { SpanClosed(rest, Xor(x, e), y); } else { SpanClosed(rest, Xor(x, e), Xor(y, e)); }
      }
    }
  }

  lemma {:induction false} EntryInSpan(b: seq<Vec>, i: nat)
    requires i < |b|
    ensures InSpan(b, b[i])
    decreases |b|
  {
    var n := |b| - 1;
    if i == n {
      XorLaws(b[n], {}, {});
      ZeroInSpan(b[..n]);
    } else {
      EntryInSpan(b[..n], i);
    }
  }

  /** Every combination of the entries of `a` is one of those of `b`. */
  ghost predicate Contained(a: seq<Vec>, b: seq<Vec>) {
    forall x | InSpan(a, x) :: InSpan(b, x)
  }

  lemma {:induction false} EntriesSuffice(a: seq<Vec>, b: seq<Vec>, x: Vec)
    requires (forall i | 0 <= i < |a| :: InSpan(b, a[i])) && InSpan(a, x)
    ensures InSpan(b, x)
    decreases |a|
  {
    if a == [] {
      ZeroInSpan(b);
    } else {
      var n := |a| - 1;
      if InSpan(a[..n], x) {
        EntriesSuffice(a[..n], b, x);
      } else {
        EntriesSuffice(a[..n], b, Xor(x, a[n]));
        SpanClosed(b, Xor(x, a[n]), a[n]);
        XorLaws(x, a[n], {});
      }
    }
  }

  // ---- Echelon form ---------------------------------------------------------------------

  predicate PrefixEchelon(b: seq<Vec>) {
    |b| <= G && forall p | 0 <= p < |b| :: b[p] == {} || HasTop(b[p], p)
  }

  predicate Echelon(b: Basis) {
    |b| == G && PrefixEchelon(b)
  }

  lemma {:induction false} SpanBelow(b: seq<Vec>, x: Vec)
    requires PrefixEchelon(b) && InSpan(b, x)
    ensures Below(x, |b|)
    decreases |b|
  {
    if b != [] {
      var n := |b| - 1;
      if InSpan(b[..n], x) {
        SpanBelow(b[..n], x);
      } else {
        SpanBelow(b[..n], Xor(x, b[n]));
        XorLaws(x, b[n], {});
      }
    }
  }

  /** A combination with highest bit `p` needs an entry with highest bit `p`. */
  lemma {:induction false} TopNeedsPivot(b: seq<Vec>, v: Vec, p: nat)
    requires PrefixEchelon(b) && p < |b| && InSpan(b, v) && HasTop(v, p)
    ensures b[p] != {}
    decreases |b|
  {
    var n := |b| - 1;
    var e := b[n];
    if p == n {
      if InSpan(b[..n], v) { SpanBelow(b[..n], v); }
      XorLaws(v, {}, {});
    } else if InSpan(b[..n], v) {
      TopNeedsPivot(b[..n], v, p);
    } else {
      SpanBelow(b[..n], Xor(v, e));
      XorLaws(v, {}, {});
      if e != {} { assert false; }
    }
  }

  /** `v` reduced against the basis. */
  function Residue(b: Basis, v: Vec): (r: Vec)
    requires Echelon(b) && Below(v, G)
    ensures Below(r, G)
    decreases Width(v)
  {
    if v == {} then {}
    else if b[Top(v)] == {} then v
    else
      XorLowers(v, b[Top(v)], Top(v));
      Residue(b, Xor(v, b[Top(v)]))
  }

  lemma {:induction false} ResidueReduces(b: Basis, v: Vec)
    requires Echelon(b) && Below(v, G)
    ensures InSpan(b, Xor(v, Residue(b, v)))
    ensures Residue(b, v) != {} ==> b[Top(Residue(b, v))] == {}
    decreases Width(v)
  {
    XorLaws(v, {}, {});
    ZeroInSpan(b);
    if v != {} && b[Top(v)] != {} {
      var e := b[Top(v)];
      XorLowers(v, e, Top(v));
      ResidueReduces(b, Xor(v, e));
      EntryInSpan(b, Top(v));
      SpanClosed(b, Xor(Xor(v, e), Residue(b, v)), e);
      XorLaws(v, Residue(b, v), e);
      assert Xor(Xor(Xor(v, e), Residue(b, v)), e) == Xor(v, Residue(b, v));
    }
  }

  /** A vector's residue is zero exactly when the vector is in the span. */
  lemma ResidueDecidesSpan(b: Basis, v: Vec)
    requires Echelon(b) && Below(v, G)
    ensures Residue(b, v) == {} <==> InSpan(b, v)
  {
    ResidueReduces(b, v);
    var r := Residue(b, v);
    XorLaws(v, r, {});
    if r != {} && InSpan(b, v) {
      SpanClosed(b, v, Xor(v, r));
      assert Xor(v, Xor(v, r)) == r;
      TopNeedsPivot(b, r, Top(r));
    }
  }

  // ---- Adding a vector --------------------------------------------------------------------

  function Rank(b: seq<Vec>): nat
    decreases |b|
  {
    if b == [] then 0 else Rank(b[..|b| - 1]) + (if b[|b| - 1] != {} then 1 else 0)
  }

  /** The basis after adding `v`: unchanged when `v` reduces to zero. */
  function Added(b: Basis, v: Vec): Basis
    requires Echelon(b) && Below(v, G)
  {
    var r := Residue(b, v);
    if r == {} then b else b[Top(r) := r]
  }

  /** Filling an empty entry adds exactly its combinations. */
  lemma {:induction false} FillEmpty(b: seq<Vec>, p: nat, r: Vec, x: Vec)
    requires p < |b| && b[p] == {}
    ensures InSpan(b[p := r], x) <==> InSpan(b, x) || InSpan(b, Xor(x, r))
    decreases |b|
  {
    var n := |b| - 1;
    var e := b[n];
    XorLaws(x, {}, {});
    XorLaws(Xor(x, r), {}, {});
    if p == n {
      assert b[p := r][..n] == b[..n];
    } else {
      assert b[p := r][..n] == b[..n][p := r];
      FillEmpty(b[..n], p, r, x);
      FillEmpty(b[..n], p, r, Xor(x, e));
      XorLaws(x, r, e);
      assert Xor(Xor(x, e), r) == Xor(Xor(x, r), e);
    }
  }

  lemma {:induction false} FillRank(b: seq<Vec>, p: nat, r: Vec)
    requires p < |b| && b[p] == {} && r != {}
    ensures Rank(b[p := r]) == Rank(b) + 1
    decreases |b|
  {
    var n := |b| - 1;
    if p == n {
      assert b[p := r][..n] == b[..n];
    } else {
      assert b[p := r][..n] == b[..n][p := r];
      FillRank(b[..n], p, r);
    }
  }

  lemma SpanShift(b: Basis, x: Vec, y: Vec, s: Vec)
    requires InSpan(b, s) && y == Xor(x, s)
    ensures InSpan(b, x) <==> InSpan(b, y)
  {
    XorLaws(x, s, {});
    if InSpan(b, x) { SpanClosed(b, x, s); }
    if InSpan(b, y) { SpanClosed(b, y, s); }
  }

  /** Adding `v` keeps the form, grows the span to exactly that of the entries and `v`, and the
      rank by one exactly when `v` was outside the span. */
  lemma AddingGrowsExactly(b: Basis, v: Vec)
    requires Echelon(b) && Below(v, G)
    ensures Echelon(Added(b, v))
    ensures forall x :: InSpan(Added(b, v), x) <==> InSpan(b + [v], x)
    ensures Rank(Added(b, v)) == Rank(b) + (if InSpan(b, v) then 0 else 1)
  {
    var r, b' := Residue(b, v), Added(b, v);
    ResidueDecidesSpan(b, v);
    ResidueReduces(b, v);
    assert (b + [v])[..|b|] == b;
    if r != {} { FillRank(b, Top(r), r); }
    forall x ensures InSpan(b', x) <==> InSpan(b + [v], x) {
      XorLaws(Xor(x, v), v, r);
      XorLaws(x, v, r);
      if r == {} {
        SpanShift(b, x, Xor(x, v), v);
      } else {
        FillEmpty(b, Top(r), r, x);
        assert Xor(Xor(x, v), Xor(v, r)) == Xor(x, r);
        SpanShift(b, Xor(x, v), Xor(x, r), Xor(v, r));
      }
    }
  }

  /** Full rank is a full span. */
  lemma FullRankIsEverything(b: Basis)
    requires Echelon(b)
    ensures Rank(b) == G <==> forall x | Below(x, G) :: InSpan(b, x)
  {
    RankBound(b);
    if Rank(b) == G {
      forall x | Below(x, G) ensures InSpan(b, x) {
        ResidueReduces(b, x);
        ResidueDecidesSpan(b, x);
      }
    }
    if forall x | Below(x, G) :: InSpan(b, x) {
      forall p: nat | p < G ensures b[p] != {} {
        assert HasTop({p}, p);
        TopNeedsPivot(b, {p}, p);
      }
    }
  }

  lemma {:induction false} RankBound(b: seq<Vec>)
    ensures Rank(b) <= |b|
    ensures Rank(b) == |b| <==> forall p | 0 <= p < |b| :: b[p] != {}
    decreases |b|
  {
    if b != [] { RankBound(b[..|b| - 1]); }
  }

  /** The rank depends on the span alone, and grows with it. */
  lemma {:induction false} ContainedRank(a: Basis, b: Basis)
    requires Echelon(a) && Echelon(b) && Contained(a, b)
    ensures Rank(a) <= Rank(b)
  {
    forall p | 0 <= p < G && a[p] != {} ensures b[p] != {} {
      EntryInSpan(a, p);
      TopNeedsPivot(b, a[p], p);
    }
    PivotsRank(a, b);
  }

  lemma {:induction false} PivotsRank(a: seq<Vec>, b: seq<Vec>)
    requires |a| == |b| && forall p | 0 <= p < |a| && a[p] != {} :: b[p] != {}
    ensures Rank(a) <= Rank(b)
    decreases |a|
  {
    if a != [] { PivotsRank(a[..|a| - 1], b[..|b| - 1]); }
  }

  // ---- Helping and recoding ------------------------------------------------------------------

  /** The sender holds a direction outside the receiver's subspace. */
  predicate Helps(si: Basis, sj: Basis)
    requires Echelon(si) && Echelon(sj)
  {
    exists i | 0 <= i < |si| :: si[i] != {} && Residue(sj, si[i]) != {}
  }

  /** That is exactly when the sender's span is not contained in the receiver's. */
  lemma HelpsIsNonContainment(si: Basis, sj: Basis)
    requires Echelon(si) && Echelon(sj)
    ensures Helps(si, sj) <==> !Contained(si, sj)
  {
    if Helps(si, sj) {
      var i :| 0 <= i < |si| && si[i] != {} && Residue(sj, si[i]) != {};
      EntryInSpan(si, i);
      ResidueDecidesSpan(sj, si[i]);
    } else {
      forall i | 0 <= i < |si| ensures InSpan(sj, si[i]) {
        ResidueDecidesSpan(sj, si[i]);
        ZeroInSpan(sj);
      }
      forall x | InSpan(si, x) ensures InSpan(sj, x) {
        EntriesSuffice(si, sj, x);
      }
    }
  }

  /** The receiver after one recoded packet: the first helpful entry is added. */
  function RecodedFrom(rj: Basis, si: Basis, from: nat): Basis
    requires Echelon(rj) && Echelon(si) && from <= |si|
    decreases |si| - from
  {
    if from == |si| then rj
    else if si[from] != {} && Residue(rj, si[from]) != {} then Added(rj, si[from])
    else RecodedFrom(rj, si, from + 1)
  }

  function Recoded(rj: Basis, si: Basis): Basis
    requires Echelon(rj) && Echelon(si)
  {
    RecodedFrom(rj, si, 0)
  }

  lemma {:induction false} RecodedFromGains(rj: Basis, si: Basis, from: nat)
    requires Echelon(rj) && Echelon(si) && from <= |si|
    ensures Echelon(RecodedFrom(rj, si, from)) && Contained(rj, RecodedFrom(rj, si, from))
    ensures if exists i :: from <= i < |si| && si[i] != {} && Residue(rj, si[i]) != {}
            then Rank(RecodedFrom(rj, si, from)) == Rank(rj) + 1
            else RecodedFrom(rj, si, from) == rj
    decreases |si| - from
  {
    if from < |si| {
      if si[from] != {} && Residue(rj, si[from]) != {} {
        AddingGrowsExactly(rj, si[from]);
        ResidueDecidesSpan(rj, si[from]);
        forall x | InSpan(rj, x) ensures InSpan(Added(rj, si[from]), x) {
          assert (rj + [si[from]])[..|rj|] == rj;
          assert InSpan(rj + [si[from]], x);
        }
      } else {
        RecodedFromGains(rj, si, from + 1);
      }
    }
  }

  /** A recoded packet gains one rank exactly when the sender helps, and never loses anything. */
  lemma RecodingGainsIffHelps(rj: Basis, si: Basis)
    requires Echelon(rj) && Echelon(si)
    ensures Echelon(Recoded(rj, si)) && Contained(rj, Recoded(rj, si))
    ensures if Helps(si, rj) then Rank(Recoded(rj, si)) == Rank(rj) + 1 else Recoded(rj, si) == rj
  {
    RecodedFromGains(rj, si, 0);
  }

  // ---- The in-place operations -----------------------------------------------------------------

  /** Reduce `v` step by step. */
  method Reduce(b: array<Vec>, v: Vec) returns (r: Vec)
    requires Echelon(b[..]) && Below(v, G)
    ensures r == Residue(b[..], v)
    ensures r == {} <==> InSpan(b[..], v)
  {
    ResidueDecidesSpan(b[..], v);
    r := v;
    while r != {}
      invariant Below(r, G) && Residue(b[..], r) == Residue(b[..], v)
      decreases Width(r)
    {
      var p := Top(r);
      if b[p] == {} {
        return r;
      }
      XorLowers(r, b[p], p);
      r := Xor(r, b[p]);
    }
  }

  /** Insert `v` unless it is in the span; whether it was innovative. */
  method AddVec(b: array<Vec>, v: Vec) returns (innovative: bool)
    requires Echelon(b[..]) && Below(v, G)
    modifies b
    ensures Echelon(b[..]) && b[..] == Added(old(b[..]), v)
    ensures innovative <==> !InSpan(old(b[..]), v)
    ensures forall x :: InSpan(b[..], x) <==> InSpan(old(b[..]) + [v], x)
  {
    AddingGrowsExactly(b[..], v);
    var r := Reduce(b, v);
    innovative := r != {};
    if innovative {
      b[Top(r)] := r;
    }
  }

  /** Take the first direction of the sender that is new; whether there is one. */
  method RecodeInnovative(rj: array<Vec>, si: array<Vec>) returns (gained: bool)
    requires Echelon(rj[..]) && Echelon(si[..]) && rj != si
    modifies rj
    ensures Echelon(rj[..]) && rj[..] == Recoded(old(rj[..]), si[..])
    ensures gained <==> Helps(si[..], old(rj[..]))
    ensures Rank(rj[..]) == old(Rank(rj[..])) + (if gained then 1 else 0)
  {
    RecodingGainsIffHelps(rj[..], si[..]);
    for i := 0 to si.Length
      invariant rj[..] == old(rj[..])
      invariant Recoded(rj[..], si[..]) == RecodedFrom(rj[..], si[..], i)
      invariant forall k | 0 <= k < i :: si[k] == {} || Residue(rj[..], si[k]) == {}
    {
      if si[i] != {} {
        ResidueDecidesSpan(rj[..], si[i]);
        var added := AddVec(rj, si[i]);
        if added {
          return true;
        }
        assert rj[..] == old(rj[..]);
      }
    }
    gained := false;
  }
}
