/**
 Convergence: after a causal delivery the history, and so the merged value, is a
 function of the set of versions delivered.
 */
module ElementConvergence {
  import opened ElementModel

  function Elems<T>(s: seq<T>): set<T> {
    set x | x in s
  }

  /** The history after applying these versions one by one. */
  function Delivered(ds: seq<Version>): History {
    if ds == [] then map[] else Absorb(Delivered(ds[..|ds| - 1]), ds[|ds| - 1])
  }

  function Ids(vs: set<Version>): set<VersionId> {
    set v | v in vs :: v.id
  }

  ghost predicate UniqueIds(vs: set<Version>) {
    forall v, w | v in vs && w in vs && v.id == w.id :: v == w
  }

  /** The history a set of versions stands for, however they arrived. */
  function Intended(vs: set<Version>): History
    requires UniqueIds(vs)
  {
    map v | v in vs :: v.id := v.(past := v.past * Ids(vs))
  }

  ghost predicate FirstAt(ds: seq<Version>, i: int) {
    0 <= i < |ds| && ds[i].id !in Ids(Elems(ds[..i]))
  }

  /** Every version first arrives after the versions of the delivery in its past. */
  ghost predicate Causal(ds: seq<Version>) {
    forall i | FirstAt(ds, i) :: ds[i].past * Ids(Elems(ds)) <= Ids(Elems(ds[..i]))
  }

  lemma {:induction false} DeliveredWellFormed(ds: seq<Version>)
    ensures WellFormed(Delivered(ds))
    ensures Delivered(ds).Keys == Ids(Elems(ds))
    decreases |ds|
  {
    if ds == [] {
    } else {
      var n := |ds| - 1;
      DeliveredWellFormed(ds[..n]);
      AbsorbWellFormed(Delivered(ds[..n]), ds[n]);
      assert ds == ds[..n] + [ds[n]];
      assert Elems(ds) == Elems(ds[..n]) + {ds[n]};
      assert Ids(Elems(ds)) == Ids(Elems(ds[..n])) + {ds[n].id};
    }
  }

  /** A version keeps the past it had when it first arrived. */
  lemma {:induction false} DeliveredAt(ds: seq<Version>, i: nat)
    requires FirstAt(ds, i)
    ensures ds[i].id in Delivered(ds)
    ensures Delivered(ds)[ds[i].id] == ds[i].(past := ds[i].past * Ids(Elems(ds[..i])))
    decreases |ds|
  {
    var n := |ds| - 1;
    DeliveredWellFormed(ds[..n]);
    if i < n {
      assert ds[..n][..i] == ds[..i];
      DeliveredAt(ds[..n], i);
    }
  }

  lemma {:induction false} FirstIndex(ds: seq<Version>, v: Version) returns (i: nat)
    requires v in ds
    ensures FirstAt(ds, i) && ds[i].id == v.id
    decreases |ds|
  {
    var n := |ds| - 1;
    if v.id in Ids(Elems(ds[..n])) {
      var w :| w in ds[..n] && w.id == v.id;
      i := FirstIndex(ds[..n], w);
      assert ds[..n][..i] == ds[..i];
    } else {
      assert ds == ds[..n] + [ds[n]];
      i := n;
    }
  }

  lemma IntendedAt(vs: set<Version>, v: Version)
    requires UniqueIds(vs) && v in vs
    ensures v.id in Intended(vs) && Intended(vs)[v.id] == v.(past := v.past * Ids(vs))
  {
  }

  lemma IntendedKeys(vs: set<Version>)
    requires UniqueIds(vs)
    ensures Intended(vs).Keys == Ids(vs)
  {
  }

  lemma CausalAt(ds: seq<Version>, i: nat)
    requires UniqueIds(Elems(ds)) && FirstAt(ds, i)
    requires ds[i].past * Ids(Elems(ds)) <= Ids(Elems(ds[..i]))
    ensures ds[i].id in Delivered(ds) && ds[i].id in Intended(Elems(ds))
    ensures Delivered(ds)[ds[i].id] == Intended(Elems(ds))[ds[i].id]
  {
    DeliveredAt(ds, i);
    IntendedAt(Elems(ds), ds[i]);
    EarlierIds(ds, i);
    SameMeet(ds[i].past, Ids(Elems(ds[..i])), Ids(Elems(ds)));
  }

  lemma SameMeet<T>(p: set<T>, a: set<T>, b: set<T>)
    requires a <= b && p * b <= a
    ensures p * a == p * b
  {
  }

  lemma EarlierIds(ds: seq<Version>, i: nat)
    requires i <= |ds|
    ensures Ids(Elems(ds[..i])) <= Ids(Elems(ds))
  {
  }

  lemma CausalGivesIntended(ds: seq<Version>)
    requires UniqueIds(Elems(ds)) && Causal(ds) && Delivered(ds).Keys == Ids(Elems(ds))
    ensures Delivered(ds) == Intended(Elems(ds))
  {
    IntendedKeys(Elems(ds));
    hide Delivered, Intended;
    forall id | id in Delivered(ds) ensures Delivered(ds)[id] == Intended(Elems(ds))[id] {
      var v :| v in Elems(ds) && v.id == id;
      var i := FirstIndex(ds, v);
      CausalAt(ds, i);
    }
  }

  lemma IntendedIsCausal(ds: seq<Version>)
    requires UniqueIds(Elems(ds)) && Delivered(ds) == Intended(Elems(ds))
    ensures Causal(ds)
  {
    var vs := Elems(ds);
    forall i | FirstAt(ds, i) ensures ds[i].past * Ids(vs) <= Ids(Elems(ds[..i])) {
      DeliveredAt(ds, i);
      assert ds[i] in vs;
      assert Intended(vs)[ds[i].id].past == ds[i].past * Ids(vs);
    }
  }

  /** The history is the one the set stands for exactly when the delivery is causal. */
  lemma DeliveredIsIntended(ds: seq<Version>)
    requires UniqueIds(Elems(ds))
    ensures Delivered(ds) == Intended(Elems(ds)) <==> Causal(ds)
  {
    if Causal(ds) {
      DeliveredWellFormed(ds);
      CausalGivesIntended(ds);
    }
    if Delivered(ds) == Intended(Elems(ds)) { IntendedIsCausal(ds); }
  }

  /** Two devices that applied the same versions, each in a causal order and with any
      repetitions, hold the same value: state, variants, locks and heads. */
  lemma Convergence(d1: seq<Version>, d2: seq<Version>)
    requires Elems(d1) == Elems(d2) && UniqueIds(Elems(d1))
    requires Causal(d1) && Causal(d2)
    ensures WellFormed(Delivered(d1)) && WellFormed(Delivered(d2))
    ensures MergedValue(Delivered(d1)) == MergedValue(Delivered(d2))
  {
    DeliveredWellFormed(d1);
    DeliveredWellFormed(d2);
    DeliveredIsIntended(d1);
    DeliveredIsIntended(d2);
  }

  lemma TwoDelivered(a: Version, b: Version)
    requires a.id != b.id
    ensures Delivered([a, b]) == map[a.id := a.(past := {}), b.id := b.(past := b.past * {a.id})]
  {
    assert [a, b][..1] == [a] && [a][..0] == [];
    var none: History := map[];
    assert Delivered([]) == none && none.Keys == {};
    assert a.past * {} == {};
    var one: History := map[a.id := a.(past := {})];
    assert Delivered([a]) == Absorb(none, a) == one;
    assert one.Keys == {a.id};
    assert Delivered([a, b]) == Absorb(one, b);
  }

  /** Causal delivery is needed: of two devices that get `a` and a `b` made over it, one shows `a`
      as a head and the other, which gets `b` second, does not. */
  lemma NonCausalDeliveryDiverges(a: Version, b: Version)
    requires a.id != b.id && a.id in b.past && b.id !in a.past
    ensures WellFormed(Delivered([a, b])) && WellFormed(Delivered([b, a]))
    ensures MergedValue(Delivered([a, b])).heads != MergedValue(Delivered([b, a])).heads
  {
    DeliveredWellFormed([a, b]);
    DeliveredWellFormed([b, a]);
    TwoDelivered(a, b);
    TwoDelivered(b, a);
    LateHead(Delivered([a, b]), Delivered([b, a]), a, b);
  }

  lemma LateHead(h1: History, h2: History, a: Version, b: Version)
    requires a.id != b.id && a.id in b.past && b.id !in a.past
    requires h1 == map[a.id := a.(past := {}), b.id := b.(past := b.past * {a.id})]
    requires h2 == map[b.id := b.(past := {}), a.id := a.(past := a.past * {b.id})]
    ensures Heads(h1) != Heads(h2)
  {
    var head := Head(a.id.writer, a.id.number, a.digest);
    assert a.id in h1[b.id].past;
    assert head in Heads(h2);
    assert head !in Heads(h1);
  }

  /** A version is a head exactly when nothing that first arrives after it is made over it,
      whatever the delivery. */
  lemma HeadExactlyWhen(ds: seq<Version>, i: nat)
    requires FirstAt(ds, i)
    ensures IsHead(Delivered(ds), ds[i].id) <==> forall j | FirstAt(ds, j) && i < j :: ds[i].id !in ds[j].past
  {
    hide Delivered;
    if IsHead(Delivered(ds), ds[i].id) {
      forall j | FirstAt(ds, j) && i < j ensures ds[i].id !in ds[j].past {
        DeliveredAt(ds, j);
        assert ds[i] in ds[..j];
      }
    }
    if forall j | FirstAt(ds, j) && i < j :: ds[i].id !in ds[j].past {
      forall id | id in Delivered(ds) ensures ds[i].id !in Delivered(ds)[id].past {
        DeliveredWellFormed(ds);
        var v :| v in Elems(ds) && v.id == id;
        var j := FirstIndex(ds, v);
        DeliveredAt(ds, j);
        if j <= i { NotBefore(ds, i, j); }
      }
    }
  }

  lemma NotBefore(ds: seq<Version>, i: nat, j: nat)
    requires FirstAt(ds, i) && j <= i
    ensures ds[i].id !in Ids(Elems(ds[..j]))
  {
    assert forall v | v in ds[..j] :: v in ds[..i];
  }

  /** After any delivery, a version that arrives later than one made over it is shown as a head,
      though it is none of the versions' intended history. */
  lemma LateVersionIsHead(ds: seq<Version>, a: Version, b: Version)
    requires b in ds && a.id in b.past && a.id !in Ids(Elems(ds)) && UniqueIds(Elems(ds + [a]))
    ensures a.id in Delivered(ds + [a]) && IsHead(Delivered(ds + [a]), a.id)
    ensures !IsHead(Intended(Elems(ds + [a])), a.id)
  {
    hide Delivered;
    var all := ds + [a];
    assert all[..|ds|] == ds;
    DeliveredAt(all, |ds|);
    HeadExactlyWhen(all, |ds|);
    assert all[|ds|] in all && b in all;
    IntendedAt(Elems(all), b);
  }

  /** The device shows the value of the history that the versions it got stand for. */
  ghost predicate ShowsIntended(ds: seq<Version>) {
    && UniqueIds(Elems(ds)) && WellFormed(Intended(Elems(ds))) && WellFormed(Delivered(ds))
    && MergedValue(Delivered(ds)) == MergedValue(Intended(Elems(ds)))
  }

  lemma PrefixElems(ds: seq<Version>, k: nat)
    requires k <= |ds|
    ensures Elems(ds[..k]) <= Elems(ds) && Ids(Elems(ds[..k])) <= Ids(Elems(ds))
    ensures UniqueIds(Elems(ds)) ==> UniqueIds(Elems(ds[..k]))
  {
  }

  lemma PrefixCausal(ds: seq<Version>, k: nat)
    requires Causal(ds) && k <= |ds|
    ensures Causal(ds[..k])
  {
    PrefixElems(ds, k);
    hide Ids, Elems;
    forall i | FirstAt(ds[..k], i) ensures ds[..k][i].past * Ids(Elems(ds[..k])) <= Ids(Elems(ds[..k][..i])) {
      assert ds[..k][..i] == ds[..i];
      assert FirstAt(ds, i);
    }
  }

  lemma CausalShowsIntended(ds: seq<Version>)
    requires UniqueIds(Elems(ds)) && Causal(ds)
    ensures ShowsIntended(ds)
  {
    DeliveredWellFormed(ds);
    DeliveredIsIntended(ds);
  }

  lemma NotInOwnPast(vs: set<Version>, v: Version)
    requires UniqueIds(vs) && v in vs && WellFormed(Intended(vs))
    ensures v.id !in v.past
  {
    IntendedAt(vs, v);
    hide Intended;
    assert IsGroup(Intended(vs), {v.id});
  }

  lemma HeadsDiffer(h1: History, h2: History, id: VersionId)
    requires WellFormed(h1) && WellFormed(h2) && id in h1 && IsHead(h1, id) && !IsHead(h2, id)
    ensures MergedValue(h1) != MergedValue(h2)
  {
    assert Head(id.writer, id.number, h1[id].digest) in Heads(h1);
    assert Head(id.writer, id.number, h1[id].digest) !in Heads(h2);
  }

  /** A version that arrives after one made over it spoils what is shown just then. */
  lemma LateShowsOther(ds: seq<Version>, i: nat, id: VersionId) returns (k: nat)
    requires UniqueIds(Elems(ds)) && WellFormed(Intended(Elems(ds))) && FirstAt(ds, i)
    requires id in ds[i].past && id in Ids(Elems(ds)) && id !in Ids(Elems(ds[..i]))
    ensures k <= |ds| && !ShowsIntended(ds[..k])
  {
    var v :| v in Elems(ds) && v.id == id;
    var j := FirstIndex(ds, v);
    NotInOwnPast(Elems(ds), ds[i]);
    assert forall m | 0 <= m < i :: ds[m] in ds[..i];
    k := j + 1;
    assert ds[..k] == ds[..j] + [ds[j]] && ds[i] in ds[..j];
    PrefixElems(ds, k);
    LateVersionIsHead(ds[..j], ds[j], ds[i]);
    hide Delivered, Intended, IsHead;
    if ShowsIntended(ds[..k]) { HeadsDiffer(Delivered(ds[..k]), Intended(Elems(ds[..k])), id); }
  }

  /** At every moment of a delivery the device shows the value of the versions it got, exactly when
      the delivery is causal. */
  lemma ShownExactlyWhenCausal(ds: seq<Version>)
    requires UniqueIds(Elems(ds))
    ensures (forall k | 0 <= k <= |ds| :: ShowsIntended(ds[..k])) <==> Causal(ds)
  {
    hide ShowsIntended;
    if Causal(ds) {
      forall k | 0 <= k <= |ds| ensures ShowsIntended(ds[..k]) {
        PrefixElems(ds, k);
        PrefixCausal(ds, k);
        CausalShowsIntended(ds[..k]);
      }
    } else if forall k | 0 <= k <= |ds| :: ShowsIntended(ds[..k]) {
      WholeIsWellFormed(ds);
      var i :| FirstAt(ds, i) && !(ds[i].past * Ids(Elems(ds)) <= Ids(Elems(ds[..i])));
      var id :| id in ds[i].past * Ids(Elems(ds)) && id !in Ids(Elems(ds[..i]));
      var k := LateShowsOther(ds, i, id);
    }
  }

  lemma WholeIsWellFormed(ds: seq<Version>)
    requires forall k | 0 <= k <= |ds| :: ShowsIntended(ds[..k])
    ensures UniqueIds(Elems(ds)) && WellFormed(Intended(Elems(ds)))
  {
    assert ds[..|ds|] == ds;
  }
}
