/**
 What the merge loop leaves, said without the loop: which versions hold a slot, that they
 are pairwise concurrent, and that they are listed in the fixed order.
 */
module ElementClosedForm {
  import opened Basics
  import opened Options
  import opened ElementModel

  // ---- The order -----------------------------------------------------------------

  /** Everything a version of the set was made over is in the set. */
  ghost predicate PastClosed(h: History, done: set<VersionId>) {
    done <= h.Keys && forall id | id in done :: h[id].past <= done
  }

  // ---- Which versions hold a slot ----------------------------------------------------

  predicate HasEntry<T(==)>(entries: seq<Entry<T>>, at: T) {
    exists k | 0 <= k < |entries| :: entries[k].at == at
  }

  ghost predicate DistinctAts<T>(entries: seq<Entry<T>>) {
    forall i, j | 0 <= i < |entries| && 0 <= j < |entries| && entries[i].at == entries[j].at :: i == j
  }

  lemma {:induction false} RetainHas<T>(entries: seq<Entry<T>>, dropped: set<T>)
    ensures forall at :: HasEntry(Retain(entries, dropped), at) <==> HasEntry(entries, at) && at !in dropped
    ensures DistinctAts(entries) ==> DistinctAts(Retain(entries, dropped))
    decreases |entries|
  {
    if entries == [] {
    } else {
      var n := |entries| - 1;
      var rest, e := entries[..n], entries[n];
      RetainHas(rest, dropped);
      AppendHas(rest, e);
      assert rest + [e] == entries;
      AppendHas(Retain(rest, dropped), e);
      if DistinctAts(entries) {
        assert !HasEntry(rest, e.at);
      }
    }
  }

  lemma AppendHas<T>(entries: seq<Entry<T>>, e: Entry<T>)
    ensures forall at :: HasEntry(entries + [e], at) <==> HasEntry(entries, at) || at == e.at
    ensures DistinctAts(entries) && !HasEntry(entries, e.at) ==> DistinctAts(entries + [e])
  {
    var more := entries + [e];
    forall at ensures HasEntry(more, at) <==> HasEntry(entries, at) || at == e.at {
      if HasEntry(entries, at) {
        var k :| 0 <= k < |entries| && entries[k].at == at;
        assert more[k].at == at;
      }
      if at == e.at { assert more[|entries|].at == at; }
    }
  }

  /** A slot's entries before and after a version `i`: when it writes the slot it comes in
      and its past goes. */
  ghost predicate Rewritten<T(!new)>(before: seq<Entry<T>>, after: seq<Entry<T>>, writes: bool, i: T, past: set<T>) {
    && DistinctAts(after)
    && forall at :: HasEntry(after, at) <==>
                    if writes then at == i || (HasEntry(before, at) && at !in past) else HasEntry(before, at)
  }

  lemma WriteHas<T(!new)>(slots: Slots<T>, i: T, past: set<T>, slot: Slot, value: Written, s: Slot)
    requires DistinctAts(Get(slots, s))
    ensures Rewritten(Get(slots, s), Get(Write(slots, i, past, slot, value), s), s == slot, i, past)
  {
    if s == slot {
      var kept := Retain(Get(slots, slot), past + {i});
      RetainHas(Get(slots, slot), past + {i});
      AppendHas(kept, Entry(i, value));
      assert !HasEntry(kept, i);
    }
  }

  lemma EditHas<T(!new)>(slots: Slots<T>, i: T, past: set<T>, key: T -> (Key, Digest), e: Edit, s: Slot)
    requires DistinctAts(Get(slots, s))
    ensures Rewritten(Get(slots, s), Get(ApplyEdit(slots, i, past, key, e), s), SlotOf(e) == Some(s), i, past)
  {
    match e
    case Create(k) => WriteHas(slots, i, past, KindSlot, Text(k), s);
    case Set(name, v) => WriteHas(slots, i, past, SettingSlot(name), Text(v), s);
    case Change(name, splice) =>
      var base := BaseText(Get(slots, SettingSlot(name)), key);
      WriteHas(slots, i, past, SettingSlot(name), Text(Spliced(base, splice)), s);
    case PlaceAt(p) => WriteHas(slots, i, past, PlaceSlot, Placed(p), s);
    case Remove => WriteHas(slots, i, past, RemovedSlot, Gone, s);
    case _ =>
  }

  lemma WritesAmongAppend(rest: seq<Edit>, e: Edit, s: Slot)
    ensures WritesAmong(rest + [e], s) <==> WritesAmong(rest, s) || SlotOf(e) == Some(s)
  {
    if SlotOf(e) == Some(s) { assert e in rest + [e]; }
    if WritesAmong(rest, s) {
      var x :| x in rest && SlotOf(x) == Some(s);
      assert x in rest + [e];
    }
  }

  lemma {:induction false} EditsHave<T(!new)>(slots: Slots<T>, i: T, past: set<T>, key: T -> (Key, Digest),
          edits: seq<Edit>, s: Slot)
    requires DistinctAts(Get(slots, s))
    ensures Rewritten(Get(slots, s), Get(ApplyEdits(slots, i, past, key, edits), s), WritesAmong(edits, s), i, past)
    decreases |edits|
  {
    if edits == [] {
    } else {
      var n := |edits| - 1;
      EditsHave(slots, i, past, key, edits[..n], s);
      EditHas(ApplyEdits(slots, i, past, key, edits[..n]), i, past, key, edits[n], s);
      assert edits == edits[..n] + [edits[n]];
      WritesAmongAppend(edits[..n], edits[n], s);
    }
  }

  lemma CheckpointHas<T>(slots: Slots<T>, i: T, past: set<T>, state: map<Slot, Written>, s: Slot)
    requires DistinctAts(Get(slots, s))
    ensures var after := Get(ApplyCheckpoint(slots, i, past, state), s);
            && DistinctAts(after)
            && forall at ::
                 HasEntry(after, at) <==> (s in state && at == i) || (HasEntry(Get(slots, s), at) && at !in past)
  {
    var es := Get(slots, s);
    RetainHas(es, past);
    RetainHas(es, past + {i});
    if s in state { AppendHas(Retain(es, past + {i}), Entry(i, state[s])); }
    assert Get(ApplyCheckpoint(slots, i, past, state), s) == AfterCheckpoint(es, i, past, state, s);
  }

  /** `j` takes the place of `i` in the slot: it counts, was made over `i`, and writes the
      slot or is a checkpoint. */
  ghost predicate Supersedes(h: History, j: VersionId, i: VersionId, slot: Slot)
    requires j in h
  {
    Counts(h, j) && i in h[j].past && (WritesSlot(h[j].edits, slot) || IsCheckpoint(h[j].edits))
  }

  ghost predicate HoldsSlot(h: History, done: set<VersionId>, i: VersionId, slot: Slot)
    requires done <= h.Keys
  {
    && i in done && Counts(h, i) && WritesSlot(h[i].edits, slot)
    && forall j | j in done :: !Supersedes(h, j, i, slot)
  }

  ghost predicate HeldAsExpected(h: History, done: set<VersionId>, slots: Slots<VersionId>)
    requires done <= h.Keys
  {
    && (forall slot, at :: HasEntry(Get(slots, slot), at) <==> HoldsSlot(h, done, at, slot))
    && (forall slot :: DistinctAts(Get(slots, slot)))
  }

  /** Holding exactly as expected is kept to the end of the merge. */
  lemma {:induction false} MergeHolds(h: History, done: set<VersionId>, slots: Slots<VersionId>)
    requires WellFormed(h) && PastClosed(h, done) && HeldAsExpected(h, done, slots)
    ensures HeldAsExpected(h, h.Keys, MergeFrom(h, done, slots))
    decreases |h.Keys| - |done|
  {
    if done != h.Keys {
      SmallerSubset(done, h.Keys);
      StepHolds(h, done, slots, Next(h, done));
      MergeHolds(h, done + {Next(h, done)}, Step(h, slots, Next(h, done)));
    }
  }

  lemma StepHolds(h: History, done: set<VersionId>, before: Slots<VersionId>, i: VersionId)
    requires WellFormed(h) && done <= h.Keys && i in h && i !in done
    requires h[i].past <= done && forall j | j in done :: h[j].past <= done
    requires HeldAsExpected(h, done, before)
    ensures HeldAsExpected(h, done + {i}, Step(h, before, i))
  {
    forall slot
      ensures DistinctAts(Get(Step(h, before, i), slot))
    {
      StepHas(h, before, i, slot);
    }
    forall slot, at
      ensures HasEntry(Get(Step(h, before, i), slot), at) <==> HoldsSlot(h, done + {i}, at, slot)
    {
      StepHas(h, before, i, slot);
      OneMoreHolds(h, done, i, at, slot);
      assert HasEntry(Get(before, slot), at) <==> HoldsSlot(h, done, at, slot);
    }
  }

  lemma StepHas(h: History, before: Slots<VersionId>, i: VersionId, slot: Slot)
    requires i in h && DistinctAts(Get(before, slot))
    ensures DistinctAts(Get(Step(h, before, i), slot))
    ensures forall at :: HasEntry(Get(Step(h, before, i), slot), at) <==>
              if !Counts(h, i) then HasEntry(Get(before, slot), at)
              else
                || (at == i && WritesSlot(h[i].edits, slot))
                || (HasEntry(Get(before, slot), at) && !Supersedes(h, i, at, slot))
  {
    hide Counts, ApplyCheckpoint, ApplyEdits, StateSlots, DistinctAts, HasEntry;
    if Counts(h, i) {
      if IsCheckpoint(h[i].edits) {
        CheckpointHas(before, i, h[i].past, StateSlots(h[i].edits[0].state), slot);
      } else {
        EditsHave(before, i, h[i].past, KeyIn(h), h[i].edits, slot);
      }
    }
  }

  lemma OneMoreHolds(h: History, done: set<VersionId>, i: VersionId, at: VersionId, slot: Slot)
    requires WellFormed(h) && done <= h.Keys && i in h && i !in done
    requires h[i].past <= done && forall j | j in done :: h[j].past <= done
    ensures HoldsSlot(h, done + {i}, at, slot) <==>
              if !Counts(h, i) then HoldsSlot(h, done, at, slot)
              else
                || (at == i && WritesSlot(h[i].edits, slot))
                || (HoldsSlot(h, done, at, slot) && !Supersedes(h, i, at, slot))
  {
    assert i !in h[i].past;
    forall j | j in done ensures !Supersedes(h, j, i, slot) {
    }
  }

  // ---- The closed form -----------------------------------------------------------------

  /** After the loop a version is among a slot's alternatives exactly when it counts, writes
      the slot, and no counting version made over it writes the slot or is a checkpoint. */
  lemma ClosedForm(h: History, slot: Slot, at: VersionId)
    requires WellFormed(h)
    ensures HasEntry(Get(FinalSlots(h), slot), at) <==> HoldsSlot(h, h.Keys, at, slot)
  {
    FinalHeld(h);
    assert HasEntry(Get(FinalSlots(h), slot), at) <==> HoldsSlot(h, h.Keys, at, slot);
  }

  lemma FinalHeld(h: History)
    requires WellFormed(h)
    ensures HeldAsExpected(h, h.Keys, FinalSlots(h))
  {
    MergeHolds(h, {}, map[]);
  }

  /** The alternatives of a slot are pairwise concurrent, one per version. */
  lemma AlternativesAreConcurrent(h: History, slot: Slot, i: nat, j: nat)
    requires WellFormed(h)
    requires i < |Get(FinalSlots(h), slot)| && j < |Get(FinalSlots(h), slot)| && i != j
    ensures var es := Get(FinalSlots(h), slot);
            && es[i].at in h && es[j].at in h && es[i].at != es[j].at
            && es[i].at !in h[es[j].at].past && es[j].at !in h[es[i].at].past
  {
    FinalHeld(h);
    var es := Get(FinalSlots(h), slot);
    assert HasEntry(es, es[i].at) && HasEntry(es, es[j].at);
    assert HoldsSlot(h, h.Keys, es[i].at, slot) && HoldsSlot(h, h.Keys, es[j].at, slot);
    assert DistinctAts(es);
    assert !Supersedes(h, es[i].at, es[j].at, slot) && !Supersedes(h, es[j].at, es[i].at, slot);
  }

  // ---- The fixed order of alternatives ----------------------------------------------------

  ghost predicate SortedByKey<T>(es: seq<Entry<T>>, key: T -> (Key, Digest)) {
    forall i, j | 0 <= i < j < |es| :: KeyLeq(key(es[i].at), key(es[j].at))
  }

  lemma AppendSorts<T>(es: seq<Entry<T>>, e: Entry<T>, key: T -> (Key, Digest))
    requires SortedByKey(es, key)
    requires es != [] && (KeyLeq(key(es[|es| - 1].at), key(e.at))
                          || forall i | 0 <= i < |es| :: KeyLeq(key(es[i].at), key(e.at)))
    ensures SortedByKey(es + [e], key)
  {
    forall i | 0 <= i < |es| ensures KeyLeq(key(es[i].at), key(e.at)) {
      assert i < |es| - 1 ==> KeyLeq(key(es[i].at), key(es[|es| - 1].at));
    }
  }

  lemma {:induction false} InsertSorts<T>(es: seq<Entry<T>>, e: Entry<T>, key: T -> (Key, Digest))
    requires SortedByKey(es, key)
    ensures SortedByKey(Insert(es, e, key), key)
    ensures multiset(Insert(es, e, key)) == multiset(es) + multiset{e}
    decreases |es|
  {
    if es == [] {
    } else {
      var n := |es| - 1;
      assert es == es[..n] + [es[n]];
      if !KeyLeq(key(es[n].at), key(e.at)) {
        InsertSorts(es[..n], e, key);
        var inner := Insert(es[..n], e, key);
        hide Insert;
        forall i | 0 <= i < |inner| ensures KeyLeq(key(inner[i].at), key(es[n].at)) {
          assert inner[i] in multiset(inner);
          assert inner[i] == e || inner[i] in es[..n];
        }
        AppendSorts(inner, es[n], key);
      } else {
        AppendSorts(es, e, key);
      }
    }
  }

  lemma {:induction false} SortedSorts<T>(es: seq<Entry<T>>, key: T -> (Key, Digest))
    ensures SortedByKey(Sorted(es, key), key)
    ensures multiset(Sorted(es, key)) == multiset(es)
    decreases |es|
  {
    if es == [] {
    } else {
      var n := |es| - 1;
      assert es == es[..n] + [es[n]];
      SortedSorts(es[..n], key);
      InsertSorts(Sorted(es[..n], key), es[n], key);
    }
  }

  /** What the state shows of a slot is written by the holder with the least (writer,
      digest): nobody's alternative comes before it. */
  lemma ShownIsLeast(h: History, slot: Slot)
    requires WellFormed(h) && Get(FinalSlots(h), slot) != []
    ensures exists e :: e in Get(FinalSlots(h), slot)
              && First(Get(FinalSlots(h), slot), KeyIn(h)) == Some(e.value)
              && HoldsSlot(h, h.Keys, e.at, slot)
              && forall other | HoldsSlot(h, h.Keys, other, slot) :: KeyLeq(KeyIn(h)(e.at), KeyIn(h)(other))
  {
    FinalHeld(h);
    var es := Get(FinalSlots(h), slot);
    var s := Sorted(es, KeyIn(h));
    SortedSorts(es, KeyIn(h));
    assert |multiset(s)| == |multiset(es)|;
    var e := s[0];
    assert e in multiset(s) && e in multiset(es);
    assert e in es;
    assert HasEntry(es, e.at);
    forall other | HoldsSlot(h, h.Keys, other, slot) ensures KeyLeq(KeyIn(h)(e.at), KeyIn(h)(other)) {
      assert HasEntry(es, other);
      var k :| 0 <= k < |es| && es[k].at == other;
      assert es[k] in multiset(es) && es[k] in multiset(s);
      var m :| 0 <= m < |s| && s[m] == es[k];
    }
  }
}
