/**
 Checkpoint truncation: when every other applied version is in a checkpoint's past or is
 made over it, a device that never had the past shows the same value.
 */
module ElementCheckpoint {
  import opened Basics
  import opened ElementModel
  import opened ElementClosedForm
  import opened ElementConvergence

  ghost predicate Transitive(h: History) {
    forall a, b | b in h && a in h[b].past && a in h :: h[a].past <= h[b].past
  }

  /** `c` is a checkpoint, and every other version is in its past or made over it. */
  ghost predicate Covers(h: History, c: VersionId) {
    && c in h && IsCheckpoint(h[c].edits)
    && forall id | id in h :: id == c || id in h[c].past || c in h[id].past
  }

  /** The history without the checkpoint's past. */
  function Truncated(h: History, c: VersionId): History
    requires c in h
  {
    map id | id in h && id !in h[c].past :: h[id].(past := h[id].past - h[c].past)
  }

  ghost predicate Setting(h: History, c: VersionId) {
    WellFormed(h) && Transitive(h) && Covers(h, c)
  }

  lemma NotInOwnPast(h: History, id: VersionId)
    requires WellFormed(h) && id in h
    ensures id !in h[id].past
  {
    var X := {id};
    assert IsGroup(h, X);
    var x :| x in X && h[x].past !! X;
  }

  lemma TruncatedWellFormed(h: History, c: VersionId)
    requires Setting(h, c)
    ensures WellFormed(Truncated(h, c)) && c in Truncated(h, c)
  {
    NotInOwnPast(h, c);
    var t := Truncated(h, c);
    forall X | IsGroup(t, X)
      ensures exists x :: x in X && t[x].past !! X
    {
      assert IsGroup(h, X);
      var x :| x in X && h[x].past !! X;
      assert t[x].past !! X;
    }
  }

  // ---- Locks, counting and heads -----------------------------------------------------

  lemma LiftedAlike(h: History, c: VersionId, l: Held<VersionId>)
    requires Setting(h, c) && l.at in Truncated(h, c)
    ensures Lifted(h, l) <==> Lifted(Truncated(h, c), l)
  {
    var t := Truncated(h, c);
    if Lifted(h, l) {
      var n :| n in h && l.at in h[n].past && Lifts(n.writer, h[n].edits, Lock(l.setting, l.holder));
      assert n in t && l.at in t[n].past;
    }
    if Lifted(t, l) {
      var n :| n in t && l.at in t[n].past && Lifts(n.writer, t[n].edits, Lock(l.setting, l.holder));
      assert l.at in h[n].past;
    }
  }

  /** A lock of the past that is still in force is one the checkpoint keeps. */
  lemma KeptByCheckpoint(h: History, c: VersionId, l: Held<VersionId>)
    requires Setting(h, c) && l.at in h[c].past
    requires Holds(h, l) && !Lifted(h, l)
    ensures var kept := Held(l.setting, l.holder, c);
            Holds(Truncated(h, c), kept) && !Lifted(Truncated(h, c), kept)
  {
    TruncatedWellFormed(h, c);
    var t := Truncated(h, c);
    var kept := Held(l.setting, l.holder, c);
    assert Lock(l.setting, l.holder) in h[c].edits[0].state.locks by {
      assert !Lifts(c.writer, h[c].edits, Lock(l.setting, l.holder));
    }
  }

  lemma CountsAlike(h: History, c: VersionId, id: VersionId)
    requires Setting(h, c) && id in Truncated(h, c)
    ensures Counts(h, id) <==> Counts(Truncated(h, c), id)
  {
    var t := Truncated(h, c);
    if !Counts(t, id) {
      var l :| Blocks(t, l, id);
      LiftedAlike(h, c, l);
      assert Blocks(h, l, id);
    }
    if !Counts(h, id) {
      var l :| Blocks(h, l, id);
      if l.at in t {
        LiftedAlike(h, c, l);
        assert Blocks(t, l, id);
      } else {
        KeptByCheckpoint(h, c, l);
        NoSettingInCheckpoint(h[c].edits);
        assert id != c;
        NotInOwnPast(h, c);
        assert Blocks(t, Held(l.setting, l.holder, c), id);
      }
    }
  }

  lemma NoSettingInCheckpoint(edits: seq<Edit>)
    requires IsCheckpoint(edits)
    ensures SettingsWritten(edits) == {}
  {
  }

  lemma LocksAlike(h: History, c: VersionId)
    requires Setting(h, c)
    ensures LocksInForce(Truncated(h, c)) == LocksInForce(h)
  {
    var t := Truncated(h, c);
    forall lock | lock in LocksInForce(t) ensures lock in LocksInForce(h) {
      var at :| at in t && Holds(t, Held(lock.setting, lock.holder, at))
          && !Lifted(t, Held(lock.setting, lock.holder, at));
      LiftedAlike(h, c, Held(lock.setting, lock.holder, at));
      assert Holds(h, Held(lock.setting, lock.holder, at));
      assert lock in AllLocks(h);
    }
    forall lock | lock in LocksInForce(h) ensures lock in LocksInForce(t) {
      var at :| at in h && Holds(h, Held(lock.setting, lock.holder, at))
          && !Lifted(h, Held(lock.setting, lock.holder, at));
      var here := if at in t then at else c;
      if at in t {
        LiftedAlike(h, c, Held(lock.setting, lock.holder, at));
      } else {
        KeptByCheckpoint(h, c, Held(lock.setting, lock.holder, at));
      }
      assert Holds(t, Held(lock.setting, lock.holder, here)) && !Lifted(t, Held(lock.setting, lock.holder, here));
      assert lock in AllLocks(t);
    }
  }

  lemma HeadsAlike(h: History, c: VersionId)
    requires Setting(h, c)
    ensures Heads(Truncated(h, c)) == Heads(h)
  {
    var t := Truncated(h, c);
    forall id | id in t ensures IsHead(t, id) <==> IsHead(h, id) {
      if IsHead(t, id) {
        forall n | n in h ensures id !in h[n].past {
          if n in t { assert id !in t[n].past; }
        }
      }
      if IsHead(h, id) {
        forall n | n in t ensures id !in t[n].past {
          assert id !in h[n].past;
        }
      }
    }
    assert forall id | id in h && IsHead(h, id) :: id in t;
    forall x | x in Heads(h) ensures x in Heads(t) {
      var id :| id in h && IsHead(h, id) && x == Head(id.writer, id.number, h[id].digest);
      assert id in t && IsHead(t, id);
    }
    forall x | x in Heads(t) ensures x in Heads(h) {
      var id :| id in t && IsHead(t, id) && x == Head(id.writer, id.number, t[id].digest);
      assert IsHead(h, id);
    }
  }

  // ---- The order ---------------------------------------------------------------------

  lemma ReadyInPast(h: History, c: VersionId, done: set<VersionId>)
    requires Setting(h, c) && done < h[c].past
    ensures Ready(h, done) <= h[c].past
  {
    forall id | id in Ready(h, done) ensures id in h[c].past {
      if c in h[id].past {
        assert h[c].past <= h[id].past;
      }
    }
  }

  lemma ReadyAlike(h: History, c: VersionId, done: set<VersionId>)
    requires Setting(h, c)
    ensures Ready(h, h[c].past + done) == Ready(Truncated(h, c), done)
  {
  }

  /** With the checkpoint's past done, both orders take the same version next. */
  lemma NextAlike(h: History, c: VersionId, done: set<VersionId>)
    requires Setting(h, c) && WellFormed(Truncated(h, c)) && done < Truncated(h, c).Keys
    ensures h[c].past + done < h.Keys
    ensures Next(h, h[c].past + done) == Next(Truncated(h, c), done)
  {
    ReadyAlike(h, c, done);
    var w :| w in Truncated(h, c) && w !in done;
    assert w in h && w !in h[c].past + done;
  }

  // ---- The slots -----------------------------------------------------------------------

  ghost predicate AtsIn(es: seq<Entry<VersionId>>, ids: set<VersionId>) {
    forall k | 0 <= k < |es| :: es[k].at in ids
  }

  ghost predicate SlotsIn(slots: Slots<VersionId>, ids: set<VersionId>) {
    forall slot :: AtsIn(Get(slots, slot), ids)
  }

  lemma {:induction false} RetainAlike(es: seq<Entry<VersionId>>, ids: set<VersionId>, a: set<VersionId>,
          b: set<VersionId>)
    requires AtsIn(es, ids) && a * ids == b * ids
    ensures Retain(es, a) == Retain(es, b) && AtsIn(Retain(es, a), ids)
    decreases |es|
  {
    if es == [] {
    } else {
      var n := |es| - 1;
      RetainAlike(es[..n], ids, a, b);
      assert es[n].at in a <==> es[n].at in a * ids;
    }
  }

  ghost predicate KeysAlike(k1: VersionId -> (Key, Digest), k2: VersionId -> (Key, Digest), ids: set<VersionId>) {
    forall id | id in ids :: k1(id) == k2(id)
  }

  lemma {:induction false} SortedAlike(es: seq<Entry<VersionId>>, ids: set<VersionId>,
          k1: VersionId -> (Key, Digest), k2: VersionId -> (Key, Digest))
    requires AtsIn(es, ids) && KeysAlike(k1, k2, ids)
    ensures Sorted(es, k1) == Sorted(es, k2) && AtsIn(Sorted(es, k1), ids)
    decreases |es|
  {
    if es == [] {
    } else {
      var n := |es| - 1;
      SortedAlike(es[..n], ids, k1, k2);
      InsertAlike(Sorted(es[..n], k1), es[n], ids, k1, k2);
    }
  }

  lemma {:induction false} InsertAlike(es: seq<Entry<VersionId>>, e: Entry<VersionId>, ids: set<VersionId>,
          k1: VersionId -> (Key, Digest), k2: VersionId -> (Key, Digest))
    requires AtsIn(es, ids) && e.at in ids && KeysAlike(k1, k2, ids)
    ensures Insert(es, e, k1) == Insert(es, e, k2) && AtsIn(Insert(es, e, k1), ids)
    decreases |es|
  {
    if es == [] {
    } else {
      InsertAlike(es[..|es| - 1], e, ids, k1, k2);
    }
  }

  lemma PastsAlike(ids: set<VersionId>, i: VersionId, a: set<VersionId>, b: set<VersionId>)
    requires a * ids == b * ids
    ensures (a + {i}) * ids == (b + {i}) * ids
  {
    forall x | x in ids ensures x in a <==> x in b {
      assert x in a * ids <==> x in b * ids;
    }
  }

  lemma WriteAlike(slots: Slots<VersionId>, ids: set<VersionId>, i: VersionId, a: set<VersionId>,
          b: set<VersionId>, slot: Slot, value: Written)
    requires SlotsIn(slots, ids) && i in ids && a * ids == b * ids
    ensures Write(slots, i, a, slot, value) == Write(slots, i, b, slot, value)
    ensures SlotsIn(Write(slots, i, a, slot, value), ids)
  {
    PastsAlike(ids, i, a, b);
    RetainAlike(Get(slots, slot), ids, a + {i}, b + {i});
    forall s ensures AtsIn(Get(Write(slots, i, a, slot, value), s), ids) {
      if s != slot { assert Get(Write(slots, i, a, slot, value), s) == Get(slots, s); }
    }
  }

  lemma EditAlike(slots: Slots<VersionId>, ids: set<VersionId>, i: VersionId, a: set<VersionId>, b: set<VersionId>,
                  k1: VersionId -> (Key, Digest), k2: VersionId -> (Key, Digest), e: Edit)
    requires SlotsIn(slots, ids) && i in ids && a * ids == b * ids && KeysAlike(k1, k2, ids)
    ensures ApplyEdit(slots, i, a, k1, e) == ApplyEdit(slots, i, b, k2, e)
    ensures SlotsIn(ApplyEdit(slots, i, a, k1, e), ids)
  {
    match e
    case Create(k) => WriteAlike(slots, ids, i, a, b, KindSlot, Text(k));
    case Set(s, v) => WriteAlike(slots, ids, i, a, b, SettingSlot(s), Text(v));
    case Change(s, splice) =>
      SortedAlike(Get(slots, SettingSlot(s)), ids, k1, k2);
      WriteAlike(slots, ids, i, a, b, SettingSlot(s), Text(Spliced(BaseText(Get(slots, SettingSlot(s)), k1), splice)));
    case PlaceAt(p) => WriteAlike(slots, ids, i, a, b, PlaceSlot, Placed(p));
    case Remove => WriteAlike(slots, ids, i, a, b, RemovedSlot, Gone);
    case _ =>
  }

  lemma {:induction false} EditsAlike(slots: Slots<VersionId>, ids: set<VersionId>, i: VersionId,
          a: set<VersionId>, b: set<VersionId>,
                                      k1: VersionId -> (Key, Digest), k2: VersionId -> (Key, Digest), edits: seq<Edit>)
    requires SlotsIn(slots, ids) && i in ids && a * ids == b * ids && KeysAlike(k1, k2, ids)
    ensures ApplyEdits(slots, i, a, k1, edits) == ApplyEdits(slots, i, b, k2, edits)
    ensures SlotsIn(ApplyEdits(slots, i, a, k1, edits), ids)
    decreases |edits|
  {
    if edits == [] {
    } else {
      var n := |edits| - 1;
      EditsAlike(slots, ids, i, a, b, k1, k2, edits[..n]);
      EditAlike(ApplyEdits(slots, i, a, k1, edits[..n]), ids, i, a, b, k1, k2, edits[n]);
    }
  }

  lemma AfterCheckpointAlike(es: seq<Entry<VersionId>>, ids: set<VersionId>, i: VersionId, a: set<VersionId>,
          b: set<VersionId>, state: map<Slot, Written>, slot: Slot)
    requires AtsIn(es, ids) && i in ids && a * ids == b * ids
    ensures AfterCheckpoint(es, i, a, state, slot) == AfterCheckpoint(es, i, b, state, slot)
    ensures AtsIn(AfterCheckpoint(es, i, a, state, slot), ids)
  {
    RetainAlike(es, ids, a, b);
    PastsAlike(ids, i, a, b);
    RetainAlike(es, ids, a + {i}, b + {i});
  }

  lemma CheckpointAlike(slots: Slots<VersionId>, ids: set<VersionId>, i: VersionId, a: set<VersionId>,
          b: set<VersionId>, state: map<Slot, Written>)
    requires SlotsIn(slots, ids) && i in ids && a * ids == b * ids
    ensures ApplyCheckpoint(slots, i, a, state) == ApplyCheckpoint(slots, i, b, state)
    ensures SlotsIn(ApplyCheckpoint(slots, i, a, state), ids)
  {
    forall slot
      ensures AfterCheckpoint(Get(slots, slot), i, a, state, slot)
          == AfterCheckpoint(Get(slots, slot), i, b, state, slot)
      ensures AtsIn(Get(ApplyCheckpoint(slots, i, a, state), slot), ids)
    {
      AfterCheckpointAlike(Get(slots, slot), ids, i, a, b, state, slot);
    }
  }

  /** Past the checkpoint, one version does the same with and without the past. */
  /** What truncation leaves of a version. */
  lemma TruncatedAt(h: History, c: VersionId, id: VersionId)
    requires Setting(h, c) && id in Truncated(h, c)
    ensures var t := Truncated(h, c);
            && id in h && h[id].edits == t[id].edits && h[id].past * t.Keys == t[id].past * t.Keys
            && KeysAlike(KeyIn(h), KeyIn(t), t.Keys)
  {
  }

  lemma StepAlike(h: History, c: VersionId, slots: Slots<VersionId>, id: VersionId)
    requires Setting(h, c) && id in Truncated(h, c) && SlotsIn(slots, Truncated(h, c).Keys)
    ensures Step(h, slots, id) == Step(Truncated(h, c), slots, id)
    ensures SlotsIn(Step(h, slots, id), Truncated(h, c).Keys)
  {
    var t := Truncated(h, c);
    hide ApplyCheckpoint, ApplyEdits, Counts, StateSlots, SlotsIn, Truncated, Setting, KeysAlike;
    CountsAlike(h, c, id);
    TruncatedAt(h, c, id);
    hide KeyIn;
    if IsCheckpoint(h[id].edits) {
      CheckpointAlike(slots, t.Keys, id, h[id].past, t[id].past, StateSlots(h[id].edits[0].state));
    } else {
      EditsAlike(slots, t.Keys, id, h[id].past, t[id].past, KeyIn(h), KeyIn(t), h[id].edits);
    }
  }

  lemma {:induction false} RetainNone(es: seq<Entry<VersionId>>, dropped: set<VersionId>)
    requires AtsIn(es, dropped)
    ensures Retain(es, dropped) == []
    decreases |es|
  {
    if es != [] { RetainNone(es[..|es| - 1], dropped); }
  }

  lemma SlotCleared(es: seq<Entry<VersionId>>, c: VersionId, past: set<VersionId>, state: map<Slot, Written>,
                    slot: Slot)
    requires AtsIn(es, past)
    ensures AfterCheckpoint(es, c, past, state, slot) == if slot in state then [Entry(c, state[slot])] else []
  {
    RetainNone(es, past);
    RetainNone(es, past + {c});
  }

  /** The checkpoint itself leaves its own state and nothing of its past. */
  lemma CheckpointClears(slots: Slots<VersionId>, c: VersionId, past: set<VersionId>, state: map<Slot, Written>)
    requires SlotsIn(slots, past)
    ensures ApplyCheckpoint(slots, c, past, state) == ApplyCheckpoint(map[], c, {}, state)
    ensures SlotsIn(ApplyCheckpoint(slots, c, past, state), {c})
  {
    hide Retain, AfterCheckpoint;
    var none: Slots<VersionId> := map[];
    forall slot
      ensures AfterCheckpoint(Get(slots, slot), c, past, state, slot)
          == AfterCheckpoint(Get(none, slot), c, {}, state, slot)
      ensures AfterCheckpoint(Get(slots, slot), c, past, state, slot)
          == if slot in state then [Entry(c, state[slot])] else []
    {
      SlotCleared(Get(slots, slot), c, past, state, slot);
      SlotCleared(Get(none, slot), c, {}, state, slot);
    }
  }

  /** The past is merged first, and leaves only entries of the past. */
  lemma {:induction false} PastFirst(h: History, c: VersionId, done: set<VersionId>, slots: Slots<VersionId>)
    returns (left: Slots<VersionId>)
    requires Setting(h, c) && done <= h[c].past && PastClosed(h, done) && HeldAsExpected(h, done, slots)
    ensures MergeFrom(h, done, slots) == MergeFrom(h, h[c].past, left)
    ensures SlotsIn(left, h[c].past)
    decreases |h[c].past| - |done|
  {
    if done == h[c].past {
      left := slots;
      forall slot, k | 0 <= k < |Get(slots, slot)| ensures Get(slots, slot)[k].at in h[c].past {
        assert HasEntry(Get(slots, slot), Get(slots, slot)[k].at);
      }
    } else {
      SmallerSubset(done, h[c].past);
      ReadyInPast(h, c, done);
      assert c !in done by { NotInOwnPast(h, c); }
      var next := Next(h, done);
      StepHolds(h, done, slots, next);
      left := PastFirst(h, c, done + {next}, Step(h, slots, next));
    }
  }

  lemma UnionAssoc<T>(a: set<T>, b: set<T>, c: set<T>)
    ensures (a + b) + c == a + (b + c)
  {
  }

  lemma RestStep(h: History, c: VersionId, t: History, done: set<VersionId>, slots: Slots<VersionId>)
    returns (more: set<VersionId>, after: Slots<VersionId>)
    requires Setting(h, c) && t == Truncated(h, c) && WellFormed(t)
    requires done < t.Keys && SlotsIn(slots, t.Keys)
    ensures done < more <= t.Keys && SlotsIn(after, t.Keys)
    ensures h[c].past + more <= h.Keys
    ensures MergeFrom(h, h[c].past + done, slots) == MergeFrom(h, h[c].past + more, after)
    ensures MergeFrom(t, done, slots) == MergeFrom(t, more, after)
  {
    NextAlike(h, c, done);
    var next := Next(t, done);
    more, after := done + {next}, Step(t, slots, next);
    StepAlike(h, c, slots, next);
    MergeStep(h, h[c].past + done, slots);
    MergeStep(t, done, slots);
    UnionAssoc(h[c].past, done, {next});
  }

  lemma AllMerged(h: History, c: VersionId, t: History, slots: Slots<VersionId>)
    requires Setting(h, c) && t == Truncated(h, c) && WellFormed(t)
    ensures h[c].past + t.Keys == h.Keys
    ensures MergeFrom(h, h.Keys, slots) == slots == MergeFrom(t, t.Keys, slots)
  {
  }

  /** Once the checkpoint is merged, both merges go on alike. */
  lemma {:induction false} RestAlike(h: History, c: VersionId, t: History, done: set<VersionId>,
          slots: Slots<VersionId>)
    requires Setting(h, c) && t == Truncated(h, c) && WellFormed(t)
    requires done <= t.Keys && SlotsIn(slots, t.Keys)
    ensures h[c].past + done <= h.Keys && MergeFrom(h, h[c].past + done, slots) == MergeFrom(t, done, slots)
    ensures SlotsIn(MergeFrom(t, done, slots), t.Keys)
    decreases |t.Keys| - |done|
  {
    hide Setting, MergeFrom, WellFormed, SlotsIn;
    if done == t.Keys {
      AllMerged(h, c, t, slots);
    } else {
      SmallerSubset(done, t.Keys);
      var more, after := RestStep(h, c, t, done, slots);
      SmallerSubset(done, more);
      RestAlike(h, c, t, more, after);
    }
  }

  lemma SlotsAlike(h: History, c: VersionId)
    requires Setting(h, c) && WellFormed(Truncated(h, c))
    ensures FinalSlots(h) == FinalSlots(Truncated(h, c))
    ensures SlotsIn(FinalSlots(h), Truncated(h, c).Keys)
  {
    var t := Truncated(h, c);
    TruncatedWellFormed(h, c);
    var left := PastFirst(h, c, {}, map[]);
    FirstIsCheckpoint(h, c);
    NextAlike(h, c, {});
    assert h[c].past + {} == h[c].past;
    CheckpointCounts(h, c);
    CheckpointCounts(t, c);
    CheckpointClears(left, c, h[c].past, StateSlots(h[c].edits[0].state));
    var after := Step(h, left, c);
    assert t[c].past == {};
    assert after == Step(t, map[], c);
    assert {} + {c} == {c};
    RestAlike(h, c, t, {c}, after);
  }

  lemma CheckpointCounts(h: History, c: VersionId)
    requires c in h && IsCheckpoint(h[c].edits)
    ensures Counts(h, c)
  {
    NoSettingInCheckpoint(h[c].edits);
  }

  lemma FirstIsCheckpoint(h: History, c: VersionId)
    requires Setting(h, c) && WellFormed(Truncated(h, c))
    ensures {} < Truncated(h, c).Keys && Next(Truncated(h, c), {}) == c
  {
    TruncatedWellFormed(h, c);
    assert c in Truncated(h, c).Keys;
    var id := Next(Truncated(h, c), {});
    assert id in Truncated(h, c) && Truncated(h, c)[id].past <= {};
    assert c !in Truncated(h, c)[id].past;
  }

  /** Dropping everything the checkpoint replaced leaves the whole merged value unchanged,
      and every remaining version counts as before. */
  lemma Truncation(h: History, c: VersionId)
    requires WellFormed(h) && Transitive(h) && Covers(h, c)
    ensures WellFormed(Truncated(h, c)) && MergedValue(Truncated(h, c)) == MergedValue(h)
    ensures forall id | id in Truncated(h, c) :: Counts(Truncated(h, c), id) <==> Counts(h, id)
  {
    TruncatedWellFormed(h, c);
    ValueAlike(h, c);
    forall id | id in Truncated(h, c) ensures Counts(Truncated(h, c), id) <==> Counts(h, id) {
      CountsAlike(h, c, id);
    }
  }

  lemma ValueAlike(h: History, c: VersionId)
    requires Setting(h, c) && WellFormed(Truncated(h, c))
    ensures MergedValue(Truncated(h, c)) == MergedValue(h)
  {
    var t := Truncated(h, c);
    SlotsAlike(h, c);
    ShownAlike(FinalSlots(h), t.Keys, KeyIn(t), KeyIn(h));
    LocksAlike(h, c);
    HeadsAlike(h, c);
    ValueFromParts(h, t);
  }

  lemma ValueFromParts(h: History, t: History)
    requires WellFormed(h) && WellFormed(t)
    requires FinalSlots(t) == FinalSlots(h) && LocksInForce(t) == LocksInForce(h) && Heads(t) == Heads(h)
    requires ShownState(FinalSlots(h), KeyIn(t), {}) == ShownState(FinalSlots(h), KeyIn(h), {})
    requires ShownVariants(FinalSlots(h), KeyIn(t)) == ShownVariants(FinalSlots(h), KeyIn(h))
    ensures MergedValue(t) == MergedValue(h)
  {
    var slots, locks := FinalSlots(h), LocksInForce(h);
    assert ShownState(slots, KeyIn(t), locks) == ShownState(slots, KeyIn(t), {}).(locks := locks);
    assert ShownState(slots, KeyIn(h), locks) == ShownState(slots, KeyIn(h), {}).(locks := locks);
  }

  lemma ShownAlike(slots: Slots<VersionId>, ids: set<VersionId>, k1: VersionId -> (Key, Digest),
          k2: VersionId -> (Key, Digest))
    requires SlotsIn(slots, ids) && KeysAlike(k1, k2, ids)
    ensures ShownState(slots, k1, {}) == ShownState(slots, k2, {})
    ensures ShownVariants(slots, k1) == ShownVariants(slots, k2)
  {
    forall slot
      ensures First(Get(slots, slot), k1) == First(Get(slots, slot), k2)
      ensures Alternatives(Get(slots, slot), k1) == Alternatives(Get(slots, slot), k2)
    {
      SortedAlike(Get(slots, slot), ids, k1, k2);
    }
    SameState(slots, k1, slots, k2);
    SameVariants(slots, k1, slots, k2);
  }

  // ---- Devices that start from the checkpoint --------------------------------------------------

  /** The versions a device has that starts from the checkpoint. */
  function FromCheckpoint(vs: set<Version>, c: Version): set<Version> {
    set v | v in vs && v.id !in c.past
  }

  lemma LateAt(vs: set<Version>, c: Version, v: Version)
    requires UniqueIds(vs) && UniqueIds(FromCheckpoint(vs, c)) && c in vs && v in FromCheckpoint(vs, c)
    ensures c.id in Intended(vs) && v.id in Truncated(Intended(vs), c.id)
    ensures v.id in Intended(FromCheckpoint(vs, c))
    ensures Intended(FromCheckpoint(vs, c))[v.id] == Truncated(Intended(vs), c.id)[v.id]
  {
    IntendedAt(vs, c);
    IntendedAt(vs, v);
    hide Intended;
    IntendedAt(FromCheckpoint(vs, c), v);
    LatePast(vs, c, v);
  }

  lemma LateIds(vs: set<Version>, c: Version, id: VersionId) returns (v: Version)
    requires UniqueIds(vs) && c in vs && c.id in Intended(vs) && id in Truncated(Intended(vs), c.id)
    ensures v in FromCheckpoint(vs, c) && v.id == id
  {
    IntendedAt(vs, c);
    v :| v in vs && v.id == id;
  }

  lemma LateUnique(vs: set<Version>, c: Version)
    requires UniqueIds(vs)
    ensures UniqueIds(FromCheckpoint(vs, c))
  {
  }

  lemma LateKeys(vs: set<Version>, c: Version, id: VersionId)
    requires UniqueIds(vs) && UniqueIds(FromCheckpoint(vs, c)) && c in vs
    ensures c.id in Intended(vs)
    ensures id in Intended(FromCheckpoint(vs, c)) <==> id in Truncated(Intended(vs), c.id)
    ensures id in Intended(FromCheckpoint(vs, c)) ==>
              Intended(FromCheckpoint(vs, c))[id] == Truncated(Intended(vs), c.id)[id]
  {
    var late := FromCheckpoint(vs, c);
    IntendedKeys(late);
    IntendedAt(vs, c);
    hide Intended, UniqueIds, Truncated, FromCheckpoint;
    if id in Intended(late) {
      var v :| v in late && v.id == id;
      LateAt(vs, c, v);
    }
    if id in Truncated(Intended(vs), c.id) {
      var v := LateIds(vs, c, id);
      IntendedAt(late, v);
    }
  }

  lemma TruncatedIsIntended(vs: set<Version>, c: Version)
    requires UniqueIds(vs) && c in vs
    ensures UniqueIds(FromCheckpoint(vs, c))
    ensures c.id in Intended(vs) && Intended(FromCheckpoint(vs, c)) == Truncated(Intended(vs), c.id)
  {
    hide Intended, UniqueIds, Truncated, FromCheckpoint, Ids;
    LateUnique(vs, c);
    IntendedAt(vs, c);
    var all, t := Intended(FromCheckpoint(vs, c)), Truncated(Intended(vs), c.id);
    forall id ensures id in all <==> id in t
              ensures id in all ==> all[id] == t[id]
    {
      LateKeys(vs, c, id);
    }
  }

  lemma LatePast(vs: set<Version>, c: Version, v: Version)
    requires UniqueIds(vs)
    ensures v.past * Ids(FromCheckpoint(vs, c)) == v.past * Ids(vs) - c.past * Ids(vs)
  {
    forall id | id in v.past ensures id in Ids(FromCheckpoint(vs, c)) <==> id in Ids(vs) && id !in c.past {
      if id in Ids(vs) && id !in c.past {
        var w :| w in vs && w.id == id;
        assert w in FromCheckpoint(vs, c);
      }
    }
  }

  /** A device that applied everything and one that never had the checkpoint's past hold the
      same value, each after any causal delivery. */
  lemma LateDeviceAgrees(whole: seq<Version>, late: seq<Version>, c: Version)
    requires UniqueIds(Elems(whole)) && Causal(whole) && Causal(late)
    requires c in Elems(whole) && Elems(late) == FromCheckpoint(Elems(whole), c)
    requires Transitive(Delivered(whole)) && Covers(Delivered(whole), c.id)
    ensures WellFormed(Delivered(whole)) && WellFormed(Delivered(late))
    ensures MergedValue(Delivered(late)) == MergedValue(Delivered(whole))
  {
    DeliveredWellFormed(whole);
    DeliveredWellFormed(late);
    DeliveredIsIntended(whole);
    TruncatedIsIntended(Elems(whole), c);
    DeliveredIsIntended(late);
    Truncation(Delivered(whole), c.id);
  }
}
