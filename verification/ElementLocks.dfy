/**
 What a lock does, said by writers and edits: whose it is, what frees it, whom it keeps from
 counting, and when the merged state shows it.
 */
module ElementLocks {
  import opened ElementModel

  /** The version is one checkpoint and nothing else. */
  predicate OnlyCheckpoint(v: Version) {
    |v.edits| == 1 && v.edits[0].Checkpoint?
  }

  /** The version takes `writer`'s lock of `s`: a lock of its own writer that it does not undo
      itself, or any lock in a checkpoint's state. */
  predicate TakesLock(v: Version, s: string, writer: Key) {
    if OnlyCheckpoint(v) then Lock(s, writer) in v.edits[0].state.locks
    else
      && v.id.writer == writer
      && exists k | 0 <= k < |v.edits| :: TookLast(v.edits, s, k)
  }

  predicate TookLast(edits: seq<Edit>, s: string, k: nat)
    requires k < |edits|
  {
    edits[k] == TakeLock(s) && forall j | k < j < |edits| :: edits[j] != Unlock(s)
  }

  /** The version leaves the lock alone: a checkpoint keeps it, and its holder does not unlock
      it. */
  predicate LeavesLock(v: Version, s: string, writer: Key) {
    if OnlyCheckpoint(v) then Lock(s, writer) in v.edits[0].state.locks
    else v.id.writer == writer ==> forall k | 0 <= k < |v.edits| :: v.edits[k] != Unlock(s)
  }

  /** `at` took the lock and nothing made over it freed it. */
  predicate InForce(h: History, at: VersionId, s: string, writer: Key) {
    at in h && TakesLock(h[at], s, writer) && forall n | n in h && at in h[n].past :: LeavesLock(h[n], s, writer)
  }

  predicate SetsOrChanges(v: Version, s: string) {
    exists k | 0 <= k < |v.edits| :: (v.edits[k].Set? || v.edits[k].Change?) && v.edits[k].setting == s
  }

  /** A lock in force keeps `id` out: someone else's, in its past, of a setting it writes. */
  predicate LocksOut(h: History, id: VersionId, at: VersionId, s: string, writer: Key)
    requires id in h
  {
    InForce(h, at, s, writer) && at in h[id].past && writer != id.writer && SetsOrChanges(h[id], s)
  }

  ghost predicate LockedOut(h: History, id: VersionId) {
    id in h && exists at, s, writer :: LocksOut(h, id, at, s, writer)
  }

  lemma {:induction false} TakenAre(edits: seq<Edit>, s: string)
    ensures s in Taken(edits) <==> exists k | 0 <= k < |edits| :: TookLast(edits, s, k)
    decreases |edits|
  {
    if edits != [] {
      var n := |edits| - 1;
      var rest := edits[..n];
      TakenAre(rest, s);
      assert forall k | 0 <= k < n :: TookLast(edits, s, k) <==> TookLast(rest, s, k) && edits[n] != Unlock(s);
      assert TookLast(edits, s, n) <==> edits[n] == TakeLock(s);
    }
  }

  lemma HoldsAre(h: History, l: Held<VersionId>)
    requires WellFormed(h)
    ensures Holds(h, l) <==> l.at in h && TakesLock(h[l.at], l.setting, l.holder)
  {
    if l.at in h { TakenAre(h[l.at].edits, l.setting); }
  }

  lemma LiftsAre(v: Version, s: string, writer: Key)
    ensures Lifts(v.id.writer, v.edits, Lock(s, writer)) <==> !LeavesLock(v, s, writer)
  {
  }

  lemma InForceAre(h: History, l: Held<VersionId>)
    requires WellFormed(h)
    ensures Holds(h, l) && !Lifted(h, l) <==> InForce(h, l.at, l.setting, l.holder)
  {
    HoldsAre(h, l);
    forall n | n in h
      ensures Lifts(n.writer, h[n].edits, Lock(l.setting, l.holder)) <==> !LeavesLock(h[n], l.setting, l.holder)
    {
      LiftsAre(h[n], l.setting, l.holder);
    }
    hide Lifts, LeavesLock, TakesLock, Holds;
  }

  lemma SettingsAre(v: Version, s: string)
    ensures s in SettingsWritten(v.edits) <==> SetsOrChanges(v, s)
  {
    if s in SettingsWritten(v.edits) {
      var e :| e in v.edits && (e.Set? || e.Change?) && e.setting == s;
      var k :| 0 <= k < |v.edits| && v.edits[k] == e;
    }
  }

  lemma BlocksAre(h: History, l: Held<VersionId>, id: VersionId)
    requires WellFormed(h) && id in h
    ensures Blocks(h, l, id) <==> LocksOut(h, id, l.at, l.setting, l.holder)
  {
    InForceAre(h, l);
    SettingsAre(h[id], l.setting);
    hide Holds, Lifted, InForce, SettingsWritten, SetsOrChanges;
  }

  /** A version counts exactly when no lock in force keeps it out. */
  lemma CountsExactlyWhen(h: History, id: VersionId)
    requires WellFormed(h) && id in h
    ensures Counts(h, id) <==> !LockedOut(h, id)
  {
    hide Blocks, LocksOut;
    if !Counts(h, id) {
      var l :| Blocks(h, l, id);
      BlocksAre(h, l, id);
    }
    if LockedOut(h, id) {
      var at, s, writer :| LocksOut(h, id, at, s, writer);
      BlocksAre(h, Held(s, writer, at), id);
    }
  }

  /** The merged state shows a lock exactly when it is in force somewhere. */
  lemma LockShownExactlyWhen(h: History, s: string, writer: Key)
    requires WellFormed(h)
    ensures Lock(s, writer) in MergedValue(h).state.locks <==> exists at :: InForce(h, at, s, writer)
  {
    hide Holds, Lifted, InForce, FinalSlots, AllLocks, ShownSettings, ShownText;
    assert MergedValue(h).state.locks == LocksInForce(h);
    if LockInForce(h, Lock(s, writer)) {
      var at :| at in h && Holds(h, Held(s, writer, at)) && !Lifted(h, Held(s, writer, at));
      InForceAre(h, Held(s, writer, at));
      InAllLocks(h, Held(s, writer, at));
    }
    if at :| InForce(h, at, s, writer) {
      InForceAre(h, Held(s, writer, at));
      InAllLocks(h, Held(s, writer, at));
    }
  }

  lemma InAllLocks(h: History, l: Held<VersionId>)
    requires Holds(h, l)
    ensures l.at in h && Lock(l.setting, l.holder) in AllLocks(h)
  {
  }

  /** A stranger's unlock does nothing: with a lock in force, whatever other writers do short of a
      checkpoint, their writes of the setting made over it do not count. */
  lemma LockHolds(h: History, at: VersionId, s: string, writer: Key, id: VersionId)
    requires WellFormed(h) && at in h && TakesLock(h[at], s, writer)
    requires forall n | n in h && at in h[n].past ::
               !OnlyCheckpoint(h[n]) && (n.writer == writer ==> Unlock(s) !in h[n].edits)
    requires id in h && at in h[id].past && id.writer != writer && SetsOrChanges(h[id], s)
    ensures !Counts(h, id) && Lock(s, writer) in MergedValue(h).state.locks
  {
    assert InForce(h, at, s, writer);
    assert LocksOut(h, id, at, s, writer);
    hide InForce, LocksOut;
    CountsExactlyWhen(h, id);
    LockShownExactlyWhen(h, s, writer);
  }
}
