/**
 A device over a whole run: versions applied, questions asked, and what is answered.
 Counting is monotone, and each version answered NotCounted is reported exactly once.
 */
module ElementReplica {
  import opened ElementModel

  /** `reported` holds the versions answered NotCounted and not yet reported counting. */
  datatype Replica = Replica(history: History, reported: set<VersionId>)

  datatype Event = Applies(version: Version) | AsksNowCounted

  ghost function AfterApply(r: Replica, v: Version): Replica {
    var h := Absorb(r.history, v);
    Replica(h, if Counts(h, v.id) then r.reported else r.reported + {v.id})
  }

  ghost predicate CountsIn(h: History, id: VersionId) {
    id in h && Counts(h, id)
  }

  /** What `now_counted` answers. */
  ghost function NowCounting(r: Replica): set<VersionId> {
    set id | id in r.reported && CountsIn(r.history, id)
  }

  ghost function AfterEvent(r: Replica, e: Event): Replica {
    match e
    case Applies(v) => AfterApply(r, v)
    case AsksNowCounted => r.(reported := r.reported - NowCounting(r))
  }

  /** The device before event `k` of the run. */
  ghost function Before(run: seq<Event>, k: nat): Replica
    requires k <= |run|
    decreases k
  {
    if k == 0 then Replica(map[], {}) else AfterEvent(Before(run, k - 1), run[k - 1])
  }

  lemma {:induction false} BeforeWellFormed(run: seq<Event>, k: nat)
    requires k <= |run|
    ensures WellFormed(Before(run, k).history) && Before(run, k).reported <= Before(run, k).history.Keys
    decreases k
  {
    if k > 0 {
      BeforeWellFormed(run, k - 1);
      if run[k - 1].Applies? { AbsorbWellFormed(Before(run, k - 1).history, run[k - 1].version); }
    }
  }

  /** Applying a version never makes one that counts stop counting: a lock that could block
      it is in its past, which is frozen, and nothing unlifts a lock. */
  lemma CountingIsMonotone(h: History, v: Version, id: VersionId)
    requires WellFormed(h) && CountsIn(h, id)
    ensures CountsIn(Absorb(h, v), id)
  {
    var h' := Absorb(h, v);
    forall l | Blocks(h', l, id) ensures Blocks(h, l, id) {
      assert l.at in h;
      if Lifted(h, l) { LiftedStays(h, v, l); }
    }
  }

  lemma LiftedStays(h: History, v: Version, l: Held<VersionId>)
    requires Lifted(h, l)
    ensures Lifted(Absorb(h, v), l)
  {
    var n :| n in h && l.at in h[n].past && Lifts(n.writer, h[n].edits, Lock(l.setting, l.holder));
    assert n in Absorb(h, v) && Absorb(h, v)[n] == h[n];
  }

  lemma {:induction false} CountsFromThenOn(run: seq<Event>, j: nat, k: nat, id: VersionId)
    requires j <= k <= |run| && CountsIn(Before(run, j).history, id)
    ensures CountsIn(Before(run, k).history, id)
    decreases k
  {
    if j < k {
      CountsFromThenOn(run, j, k - 1, id);
      BeforeWellFormed(run, k - 1);
      if run[k - 1].Applies? { CountingIsMonotone(Before(run, k - 1).history, run[k - 1].version, id); }
    }
  }

  /** Event `j` applies `id` and is answered NotCounted. */
  ghost predicate AnsweredNotCounted(run: seq<Event>, j: nat, id: VersionId) {
    && j < |run| && run[j].Applies? && run[j].version.id == id
    && !CountsIn(Before(run, j + 1).history, id)
  }

  /** Event `k` asks what counts by now, and the answer names `id`. */
  ghost predicate Reported(run: seq<Event>, k: nat, id: VersionId) {
    k < |run| && run[k].AsksNowCounted? && id in NowCounting(Before(run, k))
  }

  ghost predicate CountedWhenAsked(run: seq<Event>, m: nat, id: VersionId)
    requires m < |run|
  {
    run[m].AsksNowCounted? && CountsIn(Before(run, m).history, id)
  }

  ghost predicate EverNotCounted(run: seq<Event>, k: nat, id: VersionId) {
    exists j: nat | j < k :: AnsweredNotCounted(run, j, id)
  }

  ghost predicate NeverCountedWhenAsked(run: seq<Event>, k: nat, id: VersionId)
    requires k <= |run|
  {
    forall m: nat | m < k :: !CountedWhenAsked(run, m, id)
  }

  /** Waiting to be reported: answered NotCounted before, and at no question so far counting. */
  ghost predicate WaitingExactly(run: seq<Event>, k: nat, id: VersionId)
    requires k <= |run|
  {
    id in Before(run, k).reported <==> EverNotCounted(run, k, id) && NeverCountedWhenAsked(run, k, id)
  }

  lemma ReportedAfter(run: seq<Event>, k: nat, id: VersionId)
    requires k < |run|
    ensures id in Before(run, k + 1).reported <==>
            AnsweredNotCounted(run, k, id) || (id in Before(run, k).reported && !CountedWhenAsked(run, k, id))
  {
    assert Before(run, k + 1) == AfterEvent(Before(run, k), run[k]);
  }

  lemma NotCountedNeverBefore(run: seq<Event>, k: nat, id: VersionId)
    requires k < |run| && AnsweredNotCounted(run, k, id)
    ensures NeverCountedWhenAsked(run, k + 1, id)
  {
    forall m: nat | m < k + 1 ensures !CountedWhenAsked(run, m, id) {
      if CountedWhenAsked(run, m, id) { CountsFromThenOn(run, m, k + 1, id); }
    }
  }

  lemma WaitingOneMore(run: seq<Event>, k: nat, id: VersionId)
    requires k < |run| && WaitingExactly(run, k, id)
    ensures WaitingExactly(run, k + 1, id)
  {
    ReportedAfter(run, k, id);
    if AnsweredNotCounted(run, k, id) {
      NotCountedNeverBefore(run, k, id);
    } else {
      assert EverNotCounted(run, k + 1, id) <==> EverNotCounted(run, k, id);
      assert NeverCountedWhenAsked(run, k + 1, id)
          <==> NeverCountedWhenAsked(run, k, id) && !CountedWhenAsked(run, k, id);
    }
  }

  lemma {:induction false} WaitingAlways(run: seq<Event>, k: nat, id: VersionId)
    requires k <= |run|
    ensures WaitingExactly(run, k, id)
    decreases k
  {
    if k > 0 {
      WaitingAlways(run, k - 1, id);
      WaitingOneMore(run, k - 1, id);
    }
  }

  /** A question is answered with exactly the versions that count now, were answered
      NotCounted before, and counted at no earlier question. */
  lemma ReportedExactlyWhenFirstCounting(run: seq<Event>, k: nat, id: VersionId)
    requires k < |run| && run[k].AsksNowCounted?
    ensures Reported(run, k, id) <==>
            && CountsIn(Before(run, k).history, id)
            && EverNotCounted(run, k, id)
            && NeverCountedWhenAsked(run, k, id)
  {
    WaitingAlways(run, k, id);
  }

  /** No version is reported twice. */
  lemma ReportedAtMostOnce(run: seq<Event>, j: nat, k: nat, id: VersionId)
    requires Reported(run, j, id) && Reported(run, k, id)
    ensures j == k
  {
    ReportedExactlyWhenFirstCounting(run, j, id);
    ReportedExactlyWhenFirstCounting(run, k, id);
    if j < k { assert CountedWhenAsked(run, j, id); }
    if k < j { assert CountedWhenAsked(run, k, id); }
  }

  /** Once a version answered NotCounted counts, the next question that is asked has it, or an
      earlier one had. */
  lemma ReportedAtLeastOnce(run: seq<Event>, j: nat, k: nat, id: VersionId)
    requires j < k < |run| && AnsweredNotCounted(run, j, id) && CountedWhenAsked(run, k, id)
    ensures exists m: nat :: j < m <= k && Reported(run, m, id)
  {
    var m := j + 1;
    while !CountedWhenAsked(run, m, id)
      invariant j < m <= k && forall i: nat | j < i < m :: !CountedWhenAsked(run, i, id)
      decreases k - m
    {
      m := m + 1;
    }
    forall i: nat | i < m ensures !CountedWhenAsked(run, i, id) {
      if i <= j && CountedWhenAsked(run, i, id) { CountsFromThenOn(run, i, j + 1, id); }
    }
    ReportedExactlyWhenFirstCounting(run, m, id);
  }
}
