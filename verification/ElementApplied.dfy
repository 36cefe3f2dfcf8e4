/**
 The applied versions as the source keeps them: nodes in arrival order, pasts as sets
 of node indices frozen at arrival, a slot map edited in place.  Every method is proved
 against the history-level functions of `ElementModel`.
 */
module ElementApplied {
  import opened Basics
  import opened Options
  import opened ElementModel
  import opened ElementConvergence
  import opened ElementReplica
  import opened ElementLocks

  datatype Node = Node(id: VersionId, digest: Digest, edits: seq<Edit>, past: set<nat>)
  datatype Counting = Counted | NotCounted

  // ---- Indices and ids -----------------------------------------------------------

  function IdAt(nodes: seq<Node>, i: nat): VersionId {
    if i < |nodes| then nodes[i].id else VersionId(0, 0)
  }

  function IdsAt(nodes: seq<Node>, s: set<nat>): set<VersionId> {
    set i | i in s :: IdAt(nodes, i)
  }

  function AsVersion(nodes: seq<Node>, i: nat): Version
    requires i < |nodes|
  {
    Version(nodes[i].id, nodes[i].digest, IdsAt(nodes, nodes[i].past), nodes[i].edits)
  }

  ghost predicate PastBefore(nodes: seq<Node>) {
    forall i, p | 0 <= i < |nodes| && p in nodes[i].past :: p < i
  }

  ghost predicate DistinctIds(nodes: seq<Node>) {
    forall i, j | 0 <= i < |nodes| && 0 <= j < |nodes| && nodes[i].id == nodes[j].id :: i == j
  }

  /** `nodes` holds exactly the versions of `h`. */
  ghost predicate Represents(nodes: seq<Node>, h: History) {
    && PastBefore(nodes)
    && DistinctIds(nodes)
    && (forall i | 0 <= i < |nodes| :: nodes[i].id in h && h[nodes[i].id] == AsVersion(nodes, i))
    && (forall id | id in h :: exists i :: 0 <= i < |nodes| && nodes[i].id == id)
  }

  lemma {:induction false} IdsCount(nodes: seq<Node>)
    requires DistinctIds(nodes)
    ensures |set i | 0 <= i < |nodes| :: nodes[i].id| == |nodes|
    decreases |nodes|
  {
    var ids := set i | 0 <= i < |nodes| :: nodes[i].id;
    if nodes == [] {
      assert ids == {};
    } else {
      var n := |nodes| - 1;
      var rest := nodes[..n];
      IdsCount(rest);
      var restIds := set i | 0 <= i < |rest| :: rest[i].id;
      assert ids == restIds + {nodes[n].id} by {
        forall id | id in ids ensures id in restIds + {nodes[n].id} {
          var i :| 0 <= i < |nodes| && nodes[i].id == id;
          if i < n { assert rest[i].id == id; }
        }
        forall id | id in restIds ensures id in ids {
          var i :| 0 <= i < |rest| && rest[i].id == id;
          assert nodes[i].id == id;
        }
      }
      assert nodes[n].id !in restIds;
    }
  }

  lemma SameSize(nodes: seq<Node>, h: History)
    requires Represents(nodes, h)
    ensures |h| == |nodes|
  {
    IdsCount(nodes);
    assert h.Keys == set i | 0 <= i < |nodes| :: nodes[i].id;
  }

  lemma InPastAgree(nodes: seq<Node>, s: set<nat>, at: nat)
    requires DistinctIds(nodes) && at < |nodes|
    requires forall p | p in s :: p < |nodes|
    ensures at in s <==> nodes[at].id in IdsAt(nodes, s)
  {
    if nodes[at].id in IdsAt(nodes, s) {
      var p :| p in s && IdAt(nodes, p) == nodes[at].id;
      assert p == at;
    }
    if at in s { assert IdAt(nodes, at) in IdsAt(nodes, s); }
  }

  // ---- Locks and counting over nodes ---------------------------------------------

  predicate LiftedAt(nodes: seq<Node>, l: Held<nat>) {
    exists i | 0 <= i < |nodes| ::
      l.at in nodes[i].past && Lifts(nodes[i].id.writer, nodes[i].edits, Lock(l.setting, l.holder))
  }

  predicate TakenAt(nodes: seq<Node>, l: Held<nat>) {
    l.at < |nodes| && Lock(l.setting, l.holder) in LocksTaken(nodes[l.at].id.writer, nodes[l.at].edits)
  }

  predicate BlocksAt(nodes: seq<Node>, l: Held<nat>, i: nat)
    requires i < |nodes|
  {
    && l.holder != nodes[i].id.writer
    && l.at in nodes[i].past
    && l.setting in SettingsWritten(nodes[i].edits)
    && !LiftedAt(nodes, l)
  }

  predicate BlockedAmong(nodes: seq<Node>, i: nat, locks: set<Held<nat>>)
    requires i < |nodes|
  {
    exists l | l in locks :: BlocksAt(nodes, l, i)
  }

  function AsHeld(nodes: seq<Node>, l: Held<nat>): Held<VersionId> {
    Held(l.setting, l.holder, IdAt(nodes, l.at))
  }

  lemma LiftedAgree(nodes: seq<Node>, h: History, l: Held<nat>)
    requires Represents(nodes, h) && l.at < |nodes|
    ensures LiftedAt(nodes, l) <==> Lifted(h, AsHeld(nodes, l))
  {
    var hl := AsHeld(nodes, l);
    if LiftedAt(nodes, l) {
      var i :| 0 <= i < |nodes| && l.at in nodes[i].past
          && Lifts(nodes[i].id.writer, nodes[i].edits, Lock(l.setting, l.holder));
      InPastAgree(nodes, nodes[i].past, l.at);
      assert hl.at in h[nodes[i].id].past;
    }
    if Lifted(h, hl) {
      var n :| n in h && hl.at in h[n].past && Lifts(n.writer, h[n].edits, Lock(hl.setting, hl.holder));
      var i :| 0 <= i < |nodes| && nodes[i].id == n;
      InPastAgree(nodes, nodes[i].past, l.at);
    }
  }

  lemma BlocksAgree(nodes: seq<Node>, h: History, l: Held<nat>, i: nat)
    requires Represents(nodes, h) && l.at < |nodes| && i < |nodes|
    ensures TakenAt(nodes, l) && BlocksAt(nodes, l, i) <==> Blocks(h, AsHeld(nodes, l), nodes[i].id)
  {
    LiftedAgree(nodes, h, l);
    InPastAgree(nodes, nodes[i].past, l.at);
  }

  lemma CountsAgree(nodes: seq<Node>, h: History, i: nat, locks: set<Held<nat>>)
    requires Represents(nodes, h) && i < |nodes|
    requires forall l :: l in locks <==> TakenAt(nodes, l)
    ensures Counts(h, nodes[i].id) <==> !BlockedAmong(nodes, i, locks)
  {
    var id := nodes[i].id;
    if BlockedAmong(nodes, i, locks) {
      var l :| l in locks && BlocksAt(nodes, l, i);
      BlocksAgree(nodes, h, l, i);
    }
    if !Counts(h, id) {
      var hl :| Blocks(h, hl, id);
      var k: nat :| k < |nodes| && nodes[k].id == hl.at;
      var l: Held<nat> := Held(hl.setting, hl.holder, k);
      BlocksAgree(nodes, h, l, i);
      assert l in locks && BlocksAt(nodes, l, i);
    }
  }

  lemma InForceHere(nodes: seq<Node>, h: History, l: Held<nat>)
    requires Represents(nodes, h) && TakenAt(nodes, l) && !LiftedAt(nodes, l)
    ensures Lock(l.setting, l.holder) in LocksInForce(h)
  {
    LiftedAgree(nodes, h, l);
    hide LiftedAt, Lifted;
    assert Holds(h, Held(l.setting, l.holder, nodes[l.at].id));
    assert Lock(l.setting, l.holder) in AllLocks(h);
  }

  lemma InForceThere(nodes: seq<Node>, h: History, lock: Lock) returns (l: Held<nat>)
    requires Represents(nodes, h) && lock in LocksInForce(h)
    ensures TakenAt(nodes, l) && !LiftedAt(nodes, l) && Lock(l.setting, l.holder) == lock
  {
    hide LiftedAt, Lifted;
    var at :| at in h && Holds(h, Held(lock.setting, lock.holder, at))
        && !Lifted(h, Held(lock.setting, lock.holder, at));
    var k: nat :| k < |nodes| && nodes[k].id == at;
    l := Held(lock.setting, lock.holder, k);
    LiftedAgree(nodes, h, l);
  }

  lemma LocksInForceAgree(nodes: seq<Node>, h: History, locks: set<Held<nat>>)
    requires Represents(nodes, h)
    requires forall l :: l in locks <==> TakenAt(nodes, l)
    ensures (set l | l in locks && !LiftedAt(nodes, l) :: Lock(l.setting, l.holder)) == LocksInForce(h)
  {
    hide Represents, TakenAt, LiftedAt, LocksInForce;
    var here := set l | l in locks && !LiftedAt(nodes, l) :: Lock(l.setting, l.holder);
    forall lock | lock in here ensures lock in LocksInForce(h) {
      var l :| l in locks && !LiftedAt(nodes, l) && Lock(l.setting, l.holder) == lock;
      InForceHere(nodes, h, l);
    }
    forall lock | lock in LocksInForce(h) ensures lock in here {
      var l := InForceThere(nodes, h, lock);
      assert l in locks;
    }
  }

  // ---- Slots over node indices -----------------------------------------------------

  function Lift(nodes: seq<Node>, es: seq<Entry<nat>>): seq<Entry<VersionId>> {
    seq(|es|, i requires 0 <= i < |es| => Entry(IdAt(nodes, es[i].at), es[i].value))
  }

  ghost predicate InRange(nodes: seq<Node>, es: seq<Entry<nat>>) {
    forall i | 0 <= i < |es| :: es[i].at < |nodes|
  }

  function KeyAt(nodes: seq<Node>): nat -> (Key, Digest) {
    (i: nat) => (IdAt(nodes, i).writer, if i < |nodes| then nodes[i].digest else 0)
  }

  /** The in-place slot map stands for the history's one; it may hold emptied lists. */
  ghost predicate Refines(nodes: seq<Node>, slots: Slots<nat>, spec: Slots<VersionId>) {
    && (forall slot :: InRange(nodes, Get(slots, slot)))
    && (forall slot :: Lift(nodes, Get(slots, slot)) == Get(spec, slot))
  }

  lemma {:induction false} RetainLift(nodes: seq<Node>, es: seq<Entry<nat>>, dropped: set<nat>)
    requires DistinctIds(nodes) && InRange(nodes, es) && forall p | p in dropped :: p < |nodes|
    ensures InRange(nodes, Retain(es, dropped))
    ensures Lift(nodes, Retain(es, dropped)) == Retain(Lift(nodes, es), IdsAt(nodes, dropped))
    decreases |es|
  {
    if es == [] {
    } else {
      var n := |es| - 1;
      RetainLift(nodes, es[..n], dropped);
      InPastAgree(nodes, dropped, es[n].at);
      assert es == es[..n] + [es[n]];
      LiftAppend(nodes, es[..n], es[n]);
      LiftAppend(nodes, Retain(es[..n], dropped), es[n]);
      hide Lift, IdsAt, DistinctIds;
      assert Lift(nodes, es)[..n] == Lift(nodes, es[..n]);
    }
  }

  lemma KeysLift(nodes: seq<Node>, h: History, i: nat)
    requires Represents(nodes, h) && i < |nodes|
    ensures KeyAt(nodes)(i) == KeyIn(h)(IdAt(nodes, i))
  {
  }

  lemma {:induction false} InsertInRange(nodes: seq<Node>, es: seq<Entry<nat>>, e: Entry<nat>)
    requires InRange(nodes, es) && e.at < |nodes|
    ensures InRange(nodes, Insert(es, e, KeyAt(nodes)))
    decreases |es|
  {
    if es != [] { InsertInRange(nodes, es[..|es| - 1], e); }
  }

  lemma {:induction false} InsertLift(nodes: seq<Node>, h: History, es: seq<Entry<nat>>, e: Entry<nat>)
    requires Represents(nodes, h) && InRange(nodes, es) && e.at < |nodes|
    ensures Lift(nodes, Insert(es, e, KeyAt(nodes)))
        == Insert(Lift(nodes, es), Entry(IdAt(nodes, e.at), e.value), KeyIn(h))
    decreases |es|
  {
    hide Represents;
    if es == [] {
    } else {
      var n := |es| - 1;
      InsertLift(nodes, h, es[..n], e);
      assert Lift(nodes, es)[..n] == Lift(nodes, es[..n]);
      KeysLift(nodes, h, es[n].at);
      KeysLift(nodes, h, e.at);
    }
  }

  lemma {:induction false} SortedLift(nodes: seq<Node>, h: History, es: seq<Entry<nat>>)
    requires Represents(nodes, h) && InRange(nodes, es)
    ensures InRange(nodes, Sorted(es, KeyAt(nodes)))
    ensures Lift(nodes, Sorted(es, KeyAt(nodes))) == Sorted(Lift(nodes, es), KeyIn(h))
    decreases |es|
  {
    if es == [] {
    } else {
      var n := |es| - 1;
      SortedLift(nodes, h, es[..n]);
      assert Lift(nodes, es)[..n] == Lift(nodes, es[..n]);
      InsertInRange(nodes, Sorted(es[..n], KeyAt(nodes)), es[n]);
      InsertLift(nodes, h, Sorted(es[..n], KeyAt(nodes)), es[n]);
    }
  }

  lemma FirstLift(nodes: seq<Node>, h: History, es: seq<Entry<nat>>)
    requires Represents(nodes, h) && InRange(nodes, es)
    ensures First(es, KeyAt(nodes)) == First(Lift(nodes, es), KeyIn(h))
  {
    SortedLift(nodes, h, es);
    assert |Lift(nodes, Sorted(es, KeyAt(nodes)))| == |Sorted(es, KeyAt(nodes))|;
  }

  lemma LiftAppend(nodes: seq<Node>, es: seq<Entry<nat>>, e: Entry<nat>)
    ensures Lift(nodes, es + [e]) == Lift(nodes, es) + [Entry(IdAt(nodes, e.at), e.value)]
  {
  }

  lemma IdsPlus(nodes: seq<Node>, past: set<nat>, i: nat)
    requires i < |nodes|
    ensures IdsAt(nodes, past + {i}) == IdsAt(nodes, past) + {nodes[i].id}
  {
    assert IdAt(nodes, i) == nodes[i].id;
  }

  lemma WriteRefines(nodes: seq<Node>, slots: Slots<nat>, spec: Slots<VersionId>, i: nat, slot: Slot, value: Written)
    requires PastBefore(nodes) && DistinctIds(nodes) && i < |nodes| && Refines(nodes, slots, spec)
    ensures Refines(nodes, Write(slots, i, nodes[i].past, slot, value),
                    Write(spec, nodes[i].id, IdsAt(nodes, nodes[i].past), slot, value))
  {
    var dropped := nodes[i].past + {i};
    var kept := Retain(Get(slots, slot), dropped);
    RetainLift(nodes, Get(slots, slot), dropped);
    IdsPlus(nodes, nodes[i].past, i);
    LiftAppend(nodes, kept, Entry(i, value));
    hide Retain, Lift, IdsAt, DistinctIds, PastBefore;
    var after := Write(slots, i, nodes[i].past, slot, value);
    var specAfter := Write(spec, nodes[i].id, IdsAt(nodes, nodes[i].past), slot, value);
    forall s
      ensures InRange(nodes, Get(after, s)) && Lift(nodes, Get(after, s)) == Get(specAfter, s)
    {
      if s != slot {
        assert Get(after, s) == Get(slots, s) && Get(specAfter, s) == Get(spec, s);
      }
    }
  }

  lemma ApplyEditRefines(nodes: seq<Node>, h: History, slots: Slots<nat>, spec: Slots<VersionId>, i: nat, e: Edit)
    requires Represents(nodes, h) && i < |nodes| && Refines(nodes, slots, spec)
    ensures Refines(nodes, ApplyEdit(slots, i, nodes[i].past, KeyAt(nodes), e),
                    ApplyEdit(spec, nodes[i].id, IdsAt(nodes, nodes[i].past), KeyIn(h), e))
  {
    match e
    case Create(k) => WriteRefines(nodes, slots, spec, i, KindSlot, Text(k));
    case Set(s, v) => WriteRefines(nodes, slots, spec, i, SettingSlot(s), Text(v));
    case Change(s, splice) =>
      var slot := SettingSlot(s);
      FirstLift(nodes, h, Get(slots, slot));
      WriteRefines(nodes, slots, spec, i, slot, Text(Spliced(BaseText(Get(slots, slot), KeyAt(nodes)), splice)));
    case PlaceAt(p) => WriteRefines(nodes, slots, spec, i, PlaceSlot, Placed(p));
    case Remove => WriteRefines(nodes, slots, spec, i, RemovedSlot, Gone);
    case _ =>
  }

  /** What a version's checkpoint leaves, slot by slot, whatever the order of its writes. */
  ghost predicate CheckpointSoFar(nodes: seq<Node>, i: nat, slots: Slots<nat>, before: Slots<nat>,
                                  state: map<Slot, Written>, written: set<Slot>)
    requires i < |nodes|
  {
    forall slot :: Get(slots, slot) ==
      if slot in written && slot in state
      then Retain(Retain(Get(before, slot), nodes[i].past), nodes[i].past + {i}) + [Entry(i, state[slot])]
      else Retain(Get(before, slot), nodes[i].past)
  }

  lemma {:induction false} RetainTwice<T>(es: seq<Entry<T>>, a: set<T>, b: set<T>)
    requires a <= b
    ensures Retain(Retain(es, a), b) == Retain(es, b)
    decreases |es|
  {
    if es == [] {
    } else {
      var n := |es| - 1;
      RetainTwice(es[..n], a, b);
      var rest := Retain(es[..n], a);
      assert (rest + [es[n]])[..|rest|] == rest;
    }
  }

  lemma GetAfterCheckpoint(spec: Slots<VersionId>, at: VersionId, past: set<VersionId>,
          state: map<Slot, Written>, slot: Slot)
    ensures Get(ApplyCheckpoint(spec, at, past, state), slot) == AfterCheckpoint(Get(spec, slot), at, past, state, slot)
  {
  }

  lemma SlotAfterCheckpoint(nodes: seq<Node>, es: seq<Entry<nat>>, i: nat, state: map<Slot, Written>, slot: Slot)
    requires PastBefore(nodes) && DistinctIds(nodes) && i < |nodes| && InRange(nodes, es)
    ensures var past := nodes[i].past;
            var kept := if slot in state then Retain(Retain(es, past), past + {i}) + [Entry(i, state[slot])]
                else Retain(es, past);
            && InRange(nodes, kept)
            && Lift(nodes, kept) == AfterCheckpoint(Lift(nodes, es), nodes[i].id, IdsAt(nodes, past), state, slot)
  {
    var past := nodes[i].past;
    RetainTwice(es, past, past + {i});
    RetainLift(nodes, es, past);
    RetainLift(nodes, es, past + {i});
    assert IdsAt(nodes, past + {i}) == IdsAt(nodes, past) + {nodes[i].id};
    var kept := Retain(es, past + {i});
    if slot in state {
      assert Lift(nodes, kept + [Entry(i, state[slot])]) == Lift(nodes, kept) + [Entry(nodes[i].id, state[slot])];
    }
  }

  lemma CheckpointRefines(nodes: seq<Node>, slots: Slots<nat>, before: Slots<nat>, spec: Slots<VersionId>,
          i: nat, state: map<Slot, Written>)
    requires PastBefore(nodes) && DistinctIds(nodes) && i < |nodes| && Refines(nodes, before, spec)
    requires CheckpointSoFar(nodes, i, slots, before, state, state.Keys)
    ensures Refines(nodes, slots, ApplyCheckpoint(spec, nodes[i].id, IdsAt(nodes, nodes[i].past), state))
  {
    var past := nodes[i].past;
    var after := ApplyCheckpoint(spec, nodes[i].id, IdsAt(nodes, past), state);
    forall slot
      ensures InRange(nodes, Get(slots, slot)) && Lift(nodes, Get(slots, slot)) == Get(after, slot)
    {
      SlotAfterCheckpoint(nodes, Get(before, slot), i, state, slot);
      GetAfterCheckpoint(spec, nodes[i].id, IdsAt(nodes, past), state, slot);
    }
  }

  // ---- The replica -----------------------------------------------------------------

  ghost predicate MarksDone(nodes: seq<Node>, done: seq<bool>, ids: set<VersionId>) {
    |done| == |nodes| && forall i | 0 <= i < |nodes| :: done[i] <==> nodes[i].id in ids
  }

  function RestrictTo(slots: Slots<nat>, done: set<Slot>): Slots<nat> {
    map slot | slot in slots && slot in done :: slots[slot]
  }

  method WriteState(nodes: seq<Node>, slots: Slots<nat>, i: nat, state: map<Slot, Written>) returns (after: Slots<nat>)
    requires i < |nodes|
    ensures CheckpointSoFar(nodes, i, after, slots, state, state.Keys)
  {
    after := map slot | slot in slots :: Retain(slots[slot], nodes[i].past);
    var pending := state.Keys;
    ghost var written := {};
    while pending != {}
      invariant written !! pending && written + pending == state.Keys
      invariant CheckpointSoFar(nodes, i, after, slots, state, written)
      decreases pending
    {
      var slot :| slot in pending;
      CheckpointOneMore(nodes, i, after, slots, state, written, slot);
      after := Write(after, i, nodes[i].past, slot, state[slot]);
      pending := pending - {slot};
      written := written + {slot};
    }
    assert written == state.Keys;
  }

  class Applied {
    var nodes: seq<Node>
    /** Versions answered NotCounted, not yet reported counting. */
    var reported: set<VersionId>
    /** The history the nodes stand for. */
    ghost var history: History

    ghost predicate Valid()
      reads this
    {
      Represents(nodes, history) && WellFormed(history) && reported <= history.Keys
    }

    ghost function State(): Replica
      reads this
    {
      Replica(history, reported)
    }

    constructor ()
      ensures Valid() && State() == Replica(map[], {})
    {
      nodes, reported, history := [], {}, map[];
    }

    /** Every lock an applied version took. */
    method Locks() returns (out: set<Held<nat>>)
      ensures forall l :: l in out <==> TakenAt(nodes, l)
    {
      out := {};
      for i := 0 to |nodes|
        invariant forall l :: l in out <==> l.at < i && TakenAt(nodes, l)
      {
        var n := nodes[i];
        if IsCheckpoint(n.edits) {
          out := out + set l | l in n.edits[0].state.locks :: Held(l.setting, l.holder, i);
        } else {
          var taken: set<string> := {};
          for e := 0 to |n.edits|
            invariant taken == Taken(n.edits[..e])
          {
            assert n.edits[..e + 1][..e] == n.edits[..e];
            match n.edits[e] {
              case TakeLock(s) => taken := taken + {s};
              case Unlock(s) => taken := taken - {s};
              case _ =>
            }
          }
          assert n.edits[..|n.edits|] == n.edits;
          out := out + set s | s in taken :: Held(s, n.id.writer, i);
        }
      }
    }

    /** Of the versions not done whose past is done, the one with the least id. */
    method NextReady(done: seq<bool>, ghost ids: set<VersionId>) returns (next: nat)
      requires Valid() && MarksDone(nodes, done, ids)
      requires ids < history.Keys
      ensures next < |nodes| && nodes[next].id == Next(history, ids)
    {
      ghost var ready := Ready(history, ids);
      ReadyExists(history, ids);
      var best: Option<nat> := None;
      for i := 0 to |nodes|
        invariant best.Some? ==> best.value < i && nodes[best.value].id in ready
        invariant forall j | 0 <= j < i && nodes[j].id in ready ::
                    best.Some? && IdLeq(nodes[best.value].id, nodes[j].id)
      {
        ReadyAgree(nodes, history, done, ids, i);
        if !done[i] && forall p | p in nodes[i].past :: done[p] {
          if best.None? || !IdLeq(nodes[best.value].id, nodes[i].id) {
            best := Some(i);
          }
        }
      }
      assert best.Some? by {
        var x :| x in ready;
        var j: nat :| j < |nodes| && nodes[j].id == x;
      }
      next := best.value;
      ChosenIsMin(nodes, history, ids, next);
    }

    /** One order every device computes alike: each version after its past, ties by id. */
    method LinearOrder() returns (out: seq<nat>)
      requires Valid()
      ensures IsOrder(nodes, history, out)
    {
      SameSize(nodes, history);
      var done := seq(|nodes|, _ => false);
      out := [];
      while |out| < |nodes|
        invariant Follows(nodes, history, out)
        invariant MarksDone(nodes, done, IdSet(nodes, out))
        decreases |nodes| - |out|
      {
        FollowsSize(nodes, history, out);
        var next := NextReady(done, IdSet(nodes, out));
        MarkOne(nodes, done, IdSet(nodes, out), next);
        FollowsOneMore(nodes, history, out, next);
        done := done[next := true];
        out := out + [next];
      }
      FollowsSize(nodes, history, out);
    }

    /** A checkpoint's effect: its past's entries go from every slot, its state comes. */
    method WriteCheckpoint(slots: Slots<nat>, i: nat, state: map<Slot, Written>, ghost spec: Slots<VersionId>)
      returns (after: Slots<nat>)
      requires Valid() && i < |nodes| && Refines(nodes, slots, spec)
      ensures Refines(nodes, after, ApplyCheckpoint(spec, nodes[i].id, IdsAt(nodes, nodes[i].past), state))
    {
      after := WriteState(nodes, slots, i, state);
      CheckpointRefines(nodes, after, slots, spec, i, state);
    }

    /** The edits of one version, in order. */
    method WriteEdits(slots: Slots<nat>, i: nat, ghost spec: Slots<VersionId>) returns (after: Slots<nat>)
      requires Valid() && i < |nodes| && Refines(nodes, slots, spec)
      ensures Refines(nodes, after,
          ApplyEdits(spec, nodes[i].id, IdsAt(nodes, nodes[i].past), KeyIn(history), nodes[i].edits))
    {
      hide Represents, ApplyEdit, Refines;
      var edits := nodes[i].edits;
      ghost var ids := IdsAt(nodes, nodes[i].past);
      after := slots;
      for e := 0 to |edits|
        invariant Refines(nodes, after, ApplyEdits(spec, nodes[i].id, ids, KeyIn(history), edits[..e]))
      {
        assert edits[..e + 1][..e] == edits[..e];
        ApplyEditRefines(nodes, history, after,
                         ApplyEdits(spec, nodes[i].id, ids, KeyIn(history), edits[..e]), i, edits[e]);
        after := ApplyEdit(after, i, nodes[i].past, KeyAt(nodes), edits[e]);
      }
      assert edits[..|edits|] == edits;
    }

    /** The merged value is a function of the history alone. */
    method Merged() returns (value: ElementValue)
      requires Valid()
      ensures value == MergedValue(history)
    {
      var locks := Locks();
      var order := LinearOrder();
      var slots := MergeAll(order, locks);
      value := Show(slots, locks);
    }

    /** The versions in order, each on what those before it left. */
    method MergeAll(order: seq<nat>, locks: set<Held<nat>>) returns (slots: Slots<nat>)
      requires Valid() && IsOrder(nodes, history, order)
      requires forall l :: l in locks <==> TakenAt(nodes, l)
      ensures Refines(nodes, slots, FinalSlots(history))
    {
      slots := map[];
      ghost var ids: set<VersionId>, spec: Slots<VersionId> := {}, map[];
      for k := 0 to |order|
        invariant ids == IdSet(nodes, order[..k]) && ids <= history.Keys
        invariant Refines(nodes, slots, spec) && MergeFrom(history, ids, spec) == FinalSlots(history)
      {
        FollowsAt(nodes, history, order, k);
        MergeStep(history, ids, spec);
        slots := MergeOne(slots, order[k], locks, spec);
        spec := Step(history, spec, nodes[order[k]].id);
        ids := ids + {nodes[order[k]].id};
      }
      assert order[..|order|] == order;
    }

    method MergeOne(slots: Slots<nat>, i: nat, locks: set<Held<nat>>, ghost spec: Slots<VersionId>)
      returns (after: Slots<nat>)
      requires Valid() && i < |nodes|
      requires forall l :: l in locks <==> TakenAt(nodes, l)
      requires Refines(nodes, slots, spec)
      ensures Refines(nodes, after, Step(history, spec, nodes[i].id))
    {
      CountsAgree(nodes, history, i, locks);
      if BlockedAmong(nodes, i, locks) {
        after := slots;
      } else if IsCheckpoint(nodes[i].edits) {
        after := WriteCheckpoint(slots, i, StateSlots(nodes[i].edits[0].state), spec);
      } else {
        after := WriteEdits(slots, i, spec);
      }
    }

    /** The state and variants the slots show. */
    method ShowSlots(slots: Slots<nat>) returns (state: ElementState, variants: map<Slot, seq<Alternative>>)
      ensures state == ShownState(slots, KeyAt(nodes), {})
      ensures variants == ShownVariants(slots, KeyAt(nodes))
    {
      var key := KeyAt(nodes);
      state, variants := ElementState(None, None, map[], false, {}), map[];
      var pending := slots.Keys;
      while pending != {}
        invariant pending <= slots.Keys
        invariant state == ShownState(RestrictTo(slots, slots.Keys - pending), key, {})
        invariant variants == ShownVariants(RestrictTo(slots, slots.Keys - pending), key)
      {
        var slot :| slot in pending;
        ghost var done := slots.Keys - pending;
        pending := pending - {slot};
        assert slots.Keys - pending == done + {slot};
        ShowOneMore(slots, done, slot, key);
        state := WithSlot(state, slot, First(slots[slot], key));
        if |slots[slot]| > 1 {
          variants := variants[slot := Alternatives(slots[slot], key)];
        }
      }
      assert RestrictTo(slots, slots.Keys - {}) == slots;
    }

    method Show(slots: Slots<nat>, locks: set<Held<nat>>) returns (value: ElementValue)
      requires Valid() && Refines(nodes, slots, FinalSlots(history))
      requires forall l :: l in locks <==> TakenAt(nodes, l)
      ensures value == MergedValue(history)
    {
      var state, variants := ShowSlots(slots);
      var held := set l | l in locks && !LiftedAt(nodes, l) :: Lock(l.setting, l.holder);
      var heads := HeadsAt(nodes);
      value := ElementValue(state.(locks := held), variants, heads);
      LocksInForceAgree(nodes, history, locks);
      HeadsAgree(nodes, history);
      ShownAgree(nodes, history, slots, FinalSlots(history));
      assert ShownState(slots, KeyAt(nodes), held) == ShownState(slots, KeyAt(nodes), {}).(locks := held);
      assert ShownState(FinalSlots(history), KeyIn(history), held)
          == ShownState(FinalSlots(history), KeyIn(history), {}).(locks := held);
    }

    method Position(id: VersionId) returns (at: Option<nat>)
      requires Valid()
      ensures at.Some? ==> at.value < |nodes| && nodes[at.value].id == id && id in history
      ensures at.None? ==> id !in history
    {
      for k := 0 to |nodes|
        invariant forall j | 0 <= j < k :: nodes[j].id != id
      {
        if nodes[k].id == id {
          return Some(k);
        }
      }
      at := None;
    }

    /** Append a node; its past is the part applied by now, and never changes. */
    method Push(v: Version)
      requires Valid() && v.id !in history
      modifies this`nodes, this`history
      ensures Valid() && history == Absorb(old(history), v)
      ensures |nodes| == |old(nodes)| + 1 && nodes[|old(nodes)|].id == v.id
    {
      var past := set p: nat | p < |nodes| && nodes[p].id in v.past;
      PushRepresents(nodes, history, v, past);
      AbsorbWellFormed(history, v);
      nodes := nodes + [Node(v.id, v.digest, v.edits, past)];
      history := Absorb(history, v);
    }

    /** Apply one version: a version already applied is answered again, and nothing is added. */
    method Apply(v: Version) returns (answer: Counting)
      requires Valid()
      modifies this
      ensures Valid() && State() == AfterEvent(old(State()), Applies(v))
      ensures answer.Counted? <==> CountsIn(history, v.id)
      ensures answer.NotCounted? <==> LockedOut(history, v.id)
    {
      hide Represents, LockedOut, BlockedAmong, TakenAt, Counts, WellFormed;
      var at := Position(v.id);
      var i := if at.Some? then at.value else |nodes|;
      if at.None? {
        Push(v);
      }
      var locks := Locks();
      CountsAgree(nodes, history, i, locks);
      CountsExactlyWhen(history, v.id);
      if BlockedAmong(nodes, i, locks) {
        reported := reported + {v.id};
        answer := NotCounted;
      } else {
        answer := Counted;
      }
    }

    /** The versions answered NotCounted that count by now, each reported once. */
    method NowCounted() returns (counting: set<VersionId>)
      requires Valid()
      modifies this`reported
      ensures Valid() && State() == AfterEvent(old(State()), AsksNowCounted)
      ensures counting == NowCounting(old(State()))
      ensures forall id :: id in counting <==> id in old(reported) && !LockedOut(history, id)
    {
      hide LockedOut;
      var locks := Locks();
      counting := set id | id in reported &&
        exists i | 0 <= i < |nodes| :: nodes[i].id == id && !BlockedAmong(nodes, i, locks);
      forall i | 0 <= i < |nodes| ensures Counts(history, nodes[i].id) <==> !BlockedAmong(nodes, i, locks) {
        CountsAgree(nodes, history, i, locks);
      }
      forall id | id in history ensures Counts(history, id) <==> !LockedOut(history, id) {
        CountsExactlyWhen(history, id);
      }
      reported := reported - counting;
    }
  }

  lemma ReadyAgree(nodes: seq<Node>, h: History, done: seq<bool>, ids: set<VersionId>, i: nat)
    requires Represents(nodes, h) && i < |nodes| && MarksDone(nodes, done, ids)
    ensures (!done[i] && forall p | p in nodes[i].past :: done[p]) <==> nodes[i].id in Ready(h, ids)
  {
    var past := h[nodes[i].id].past;
    if forall p | p in nodes[i].past :: done[p] {
      assert past <= ids;
    }
    if past <= ids {
      forall p | p in nodes[i].past ensures done[p] {
        assert IdAt(nodes, p) in past;
      }
    }
  }

  lemma ChosenIsMin(nodes: seq<Node>, h: History, ids: set<VersionId>, i: nat)
    requires Represents(nodes, h) && i < |nodes| && nodes[i].id in Ready(h, ids)
    requires forall j | 0 <= j < |nodes| && nodes[j].id in Ready(h, ids) :: IdLeq(nodes[i].id, nodes[j].id)
    ensures nodes[i].id == MinId(Ready(h, ids))
  {
    var m := MinId(Ready(h, ids));
    var j: nat :| j < |nodes| && nodes[j].id == m;
    assert IdLeq(nodes[i].id, m) && IdLeq(m, nodes[i].id);
  }

  /** The ids of these nodes. */
  ghost function IdSet(nodes: seq<Node>, out: seq<nat>): set<VersionId> {
    if out == [] then {} else IdSet(nodes, out[..|out| - 1]) + {IdAt(nodes, out[|out| - 1])}
  }

  /** The nodes listed are those the history's order takes first, one by one. */
  ghost predicate Follows(nodes: seq<Node>, h: History, out: seq<nat>)
    requires WellFormed(h)
  {
    out == [] ||
    var before, last := out[..|out| - 1], out[|out| - 1];
    && Follows(nodes, h, before)
    && last < |nodes|
    && IdSet(nodes, before) < h.Keys
    && nodes[last].id == Next(h, IdSet(nodes, before))
  }

  ghost predicate IsOrder(nodes: seq<Node>, h: History, out: seq<nat>)
    requires WellFormed(h)
  {
    Follows(nodes, h, out) && IdSet(nodes, out) == h.Keys
  }

  lemma FollowsOneMore(nodes: seq<Node>, h: History, out: seq<nat>, next: nat)
    requires WellFormed(h) && Follows(nodes, h, out) && IdSet(nodes, out) < h.Keys
    requires next < |nodes| && nodes[next].id == Next(h, IdSet(nodes, out))
    ensures Follows(nodes, h, out + [next])
    ensures IdSet(nodes, out + [next]) == IdSet(nodes, out) + {nodes[next].id}
  {
    assert (out + [next])[..|out|] == out;
  }

  lemma {:induction false} FollowsSize(nodes: seq<Node>, h: History, out: seq<nat>)
    requires WellFormed(h) && Follows(nodes, h, out) && |h| == |nodes|
    ensures IdSet(nodes, out) <= h.Keys && |IdSet(nodes, out)| == |out|
    ensures |out| < |nodes| ==> IdSet(nodes, out) < h.Keys
    ensures |out| >= |nodes| ==> IdSet(nodes, out) == h.Keys
    decreases |out|
  {
    hide WellFormed;
    if out != [] { FollowsSize(nodes, h, out[..|out| - 1]); }
    if IdSet(nodes, out) == h.Keys {
      assert |out| == |h.Keys| == |h|;
    } else {
      SmallerSubset(IdSet(nodes, out), h.Keys);
    }
  }

  lemma {:induction false} FollowsPrefix(nodes: seq<Node>, h: History, out: seq<nat>, k: nat)
    requires WellFormed(h) && Follows(nodes, h, out) && k <= |out|
    ensures Follows(nodes, h, out[..k])
    decreases |out|
  {
    if k < |out| {
      FollowsPrefix(nodes, h, out[..|out| - 1], k);
      assert out[..|out| - 1][..k] == out[..k];
    } else {
      assert out[..k] == out;
    }
  }

  lemma FollowsAt(nodes: seq<Node>, h: History, out: seq<nat>, k: nat)
    requires WellFormed(h) && Follows(nodes, h, out) && k < |out|
    ensures IdSet(nodes, out[..k]) < h.Keys && out[k] < |nodes| && nodes[out[k]].id == Next(h, IdSet(nodes, out[..k]))
    ensures IdSet(nodes, out[..k + 1]) == IdSet(nodes, out[..k]) + {nodes[out[k]].id}
  {
    FollowsPrefix(nodes, h, out, k + 1);
    assert out[..k + 1][..k] == out[..k];
  }

  /** The order lists each version after its whole past, and only once. */
  lemma OrderIsLinearExtension(nodes: seq<Node>, h: History, out: seq<nat>, k: nat)
    requires WellFormed(h) && IsOrder(nodes, h, out) && k < |out|
    ensures out[k] < |nodes| && nodes[out[k]].id in h && nodes[out[k]].id !in IdSet(nodes, out[..k])
    ensures h[nodes[out[k]].id].past <= IdSet(nodes, out[..k])
  {
    FollowsAt(nodes, h, out, k);
  }

  /** Two devices with the same history, whatever their node indices, list the same ids. */
  lemma {:induction false} OrdersAgree(n1: seq<Node>, o1: seq<nat>, n2: seq<Node>, o2: seq<nat>, h: History)
    requires WellFormed(h) && Follows(n1, h, o1) && Follows(n2, h, o2) && |o1| == |o2|
    ensures IdSet(n1, o1) == IdSet(n2, o2)
    ensures forall k | 0 <= k < |o1| :: IdAt(n1, o1[k]) == IdAt(n2, o2[k])
    decreases |o1|
  {
    if o1 != [] {
      OrdersAgree(n1, o1[..|o1| - 1], n2, o2[..|o2| - 1], h);
    }
  }

  lemma MarkOne(nodes: seq<Node>, done: seq<bool>, ids: set<VersionId>, next: nat)
    requires DistinctIds(nodes) && MarksDone(nodes, done, ids) && next < |nodes|
    ensures MarksDone(nodes, done[next := true], ids + {nodes[next].id})
  {
  }

  lemma CheckpointOneMore(nodes: seq<Node>, i: nat, slots: Slots<nat>, before: Slots<nat>,
                          state: map<Slot, Written>, written: set<Slot>, slot: Slot)
    requires i < |nodes| && slot in state && slot !in written
    requires CheckpointSoFar(nodes, i, slots, before, state, written)
    ensures CheckpointSoFar(nodes, i, Write(slots, i, nodes[i].past, slot, state[slot]), before, state,
                            written + {slot})
  {
    var after := Write(slots, i, nodes[i].past, slot, state[slot]);
    forall s
      ensures Get(after, s) ==
        if s in written + {slot} && s in state
        then Retain(Retain(Get(before, s), nodes[i].past), nodes[i].past + {i}) + [Entry(i, state[s])]
        else Retain(Get(before, s), nodes[i].past)
    {
      if s != slot { assert Get(after, s) == Get(slots, s); }
    }
  }

  lemma PushKeeps(nodes: seq<Node>, node: Node)
    requires PastBefore(nodes)
    ensures forall i | 0 <= i < |nodes| :: AsVersion(nodes + [node], i) == AsVersion(nodes, i)
  {
    var more := nodes + [node];
    forall i | 0 <= i < |nodes| ensures AsVersion(more, i) == AsVersion(nodes, i) {
      assert forall p | p in nodes[i].past :: IdAt(more, p) == IdAt(nodes, p);
    }
  }

  lemma PushPast(nodes: seq<Node>, h: History, v: Version, node: Node)
    requires Represents(nodes, h)
    requires node.past == set p: nat | p < |nodes| && nodes[p].id in v.past
    ensures IdsAt(nodes + [node], node.past) == v.past * h.Keys
  {
    var more := nodes + [node];
    forall id | id in v.past * h.Keys ensures id in IdsAt(more, node.past) {
      var p: nat :| p < |nodes| && nodes[p].id == id;
      assert IdAt(more, p) == id;
    }
  }

  lemma PushKeepsIds(nodes: seq<Node>, node: Node)
    requires PastBefore(nodes) && DistinctIds(nodes)
    requires (forall i | 0 <= i < |nodes| :: nodes[i].id != node.id) && forall p | p in node.past :: p < |nodes|
    ensures PastBefore(nodes + [node]) && DistinctIds(nodes + [node])
  {
  }

  lemma PushRepresents(nodes: seq<Node>, h: History, v: Version, past: set<nat>)
    requires Represents(nodes, h) && v.id !in h
    requires past == set p: nat | p < |nodes| && nodes[p].id in v.past
    ensures Represents(nodes + [Node(v.id, v.digest, v.edits, past)], Absorb(h, v))
  {
    var node := Node(v.id, v.digest, v.edits, past);
    var more := nodes + [node];
    var n := |nodes|;
    PushKeeps(nodes, node);
    PushPast(nodes, h, v, node);
    assert more[n].id == v.id;
    PushKeepsIds(nodes, node);
    hide IdsAt, IdAt, DistinctIds, PastBefore;
    forall id | id in Absorb(h, v) ensures exists i :: 0 <= i < |more| && more[i].id == id {
      if id != v.id {
        var i: nat :| i < |nodes| && nodes[i].id == id;
        assert more[i].id == id;
      }
    }
  }

  predicate IsHeadAt(nodes: seq<Node>, i: nat) {
    forall n | 0 <= n < |nodes| :: i !in nodes[n].past
  }

  function HeadsAt(nodes: seq<Node>): set<Head> {
    set i: nat | i < |nodes| && IsHeadAt(nodes, i) :: Head(nodes[i].id.writer, nodes[i].id.number, nodes[i].digest)
  }

  lemma IsHeadAgree(nodes: seq<Node>, h: History, i: nat)
    requires Represents(nodes, h) && i < |nodes|
    ensures IsHeadAt(nodes, i) <==> IsHead(h, nodes[i].id)
  {
    if IsHeadAt(nodes, i) {
      forall n | n in h ensures nodes[i].id !in h[n].past {
        var k: nat :| k < |nodes| && nodes[k].id == n;
        InPastAgree(nodes, nodes[k].past, i);
      }
    }
    if IsHead(h, nodes[i].id) {
      forall n | 0 <= n < |nodes| ensures i !in nodes[n].past {
        InPastAgree(nodes, nodes[n].past, i);
        assert nodes[i].id !in h[nodes[n].id].past;
      }
    }
  }

  lemma HeadsAgree(nodes: seq<Node>, h: History)
    requires Represents(nodes, h)
    ensures HeadsAt(nodes) == Heads(h)
  {
    forall x | x in HeadsAt(nodes) ensures x in Heads(h) {
      var i: nat :| i < |nodes| && IsHeadAt(nodes, i)
          && x == Head(nodes[i].id.writer, nodes[i].id.number, nodes[i].digest);
      IsHeadAgree(nodes, h, i);
    }
    forall x | x in Heads(h) ensures x in HeadsAt(nodes) {
      var id :| id in h && IsHead(h, id) && x == Head(id.writer, id.number, h[id].digest);
      var i: nat :| i < |nodes| && nodes[i].id == id;
      IsHeadAgree(nodes, h, i);
    }
  }

  /** The state with one more slot shown. */
  function WithSlot(state: ElementState, slot: Slot, shown: Option<Written>): ElementState {
    match (slot, shown)
    case (KindSlot, Some(Text(k))) => state.(kind := Some(k))
    case (PlaceSlot, Some(Placed(p))) => state.(place := Some(p))
    case (RemovedSlot, Some(_)) => state.(removed := true)
    case (SettingSlot(s), Some(Text(t))) => state.(settings := state.settings[s := t])
    case _ => state
  }

  lemma ShowOneMore(slots: Slots<nat>, done: set<Slot>, slot: Slot, key: nat -> (Key, Digest))
    requires slot in slots && slot !in done
    ensures var before, after := RestrictTo(slots, done), RestrictTo(slots, done + {slot});
            && ShownState(after, key, {}) == WithSlot(ShownState(before, key, {}), slot, First(slots[slot], key))
            && ShownVariants(after, key)
               == if |slots[slot]| > 1 then ShownVariants(before, key)[slot := Alternatives(slots[slot], key)]
                                            else ShownVariants(before, key)
  {
    var before, after := RestrictTo(slots, done), RestrictTo(slots, done + {slot});
    assert after == before[slot := slots[slot]] && slot !in before;
    StateOneMore(before, slot, slots[slot], key);
    VariantsOneMore(before, slot, slots[slot], key);
    hide ShownState, ShownVariants;
  }

  lemma VariantsOneMore(before: Slots<nat>, slot: Slot, es: seq<Entry<nat>>, key: nat -> (Key, Digest))
    requires slot !in before
    ensures ShownVariants(before[slot := es], key)
        == if |es| > 1 then ShownVariants(before, key)[slot := Alternatives(es, key)]
                                                      else ShownVariants(before, key)
  {
    hide Alternatives;
  }

  lemma StateOneMore(before: Slots<nat>, slot: Slot, es: seq<Entry<nat>>, key: nat -> (Key, Digest))
    requires slot !in before
    ensures ShownState(before[slot := es], key, {}) == WithSlot(ShownState(before, key, {}), slot, First(es, key))
  {
    var after := before[slot := es];
    assert Get(after, slot) == es;
    assert First(Get(before, slot), key) == None;
    assert forall s | s != slot :: Get(after, s) == Get(before, s);
    SettingsOneMore(before, slot, es, key);
  }

  /** What one more slot's list changes about the setting `s`. */
  lemma SettingOneMore(before: Slots<nat>, slot: Slot, es: seq<Entry<nat>>, key: nat -> (Key, Digest), s: string)
    requires slot !in before
    ensures var old', new' := ShownSettings(before, key), ShownSettings(before[slot := es], key);
            if SettingSlot(s) != slot then
              (s in new' <==> s in old') && (s in new' ==> new'[s] == old'[s])
            else
              && s !in old'
              && match First(es, key)
                 case Some(Text(t)) => s in new' && new'[s] == t
                 case _ => s !in new'
  {
    var after, here := before[slot := es], SettingSlot(s);
    hide First;
    assert here in after ==> s in SettingNames(after);
    assert here in before ==> s in SettingNames(before);
    if here != slot { assert Get(after, here) == Get(before, here); }
  }

  lemma SettingsOneMore(before: Slots<nat>, slot: Slot, es: seq<Entry<nat>>, key: nat -> (Key, Digest))
    requires slot !in before
    ensures var old', new' := ShownSettings(before, key), ShownSettings(before[slot := es], key);
            match (slot, First(es, key))
            case (SettingSlot(s), Some(Text(t))) => new' == old'[s := t]
            case _ => new' == old'
  {
    hide ShownSettings, First;
    var old', new' := ShownSettings(before, key), ShownSettings(before[slot := es], key);
    forall s
      ensures SettingSlot(s) != slot ==> (s in new' <==> s in old') && (s in new' ==> new'[s] == old'[s])
    {
      SettingOneMore(before, slot, es, key, s);
    }
    if slot.SettingSlot? { SettingOneMore(before, slot, es, key, slot.name); }
  }

  lemma SlotShownAgree(nodes: seq<Node>, h: History, es: seq<Entry<nat>>)
    requires Represents(nodes, h) && InRange(nodes, es)
    ensures First(es, KeyAt(nodes)) == First(Lift(nodes, es), KeyIn(h))
    ensures Alternatives(es, KeyAt(nodes)) == Alternatives(Lift(nodes, es), KeyIn(h))
  {
    FirstLift(nodes, h, es);
    SortedLift(nodes, h, es);
    var s := Sorted(es, KeyAt(nodes));
    forall i | 0 <= i < |s| ensures KeyAt(nodes)(s[i].at) == KeyIn(h)(Lift(nodes, s)[i].at) {
      assert Lift(nodes, s)[i].at == nodes[s[i].at].id;
    }
  }

  /** What is shown depends only on the non-empty lists. */
  lemma ShownAgree(nodes: seq<Node>, h: History, slots: Slots<nat>, spec: Slots<VersionId>)
    requires Represents(nodes, h) && Refines(nodes, slots, spec)
    ensures ShownState(slots, KeyAt(nodes), {}) == ShownState(spec, KeyIn(h), {})
    ensures ShownVariants(slots, KeyAt(nodes)) == ShownVariants(spec, KeyIn(h))
  {
    forall slot
      ensures First(Get(slots, slot), KeyAt(nodes)) == First(Get(spec, slot), KeyIn(h))
      ensures Alternatives(Get(slots, slot), KeyAt(nodes)) == Alternatives(Get(spec, slot), KeyIn(h))
      ensures |Get(slots, slot)| == |Get(spec, slot)|
    {
      SlotShownAgree(nodes, h, Get(slots, slot));
      assert Lift(nodes, Get(slots, slot)) == Get(spec, slot);
    }
    SameVariants(slots, KeyAt(nodes), spec, KeyIn(h));
    SameState(slots, KeyAt(nodes), spec, KeyIn(h));
  }

  /** A fresh device applies a delivery and shows its value. */
  method Replay(ds: seq<Version>) returns (value: ElementValue)
    ensures WellFormed(Delivered(ds)) && value == MergedValue(Delivered(ds))
  {
    DeliveredWellFormed(ds);
    var device := new Applied();
    for k := 0 to |ds|
      invariant device.Valid() && fresh(device) && device.history == Delivered(ds[..k])
    {
      assert ds[..k + 1][..k] == ds[..k];
      var _ := device.Apply(ds[k]);
    }
    assert ds[..|ds|] == ds;
    value := device.Merged();
  }
}
