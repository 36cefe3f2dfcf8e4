/**
 What the slots hold in the end and what the merged value shows of them, said by the edits of the
 versions that wrote them.
 */
module ElementValues {
  import opened Basics
  import opened Options
  import opened ElementModel
  import opened ElementClosedForm
  import opened ElementLocks

  /** What is in a slot, whatever the order it is listed in. */
  type Entries = set<Entry<VersionId>>

  function Among(es: seq<Entry<VersionId>>): Entries {
    set e | e in es
  }

  function HeadsOf(slots: Slots<VersionId>, slot: Slot): Entries {
    Among(Get(slots, slot))
  }

  // ---- What one edit does to one slot -----------------------------------------------------------

  predicate Targets(e: Edit, slot: Slot) {
    match slot
    case KindSlot => e.Create?
    case PlaceSlot => e.PlaceAt?
    case RemovedSlot => e.Remove?
    case SettingSlot(s) => (e.Set? || e.Change?) && e.setting == s
  }

  /** By writer, then version digest. */
  predicate Earlier(h: History, a: VersionId, b: VersionId) {
    && a in h && b in h
    && (a.writer < b.writer || (a.writer == b.writer && h[a].digest < h[b].digest))
  }

  /** Nobody's alternative comes before this one. */
  predicate IsShown(h: History, heads: Entries, e: Entry<VersionId>) {
    e in heads && forall other | other in heads :: !Earlier(h, other.at, e.at)
  }

  /** The text a splice starts from: the one shown, or none. */
  ghost predicate ShowsText(h: History, heads: Entries, base: string) {
    || (heads == {} && base == "")
    || (exists e :: IsShown(h, heads, e) && base == if e.value.Text? then e.value.text else "")
  }

  function Least(x: nat, y: nat): nat {
    if x <= y then x else y
  }

  /** Character by character: `out` is `base` with the characters from `sp.at` on, `sp.remove` of
      them or as many as there are, replaced. */
  predicate Replaced(base: string, sp: Splice, out: string) {
    var start := Least(sp.at, |base|);
    var end := Least(start + sp.remove, |base|);
    && |out| == |base| - (end - start) + |sp.insert|
    && (forall k | 0 <= k < start :: out[k] == base[k])
    && (forall k | 0 <= k < |sp.insert| :: out[start + k] == sp.insert[k])
    && (forall k | end <= k < |base| :: out[k - (end - start) + |sp.insert|] == base[k])
  }

  /** The edit puts `value` in its slot, where `heads` are now. */
  ghost predicate Gives(h: History, heads: Entries, e: Edit, value: Written) {
    match e
    case Create(kind) => value == Text(kind)
    case Set(_, text) => value == Text(text)
    case Change(_, sp) => value.Text? && exists base :: ShowsText(h, heads, base) && Replaced(base, sp, value.text)
    case PlaceAt(place) => value == Placed(place)
    case Remove => value == Gone
    case _ => false
  }

  /** What a new value of `i` leaves beside it: what neither `i` nor its past wrote. */
  function Beside(heads: Entries, i: VersionId, past: set<VersionId>): Entries {
    set e | e in heads && e.at != i && e.at !in past
  }

  ghost predicate EditLeaves(h: History, i: VersionId, heads: Entries, e: Edit, slot: Slot, after: Entries) {
    if !Targets(e, slot) || i !in h then after == heads
    else exists value :: Gives(h, heads, e, value) && after == Beside(heads, i, h[i].past) + {Entry(i, value)}
  }

  ghost predicate EditsLeave(h: History, i: VersionId, heads: Entries, edits: seq<Edit>, slot: Slot, after: Entries)
    decreases |edits|
  {
    if edits == [] then after == heads
    else
      var n := |edits| - 1;
      exists mid :: EditsLeave(h, i, heads, edits[..n], slot, mid) && EditLeaves(h, i, mid, edits[n], slot, after)
  }

  /** What a state has in a slot. */
  function InState(s: ElementState, slot: Slot): Option<Written> {
    match slot
    case KindSlot => if s.kind.Some? then Some(Text(s.kind.value)) else None
    case PlaceSlot => if s.place.Some? then Some(Placed(s.place.value)) else None
    case RemovedSlot => if s.removed then Some(Gone) else None
    case SettingSlot(name) => if name in s.settings then Some(Text(s.settings[name])) else None
  }

  /** A checkpoint clears its past from the slot and puts its own there. */
  ghost predicate CheckpointLeaves(i: VersionId, past: set<VersionId>, s: ElementState, heads: Entries, slot: Slot,
                                   after: Entries)
  {
    match InState(s, slot)
    case Some(value) => after == Beside(heads, i, past) + {Entry(i, value)}
    case None => after == set e | e in heads && e.at !in past
  }

  /** What version `i` makes of a slot. */
  ghost predicate VersionLeaves(h: History, i: VersionId, heads: Entries, slot: Slot, after: Entries)
    requires i in h
  {
    if LockedOut(h, i) then after == heads
    else if OnlyCheckpoint(h[i]) then CheckpointLeaves(i, h[i].past, h[i].edits[0].state, heads, slot, after)
    else EditsLeave(h, i, heads, h[i].edits, slot, after)
  }

  ghost predicate OneByOne(h: History, i: VersionId, before: Slots<VersionId>, after: Slots<VersionId>)
    requires i in h
  {
    forall slot :: VersionLeaves(h, i, HeadsOf(before, slot), slot, HeadsOf(after, slot))
  }

  // ---- The code does that ------------------------------------------------------------------------

  lemma {:induction false} RetainIs(es: seq<Entry<VersionId>>, dropped: set<VersionId>)
    ensures forall e :: e in Retain(es, dropped) <==> e in es && e.at !in dropped
    decreases |es|
  {
    if es != [] {
      var n := |es| - 1;
      RetainIs(es[..n], dropped);
      assert es == es[..n] + [es[n]];
    }
  }

  lemma WriteLeaves(slots: Slots<VersionId>, i: VersionId, past: set<VersionId>, slot: Slot, value: Written, s: Slot)
    ensures HeadsOf(Write(slots, i, past, slot, value), s)
         == if s == slot then Beside(HeadsOf(slots, s), i, past) + {Entry(i, value)} else HeadsOf(slots, s)
  {
    if s == slot { RetainIs(Get(slots, slot), past + {i}); }
  }

  lemma FirstIsShown(h: History, es: seq<Entry<VersionId>>)
    requires forall e | e in es :: e.at in h
    ensures es == [] <==> First(es, KeyIn(h)) == None
    ensures es != [] ==> exists e :: IsShown(h, Among(es), e) && First(es, KeyIn(h)) == Some(e.value)
  {
    var s := Sorted(es, KeyIn(h));
    SortedSorts(es, KeyIn(h));
    assert |multiset(s)| == |s| && |multiset(es)| == |es|;
    if es != [] {
      var e := s[0];
      assert e in multiset(s) && e in multiset(es);
      forall other | other in es ensures !Earlier(h, other.at, e.at) {
        assert other in multiset(es) && other in multiset(s);
        var m :| 0 <= m < |s| && s[m] == other;
        if m > 0 { assert KeyLeq(KeyIn(h)(s[0].at), KeyIn(h)(s[m].at)); }
      }
      assert IsShown(h, Among(es), e);
    }
  }

  lemma SplicedReplaces(base: string, sp: Splice)
    ensures Replaced(base, sp, Spliced(base, sp))
  {
  }

  /** Only versions of the history have entries. */
  ghost predicate Inside(h: History, slots: Slots<VersionId>) {
    forall slot, e | e in Get(slots, slot) :: e.at in h
  }

  lemma BaseIsShown(h: History, es: seq<Entry<VersionId>>)
    requires forall e | e in es :: e.at in h
    ensures ShowsText(h, Among(es), BaseText(es, KeyIn(h)))
  {
    FirstIsShown(h, es);
    hide First, IsShown;
    if es == [] { assert Among(es) == {}; }
  }

  lemma EditDoes(h: History, i: VersionId, slots: Slots<VersionId>, e: Edit, slot: Slot)
    requires i in h && Inside(h, slots)
    ensures EditLeaves(h, i, HeadsOf(slots, slot), e, slot, HeadsOf(ApplyEdit(slots, i, h[i].past, KeyIn(h), e), slot))
  {
    var past, heads := h[i].past, HeadsOf(slots, slot);
    hide Write, Beside, ShowsText, Spliced, Replaced, BaseText;
    match e
    case Create(k) =>
      WriteLeaves(slots, i, past, KindSlot, Text(k), slot);
      assert Gives(h, heads, e, Text(k));
    case Set(name, v) =>
      WriteLeaves(slots, i, past, SettingSlot(name), Text(v), slot);
      assert Gives(h, heads, e, Text(v));
    case Change(name, sp) =>
      var base := BaseText(Get(slots, SettingSlot(name)), KeyIn(h));
      WriteLeaves(slots, i, past, SettingSlot(name), Text(Spliced(base, sp)), slot);
      BaseIsShown(h, Get(slots, SettingSlot(name)));
      SplicedReplaces(base, sp);
      assert slot == SettingSlot(name) ==> Gives(h, heads, e, Text(Spliced(base, sp)));
    case PlaceAt(p) =>
      WriteLeaves(slots, i, past, PlaceSlot, Placed(p), slot);
      assert Gives(h, heads, e, Placed(p));
    case Remove =>
      WriteLeaves(slots, i, past, RemovedSlot, Gone, slot);
      assert Gives(h, heads, e, Gone);
    case _ =>
  }

  lemma EditInside(h: History, i: VersionId, slots: Slots<VersionId>, e: Edit)
    requires i in h && Inside(h, slots)
    ensures Inside(h, ApplyEdit(slots, i, h[i].past, KeyIn(h), e))
  {
    var after := ApplyEdit(slots, i, h[i].past, KeyIn(h), e);
    forall slot, x | x in Get(after, slot) ensures x.at in h {
      EditDoes(h, i, slots, e, slot);
      assert x in HeadsOf(after, slot);
    }
  }

  lemma {:induction false} EditsDo(h: History, i: VersionId, slots: Slots<VersionId>, edits: seq<Edit>, slot: Slot)
    requires i in h && Inside(h, slots)
    ensures Inside(h, ApplyEdits(slots, i, h[i].past, KeyIn(h), edits))
    ensures EditsLeave(h, i, HeadsOf(slots, slot), edits, slot,
                       HeadsOf(ApplyEdits(slots, i, h[i].past, KeyIn(h), edits), slot))
    decreases |edits|
  {
    hide Inside, EditLeaves, ApplyEdit, HeadsOf, KeyIn;
    if edits != [] {
      var n := |edits| - 1;
      var mid := ApplyEdits(slots, i, h[i].past, KeyIn(h), edits[..n]);
      EditsDo(h, i, slots, edits[..n], slot);
      EditDoes(h, i, mid, edits[n], slot);
      EditInside(h, i, mid, edits[n]);
    }
  }

  lemma StateIs(s: ElementState, slot: Slot)
    ensures slot in StateSlots(s) <==> InState(s, slot).Some?
    ensures slot in StateSlots(s) ==> InState(s, slot) == Some(StateSlots(s)[slot])
  {
    match slot
    case SettingSlot(name) =>
    case _ =>
  }

  lemma AfterIs(es: seq<Entry<VersionId>>, i: VersionId, past: set<VersionId>, state: map<Slot, Written>, slot: Slot)
    ensures Among(AfterCheckpoint(es, i, past, state, slot))
         == if slot in state then Beside(Among(es), i, past) + {Entry(i, state[slot])}
            else set e | e in Among(es) && e.at !in past
  {
    RetainIs(es, past);
    RetainIs(es, past + {i});
    hide Retain;
  }

  lemma SlotAfter(slots: Slots<VersionId>, i: VersionId, past: set<VersionId>, state: map<Slot, Written>, slot: Slot)
    ensures Get(ApplyCheckpoint(slots, i, past, state), slot) == AfterCheckpoint(Get(slots, slot), i, past, state, slot)
  {
  }

  lemma CheckpointDoes(h: History, i: VersionId, slots: Slots<VersionId>, s: ElementState, slot: Slot)
    requires i in h
    ensures CheckpointLeaves(i, h[i].past, s, HeadsOf(slots, slot), slot,
                             HeadsOf(ApplyCheckpoint(slots, i, h[i].past, StateSlots(s)), slot))
  {
    StateIs(s, slot);
    SlotAfter(slots, i, h[i].past, StateSlots(s), slot);
    AfterIs(Get(slots, slot), i, h[i].past, StateSlots(s), slot);
    hide StateSlots, InState, AfterCheckpoint, ApplyCheckpoint, Among, Beside;
  }

  lemma StepDoes(h: History, i: VersionId, slots: Slots<VersionId>)
    requires WellFormed(h) && i in h && Inside(h, slots)
    ensures OneByOne(h, i, slots, Step(h, slots, i)) && Inside(h, Step(h, slots, i))
  {
    CountsExactlyWhen(h, i);
    hide Counts, LockedOut, WellFormed, EditsLeave, ApplyEdits, ApplyCheckpoint, StateSlots, KeyIn, CheckpointLeaves;
    var after := Step(h, slots, i);
    forall slot ensures VersionLeaves(h, i, HeadsOf(slots, slot), slot, HeadsOf(after, slot)) {
      if OnlyCheckpoint(h[i]) {
        CheckpointDoes(h, i, slots, h[i].edits[0].state, slot);
      } else {
        EditsDo(h, i, slots, h[i].edits, slot);
      }
    }
    StepInside(h, i, slots);
  }

  lemma StepInside(h: History, i: VersionId, slots: Slots<VersionId>)
    requires i in h && Inside(h, slots)
    ensures Inside(h, Step(h, slots, i))
  {
    hide Counts, EditsLeave, ApplyEdits, ApplyCheckpoint, StateSlots, KeyIn;
    var after := Step(h, slots, i);
    if Counts(h, i) && IsCheckpoint(h[i].edits) {
      forall slot, x | x in Get(after, slot) ensures x.at in h {
        CheckpointDoes(h, i, slots, h[i].edits[0].state, slot);
        assert x in HeadsOf(after, slot);
      }
    } else if Counts(h, i) {
      EditsDo(h, i, slots, h[i].edits, KindSlot);
    }
  }

  // ---- The whole merge, version by version -----------------------------------------------------

  /** `slots` is what the versions of `done` leave, one after another, each the least by writer and
      number of those whose past is done. */
  ghost predicate Leaves(h: History, done: set<VersionId>, slots: Slots<VersionId>)
    decreases done
  {
    if done == {} then slots == map[]
    else exists prev, i, before ::
      prev < done && done == prev + {i} && i in h && IsTurn(h, prev, i)
      && Leaves(h, prev, before) && OneByOne(h, i, before, slots)
  }

  /** `i` is next: its past is done, and nobody else whose past is done comes before it. */
  predicate IsTurn(h: History, done: set<VersionId>, i: VersionId) {
    && i in h && i !in done && h[i].past <= done
    && forall j | j in h && j !in done && h[j].past <= done ::
         i.writer < j.writer || (i.writer == j.writer && i.number <= j.number)
  }

  lemma NextIsTurn(h: History, done: set<VersionId>)
    requires WellFormed(h) && done < h.Keys
    ensures IsTurn(h, done, Next(h, done))
  {
    var i := Next(h, done);
    assert IsMinId(i, Ready(h, done));
    forall j | j in h && j !in done && h[j].past <= done
      ensures i.writer < j.writer || (i.writer == j.writer && i.number <= j.number)
    {
      assert j in Ready(h, done) && IdLeq(i, j);
    }
  }

  lemma {:induction false} MergeLeaves(h: History, done: set<VersionId>, slots: Slots<VersionId>)
    requires WellFormed(h) && done <= h.Keys && Leaves(h, done, slots) && Inside(h, slots)
    ensures Leaves(h, h.Keys, MergeFrom(h, done, slots)) && Inside(h, MergeFrom(h, done, slots))
    decreases |h.Keys| - |done|
  {
    hide WellFormed, OneByOne, IsTurn, Inside, Next, Step;
    if done != h.Keys {
      SmallerSubset(done, h.Keys);
      var i := Next(h, done);
      NextIsTurn(h, done);
      StepDoes(h, i, slots);
      TurnIsNew(h, done, i);
      MergeLeaves(h, done + {i}, Step(h, slots, i));
    }
  }

  lemma TurnIsNew(h: History, done: set<VersionId>, i: VersionId)
    requires IsTurn(h, done, i)
    ensures i in h && i !in done
  {
  }

  /** The final slots are what the versions leave one after another. */
  lemma FinalLeaves(h: History)
    requires WellFormed(h)
    ensures Leaves(h, h.Keys, FinalSlots(h)) && Inside(h, FinalSlots(h))
  {
    MergeLeaves(h, {}, map[]);
  }

  // ---- What an entry carries -----------------------------------------------------------------------

  predicate LastTargets(edits: seq<Edit>, slot: Slot, k: nat)
    requires k < |edits|
  {
    Targets(edits[k], slot) && forall j | k < j < |edits| :: !Targets(edits[j], slot)
  }

  /** What an edit puts in its slot: for a change, a splice of some text. */
  ghost predicate Brings(e: Edit, value: Written) {
    match e
    case Create(kind) => value == Text(kind)
    case Set(_, text) => value == Text(text)
    case Change(_, sp) => value.Text? && exists base :: Replaced(base, sp, value.text)
    case PlaceAt(place) => value == Placed(place)
    case Remove => value == Gone
    case _ => false
  }

  /** The version's last word on the slot. */
  ghost predicate Carries(v: Version, slot: Slot, value: Written) {
    if OnlyCheckpoint(v) then InState(v.edits[0].state, slot) == Some(value)
    else exists k | 0 <= k < |v.edits| :: LastTargets(v.edits, slot, k) && Brings(v.edits[k], value)
  }

  ghost predicate LastBrings(edits: seq<Edit>, slot: Slot, value: Written) {
    exists k | 0 <= k < |edits| :: LastTargets(edits, slot, k) && Brings(edits[k], value)
  }

  lemma GivesBrings(h: History, heads: Entries, e: Edit, value: Written)
    requires Gives(h, heads, e, value)
    ensures Brings(e, value)
  {
    hide ShowsText, Replaced;
    if e.Change? { var base :| ShowsText(h, heads, base) && Replaced(base, e.splice, value.text); }
  }

  lemma LastStays(edits: seq<Edit>, e: Edit, slot: Slot, value: Written)
    ensures LastBrings(edits, slot, value) && !Targets(e, slot) ==> LastBrings(edits + [e], slot, value)
    ensures Targets(e, slot) && Brings(e, value) ==> LastBrings(edits + [e], slot, value)
  {
    var more := edits + [e];
    hide Brings, Targets;
    if LastBrings(edits, slot, value) && !Targets(e, slot) {
      var k :| 0 <= k < |edits| && LastTargets(edits, slot, k) && Brings(edits[k], value);
      assert more[k] == edits[k] && LastTargets(more, slot, k);
    }
    if Targets(e, slot) && Brings(e, value) {
      assert LastTargets(more, slot, |edits|);
    }
  }

  lemma {:induction false} EditsCarry(h: History, i: VersionId, heads: Entries, edits: seq<Edit>, slot: Slot,
                                      after: Entries)
    requires i in h && EditsLeave(h, i, heads, edits, slot, after) && forall e | e in heads :: e.at != i
    ensures forall e | e in after :: if e.at == i then LastBrings(edits, slot, e.value) else e in heads
    decreases |edits|
  {
    if edits != [] {
      var n := |edits| - 1;
      var mid :| EditsLeave(h, i, heads, edits[..n], slot, mid) && EditLeaves(h, i, mid, edits[n], slot, after);
      EditsCarry(h, i, heads, edits[..n], slot, mid);
      hide EditsLeave, LastBrings, Targets, Gives;
      assert edits == edits[..n] + [edits[n]];
      if Targets(edits[n], slot) {
        var value :| Gives(h, mid, edits[n], value) && after == Beside(mid, i, h[i].past) + {Entry(i, value)};
        GivesBrings(h, mid, edits[n], value);
        LastStays(edits[..n], edits[n], slot, value);
      } else {
        forall e | e in after && e.at == i ensures LastBrings(edits, slot, e.value) {
          LastStays(edits[..n], edits[n], slot, e.value);
        }
      }
    }
  }

  ghost predicate AllCarry(h: History, done: set<VersionId>, slots: Slots<VersionId>) {
    forall slot, e | e in HeadsOf(slots, slot) :: e.at in done && e.at in h && Carries(h[e.at], slot, e.value)
  }

  lemma VersionCarries(h: History, i: VersionId, heads: Entries, slot: Slot, after: Entries, e: Entry<VersionId>)
    requires i in h && VersionLeaves(h, i, heads, slot, after) && (forall x | x in heads :: x.at != i) && e in after
    ensures e in heads || (e.at == i && Carries(h[i], slot, e.value))
  {
    hide LockedOut, Carries, InState;
    if !LockedOut(h, i) {
      if OnlyCheckpoint(h[i]) {
        CarriesState(h[i], slot, e.value);
      } else {
        EditsCarry(h, i, heads, h[i].edits, slot, after);
        CarriesLast(h[i], slot, e.value);
      }
    }
  }

  lemma CarriesState(v: Version, slot: Slot, value: Written)
    ensures OnlyCheckpoint(v) && InState(v.edits[0].state, slot) == Some(value) ==> Carries(v, slot, value)
  {
  }

  lemma CarriesLast(v: Version, slot: Slot, value: Written)
    requires !OnlyCheckpoint(v)
    ensures LastBrings(v.edits, slot, value) <==> Carries(v, slot, value)
  {
  }

  lemma {:induction false} LeavesCarry(h: History, done: set<VersionId>, slots: Slots<VersionId>)
    requires Leaves(h, done, slots)
    ensures AllCarry(h, done, slots)
    decreases done
  {
    if done != {} {
      var prev, i, before :| prev < done && done == prev + {i} && i in h && IsTurn(h, prev, i)
        && Leaves(h, prev, before) && OneByOne(h, i, before, slots);
      LeavesCarry(h, prev, before);
      OneCarries(h, prev, i, before, slots);
    }
  }

  lemma OneCarries(h: History, prev: set<VersionId>, i: VersionId, before: Slots<VersionId>, slots: Slots<VersionId>)
    requires IsTurn(h, prev, i) && AllCarry(h, prev, before) && OneByOne(h, i, before, slots)
    ensures AllCarry(h, prev + {i}, slots)
  {
    hide VersionLeaves, Carries, HeadsOf;
    forall slot, e | e in HeadsOf(slots, slot)
      ensures e.at in prev + {i} && e.at in h && Carries(h[e.at], slot, e.value)
    {
      assert VersionLeaves(h, i, HeadsOf(before, slot), slot, HeadsOf(slots, slot));
      VersionCarries(h, i, HeadsOf(before, slot), slot, HeadsOf(slots, slot), e);
    }
  }

  /** Every entry left carries its version's last word on the slot. */
  lemma EntriesCarry(h: History, slot: Slot, e: Entry<VersionId>)
    requires WellFormed(h) && e in HeadsOf(FinalSlots(h), slot)
    ensures e.at in h && Carries(h[e.at], slot, e.value)
  {
    FinalLeaves(h);
    LeavesCarry(h, h.Keys, FinalSlots(h));
  }

  // ---- Which versions stand -----------------------------------------------------------------------

  predicate WritesIt(v: Version, slot: Slot) {
    if OnlyCheckpoint(v) then InState(v.edits[0].state, slot).Some?
    else exists k | 0 <= k < |v.edits| :: Targets(v.edits[k], slot)
  }

  /** The version counts and writes the slot, and nothing that counts and was made over it writes
      the slot or is a checkpoint. */
  ghost predicate Stands(h: History, i: VersionId, slot: Slot) {
    && i in h && !LockedOut(h, i) && WritesIt(h[i], slot)
    && forall j | j in h && i in h[j].past && !LockedOut(h, j) :: !WritesIt(h[j], slot) && !OnlyCheckpoint(h[j])
  }

  lemma WritesAre(v: Version, slot: Slot)
    ensures WritesSlot(v.edits, slot) <==> WritesIt(v, slot)
  {
    if OnlyCheckpoint(v) {
      StateIs(v.edits[0].state, slot);
      hide StateSlots, InState;
    } else {
      assert forall e :: SlotOf(e) == Some(slot) <==> Targets(e, slot);
      if WritesAmong(v.edits, slot) {
        var e :| e in v.edits && SlotOf(e) == Some(slot);
        var k :| 0 <= k < |v.edits| && v.edits[k] == e;
      }
    }
  }

  lemma StandingAre(h: History, i: VersionId, slot: Slot)
    requires WellFormed(h)
    ensures HoldsSlot(h, h.Keys, i, slot) <==> Stands(h, i, slot)
  {
    forall j | j in h ensures Counts(h, j) <==> !LockedOut(h, j)
                      ensures WritesSlot(h[j].edits, slot) <==> WritesIt(h[j], slot)
    {
      CountsExactlyWhen(h, j);
      WritesAre(h[j], slot);
    }
    hide Counts, LockedOut, WritesSlot, WritesIt, WellFormed;
  }

  /** The slot has one entry for each version that stands, and no others. */
  lemma EntriesStand(h: History, slot: Slot, i: VersionId)
    requires WellFormed(h)
    ensures Stands(h, i, slot) <==> exists e :: e in HeadsOf(FinalSlots(h), slot) && e.at == i
    ensures var heads := HeadsOf(FinalSlots(h), slot);
            forall e, f | e in heads && f in heads && e.at == f.at :: e == f
  {
    ClosedForm(h, slot, i);
    StandingAre(h, i, slot);
    FinalHeld(h);
    var es := Get(FinalSlots(h), slot);
    hide Stands, HoldsSlot, FinalSlots;
    assert DistinctAts(es);
    if HasEntry(es, i) {
      var k :| 0 <= k < |es| && es[k].at == i;
      assert es[k] in Among(es);
    }
  }

  // ---- What the merged state shows ---------------------------------------------------------------

  /** A version that stands, and before which none does, carries the value. */
  ghost predicate Shows(h: History, slot: Slot, value: Written) {
    exists i :: ShowsFrom(h, slot, i, value)
  }

  ghost predicate ShowsFrom(h: History, slot: Slot, i: VersionId, value: Written) {
    Stands(h, i, slot) && (forall j | Stands(h, j, slot) :: !Earlier(h, j, i)) && Carries(h[i], slot, value)
  }

  ghost predicate Vacant(h: History, slot: Slot) {
    forall i :: !Stands(h, i, slot)
  }

  lemma FirstShows(h: History, slot: Slot)
    requires WellFormed(h)
    ensures match First(Get(FinalSlots(h), slot), KeyIn(h))
            case None => Vacant(h, slot)
            case Some(value) => Shows(h, slot, value) && !Vacant(h, slot)
  {
    var es := Get(FinalSlots(h), slot);
    FinalLeaves(h);
    assert forall e | e in es :: e.at in h;
    FirstIsShown(h, es);
    hide First, FinalSlots, Stands, Earlier, Carries;
    if es == [] {
      forall i ensures !Stands(h, i, slot) {
        EntriesStand(h, slot, i);
      }
    } else {
      var e :| IsShown(h, Among(es), e) && First(es, KeyIn(h)) == Some(e.value);
      EntriesStand(h, slot, e.at);
      EntriesCarry(h, slot, e);
      forall j | Stands(h, j, slot) ensures !Earlier(h, j, e.at) {
        EntriesStand(h, slot, j);
      }
      assert ShowsFrom(h, slot, e.at, e.value);
    }
  }

  /** A slot's values are of its kind. */
  lemma CarriesItsKind(v: Version, slot: Slot, value: Written)
    requires Carries(v, slot, value)
    ensures match slot
            case KindSlot => value.Text?
            case PlaceSlot => value.Placed?
            case RemovedSlot => value.Gone?
            case SettingSlot(_) => value.Text?
  {
    hide Replaced;
  }

  lemma FirstHasKind(h: History, slot: Slot)
    requires WellFormed(h) && First(Get(FinalSlots(h), slot), KeyIn(h)).Some?
    ensures var value := First(Get(FinalSlots(h), slot), KeyIn(h)).value;
            match slot
            case KindSlot => value.Text?
            case PlaceSlot => value.Placed?
            case RemovedSlot => value.Gone?
            case SettingSlot(_) => value.Text?
  {
    var value := First(Get(FinalSlots(h), slot), KeyIn(h)).value;
    FirstShows(h, slot);
    hide First, FinalSlots, Stands, Earlier, Carries;
    var i :| ShowsFrom(h, slot, i, value);
    CarriesItsKind(h[i], slot, value);
  }

  lemma KindShown(h: History)
    requires WellFormed(h)
    ensures var kind := MergedValue(h).state.kind;
            if kind.Some? then Shows(h, KindSlot, Text(kind.value)) else Vacant(h, KindSlot)
  {
    FirstShows(h, KindSlot);
    if First(Get(FinalSlots(h), KindSlot), KeyIn(h)).Some? { FirstHasKind(h, KindSlot); }
    hide First, FinalSlots, Shows, Vacant, ShownSettings, LocksInForce, ShownVariants, Heads;
  }

  lemma PlaceShown(h: History)
    requires WellFormed(h)
    ensures var place := MergedValue(h).state.place;
            if place.Some? then Shows(h, PlaceSlot, Placed(place.value)) else Vacant(h, PlaceSlot)
  {
    FirstShows(h, PlaceSlot);
    if First(Get(FinalSlots(h), PlaceSlot), KeyIn(h)).Some? { FirstHasKind(h, PlaceSlot); }
    hide First, FinalSlots, Shows, Vacant, ShownSettings, LocksInForce, ShownVariants, Heads;
  }

  lemma RemovedShown(h: History)
    requires WellFormed(h)
    ensures MergedValue(h).state.removed <==> !Vacant(h, RemovedSlot)
  {
    FirstShows(h, RemovedSlot);
    hide First, FinalSlots, Shows, Vacant, ShownSettings, LocksInForce, ShownVariants, Heads;
  }

  lemma SettingIs(h: History, name: string)
    requires WellFormed(h)
    ensures var shown := First(Get(FinalSlots(h), SettingSlot(name)), KeyIn(h));
            var settings := MergedValue(h).state.settings;
            && (name in settings <==> shown.Some?)
            && (name in settings ==> shown == Some(Text(settings[name])))
  {
    var slots, slot := FinalSlots(h), SettingSlot(name);
    if First(Get(slots, slot), KeyIn(h)).Some? {
      FirstHasKind(h, slot);
      assert slot in slots;
      assert name in SettingNames(slots);
    }
    hide FinalSlots, LocksInForce, ShownVariants, Heads, Sorted;
  }

  lemma SettingShown(h: History, name: string)
    requires WellFormed(h)
    ensures var settings := MergedValue(h).state.settings;
            if name in settings then Shows(h, SettingSlot(name), Text(settings[name]))
            else Vacant(h, SettingSlot(name))
  {
    SettingIs(h, name);
    FirstShows(h, SettingSlot(name));
    hide MergedValue, First, FinalSlots, Shows, Vacant;
  }

  /** The last word of the version that stands first is what a setting shows. */
  lemma SetIsShown(h: History, name: string, i: VersionId, k: nat)
    requires WellFormed(h) && Stands(h, i, SettingSlot(name))
    requires forall j | Stands(h, j, SettingSlot(name)) && j != i :: Earlier(h, i, j)
    requires !OnlyCheckpoint(h[i]) && k < |h[i].edits| && LastTargets(h[i].edits, SettingSlot(name), k)
    requires h[i].edits[k].Set?
    ensures name in MergedValue(h).state.settings && MergedValue(h).state.settings[name] == h[i].edits[k].value
  {
    SettingShown(h, name);
    hide MergedValue, Stands, Earlier, Replaced;
    var slot := SettingSlot(name);
    assert !Vacant(h, slot);
    var value := Text(MergedValue(h).state.settings[name]);
    var j :| ShowsFrom(h, slot, j, value);
    assert j == i;
    var m :| 0 <= m < |h[i].edits| && LastTargets(h[i].edits, slot, m) && Brings(h[i].edits[m], value);
    assert m == k;
  }

  // ---- A checkpoint over everything --------------------------------------------------------------

  /** Everything else is in the checkpoint's past. */
  predicate OverAll(h: History, c: VersionId) {
    c in h && OnlyCheckpoint(h[c]) && forall i | i in h && i != c :: i in h[c].past
  }

  lemma NobodyOver(h: History, c: VersionId, n: VersionId)
    requires WellFormed(h) && OverAll(h, c) && n in h
    ensures c !in h[n].past
  {
    assert IsGroup(h, {c, n});
    var x :| x in {c, n} && h[x].past !! {c, n};
  }

  lemma CheckpointStands(h: History, c: VersionId, i: VersionId, slot: Slot)
    requires WellFormed(h) && OverAll(h, c)
    ensures Stands(h, i, slot) <==> i == c && InState(h[c].edits[0].state, slot).Some?
  {
    forall n | n in h ensures c !in h[n].past {
      NobodyOver(h, c, n);
    }
    assert !LockedOut(h, c);
    hide InState, InForce, LockedOut;
  }

  lemma CheckpointShows(h: History, c: VersionId, slot: Slot, value: Written)
    requires WellFormed(h) && OverAll(h, c)
    ensures Shows(h, slot, value) ==> InState(h[c].edits[0].state, slot) == Some(value)
    ensures Vacant(h, slot) <==> InState(h[c].edits[0].state, slot).None?
  {
    forall i ensures Stands(h, i, slot) <==> i == c && InState(h[c].edits[0].state, slot).Some? {
      CheckpointStands(h, c, i, slot);
    }
    hide Stands, InState;
    assert Vacant(h, slot) <==> !Stands(h, c, slot);
  }

  lemma CheckpointLocks(h: History, c: VersionId, s: string, writer: Key)
    requires WellFormed(h) && OverAll(h, c)
    ensures Lock(s, writer) in MergedValue(h).state.locks <==> Lock(s, writer) in h[c].edits[0].state.locks
  {
    LockShownExactlyWhen(h, s, writer);
    forall n | n in h ensures c !in h[n].past {
      NobodyOver(h, c, n);
    }
    hide MergedValue;
    if Lock(s, writer) in h[c].edits[0].state.locks { assert InForce(h, c, s, writer); }
  }

  lemma CheckpointSettings(h: History, c: VersionId, name: string)
    requires WellFormed(h) && OverAll(h, c)
    ensures var shown, kept := MergedValue(h).state.settings, h[c].edits[0].state.settings;
            (name in shown <==> name in kept) && (name in shown ==> shown[name] == kept[name])
  {
    SettingShown(h, name);
    var shown := MergedValue(h).state.settings;
    CheckpointShows(h, c, SettingSlot(name), Text(if name in shown then shown[name] else ""));
    hide MergedValue, Shows, Vacant;
  }

  lemma CheckpointKind(h: History, c: VersionId)
    requires WellFormed(h) && OverAll(h, c)
    ensures MergedValue(h).state.kind == h[c].edits[0].state.kind
  {
    var kind := MergedValue(h).state.kind;
    KindShown(h);
    CheckpointShows(h, c, KindSlot, Text(if kind.Some? then kind.value else ""));
    hide MergedValue, Shows, Vacant, WellFormed;
  }

  lemma CheckpointPlace(h: History, c: VersionId)
    requires WellFormed(h) && OverAll(h, c)
    ensures MergedValue(h).state.place == h[c].edits[0].state.place
  {
    var place := MergedValue(h).state.place;
    PlaceShown(h);
    CheckpointShows(h, c, PlaceSlot, Placed(if place.Some? then place.value else Place("", "")));
    hide MergedValue, Shows, Vacant, WellFormed;
  }

  lemma CheckpointRemoved(h: History, c: VersionId)
    requires WellFormed(h) && OverAll(h, c)
    ensures MergedValue(h).state.removed == h[c].edits[0].state.removed
  {
    RemovedShown(h);
    CheckpointShows(h, c, RemovedSlot, Gone);
    hide MergedValue, Shows, Vacant, WellFormed;
  }

  /** A checkpoint made over everything else is what the merged state shows, to the letter. */
  lemma CheckpointIsShown(h: History, c: VersionId)
    requires WellFormed(h) && OverAll(h, c)
    ensures MergedValue(h).state == h[c].edits[0].state
  {
    var shown, kept := MergedValue(h).state, h[c].edits[0].state;
    hide MergedValue, WellFormed, OverAll;
    CheckpointKind(h, c);
    CheckpointPlace(h, c);
    CheckpointRemoved(h, c);
    forall name ensures name in shown.settings <==> name in kept.settings
                ensures name in shown.settings ==> shown.settings[name] == kept.settings[name]
    {
      CheckpointSettings(h, c, name);
    }
    assert shown.settings == kept.settings;
    forall l ensures l in shown.locks <==> l in kept.locks {
      CheckpointLocks(h, c, l.setting, l.holder);
    }
  }

  // ---- Variants and heads --------------------------------------------------------------------------

  /** A version's head is shown exactly when nothing is made over it. */
  lemma HeadShownExactlyWhen(h: History, writer: Key, number: nat, digest: Digest)
    requires WellFormed(h)
    ensures Head(writer, number, digest) in MergedValue(h).heads
       <==> var id := VersionId(writer, number);
            id in h && h[id].digest == digest && forall n | n in h :: id !in h[n].past
  {
    hide FinalSlots, ShownState, ShownVariants;
    var id := VersionId(writer, number);
    assert IsHead(h, id) <==> forall n | n in h :: id !in h[n].past;
  }

  ghost function Standing(h: History, slot: Slot): set<VersionId> {
    set i | i in h && Stands(h, i, slot)
  }

  /** The alternative is that version's. */
  ghost predicate IsFrom(h: History, slot: Slot, a: Alternative, i: VersionId) {
    Stands(h, i, slot) && a.writer == i.writer && a.version == h[i].digest && Carries(h[i], slot, a.value)
  }

  predicate AltBefore(a: Alternative, b: Alternative) {
    a.writer < b.writer || (a.writer == b.writer && a.version < b.version)
  }

  lemma {:induction false} DistinctCount(es: seq<Entry<VersionId>>)
    requires DistinctAts(es)
    ensures |set e | e in es :: e.at| == |es|
    decreases |es|
  {
    var ats := set e | e in es :: e.at;
    if es == [] {
      assert ats == {};
    } else {
      var n := |es| - 1;
      var rest := es[..n];
      DistinctCount(rest);
      assert es == rest + [es[n]];
      assert ats == (set e | e in rest :: e.at) + {es[n].at};
      assert forall k | 0 <= k < n :: es[k].at != es[n].at;
    }
  }

  lemma EntriesCount(h: History, slot: Slot)
    requires WellFormed(h)
    ensures |Get(FinalSlots(h), slot)| == |Standing(h, slot)|
  {
    var es := Get(FinalSlots(h), slot);
    FinalHeld(h);
    DistinctCount(es);
    forall i ensures i in Standing(h, slot) <==> i in set e | e in es :: e.at {
      EntriesStand(h, slot, i);
    }
    assert Standing(h, slot) == set e | e in es :: e.at;
  }

  /** One alternative for each version that stands, in order of writer and digest. */
  ghost predicate ListsStanding(h: History, slot: Slot, alts: seq<Alternative>) {
    && |alts| == |Standing(h, slot)|
    && (forall a | a in alts :: HasSource(h, slot, a))
    && (forall i | i in Standing(h, slot) :: IsListed(h, slot, alts, i))
    && (forall j, k | 0 <= j < k < |alts| :: !AltBefore(alts[k], alts[j]))
  }

  ghost predicate HasSource(h: History, slot: Slot, a: Alternative) {
    exists i :: IsFrom(h, slot, a, i)
  }

  ghost predicate IsListed(h: History, slot: Slot, alts: seq<Alternative>, i: VersionId) {
    exists a :: a in alts && IsFrom(h, slot, a, i)
  }

  function AltOf(h: History, e: Entry<VersionId>): Alternative {
    Alternative(KeyIn(h)(e.at).0, KeyIn(h)(e.at).1, e.value)
  }

  lemma EntryIsFrom(h: History, slot: Slot, e: Entry<VersionId>)
    requires WellFormed(h) && e in HeadsOf(FinalSlots(h), slot)
    ensures IsFrom(h, slot, AltOf(h, e), e.at)
  {
    EntriesStand(h, slot, e.at);
    EntriesCarry(h, slot, e);
    hide FinalSlots, Stands, Carries;
  }

  lemma SortedAlts(es: seq<Entry<VersionId>>, h: History)
    ensures var alts := Alternatives(es, KeyIn(h));
            && |alts| == |es|
            && (forall a | a in alts :: exists e :: e in es && a == AltOf(h, e))
            && (forall e | e in es :: AltOf(h, e) in alts)
  {
    var s, alts := Sorted(es, KeyIn(h)), Alternatives(es, KeyIn(h));
    SortedSorts(es, KeyIn(h));
    assert |multiset(s)| == |s| && |multiset(es)| == |es|;
    hide Sorted, SortedByKey;
    forall a | a in alts ensures exists e :: e in es && a == AltOf(h, e) {
      var k :| 0 <= k < |alts| && alts[k] == a;
      assert s[k] in multiset(s) && s[k] in multiset(es);
      assert s[k] in es && a == AltOf(h, s[k]);
    }
    forall e | e in es ensures AltOf(h, e) in alts {
      assert e in multiset(es) && e in multiset(s);
      var k :| 0 <= k < |s| && s[k] == e;
      assert alts[k] == AltOf(h, e);
    }
  }

  lemma AltsInOrder(es: seq<Entry<VersionId>>, h: History, j: nat, k: nat)
    requires j < k < |Alternatives(es, KeyIn(h))|
    ensures !AltBefore(Alternatives(es, KeyIn(h))[k], Alternatives(es, KeyIn(h))[j])
  {
    var s := Sorted(es, KeyIn(h));
    SortedSorts(es, KeyIn(h));
    assert KeyLeq(KeyIn(h)(s[j].at), KeyIn(h)(s[k].at));
  }

  lemma AlternativesAre(h: History, slot: Slot)
    requires WellFormed(h)
    ensures ListsStanding(h, slot, Alternatives(Get(FinalSlots(h), slot), KeyIn(h)))
  {
    var es := Get(FinalSlots(h), slot);
    var alts := Alternatives(es, KeyIn(h));
    SortedAlts(es, h);
    EntriesCount(h, slot);
    hide FinalSlots, Stands, IsFrom, Alternatives, AltOf, AltBefore, KeyIn, WellFormed;
    forall a | a in alts ensures HasSource(h, slot, a) {
      var e :| e in es && a == AltOf(h, e);
      assert e in Among(es);
      EntryIsFrom(h, slot, e);
    }
    forall i | i in Standing(h, slot) ensures IsListed(h, slot, alts, i) {
      EntriesStand(h, slot, i);
      var e :| e in Among(es) && e.at == i;
      EntryIsFrom(h, slot, e);
      assert AltOf(h, e) in alts;
    }
    forall j, k | 0 <= j < k < |alts| ensures !AltBefore(alts[k], alts[j]) {
      AltsInOrder(es, h, j, k);
    }
  }

  /** A slot is among the variants exactly when more than one version stands; the alternatives are
      theirs, one each, in order of writer and digest. */
  lemma VariantsAre(h: History, slot: Slot)
    requires WellFormed(h)
    ensures slot in MergedValue(h).variants <==> |Standing(h, slot)| > 1
    ensures slot in MergedValue(h).variants ==> ListsStanding(h, slot, MergedValue(h).variants[slot])
  {
    AlternativesAre(h, slot);
    EntriesCount(h, slot);
    hide FinalSlots, Alternatives, Standing, ListsStanding, ShownState, Heads;
  }
}
