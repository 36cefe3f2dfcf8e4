/**
 The element merge rule as a function of a history: a map from version ids to the
 versions applied, each with the applied part of its causal past.  Nothing here
 mentions the order in which versions arrived.
 */
module ElementModel {
  import opened Basics
  import opened Options

  // Writer key names and digests are opaque ordered values.
  type Key = int
  type Digest = int

  datatype VersionId = VersionId(writer: Key, number: nat)

  datatype Splice = Splice(at: nat, remove: nat, insert: string)
  datatype Place = Place(parent: string, order: string)
  datatype Lock = Lock(setting: string, holder: Key)

  datatype ElementState = ElementState(
    kind: Option<string>,
    place: Option<Place>,
    settings: map<string, string>,
    removed: bool,
    locks: set<Lock>)

  datatype Edit =
    | Create(kind: string)
    | Set(setting: string, value: string)
    | Change(setting: string, splice: Splice)
    | PlaceAt(place: Place)
    | Remove
    | TakeLock(setting: string)
    | Unlock(setting: string)
    | Checkpoint(state: ElementState)

  datatype Version = Version(id: VersionId, digest: Digest, past: set<VersionId>, edits: seq<Edit>)

  datatype Slot = KindSlot | PlaceSlot | RemovedSlot | SettingSlot(name: string)
  datatype Written = Text(text: string) | Placed(place: Place) | Gone

  /** What one version wrote in a slot; `T` is a version id here, a node index in the class. */
  datatype Entry<T> = Entry(at: T, value: Written)
  type Slots<T> = map<Slot, seq<Entry<T>>>

  /** A lock taken by the version `at`. */
  datatype Held<T> = Held(setting: string, holder: Key, at: T)

  datatype Alternative = Alternative(writer: Key, version: Digest, value: Written)
  datatype Head = Head(writer: Key, number: nat, digest: Digest)
  datatype ElementValue = ElementValue(state: ElementState, variants: map<Slot, seq<Alternative>>, heads: set<Head>)

  /** The applied versions, each with the applied part of its past. */
  type History = map<VersionId, Version>

  // ---- What one version does -------------------------------------------------

  predicate IsCheckpoint(edits: seq<Edit>) {
    |edits| == 1 && edits[0].Checkpoint?
  }

  /** The settings a version sets or changes. */
  function SettingsWritten(edits: seq<Edit>): set<string> {
    set e | e in edits && (e.Set? || e.Change?) :: e.setting
  }

  /** The settings locked after these edits: a later `Unlock` undoes an earlier `Lock`. */
  function Taken(edits: seq<Edit>): set<string> {
    if edits == [] then {}
    else
      var before := Taken(edits[..|edits| - 1]);
      match edits[|edits| - 1]
      case TakeLock(s) => before + {s}
      case Unlock(s) => before - {s}
      case _ => before
  }

  function LocksTaken(writer: Key, edits: seq<Edit>): set<Lock> {
    if IsCheckpoint(edits) then edits[0].state.locks
    else set s | s in Taken(edits) :: Lock(s, writer)
  }

  /** Whether a version made over a lock lifts it. */
  predicate Lifts(writer: Key, edits: seq<Edit>, lock: Lock) {
    if IsCheckpoint(edits) then lock !in edits[0].state.locks
    else writer == lock.holder && Unlock(lock.setting) in edits
  }

  function StateSlots(s: ElementState): map<Slot, Written> {
    (if s.kind.Some? then map[KindSlot := Text(s.kind.value)] else map[])
    + (if s.place.Some? then map[PlaceSlot := Placed(s.place.value)] else map[])
    + (if s.removed then map[RemovedSlot := Gone] else map[])
    + (map k | k in s.settings :: SettingSlot(k) := Text(s.settings[k]))
  }

  /** The slot an edit writes, if it writes one. */
  function SlotOf(e: Edit): Option<Slot> {
    match e
    case Create(_) => Some(KindSlot)
    case Set(s, _) => Some(SettingSlot(s))
    case Change(s, _) => Some(SettingSlot(s))
    case PlaceAt(_) => Some(PlaceSlot)
    case Remove => Some(RemovedSlot)
    case _ => None
  }

  predicate WritesAmong(edits: seq<Edit>, slot: Slot) {
    exists e :: e in edits && SlotOf(e) == Some(slot)
  }

  predicate WritesSlot(edits: seq<Edit>, slot: Slot) {
    if IsCheckpoint(edits) then slot in StateSlots(edits[0].state) else WritesAmong(edits, slot)
  }

  /** `base` with `splice` applied; offsets past the end clamp to it. */
  function Spliced(base: string, splice: Splice): string {
    var at := if splice.at <= |base| then splice.at else |base|;
    var end := if at + splice.remove <= |base| then at + splice.remove else |base|;
    base[..at] + splice.insert + base[end..]
  }

  // ---- Histories ---------------------------------------------------------------

  /** No causal cycle: every non-empty set of versions has one whose past avoids the set. */
  ghost predicate Acyclic(h: History) {
    forall X | IsGroup(h, X) :: exists x :: x in X && h[x].past !! X
  }

  ghost predicate IsGroup(h: History, X: set<VersionId>) {
    X <= h.Keys && X != {}
  }

  ghost predicate WellFormed(h: History) {
    && (forall id | id in h :: h[id].id == id && h[id].past <= h.Keys)
    && Acyclic(h)
  }

  /** Applying a version: kept as it is when already there, else added with the part of
      its past that is applied by now. */
  function Absorb(h: History, v: Version): History {
    if v.id in h then h else h[v.id := v.(past := v.past * h.Keys)]
  }

  lemma AbsorbWellFormed(h: History, v: Version)
    requires WellFormed(h)
    ensures WellFormed(Absorb(h, v))
  {
    var h' := Absorb(h, v);
    if v.id !in h {
      forall X | IsGroup(h', X)
        ensures exists x :: x in X && h'[x].past !! X
      {
        var Y := X - {v.id};
        if Y == {} {
          assert X == {v.id};
          assert v.id in X && h'[v.id].past !! X;
        } else {
          assert IsGroup(h, Y);
          var x :| x in Y && h[x].past !! Y;
          assert h'[x].past !! X;
        }
      }
    }
  }

  // ---- Locks and counting --------------------------------------------------------

  predicate Holds(h: History, l: Held<VersionId>) {
    l.at in h && Lock(l.setting, l.holder) in LocksTaken(l.at.writer, h[l.at].edits)
  }

  predicate Lifted(h: History, l: Held<VersionId>) {
    exists n :: n in h && l.at in h[n].past && Lifts(n.writer, h[n].edits, Lock(l.setting, l.holder))
  }

  /** Whether lock `l` keeps version `id` from counting. */
  predicate Blocks(h: History, l: Held<VersionId>, id: VersionId)
    requires id in h
  {
    && Holds(h, l)
    && l.holder != id.writer
    && l.at in h[id].past
    && l.setting in SettingsWritten(h[id].edits)
    && !Lifted(h, l)
  }

  ghost predicate Counts(h: History, id: VersionId)
    requires id in h
  {
    !exists l :: Blocks(h, l, id)
  }

  ghost predicate LockInForce(h: History, lock: Lock) {
    exists at :: at in h && Holds(h, Held(lock.setting, lock.holder, at))
        && !Lifted(h, Held(lock.setting, lock.holder, at))
  }

  function AllLocks(h: History): set<Lock> {
    set id, l | id in h && l in LocksTaken(id.writer, h[id].edits) :: l
  }

  ghost function LocksInForce(h: History): set<Lock> {
    set l | l in AllLocks(h) && LockInForce(h, l)
  }

  // ---- The order ---------------------------------------------------------------

  predicate IdLeq(a: VersionId, b: VersionId) {
    a.writer < b.writer || (a.writer == b.writer && a.number <= b.number)
  }

  ghost predicate IsMinId(m: VersionId, s: set<VersionId>) {
    m in s && forall x | x in s :: IdLeq(m, x)
  }

  lemma MinIdExists(s: set<VersionId>)
    requires s != {}
    ensures exists m :: IsMinId(m, s)
  {
    var y :| y in s;
    var rest := s - {y};
    if rest == {} {
      assert s == {y};
      assert IsMinId(y, s);
    } else {
      MinIdExists(rest);
      var m :| IsMinId(m, rest);
      forall x | x in s ensures IdLeq(if IdLeq(m, y) then m else y, x) {
        assert x == y || x in rest;
      }
      assert IsMinId(if IdLeq(m, y) then m else y, s);
    }
  }

  /** The least id of a set. */
  ghost function MinId(s: set<VersionId>): (m: VersionId)
    requires s != {}
    ensures IsMinId(m, s)
  {
    MinIdExists(s);
    var m :| IsMinId(m, s);
    m
  }

  /** The versions not done whose past is done. */
  function Ready(h: History, done: set<VersionId>): set<VersionId> {
    set id | id in h && id !in done && h[id].past <= done
  }

  lemma ReadyExists(h: History, done: set<VersionId>)
    requires WellFormed(h) && done < h.Keys
    ensures Ready(h, done) != {}
  {
    var X := h.Keys - done;
    var w :| w in h.Keys && w !in done;
    assert w in X;
    assert IsGroup(h, X);
    var x :| x in X && h[x].past !! X;
    assert h[x].past <= done by {
      forall y | y in h[x].past ensures y in done {
        assert y in h.Keys && y !in X;
      }
    }
    assert x in Ready(h, done);
  }

  /** The version every device takes after the versions done: the least id among those
      whose past is done. */
  ghost function Next(h: History, done: set<VersionId>): (id: VersionId)
    requires WellFormed(h) && done < h.Keys
    ensures id in Ready(h, done) && id == MinId(Ready(h, done))
  {
    ReadyExists(h, done);
    MinId(Ready(h, done))
  }

  // ---- Merging -----------------------------------------------------------------

  function Get<T>(slots: Slots<T>, slot: Slot): seq<Entry<T>> {
    if slot in slots then slots[slot] else []
  }

  function Retain<T(==)>(entries: seq<Entry<T>>, dropped: set<T>): seq<Entry<T>> {
    if entries == [] then []
    else
      var rest := Retain(entries[..|entries| - 1], dropped);
      var e := entries[|entries| - 1];
      if e.at in dropped then rest else rest + [e]
  }

  /** One write: it replaces what the version and its past wrote in the slot, and stays
      beside what concurrent versions wrote there. */
  function Write<T(==)>(slots: Slots<T>, at: T, past: set<T>, slot: Slot, value: Written): Slots<T> {
    slots[slot := Retain(Get(slots, slot), past + {at}) + [Entry(at, value)]]
  }

  /** The fixed order of alternatives: by writer, then version digest. */
  predicate KeyLeq(a: (Key, Digest), b: (Key, Digest)) {
    a.0 < b.0 || (a.0 == b.0 && a.1 <= b.1)
  }

  function Insert<T>(entries: seq<Entry<T>>, e: Entry<T>, key: T -> (Key, Digest)): seq<Entry<T>> {
    if entries == [] then [e]
    else
      var last := entries[|entries| - 1];
      if KeyLeq(key(last.at), key(e.at)) then entries + [e]
      else Insert(entries[..|entries| - 1], e, key) + [last]
  }

  /** A stable sort by key. */
  function Sorted<T>(entries: seq<Entry<T>>, key: T -> (Key, Digest)): seq<Entry<T>> {
    if entries == [] then []
    else Insert(Sorted(entries[..|entries| - 1], key), entries[|entries| - 1], key)
  }

  /** The alternative the state shows. */
  function First<T>(entries: seq<Entry<T>>, key: T -> (Key, Digest)): Option<Written> {
    var s := Sorted(entries, key);
    if s == [] then None else Some(s[0].value)
  }

  /** The text a splice of `slot` starts from: the shown alternative among the current heads. */
  function BaseText<T>(entries: seq<Entry<T>>, key: T -> (Key, Digest)): string {
    match First(entries, key)
    case Some(Text(t)) => t
    case _ => ""
  }

  function ApplyEdit<T(==)>(slots: Slots<T>, at: T, past: set<T>, key: T -> (Key, Digest), e: Edit): Slots<T> {
    match e
    case Create(k) => Write(slots, at, past, KindSlot, Text(k))
    case Set(s, v) => Write(slots, at, past, SettingSlot(s), Text(v))
    case Change(s, splice) =>
      Write(slots, at, past, SettingSlot(s), Text(Spliced(BaseText(Get(slots, SettingSlot(s)), key), splice)))
    case PlaceAt(p) => Write(slots, at, past, PlaceSlot, Placed(p))
    case Remove => Write(slots, at, past, RemovedSlot, Gone)
    case _ => slots
  }

  function ApplyEdits<T(==)>(slots: Slots<T>, at: T, past: set<T>, key: T -> (Key, Digest),
          edits: seq<Edit>): Slots<T> {
    if edits == [] then slots
    else
      ApplyEdit(ApplyEdits(slots, at, past, key, edits[..|edits| - 1]), at, past, key, edits[|edits| - 1])
  }

  /** What a checkpoint leaves in a slot: its past's entries go, its own value comes. */
  function AfterCheckpoint<T(==)>(entries: seq<Entry<T>>, at: T, past: set<T>, state: map<Slot, Written>,
          slot: Slot): seq<Entry<T>> {
    if slot in state then Retain(entries, past + {at}) + [Entry(at, state[slot])]
    else Retain(entries, past)
  }

  /** A checkpoint: no slot is left with an empty list. */
  function ApplyCheckpoint<T(==)>(slots: Slots<T>, at: T, past: set<T>, state: map<Slot, Written>): Slots<T> {
    map slot | slot in slots.Keys + state.Keys && AfterCheckpoint(Get(slots, slot), at, past, state, slot) != []
      :: AfterCheckpoint(Get(slots, slot), at, past, state, slot)
  }

  /** The sort key of the versions of `h`. */
  function KeyIn(h: History): VersionId -> (Key, Digest) {
    (id: VersionId) => (id.writer, if id in h then h[id].digest else 0)
  }

  ghost function Step(h: History, slots: Slots<VersionId>, id: VersionId): Slots<VersionId>
    requires id in h
  {
    var v := h[id];
    if !Counts(h, id) then slots
    else if IsCheckpoint(v.edits) then ApplyCheckpoint(slots, id, v.past, StateSlots(v.edits[0].state))
    else ApplyEdits(slots, id, v.past, KeyIn(h), v.edits)
  }

  /** The slots in the end, from the versions done and the slots they left. */
  ghost function MergeFrom(h: History, done: set<VersionId>, slots: Slots<VersionId>): Slots<VersionId>
    requires WellFormed(h) && done <= h.Keys
    decreases |h.Keys| - |done|
  {
    if done == h.Keys then slots
    else
      SmallerSubset(done, h.Keys);
      MergeFrom(h, done + {Next(h, done)}, Step(h, slots, Next(h, done)))
  }

  lemma MergeStep(h: History, done: set<VersionId>, slots: Slots<VersionId>)
    requires WellFormed(h) && done < h.Keys
    ensures MergeFrom(h, done, slots) == MergeFrom(h, done + {Next(h, done)}, Step(h, slots, Next(h, done)))
  {
    SmallerSubset(done, h.Keys);
  }

  ghost function FinalSlots(h: History): Slots<VersionId>
    requires WellFormed(h)
  {
    MergeFrom(h, {}, map[])
  }

  // ---- The merged value --------------------------------------------------------

  function ShownText<T>(slots: Slots<T>, key: T -> (Key, Digest), slot: Slot): Option<string> {
    match First(Get(slots, slot), key)
    case Some(Text(t)) => Some(t)
    case _ => None
  }

  function SettingNames<T>(slots: Slots<T>): set<string> {
    set slot | slot in slots && slot.SettingSlot? :: slot.name
  }

  function ShownSettings<T>(slots: Slots<T>, key: T -> (Key, Digest)): map<string, string> {
    map s | s in SettingNames(slots) && ShownText(slots, key, SettingSlot(s)).Some?
      :: ShownText(slots, key, SettingSlot(s)).value
  }

  function ShownPlace<T>(slots: Slots<T>, key: T -> (Key, Digest)): Option<Place> {
    match First(Get(slots, PlaceSlot), key)
    case Some(Placed(p)) => Some(p)
    case _ => None
  }

  function ShownState<T>(slots: Slots<T>, key: T -> (Key, Digest), locks: set<Lock>): ElementState {
    ElementState(
      ShownText(slots, key, KindSlot),
      ShownPlace(slots, key),
      ShownSettings(slots, key),
      First(Get(slots, RemovedSlot), key).Some?,
      locks)
  }

  function Alternatives<T>(entries: seq<Entry<T>>, key: T -> (Key, Digest)): seq<Alternative> {
    var s := Sorted(entries, key);
    seq(|s|, i requires 0 <= i < |s| => Alternative(key(s[i].at).0, key(s[i].at).1, s[i].value))
  }

  function ShownVariants<T>(slots: Slots<T>, key: T -> (Key, Digest)): map<Slot, seq<Alternative>> {
    map slot | slot in slots && |slots[slot]| > 1 :: Alternatives(slots[slot], key)
  }

  /** No other applied version is made over it. */
  predicate IsHead(h: History, id: VersionId) {
    forall n | n in h :: id !in h[n].past
  }

  function Heads(h: History): set<Head> {
    set id | id in h && IsHead(h, id) :: Head(id.writer, id.number, h[id].digest)
  }

  ghost function MergedValue(h: History): ElementValue
    requires WellFormed(h)
  {
    var slots := FinalSlots(h);
    ElementValue(ShownState(slots, KeyIn(h), LocksInForce(h)), ShownVariants(slots, KeyIn(h)), Heads(h))
  }

  // ---- What is shown depends only on the lists in the slots ---------------------------

  lemma SameVariants<T, U>(slots: Slots<T>, key: T -> (Key, Digest), spec: Slots<U>, specKey: U -> (Key, Digest))
    requires forall slot :: |Get(slots, slot)| == |Get(spec, slot)|
    requires forall slot :: Alternatives(Get(slots, slot), key) == Alternatives(Get(spec, slot), specKey)
    ensures ShownVariants(slots, key) == ShownVariants(spec, specKey)
  {
    forall slot ensures slot in ShownVariants(slots, key) <==> slot in ShownVariants(spec, specKey) {
      assert |Get(slots, slot)| == |Get(spec, slot)|;
    }
    forall slot | slot in ShownVariants(slots, key)
      ensures ShownVariants(slots, key)[slot] == ShownVariants(spec, specKey)[slot]
    {
      assert Alternatives(Get(slots, slot), key) == Alternatives(Get(spec, slot), specKey);
    }
  }

  lemma SameState<T, U>(slots: Slots<T>, key: T -> (Key, Digest), spec: Slots<U>, specKey: U -> (Key, Digest))
    requires forall slot :: First(Get(slots, slot), key) == First(Get(spec, slot), specKey)
    ensures ShownState(slots, key, {}) == ShownState(spec, specKey, {})
  {
    SameSettings(slots, key, spec, specKey);
    assert First(Get(slots, KindSlot), key) == First(Get(spec, KindSlot), specKey);
    assert First(Get(slots, PlaceSlot), key) == First(Get(spec, PlaceSlot), specKey);
    assert First(Get(slots, RemovedSlot), key) == First(Get(spec, RemovedSlot), specKey);
  }

  lemma SameSettings<T, U>(slots: Slots<T>, key: T -> (Key, Digest), spec: Slots<U>, specKey: U -> (Key, Digest))
    requires forall slot :: First(Get(slots, slot), key) == First(Get(spec, slot), specKey)
    ensures ShownSettings(slots, key) == ShownSettings(spec, specKey)
  {
    forall slot
      ensures ShownText(slots, key, slot) == ShownText(spec, specKey, slot)
      ensures ShownText(slots, key, slot).Some? ==> slot in slots && slot in spec
    {
      assert First(Get(slots, slot), key) == First(Get(spec, slot), specKey);
    }
    forall s: string ensures s in ShownSettings(slots, key) <==> s in ShownSettings(spec, specKey) {
      assert SettingSlot(s) in slots ==> s in SettingNames(slots);
      assert SettingSlot(s) in spec ==> s in SettingNames(spec);
      assert ShownText(slots, key, SettingSlot(s)) == ShownText(spec, specKey, SettingSlot(s));
    }
  }
}
