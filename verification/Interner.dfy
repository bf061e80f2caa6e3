/**
 One node-type storage and the protocol of `lookup_or_insert`: shared lock, look-up, unlock, unique
 lock, second look-up, insert. A step relation interleaves any number of threads; iterators are the
 pointers they point at, and a look-up may return any entry that compares equal.
 */
module Interner {
  import opened Wrappers

  // The content of a node backend. The number is the literal type, 0 for other nodes.
  datatype View = View(fields: seq<string>, literalType: nat)

  datatype NodeId = NodeId(number: nat, literalType: nat)

  // An address. Pointers compare by address, never by what they point at.
  type Pointer = nat

  // A stored backend caches the hash of its content.
  datatype Backend = Backend(view: View, hash: nat)

  type HashFunction = View -> nat

  datatype Storage = Storage(
    id2data: map<NodeId, Pointer>,
    data2id: map<Pointer, NodeId>,
    heap: map<Pointer, Backend>,
    nextId: nat)

  // ---- threads ----

  type Thread = nat

  datatype Op = FindOrMake(view: View) | FindId(view: View)

  datatype Pc =
    | Idle
    | Start(op: Op)
    | Shared(op: Op)                                        // shared lock held, before the look-up
    | SharedHit(op: Op, found: Pointer)                     // shared lock held
    | SharedMiss(op: Op)                                    // shared lock held
    | WantUnique(view: View)
    | Unique(view: View)                                    // unique lock held, before the second look-up
    | UniqueHit(view: View, found: Pointer)                 // unique lock held
    | UniqueMiss(view: View)                                // unique lock held
    | HasId(view: View, id: NodeId)                         // unique lock held
    | HasBackend(view: View, id: NodeId, mem: Pointer)      // unique lock held, backend constructed
    | Emplaced(view: View, id: NodeId, mem: Pointer)        // unique lock held, entered in data2id only
    | Inserted(view: View, id: NodeId)                      // unique lock held, entered in both maps
    | Unlocked(op: Op, found: Pointer)                      // no lock, about to read the entry

  // Calls and returns as the callers see them, and the point where each call takes effect.
  datatype Event =
    | Call(thread: Thread, op: Op)
    | Effect(thread: Thread, op: Op, result: Option<NodeId>)
    | Return(thread: Thread, op: Op, result: Option<NodeId>)

  datatype State = State(
    storage: Storage,
    readers: set<Thread>,
    writer: Option<Thread>,
    pcs: map<Thread, Pc>,
    history: seq<Event>)

  function PcOf(s: State, t: Thread): Pc {
    if t in s.pcs then s.pcs[t] else Idle
  }

  // An entry that the look-up for `view` accepts: same hash, and content equal to the view.
  predicate Matches(d: Storage, hash: HashFunction, view: View, p: Pointer) {
    p in d.data2id && p in d.heap && d.heap[p].hash == hash(view) && d.heap[p].view == view
  }

  ghost predicate IsFindResult(d: Storage, hash: HashFunction, view: View, result: Option<Pointer>) {
    match result
    case Some(p) => Matches(d, hash, view, p)
    case None => forall p :: !Matches(d, hash, view, p)
  }

  // Map insertion leaves an existing entry alone.
  function Emplace<K, W>(m: map<K, W>, k: K, w: W): map<K, W> {
    if k in m then m else m[k := w]
  }

  // ---- steps ----

  datatype Step =
    | DoCall(op: Op)
    | LockShared
    | Find(result: Option<Pointer>)
    | UnlockShared
    | LockUnique
    | FindAgain(result: Option<Pointer>)
    | TakeId
    | Allocate(mem: Pointer)
    | EmplaceData
    | EmplaceId
    | UnlockUnique
    | ReadEntry

  ghost predicate Enabled(s: State, hash: HashFunction, t: Thread, step: Step) {
    var pc, d := PcOf(s, t), s.storage;
    match step
    case DoCall(_) => pc.Idle?
    case LockShared => pc.Start? && s.writer.None?
    case Find(result) => pc.Shared? && IsFindResult(d, hash, pc.op.view, result)
    case UnlockShared => pc.SharedHit? || pc.SharedMiss?
    case LockUnique => pc.WantUnique? && s.writer.None? && s.readers == {}
    case FindAgain(result) => pc.Unique? && IsFindResult(d, hash, pc.view, result)
    case TakeId => pc.UniqueMiss?
    case Allocate(mem) => pc.HasId? && mem !in d.heap
    case EmplaceData => pc.HasBackend?
    case EmplaceId => pc.Emplaced?
    case UnlockUnique => pc.UniqueHit? || pc.Inserted?
    case ReadEntry => pc.Unlocked? && pc.found in d.data2id
  }

  function MoveTo(s: State, t: Thread, pc: Pc): State {
    s.(pcs := s.pcs[t := pc])
  }

  function Record(s: State, e: Event): State {
    s.(history := s.history + [e])
  }

  ghost function Next(s: State, hash: HashFunction, t: Thread, step: Step): State
    requires Enabled(s, hash, t, step)
  {
    var pc, d := PcOf(s, t), s.storage;
    match step
    case DoCall(op) => Record(MoveTo(s, t, Start(op)), Call(t, op))
    case LockShared => MoveTo(s, t, Shared(pc.op)).(readers := s.readers + {t})
    case Find(Some(p)) => Record(MoveTo(s, t, SharedHit(pc.op, p)), Effect(t, pc.op, Some(d.data2id[p])))
    case Find(None) =>
      var missed := MoveTo(s, t, SharedMiss(pc.op));
      if pc.op.FindId? then Record(missed, Effect(t, pc.op, None)) else missed
    case UnlockShared =>
      var unlocked := s.(readers := s.readers - {t});
      if pc.SharedHit? then MoveTo(unlocked, t, Unlocked(pc.op, pc.found))
      else if pc.op.FindOrMake? then MoveTo(unlocked, t, WantUnique(pc.op.view))
      else Record(MoveTo(unlocked, t, Idle), Return(t, pc.op, None))
    case LockUnique => MoveTo(s, t, Unique(pc.view)).(writer := Some(t))
    case FindAgain(Some(p)) => Record(MoveTo(s, t, UniqueHit(pc.view, p)), Effect(t, FindOrMake(pc.view), Some(d.data2id[p])))
    case FindAgain(None) => MoveTo(s, t, UniqueMiss(pc.view))
    case TakeId => MoveTo(s, t, HasId(pc.view, NodeId(d.nextId, pc.view.literalType))).(storage := d.(nextId := d.nextId + 1))
    case Allocate(mem) =>
      MoveTo(s, t, HasBackend(pc.view, pc.id, mem)).(storage := d.(heap := d.heap[mem := Backend(pc.view, hash(pc.view))]))
    case EmplaceData =>
      Record(MoveTo(s, t, Emplaced(pc.view, pc.id, pc.mem)).(storage := d.(data2id := Emplace(d.data2id, pc.mem, pc.id))),
             Effect(t, FindOrMake(pc.view), Some(pc.id)))
    case EmplaceId =>
      MoveTo(s, t, Inserted(pc.view, pc.id)).(storage := d.(id2data := Emplace(d.id2data, pc.id, pc.mem)))
    case UnlockUnique =>
      var unlocked := s.(writer := None);
      if pc.UniqueHit? then MoveTo(unlocked, t, Unlocked(FindOrMake(pc.view), pc.found))
      else Record(MoveTo(unlocked, t, Idle), Return(t, FindOrMake(pc.view), Some(pc.id)))
    case ReadEntry => Record(MoveTo(s, t, Idle), Return(t, pc.op, Some(d.data2id[pc.found])))
  }

  // ---- executions ----

  datatype Move = Move(thread: Thread, step: Step)

  // One interleaving: the moves of all threads, and the states in between.
  ghost predicate IsExecution(states: seq<State>, hash: HashFunction, moves: seq<Move>) {
    && |states| == |moves| + 1
    && forall i :: 0 <= i < |moves| ==>
      && Enabled(states[i], hash, moves[i].thread, moves[i].step)
      && states[i + 1] == Next(states[i], hash, moves[i].thread, moves[i].step)
  }

  // No call is under way, and nothing has been recorded.
  ghost predicate IsInitial(s: State, hash: HashFunction) {
    && Settled(s.storage, hash)
    && s.readers == {} && s.writer == None && s.pcs == map[] && s.history == []
  }

  // ---- what the storage holds ----

  // The entry for `view`, by content.
  ghost predicate Holds(d: Storage, view: View, id: NodeId) {
    exists p :: p in d.data2id && p in d.heap && d.heap[p].view == view && d.data2id[p] == id
  }

  // True whoever holds the lock: hashes agree with contents, contents and ids are unique, every id
  // is below the counter, and id2data points back.
  ghost predicate StorageSound(d: Storage, hash: HashFunction) {
    && (forall p :: p in d.data2id ==> p in d.heap)
    && (forall p :: p in d.heap ==> d.heap[p].hash == hash(d.heap[p].view))
    && (forall p, q :: p in d.heap && q in d.heap && d.heap[p].view == d.heap[q].view ==> p == q)
    && (forall p, q :: p in d.data2id && q in d.data2id && d.data2id[p].number == d.data2id[q].number ==> p == q)
    && (forall p :: p in d.data2id ==> d.data2id[p].number < d.nextId)
    && (forall id :: id in d.id2data ==> d.id2data[id] in d.data2id && d.data2id[d.id2data[id]] == id)
  }

  // An id carries the literal type of its content.
  ghost predicate TypesAgree(d: Storage) {
    forall p :: p in d.data2id && p in d.heap ==> d.data2id[p].literalType == d.heap[p].view.literalType
  }

  // Also the other direction: with `except` left out, the two maps are mutually inverse.
  ghost predicate MapsInverse(d: Storage, except: set<Pointer>) {
    forall p :: p in d.data2id && p !in except ==> d.data2id[p] in d.id2data && d.id2data[d.data2id[p]] == p
  }

  // No backend is without its entry, except those `pending`.
  ghost predicate Consistent(d: Storage, hash: HashFunction, pending: set<Pointer>) {
    && StorageSound(d, hash)
    && TypesAgree(d)
    && MapsInverse(d, pending)
    && forall p :: p in d.heap ==> p in d.data2id || p in pending
  }

  // Outside the critical section.
  ghost predicate Settled(d: Storage, hash: HashFunction) {
    Consistent(d, hash, {})
  }

  // ---- the invariant of the protocol ----

  predicate HoldsShared(pc: Pc) {
    pc.Shared? || pc.SharedHit? || pc.SharedMiss?
  }

  predicate HoldsUnique(pc: Pc) {
    pc.Unique? || pc.UniqueHit? || pc.UniqueMiss? || pc.HasId? || pc.HasBackend? || pc.Emplaced? || pc.Inserted?
  }

  ghost predicate LocksAgree(s: State) {
    && (s.writer.Some? ==> s.readers == {})
    && (forall t: Thread :: t in s.readers <==> HoldsShared(PcOf(s, t)))
    && (forall t: Thread :: s.writer == Some(t) <==> HoldsUnique(PcOf(s, t)))
  }

  ghost predicate PointsTo(d: Storage, p: Pointer, view: View) {
    p in d.data2id && p in d.heap && d.heap[p].view == view
  }

  ghost predicate Absent(d: Storage, view: View) {
    forall p :: p in d.heap ==> d.heap[p].view != view
  }

  // Drawn from the counter, and not used by any entry.
  ghost predicate FreshId(d: Storage, view: View, id: NodeId) {
    && id.literalType == view.literalType
    && id.number < d.nextId
    && forall p :: p in d.data2id ==> d.data2id[p].number != id.number
  }

  // What a thread may rely on at each point.
  ghost predicate ThreadSound(d: Storage, pc: Pc) {
    match pc
    case SharedHit(op, p) => PointsTo(d, p, op.view)
    case Unlocked(op, p) => PointsTo(d, p, op.view)
    case UniqueHit(view, p) => PointsTo(d, p, view)
    case UniqueMiss(view) => Absent(d, view)
    case HasId(view, id) => Absent(d, view) && FreshId(d, view, id)
    case HasBackend(view, id, mem) => mem !in d.data2id && mem in d.heap && d.heap[mem].view == view && FreshId(d, view, id)
    case Emplaced(view, id, mem) => PointsTo(d, mem, view) && d.data2id[mem] == id && id !in d.id2data
    case Inserted(view, id) => Holds(d, view, id)
    case _ => true
  }

  // The backend the writer is inserting.
  ghost function Pending(s: State): set<Pointer> {
    if s.writer.None? then {}
    else match PcOf(s, s.writer.value)
      case HasBackend(_, _, mem) => {mem}
      case Emplaced(_, _, mem) => {mem}
      case _ => {}
  }

  ghost predicate DataSound(s: State, hash: HashFunction) {
    Consistent(s.storage, hash, Pending(s))
  }

  ghost predicate ThreadsSound(s: State) {
    forall t: Thread :: ThreadSound(s.storage, PcOf(s, t))
  }

  ghost predicate Invariant(s: State, hash: HashFunction) {
    LocksAgree(s) && DataSound(s, hash) && ThreadsSound(s)
  }

  // Entries, contents and ids are only ever added.
  ghost predicate Grows(d: Storage, d': Storage) {
    && d.data2id.Keys <= d'.data2id.Keys && (forall p :: p in d.data2id ==> d'.data2id[p] == d.data2id[p])
    && d.heap.Keys <= d'.heap.Keys && (forall p :: p in d.heap ==> d'.heap[p] == d.heap[p])
    && d.id2data.Keys <= d'.id2data.Keys && (forall id :: id in d.id2data ==> d'.id2data[id] == d.id2data[id])
    && d.nextId <= d'.nextId
  }

  lemma StepGrows(s: State, hash: HashFunction, t: Thread, step: Step)
    requires Invariant(s, hash) && Enabled(s, hash, t, step)
    ensures Grows(s.storage, Next(s, hash, t, step).storage)
    ensures Next(s, hash, t, step).storage != s.storage ==> s.writer == Some(t)
  {
    hide IsFindResult, DataSound, ThreadsSound, Grows;
    StorageGrows(s, hash, t, step);
  }

  lemma StorageGrows(s: State, hash: HashFunction, t: Thread, step: Step)
    requires Enabled(s, hash, t, step)
    ensures Grows(s.storage, Next(s, hash, t, step).storage)
  {
    hide IsFindResult;
  }

  lemma StepKeepsLocks(s: State, hash: HashFunction, t: Thread, step: Step)
    requires LocksAgree(s) && Enabled(s, hash, t, step)
    ensures LocksAgree(Next(s, hash, t, step))
  {
    hide IsFindResult;
    var s' := Next(s, hash, t, step);
    forall u: Thread
      ensures u in s'.readers <==> HoldsShared(PcOf(s', u))
      ensures s'.writer == Some(u) <==> HoldsUnique(PcOf(s', u))
    {
      assert u in s.readers <==> HoldsShared(PcOf(s, u));
      assert s.writer == Some(u) <==> HoldsUnique(PcOf(s, u));
      assert s.writer == Some(t) <==> HoldsUnique(PcOf(s, t));
      if u != t {
        assert PcOf(s', u) == PcOf(s, u);
      }
    }
  }

  lemma {:induction false} StepKeepsOthers(s: State, hash: HashFunction, t: Thread, step: Step, u: Thread)
    requires Invariant(s, hash) && Enabled(s, hash, t, step) && u != t
    ensures ThreadSound(Next(s, hash, t, step).storage, PcOf(Next(s, hash, t, step), u))
  {
    var s' := Next(s, hash, t, step);
    assert PcOf(s', u) == PcOf(s, u);
    assert ThreadSound(s.storage, PcOf(s, u));
    StepGrows(s, hash, t, step);
    if s'.storage != s.storage {
      assert !HoldsUnique(PcOf(s, u));
    }
  }

  lemma StepKeepsThread(s: State, hash: HashFunction, t: Thread, step: Step)
    requires Invariant(s, hash) && Enabled(s, hash, t, step)
    ensures ThreadSound(Next(s, hash, t, step).storage, PcOf(Next(s, hash, t, step), t))
  {
    var s', d := Next(s, hash, t, step), s.storage;
    assert ThreadSound(d, PcOf(s, t));
    match step {
      case FindAgain(None) =>
        var view := PcOf(s, t).view;
        assert s.writer == Some(t) && Pending(s) == {};
        forall p | p in d.heap ensures d.heap[p].view != view {
          assert !Matches(d, hash, view, p);
        }
      case EmplaceId =>
        assert s'.storage.data2id[PcOf(s, t).mem] == PcOf(s, t).id;
      case _ =>
    }
  }

  lemma {:induction false} StepKeepsData(s: State, hash: HashFunction, t: Thread, step: Step)
    requires Invariant(s, hash) && Enabled(s, hash, t, step)
    ensures DataSound(Next(s, hash, t, step), hash)
  {
    var pc := PcOf(s, t);
    assert ThreadSound(s.storage, pc);
    StepKeepsPending(s, hash, t, step);
    match step {
      case Allocate(mem) => AllocateKeepsData(s.storage, hash, pc.view, mem);
      case EmplaceData => EmplaceDataKeepsData(s.storage, hash, pc.view, pc.id, pc.mem);
      case EmplaceId => EmplaceIdKeepsData(s.storage, hash, pc.view, pc.id, pc.mem);
      case _ =>
    }
  }

  lemma StepKeepsPending(s: State, hash: HashFunction, t: Thread, step: Step)
    requires Invariant(s, hash) && Enabled(s, hash, t, step)
    ensures Pending(Next(s, hash, t, step)) ==
      match step
      case Allocate(mem) => {mem}
      case EmplaceData => {PcOf(s, t).mem}
      case EmplaceId => {}
      case _ => Pending(s)
    ensures step.Allocate? || step.TakeId? ==> Pending(s) == {}
    ensures step.EmplaceData? || step.EmplaceId? ==> Pending(s) == {PcOf(s, t).mem}
  {
    hide IsFindResult, DataSound, ThreadsSound;
    var s' := Next(s, hash, t, step);
    if HoldsUnique(PcOf(s, t)) {
      assert s.writer == Some(t);
    } else if s.writer.Some? {
      assert s.writer.value != t;
      assert PcOf(s', s.writer.value) == PcOf(s, s.writer.value);
    }
  }

  lemma AllocateKeepsData(d: Storage, hash: HashFunction, view: View, mem: Pointer)
    requires Consistent(d, hash, {}) && Absent(d, view) && mem !in d.heap
    ensures Consistent(d.(heap := d.heap[mem := Backend(view, hash(view))]), hash, {mem})
  {
  }

  lemma EmplaceDataKeepsData(d: Storage, hash: HashFunction, view: View, id: NodeId, mem: Pointer)
    requires Consistent(d, hash, {mem}) && ThreadSound(d, HasBackend(view, id, mem))
    ensures Consistent(d.(data2id := Emplace(d.data2id, mem, id)), hash, {mem})
  {
    EmplaceDataKeepsSound(d, hash, view, id, mem);
    hide StorageSound;
  }

  lemma EmplaceDataKeepsSound(d: Storage, hash: HashFunction, view: View, id: NodeId, mem: Pointer)
    requires StorageSound(d, hash) && ThreadSound(d, HasBackend(view, id, mem))
    ensures StorageSound(d.(data2id := Emplace(d.data2id, mem, id)), hash)
  {
  }

  lemma EmplaceIdKeepsData(d: Storage, hash: HashFunction, view: View, id: NodeId, mem: Pointer)
    requires Consistent(d, hash, {mem}) && ThreadSound(d, Emplaced(view, id, mem))
    ensures Consistent(d.(id2data := Emplace(d.id2data, id, mem)), hash, {})
  {
  }

  /** Every step of every thread keeps the invariant. */
  lemma StepKeepsInvariant(s: State, hash: HashFunction, t: Thread, step: Step)
    requires Invariant(s, hash) && Enabled(s, hash, t, step)
    ensures Invariant(Next(s, hash, t, step), hash)
  {
    StepKeepsLocks(s, hash, t, step);
    StepKeepsData(s, hash, t, step);
    StepKeepsThread(s, hash, t, step);
    forall u: Thread ensures ThreadSound(Next(s, hash, t, step).storage, PcOf(Next(s, hash, t, step), u)) {
      if u != t {
        StepKeepsOthers(s, hash, t, step, u);
      }
    }
  }

}
