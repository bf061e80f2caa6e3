/**
 The node store as a whole: four independent storages, the IRIs registered at construction, and the
 size that is summed up without ever holding all four locks.
 */
module NodeStore {
  import opened Wrappers
  import opened Interner

  // ---- construction ----

  function IriView(iri: string): View {
    View([iri], 0)
  }

  datatype Reserved = Reserved(iri: string, id: nat)

  ghost predicate DistinctReserved(reserved: seq<Reserved>, minIriId: nat) {
    && (forall i, j :: 0 <= i < j < |reserved| ==> reserved[i].iri != reserved[j].iri && reserved[i].id != reserved[j].id)
    && forall i :: 0 <= i < |reserved| ==> reserved[i].id < minIriId
  }

  function EmptyStorage(minId: nat): Storage {
    Storage(map[], map[], map[], minId)
  }

  // Exactly the reserved IRIs, under their reserved ids.
  ghost predicate HoldsExactly(d: Storage, reserved: seq<Reserved>) {
    forall view, id :: Holds(d, view, id) <==>
      exists k :: 0 <= k < |reserved| && view == IriView(reserved[k].iri) && id == NodeId(reserved[k].id, 0)
  }

  lemma HoldsReserved(d: Storage, reserved: seq<Reserved>)
    requires HoldsExactly(d, reserved)
    ensures forall view, id :: Holds(d, view, id) <==>
      exists k :: 0 <= k < |reserved| && view == View([reserved[k].iri], 0) && id == NodeId(reserved[k].id, 0)
  {
  }

  class NodeStorageBackend {
    var bnodeStorage: Storage
    var iriStorage: Storage
    var literalStorage: Storage
    var variableStorage: Storage

    /** Registers the reserved datatype IRIs; each insertion finds its key unused. */
    constructor (hash: HashFunction, reserved: seq<Reserved>, minBNodeId: nat, minIriId: nat, minLiteralId: nat, minVariableId: nat)
      requires DistinctReserved(reserved, minIriId)
      ensures bnodeStorage == Storage(map[], map[], map[], minBNodeId)
      ensures literalStorage == Storage(map[], map[], map[], minLiteralId)
      ensures variableStorage == Storage(map[], map[], map[], minVariableId)
      ensures Settled(iriStorage, hash)
      ensures forall view, id :: Holds(iriStorage, view, id) <==>
        exists k :: 0 <= k < |reserved| && view == View([reserved[k].iri], 0) && id == NodeId(reserved[k].id, 0)
      ensures iriStorage.nextId == minIriId && |iriStorage.id2data| == |reserved|
    {
      bnodeStorage, literalStorage := EmptyStorage(minBNodeId), EmptyStorage(minLiteralId);
      variableStorage, iriStorage := EmptyStorage(minVariableId), EmptyStorage(minIriId);
      new;
      hide Registered, Settled, HoldsExactly;
      NothingRegistered(hash, minIriId);
      assert reserved[..0] == [];
      for i := 0 to |reserved|
        modifies this`iriStorage
        invariant Registered(iriStorage, hash, reserved[..i], minIriId)
      {
        assert reserved[..i + 1] == reserved[..i] + [reserved[i]];
        // The allocator hands out an address that is not in use.
        iriStorage := RegisterIri(iriStorage, hash, reserved[..i], minIriId, reserved[i], i);
      }
      assert reserved[..|reserved|] == reserved;
      RegisteredHolds(iriStorage, hash, reserved, minIriId);
      HoldsReserved(iriStorage, reserved);
    }
  }

  // After registering `reserved` from an empty storage, the k-th backend at address k.
  ghost predicate Registered(d: Storage, hash: HashFunction, reserved: seq<Reserved>, minIriId: nat) {
    && d.nextId == minIriId && |d.id2data| == |reserved|
    && (forall p: nat :: p in d.heap <==> p < |reserved|)
    && (forall p: nat :: p in d.data2id <==> p < |reserved|)
    && (forall p :: 0 <= p < |reserved| ==>
          d.heap[p] == Backend(IriView(reserved[p].iri), hash(IriView(reserved[p].iri))) && d.data2id[p] == NodeId(reserved[p].id, 0))
    && (forall p :: 0 <= p < |reserved| ==> NodeId(reserved[p].id, 0) in d.id2data && d.id2data[NodeId(reserved[p].id, 0)] == p)
    && (forall id :: id in d.id2data ==> d.id2data[id] < |reserved| && id == NodeId(reserved[d.id2data[id]].id, 0))
  }

  lemma NothingRegistered(hash: HashFunction, minIriId: nat)
    ensures Registered(EmptyStorage(minIriId), hash, [], minIriId)
  {
  }

  function RegisterIri(d: Storage, hash: HashFunction, ghost before: seq<Reserved>, ghost minIriId: nat, r: Reserved,
                       mem: Pointer): (d': Storage)
    requires Registered(d, hash, before, minIriId) && mem == |before|
    requires forall k :: 0 <= k < |before| ==> before[k].id != r.id
    ensures Registered(d', hash, before + [r], minIriId)
  {
    var id, view := NodeId(r.id, 0), IriView(r.iri);
    assert mem !in d.data2id && id !in d.id2data;
    Storage(Emplace(d.id2data, id, mem), Emplace(d.data2id, mem, id), d.heap[mem := Backend(view, hash(view))], d.nextId)
  }

  lemma {:induction false} RegisteredHolds(d: Storage, hash: HashFunction, reserved: seq<Reserved>, minIriId: nat)
    requires Registered(d, hash, reserved, minIriId) && DistinctReserved(reserved, minIriId)
    ensures Settled(d, hash) && HoldsExactly(d, reserved)
    ensures d.nextId == minIriId && |d.id2data| == |reserved|
  {
    hide Settled;
    forall view, id ensures Holds(d, view, id) <==>
      exists k :: 0 <= k < |reserved| && view == IriView(reserved[k].iri) && id == NodeId(reserved[k].id, 0)
    {
      RegisteredEntry(d, hash, reserved, minIriId, view, id);
    }
    RegisteredSound(d, hash, reserved, minIriId);
  }

  lemma RegisteredEntry(d: Storage, hash: HashFunction, reserved: seq<Reserved>, minIriId: nat, view: View, id: NodeId)
    requires Registered(d, hash, reserved, minIriId)
    ensures Holds(d, view, id) <==>
      exists k :: 0 <= k < |reserved| && view == IriView(reserved[k].iri) && id == NodeId(reserved[k].id, 0)
  {
    if k :| 0 <= k < |reserved| && view == IriView(reserved[k].iri) && id == NodeId(reserved[k].id, 0) {
      var p: nat := k;
      assert p in d.data2id && p in d.heap && d.heap[p].view == view && d.data2id[p] == id;
    }
  }

  // Addresses, IRIs and ids of the registered entries determine each other.
  lemma RegisteredUnique(d: Storage, hash: HashFunction, reserved: seq<Reserved>, minIriId: nat, p: nat, q: nat)
    requires Registered(d, hash, reserved, minIriId) && DistinctReserved(reserved, minIriId)
    requires p < |reserved| && q < |reserved|
    ensures d.heap[p].view == d.heap[q].view || d.data2id[p].number == d.data2id[q].number ==> p == q
    ensures d.data2id[p].number < minIriId
  {
    assert d.heap[p].view.fields[0] == reserved[p].iri && d.heap[q].view.fields[0] == reserved[q].iri;
  }

  lemma RegisteredSound(d: Storage, hash: HashFunction, reserved: seq<Reserved>, minIriId: nat)
    requires Registered(d, hash, reserved, minIriId) && DistinctReserved(reserved, minIriId)
    ensures Settled(d, hash)
  {
    forall p, q | p in d.heap && q in d.heap && d.heap[p].view == d.heap[q].view ensures p == q {
      RegisteredUnique(d, hash, reserved, minIriId, p, q);
    }
    forall p, q | p in d.data2id && q in d.data2id && d.data2id[p].number == d.data2id[q].number ensures p == q {
      RegisteredUnique(d, hash, reserved, minIriId, p, q);
    }
    forall p | p in d.data2id ensures d.data2id[p].number < d.nextId {
      RegisteredUnique(d, hash, reserved, minIriId, p, p);
    }
    RegisteredInverse(d, hash, reserved, minIriId);
    RegisteredTypes(d, hash, reserved, minIriId);
  }

  lemma RegisteredTypes(d: Storage, hash: HashFunction, reserved: seq<Reserved>, minIriId: nat)
    requires Registered(d, hash, reserved, minIriId)
    ensures TypesAgree(d)
  {
  }

  lemma RegisteredInverse(d: Storage, hash: HashFunction, reserved: seq<Reserved>, minIriId: nat)
    requires Registered(d, hash, reserved, minIriId)
    ensures MapsInverse(d, {})
    ensures forall id :: id in d.id2data ==> d.id2data[id] in d.data2id && d.data2id[d.id2data[id]] == id
    ensures forall p :: p in d.data2id <==> p in d.heap
    ensures forall p :: p in d.heap ==> d.heap[p].hash == hash(d.heap[p].view)
  {
  }

  // ---- ids drawn later stay above the reserved ones ----

  ghost predicate AboveReserved(d0: Storage, s: State) {
    && d0.nextId <= s.storage.nextId
    && (forall p :: p in s.storage.data2id ==>
          (p in d0.data2id && s.storage.data2id[p] == d0.data2id[p]) || s.storage.data2id[p].number >= d0.nextId)
    && forall t: Thread :: (PcOf(s, t).HasId? || PcOf(s, t).HasBackend?) ==> PcOf(s, t).id.number >= d0.nextId
  }

  lemma StepKeepsAbove(d0: Storage, s: State, hash: HashFunction, t: Thread, step: Step)
    requires AboveReserved(d0, s) && Enabled(s, hash, t, step)
    ensures AboveReserved(d0, Next(s, hash, t, step))
  {
    hide IsFindResult;
    var s' := Next(s, hash, t, step);
    forall u: Thread | PcOf(s', u).HasId? || PcOf(s', u).HasBackend? ensures PcOf(s', u).id.number >= d0.nextId {
      if u != t {
        assert PcOf(s', u) == PcOf(s, u);
      }
    }
  }

  /** No id handed out after construction collides with a pre-registered one. */
  lemma {:induction false} NewIdsAvoidReserved(states: seq<State>, hash: HashFunction, moves: seq<Move>, i: nat)
    requires IsExecution(states, hash, moves) && i < |states| && IsInitial(states[0], hash)
    ensures AboveReserved(states[0].storage, states[i])
  {
    if i > 0 {
      NewIdsAvoidReserved(states, hash, moves, i - 1);
      assert states[i - 1 + 1] == Next(states[i - 1], hash, moves[i - 1].thread, moves[i - 1].step);
      StepKeepsAbove(states[0].storage, states[i - 1], hash, moves[i - 1].thread, moves[i - 1].step);
    }
  }

  // ---- the size of all four storages ----

  datatype System = System(bnodes: State, iris: State, literals: State, variables: State)

  datatype Part = BNodes | Iris | Literals | Variables

  function PartOf(s: System, part: Part): State {
    match part
    case BNodes => s.bnodes
    case Iris => s.iris
    case Literals => s.literals
    case Variables => s.variables
  }

  function SizeOf(s: System, part: Part): nat {
    |PartOf(s, part).storage.id2data|
  }

  function TotalSize(s: System): nat {
    SizeOf(s, BNodes) + SizeOf(s, Iris) + SizeOf(s, Literals) + SizeOf(s, Variables)
  }

  // One thread moves in one storage.
  ghost predicate SystemStep(s: System, s': System, hash: Part -> HashFunction) {
    exists part, t, step ::
      && Enabled(PartOf(s, part), hash(part), t, step)
      && PartOf(s', part) == Next(PartOf(s, part), hash(part), t, step)
      && forall other :: other != part ==> PartOf(s', other) == PartOf(s, other)
  }

  ghost predicate IsSystemExecution(states: seq<System>, hash: Part -> HashFunction) {
    |states| > 0 && forall i :: 0 <= i < |states| - 1 ==> SystemStep(states[i], states[i + 1], hash)
  }

  lemma StepSize(s: State, hash: HashFunction, t: Thread, step: Step)
    requires Enabled(s, hash, t, step)
    ensures |s.storage.id2data| <= |Next(s, hash, t, step).storage.id2data| <= |s.storage.id2data| + 1
  {
    hide IsFindResult;
    if step.EmplaceId? {
      var m, id := s.storage.id2data, PcOf(s, t).id;
      if id !in m {
        assert m[id := PcOf(s, t).mem].Keys == m.Keys + {id};
      }
    }
  }

  lemma SystemStepSize(s: System, s': System, hash: Part -> HashFunction)
    requires SystemStep(s, s', hash)
    ensures forall part :: SizeOf(s, part) <= SizeOf(s', part)
    ensures TotalSize(s') <= TotalSize(s) + 1
  {
    var part, t, step :|
      && Enabled(PartOf(s, part), hash(part), t, step)
      && PartOf(s', part) == Next(PartOf(s, part), hash(part), t, step)
      && forall other :: other != part ==> PartOf(s', other) == PartOf(s, other);
    StepSize(PartOf(s, part), hash(part), t, step);
    forall other ensures SizeOf(s, other) <= SizeOf(s', other) {
    }
    assert forall other :: other != part ==> SizeOf(s, other) == SizeOf(s', other);
  }

  lemma {:induction false} SizesGrow(states: seq<System>, hash: Part -> HashFunction, i: nat, j: nat, part: Part)
    requires IsSystemExecution(states, hash) && i <= j < |states|
    ensures SizeOf(states[i], part) <= SizeOf(states[j], part)
    decreases j - i
  {
    hide SystemStep, SizeOf, TotalSize;
    if i < j {
      SizesGrow(states, hash, i, j - 1, part);
      assert SystemStep(states[j - 1], states[j - 1 + 1], hash);
      SystemStepSize(states[j - 1], states[j], hash);
    }
  }

  // A total that never jumps over a value passes through it.
  lemma {:induction false} TotalReaches(states: seq<System>, hash: Part -> HashFunction, i: nat, j: nat, n: nat) returns (k: nat)
    requires IsSystemExecution(states, hash) && i <= j < |states|
    requires TotalSize(states[i]) <= n <= TotalSize(states[j])
    ensures i <= k <= j && TotalSize(states[k]) == n
    decreases j - i
  {
    hide SystemStep, SizeOf, TotalSize;
    if TotalSize(states[j]) == n {
      k := j;
    } else {
      assert SystemStep(states[j - 1], states[j - 1 + 1], hash);
      SystemStepSize(states[j - 1], states[j], hash);
      k := TotalReaches(states, hash, i, j - 1, n);
    }
  }

  /**
   `size` reads the four sizes one after another, in whatever order, while other threads insert. Its
   result lies between the totals at its start and end, and is the true total at some moment between.
   */
  lemma SizeLinearizes(states: seq<System>, hash: Part -> HashFunction, start: nat, end: nat, readAt: Part -> nat) returns (k: nat)
    requires IsSystemExecution(states, hash) && start <= end < |states|
    requires forall part :: start <= readAt(part) <= end
    ensures start <= k <= end
    ensures
      var result := |states[readAt(BNodes)].bnodes.storage.id2data| + |states[readAt(Iris)].iris.storage.id2data|
                  + |states[readAt(Literals)].literals.storage.id2data| + |states[readAt(Variables)].variables.storage.id2data|;
      var first, last, moment := states[start], states[end], states[k];
      && result == |moment.bnodes.storage.id2data| + |moment.iris.storage.id2data|
                 + |moment.literals.storage.id2data| + |moment.variables.storage.id2data|
      && result >= |first.bnodes.storage.id2data| + |first.iris.storage.id2data|
                 + |first.literals.storage.id2data| + |first.variables.storage.id2data|
      && result <= |last.bnodes.storage.id2data| + |last.iris.storage.id2data|
                 + |last.literals.storage.id2data| + |last.variables.storage.id2data|
  {
    forall part ensures SizeOf(states[start], part) <= SizeOf(states[readAt(part)], part) <= SizeOf(states[end], part) {
      SizesGrow(states, hash, start, readAt(part), part);
      SizesGrow(states, hash, readAt(part), end, part);
    }
    k := TotalReaches(states, hash, start, end,
                      SizeOf(states[readAt(BNodes)], BNodes) + SizeOf(states[readAt(Iris)], Iris)
                      + SizeOf(states[readAt(Literals)], Literals) + SizeOf(states[readAt(Variables)], Variables));
  }

  lemma {:induction false} InjectiveSize<A, B>(m: map<A, B>)
    requires forall a, b :: a in m && b in m && m[a] == m[b] ==> a == b
    ensures |m.Values| == |m|
    decreases |m|
  {
    if m != map[] {
      var a :| a in m;
      var rest := m - {a};
      InjectiveSize(rest);
      assert m.Keys == rest.Keys + {a};
      assert m.Values == rest.Values + {m[a]} by {
        forall v | v in m.Values ensures v in rest.Values + {m[a]} {
          var b :| b in m && m[b] == v;
          assert b == a || (b in rest && rest[b] == v);
        }
      }
      assert m[a] !in rest.Values;
    }
  }

  lemma InverseSize<A, B>(m: map<A, B>, inverse: map<B, A>)
    requires forall a :: a in m ==> m[a] in inverse && inverse[m[a]] == a
    requires forall b :: b in inverse ==> inverse[b] in m && m[inverse[b]] == b
    ensures |m| == |inverse|
  {
    InjectiveSize(m);
    forall b | b in inverse ensures b in m.Values {
      assert m[inverse[b]] == b;
    }
    assert m.Values == inverse.Keys;
  }

  ghost function ViewsHeld(d: Storage): set<View> {
    (map p | p in d.data2id && p in d.heap :: d.heap[p].view).Values
  }

  /**
   Outside the critical section the size of a storage is the number of distinct contents that have
   an entry.
   */
  lemma SizeCountsViews(d: Storage, hash: HashFunction)
    requires Settled(d, hash)
    ensures |d.id2data| == |ViewsHeld(d)|
    ensures forall view :: view in ViewsHeld(d) <==> exists id :: Holds(d, view, id)
  {
    InverseSize(d.id2data, d.data2id);
    ViewsAreDistinct(d, hash);
    forall view ensures view in ViewsHeld(d) <==> exists id :: Holds(d, view, id) {
      HeldViews(d, hash, view);
    }
  }

  lemma ViewsAreDistinct(d: Storage, hash: HashFunction)
    requires StorageSound(d, hash)
    ensures |ViewsHeld(d)| == |d.data2id|
  {
    var views := map p | p in d.data2id && p in d.heap :: d.heap[p].view;
    assert forall p, q :: p in views && q in views && views[p] == views[q] ==> p == q;
    assert views.Keys == d.data2id.Keys;
    hide StorageSound;
    InjectiveSize(views);
  }

  lemma HeldViews(d: Storage, hash: HashFunction, view: View)
    requires StorageSound(d, hash)
    ensures view in ViewsHeld(d) <==> exists id :: Holds(d, view, id)
  {
    var views := map p | p in d.data2id && p in d.heap :: d.heap[p].view;
    if view in ViewsHeld(d) {
      var p :| p in views && views[p] == view;
      assert Holds(d, view, d.data2id[p]);
    }
    if id :| Holds(d, view, id) {
      var p :| p in d.data2id && p in d.heap && d.heap[p].view == view && d.data2id[p] == id;
      assert p in views && views[p] == view;
    }
  }

  // ---- ids are drawn one by one ----

  // Whether the writer has drawn an id that id2data does not hold yet.
  ghost function Drawn(s: State): nat {
    if s.writer.None? then 0
    else match PcOf(s, s.writer.value)
      case HasId(_, _) => 1
      case HasBackend(_, _, _) => 1
      case Emplaced(_, _, _) => 1
      case _ => 0
  }

  lemma StepDraws(s: State, hash: HashFunction, t: Thread, step: Step)
    requires Invariant(s, hash) && Enabled(s, hash, t, step)
    ensures
      var s' := Next(s, hash, t, step);
      s'.storage.nextId + |s.storage.id2data| + Drawn(s) == s.storage.nextId + |s'.storage.id2data| + Drawn(s')
  {
    hide IsFindResult, DataSound;
    var s' := Next(s, hash, t, step);
    assert s.writer == Some(t) <==> HoldsUnique(PcOf(s, t));
    assert ThreadSound(s.storage, PcOf(s, t));
    if s.writer.Some? && s.writer.value != t {
      assert PcOf(s', s.writer.value) == PcOf(s, s.writer.value);
    }
    if step.EmplaceId? {
      assert s'.storage.id2data.Keys == s.storage.id2data.Keys + {PcOf(s, t).id};
    }
  }

  lemma NothingDrawn(s: State)
    ensures s.writer.None? ==> Drawn(s) == 0
  {
  }

  lemma NothingDrawnAtFirst(s: State, hash: HashFunction)
    requires IsInitial(s, hash)
    ensures Invariant(s, hash) && Drawn(s) == 0
  {
  }

  /**
   The counter advances by one for every entry that is added: while no thread is inserting, the ids
   handed out are exactly those below the counter and from its initial value on.
   */
  lemma {:induction false} IdsAreConsecutive(states: seq<State>, hash: HashFunction, moves: seq<Move>, i: nat)
    requires IsExecution(states, hash, moves) && i < |states| && IsInitial(states[0], hash)
    ensures Invariant(states[i], hash)
    ensures states[i].storage.nextId - states[0].storage.nextId
      == |states[i].storage.id2data| - |states[0].storage.id2data| + Drawn(states[i])
    ensures states[i].writer.None? ==>
      states[i].storage.nextId - states[0].storage.nextId == |states[i].storage.id2data| - |states[0].storage.id2data|
  {
    hide Next, Enabled, Invariant, Drawn, IsInitial;
    NothingDrawn(states[i]);
    if i == 0 {
      NothingDrawnAtFirst(states[0], hash);
    } else {
      IdsAreConsecutive(states, hash, moves, i - 1);
      assert states[i - 1 + 1] == Next(states[i - 1], hash, moves[i - 1].thread, moves[i - 1].step);
      StepDraws(states[i - 1], hash, moves[i - 1].thread, moves[i - 1].step);
      StepKeepsInvariant(states[i - 1], hash, moves[i - 1].thread, moves[i - 1].step);
    }
  }

}
