/**
 Every interleaving of the interner is linearizable: the recorded effects form a legal sequential
 history, each between the call and the return of its thread, and the return gives that result.
 */
module Linearizability {
  import opened Wrappers
  import opened Interner

  // ---- the sequential interner ----

  type Table = map<View, NodeId>

  // One sequential operation: its result must be right, and gives the next table.
  ghost function Apply(table: Table, op: Op, result: Option<NodeId>): Option<Table> {
    if op.view in table then (if result == Some(table[op.view]) then Some(table) else None)
    else match op
      case FindId(_) => if result.None? then Some(table) else None
      case FindOrMake(view) =>
        if result.Some? && result.value !in table.Values then Some(table[view := result.value]) else None
  }

  // The table after the effects of a history, if each was right.
  ghost function Replay(table: Table, history: seq<Event>): Option<Table> {
    if history == [] then Some(table)
    else
      var before, e := Replay(table, history[..|history| - 1]), history[|history| - 1];
      if before.Some? && e.Effect? then Apply(before.value, e.op, e.result) else before
  }

  // ---- the part of a history one thread sees ----

  datatype Phase = Outside | Called(op: Op) | Done(op: Op, result: Option<NodeId>) | Broken

  // Call, effect and return alternate, with the same operation and result.
  ghost function PhaseOf(history: seq<Event>, t: Thread): Phase {
    if history == [] then Outside
    else PhaseAfter(PhaseOf(history[..|history| - 1], t), history[|history| - 1], t)
  }

  ghost function PhaseAfter(phase: Phase, e: Event, t: Thread): Phase {
    if e.thread != t then phase
    else match e
      case Call(_, op) => if phase == Outside then Called(op) else Broken
      case Effect(_, op, result) => if phase == Called(op) then Done(op, result) else Broken
      case Return(_, op, result) => if phase == Done(op, result) then Outside else Broken
  }

  ghost predicate WellFormed(history: seq<Event>) {
    forall t :: PhaseOf(history, t) != Broken
  }

  // ---- the simulation ----

  // The phase that a thread at `pc` must be in. An iterator still gives the id it was found with.
  ghost function ExpectedPhase(d: Storage, pc: Pc): Phase {
    match pc
    case Idle => Outside
    case Start(op) => Called(op)
    case Shared(op) => Called(op)
    case SharedHit(op, p) => if p in d.data2id then Done(op, Some(d.data2id[p])) else Broken
    case SharedMiss(op) => if op.FindId? then Done(op, None) else Called(op)
    case WantUnique(view) => Called(FindOrMake(view))
    case Unique(view) => Called(FindOrMake(view))
    case UniqueHit(view, p) => if p in d.data2id then Done(FindOrMake(view), Some(d.data2id[p])) else Broken
    case UniqueMiss(view) => Called(FindOrMake(view))
    case HasId(view, _) => Called(FindOrMake(view))
    case HasBackend(view, _, _) => Called(FindOrMake(view))
    case Emplaced(view, id, _) => Done(FindOrMake(view), Some(id))
    case Inserted(view, id) => Done(FindOrMake(view), Some(id))
    case Unlocked(op, p) => if p in d.data2id then Done(op, Some(d.data2id[p])) else Broken
  }

  ghost predicate PhasesAgree(s: State) {
    forall t: Thread :: PhaseOf(s.history, t) == ExpectedPhase(s.storage, PcOf(s, t))
  }

  // The table maps each view to the id of its entry.
  ghost predicate Represents(table: Table, d: Storage) {
    forall view, id :: (view in table && table[view] == id) <==> Holds(d, view, id)
  }

  ghost predicate TableAgrees(s: State, initial: Table) {
    Replay(initial, s.history).Some? && Represents(Replay(initial, s.history).value, s.storage)
  }

  lemma PhaseOfRecorded(history: seq<Event>, e: Event, t: Thread)
    ensures PhaseOf(history + [e], t) == PhaseAfter(PhaseOf(history, t), e, t)
  {
    assert (history + [e])[..|history + [e]| - 1] == history;
  }

  lemma ReplayRecorded(table: Table, history: seq<Event>, e: Event)
    ensures Replay(table, history + [e]) ==
      if Replay(table, history).Some? && e.Effect? then Apply(Replay(table, history).value, e.op, e.result) else Replay(table, history)
  {
    assert (history + [e])[..|history + [e]| - 1] == history;
  }

  // The event a step records, if any.
  ghost function Recorded(s: State, t: Thread, step: Step): seq<Event>
  {
    var pc, d := PcOf(s, t), s.storage;
    match step
    case DoCall(op) => [Call(t, op)]
    case Find(Some(p)) => if pc.Shared? && p in d.data2id then [Effect(t, pc.op, Some(d.data2id[p]))] else []
    case Find(None) => if pc.Shared? && pc.op.FindId? then [Effect(t, pc.op, None)] else []
    case UnlockShared => if pc.SharedMiss? && pc.op.FindId? then [Return(t, pc.op, None)] else []
    case FindAgain(Some(p)) => if pc.Unique? && p in d.data2id then [Effect(t, FindOrMake(pc.view), Some(d.data2id[p]))] else []
    case EmplaceData => if pc.HasBackend? then [Effect(t, FindOrMake(pc.view), Some(pc.id))] else []
    case UnlockUnique => if pc.Inserted? then [Return(t, FindOrMake(pc.view), Some(pc.id))] else []
    case ReadEntry => if pc.Unlocked? && pc.found in d.data2id then [Return(t, pc.op, Some(d.data2id[pc.found]))] else []
    case _ => []
  }

  lemma StepRecords(s: State, hash: HashFunction, t: Thread, step: Step)
    requires Enabled(s, hash, t, step)
    ensures Next(s, hash, t, step).history == s.history + Recorded(s, t, step)
    ensures |Recorded(s, t, step)| <= 1 && forall e :: e in Recorded(s, t, step) ==> e.thread == t
  {
    hide IsFindResult;
    assert s.history + [] == s.history;
    match step {
      case Find(Some(p)) => FindResultStored(s.storage, hash, PcOf(s, t).op.view, p);
      case FindAgain(Some(p)) => FindResultStored(s.storage, hash, PcOf(s, t).view, p);
      case _ =>
    }
  }

  lemma FindResultStored(d: Storage, hash: HashFunction, view: View, p: Pointer)
    requires IsFindResult(d, hash, view, Some(p))
    ensures PointsTo(d, p, view)
  {
  }

  lemma StepKeepsPhases(s: State, hash: HashFunction, t: Thread, step: Step)
    requires Invariant(s, hash) && PhasesAgree(s) && Enabled(s, hash, t, step)
    ensures PhasesAgree(Next(s, hash, t, step))
  {
    var s' := Next(s, hash, t, step);
    forall u: Thread ensures PhaseOf(s'.history, u) == ExpectedPhase(s'.storage, PcOf(s', u)) {
      if u == t {
        OwnPhase(s, hash, t, step);
      } else {
        OtherPhase(s, hash, t, step, u);
      }
    }
  }

  lemma OtherPhase(s: State, hash: HashFunction, t: Thread, step: Step, u: Thread)
    requires Invariant(s, hash) && PhasesAgree(s) && Enabled(s, hash, t, step) && u != t
    ensures PhaseOf(Next(s, hash, t, step).history, u) == ExpectedPhase(Next(s, hash, t, step).storage, PcOf(Next(s, hash, t, step), u))
  {
    OtherStays(s, hash, t, step, u);
    StepGrows(s, hash, t, step);
    assert ThreadSound(s.storage, PcOf(s, u));
    hide Next, Enabled, Invariant, PhaseOf;
    ExpectedPhaseStays(s.storage, Next(s, hash, t, step).storage, PcOf(s, u));
  }

  lemma OtherStays(s: State, hash: HashFunction, t: Thread, step: Step, u: Thread)
    requires Enabled(s, hash, t, step) && u != t
    ensures PcOf(Next(s, hash, t, step), u) == PcOf(s, u)
    ensures PhaseOf(Next(s, hash, t, step).history, u) == PhaseOf(s.history, u)
  {
    hide IsFindResult, PhaseOf;
    var s', es := Next(s, hash, t, step), Recorded(s, t, step);
    StepRecords(s, hash, t, step);
    hide Recorded;
    if es == [] {
      assert s'.history == s.history;
    } else {
      assert es == [es[0]] && es[0] in es;
      PhaseOfRecorded(s.history, es[0], u);
    }
  }

  lemma ExpectedPhaseStays(d: Storage, d': Storage, pc: Pc)
    requires Grows(d, d') && ThreadSound(d, pc)
    ensures ExpectedPhase(d', pc) == ExpectedPhase(d, pc)
  {
  }

  lemma OwnPhase(s: State, hash: HashFunction, t: Thread, step: Step)
    requires Invariant(s, hash) && PhasesAgree(s) && Enabled(s, hash, t, step)
    ensures PhaseOf(Next(s, hash, t, step).history, t) == ExpectedPhase(Next(s, hash, t, step).storage, PcOf(Next(s, hash, t, step), t))
  {
    var s', es := Next(s, hash, t, step), Recorded(s, t, step);
    StepRecords(s, hash, t, step);
    assert ThreadSound(s.storage, PcOf(s, t));
    assert PhaseOf(s.history, t) == ExpectedPhase(s.storage, PcOf(s, t));
    OwnTransition(s, hash, t, step);
    if es == [] {
      assert s'.history == s.history;
    } else {
      assert es == [es[0]];
      PhaseOfRecorded(s.history, es[0], t);
    }
  }

  // The program counter moves as the recorded event says.
  lemma OwnTransition(s: State, hash: HashFunction, t: Thread, step: Step)
    requires Enabled(s, hash, t, step) && ThreadSound(s.storage, PcOf(s, t)) && |Recorded(s, t, step)| <= 1
    ensures
      var es, phase := Recorded(s, t, step), ExpectedPhase(s.storage, PcOf(s, t));
      ExpectedPhase(Next(s, hash, t, step).storage, PcOf(Next(s, hash, t, step), t))
        == if es == [] then phase else PhaseAfter(phase, es[0], t)
  {
    hide IsFindResult, Absent, FreshId, Holds;
    match step {
      case Find(Some(p)) => FindResultStored(s.storage, hash, PcOf(s, t).op.view, p);
      case FindAgain(Some(p)) => FindResultStored(s.storage, hash, PcOf(s, t).view, p);
      case _ =>
    }
  }

  // ---- effects are legal ----

  // A look-up under either lock is right about the whole table, because nothing is half inserted.
  lemma FoundEntry(d: Storage, table: Table, view: View, p: Pointer)
    requires Represents(table, d) && PointsTo(d, p, view)
    ensures view in table && table[view] == d.data2id[p]
  {
    assert Holds(d, view, d.data2id[p]);
  }

  lemma AbsentEntry(d: Storage, table: Table, view: View)
    requires Represents(table, d) && forall p :: !PointsTo(d, p, view)
    ensures view !in table
  {
    if view in table {
      assert Holds(d, view, table[view]);
      var p :| p in d.data2id && p in d.heap && d.heap[p].view == view && d.data2id[p] == table[view];
      assert PointsTo(d, p, view);
    }
  }

  // Nothing changes in the table when no entry changes.
  lemma SameEntries(d: Storage, d': Storage, table: Table, hash: HashFunction)
    requires Represents(table, d) && Grows(d, d') && d.data2id == d'.data2id && StorageSound(d, hash)
    ensures Represents(table, d')
  {
    forall view, id ensures Holds(d', view, id) <==> Holds(d, view, id) {
    }
  }

  lemma InsertEntry(d: Storage, hash: HashFunction, table: Table, view: View, id: NodeId, mem: Pointer)
    requires Represents(table, d) && StorageSound(d, hash) && ThreadSound(d, HasBackend(view, id, mem))
    ensures view !in table && id !in table.Values
    ensures Represents(table[view := id], d.(data2id := Emplace(d.data2id, mem, id)))
  {
    var d' := d.(data2id := Emplace(d.data2id, mem, id));
    forall p ensures !PointsTo(d, p, view) {
    }
    AbsentEntry(d, table, view);
    forall v | v in table ensures table[v] != id {
      assert Holds(d, v, table[v]);
    }
    forall v, i ensures (v in table[view := id] && table[view := id][v] == i) <==> Holds(d', v, i) {
      assert (v in table && table[v] == i) <==> Holds(d, v, i);
      if Holds(d, v, i) {
        var p :| p in d.data2id && p in d.heap && d.heap[p].view == v && d.data2id[p] == i;
        assert p in d'.data2id && d'.data2id[p] == i;
      }
      if v == view && i == id {
        assert mem in d'.data2id && d'.data2id[mem] == id;
      }
    }
  }

  lemma FindIsRight(s: State, hash: HashFunction, table: Table, view: View, result: Option<Pointer>)
    requires Invariant(s, hash) && Represents(table, s.storage) && IsFindResult(s.storage, hash, view, result)
    ensures result.Some? ==> view in table && table[view] == s.storage.data2id[result.value]
    ensures result.None? ==> view !in table
  {
    if result.Some? {
      FoundEntry(s.storage, table, view, result.value);
    } else {
      forall p ensures !PointsTo(s.storage, p, view) {
        assert !Matches(s.storage, hash, view, p);
      }
      AbsentEntry(s.storage, table, view);
    }
  }

  lemma StepKeepsTable(s: State, hash: HashFunction, t: Thread, step: Step, initial: Table)
    requires Invariant(s, hash) && TableAgrees(s, initial) && Enabled(s, hash, t, step)
    ensures TableAgrees(Next(s, hash, t, step), initial)
  {
    var s', es := Next(s, hash, t, step), Recorded(s, t, step);
    var table := Replay(initial, s.history).value;
    StepRecords(s, hash, t, step);
    if es == [] {
      assert s'.history == s.history;
    } else {
      assert es == [es[0]];
      ReplayRecorded(initial, s.history, es[0]);
    }
    if step.EmplaceData? {
      var pc := PcOf(s, t);
      assert ThreadSound(s.storage, pc);
      InsertEntry(s.storage, hash, table, pc.view, pc.id, pc.mem);
    } else {
      EffectIsRight(s, hash, t, step, table);
      StepGrows(s, hash, t, step);
      OnlyEmplaceAddsEntries(s, hash, t, step);
      SameEntries(s.storage, s'.storage, table, hash);
    }
  }

  lemma OnlyEmplaceAddsEntries(s: State, hash: HashFunction, t: Thread, step: Step)
    requires Enabled(s, hash, t, step) && !step.EmplaceData?
    ensures Next(s, hash, t, step).storage.data2id == s.storage.data2id
  {
  }

  lemma EffectIsRight(s: State, hash: HashFunction, t: Thread, step: Step, table: Table)
    requires Invariant(s, hash) && Represents(table, s.storage) && Enabled(s, hash, t, step) && !step.EmplaceData?
    ensures
      var es := Recorded(s, t, step);
      es != [] && es[0].Effect? ==> Apply(table, es[0].op, es[0].result) == Some(table)
  {
    match step {
      case Find(result) => FindIsRight(s, hash, table, PcOf(s, t).op.view, result);
      case FindAgain(result) => FindIsRight(s, hash, table, PcOf(s, t).view, result);
      case _ =>
    }
  }

  // ---- all executions ----

  // The table of the entries that are there from the start.
  ghost predicate IsInitialTable(table: Table, d: Storage) {
    Represents(table, d)
  }

  lemma {:induction false} ExecutionKeepsAll(states: seq<State>, hash: HashFunction, moves: seq<Move>, initial: Table, i: nat)
    requires IsExecution(states, hash, moves) && i < |states|
    requires IsInitial(states[0], hash) && IsInitialTable(initial, states[0].storage)
    ensures Invariant(states[i], hash) && PhasesAgree(states[i]) && TableAgrees(states[i], initial)
  {
    if i > 0 {
      ExecutionKeepsAll(states, hash, moves, initial, i - 1);
      var s, t, step := states[i - 1], moves[i - 1].thread, moves[i - 1].step;
      assert states[i - 1 + 1] == Next(s, hash, t, step);
      StepKeepsInvariant(s, hash, t, step);
      StepKeepsPhases(s, hash, t, step);
      StepKeepsTable(s, hash, t, step, initial);
    }
  }

  lemma NoneBroken(s: State, hash: HashFunction)
    requires Invariant(s, hash) && PhasesAgree(s)
    ensures WellFormed(s.history)
  {
    forall t: Thread ensures PhaseOf(s.history, t) != Broken {
      assert ThreadSound(s.storage, PcOf(s, t));
    }
  }

  /**
   Linearizability, for any number of threads and any interleaving: at every moment the effects so
   far are those of a sequential interner, and each thread's calls, effects and returns match.
   */
  lemma EveryExecutionLinearizes(states: seq<State>, hash: HashFunction, moves: seq<Move>, initial: Table, i: nat)
    requires IsExecution(states, hash, moves) && i < |states|
    requires IsInitial(states[0], hash) && IsInitialTable(initial, states[0].storage)
    ensures Replay(initial, states[i].history).Some? && WellFormed(states[i].history)
  {
    ExecutionKeepsAll(states, hash, moves, initial, i);
    NoneBroken(states[i], hash);
  }

  // ---- what callers may conclude ----

  ghost predicate Injective(table: Table) {
    forall u, v :: u in table && v in table && table[u] == table[v] ==> u == v
  }

  lemma {:induction false} ReplayKeepsEntries(table: Table, history: seq<Event>, view: View)
    requires Replay(table, history).Some? && Injective(table)
    ensures Injective(Replay(table, history).value)
    ensures view in table ==> view in Replay(table, history).value && Replay(table, history).value[view] == table[view]
  {
    if history != [] {
      ReplayKeepsEntries(table, history[..|history| - 1], view);
    }
  }

  // Once a find-or-make has taken effect, its view has the id it will return, for good.
  lemma {:induction false} EffectsStay(table: Table, history: seq<Event>, t: Thread)
    requires Replay(table, history).Some? && WellFormed(history)
    ensures
      var phase := PhaseOf(history, t);
      phase.Done? && phase.op.FindOrMake? ==>
        phase.op.view in Replay(table, history).value && phase.result == Some(Replay(table, history).value[phase.op.view])
  {
    if history != [] {
      WellFormedPrefix(history);
      EffectsStay(table, history[..|history| - 1], t);
    }
  }

  lemma WellFormedPrefix(history: seq<Event>)
    requires history != [] && WellFormed(history)
    ensures WellFormed(history[..|history| - 1])
  {
    var init := history[..|history| - 1];
    forall t ensures PhaseOf(init, t) != Broken {
      assert PhaseOf(history, t) != Broken;
    }
  }

  lemma {:induction false} ReturnsStay(table: Table, history: seq<Event>, i: nat)
    requires Replay(table, history).Some? && WellFormed(history)
    requires i < |history| && history[i].Return? && history[i].op.FindOrMake?
    ensures history[i].op.view in Replay(table, history).value
    ensures history[i].result == Some(Replay(table, history).value[history[i].op.view])
  {
    var before, e := history[..|history| - 1], history[|history| - 1];
    WellFormedPrefix(history);
    if i < |before| {
      ReturnsStay(table, before, i);
    } else {
      EffectsStay(table, before, e.thread);
      assert PhaseOf(history, e.thread) != Broken;
    }
  }

  lemma InitialTableInjective(table: Table, d: Storage, hash: HashFunction)
    requires Represents(table, d) && StorageSound(d, hash)
    ensures Injective(table)
  {
    forall u, v | u in table && v in table && table[u] == table[v] ensures u == v {
      assert Holds(d, u, table[u]) && Holds(d, v, table[v]);
    }
  }

  /** Two find-or-make calls, of any threads at any time, return the same id exactly for equal views. */
  lemma SameIdExactlyForEqualViews(states: seq<State>, hash: HashFunction, moves: seq<Move>, initial: Table, n: nat, i: nat, j: nat)
    requires IsExecution(states, hash, moves) && n < |states|
    requires IsInitial(states[0], hash) && IsInitialTable(initial, states[0].storage)
    requires i < |states[n].history| && states[n].history[i].Return? && states[n].history[i].op.FindOrMake?
    requires j < |states[n].history| && states[n].history[j].Return? && states[n].history[j].op.FindOrMake?
    ensures states[n].history[i].result.Some?
    ensures states[n].history[i].op.view == states[n].history[j].op.view
       <==> states[n].history[i].result == states[n].history[j].result
  {
    var history := states[n].history;
    EveryExecutionLinearizes(states, hash, moves, initial, n);
    InitialTableInjective(initial, states[0].storage, hash);
    ReplayKeepsEntries(initial, history, history[i].op.view);
    ReturnsStay(initial, history, i);
    ReturnsStay(initial, history, j);
  }

  /** What was stored at the start, such as the reserved IRIs, is found under its id by every later call. */
  lemma InitialViewsKeepTheirIds(states: seq<State>, hash: HashFunction, moves: seq<Move>, initial: Table, n: nat, i: nat)
    requires IsExecution(states, hash, moves) && n < |states|
    requires IsInitial(states[0], hash) && IsInitialTable(initial, states[0].storage)
    requires i < |states[n].history| && states[n].history[i].Return? && states[n].history[i].op.FindOrMake?
    requires states[n].history[i].op.view in initial
    ensures states[n].history[i].result == Some(initial[states[n].history[i].op.view])
  {
    EveryExecutionLinearizes(states, hash, moves, initial, n);
    InitialTableInjective(initial, states[0].storage, hash);
    ReplayKeepsEntries(initial, states[n].history, states[n].history[i].op.view);
    ReturnsStay(initial, states[n].history, i);
  }

  /**
   In every reachable state there is at most one backend per view, and a backend about to be entered
   in the maps is never there already: both insertions succeed.
   */
  lemma InsertionsSucceed(states: seq<State>, hash: HashFunction, moves: seq<Move>, initial: Table, i: nat, t: Thread)
    requires IsExecution(states, hash, moves) && i < |states|
    requires IsInitial(states[0], hash) && IsInitialTable(initial, states[0].storage)
    ensures
      var d, pc := states[i].storage, PcOf(states[i], t);
      && (forall p, q :: p in d.heap && q in d.heap && d.heap[p].view == d.heap[q].view ==> p == q)
      && (pc.HasBackend? ==> pc.mem !in d.data2id)
      && (pc.Emplaced? ==> pc.id !in d.id2data)
  {
    ExecutionKeepsAll(states, hash, moves, initial, i);
    assert ThreadSound(states[i].storage, PcOf(states[i], t));
  }

  // What find_backend_view reads under the shared lock.
  ghost function ViewOfId(d: Storage, id: NodeId): Option<View> {
    if id in d.id2data && d.id2data[id] in d.heap then Some(d.heap[d.id2data[id]].view) else None
  }

  /** Round trip: while no thread is inserting, an id is found for a view exactly if the view is found for the id. */
  lemma IdAndViewRoundTrip(states: seq<State>, hash: HashFunction, moves: seq<Move>, initial: Table, i: nat, view: View, id: NodeId)
    requires IsExecution(states, hash, moves) && i < |states|
    requires IsInitial(states[0], hash) && IsInitialTable(initial, states[0].storage)
    requires states[i].writer.None?
    ensures Settled(states[i].storage, hash)
    ensures Holds(states[i].storage, view, id) <==> ViewOfId(states[i].storage, id) == Some(view)
  {
    ExecutionKeepsAll(states, hash, moves, initial, i);
    var d := states[i].storage;
    if Holds(d, view, id) {
      var p :| p in d.data2id && p in d.heap && d.heap[p].view == view && d.data2id[p] == id;
      assert d.id2data[id] == p;
    }
  }

  // Nothing that was recorded is taken back.
  lemma {:induction false} HistoryGrows(states: seq<State>, hash: HashFunction, moves: seq<Move>, n: nat, m: nat)
    requires IsExecution(states, hash, moves) && n <= m < |states|
    ensures states[n].history <= states[m].history
  {
    if n < m {
      hide Recorded, IsFindResult;
      HistoryGrows(states, hash, moves, n, m - 1);
      assert states[m - 1 + 1] == Next(states[m - 1], hash, moves[m - 1].thread, moves[m - 1].step);
      StepRecords(states[m - 1], hash, moves[m - 1].thread, moves[m - 1].step);
    }
  }

  /**
   Once a find-or-make has returned an id, looking that id up gives its view in every later state in
   which the shared lock can be held: the look-up never fails for an id that was issued.
   */
  lemma ReturnedIdsAreFound(states: seq<State>, hash: HashFunction, moves: seq<Move>, initial: Table, n: nat, i: nat, m: nat)
    requires IsExecution(states, hash, moves) && n <= m < |states|
    requires IsInitial(states[0], hash) && IsInitialTable(initial, states[0].storage)
    requires i < |states[n].history| && states[n].history[i].Return? && states[n].history[i].op.FindOrMake?
    requires states[m].writer.None?
    ensures states[n].history[i].result.Some?
    ensures ViewOfId(states[m].storage, states[n].history[i].result.value) == Some(states[n].history[i].op.view)
  {
    var e := states[n].history[i];
    HistoryGrows(states, hash, moves, n, m);
    assert states[m].history[i] == e;
    EveryExecutionLinearizes(states, hash, moves, initial, m);
    ReturnsStay(initial, states[m].history, i);
    ExecutionKeepsAll(states, hash, moves, initial, m);
    IdAndViewRoundTrip(states, hash, moves, initial, m, e.op.view, e.result.value);
  }

  /** Every id that a call returns carries the literal type of the view it was called with. */
  lemma ReturnedIdsCarryLiteralType(states: seq<State>, hash: HashFunction, moves: seq<Move>, initial: Table, n: nat, i: nat)
    requires IsExecution(states, hash, moves) && n < |states|
    requires IsInitial(states[0], hash) && IsInitialTable(initial, states[0].storage)
    requires i < |states[n].history| && states[n].history[i].Return? && states[n].history[i].op.FindOrMake?
    ensures states[n].history[i].result.Some?
    ensures states[n].history[i].result.value.literalType == states[n].history[i].op.view.literalType
  {
    var e := states[n].history[i];
    EveryExecutionLinearizes(states, hash, moves, initial, n);
    ReturnsStay(initial, states[n].history, i);
    ExecutionKeepsAll(states, hash, moves, initial, n);
    assert Holds(states[n].storage, e.op.view, e.result.value);
  }

  // ---- look-ups without insertion ----

  // The entry for `view` does not change between two moments of a history.
  lemma EntryStays(table: Table, history: seq<Event>, n: nat, view: View)
    requires Replay(table, history).Some? && n <= |history|
    requires Replay(table, history[..n]).Some? && view in Replay(table, history[..n]).value
    ensures view in Replay(table, history).value
    ensures Replay(table, history).value[view] == Replay(table, history[..n]).value[view]
    decreases |history|
  {
    if n < |history| {
      var init := history[..|history| - 1];
      assert init[..n] == history[..n];
      EntryStays(table, init, n, view);
    } else {
      assert history[..n] == history;
    }
  }

  lemma {:induction false} ReplayOfPrefix(table: Table, history: seq<Event>, n: nat)
    requires Replay(table, history).Some? && n <= |history|
    ensures Replay(table, history[..n]).Some?
  {
    if n < |history| {
      var init := history[..|history| - 1];
      assert init[..n] == history[..n];
      ReplayOfPrefix(table, init, n);
    } else {
      assert history[..n] == history;
    }
  }

  lemma {:induction false} WellFormedBefore(history: seq<Event>, n: nat)
    requires WellFormed(history) && n <= |history|
    ensures WellFormed(history[..n])
  {
    if n < |history| {
      WellFormedPrefix(history);
      var init := history[..|history| - 1];
      assert init[..n] == history[..n];
      WellFormedBefore(init, n);
    } else {
      assert history[..n] == history;
    }
  }

  // A find that takes effect after its view was stored finds it.
  lemma {:induction false} FindSeesStored(table: Table, history: seq<Event>, c: nat, t: Thread, view: View)
    requires Replay(table, history).Some? && WellFormed(history) && c < |history|
    requires history[c] == Call(t, FindId(view))
    requires forall k :: c < k < |history| ==> history[k].thread == t ==> history[k].Effect?
    requires Replay(table, history[..c]).Some? && view in Replay(table, history[..c]).value
    ensures
      var phase := PhaseOf(history, t);
      || phase == Called(FindId(view))
      || phase == Done(FindId(view), Some(Replay(table, history[..c]).value[view]))
    decreases |history|
  {
    var init, e := history[..|history| - 1], history[|history| - 1];
    WellFormedPrefix(history);
    assert PhaseOf(history, t) != Broken;
    if c < |init| {
      assert init[..c] == history[..c];
      FindSeesStored(table, init, c, t, view);
      EntryStays(table, init, c, view);
    } else {
      assert e == Call(t, FindId(view));
    }
  }

  /**
   Real time: a find that is called after a find-or-make of the same view has returned gives the same
   id, and never misses it.
   */
  lemma FindSeesEarlierInsert(states: seq<State>, hash: HashFunction, moves: seq<Move>, initial: Table,
                              n: nat, r: nat, c: nat, j: nat)
    requires IsExecution(states, hash, moves) && n < |states|
    requires IsInitial(states[0], hash) && IsInitialTable(initial, states[0].storage)
    requires r < c < j < |states[n].history|
    requires states[n].history[r].Return? && states[n].history[r].op.FindOrMake?
    requires states[n].history[j].Return? && states[n].history[j].op == FindId(states[n].history[r].op.view)
    requires states[n].history[c] == Call(states[n].history[j].thread, states[n].history[j].op)
    requires forall k :: c < k < j ==> states[n].history[k].thread == states[n].history[j].thread ==> states[n].history[k].Effect?
    ensures states[n].history[j].result == states[n].history[r].result
    ensures states[n].history[j].result.Some?
  {
    var history := states[n].history;
    var view, t, before := history[r].op.view, history[j].thread, history[..j];
    EveryExecutionLinearizes(states, hash, moves, initial, n);
    hide Replay, PhaseOf, WellFormed, IsExecution, IsInitial;
    ReplayOfPrefix(initial, history, j);
    ReplayOfPrefix(initial, history, c);
    WellFormedBefore(history, j);
    WellFormedBefore(history, c);
    assert before[..c] == history[..c];
    ReturnsStay(initial, history[..c], r);
    FindSeesStored(initial, before, c, t, view);
    ReturnMatchesPhase(history, j);
  }

  lemma ReturnMatchesPhase(history: seq<Event>, j: nat)
    requires WellFormed(history) && j < |history| && history[j].Return?
    ensures PhaseOf(history[..j], history[j].thread) == Done(history[j].op, history[j].result)
  {
    WellFormedBefore(history, j + 1);
    var upTo := history[..j + 1];
    assert upTo[..|upTo| - 1] == history[..j];
    assert PhaseOf(upTo, history[j].thread) != Broken;
  }

}
