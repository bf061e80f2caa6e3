/**
 The locking protocol of the node store does not deadlock, and every call needs only a bounded number
 of steps of its own thread.
 */
module Progress {
  import opened Wrappers
  import opened Interner

  lemma {:induction false} FreshAddress(used: set<Pointer>) returns (mem: Pointer)
    ensures forall p :: p in used ==> p < mem
  {
    if used == {} {
      mem := 0;
    } else {
      var p :| p in used;
      var above := FreshAddress(used - {p});
      mem := if above <= p then p + 1 else above;
      assert used == (used - {p}) + {p};
    }
  }

  // A thread that does not wait for a lock has a step.
  lemma CanContinue(s: State, hash: HashFunction, t: Thread) returns (step: Step)
    requires Invariant(s, hash)
    requires !PcOf(s, t).Idle? && !PcOf(s, t).Start? && !PcOf(s, t).WantUnique?
    ensures Enabled(s, hash, t, step) && !step.DoCall?
  {
    match PcOf(s, t) {
      case Shared(op) => step := Find(Lookup(s, hash, op.view));
      case Unique(view) => step := FindAgain(Lookup(s, hash, view));
      case SharedHit(_, _) => step := UnlockShared;
      case SharedMiss(_) => step := UnlockShared;
      case UniqueHit(_, _) => step := UnlockUnique;
      case UniqueMiss(_) => step := TakeId;
      case HasId(_, _) =>
        var mem := FreshAddress(s.storage.heap.Keys);
        step := Allocate(mem);
      case HasBackend(_, _, _) => step := EmplaceData;
      case Emplaced(_, _, _) => step := EmplaceId;
      case Inserted(_, _) => step := UnlockUnique;
      case Unlocked(_, found) =>
        step := ReadEntry;
        assert ThreadSound(s.storage, PcOf(s, t));
    }
  }

  ghost function Lookup(s: State, hash: HashFunction, view: View): (result: Option<Pointer>)
    ensures IsFindResult(s.storage, hash, view, result)
  {
    if p :| Matches(s.storage, hash, view, p) then Some(p) else None
  }

  /** As long as any call is under way, some thread can take a step of a call that is under way. */
  lemma NeverStuck(s: State, hash: HashFunction, t: Thread) returns (u: Thread, step: Step)
    requires Invariant(s, hash) && !PcOf(s, t).Idle?
    ensures Enabled(s, hash, u, step) && !step.DoCall?
  {
    if s.writer.Some? {
      u := s.writer.value;
      step := CanContinue(s, hash, u);
    } else if PcOf(s, t).Start? {
      u, step := t, LockShared;
    } else if PcOf(s, t).WantUnique? {
      if s.readers == {} {
        u, step := t, LockUnique;
      } else {
        u :| u in s.readers;
        step := CanContinue(s, hash, u);
      }
    } else {
      u := t;
      step := CanContinue(s, hash, u);
    }
  }

  // An upper bound on the steps a thread has left in its call.
  function StepsLeft(pc: Pc): nat {
    match pc
    case Idle => 0
    case Start(_) => 11
    case Shared(_) => 10
    case SharedHit(_, _) => 9
    case SharedMiss(_) => 9
    case WantUnique(_) => 8
    case Unique(_) => 7
    case UniqueHit(_, _) => 2
    case UniqueMiss(_) => 6
    case HasId(_, _) => 5
    case HasBackend(_, _, _) => 4
    case Emplaced(_, _, _) => 3
    case Inserted(_, _) => 2
    case Unlocked(_, _) => 1
  }

  // How many steps thread `t` has taken, calls not counted.
  function StepsOf(moves: seq<Move>, t: Thread): nat {
    if moves == [] then 0
    else StepsOf(moves[..|moves| - 1], t)
         + if moves[|moves| - 1].thread == t && !moves[|moves| - 1].step.DoCall? then 1 else 0
  }

  function CallsOf(moves: seq<Move>, t: Thread): nat {
    if moves == [] then 0
    else CallsOf(moves[..|moves| - 1], t)
         + if moves[|moves| - 1].thread == t && moves[|moves| - 1].step.DoCall? then 1 else 0
  }

  lemma StepShortens(s: State, hash: HashFunction, t: Thread, step: Step, u: Thread)
    requires Enabled(s, hash, t, step)
    ensures
      var before, after := StepsLeft(PcOf(s, u)), StepsLeft(PcOf(Next(s, hash, t, step), u));
      if u != t then after == before
      else if step.DoCall? then before == 0 && after == 11
      else after < before
  {
    hide IsFindResult, Emplace;
    OthersKeepTheirPlace(s, hash, t, step, u);
  }

  lemma OthersKeepTheirPlace(s: State, hash: HashFunction, t: Thread, step: Step, u: Thread)
    requires Enabled(s, hash, t, step)
    ensures u != t ==> PcOf(Next(s, hash, t, step), u) == PcOf(s, u)
  {
    hide IsFindResult, Emplace;
  }

  /** However the threads interleave, a thread takes at most eleven steps for each of its calls. */
  lemma {:induction false} CallsAreShort(states: seq<State>, hash: HashFunction, moves: seq<Move>, t: Thread)
    requires IsExecution(states, hash, moves) && PcOf(states[0], t) == Idle
    ensures StepsOf(moves, t) + StepsLeft(PcOf(states[|moves|], t)) <= 11 * CallsOf(moves, t)
  {
    hide Enabled, Next, StepsLeft;
    if moves == [] {
      assert StepsLeft(Idle) == 0 by { IdleHasNoSteps(); }
    } else {
      var n := |moves| - 1;
      assert IsExecution(states[..|states| - 1], hash, moves[..n]);
      CallsAreShort(states[..|states| - 1], hash, moves[..n], t);
      assert states[n + 1] == Next(states[n], hash, moves[n].thread, moves[n].step);
      StepShortens(states[n], hash, moves[n].thread, moves[n].step, t);
    }
  }

  lemma IdleHasNoSteps()
    ensures StepsLeft(Idle) == 0
  {
  }

}
