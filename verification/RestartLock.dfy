/**
 The restart lock of the orchestrator (dockfleet/core/orchestrator.py, `_restart_lock`): who has it, what its holder
 does meanwhile, and how long a waiting call can be kept out.
 */
module RestartLock {
  import opened Wrappers
  import opened ServiceRows
  import opened SelfHealing

  /** The thread a step moves, if it moves one. */
  function Mover(step: Step): ThreadId {
    if step.Call? || step.Advance? then step.thread else SCHEDULER_THREAD
  }

  lemma OthersStay(config: Config, state: State, step: Step, thread: ThreadId)
    requires Enabled(config, state, step) && thread != Mover(step)
    ensures Apply(config, state, step).PcOf(thread) == state.PcOf(thread)
  {
  }

  // ---------------------------------------------------------------- who has the lock

  /** The lock is held exactly by the call that is inside one of the two sections. */
  ghost predicate LockExact(state: State) {
    forall thread: ThreadId :: InSection(state.PcOf(thread)) <==> state.lock == Some(thread)
  }

  lemma LockOfAStep(config: Config, pc: Pc, taken: bool, luck: bool)
    requires !pc.Idle?
    ensures var effect := Program(config, pc, taken, luck);
            && (effect.lock.Take? <==> Waits(config, pc))
            && (effect.lock.Free? ==> InSection(pc))
            && (InSection(effect.next) <==> effect.lock.Take? || (InSection(pc) && !effect.lock.Free?))
  {
  }

  lemma LockMoved(state: State, mover: ThreadId, effect: Effect)
    requires LockExact(state) && !state.PcOf(mover).Idle?
    requires effect.lock.Take? ==> state.lock.None?
    requires effect.lock.Free? ==> InSection(state.PcOf(mover))
    requires InSection(effect.next) <==> effect.lock.Take? || (InSection(state.PcOf(mover)) && !effect.lock.Free?)
    ensures LockExact(Moved(state, mover, effect))
  {
    var after := Moved(state, mover, effect);
    assert InSection(state.PcOf(mover)) <==> state.lock == Some(mover);
    forall thread: ThreadId
      ensures InSection(after.PcOf(thread)) <==> after.lock == Some(thread)
    {
      assert InSection(state.PcOf(thread)) <==> state.lock == Some(thread);
    }
  }

  lemma LockAdvance(config: Config, state: State, mover: ThreadId, luck: bool)
    requires Enabled(config, state, Advance(mover, luck)) && LockExact(state)
    ensures LockExact(Advanced(config, state, mover, luck))
  {
    var pc := state.threads[mover];
    LockOfAStep(config, pc, pc.service in state.active, luck);
    LockMoved(state, mover, Program(config, pc, pc.service in state.active, luck));
  }

  lemma LockStep(config: Config, state: State, step: Step)
    requires Enabled(config, state, step) && LockExact(state)
    ensures LockExact(Apply(config, state, step))
  {
    if step.Advance? {
      LockAdvance(config, state, step.thread, step.luck);
    } else {
      var after := Apply(config, state, step);
      forall thread: ThreadId
        ensures InSection(after.PcOf(thread)) <==> after.lock == Some(thread)
      {
        assert InSection(state.PcOf(thread)) <==> state.lock == Some(thread);
        if thread != Mover(step) {
          OthersStay(config, state, step, thread);
        }
      }
    }
  }

  lemma {:induction false} LockIsExact(config: Config, states: seq<State>, steps: seq<Step>, i: nat)
    requires IsRun(config, states, steps) && i < |states|
    ensures LockExact(states[i])
  {
    if i > 0 {
      LockIsExact(config, states, steps, i - 1);
      assert Follows(config, states, steps, i - 1);
      LockStep(config, states[i - 1], steps[i - 1]);
    }
  }

  // ---------------------------------------------------------------- what the holder does

  /** How many of its own steps a holder is away from releasing the lock. */
  function SectionLeft(pc: Pc): nat {
    match pc
    case Checking(_, _) => 2
    case Discarding(_, _, _) => 2
    case Declining(_, _) => 1
    case Admitted(_, _) => 1
    case Dropped(_, _, _) => 1
    case _ => 0
  }

  /** A step that neither asks Docker nor opens a database session. */
  predicate OnlyTouchesTheGuard(config: Config, pc: Pc, taken: bool)
    requires !pc.Idle?
  {
    && Program(config, pc, taken, true) == Program(config, pc, taken, false)
    && var effect := Program(config, pc, taken, true);
       effect.write.NoWrite? && !effect.storesEvent && !effect.countsAttempt
  }

  /**
   In every reachable state the holder of the lock is one call, inside a section, and whatever the guard set says its
   next step neither asks Docker nor touches a row, can be taken at once, and brings it closer to releasing the lock.
   */
  lemma HolderIsQuick(config: Config, states: seq<State>, steps: seq<Step>, i: nat, taken: bool, luck: bool)
    requires IsRun(config, states, steps) && i < |states| && states[i].lock.Some?
    ensures var holder := states[i].lock.value;
            var pc := states[i].PcOf(holder);
            && InSection(pc) && 1 <= SectionLeft(pc) <= 2 && OnlyTouchesTheGuard(config, pc, taken)
            && (forall other: ThreadId :: InSection(states[i].PcOf(other)) <==> other == holder)
            && Enabled(config, states[i], Advance(holder, luck))
            && var after := Advanced(config, states[i], holder, luck);
               && SectionLeft(after.PcOf(holder)) == SectionLeft(pc) - 1
               && (after.lock == if SectionLeft(pc) == 1 then None else Some(holder))
  {
    LockIsExact(config, states, steps, i);
    var holder := states[i].lock.value;
    var pc := states[i].PcOf(holder);
    assert InSection(pc);
    SectionStep(config, pc, taken, luck);
    SectionStep(config, pc, pc.service in states[i].active, luck);
  }

  lemma SectionStep(config: Config, pc: Pc, taken: bool, luck: bool)
    requires InSection(pc)
    ensures 1 <= SectionLeft(pc) <= 2 && OnlyTouchesTheGuard(config, pc, taken) && !Waits(config, pc)
    ensures var effect := Program(config, pc, taken, luck);
            && SectionLeft(effect.next) == SectionLeft(pc) - 1
            && (effect.lock == if SectionLeft(pc) == 1 then Free else Stay)
            && (SectionLeft(pc) == 2 ==> InSection(effect.next))
  {
  }

  /** Nobody but the holder moves the holder, or takes or frees the lock. */
  lemma OthersKeepTheLock(config: Config, state: State, step: Step, holder: ThreadId)
    requires Enabled(config, state, step) && LockExact(state) && state.lock == Some(holder)
    requires !(step.Advance? && step.thread == holder)
    ensures var after := Apply(config, state, step);
            after.lock == Some(holder) && after.PcOf(holder) == state.PcOf(holder)
  {
    assert InSection(state.PcOf(holder));
    if step.Advance? {
      assert !InSection(state.PcOf(step.thread));
    }
  }

  function AdvancesOf(steps: seq<Step>, thread: ThreadId): nat {
    if steps == [] then 0
    else
      var n := |steps| - 1;
      AdvancesOf(steps[..n], thread) + AsNat(steps[n].Advance? && steps[n].thread == thread)
  }

  lemma OneMoreStep(steps: seq<Step>, step: Step, thread: ThreadId)
    ensures AdvancesOf(steps + [step], thread)
        == AdvancesOf(steps, thread) + AsNat(step.Advance? && step.thread == thread)
  {
    assert (steps + [step])[..|steps|] == steps;
  }

  lemma HeldOneStep(config: Config, states: seq<State>, steps: seq<Step>, k: nat, holder: ThreadId)
    requires IsRun(config, states, steps) && k < |steps| && states[k].lock == Some(holder)
    ensures SectionLeft(states[k + 1].PcOf(holder)) + AsNat(steps[k].Advance? && steps[k].thread == holder)
         == SectionLeft(states[k].PcOf(holder))
  {
    assert Follows(config, states, steps, k);
    if steps[k].Advance? && steps[k].thread == holder {
      HolderIsQuick(config, states, steps, k, true, steps[k].luck);
    } else {
      LockIsExact(config, states, steps, k);
      OthersKeepTheLock(config, states[k], steps[k], holder);
    }
  }

  /**
   Over every interleaving: as long as one call has the lock it takes at most two steps of its own, whatever the others
   do in between. With two of them it is gone.
   */
  lemma {:induction false} HeldForTwoSteps(
      config: Config, states: seq<State>, steps: seq<Step>, from: nat, to: nat, holder: ThreadId)
    requires IsRun(config, states, steps) && from <= to < |states|
    requires forall k | from <= k <= to :: states[k].lock == Some(holder)
    ensures AdvancesOf(steps[from..to], holder) + SectionLeft(states[to].PcOf(holder))
         <= SectionLeft(states[from].PcOf(holder)) <= 2
    ensures AdvancesOf(steps[from..to], holder) < 2
  {
    HolderIsQuick(config, states, steps, to, true, true);
    if from < to {
      HeldForTwoSteps(config, states, steps, from, to - 1, holder);
      HeldOneStep(config, states, steps, to - 1, holder);
      assert steps[from..to] == steps[from..to - 1] + [steps[to - 1]];
      OneMoreStep(steps[from..to - 1], steps[to - 1], holder);
    }
  }

  // ---------------------------------------------------------------- how a waiting call gets in

  /** The holder, moved on until it has released the lock. */
  lemma HolderLeaves(config: Config, state: State, holder: ThreadId) returns (steps: seq<Step>, after: State)
    requires LockExact(state) && state.lock == Some(holder)
    ensures |steps| == SectionLeft(state.PcOf(holder)) && forall step | step in steps :: step == Advance(holder, true)
    ensures RunFrom(config, state, steps) == Some(after) && after.lock.None?
    ensures forall other | other != holder :: after.PcOf(other) == state.PcOf(other)
  {
    assert InSection(state.PcOf(holder));
    var pc := state.PcOf(holder);
    SectionStep(config, pc, pc.service in state.active, true);
    var step := Advance(holder, true);
    after := Advanced(config, state, holder, true);
    assert RunFrom(config, state, []) == Some(state);
    RunFromOneMore(config, state, [], state, step);
    steps := [] + [step];
    if SectionLeft(pc) == 2 {
      var next := after.PcOf(holder);
      SectionStep(config, next, next.service in after.active, true);
      RunFromOneMore(config, state, steps, after, step);
      steps, after := steps + [step], Advanced(config, after, holder, true);
    }
  }

  /**
   From every reachable state a call that waits for the lock gets it once the holder, if there is one, has taken at most
   two steps of its own: no other call has to do anything, and it does not matter which services the calls are for.
   */
  lemma WaitingCallGetsIn(config: Config, states: seq<State>, steps: seq<Step>, i: nat, thread: ThreadId, luck: bool)
    returns (more: seq<Step>, after: State)
    requires IsRun(config, states, steps) && i < |states| && Waits(config, states[i].PcOf(thread))
    ensures |more| <= 2
    ensures forall step | step in more :: states[i].lock.Some? && step == Advance(states[i].lock.value, true)
    ensures RunFrom(config, states[i], more) == Some(after) && after.PcOf(thread) == states[i].PcOf(thread)
    ensures Enabled(config, after, Advance(thread, luck))
    ensures Advanced(config, after, thread, luck).lock == Some(thread)
  {
    LockIsExact(config, states, steps, i);
    if states[i].lock.None? {
      more, after := [], states[i];
    } else {
      assert !InSection(states[i].PcOf(thread));
      more, after := HolderLeaves(config, states[i], states[i].lock.value);
    }
  }
}
