/**
 The restart guard of `Orchestrator.restart_service` under every interleaving: mutual exclusion per service, RESTARTING
 rows, and the conservation of restart counts and restart events.
 */
module RestartGuard {
  import opened Wrappers
  import opened ServiceRows
  import opened SelfHealing
  import opened RestartLock

  // ---------------------------------------------------------------- mutual exclusion

  ghost predicate Holds(state: State, thread: ThreadId, name: Name) {
    InFlight(state.PcOf(thread), name)
  }

  /** The guard set is exactly the set of services with a restart in flight, and no service has two. */
  ghost predicate GuardExact(state: State) {
    && (forall name | name in state.active :: exists thread :: Holds(state, thread, name))
    && (forall thread, name | Holds(state, thread, name) :: name in state.active)
    && (forall t, u, name | Holds(state, t, name) && Holds(state, u, name) :: t == u)
  }

  lemma GuardStep(config: Config, state: State, step: Step)
    requires Enabled(config, state, step) && GuardExact(state)
    ensures GuardExact(Apply(config, state, step))
  {
    var after := Apply(config, state, step);
    var mover := Mover(step);
    forall thread, name | thread != mover
      ensures Holds(after, thread, name) <==> Holds(state, thread, name)
    {
      OthersStay(config, state, step, thread);
    }
    if step.Advance? {
      GuardAdvance(config, state, step.thread, step.luck);
    } else {
      assert forall name :: Holds(after, mover, name) <==> Holds(state, mover, name);
      assert forall thread, name :: Holds(after, thread, name) <==> Holds(state, thread, name);
    }
  }

  lemma FlightOfAStep(config: Config, pc: Pc, taken: bool, luck: bool)
    requires !pc.Idle?
    ensures var effect := Program(config, pc, taken, luck);
            && (InFlight(effect.next, pc.service)
                <==> effect.guard.Add? || (InFlight(pc, pc.service) && !effect.guard.Discard?))
            && (effect.guard.Add? ==> !taken && pc.Checking?)
            && (effect.guard.Discard? ==> InFlight(pc, pc.service))
            && (effect.next.Idle? || effect.next.service == pc.service)
  {
  }

  lemma GuardMoved(state: State, mover: ThreadId, effect: Effect)
    requires !state.PcOf(mover).Idle? && GuardExact(state)
    requires var pc := state.PcOf(mover);
             && (InFlight(effect.next, pc.service)
                 <==> effect.guard.Add? || (InFlight(pc, pc.service) && !effect.guard.Discard?))
             && (effect.guard.Add? ==> pc.service !in state.active)
             && (effect.guard.Discard? ==> InFlight(pc, pc.service))
             && (effect.next.Idle? || effect.next.service == pc.service)
    ensures GuardExact(Moved(state, mover, effect))
  {
    var after, own := Moved(state, mover, effect), state.threads[mover].service;
    assert Holds(after, mover, own) <==> (effect.guard.Add? || (Holds(state, mover, own) && !effect.guard.Discard?));
    assert forall name | name != own :: !Holds(after, mover, name) && !Holds(state, mover, name);
    assert forall thread, name | thread != mover :: Holds(after, thread, name) <==> Holds(state, thread, name);
    forall name | name in after.active
      ensures exists thread :: Holds(after, thread, name)
    {
      if effect.guard.Add? && name == own {
        assert Holds(after, mover, own);
      } else {
        var thread :| Holds(state, thread, name);
        assert Holds(after, thread, name);
      }
    }
  }

  lemma GuardAdvance(config: Config, state: State, mover: ThreadId, luck: bool)
    requires !state.PcOf(mover).Idle? && GuardExact(state)
    ensures GuardExact(Advanced(config, state, mover, luck))
  {
    var pc := state.threads[mover];
    FlightOfAStep(config, pc, pc.service in state.active, luck);
    GuardMoved(state, mover, Program(config, pc, pc.service in state.active, luck));
  }

  lemma {:induction false} GuardIsExact(config: Config, states: seq<State>, steps: seq<Step>, i: nat)
    requires IsRun(config, states, steps) && i < |states|
    ensures GuardExact(states[i])
  {
    if i > 0 {
      GuardIsExact(config, states, steps, i - 1);
      assert Follows(config, states, steps, i - 1);
      GuardStep(config, states[i - 1], steps[i - 1]);
    }
  }

  /** With the lock in hand, a request enters exactly when no other call has that service in flight. */
  lemma EntersUnlessInFlight(config: Config, states: seq<State>, steps: seq<Step>, i: nat)
    requires IsRun(config, states, steps) && i < |steps| && steps[i].Advance?
    requires states[i].PcOf(steps[i].thread).Checking?
    ensures var name := states[i].PcOf(steps[i].thread).service;
            var pc := states[i + 1].PcOf(steps[i].thread);
            && (pc.Admitted? <==> forall other :: !Holds(states[i], other, name))
            && (pc.Declining? <==> exists other :: Holds(states[i], other, name))
  {
    GuardIsExact(config, states, steps, i);
    assert Follows(config, states, steps, i);
  }

  /** How many of its own steps a call is away from its end, at most. */
  function StepsLeft(pc: Pc): nat {
    match pc
    case Idle => 0
    case Requested(_, _) => 12
    case Checking(_, _) => 11
    case Declining(_, _) => 3
    case Admitted(_, _) => 10
    case Entered(_, _) => 9
    case Clearing(_, _) => 8
    case Starting(_, _) => 7
    case Counting(_, _) => 6
    case Failing(_, _) => 6
    case Raising(_, _) => 6
    case Leaving(_, _, _) => 5
    case Discarding(_, _, _) => 4
    case Dropped(_, _, _) => 3
    case Returned(_, _, _) => 2
    case Recording(_, _) => 1
  }

  lemma OwnStepsEnd(config: Config, pc: Pc, taken: bool, luck: bool)
    requires !pc.Idle?
    ensures StepsLeft(Program(config, pc, taken, luck).next) < StepsLeft(pc)
  {
  }

  /**
   Nothing blocks a call. In every reachable state, a call that does not wait for the restart lock can take its next
   step; one that waits can take it after at most two steps of the lock's holder. Each of its own steps brings it closer
   to its end, at most twelve in all, and no step of anyone else moves it.
   */
  lemma NothingBlocksACall(
      config: Config, states: seq<State>, steps: seq<Step>, i: nat, thread: ThreadId, step: Step, luck: bool)
    returns (more: seq<Step>, later: State)
    requires IsRun(config, states, steps) && i < |states| && !states[i].PcOf(thread).Idle?
    requires Enabled(config, states[i], step)
    ensures |more| <= 2
    ensures forall move | move in more :: states[i].lock.Some? && move == Advance(states[i].lock.value, true)
    ensures !Waits(config, states[i].PcOf(thread)) ==> more == []
    ensures RunFrom(config, states[i], more) == Some(later) && later.PcOf(thread) == states[i].PcOf(thread)
    ensures Enabled(config, later, Advance(thread, luck))
    ensures StepsLeft(states[i].PcOf(thread)) <= 12
    ensures var after := Apply(config, states[i], step);
            if step.Advance? && step.thread == thread then
              StepsLeft(after.PcOf(thread)) < StepsLeft(states[i].PcOf(thread))
            else
              after.PcOf(thread) == states[i].PcOf(thread)
  {
    if Waits(config, states[i].PcOf(thread)) {
      more, later := WaitingCallGetsIn(config, states, steps, i, thread, luck);
    } else {
      more, later := [], states[i];
    }
    MovesOnlyItself(config, states[i], thread, step);
  }

  lemma MovesOnlyItself(config: Config, state: State, thread: ThreadId, step: Step)
    requires !state.PcOf(thread).Idle? && Enabled(config, state, step)
    ensures var after := Apply(config, state, step);
            if step.Advance? && step.thread == thread then
              StepsLeft(after.PcOf(thread)) < StepsLeft(state.PcOf(thread))
            else
              after.PcOf(thread) == state.PcOf(thread)
  {
    if step.Advance? && step.thread == thread {
      var pc := state.threads[thread];
      OwnStepsEnd(config, pc, pc.service in state.active, step.luck);
    }
  }

  /** However the call ends, normally or with an exception, the guard no longer holds the service it restarted. */
  lemma ExitClearsTheGuard(config: Config, states: seq<State>, steps: seq<Step>, i: nat, thread: ThreadId, name: Name)
    requires IsRun(config, states, steps) && i < |steps|
    requires Holds(states[i], thread, name) && !Holds(states[i + 1], thread, name)
    ensures states[i].PcOf(thread).Discarding? && states[i + 1].PcOf(thread).Dropped?
    ensures states[i + 1].PcOf(thread).outcome == states[i].PcOf(thread).outcome
    ensures states[i + 1].active == states[i].active - {name}
  {
    assert Follows(config, states, steps, i);
    MovesOnlyItself(config, states[i], thread, steps[i]);
    assert steps[i].Advance? && steps[i].thread == thread;
    LeavesFlight(config, states[i].PcOf(thread), name in states[i].active, steps[i].luck, name);
  }

  lemma LeavesFlight(config: Config, pc: Pc, taken: bool, luck: bool, name: Name)
    requires InFlight(pc, name)
    ensures var effect := Program(config, pc, taken, luck);
            && (effect.guard.Discard? <==> !InFlight(effect.next, name))
            && (effect.guard.Discard? ==> pc.Discarding? && effect.next.Dropped? && effect.next.outcome == pc.outcome)
  {
  }

  // ---------------------------------------------------------------- rows that read RESTARTING

  ghost predicate Shows(state: State, thread: ThreadId, name: Name) {
    ShowsRestarting(state.PcOf(thread), name)
  }

  ghost predicate RestartingIsGuarded(first: State, state: State) {
    && state.rows.Keys == first.rows.Keys
    && forall name | name in state.rows && state.rows[name].health == Restarting ::
         first.rows[name].health == Restarting || exists thread :: Shows(state, thread, name)
  }

  /** No session but a restart's own makes a row read RESTARTING, and every later write of that restart ends it. */
  lemma WritesOfACall(config: Config, pc: Pc, taken: bool, luck: bool, svc: Service)
    requires !pc.Idle?
    ensures var effect := Program(config, pc, taken, luck);
            && (Assign(effect.write, svc).health == Restarting ==>
                  effect.write.WriteRestarting?
                  || (svc.health == Restarting && effect.write in {NoWrite, WriteCount}))
            && (effect.write.WriteRestarting? ==> effect.next.Clearing?)
            && (ShowsRestarting(pc, pc.service) && effect.write.NoWrite? ==> ShowsRestarting(effect.next, pc.service))
            && (effect.write.WriteCount? ==> pc.Counting?)
  {
  }

  lemma RestartingMoved(first: State, state: State, mover: ThreadId, effect: Effect, name: Name)
    requires !state.PcOf(mover).Idle? && RestartingIsGuarded(first, state)
    requires name in state.rows && first.rows[name].health != Restarting
    requires forall t, u | Shows(state, t, name) && Shows(state, u, name) :: t == u
    requires var pc, svc := state.PcOf(mover), state.rows[name];
             && (Assign(effect.write, svc).health == Restarting ==>
                   effect.write.WriteRestarting? || svc.health == Restarting)
             && (pc.service == name && effect.write.WriteRestarting? ==> ShowsRestarting(effect.next, name))
             && (pc.service == name && ShowsRestarting(pc, name) && Assign(effect.write, svc).health == Restarting ==>
                   ShowsRestarting(effect.next, name))
    requires Moved(state, mover, effect).rows[name].health == Restarting
    ensures exists thread :: Shows(Moved(state, mover, effect), thread, name)
  {
    var after, pc := Moved(state, mover, effect), state.threads[mover];
    if pc.service == name && effect.write.WriteRestarting? {
      assert Shows(after, mover, name);
    } else {
      assert state.rows[name].health == Restarting;
      var thread :| Shows(state, thread, name);
      assert Shows(after, thread, name);
    }
  }

  lemma RestartingAdvance(config: Config, first: State, state: State, mover: ThreadId, luck: bool, name: Name)
    requires !state.PcOf(mover).Idle? && GuardExact(state) && RestartingIsGuarded(first, state)
    requires name in state.rows && first.rows[name].health != Restarting
    requires Advanced(config, state, mover, luck).rows[name].health == Restarting
    ensures exists thread :: Shows(Advanced(config, state, mover, luck), thread, name)
  {
    var pc := state.threads[mover];
    WritesOfACall(config, pc, pc.service in state.active, luck, state.rows[name]);
    forall t, u | Shows(state, t, name) && Shows(state, u, name)
      ensures t == u
    {
      assert Holds(state, t, name) && Holds(state, u, name);
    }
    RestartingMoved(first, state, mover, Program(config, pc, pc.service in state.active, luck), name);
  }

  lemma NotMadeRestarting(config: Config, state: State, step: Step, name: Name)
    requires Enabled(config, state, step) && !step.Advance?
    requires var after := Apply(config, state, step); name in after.rows && after.rows[name].health == Restarting
    ensures name in state.rows && state.rows[name].health == Restarting
  {
  }

  lemma StillShows(config: Config, state: State, step: Step, thread: ThreadId, name: Name)
    requires Enabled(config, state, step) && !step.Advance? && Shows(state, thread, name)
    ensures Shows(Apply(config, state, step), thread, name)
  {
    if thread != Mover(step) {
      OthersStay(config, state, step, thread);
    }
  }

  lemma RestartingStep(config: Config, first: State, state: State, step: Step)
    requires Enabled(config, state, step) && GuardExact(state) && RestartingIsGuarded(first, state)
    ensures RestartingIsGuarded(first, Apply(config, state, step))
  {
    var after := Apply(config, state, step);
    forall name | name in after.rows && after.rows[name].health == Restarting && first.rows[name].health != Restarting
      ensures exists thread :: Shows(after, thread, name)
    {
      if step.Advance? {
        RestartingAdvance(config, first, state, step.thread, step.luck, name);
      } else {
        NotMadeRestarting(config, state, step, name);
        var thread :| Shows(state, thread, name);
        StillShows(config, state, step, thread, name);
      }
    }
  }

  lemma {:induction false} RestartingInvariant(config: Config, states: seq<State>, steps: seq<Step>, i: nat)
    requires IsRun(config, states, steps) && i < |states|
    ensures RestartingIsGuarded(states[0], states[i])
  {
    if i > 0 {
      RestartingInvariant(config, states, steps, i - 1);
      GuardIsExact(config, states, steps, i - 1);
      assert Follows(config, states, steps, i - 1);
      RestartingStep(config, states[0], states[i - 1], steps[i - 1]);
    }
  }

  /** A row reads RESTARTING only while its service is in the guard, unless the run found it so. */
  lemma RestartingOnlyWhileGuarded(config: Config, states: seq<State>, steps: seq<Step>, i: nat, name: Name)
    requires IsRun(config, states, steps) && i < |states|
    requires name in states[i].rows && states[i].rows[name].health == Restarting
    ensures name in states[0].rows
    ensures states[0].rows[name].health == Restarting || name in states[i].active
  {
    RestartingInvariant(config, states, steps, i);
    GuardIsExact(config, states, steps, i);
    if states[0].rows[name].health != Restarting {
      var thread :| Shows(states[i], thread, name);
      assert Holds(states[i], thread, name);
    }
  }

  // ---------------------------------------------------------------- conservation

  /** The callers whose restart succeeded and whose event is not stored yet. */
  function Owing(threads: map<ThreadId, Pc>, name: Name): set<ThreadId> {
    set thread | thread in threads && OwesEvent(threads[thread], name)
  }

  /** One thread moves: the number of owing callers changes by what it owed and what it owes. */
  lemma OwingAfterMove(threads: map<ThreadId, Pc>, thread: ThreadId, pc: Pc, name: Name)
    ensures |Owing(threads[thread := pc], name)| + AsNat(thread in threads && OwesEvent(threads[thread], name))
         == |Owing(threads, name)| + AsNat(OwesEvent(pc, name))
  {
    var before, after := Owing(threads, name), Owing(threads[thread := pc], name);
    forall other | other != thread
      ensures other in before <==> other in after
    {
      assert other in threads[thread := pc] ==> threads[thread := pc][other] == threads[other];
    }
    OneMoves(before, after, thread);
  }

  lemma OneMoves(before: set<ThreadId>, after: set<ThreadId>, thread: ThreadId)
    requires forall other | other != thread :: other in before <==> other in after
    ensures |after| + AsNat(thread in before) == |before| + AsNat(thread in after)
  {
    var others := before - {thread};
    assert before == others + if thread in before then {thread} else {};
    assert after == others + if thread in after then {thread} else {};
  }

  /** Restarts counted in the row since the run began: stored as events, or owed by a caller. */
  ghost predicate Conserved(first: State, state: State, name: Name)
    requires name in first.rows
  {
    && name in state.rows
    && state.rows[name].restartCount + first.events[name]
       == first.rows[name].restartCount + state.events[name] + |Owing(state.threads, name)|
  }

  /** Every step of a call that counts a restart begins to owe its event; storing the event ends the debt. */
  lemma BalanceOfAStep(config: Config, pc: Pc, taken: bool, luck: bool, name: Name)
    requires !pc.Idle?
    ensures var effect := Program(config, pc, taken, luck);
            if pc.service == name then
              AsNat(effect.write.WriteCount?) + AsNat(OwesEvent(pc, name))
                  == AsNat(OwesEvent(effect.next, name)) + AsNat(effect.storesEvent)
            else !OwesEvent(pc, name) && !OwesEvent(effect.next, name)
  {
  }

  lemma ConservedMoved(first: State, state: State, mover: ThreadId, effect: Effect, name: Name)
    requires name in first.rows && !state.PcOf(mover).Idle? && Conserved(first, state, name)
    requires var pc := state.PcOf(mover);
             if pc.service == name then
               AsNat(effect.write.WriteCount?) + AsNat(OwesEvent(pc, name))
                   == AsNat(OwesEvent(effect.next, name)) + AsNat(effect.storesEvent)
             else !OwesEvent(pc, name) && !OwesEvent(effect.next, name)
    ensures Conserved(first, Moved(state, mover, effect), name)
  {
    OwingAfterMove(state.threads, mover, effect.next, name);
    var row := state.rows[name];
    assert Assign(effect.write, row).restartCount == row.restartCount + AsNat(effect.write.WriteCount?);
  }

  lemma ConservedAdvance(config: Config, first: State, state: State, mover: ThreadId, luck: bool, name: Name)
    requires name in first.rows && !state.PcOf(mover).Idle? && Conserved(first, state, name)
    ensures Conserved(first, Advanced(config, state, mover, luck), name)
  {
    var pc := state.threads[mover];
    BalanceOfAStep(config, pc, pc.service in state.active, luck, name);
    ConservedMoved(first, state, mover, Program(config, pc, pc.service in state.active, luck), name);
  }

  /** A new request owes nothing. */
  lemma RequestOwesNothing(threads: map<ThreadId, Pc>, thread: ThreadId, caller: Caller, service: Name, name: Name)
    requires thread in threads ==> threads[thread].Idle?
    ensures |Owing(threads[thread := Requested(caller, service)], name)| == |Owing(threads, name)|
  {
    OwingAfterMove(threads, thread, Requested(caller, service), name);
  }

  lemma ConservedStep(config: Config, first: State, state: State, step: Step, name: Name)
    requires name in first.rows && Enabled(config, state, step) && Conserved(first, state, name)
    ensures Conserved(first, Apply(config, state, step), name)
  {
    match step
    case Advance(thread, luck) => ConservedAdvance(config, first, state, thread, luck, name);
    case DecideRestart(service) => RequestOwesNothing(state.threads, SCHEDULER_THREAD, Scheduler, service, name);
    case Call(thread, caller, service) => RequestOwesNothing(state.threads, thread, caller, service, name);
    case _ => OperatorsDoNotCount(config, state, step, name);
  }

  lemma OperatorsDoNotCount(config: Config, state: State, step: Step, name: Name)
    requires Enabled(config, state, step) && (step.Tick? || step.RecordCheck? || step.OperatorStart?
        || step.OperatorStop?)
    requires name in state.rows
    ensures var after := Apply(config, state, step);
            && name in after.rows && after.rows[name].restartCount == state.rows[name].restartCount
            && after.events == state.events && after.threads == state.threads
  {
  }

  /** For every row and every interleaving: restarts counted == events stored + events owed. */
  lemma {:induction false} RestartsAreConserved(config: Config, states: seq<State>, steps: seq<Step>, i: nat,
                                                name: Name)
    requires IsRun(config, states, steps) && i < |states| && name in states[0].rows
    ensures Conserved(states[0], states[i], name)
  {
    if i > 0 {
      RestartsAreConserved(config, states, steps, i - 1, name);
      assert Follows(config, states, steps, i - 1);
      ConservedStep(config, states[0], states[i - 1], steps[i - 1], name);
    } else {
      assert Owing(states[0].threads, name) == {};
    }
  }

  /** What may happen next, whatever else is going on: time passes, operators act, requests come in, checks complete. */
  predicate MayHappen(state: State, step: Step) {
    match step
    case Tick(elapsed) => elapsed >= 0.0
    case RecordCheck(_, _) => state.PcOf(0).Idle?
    case DecideRestart(_) => state.PcOf(0).Idle?
    case Call(thread, caller, _) => thread > 0 && caller != Scheduler && state.PcOf(thread).Idle?
    case Advance(_, _) => false
    case OperatorStart(_) => true
    case OperatorStop(_) => true
  }

  /** Each of these continues every run; a call in flight can move by `NothingBlocksACall`. */
  lemma RunsGoOn(config: Config, states: seq<State>, steps: seq<Step>, step: Step)
    requires IsRun(config, states, steps) && MayHappen(states[|steps|], step)
    ensures Enabled(config, states[|steps|], step)
    ensures IsRun(config, states + [Apply(config, states[|steps|], step)], steps + [step])
  {
    var more, all := states + [Apply(config, states[|steps|], step)], steps + [step];
    forall i: nat | i < |all|
      ensures Follows(config, more, all, i)
    {
      assert i < |steps| ==> Follows(config, states, steps, i);
    }
  }

  lemma NoEventStep(config: Config, state: State, step: Step, name: Name)
    requires Enabled(config, state, step) && name !in state.rows
    ensures var after := Apply(config, state, step);
            name !in after.rows && after.events[name] == state.events[name]
  {
  }

  /** Of a service without a row no restart is ever stored. */
  lemma {:induction false} NoEventWithoutARow(config: Config, states: seq<State>, steps: seq<Step>, i: nat, name: Name)
    requires IsRun(config, states, steps) && i < |states| && name !in states[0].rows
    ensures name !in states[i].rows && states[i].events[name] == states[0].events[name]
  {
    if i > 0 {
      NoEventWithoutARow(config, states, steps, i - 1, name);
      assert Follows(config, states, steps, i - 1);
      NoEventStep(config, states[i - 1], steps[i - 1], name);
    }
  }

  predicate ReturnsTrue(state: State, step: Step, name: Name) {
    && step.Advance? && state.PcOf(step.thread).Dropped?
    && AboutToReturnTrue(state.PcOf(step.thread), name)
  }

  predicate AboutToReturnTrue(pc: Pc, name: Name) {
    OnTheWayOut(pc) && pc.service == name && pc.outcome == Restarted
  }

  // ---------------------------------------------------------------- calls that returned True

  /** A restart of the service is in flight, or just left the guard set and still has the lock. */
  ghost predicate Inside(state: State, thread: ThreadId, name: Name) {
    InsidePc(state.PcOf(thread), name)
  }

  ghost predicate OneInside(state: State) {
    forall t, u, name | Inside(state, t, name) && Inside(state, u, name) :: t == u
  }

  /** A call that comes inside finds nobody there: a call that just left the guard set would still have the lock. */
  lemma NobodyElseInside(state: State, mover: ThreadId, name: Name)
    requires GuardExact(state) && LockExact(state) && state.PcOf(mover).Checking? && name !in state.active
    ensures forall other: ThreadId :: !Inside(state, other, name)
  {
    forall other: ThreadId
      ensures !Inside(state, other, name)
    {
      assert !Holds(state, other, name);
      assert InSection(state.PcOf(other)) <==> state.lock == Some(other);
      assert InSection(state.PcOf(mover)) <==> state.lock == Some(mover);
    }
  }

  predicate InsidePc(pc: Pc, name: Name) {
    InFlight(pc, name) || (pc.Dropped? && pc.service == name)
  }

  lemma InsideOfAStep(config: Config, pc: Pc, taken: bool, luck: bool)
    requires !pc.Idle?
    ensures var next := Program(config, pc, taken, luck).next;
            && (InsidePc(next, pc.service) && !InsidePc(pc, pc.service) ==> pc.Checking? && !taken)
            && (next.Idle? || next.service == pc.service)
  {
  }

  lemma OneInsideAdvance(config: Config, state: State, mover: ThreadId, luck: bool)
    requires Enabled(config, state, Advance(mover, luck))
    requires GuardExact(state) && LockExact(state) && OneInside(state)
    ensures OneInside(Advanced(config, state, mover, luck))
  {
    var pc := state.threads[mover];
    InsideOfAStep(config, pc, pc.service in state.active, luck);
    if pc.Checking? && pc.service !in state.active {
      NobodyElseInside(state, mover, pc.service);
    }
    OneInsideMoved(state, mover, Program(config, pc, pc.service in state.active, luck));
  }

  lemma OneInsideMoved(state: State, mover: ThreadId, effect: Effect)
    requires !state.PcOf(mover).Idle? && OneInside(state)
    requires effect.next.Idle? || effect.next.service == state.PcOf(mover).service
    requires var pc := state.PcOf(mover);
             InsidePc(effect.next, pc.service) && !InsidePc(pc, pc.service) ==>
               forall other: ThreadId :: !Inside(state, other, pc.service)
    ensures OneInside(Moved(state, mover, effect))
  {
    var after := Moved(state, mover, effect);
    var own := state.PcOf(mover).service;
    forall t, u, name | Inside(after, t, name) && Inside(after, u, name)
      ensures t == u
    {
      assert t != mover ==> Inside(state, t, name);
      assert u != mover ==> Inside(state, u, name);
      assert t == mover || u == mover ==> name == own;
      assert InsidePc(effect.next, own) && InsidePc(state.PcOf(mover), own) ==> Inside(state, mover, own);
    }
  }

  lemma OneInsideStep(config: Config, state: State, step: Step)
    requires Enabled(config, state, step) && GuardExact(state) && LockExact(state) && OneInside(state)
    ensures OneInside(Apply(config, state, step))
  {
    if step.Advance? {
      OneInsideAdvance(config, state, step.thread, step.luck);
    } else {
      var after := Apply(config, state, step);
      forall thread, name
        ensures Inside(after, thread, name) <==> Inside(state, thread, name)
      {
        if thread != Mover(step) {
          OthersStay(config, state, step, thread);
        }
      }
    }
  }

  lemma {:induction false} AtMostOneInside(config: Config, states: seq<State>, steps: seq<Step>, i: nat)
    requires IsRun(config, states, steps) && i < |states|
    ensures OneInside(states[i])
  {
    if i > 0 {
      AtMostOneInside(config, states, steps, i - 1);
      GuardIsExact(config, states, steps, i - 1);
      LockIsExact(config, states, steps, i - 1);
      assert Follows(config, states, steps, i - 1);
      OneInsideStep(config, states[i - 1], steps[i - 1]);
    }
  }

  /** How many calls for the service returned True in the first `i` steps. */
  ghost function TrueReturns(config: Config, states: seq<State>, steps: seq<Step>, i: nat, name: Name): nat
    requires IsRun(config, states, steps) && i < |states|
  {
    if i == 0 then 0
    else TrueReturns(config, states, steps, i - 1, name) + AsNat(ReturnsTrue(states[i - 1], steps[i - 1], name))
  }

  /** A counted restart is still inside `restart_service`. */
  ghost predicate SomeAboutToReturnTrue(state: State, name: Name) {
    exists thread :: AboutToReturnTrue(state.PcOf(thread), name) && Inside(state, thread, name)
  }

  lemma CountOfAStep(config: Config, pc: Pc, taken: bool, luck: bool, name: Name)
    requires !pc.Idle?
    ensures var effect := Program(config, pc, taken, luck);
            if pc.service == name then
              AsNat(effect.write.WriteCount?) + AsNat(AboutToReturnTrue(pc, name))
              == AsNat(pc.Dropped? && AboutToReturnTrue(pc, name)) + AsNat(AboutToReturnTrue(effect.next, name))
            else !AboutToReturnTrue(pc, name) && !AboutToReturnTrue(effect.next, name)
  {
  }

  lemma CountAdvance(config: Config, state: State, mover: ThreadId, luck: bool, name: Name)
    requires Enabled(config, state, Advance(mover, luck)) && name in state.rows
    requires OneInside(state) && OneInside(Advanced(config, state, mover, luck))
    ensures var after := Advanced(config, state, mover, luck);
            && name in after.rows
            && after.rows[name].restartCount + AsNat(SomeAboutToReturnTrue(state, name))
               == state.rows[name].restartCount + AsNat(ReturnsTrue(state, Advance(mover, luck), name))
                  + AsNat(SomeAboutToReturnTrue(after, name))
  {
    var pc := state.threads[mover];
    CountOfAStep(config, pc, pc.service in state.active, luck, name);
    CountMoved(state, mover, Program(config, pc, pc.service in state.active, luck), name);
  }

  lemma CountMoved(state: State, mover: ThreadId, effect: Effect, name: Name)
    requires !state.PcOf(mover).Idle? && name in state.rows
    requires OneInside(state) && OneInside(Moved(state, mover, effect))
    requires var pc := state.PcOf(mover);
             if pc.service == name then
               AsNat(effect.write.WriteCount?) + AsNat(AboutToReturnTrue(pc, name))
               == AsNat(pc.Dropped? && AboutToReturnTrue(pc, name)) + AsNat(AboutToReturnTrue(effect.next, name))
             else !AboutToReturnTrue(pc, name) && !AboutToReturnTrue(effect.next, name)
    ensures var after := Moved(state, mover, effect);
            && name in after.rows
            && after.rows[name].restartCount + AsNat(SomeAboutToReturnTrue(state, name))
               == state.rows[name].restartCount + AsNat(state.PcOf(mover).Dropped?
                   && AboutToReturnTrue(state.PcOf(mover), name))
                  + AsNat(SomeAboutToReturnTrue(after, name))
  {
    var after := Moved(state, mover, effect);
    OnlyTheMover(state, after, mover, name);
    if state.PcOf(mover).service == name {
      var row := state.rows[name];
      assert Assign(effect.write, row).restartCount == row.restartCount + AsNat(effect.write.WriteCount?);
    }
  }

  /** When the mover is inside before and after, it is the only one that can be about to return. */
  lemma OnlyTheMover(state: State, after: State, mover: ThreadId, name: Name)
    requires OneInside(state) && OneInside(after)
    requires forall thread | thread != mover :: after.PcOf(thread) == state.PcOf(thread)
    ensures AsNat(SomeAboutToReturnTrue(state, name)) + AsNat(AboutToReturnTrue(after.PcOf(mover), name))
         == AsNat(SomeAboutToReturnTrue(after, name)) + AsNat(AboutToReturnTrue(state.PcOf(mover), name))
  {
    assert AboutToReturnTrue(state.PcOf(mover), name) ==> Inside(state, mover, name);
    assert AboutToReturnTrue(after.PcOf(mover), name) ==> Inside(after, mover, name);
    forall thread | thread != mover
      ensures AboutToReturnTrue(after.PcOf(thread), name) == AboutToReturnTrue(state.PcOf(thread), name)
      ensures Inside(after, thread, name) == Inside(state, thread, name)
    {
    }
  }

  lemma SameAbout(state: State, after: State, name: Name)
    requires forall thread: ThreadId ::
               || after.PcOf(thread) == state.PcOf(thread)
               || (!AboutToReturnTrue(state.PcOf(thread), name) && !AboutToReturnTrue(after.PcOf(thread), name))
    ensures SomeAboutToReturnTrue(after, name) == SomeAboutToReturnTrue(state, name)
  {
    forall thread
      ensures AboutToReturnTrue(after.PcOf(thread), name) && Inside(after, thread, name)
         <==> AboutToReturnTrue(state.PcOf(thread), name) && Inside(state, thread, name)
    {
    }
  }

  lemma CountStep(config: Config, state: State, step: Step, name: Name)
    requires Enabled(config, state, step) && name in state.rows
    requires OneInside(state) && OneInside(Apply(config, state, step))
    ensures var after := Apply(config, state, step);
            && name in after.rows
            && after.rows[name].restartCount + AsNat(SomeAboutToReturnTrue(state, name))
               == state.rows[name].restartCount + AsNat(ReturnsTrue(state, step, name))
                  + AsNat(SomeAboutToReturnTrue(after, name))
  {
    if step.Advance? {
      CountAdvance(config, state, step.thread, step.luck, name);
    } else {
      var after := Apply(config, state, step);
      forall thread: ThreadId
        ensures || after.PcOf(thread) == state.PcOf(thread)
                || (!AboutToReturnTrue(state.PcOf(thread), name) && !AboutToReturnTrue(after.PcOf(thread), name))
      {
        if thread != Mover(step) {
          OthersStay(config, state, step, thread);
        }
      }
      SameAbout(state, after, name);
    }
  }

  lemma NobodyLeft(state: State, name: Name)
    requires GuardExact(state) && LockExact(state)
    ensures name !in state.active && state.lock.None? ==> !SomeAboutToReturnTrue(state, name)
  {
    forall thread | Inside(state, thread, name)
      ensures name in state.active || state.lock.Some?
    {
      assert Holds(state, thread, name) || InSection(state.PcOf(thread));
    }
  }

  /** `restart_count` grows by exactly the number of calls that returned True, plus one that is about to. */
  lemma {:induction false} CountMatchesTrueReturns(
      config: Config, states: seq<State>, steps: seq<Step>, i: nat, name: Name)
    requires IsRun(config, states, steps) && i < |states| && name in states[0].rows
    ensures name in states[i].rows
    ensures states[i].rows[name].restartCount
         == states[0].rows[name].restartCount + TrueReturns(config, states, steps, i, name)
            + AsNat(SomeAboutToReturnTrue(states[i], name))
    ensures name !in states[i].active && states[i].lock.None? ==> !SomeAboutToReturnTrue(states[i], name)
  {
    GuardIsExact(config, states, steps, i);
    LockIsExact(config, states, steps, i);
    NobodyLeft(states[i], name);
    if i > 0 {
      CountMatchesTrueReturns(config, states, steps, i - 1, name);
      AtMostOneInside(config, states, steps, i - 1);
      AtMostOneInside(config, states, steps, i);
      assert Follows(config, states, steps, i - 1);
      CountStep(config, states[i - 1], steps[i - 1], name);
    }
  }

  // ---------------------------------------------------------------- starts, and calls that are refused

  /** A call of the service whose container has started and that has not returned yet. */
  predicate HasStarted(pc: Pc, name: Name) {
    (pc.Counting? && pc.service == name) || AboutToReturnTrue(pc, name)
  }

  function Started(threads: map<ThreadId, Pc>, name: Name): set<ThreadId> {
    set thread | thread in threads && HasStarted(threads[thread], name)
  }

  /** The step in which Docker starts the container for a restart. */
  predicate Starts(state: State, step: Step, name: Name) {
    step.Advance? && step.luck && state.PcOf(step.thread).Starting? && state.PcOf(step.thread).service == name
  }

  ghost function StartsSoFar(config: Config, states: seq<State>, steps: seq<Step>, i: nat, name: Name): nat
    requires IsRun(config, states, steps) && i < |states|
  {
    if i == 0 then 0
    else StartsSoFar(config, states, steps, i - 1, name) + AsNat(Starts(states[i - 1], steps[i - 1], name))
  }

  lemma StartOfAStep(config: Config, pc: Pc, taken: bool, luck: bool, name: Name)
    requires !pc.Idle?
    ensures var next := Program(config, pc, taken, luck).next;
            AsNat(HasStarted(next, name)) + AsNat(pc.Dropped? && AboutToReturnTrue(pc, name))
            == AsNat(HasStarted(pc, name)) + AsNat(luck && pc.Starting? && pc.service == name)
  {
  }

  lemma StartedAfterMove(threads: map<ThreadId, Pc>, thread: ThreadId, pc: Pc, name: Name)
    ensures |Started(threads[thread := pc], name)| + AsNat(thread in threads && HasStarted(threads[thread], name))
         == |Started(threads, name)| + AsNat(HasStarted(pc, name))
  {
    var before, after := Started(threads, name), Started(threads[thread := pc], name);
    forall other | other != thread
      ensures other in before <==> other in after
    {
      assert other in threads[thread := pc] ==> threads[thread := pc][other] == threads[other];
    }
    OneMoves(before, after, thread);
  }

  lemma StartStep(config: Config, state: State, step: Step, name: Name)
    requires Enabled(config, state, step)
    ensures |Started(Apply(config, state, step).threads, name)| + AsNat(ReturnsTrue(state, step, name))
         == |Started(state.threads, name)| + AsNat(Starts(state, step, name))
  {
    match step
    case Advance(thread, luck) =>
      var pc := state.threads[thread];
      StartOfAStep(config, pc, pc.service in state.active, luck, name);
      StartedAfterMove(state.threads, thread, Program(config, pc, pc.service in state.active, luck).next, name);
    case DecideRestart(service) =>
      StartedAfterMove(state.threads, SCHEDULER_THREAD, Requested(Scheduler, service), name);
    case Call(thread, caller, service) => StartedAfterMove(state.threads, thread, Requested(caller, service), name);
    case _ =>
  }

  /**
   `restart_service` returns True exactly for the calls whose container Docker started: over every interleaving, the
   starts are the calls that returned True and those that are still on their way out.
   */
  lemma {:induction false} StartsAreReturned(
      config: Config, states: seq<State>, steps: seq<Step>, i: nat, name: Name)
    requires IsRun(config, states, steps) && i < |states|
    ensures StartsSoFar(config, states, steps, i, name)
         == TrueReturns(config, states, steps, i, name) + |Started(states[i].threads, name)|
  {
    if i > 0 {
      StartsAreReturned(config, states, steps, i - 1, name);
      assert Follows(config, states, steps, i - 1);
      StartStep(config, states[i - 1], steps[i - 1], name);
    } else {
      assert Started(states[0].threads, name) == {};
    }
  }

  /** With self-healing off, for an unknown service, or under policy never, there is nothing to restart. */
  predicate NothingToRestart(config: Config, name: Name) {
    !config.orchestratorHealing || name !in config.services || config.services[name].restart == Never
  }

  /** A request ends at once, and with False, exactly when there is nothing to restart; otherwise it takes the lock. */
  lemma RefusalIsExact(config: Config, states: seq<State>, steps: seq<Step>, i: nat)
    requires IsRun(config, states, steps) && i < |steps| && steps[i].Advance?
    requires states[i].PcOf(steps[i].thread).Requested?
    ensures var pc, next := states[i].PcOf(steps[i].thread), states[i + 1].PcOf(steps[i].thread);
            && (NothingToRestart(config, pc.service) <==> next == Returned(pc.caller, pc.service, NotRestarted))
            && (!NothingToRestart(config, pc.service) <==> next == Checking(pc.caller, pc.service))
            && (next.Checking? ==> states[i + 1].lock == Some(steps[i].thread))
            && states[i + 1].rows == states[i].rows && states[i + 1].active == states[i].active
  {
    assert Follows(config, states, steps, i);
  }

  ghost predicate OnlyRefused(state: State, name: Name) {
    forall thread | !state.PcOf(thread).Idle? && state.PcOf(thread).service == name ::
      state.PcOf(thread).Requested? || (state.PcOf(thread).Returned? && state.PcOf(thread).outcome == NotRestarted)
  }

  lemma OnlyRefusedStep(config: Config, state: State, step: Step, name: Name)
    requires Enabled(config, state, step) && NothingToRestart(config, name) && OnlyRefused(state, name)
    ensures OnlyRefused(Apply(config, state, step), name)
  {
    var after := Apply(config, state, step);
    forall thread: ThreadId | !after.PcOf(thread).Idle? && after.PcOf(thread).service == name
      ensures var pc := after.PcOf(thread);
              pc.Requested? || (pc.Returned? && pc.outcome == NotRestarted)
    {
      if thread != Mover(step) {
        OthersStay(config, state, step, thread);
      }
      if step.Advance? && step.thread == thread {
        var pc := state.PcOf(thread);
        assert pc.service == name ==> pc.Requested? || (pc.Returned? && pc.outcome == NotRestarted);
        RefusedNext(config, pc, pc.service in state.active, step.luck, name);
      } else {
        assert after.PcOf(thread) == state.PcOf(thread) || after.PcOf(thread).Requested?;
      }
    }
  }

  lemma RefusedNext(config: Config, pc: Pc, taken: bool, luck: bool, name: Name)
    requires !pc.Idle? && NothingToRestart(config, name)
    requires pc.service == name ==> pc.Requested? || (pc.Returned? && pc.outcome == NotRestarted)
    ensures var next := Program(config, pc, taken, luck).next;
            !next.Idle? && next.service == name ==> next == Returned(pc.caller, name, NotRestarted)
  {
  }

  /** A service with nothing to restart is never restarted: no call gets past the request and no container starts. */
  lemma {:induction false} RefusedIsNeverRestarted(
      config: Config, states: seq<State>, steps: seq<Step>, i: nat, name: Name)
    requires IsRun(config, states, steps) && i < |states| && NothingToRestart(config, name)
    ensures OnlyRefused(states[i], name) && name !in states[i].active
    ensures StartsSoFar(config, states, steps, i, name) == 0
  {
    if i > 0 {
      RefusedIsNeverRestarted(config, states, steps, i - 1, name);
      assert Follows(config, states, steps, i - 1);
      OnlyRefusedStep(config, states[i - 1], steps[i - 1], name);
    }
    GuardIsExact(config, states, steps, i);
    forall thread
      ensures !Holds(states[i], thread, name)
    {
    }
  }
}
