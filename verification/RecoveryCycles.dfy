/**
 What the rows and the scheduler's memory mean, over every run of the self-healing engine: failure streaks, stopped
 services, the restart budget and the exponential backoff. Each quantity the code keeps is compared with a history
 defined on the run alone.
 */
module RecoveryCycles {
  import opened Wrappers
  import opened ServiceRows
  import opened SelfHealing

  // ---------------------------------------------------------------- failure streaks

  /** A check that passed, or a caller recording a restart that succeeded. */
  predicate EndsStreak(state: State, step: Step, name: Name) {
    || step == RecordCheck(name, true)
    || (&& step.Advance?
        && state.PcOf(step.thread).Returned?
        && state.PcOf(step.thread).service == name
        && state.PcOf(step.thread).outcome == Restarted)
  }

  /** A failed check of a service that is not stopped on purpose. */
  predicate ExtendsStreak(state: State, step: Step, name: Name) {
    step == RecordCheck(name, false) && name in state.rows && state.rows[name].status != Stopped
  }

  /** Failed checks counted since the last passing check or recorded restart (or since before the run). */
  ghost function Streak(config: Config, states: seq<State>, steps: seq<Step>, i: nat, name: Name): nat
    requires IsRun(config, states, steps) && i < |states| && name in states[0].rows
  {
    if i == 0 then states[0].rows[name].consecutiveFailures
    else if EndsStreak(states[i - 1], steps[i - 1], name) then 0
    else if ExtendsStreak(states[i - 1], steps[i - 1], name) then
      Streak(config, states, steps, i - 1, name) + 1
    else Streak(config, states, steps, i - 1, name)
  }

  /** What the health engine's own writes leave behind. */
  predicate UnhealthyIsEarly(svc: Service) {
    svc.health == Unhealthy ==> 1 <= svc.consecutiveFailures < CRASH_THRESHOLD
  }

  lemma StreakOfAWrite(write: Write, svc: Service)
    ensures UnhealthyIsEarly(svc) ==> UnhealthyIsEarly(Assign(write, svc))
    ensures Assign(write, svc).consecutiveFailures ==
            if write.WriteSuccessful? || write.WriteManual? || write == WriteCheck(true) then 0
            else if write == WriteCheck(false) && svc.status != Stopped then svc.consecutiveFailures + 1
            else svc.consecutiveFailures
  {
  }

  lemma WritesOfAReturn(config: Config, pc: Pc, taken: bool, luck: bool)
    requires !pc.Idle?
    ensures var write := Program(config, pc, taken, luck).write;
            && (write.WriteSuccessful? || write.WriteManual? <==> pc.Returned? && pc.outcome == Restarted)
            && !write.WriteCheck?
  {
  }

  lemma StreakAdvance(config: Config, state: State, mover: ThreadId, luck: bool, name: Name)
    requires !state.PcOf(mover).Idle? && name in state.rows
    ensures var after := Advanced(config, state, mover, luck);
            && name in after.rows
            && (UnhealthyIsEarly(state.rows[name]) ==> UnhealthyIsEarly(after.rows[name]))
            && after.rows[name].consecutiveFailures ==
               if EndsStreak(state, Advance(mover, luck), name) then 0 else state.rows[name].consecutiveFailures
  {
    var pc := state.threads[mover];
    WritesOfAReturn(config, pc, pc.service in state.active, luck);
    StreakOfAWrite(Program(config, pc, pc.service in state.active, luck).write, state.rows[name]);
  }

  lemma StreakStep(config: Config, state: State, step: Step, name: Name)
    requires Enabled(config, state, step) && name in state.rows
    ensures var after := Apply(config, state, step);
            && name in after.rows
            && (UnhealthyIsEarly(state.rows[name]) ==> UnhealthyIsEarly(after.rows[name]))
            && after.rows[name].consecutiveFailures ==
               if EndsStreak(state, step, name) then 0
               else if ExtendsStreak(state, step, name) then state.rows[name].consecutiveFailures + 1
               else state.rows[name].consecutiveFailures
  {
    if step.Advance? {
      StreakAdvance(config, state, step.thread, step.luck, name);
    } else if step.RecordCheck? {
      StreakOfAWrite(WriteCheck(step.isHealthy), state.rows[name]);
    }
  }

  /**
   `consecutive_failures` is the streak in every reachable state; UNHEALTHY means one or two failures, unless the run
   found a row that says otherwise.
   */
  lemma {:induction false} FailuresAreTheStreak(config: Config, states: seq<State>, steps: seq<Step>, i: nat,
                                                name: Name)
    requires IsRun(config, states, steps) && i < |states| && name in states[0].rows
    ensures name in states[i].rows
    ensures UnhealthyIsEarly(states[0].rows[name]) ==> UnhealthyIsEarly(states[i].rows[name])
    ensures states[i].rows[name].consecutiveFailures == Streak(config, states, steps, i, name)
  {
    if i > 0 {
      FailuresAreTheStreak(config, states, steps, i - 1, name);
      assert Follows(config, states, steps, i - 1);
      StreakStep(config, states[i - 1], steps[i - 1], name);
    }
  }

  /**
   `needs_restart`: exactly the crashed rows, not stopped, under an automatic policy, with a streak of three or more.
   */
  lemma NeedsRestartMeansCrashed(config: Config, states: seq<State>, steps: seq<Step>, i: nat, name: Name)
    requires IsRun(config, states, steps) && i < |states| && name in states[0].rows
    requires UnhealthyIsEarly(states[0].rows[name])
    ensures name in states[i].rows
    ensures var row := states[i].rows[name];
            NeedsRestart(row) <==>
              && row.health == Crashed && row.status != Stopped
              && NormalizedPolicy(row.restartPolicy) in {"always", "on-failure"}
              && Streak(config, states, steps, i, name) >= 3
  {
    FailuresAreTheStreak(config, states, steps, i, name);
  }

  // ---------------------------------------------------------------- the clock

  /** How much time the first steps let pass. */
  function Elapsed(steps: seq<Step>, i: nat): real
    requires i <= |steps|
  {
    if i == 0 then 0.0 else Elapsed(steps, i - 1) + if steps[i - 1].Tick? then steps[i - 1].elapsed else 0.0
  }

  lemma {:induction false} ClockTellsTheTime(config: Config, states: seq<State>, steps: seq<Step>, i: nat)
    requires IsRun(config, states, steps) && i < |states|
    ensures states[i].clock == states[0].clock + Elapsed(steps, i)
  {
    if i > 0 {
      ClockTellsTheTime(config, states, steps, i - 1);
      assert Follows(config, states, steps, i - 1);
    }
  }

  // ---------------------------------------------------------------- services stopped on purpose

  /** A start, a restart's outcome, or a manual restart being recorded. */
  predicate MayLeaveStopped(state: State, step: Step, name: Name) {
    || step == OperatorStart(name)
    || (&& step.Advance?
        && var pc := state.PcOf(step.thread);
           && (pc.Starting? || pc.Failing? || (pc.Returned? && pc.outcome in {Restarted, Raised}))
           && pc.service == name)
  }

  lemma StoppedStep(config: Config, state: State, step: Step, name: Name)
    requires Enabled(config, state, step) && name in state.rows && state.rows[name].status == Stopped
    requires !MayLeaveStopped(state, step, name)
    ensures var after := Apply(config, state, step);
            && name in after.rows && after.rows[name].status == Stopped
            && after.rows[name].consecutiveFailures <= state.rows[name].consecutiveFailures
  {
    if step.Advance? {
      var pc := state.threads[step.thread];
      if pc.service == name {
        QuietWhileStopped(config, pc, pc.service in state.active, step.luck, state.rows[name]);
      }
    }
  }

  lemma QuietWhileStopped(config: Config, pc: Pc, taken: bool, luck: bool, svc: Service)
    requires !pc.Idle? && !pc.Starting? && !pc.Failing? && !(pc.Returned? && pc.outcome in {Restarted, Raised})
    ensures var after := Assign(Program(config, pc, taken, luck).write, svc);
            after.status == svc.status && after.consecutiveFailures == svc.consecutiveFailures
  {
  }

  /**
   STOPPED is sticky: across any steps that are neither a start nor an outcome of a restart, with any check results, the
   row stays STOPPED and its failures do not grow.
   */
  lemma {:induction false} StoppedIsSticky(
      config: Config, states: seq<State>, steps: seq<Step>, from: nat, to: nat, name: Name)
    requires IsRun(config, states, steps) && from <= to < |states|
    requires name in states[from].rows && states[from].rows[name].status == Stopped
    requires forall j | from <= j < to :: !MayLeaveStopped(states[j], steps[j], name)
    ensures name in states[to].rows && states[to].rows[name].status == Stopped
    ensures states[to].rows[name].consecutiveFailures <= states[from].rows[name].consecutiveFailures
  {
    if from < to {
      StoppedIsSticky(config, states, steps, from, to - 1, name);
      assert Follows(config, states, steps, to - 1);
      StoppedStep(config, states[to - 1], steps[to - 1], name);
    }
  }

  // ---------------------------------------------------------------- recovery cycles

  /** The scheduler is told how a restart it called for ended, and it was not "already in progress". */
  predicate CountsCall(state: State, step: Step, name: Name) {
    && step.Advance?
    && var pc := state.PcOf(step.thread);
       pc.Returned? && pc.caller.Scheduler? && pc.outcome != InProgress && pc.service == name
  }

  predicate EligibleDecision(config: Config, state: State, step: Step, name: Name) {
    step == DecideRestart(name) && Eligible(config, name, state.RowOf(name), state.CycleOf(name))
  }

  /**
   What an observer of a run knows about one service since its last passing check: how many automatic restarts were
   counted, when the first eligible decision was taken, and when the first one after the last counted restart was.
   */
  datatype History = History(calls: nat, cycleStart: Option<real>, attemptStart: Option<real>)

  const NO_HISTORY := History(0, None, None)

  function OrElse(earlier: Option<real>, now: real): Option<real> {
    if earlier.Some? then earlier else Some(now)
  }

  function Observe(config: Config, state: State, step: Step, name: Name, h: History): History {
    if step == RecordCheck(name, true) then NO_HISTORY
    else if CountsCall(state, step, name) then History(h.calls + 1, h.cycleStart, None)
    else if EligibleDecision(config, state, step, name) then
      History(h.calls, OrElse(h.cycleStart, state.clock), OrElse(h.attemptStart, state.clock))
    else h
  }

  ghost function HistoryAt(config: Config, states: seq<State>, steps: seq<Step>, i: nat, name: Name): History
    requires i < |states| == |steps| + 1
  {
    if i == 0 then NO_HISTORY
    else Observe(config, states[i - 1], steps[i - 1], name, HistoryAt(config, states, steps, i - 1, name))
  }

  predicate BacksOff(config: Config, name: Name) {
    name in config.services && config.services[name].backoffSeconds.Some?
  }

  predicate HasBudget(config: Config, name: Name) {
    name in config.services && config.services[name].maxRestarts.Some?
  }

  /** The scheduler is inside a restart of the service it has not counted yet. */
  predicate Calling(state: State, name: Name) {
    var pc := state.PcOf(SCHEDULER_THREAD);
    !pc.Idle? && !pc.Recording? && pc.service == name
  }

  ghost predicate OnlyTheSchedulerSchedules(state: State) {
    forall thread | !state.PcOf(thread).Idle? :: state.PcOf(thread).caller.Scheduler? <==> thread == SCHEDULER_THREAD
  }

  lemma ProgramStaysOnItsService(config: Config, pc: Pc, taken: bool, luck: bool)
    requires !pc.Idle?
    ensures var effect := Program(config, pc, taken, luck);
            && (effect.next.Idle? || (effect.next.service == pc.service && effect.next.caller == pc.caller))
            && (effect.countsAttempt <==> pc.Returned? && pc.caller.Scheduler? && pc.outcome != InProgress)
            && (effect.countsAttempt ==> effect.next.Idle? || effect.next.Recording?)
            && (pc.Recording? ==> effect.next.Idle?)
  {
  }

  lemma SchedulerStep(config: Config, state: State, step: Step)
    requires Enabled(config, state, step) && OnlyTheSchedulerSchedules(state)
    ensures OnlyTheSchedulerSchedules(Apply(config, state, step))
  {
    var after := Apply(config, state, step);
    if step.Advance? {
      var pc := state.threads[step.thread];
      ProgramStaysOnItsService(config, pc, pc.service in state.active, step.luck);
    }
    forall thread | !after.PcOf(thread).Idle?
      ensures after.PcOf(thread).caller.Scheduler? <==> thread == SCHEDULER_THREAD
    {
      if !state.PcOf(thread).Idle? {
        assert state.PcOf(thread).caller.Scheduler? <==> thread == SCHEDULER_THREAD;
      }
      assert after.PcOf(thread) == state.PcOf(thread) || step.DecideRestart? || step.Call? || step.Advance?;
    }
  }

  /** The scheduler's memory is the history: the counter, and the schedule as start plus delay. */
  ghost predicate Remembers(config: Config, state: State, name: Name, h: History) {
    var cycle := state.CycleOf(name);
    && cycle.attempts == h.calls
    && (BacksOff(config, name) ==>
          && (cycle.nextAt.Some? <==> h.attemptStart.Some?)
          && (cycle.nextAt.Some? ==>
                cycle.nextAt.value == h.attemptStart.value + Delay(config.services[name], h.calls)))
  }

  lemma RemembersStep(config: Config, state: State, step: Step, name: Name, h: History)
    requires Enabled(config, state, step) && OnlyTheSchedulerSchedules(state) && Remembers(config, state, name, h)
    ensures Remembers(config, Apply(config, state, step), name, Observe(config, state, step, name, h))
  {
    if step.Advance? {
      RemembersAdvance(config, state, step.thread, step.luck, name, h);
    }
  }

  lemma RemembersAdvance(config: Config, state: State, mover: ThreadId, luck: bool, name: Name, h: History)
    requires !state.PcOf(mover).Idle? && Remembers(config, state, name, h)
    ensures Remembers(config, Advanced(config, state, mover, luck), name,
        Observe(config, state, Advance(mover, luck), name, h))
  {
    var pc := state.threads[mover];
    var effect := Program(config, pc, pc.service in state.active, luck);
    ProgramStaysOnItsService(config, pc, pc.service in state.active, luck);
    var after := Moved(state, mover, effect);
    assert after.CycleOf(name) == if effect.countsAttempt && pc.service == name
                                  then Cycle(state.CycleOf(name).attempts + 1, None) else state.CycleOf(name);
  }

  // ---------------------------------------------------------------- the restart budget

  ghost predicate WithinBudget(config: Config, state: State, name: Name, h: History) {
    HasBudget(config, name) ==>
      h.calls + (if Calling(state, name) then 1 else 0) <= config.services[name].maxRestarts.value
  }

  lemma BudgetStep(config: Config, state: State, step: Step, name: Name, h: History)
    requires Enabled(config, state, step) && OnlyTheSchedulerSchedules(state) && config.Valid()
    requires Remembers(config, state, name, h) && WithinBudget(config, state, name, h)
    ensures WithinBudget(config, Apply(config, state, step), name, Observe(config, state, step, name, h))
  {
    if step.Advance? {
      var pc := state.threads[step.thread];
      ProgramStaysOnItsService(config, pc, pc.service in state.active, step.luck);
    }
  }

  // ---------------------------------------------------------------- the backoff

  /**
   The backoff is exponential: the first delay is the configured one, and each counted restart multiplies it by the
   configured multiplier, or leaves it as it is when there is none.
   */
  lemma DelayIsExponential(service: ServiceConfig, attempts: nat)
    requires service.backoffSeconds.Some?
    ensures Delay(service, 0) == service.backoffSeconds.value
    ensures service.backoffMultiplier.Some? ==>
              Delay(service, attempts + 1) == service.backoffMultiplier.value * Delay(service, attempts)
    ensures service.backoffMultiplier.None? ==> Delay(service, attempts + 1) == Delay(service, attempts)
  {
    Regrouped(service.backoffSeconds.value, service.Multiplier(), RealPower(service.Multiplier(), attempts));
  }

  lemma Regrouped(a: real, b: real, c: real)
    ensures a * (b * c) == b * (a * c)
  {
    assert a * (b * c) == (a * b) * c == (b * a) * c;
  }

  /** The sum of the delays so far, by Horner's rule. */
  lemma {:induction false} GeometricIsHorner(ratio: real, n: nat)
    ensures Geometric(ratio, 0) == 0.0
    ensures Geometric(ratio, n + 1) == 1.0 + ratio * Geometric(ratio, n)
  {
    if n > 0 {
      GeometricIsHorner(ratio, n - 1);
      Distributes(ratio, Geometric(ratio, n - 1), RealPower(ratio, n - 1));
    }
  }

  lemma Distributes(a: real, b: real, c: real)
    ensures a * (b + c) == a * b + a * c
  {
  }

  /** 1 + m + ... + m^(n-1). */
  function Geometric(ratio: real, n: nat): real {
    if n == 0 then 0.0 else Geometric(ratio, n - 1) + RealPower(ratio, n - 1)
  }

  lemma {:induction false} GeometricIsAtLeastLinear(ratio: real, n: nat)
    requires ratio >= 1.0
    ensures RealPower(ratio, n) >= 1.0
    ensures Geometric(ratio, n) >= n as real
  {
    if n > 0 {
      GeometricIsAtLeastLinear(ratio, n - 1);
    }
  }

  /** The earliest time the n-th restart of a cycle may be called. */
  function EarliestCall(service: ServiceConfig, start: real, n: nat): real
    requires service.backoffSeconds.Some?
  {
    start + service.backoffSeconds.value * Geometric(service.Multiplier(), n)
  }

  lemma EarliestCallGrows(service: ServiceConfig, start: real, n: nat)
    requires service.backoffSeconds.Some?
    ensures EarliestCall(service, start, 0) == start
    ensures EarliestCall(service, start, n + 1) == EarliestCall(service, start, n) + Delay(service, n)
  {
    var b, g, p := service.backoffSeconds.value, Geometric(service.Multiplier(), n), RealPower(service.Multiplier(), n);
    assert b * (g + p) == b * g + b * p;
  }

  /** Neither the counted restarts, nor the one in flight, nor the attempt being timed were early. */
  ghost predicate OnSchedule(service: ServiceConfig, clock: real, calling: bool, h: History)
    requires service.backoffSeconds.Some?
  {
    && (h.attemptStart.Some? || h.calls > 0 || calling ==> h.cycleStart.Some?)
    && (h.cycleStart.Some? ==>
          var due := EarliestCall(service, h.cycleStart.value, h.calls);
          && clock >= due
          && (h.attemptStart.Some? ==> h.attemptStart.value >= due)
          && (calling ==> clock >= due + Delay(service, h.calls)))
  }

  /** The clock may pass and a call may end without breaking the schedule. */
  lemma OnScheduleLater(service: ServiceConfig, clock: real, calling: bool, later: real, still: bool, h: History)
    requires service.backoffSeconds.Some? && OnSchedule(service, clock, calling, h)
    requires later >= clock && (still ==> calling)
    ensures OnSchedule(service, later, still, h)
  {
  }

  lemma OnScheduleAfterCount(service: ServiceConfig, clock: real, h: History)
    requires service.backoffSeconds.Some? && OnSchedule(service, clock, true, h)
    ensures OnSchedule(service, clock, false, History(h.calls + 1, h.cycleStart, None))
  {
    EarliestCallGrows(service, h.cycleStart.value, h.calls);
  }

  lemma OnScheduleAfterDecision(service: ServiceConfig, clock: real, calling: bool, h: History)
    requires service.backoffSeconds.Some? && OnSchedule(service, clock, false, h)
    requires calling ==> clock >= OrElse(h.attemptStart, clock).value + Delay(service, h.calls)
    ensures OnSchedule(service, clock, calling,
        History(h.calls, OrElse(h.cycleStart, clock), OrElse(h.attemptStart, clock)))
  {
    EarliestCallGrows(service, OrElse(h.cycleStart, clock).value, h.calls);
  }

  /** A decision calls for a restart exactly when the gates are open and the backoff of the attempt has elapsed. */
  predicate CallsNow(config: Config, state: State, name: Name, h: History) {
    && name in config.services
    && (match config.services[name].selfHealing
        case Some(on) => on
        case None => config.selfHealing)
    && name in state.rows && NeedsRestart(state.rows[name])
    && (HasBudget(config, name) ==> h.calls < config.services[name].maxRestarts.value)
    && (BacksOff(config, name) ==>
          state.clock >= OrElse(h.attemptStart, state.clock).value + Delay(config.services[name], h.calls))
  }

  lemma DecisionStep(config: Config, state: State, name: Name, h: History)
    requires Enabled(config, state, DecideRestart(name)) && Remembers(config, state, name, h)
    ensures Calling(Apply(config, state, DecideRestart(name)), name) <==> CallsNow(config, state, name, h)
  {
  }

  lemma ScheduleStep(config: Config, state: State, step: Step, name: Name, h: History)
    requires Enabled(config, state, step) && OnlyTheSchedulerSchedules(state)
    requires Remembers(config, state, name, h) && BacksOff(config, name)
    requires OnSchedule(config.services[name], state.clock, Calling(state, name), h)
    ensures var after := Apply(config, state, step);
            OnSchedule(config.services[name], after.clock, Calling(after, name), Observe(config, state, step, name, h))
  {
    var service, after := config.services[name], Apply(config, state, step);
    if step == DecideRestart(name) {
      DecisionStep(config, state, name, h);
      if EligibleDecision(config, state, step, name) {
        OnScheduleAfterDecision(service, state.clock, Calling(after, name), h);
      }
    } else if step.Advance? {
      var pc := state.threads[step.thread];
      ProgramStaysOnItsService(config, pc, pc.service in state.active, step.luck);
      if CountsCall(state, step, name) {
        OnScheduleAfterCount(service, state.clock, h);
      } else {
        OnScheduleLater(service, state.clock, Calling(state, name), after.clock, Calling(after, name), h);
      }
    } else if step == RecordCheck(name, true) {
      assert !Calling(after, name);
    } else {
      OnScheduleLater(service, state.clock, Calling(state, name), after.clock, Calling(after, name), h);
    }
  }

  // ---------------------------------------------------------------- over every run

  ghost predicate Tracked(config: Config, state: State, name: Name, h: History) {
    && OnlyTheSchedulerSchedules(state)
    && Remembers(config, state, name, h)
    && WithinBudget(config, state, name, h)
    && (BacksOff(config, name) ==> OnSchedule(config.services[name], state.clock, Calling(state, name), h))
  }

  lemma TrackedStep(config: Config, state: State, step: Step, name: Name, h: History)
    requires Enabled(config, state, step) && config.Valid() && Tracked(config, state, name, h)
    ensures Tracked(config, Apply(config, state, step), name, Observe(config, state, step, name, h))
  {
    SchedulerStep(config, state, step);
    RemembersStep(config, state, step, name, h);
    BudgetStep(config, state, step, name, h);
    if BacksOff(config, name) {
      ScheduleStep(config, state, step, name, h);
    }
  }

  lemma {:induction false} AlwaysTracked(config: Config, states: seq<State>, steps: seq<Step>, i: nat, name: Name)
    requires IsRun(config, states, steps) && i < |states| && config.Valid()
    ensures Tracked(config, states[i], name, HistoryAt(config, states, steps, i, name))
  {
    if i > 0 {
      AlwaysTracked(config, states, steps, i - 1, name);
      assert Follows(config, states, steps, i - 1);
      TrackedStep(config, states[i - 1], steps[i - 1], name, HistoryAt(config, states, steps, i - 1, name));
    }
  }

  /** The budget: automatic restarts since the last passing check never exceed `max_restarts`. */
  lemma RestartBudget(config: Config, states: seq<State>, steps: seq<Step>, i: nat, name: Name)
    requires IsRun(config, states, steps) && i < |states| && config.Valid() && HasBudget(config, name)
    ensures HistoryAt(config, states, steps, i, name).calls <= config.services[name].maxRestarts.value
  {
    AlwaysTracked(config, states, steps, i, name);
  }

  /**
   Exactly when a decision calls for a restart: self-healing on, a row that needs it, budget left and, with a backoff,
   at least b * m^k since the first eligible decision after the k-th counted restart (which may be this decision).
   */
  lemma DecisionIsExact(config: Config, states: seq<State>, steps: seq<Step>, i: nat, name: Name)
    requires IsRun(config, states, steps) && i < |steps| && config.Valid() && steps[i] == DecideRestart(name)
    ensures Calling(states[i + 1], name)
       <==> CallsNow(config, states[i], name, HistoryAt(config, states, steps, i, name))
  {
    assert Follows(config, states, steps, i);
    AlwaysTracked(config, states, steps, i, name);
    DecisionStep(config, states[i], name, HistoryAt(config, states, steps, i, name));
  }

  /** The time it takes when every backoff is the first one. */
  function LinearCall(service: ServiceConfig, start: real, n: nat): real
    requires service.backoffSeconds.Some?
  {
    start + service.backoffSeconds.value * n as real
  }

  lemma EarliestCallIsLinear(service: ServiceConfig, start: real, n: nat)
    requires service.Valid() && service.backoffSeconds.Some?
    ensures EarliestCall(service, start, n) >= LinearCall(service, start, n)
  {
    GeometricIsAtLeastLinear(service.Multiplier(), n);
    var b, g := service.backoffSeconds.value, Geometric(service.Multiplier(), n);
    assert b * (g - n as real) >= 0.0;
  }

  /** The call was made at least b * (1 + m + ... + m^(n-1)), hence n * b, after the cycle began. */
  ghost predicate NotEarly(service: ServiceConfig, clock: real, start: Option<real>, n: nat)
    requires service.backoffSeconds.Some?
  {
    && start.Some?
    && clock >= EarliestCall(service, start.value, n)
    && EarliestCall(service, start.value, n) >= LinearCall(service, start.value, n)
  }

  lemma CallIsNotEarly(service: ServiceConfig, clock: real, h: History)
    requires service.Valid() && service.backoffSeconds.Some? && OnSchedule(service, clock, true, h)
    ensures NotEarly(service, clock, h.cycleStart, h.calls + 1)
  {
    EarliestCallGrows(service, h.cycleStart.value, h.calls);
    EarliestCallIsLinear(service, h.cycleStart.value, h.calls + 1);
  }

  /**
   The geometric bound: the n-th counted restart of a recovery cycle is called no earlier than
   b * (1 + m + ... + m^(n-1)) after the cycle's first restart-eligible decision, hence no earlier than n * b.
   It holds at the call and as long as the scheduler is inside it.
   */
  lemma GeometricBackoff(config: Config, states: seq<State>, steps: seq<Step>, i: nat, name: Name)
    requires IsRun(config, states, steps) && i < |states| && config.Valid() && BacksOff(config, name)
    requires Calling(states[i], name)
    ensures var h := HistoryAt(config, states, steps, i, name);
            NotEarly(config.services[name], states[i].clock, h.cycleStart, h.calls + 1)
  {
    AlwaysTracked(config, states, steps, i, name);
    CallIsNotEarly(config.services[name], states[i].clock, HistoryAt(config, states, steps, i, name));
  }
}
