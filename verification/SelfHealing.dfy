/**
 The self-healing engine as a state machine: the health scheduler's records and decisions
 (dockfleet/health/scheduler.py), the restart program every caller runs (dockfleet/core/orchestrator.py) and the
 operator's own actions, interleaved at database sessions and at the two critical sections of the restart lock.

 A thread is a call in flight and its program counter. Docker, the clock and the health checks are nondeterministic:
 their outcomes are arguments of the steps.
 */
module SelfHealing {
  import opened Wrappers
  import opened ServiceRows

  type ThreadId = nat

  /** The scheduler's own thread; every other number is a dashboard request or a monitor. */
  const SCHEDULER_THREAD: ThreadId := 0

  datatype RestartPolicy = Always | OnFailure | Never

  datatype ServiceConfig = ServiceConfig(
    restart: RestartPolicy,
    selfHealing: Option<bool>,
    maxRestarts: Option<nat>,
    backoffSeconds: Option<real>,
    backoffMultiplier: Option<real>)
  {
    /** The field validators of the configuration. */
    predicate Valid() {
      && (maxRestarts.Some? ==> maxRestarts.value > 0)
      && (backoffSeconds.Some? ==> backoffSeconds.value >= 0.0)
      && (backoffMultiplier.Some? ==> backoffMultiplier.value >= 1.0)
    }

    function Multiplier(): real {
      if backoffMultiplier.Some? then backoffMultiplier.value else 1.0
    }
  }

  /** `orchestratorHealing` is the orchestrator's switch, `selfHealing` the default of the configuration file. */
  datatype Config = Config(orchestratorHealing: bool, selfHealing: bool, services: map<Name, ServiceConfig>) {
    predicate Valid() {
      forall name | name in services :: services[name].Valid()
    }

    predicate Heals(name: Name) {
      && name in services
      && (if services[name].selfHealing.Some? then services[name].selfHealing.value else selfHealing)
    }

    /** The early exits of `restart_service`: nothing to restart. */
    predicate Refuses(name: Name) {
      || !orchestratorHealing
      || name !in services
      || services[name].restart == Never
    }
  }

  // ---------------------------------------------------------------- the scheduler's decision

  function RealPower(base: real, exponent: nat): real {
    if exponent == 0 then 1.0 else base * RealPower(base, exponent - 1)
  }

  /** A service's recovery cycle as the scheduler keeps it in memory. */
  datatype Cycle = Cycle(attempts: nat, nextAt: Option<real>)

  const FRESH_CYCLE := Cycle(0, None)

  /** What one decision does: nothing, or wait for the backoff, or call `restart_service`. */
  datatype Verdict = Skip | Wait | Restart

  /** The gates a decision passes before it looks at the clock. */
  predicate Eligible(config: Config, name: Name, row: Option<Service>, cycle: Cycle) {
    && config.Heals(name)
    && row.Some?
    && NeedsRestart(row.value)
    && !(config.services[name].maxRestarts.Some? && cycle.attempts >= config.services[name].maxRestarts.value)
  }

  /** The backoff before the restart that follows `attempts` counted ones. */
  function Delay(service: ServiceConfig, attempts: nat): real
    requires service.backoffSeconds.Some?
  {
    service.backoffSeconds.value * RealPower(service.Multiplier(), attempts)
  }

  function Decide(config: Config, name: Name, row: Option<Service>, cycle: Cycle, now: real): (Verdict, Cycle) {
    if !Eligible(config, name, row, cycle) then (Skip, cycle)
    else
      var service := config.services[name];
      if service.backoffSeconds.None? then (Restart, cycle)
      else
        var delay := Delay(service, cycle.attempts);
        if cycle.nextAt.None? then
          (if delay > 0.0 then Wait else Restart, cycle.(nextAt := Some(now + delay)))
        else if now < cycle.nextAt.value then (Wait, cycle)
        else (Restart, cycle)
  }

  // ---------------------------------------------------------------- the restart program

  datatype Caller = Scheduler | Monitor | Dashboard

  /** How `restart_service` ends. */
  datatype Outcome = Restarted | NotRestarted | InProgress | Raised

  /**
   What a call does next. `Requested` and `Leaving` wait for the restart lock; a call has the lock from `Checking` to
   `Admitted` or `Declining`, and again at `Discarding` and `Dropped`. `Clearing` removes the old container, where
   errors are swallowed, and waits for its ports, which may raise.
   */
  datatype Pc =
    | Idle
    | Requested(caller: Caller, service: Name)
    | Checking(caller: Caller, service: Name)
    | Declining(caller: Caller, service: Name)
    | Admitted(caller: Caller, service: Name)
    | Entered(caller: Caller, service: Name)
    | Clearing(caller: Caller, service: Name)
    | Starting(caller: Caller, service: Name)
    | Counting(caller: Caller, service: Name)
    | Failing(caller: Caller, service: Name)
    | Raising(caller: Caller, service: Name)
    | Leaving(caller: Caller, service: Name, outcome: Outcome)
    | Discarding(caller: Caller, service: Name, outcome: Outcome)
    | Dropped(caller: Caller, service: Name, outcome: Outcome)
    | Returned(caller: Caller, service: Name, outcome: Outcome)
    | Recording(caller: Caller, service: Name)

  /** The one row a step assigns, if any. */
  datatype Write =
    | NoWrite
    | WriteCheck(isHealthy: bool)
    | WriteRunning
    | WriteStopped
    | WriteRestarting
    | WriteFailed(reason: string)
    | WriteInterrupted
    | WriteCount
    | WriteSuccessful
    | WriteManual

  function Assign(write: Write, svc: Service): Service {
    match write
    case NoWrite => svc
    case WriteCheck(isHealthy) => UpdateHealth(svc, isHealthy, if isHealthy then None else Some("health check failed"))
    case WriteRunning => MarkRunning(svc)
    case WriteStopped => MarkStopped(svc)
    case WriteRestarting => MarkRestarting(svc)
    case WriteFailed(reason) => MarkRestartFailed(svc, reason)
    case WriteInterrupted => MarkInterrupted(svc)
    case WriteCount => CountRestart(svc)
    case WriteSuccessful => MarkRestartSuccessful(svc)
    case WriteManual => MarkManualRestart(svc)
  }

  datatype GuardMove = Keep | Add | Discard

  datatype LockMove = Stay | Take | Free

  /** One atomic step of a call: its next program counter and what it does to the shared state. */
  datatype Effect = Effect(next: Pc, lock: LockMove, guard: GuardMove, write: Write, storesEvent: bool,
                           countsAttempt: bool)

  function Quiet(next: Pc): Effect {
    Effect(next, Stay, Keep, NoWrite, false, false)
  }

  function Locks(next: Pc): Effect {
    Quiet(next).(lock := Take)
  }

  function Unlocks(next: Pc): Effect {
    Quiet(next).(lock := Free)
  }

  function Writes(next: Pc, write: Write): Effect {
    Quiet(next).(write := write)
  }

  /**
   The program of a call: `restart_service`, then what its caller does with the outcome. `taken` tells whether the
   service is in the guard set, `luck` how the world answers: waiting for the ports raises without it, starting fails
   without it.
   */
  function Program(config: Config, pc: Pc, taken: bool, luck: bool): Effect
    requires !pc.Idle?
  {
    match pc
    case Requested(caller, name) =>
      if config.Refuses(name) then Quiet(Returned(caller, name, NotRestarted)) else Locks(Checking(caller, name))
    case Checking(caller, name) =>
      if taken then Quiet(Declining(caller, name)) else Quiet(Admitted(caller, name)).(guard := Add)
    case Declining(caller, name) =>
      Unlocks(Returned(caller, name, if caller.Scheduler? then InProgress else NotRestarted))
    case Admitted(caller, name) => Unlocks(Entered(caller, name))
    case Entered(caller, name) => Writes(Clearing(caller, name), WriteRestarting)
    case Clearing(caller, name) => Quiet(if luck then Starting(caller, name) else Raising(caller, name))
    case Starting(caller, name) =>
      if luck then Writes(Counting(caller, name), WriteRunning) else Quiet(Failing(caller, name))
    case Counting(caller, name) => Writes(Leaving(caller, name, Restarted), WriteCount)
    case Failing(caller, name) =>
      Writes(Leaving(caller, name, NotRestarted), WriteFailed("start_service returned False"))
    case Raising(caller, name) => Writes(Leaving(caller, name, Raised), WriteInterrupted)
    case Leaving(caller, name, outcome) => Locks(Discarding(caller, name, outcome))
    case Discarding(caller, name, outcome) => Quiet(Dropped(caller, name, outcome)).(guard := Discard)
    case Dropped(caller, name, outcome) => Unlocks(Returned(caller, name, outcome))
    case Returned(caller, name, outcome) =>
      if caller.Dashboard? then
        if outcome.Restarted? then Writes(Idle, WriteManual).(storesEvent := true) else Quiet(Idle)
      else
        var counts := caller.Scheduler? && !outcome.InProgress?;
        (match outcome
         case InProgress => Quiet(Idle)
         case NotRestarted => Quiet(Idle).(countsAttempt := counts)
         case Raised => Writes(Idle, WriteFailed("restart raised")).(countsAttempt := counts)
         case Restarted => Writes(Recording(caller, name), WriteSuccessful).(countsAttempt := counts))
    case Recording(_, _) => Quiet(Idle).(storesEvent := true)
  }

  /** The call waits for the restart lock. */
  predicate Waits(config: Config, pc: Pc) {
    (pc.Requested? && !config.Refuses(pc.service)) || pc.Leaving?
  }

  /** The call is inside one of the two sections under the restart lock. */
  predicate InSection(pc: Pc) {
    pc.Checking? || pc.Declining? || pc.Admitted? || pc.Discarding? || pc.Dropped?
  }

  /** From entering the guard set to leaving it: a restart of the service is in flight. */
  predicate InFlight(pc: Pc, name: Name) {
    && !pc.Idle? && pc.service == name
    && !pc.Requested? && !pc.Checking? && !pc.Declining? && !pc.Dropped? && !pc.Returned? && !pc.Recording?
  }

  /** On the way out of `restart_service`, with its outcome decided. */
  predicate OnTheWayOut(pc: Pc) {
    pc.Leaving? || pc.Discarding? || pc.Dropped?
  }

  /** Between writing RESTARTING and overwriting it. */
  predicate ShowsRestarting(pc: Pc, name: Name) {
    (pc.Clearing? || pc.Starting? || pc.Failing? || pc.Raising?) && pc.service == name
  }

  /** `restart_service` has restarted the container, and its caller has not stored the event yet. */
  predicate OwesEvent(pc: Pc, name: Name) {
    && (pc.Recording? || ((OnTheWayOut(pc) || pc.Returned?) && pc.outcome == Restarted))
    && pc.service == name
  }

  // ---------------------------------------------------------------- states and steps

  datatype State = State(
    rows: map<Name, Service>,
    events: multiset<Name>,
    active: set<Name>,
    lock: Option<ThreadId>,
    threads: map<ThreadId, Pc>,
    cycles: map<Name, Cycle>,
    clock: real)
  {
    function PcOf(thread: ThreadId): Pc {
      if thread in threads then threads[thread] else Idle
    }

    function CycleOf(name: Name): Cycle {
      if name in cycles then cycles[name] else FRESH_CYCLE
    }

    function RowOf(name: Name): Option<Service> {
      if name in rows then Some(rows[name]) else None
    }

    /** One session that assigns one row. */
    function RowsAfter(name: Name, write: Write): map<Name, Service> {
      if name in rows then rows[name := Assign(write, rows[name])] else rows
    }
  }

  datatype Step =
    | Tick(elapsed: real)
    | RecordCheck(name: Name, isHealthy: bool)
    | DecideRestart(name: Name)
    | Call(thread: ThreadId, caller: Caller, name: Name)
    | Advance(thread: ThreadId, luck: bool)
    | OperatorStart(name: Name)
    | OperatorStop(name: Name)

  /**
   The scheduler records and decides on its own thread, so not while that thread is inside a restart; a call that waits
   for the restart lock moves only while the lock is free.
   */
  predicate Enabled(config: Config, state: State, step: Step) {
    match step
    case Tick(elapsed) => elapsed >= 0.0
    case RecordCheck(_, _) => state.PcOf(SCHEDULER_THREAD).Idle?
    case DecideRestart(_) => state.PcOf(SCHEDULER_THREAD).Idle?
    case Call(thread, caller, _) => thread != SCHEDULER_THREAD && state.PcOf(thread).Idle? && !caller.Scheduler?
    case Advance(thread, _) => !state.PcOf(thread).Idle? && (Waits(config, state.PcOf(thread)) ==> state.lock.None?)
    case OperatorStart(_) => true
    case OperatorStop(_) => true
  }

  function Apply(config: Config, state: State, step: Step): State
    requires Enabled(config, state, step)
  {
    match step
    case Tick(elapsed) => state.(clock := state.clock + elapsed)
    case RecordCheck(name, isHealthy) =>
      state.(cycles := if isHealthy then state.cycles[name := FRESH_CYCLE] else state.cycles,
             rows := state.RowsAfter(name, WriteCheck(isHealthy)))
    case DecideRestart(name) =>
      var (verdict, cycle) := Decide(config, name, state.RowOf(name), state.CycleOf(name), state.clock);
      state.(cycles := state.cycles[name := cycle],
             threads := if verdict.Restart? then state.threads[SCHEDULER_THREAD := Requested(Scheduler, name)]
                        else state.threads)
    case Call(thread, caller, name) => state.(threads := state.threads[thread := Requested(caller, name)])
    case Advance(thread, luck) => Advanced(config, state, thread, luck)
    case OperatorStart(name) => state.(rows := state.RowsAfter(name, WriteRunning))
    case OperatorStop(name) => state.(rows := state.RowsAfter(name, WriteStopped))
  }

  function Advanced(config: Config, state: State, thread: ThreadId, luck: bool): State
    requires !state.PcOf(thread).Idle?
  {
    var pc := state.threads[thread];
    Moved(state, thread, Program(config, pc, pc.service in state.active, luck))
  }

  /** What one step of a call does to the shared state. */
  function Moved(state: State, thread: ThreadId, effect: Effect): State
    requires !state.PcOf(thread).Idle?
  {
    var name := state.threads[thread].service;
    state.(
      rows := state.RowsAfter(name, effect.write),
      events := if effect.storesEvent && name in state.rows then state.events + multiset{name} else state.events,
      active := match effect.guard
                case Keep => state.active
                case Add => state.active + {name}
                case Discard => state.active - {name},
      lock := match effect.lock
              case Stay => state.lock
              case Take => Some(thread)
              case Free => None,
      threads := state.threads[thread := effect.next],
      cycles := if effect.countsAttempt
                then state.cycles[name := Cycle(state.CycleOf(name).attempts + 1, None)]
                else state.cycles)
  }

  // ---------------------------------------------------------------- runs

  /** No call in flight and fresh memory: what a new process finds, whatever an earlier one left in the tables. */
  ghost predicate Initial(state: State) {
    state.active == {} && state.lock == None && state.threads == map[] && state.cycles == map[]
  }

  /** The `i`-th step could be taken, and led to the next state. */
  ghost predicate Follows(config: Config, states: seq<State>, steps: seq<Step>, i: nat)
    requires i < |steps| && |states| == |steps| + 1
  {
    Enabled(config, states[i], steps[i]) && states[i + 1] == Apply(config, states[i], steps[i])
  }

  /** A run: |steps| steps through |steps| + 1 states. */
  ghost predicate IsRun(config: Config, states: seq<State>, steps: seq<Step>) {
    && |states| == |steps| + 1
    && Initial(states[0])
    && forall i: nat | i < |steps| :: Follows(config, states, steps, i)
  }

  function Next(config: Config, state: State, step: Step): Option<State> {
    if Enabled(config, state, step) then Some(Apply(config, state, step)) else None
  }

  /** The state the steps lead to, if each of them can be taken. */
  function RunFrom(config: Config, state: State, steps: seq<Step>): Option<State> {
    Fold((now: State, step: Step) => Next(config, now, step), state, steps)
  }

  lemma RunFromOneMore(config: Config, state: State, steps: seq<Step>, now: State, step: Step)
    requires RunFrom(config, state, steps) == Some(now) && Enabled(config, now, step)
    ensures RunFrom(config, state, steps + [step]) == Some(Apply(config, now, step))
  {
    assert (steps + [step])[..|steps|] == steps;
  }

  lemma RunFromThen(config: Config, state: State, steps: seq<Step>, now: State, more: seq<Step>)
    requires RunFrom(config, state, steps) == Some(now)
    ensures RunFrom(config, state, steps + more) == RunFrom(config, now, more)
  {
    FoldThen((now: State, step: Step) => Next(config, now, step), state, steps, now, more);
  }
}
