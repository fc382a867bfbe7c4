/**
 The health scheduler's pass (dockfleet/health/scheduler.py): results are recorded in completion order, then decisions
 are taken. The recording does not depend on that order, and a decision is a run of the machine of `SelfHealing`.
 */
module Scheduler {
  import opened Wrappers
  import opened ServiceRows
  import opened SelfHealing
  import opened Orchestrator

  type CheckResult = (Name, bool)

  /** The tables and the scheduler's two dictionaries. */
  datatype Memory = Memory(
    rows: map<Name, Service>,
    events: seq<RestartEvent>,
    attempts: map<Name, nat>,
    nextRestartAt: map<Name, real>)
  {
    function CycleOf(name: Name): Cycle {
      Cycle(if name in attempts then attempts[name] else 0,
            if name in nextRestartAt then Some(nextRestartAt[name]) else None)
    }

    function RowOf(name: Name): Option<Service> {
      if name in rows then Some(rows[name]) else None
    }
  }

  // ---------------------------------------------------------------- recording

  function Record(m: Memory, result: CheckResult): Memory {
    var (name, ok) := result;
    var forgotten := if ok then m.(attempts := m.attempts - {name}, nextRestartAt := m.nextRestartAt - {name}) else m;
    forgotten.(rows := Written(m.rows, name, WriteCheck(ok)))
  }

  function RecordAll(m: Memory, results: seq<CheckResult>): Memory {
    if results == [] then m else Record(RecordAll(m, results[..|results| - 1]), results[|results| - 1])
  }

  ghost predicate OneResultEach(results: seq<CheckResult>) {
    forall i, j | 0 <= i < j < |results| :: results[i].0 != results[j].0
  }

  /** What a row's own result makes of it. */
  function RowAfter(results: seq<CheckResult>, name: Name, svc: Service): Service {
    if (name, true) in results then Assign(WriteCheck(true), svc)
    else if (name, false) in results then Assign(WriteCheck(false), svc)
    else svc
  }

  /** A dictionary loses exactly the services that passed. */
  ghost predicate Forgets<V>(before: map<Name, V>, results: seq<CheckResult>, after: map<Name, V>) {
    && (forall name :: name in after <==> name in before && (name, true) !in results)
    && (forall name | name in after :: after[name] == before[name])
  }

  ghost predicate RowsRecorded(before: map<Name, Service>, results: seq<CheckResult>, after: map<Name, Service>) {
    && (forall name :: name in after <==> name in before)
    && (forall name | name in before :: after[name] == RowAfter(results, name, before[name]))
  }

  /** The recording phase service by service, without an order. */
  ghost predicate Recorded(before: Memory, results: seq<CheckResult>, after: Memory) {
    && RowsRecorded(before.rows, results, after.rows)
    && after.events == before.events
    && Forgets(before.attempts, results, after.attempts)
    && Forgets(before.nextRestartAt, results, after.nextRestartAt)
  }

  lemma NewName(results: seq<CheckResult>, result: CheckResult, ok: bool)
    requires OneResultEach(results + [result])
    ensures (result.0, ok) !in results
  {
    var all := results + [result];
    forall i | 0 <= i < |results|
      ensures results[i].0 != result.0
    {
      assert all[i].0 != all[|results|].0;
    }
  }

  lemma ForgetsOneMore<V>(before: map<Name, V>, results: seq<CheckResult>, middle: map<Name, V>, result: CheckResult)
    requires Forgets(before, results, middle)
    ensures Forgets(before, results + [result], if result.1 then middle - {result.0} else middle)
  {
    assert forall r: CheckResult :: r in results + [result] <==> r in results || r == result;
    assert result == (result.0, result.1);
  }

  lemma RowsOneMore(before: map<Name, Service>, results: seq<CheckResult>, middle: map<Name, Service>,
                    result: CheckResult)
    requires RowsRecorded(before, results, middle) && OneResultEach(results + [result])
    ensures RowsRecorded(before, results + [result], Written(middle, result.0, WriteCheck(result.1)))
  {
    var all, after := results + [result], Written(middle, result.0, WriteCheck(result.1));
    NewName(results, result, true);
    NewName(results, result, false);
    forall name | name in before
      ensures after[name] == RowAfter(all, name, before[name])
    {
      assert (name, true) in all <==> (name, true) in results || result == (name, true);
      assert (name, false) in all <==> (name, false) in results || result == (name, false);
      if name == result.0 {
        assert result == (name, result.1) && middle[name] == before[name];
      }
    }
  }

  lemma RecordedStep(before: Memory, results: seq<CheckResult>, middle: Memory, result: CheckResult)
    requires Recorded(before, results, middle) && OneResultEach(results + [result])
    ensures Recorded(before, results + [result], Record(middle, result))
  {
    RowsOneMore(before.rows, results, middle.rows, result);
    ForgetsOneMore(before.attempts, results, middle.attempts, result);
    ForgetsOneMore(before.nextRestartAt, results, middle.nextRestartAt, result);
  }

  lemma {:induction false} RecordAllIsRecorded(m: Memory, results: seq<CheckResult>)
    requires OneResultEach(results)
    ensures Recorded(m, results, RecordAll(m, results))
  {
    if results != [] {
      var rest, last := results[..|results| - 1], results[|results| - 1];
      assert results == rest + [last];
      RecordAllIsRecorded(m, rest);
      RecordedStep(m, rest, RecordAll(m, rest), last);
    }
  }

  lemma ForgetsTheSame<V>(before: map<Name, V>, results: seq<CheckResult>, reordered: seq<CheckResult>,
                          a: map<Name, V>, b: map<Name, V>)
    requires forall result: CheckResult :: result in results <==> result in reordered
    requires Forgets(before, results, a) && Forgets(before, reordered, b)
    ensures a == b
  {
  }

  lemma RowsTheSame(before: map<Name, Service>, results: seq<CheckResult>, reordered: seq<CheckResult>,
                    a: map<Name, Service>, b: map<Name, Service>)
    requires forall result: CheckResult :: result in results <==> result in reordered
    requires RowsRecorded(before, results, a) && RowsRecorded(before, reordered, b)
    ensures a == b
  {
    forall name | name in before
      ensures a[name] == b[name]
    {
      assert RowAfter(results, name, before[name]) == RowAfter(reordered, name, before[name]);
    }
  }

  /** Confluence: whatever order the concurrent checks complete in, the pass records the same rows and cycles. */
  lemma RecordingIsConfluent(m: Memory, results: seq<CheckResult>, reordered: seq<CheckResult>)
    requires OneResultEach(results) && OneResultEach(reordered)
    requires forall result: CheckResult :: result in results <==> result in reordered
    ensures RecordAll(m, results) == RecordAll(m, reordered)
  {
    RecordAllIsRecorded(m, results);
    RecordAllIsRecorded(m, reordered);
    var a, b := RecordAll(m, results), RecordAll(m, reordered);
    RowsTheSame(m.rows, results, reordered, a.rows, b.rows);
    ForgetsTheSame(m.attempts, results, reordered, a.attempts, b.attempts);
    ForgetsTheSame(m.nextRestartAt, results, reordered, a.nextRestartAt, b.nextRestartAt);
  }

  // ---------------------------------------------------------------- deciding

  const RESTART_REASON := "3_failed_health_checks"

  /** The memory between counting a restart and storing its event. */
  function Counted(m: Memory, name: Name, outcome: Outcome): Memory {
    if outcome.InProgress? then m
    else
      Memory(match outcome
             case Raised => Written(m.rows, name, WriteFailed("restart raised"))
             case Restarted => Written(m.rows, name, WriteSuccessful)
             case _ => m.rows,
             m.events,
             m.attempts[name := m.CycleOf(name).attempts + 1],
             m.nextRestartAt - {name})
  }

  /** What the scheduler does once its call for a restart has returned. */
  function Settled(m: Memory, name: Name, loaded: ContainerStatus, outcome: Outcome): Memory {
    var counted := Counted(m, name, outcome);
    if outcome.Restarted? then Stored(counted, name, loaded) else counted
  }

  /** The event has the status of the row as it is now; the one `loaded` for the decision only counts without a row. */
  function Stored(m: Memory, name: Name, loaded: ContainerStatus): Memory {
    var status := if name in m.rows then m.rows[name].status else loaded;
    m.(events := m.events + [RestartEvent(name, RESTART_REASON, status)])
  }

  /**
   Only a success stores an event, exactly one and of this service: with the reason in these words, and, as the row was
   marked first, with status running, unless there is no row.
   */
  lemma OnlySuccessIsStored(m: Memory, name: Name, loaded: ContainerStatus, outcome: Outcome)
    ensures Settled(m, name, loaded, outcome).events
         == m.events + if outcome.Restarted?
                       then [RestartEvent(name, "3_failed_health_checks", if name in m.rows then Running else loaded)]
                       else []
  {
    assert m.events + [] == m.events;
  }

  function Scheduled(m: Memory, name: Name, cycle: Cycle): Memory {
    if cycle.nextAt.Some? then m.(nextRestartAt := m.nextRestartAt[name := cycle.nextAt.value]) else m
  }

  /** One decision, with the clock's reading and Docker's answers, when nobody else is restarting services. */
  function PostHealth(config: Config, m: Memory, active: set<Name>, name: Name, now: real, waitRaises: bool,
                      starts: bool)
    : Memory
  {
    var (verdict, cycle) := Decide(config, name, m.RowOf(name), m.CycleOf(name), now);
    var waiting := Scheduled(m, name, cycle);
    if !verdict.Restart? then waiting
    else
      var outcome := CallOutcome(config, name, Caller.Scheduler, name in active, waitRaises, starts);
      Settled(waiting.(rows := CallRows(config, m.rows, active, name, waitRaises, starts)),
              name, m.rows[name].status, outcome)
  }

  function OneAttemptMore(attempts: map<Name, nat>, name: Name): map<Name, nat> {
    attempts[name := (if name in attempts then attempts[name] else 0) + 1]
  }

  lemma AttemptsOfACall(m: Memory, name: Name, loaded: ContainerStatus, outcome: Outcome)
    ensures Settled(m, name, loaded, outcome).attempts
         == if outcome.InProgress? then m.attempts else OneAttemptMore(m.attempts, name)
  {
  }

  lemma SchedulingCountsNothing(m: Memory, name: Name, cycle: Cycle, rows: map<Name, Service>)
    ensures Scheduled(m, name, cycle).(rows := rows).attempts == m.attempts
  {
  }

  /**
   A decision counts one attempt, and of this service only, exactly when it calls for a restart and the service is not
   being restarted already, or has nothing to restart.
   */
  lemma AttemptsCountedExactly(config: Config, m: Memory, active: set<Name>, name: Name, now: real, waitRaises: bool,
                               starts: bool)
    ensures var calls := Decide(config, name, m.RowOf(name), m.CycleOf(name), now).0 == Restart;
            PostHealth(config, m, active, name, now, waitRaises, starts).attempts
            == if calls && (name !in active || config.Refuses(name))
               then OneAttemptMore(m.attempts, name) else m.attempts
  {
    var (verdict, cycle) := Decide(config, name, m.RowOf(name), m.CycleOf(name), now);
    var rows := CallRows(config, m.rows, active, name, waitRaises, starts);
    var outcome := CallOutcome(config, name, Caller.Scheduler, name in active, waitRaises, starts);
    SchedulingCountsNothing(m, name, cycle, m.rows);
    SchedulingCountsNothing(m, name, cycle, rows);
    if verdict.Restart? {
      AttemptsOfACall(Scheduled(m, name, cycle).(rows := rows), name, m.rows[name].status, outcome);
      OutcomeIsExact(config, name, Caller.Scheduler, name in active, waitRaises, starts);
    }
  }

  /** The clock's reading and Docker's answers to one decision. */
  datatype Answer = Answer(now: real, waitRaises: bool, starts: bool)

  function DecideAll(config: Config, m: Memory, active: set<Name>, results: seq<CheckResult>, answers: seq<Answer>)
    : Memory
    requires |answers| == |results|
  {
    if results == [] then m
    else
      var n := |results| - 1;
      PostHealth(config, DecideAll(config, m, active, results[..n], answers[..n]), active, results[n].0,
                 answers[n].now, answers[n].waitRaises, answers[n].starts)
  }

  function EventNames(events: seq<RestartEvent>): multiset<Name> {
    if events == [] then multiset{}
    else EventNames(events[..|events| - 1]) + multiset{events[|events| - 1].service}
  }

  /** The machine state and the scheduler agree on the rows, the events and every recovery cycle. */
  ghost predicate Agrees(state: State, m: Memory) {
    && state.rows == m.rows
    && state.events == EventNames(m.events)
    && forall name :: state.CycleOf(name) == m.CycleOf(name)
  }

  lemma AgreesPointwise(state: State, m: Memory)
    requires state.rows == m.rows && state.events == EventNames(m.events)
    requires forall name :: state.CycleOf(name) == m.CycleOf(name)
    ensures Agrees(state, m)
  {
  }

  /** The write with which the scheduler answers an outcome. */
  function AnswerTo(outcome: Outcome): Write {
    match outcome
    case Raised => WriteFailed("restart raised")
    case Restarted => WriteSuccessful
    case _ => NoWrite
  }

  lemma EffectOfReturn(config: Config, name: Name, outcome: Outcome, taken: bool)
    ensures var effect := Program(config, Returned(Caller.Scheduler, name, outcome), taken, true);
            && effect.lock.Stay? && effect.guard.Keep? && effect.write == AnswerTo(outcome) && !effect.storesEvent
            && (effect.countsAttempt <==> !outcome.InProgress?)
            && effect.next == (if outcome.Restarted? then Recording(Caller.Scheduler, name) else Idle)
  {
  }

  lemma CountedCycles(now: State, last: State, m: Memory, name: Name, outcome: Outcome)
    requires Agrees(now, m) && !outcome.InProgress?
    requires last.cycles == now.cycles[name := Cycle(now.CycleOf(name).attempts + 1, None)]
    ensures forall other :: last.CycleOf(other) == Counted(m, name, outcome).CycleOf(other)
  {
    forall other
      ensures last.CycleOf(other) == Counted(m, name, outcome).CycleOf(other)
    {
      assert now.CycleOf(other) == m.CycleOf(other);
      assert now.CycleOf(name) == m.CycleOf(name);
    }
  }

  lemma CountedIsAStep(config: Config, now: State, m: Memory, name: Name, outcome: Outcome)
    requires now.PcOf(SCHEDULER_THREAD) == Returned(Caller.Scheduler, name, outcome) && Agrees(now, m)
    ensures var last := Advanced(config, now, SCHEDULER_THREAD, true);
            && Agrees(last, Counted(m, name, outcome))
            && last.PcOf(SCHEDULER_THREAD) == (if outcome.Restarted? then Recording(Caller.Scheduler, name) else Idle)
            && last.active == now.active && last.clock == now.clock && last.lock == now.lock
  {
    EffectOfReturn(config, name, outcome, name in now.active);
    CountedMoved(now, Program(config, now.PcOf(SCHEDULER_THREAD), name in now.active, true), m, name, outcome);
  }

  lemma CountedMoved(now: State, effect: Effect, m: Memory, name: Name, outcome: Outcome)
    requires now.PcOf(SCHEDULER_THREAD) == Returned(Caller.Scheduler, name, outcome) && Agrees(now, m)
    requires effect.write == AnswerTo(outcome) && !effect.storesEvent
    requires effect.countsAttempt <==> !outcome.InProgress?
    ensures Agrees(Moved(now, SCHEDULER_THREAD, effect), Counted(m, name, outcome))
  {
    var last, counted := Moved(now, SCHEDULER_THREAD, effect), Counted(m, name, outcome);
    assert last.rows == counted.rows;
    if !outcome.InProgress? {
      CountedCycles(now, last, m, name, outcome);
    } else {
      assert forall other :: last.CycleOf(other) == now.CycleOf(other);
    }
    AgreesPointwise(last, counted);
  }

  lemma EventAppended(events: seq<RestartEvent>, event: RestartEvent)
    ensures EventNames(events + [event]) == EventNames(events) + multiset{event.service}
  {
    assert (events + [event])[..|events + [event]| - 1] == events;
  }

  lemma StoredIsAStep(config: Config, now: State, m: Memory, name: Name, loaded: ContainerStatus)
    requires now.PcOf(SCHEDULER_THREAD) == Recording(Caller.Scheduler, name) && Agrees(now, m) && name in m.rows
    ensures var last := Advanced(config, now, SCHEDULER_THREAD, true);
            && Agrees(last, Stored(m, name, loaded))
            && last.PcOf(SCHEDULER_THREAD) == Idle
            && last.active == now.active && last.clock == now.clock && last.lock == now.lock
  {
    var last, stored := Advanced(config, now, SCHEDULER_THREAD, true), Stored(m, name, loaded);
    assert last.rows == now.rows == m.rows;
    EventAppended(m.events, RestartEvent(name, RESTART_REASON, m.rows[name].status));
    forall other
      ensures last.CycleOf(other) == stored.CycleOf(other)
    {
      assert now.CycleOf(other) == m.CycleOf(other);
    }
    AgreesPointwise(last, stored);
  }

  lemma RunsOn(config: Config, first: State, thread: ThreadId, luck: seq<bool>, now: State)
    requires RunAlone(config, first, thread, luck) == Some(now) && Enabled(config, now, Advance(thread, true))
    ensures RunAlone(config, first, thread, luck + [true]) == Some(Advanced(config, now, thread, true))
  {
    MovesOneMore(thread, luck, true);
    RunFromOneMore(config, first, Moves(thread, luck), now, Advance(thread, true));
  }

  /** The last step or steps of the scheduler's thread, from the return to the end. */
  lemma SettledIsARun(config: Config, first: State, m: Memory, name: Name, loaded: ContainerStatus, outcome: Outcome,
                      luck: seq<bool>, now: State)
    returns (steps: seq<bool>, last: State)
    requires RunAlone(config, first, SCHEDULER_THREAD, luck) == Some(now) && name in m.rows
    requires now.PcOf(SCHEDULER_THREAD) == Returned(Caller.Scheduler, name, outcome) && Agrees(now, m)
    ensures RunAlone(config, first, SCHEDULER_THREAD, steps) == Some(last)
    ensures last.PcOf(SCHEDULER_THREAD).Idle? && Agrees(last, Settled(m, name, loaded, outcome))
    ensures last.active == now.active && last.clock == now.clock && last.lock == now.lock
  {
    RunsOn(config, first, SCHEDULER_THREAD, luck, now);
    CountedIsAStep(config, now, m, name, outcome);
    steps, last := luck + [true], Advanced(config, now, SCHEDULER_THREAD, true);
    if outcome.Restarted? {
      RunsOn(config, first, SCHEDULER_THREAD, steps, last);
      StoredIsAStep(config, last, Counted(m, name, outcome), name, loaded);
      steps, last := steps + [true], Advanced(config, last, SCHEDULER_THREAD, true);
    }
  }

  /** A decision never changes the attempts, and sets the next attempt's time only when none is set. */
  lemma DecisionKeepsTheCycle(config: Config, name: Name, row: Option<Service>, cycle: Cycle, now: real)
    ensures var (_, decided) := Decide(config, name, row, cycle, now);
            decided.attempts == cycle.attempts && (cycle.nextAt.Some? ==> decided.nextAt == cycle.nextAt)
  {
  }

  lemma ScheduledAgrees(first: State, decided: State, m: Memory, name: Name, cycle: Cycle)
    requires Agrees(first, m)
    requires cycle.attempts == m.CycleOf(name).attempts
    requires m.CycleOf(name).nextAt.Some? ==> cycle.nextAt == m.CycleOf(name).nextAt
    requires decided.rows == first.rows && decided.events == first.events
        && decided.cycles == first.cycles[name := cycle]
    ensures Agrees(decided, Scheduled(m, name, cycle))
  {
    var scheduled := Scheduled(m, name, cycle);
    forall other
      ensures decided.CycleOf(other) == scheduled.CycleOf(other)
    {
      assert first.CycleOf(other) == m.CycleOf(other);
    }
    AgreesPointwise(decided, scheduled);
  }

  lemma DecidedIsAStep(config: Config, first: State, m: Memory, name: Name)
    requires first.PcOf(SCHEDULER_THREAD).Idle? && Agrees(first, m)
    ensures var (verdict, cycle) := Decide(config, name, m.RowOf(name), m.CycleOf(name), first.clock);
            var decided := Apply(config, first, DecideRestart(name));
            && Agrees(decided, Scheduled(m, name, cycle))
            && decided.PcOf(SCHEDULER_THREAD)
               == (if verdict.Restart? then Requested(Caller.Scheduler, name) else Idle)
            && decided.active == first.active && decided.clock == first.clock && decided.lock == first.lock
  {
    var (verdict, cycle) := Decide(config, name, m.RowOf(name), m.CycleOf(name), first.clock);
    assert first.RowOf(name) == m.RowOf(name) && first.CycleOf(name) == m.CycleOf(name);
    DecisionKeepsTheCycle(config, name, m.RowOf(name), m.CycleOf(name), first.clock);
    var decided := Apply(config, first, DecideRestart(name));
    ScheduledAgrees(first, decided, m, name, cycle);
  }

  lemma AgreesAfterCall(before: State, after: State, m: Memory, rows: map<Name, Service>)
    requires Agrees(before, m)
    requires after.rows == rows && after.events == before.events && after.cycles == before.cycles
    ensures Agrees(after, m.(rows := rows))
  {
    forall other
      ensures after.CycleOf(other) == m.(rows := rows).CycleOf(other)
    {
      assert before.CycleOf(other) == m.CycleOf(other);
    }
  }

  /**
   A decision and the call it may lead to, left alone, do in the machine exactly what they do to the tables and the
   dictionaries; afterwards the scheduler's thread is idle again.
   */
  lemma PostHealthIsARun(config: Config, first: State, m: Memory, name: Name, waitRaises: bool, starts: bool)
    returns (steps: seq<bool>, last: State)
    requires first.PcOf(SCHEDULER_THREAD).Idle? && first.lock.None? && Agrees(first, m)
    ensures RunAlone(config, Apply(config, first, DecideRestart(name)), SCHEDULER_THREAD, steps) == Some(last)
    ensures last.PcOf(SCHEDULER_THREAD).Idle?
    ensures Agrees(last, PostHealth(config, m, first.active, name, first.clock, waitRaises, starts))
    ensures last.active == first.active && last.clock == first.clock && last.lock.None?
  {
    DecidedIsAStep(config, first, m, name);
    var (verdict, cycle) := Decide(config, name, m.RowOf(name), m.CycleOf(name), first.clock);
    var decided, waiting := Apply(config, first, DecideRestart(name)), Scheduled(m, name, cycle);
    steps, last := [], decided;
    if verdict.Restart? {
      steps, last := UndisturbedCall(config, decided, SCHEDULER_THREAD, Caller.Scheduler, name, waitRaises, starts);
      var outcome := CallOutcome(config, name, Caller.Scheduler, name in first.active, waitRaises, starts);
      var rows := CallRows(config, m.rows, first.active, name, waitRaises, starts);
      AgreesAfterCall(decided, last, waiting, rows);
      var loaded := m.rows[name].status;
      steps, last := SettledIsARun(config, decided, waiting.(rows := rows), name, loaded, outcome, steps, last);
    }
  }

  /** A decision that leaves the cycle as it is leaves the dictionaries as they are. */
  lemma ScheduledAgain(m: Memory, name: Name)
    ensures Scheduled(m, name, m.CycleOf(name)) == m
  {
    if name in m.nextRestartAt {
      assert m.nextRestartAt[name := m.nextRestartAt[name]] == m.nextRestartAt;
    }
  }

  /** Whether a decision lets the restart go ahead, and what it leaves in the dictionaries. */
  function Backoff(config: Config, m: Memory, name: Name, now: real): (bool, Memory) {
    var (verdict, cycle) := Decide(config, name, m.RowOf(name), m.CycleOf(name), now);
    (verdict.Restart?, Scheduled(m, name, cycle))
  }

  lemma BackoffCases(config: Config, m: Memory, name: Name, now: real)
    requires Eligible(config, name, m.RowOf(name), m.CycleOf(name))
    ensures var service := config.services[name];
            Backoff(config, m, name, now) ==
            if service.backoffSeconds.None? then (true, m)
            else if name in m.nextRestartAt then (now >= m.nextRestartAt[name], m)
            else
              var delay := Delay(service, m.CycleOf(name).attempts);
              (!(delay > 0.0), m.(nextRestartAt := m.nextRestartAt[name := now + delay]))
  {
    ScheduledAgain(m, name);
  }

  // ---------------------------------------------------------------- the scheduler object

  class RecoveryScheduler {
    const config: Config
    const table: ServiceTable
    const engine: RestartEngine
    var restartAttempts: map<Name, nat>
    var nextRestartAt: map<Name, real>

    constructor (config: Config, engine: RestartEngine)
      requires engine.config == config
      ensures this.config == config && this.engine == engine && this.table == engine.table
      ensures restartAttempts == map[] && nextRestartAt == map[]
    {
      this.config := config;
      this.engine := engine;
      this.table := engine.table;
      restartAttempts := map[];
      nextRestartAt := map[];
    }

    ghost predicate Valid()
      reads this
    {
      engine.config == config && engine.table == table
    }

    function View(): Memory
      reads this, table
    {
      Memory(table.rows, table.events, restartAttempts, nextRestartAt)
    }

    /** The loop over the completed checks. */
    method RecordResults(results: seq<CheckResult>)
      requires Valid()
      modifies this, table`rows
      ensures Valid() && View() == RecordAll(old(View()), results)
    {
      for i := 0 to |results|
        invariant Valid() && View() == RecordAll(old(View()), results[..i])
      {
        assert results[..i + 1][..i] == results[..i];
        var (name, ok) := results[i];
        if ok {
          restartAttempts := restartAttempts - {name};
          nextRestartAt := nextRestartAt - {name};
        }
        table.UpdateServiceHealth(name, ok, if ok then None else Some("health check failed"));
      }
      assert results[..|results|] == results;
    }

    /** Self-healing switched on, a row that needs it, and budget left. */
    method PassesGates(name: Name) returns (eligible: bool)
      ensures eligible == Eligible(config, name, View().RowOf(name), View().CycleOf(name))
    {
      if name !in config.services {
        return false;
      }
      var service := config.services[name];
      var selfHealing := if service.selfHealing.Some? then service.selfHealing.value else config.selfHealing;
      if !selfHealing || name !in table.rows || !NeedsRestart(table.rows[name]) {
        return false;
      }
      var attempts := if name in restartAttempts then restartAttempts[name] else 0;
      return service.maxRestarts.None? || attempts < service.maxRestarts.value;
    }

    method BackoffElapsed(name: Name, now: real) returns (elapsed: bool)
      requires Eligible(config, name, View().RowOf(name), View().CycleOf(name))
      modifies this`nextRestartAt
      ensures (elapsed, View()) == Backoff(config, old(View()), name, now)
    {
      BackoffCases(config, View(), name, now);
      var service := config.services[name];
      if service.backoffSeconds.None? {
        return true;
      }
      var attempts := if name in restartAttempts then restartAttempts[name] else 0;
      if name !in nextRestartAt {
        var delay := Delay(service, attempts);
        nextRestartAt := nextRestartAt[name := now + delay];
        return !(delay > 0.0);
      }
      return now >= nextRestartAt[name];
    }

    /** The bookkeeping once `restart_service` has returned or raised. */
    method SettleCall(name: Name, loaded: ContainerStatus, outcome: Outcome)
      modifies this, table
      ensures View() == Settled(old(View()), name, loaded, outcome)
    {
      if outcome == InProgress {
        return;
      }
      CountAttempt(name);
      if outcome == Restarted {
        table.Write(name, MarkRestartSuccessful);
        table.RecordRestartEvent(name, loaded, RESTART_REASON);
        assert table.events == old(table.events) + [table.events[|old(table.events)|]];
      } else if outcome == Raised {
        table.Write(name, svc => MarkRestartFailed(svc, "restart raised"));
      }
    }

    method CountAttempt(name: Name)
      modifies this`restartAttempts, this`nextRestartAt
      ensures restartAttempts == old(restartAttempts)[name := old(View()).CycleOf(name).attempts + 1]
      ensures nextRestartAt == old(nextRestartAt) - {name}
    {
      var attempts := if name in restartAttempts then restartAttempts[name] else 0;
      restartAttempts := restartAttempts[name := attempts + 1];
      nextRestartAt := nextRestartAt - {name};
    }

    method HandlePostHealth(name: Name, now: real, waitRaises: bool, starts: bool)
      requires Valid()
      modifies this, table, engine`activeRestarts
      ensures Valid() && engine.activeRestarts == old(engine.activeRestarts)
      ensures View() == PostHealth(config, old(View()), old(engine.activeRestarts), name, now, waitRaises, starts)
    {
      var eligible := PassesGates(name);
      if !eligible {
        ScheduledAgain(View(), name);
        return;
      }
      var loaded := table.rows[name].status;
      var elapsed := BackoffElapsed(name, now);
      if !elapsed {
        return;
      }
      var outcome := engine.RestartService(name, Caller.Scheduler, waitRaises, starts);
      SettleCall(name, loaded, outcome);
    }

    /** A pass over the completed checks: every result is recorded before the first decision is taken. */
    method RecordAndDecide(results: seq<CheckResult>, answers: seq<Answer>)
      requires Valid() && |answers| == |results|
      modifies this, table, engine`activeRestarts
      ensures Valid() && engine.activeRestarts == old(engine.activeRestarts)
      ensures View() == DecideAll(config, RecordAll(old(View()), results), old(engine.activeRestarts), results, answers)
    {
      RecordResults(results);
      ghost var recorded := View();
      for i := 0 to |results|
        invariant Valid() && engine.activeRestarts == old(engine.activeRestarts)
        invariant View() == DecideAll(config, recorded, engine.activeRestarts, results[..i], answers[..i])
      {
        assert results[..i + 1][..i] == results[..i] && answers[..i + 1][..i] == answers[..i];
        HandlePostHealth(results[i].0, answers[i].now, answers[i].waitRaises, answers[i].starts);
      }
      assert results[..|results|] == results && answers[..|results|] == answers;
    }
  }
}
