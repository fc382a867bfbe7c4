/**
 A whole pass of the health scheduler (dockfleet/health/scheduler.py, `run_single_pass`) as a run of the machine of
 `SelfHealing`: recorded checks, then decisions with the calls they lead to. So what holds of every run of the machine
 holds of the scheduler object after any number of passes.
 */
module Passes {
  import opened Wrappers
  import opened ServiceRows
  import opened SelfHealing
  import opened Orchestrator
  import opened Scheduler
  import RecoveryCycles

  /** Between two passes: the scheduler's thread is idle, the lock is free, and the memory is the machine's. */
  ghost predicate Settles(state: State, m: Memory) {
    state.PcOf(SCHEDULER_THREAD).Idle? && state.lock.None? && Agrees(state, m)
  }

  // ---------------------------------------------------------------- recording

  lemma RecordIsAStep(config: Config, now: State, m: Memory, result: CheckResult)
    requires Settles(now, m)
    ensures var after := Apply(config, now, RecordCheck(result.0, result.1));
            Settles(after, Record(m, result)) && after.active == now.active && after.clock == now.clock
  {
    var after, recorded := Apply(config, now, RecordCheck(result.0, result.1)), Record(m, result);
    forall other
      ensures after.CycleOf(other) == recorded.CycleOf(other)
    {
      assert now.CycleOf(other) == m.CycleOf(other);
    }
    AgreesPointwise(after, recorded);
  }

  lemma {:induction false} RecordingIsARun(config: Config, first: State, m: Memory, results: seq<CheckResult>)
    returns (steps: seq<Step>, last: State)
    requires Settles(first, m)
    ensures RunFrom(config, first, steps) == Some(last) && Settles(last, RecordAll(m, results))
    ensures last.active == first.active && last.clock == first.clock
    ensures |steps| == |results| && forall i | 0 <= i < |results| :: steps[i] == RecordCheck(results[i].0, results[i].1)
  {
    if results == [] {
      steps, last := [], first;
    } else {
      var n := |results| - 1;
      steps, last := RecordingIsARun(config, first, m, results[..n]);
      var step := RecordCheck(results[n].0, results[n].1);
      RecordIsAStep(config, last, RecordAll(m, results[..n]), results[n]);
      RunFromOneMore(config, first, steps, last, step);
      steps, last := steps + [step], Apply(config, last, step);
    }
  }

  // ---------------------------------------------------------------- deciding

  lemma ClockMoves(config: Config, now: State, m: Memory, to: real)
    requires Settles(now, m) && to >= now.clock
    ensures var later := now.(clock := to);
            RunFrom(config, now, [Tick(to - now.clock)]) == Some(later) && Settles(later, m)
  {
    FoldOne((state: State, step: Step) => Next(config, state, step), now, Tick(to - now.clock));
    forall other
      ensures now.(clock := to).CycleOf(other) == m.CycleOf(other)
    {
      assert now.CycleOf(other) == m.CycleOf(other);
    }
    AgreesPointwise(now.(clock := to), m);
  }

  /** Time passes, the scheduler decides, and the call it may make runs to its end. */
  lemma DecisionIsARun(config: Config, first: State, m: Memory, name: Name, answer: Answer)
    returns (steps: seq<Step>, last: State)
    requires Settles(first, m) && answer.now >= first.clock
    ensures RunFrom(config, first, steps) == Some(last)
    ensures Settles(last, PostHealth(config, m, first.active, name, answer.now, answer.waitRaises, answer.starts))
    ensures last.active == first.active && last.clock == answer.now
  {
    ClockMoves(config, first, m, answer.now);
    var later, decide := first.(clock := answer.now), DecideRestart(name);
    var luck;
    luck, last := PostHealthIsARun(config, later, m, name, answer.waitRaises, answer.starts);
    RunFromOneMore(config, first, [Tick(answer.now - first.clock)], later, decide);
    steps := [Tick(answer.now - first.clock)] + [decide];
    RunFromThen(config, first, steps, Apply(config, later, decide), Moves(SCHEDULER_THREAD, luck));
    steps := steps + Moves(SCHEDULER_THREAD, luck);
  }

  /** The clock does not go backwards from one decision to the next. */
  ghost predicate InOrder(start: real, answers: seq<Answer>) {
    && (forall i | 0 <= i < |answers| :: start <= answers[i].now)
    && (forall i, j | 0 <= i < j < |answers| :: answers[i].now <= answers[j].now)
  }

  lemma {:induction false} DecidingIsARun(config: Config, first: State, m: Memory, results: seq<CheckResult>,
                                          answers: seq<Answer>)
    returns (steps: seq<Step>, last: State)
    requires Settles(first, m) && |answers| == |results| && InOrder(first.clock, answers)
    ensures RunFrom(config, first, steps) == Some(last)
    ensures Settles(last, DecideAll(config, m, first.active, results, answers))
    ensures last.active == first.active
    ensures last.clock == if answers == [] then first.clock else answers[|answers| - 1].now
  {
    if results == [] {
      steps, last := [], first;
    } else {
      var n := |results| - 1;
      var before := DecideAll(config, m, first.active, results[..n], answers[..n]);
      steps, last := DecidingIsARun(config, first, m, results[..n], answers[..n]);
      assert last.clock <= answers[n].now;
      var more, end := DecisionIsARun(config, last, before, results[n].0, answers[n]);
      RunFromThen(config, first, steps, last, more);
      steps, last := steps + more, end;
    }
  }

  /** A pass is a run: every result is recorded, and then come the decisions with their calls. */
  lemma PassIsARun(config: Config, first: State, m: Memory, results: seq<CheckResult>, answers: seq<Answer>)
    returns (steps: seq<Step>, last: State)
    requires Settles(first, m) && |answers| == |results| && InOrder(first.clock, answers)
    ensures RunFrom(config, first, steps) == Some(last)
    ensures Settles(last, DecideAll(config, RecordAll(m, results), first.active, results, answers))
    ensures last.active == first.active
    ensures |steps| >= |results|
    ensures forall i | 0 <= i < |results| :: steps[i] == RecordCheck(results[i].0, results[i].1)
  {
    var middle;
    steps, middle := RecordingIsARun(config, first, m, results);
    var more;
    more, last := DecidingIsARun(config, middle, RecordAll(m, results), results, answers);
    RunFromThen(config, first, steps, middle, more);
    steps := steps + more;
  }

  // ---------------------------------------------------------------- theorems about runs reach the scheduler

  /** More steps from the end of a run make a longer run. */
  lemma {:induction false} RunGoesOn(config: Config, states: seq<State>, steps: seq<Step>, more: seq<Step>, last: State)
    returns (longer: seq<State>)
    requires IsRun(config, states, steps) && RunFrom(config, states[|steps|], more) == Some(last)
    ensures IsRun(config, longer, steps + more) && longer[|steps + more|] == last && states <= longer
    decreases |more|
  {
    if more == [] {
      longer := states;
      assert steps + more == steps;
    } else {
      var n := |more| - 1;
      var before := RunFrom(config, states[|steps|], more[..n]).value;
      var shorter := RunGoesOn(config, states, steps, more[..n], before);
      longer := shorter + [last];
      assert steps + more == steps + more[..n] + [more[n]];
      OneStepMore(config, shorter, steps + more[..n], more[n], last);
    }
  }

  lemma OneStepMore(config: Config, states: seq<State>, steps: seq<Step>, step: Step, last: State)
    requires IsRun(config, states, steps)
    requires Enabled(config, states[|steps|], step) && last == Apply(config, states[|steps|], step)
    ensures IsRun(config, states + [last], steps + [step])
  {
    forall i: nat | i < |steps + [step]|
      ensures Follows(config, states + [last], steps + [step], i)
    {
      if i < |steps| {
        assert Follows(config, states, steps, i);
      }
    }
  }

  /** After any run, a pass makes a longer run that ends in the scheduler's memory after the pass. */
  lemma PassExtendsTheRun(config: Config, states: seq<State>, steps: seq<Step>, m: Memory,
                          results: seq<CheckResult>, answers: seq<Answer>)
    returns (longer: seq<State>, more: seq<Step>)
    requires IsRun(config, states, steps) && Settles(states[|steps|], m)
    requires |answers| == |results| && InOrder(states[|steps|].clock, answers)
    ensures IsRun(config, longer, steps + more) && states <= longer
    ensures Settles(longer[|steps + more|],
                    DecideAll(config, RecordAll(m, results), states[|steps|].active, results, answers))
  {
    var last;
    more, last := PassIsARun(config, states[|steps|], m, results, answers);
    longer := RunGoesOn(config, states, steps, more, last);
  }

  /** So the attempts the scheduler remembers after a pass are within the budget, whatever happened before. */
  lemma PassKeepsTheBudget(config: Config, states: seq<State>, steps: seq<Step>, m: Memory,
                           results: seq<CheckResult>, answers: seq<Answer>, name: Name)
    requires IsRun(config, states, steps) && Settles(states[|steps|], m) && config.Valid()
    requires |answers| == |results| && InOrder(states[|steps|].clock, answers)
    requires RecoveryCycles.HasBudget(config, name)
    ensures var after := DecideAll(config, RecordAll(m, results), states[|steps|].active, results, answers);
            after.CycleOf(name).attempts <= config.services[name].maxRestarts.value
  {
    var longer, more := PassExtendsTheRun(config, states, steps, m, results, answers);
    var n := |steps + more|;
    RecoveryCycles.AlwaysTracked(config, longer, steps + more, n, name);
    var after := DecideAll(config, RecordAll(m, results), states[|steps|].active, results, answers);
    assert longer[n].CycleOf(name) == after.CycleOf(name);
  }
}
