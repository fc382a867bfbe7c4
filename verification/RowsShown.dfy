/**
 What a service's row shows after each kind of step, field by field, over every run of the self-healing engine
 (dockfleet/health/status.py and the restart path of dockfleet/core/orchestrator.py).
 */
module RowsShown {
  import opened Wrappers
  import opened ServiceRows
  import opened SelfHealing
  import opened RecoveryCycles

  /** A step of the machine writes no other service's row. */
  ghost predicate OnlyRow(before: State, after: State, name: Name) {
    && after.rows.Keys == before.rows.Keys
    && forall other | other in before.rows && other != name :: after.rows[other] == before.rows[other]
  }

  /**
   After a failed check of a service that is not stopped, its row reads CRASHED exactly when three or more checks have
   failed in a row, and UNHEALTHY exactly when one or two have.
   */
  lemma FailedCheckShows(config: Config, states: seq<State>, steps: seq<Step>, i: nat, name: Name)
    requires IsRun(config, states, steps) && i < |steps| && name in states[0].rows
    requires steps[i] == RecordCheck(name, false)
    requires name in states[i].rows && states[i].rows[name].status != Stopped
    ensures name in states[i + 1].rows && OnlyRow(states[i], states[i + 1], name)
    ensures var row := states[i + 1].rows[name];
            var streak := Streak(config, states, steps, i + 1, name);
            && (row.health == Crashed <==> streak >= 3)
            && (row.health == Unhealthy <==> streak == 1 || streak == 2)
            && row.status == states[i].rows[name].status
            && row.lastFailureReason == Some("health check failed")
  {
    assert Follows(config, states, steps, i);
    FailuresAreTheStreak(config, states, steps, i, name);
    FailuresAreTheStreak(config, states, steps, i + 1, name);
  }

  /** A failed check of a service that was stopped on purpose changes nothing. */
  lemma IgnoredCheckShows(config: Config, states: seq<State>, steps: seq<Step>, i: nat, name: Name)
    requires IsRun(config, states, steps) && i < |steps| && steps[i] == RecordCheck(name, false)
    requires name in states[i].rows && states[i].rows[name].status == Stopped
    ensures states[i + 1] == states[i]
  {
    assert Follows(config, states, steps, i);
    assert states[i].rows[name := states[i].rows[name]] == states[i].rows;
  }

  /** After a passing check the row is healthy, and running unless it was stopped, and the scheduler starts afresh. */
  lemma PassedCheckShows(config: Config, states: seq<State>, steps: seq<Step>, i: nat, name: Name)
    requires IsRun(config, states, steps) && i < |steps| && steps[i] == RecordCheck(name, true)
    requires name in states[i].rows
    ensures name in states[i + 1].rows && OnlyRow(states[i], states[i + 1], name)
    ensures var before, row := states[i].rows[name], states[i + 1].rows[name];
            && row.health == Healthy && row.consecutiveFailures == 0 && row.lastFailureReason == None
            && (row.status == if before.status == Stopped then Stopped else Running)
            && row.restartCount == before.restartCount && row.restartPolicy == before.restartPolicy
    ensures states[i + 1].CycleOf(name) == Cycle(0, None)
  {
    assert Follows(config, states, steps, i);
  }

  /** What an operator's start and stop show: neither touches the streak, the restarts or the failure reason. */
  lemma OperatorShows(config: Config, states: seq<State>, steps: seq<Step>, i: nat, name: Name)
    requires IsRun(config, states, steps) && i < |steps| && name in states[i].rows
    requires steps[i] == OperatorStart(name) || steps[i] == OperatorStop(name)
    ensures name in states[i + 1].rows && OnlyRow(states[i], states[i + 1], name)
    ensures var before, row := states[i].rows[name], states[i + 1].rows[name];
            && row == before.(status := if steps[i].OperatorStop? then Stopped else Running, health := Healthy)
  {
    assert Follows(config, states, steps, i);
  }

  /** The row of a service whose call takes one step. */
  function ShownAfter(row: Service, pc: Pc, luck: bool): Service
    requires !pc.Idle?
  {
    match pc
    case Entered(_, _) => row.(health := Restarting)
    case Starting(_, _) => if luck then row.(status := Running, health := Healthy) else row
    case Counting(_, _) => row.(restartCount := row.restartCount + 1)
    case Failing(_, _) =>
      row.(status := Unknown, health := Crashed,
           lastFailureReason := Some("auto-restart failed: " + "start_service returned False"))
    case Raising(_, _) => if row.health == Restarting then row.(health := Crashed) else row
    case Returned(caller, _, Restarted) =>
      row.(status := Running, health := Healthy, consecutiveFailures := 0,
           lastFailureReason := if caller.Dashboard? then row.lastFailureReason else None)
    case Returned(caller, _, Raised) =>
      if caller.Dashboard? then row
      else
        row.(status := Unknown, health := Crashed,
             lastFailureReason := Some("auto-restart failed: " + "restart raised"))
    case _ => row
  }

  lemma ShownByProgram(config: Config, pc: Pc, taken: bool, luck: bool, row: Service)
    requires !pc.Idle?
    ensures Assign(Program(config, pc, taken, luck).write, row) == ShownAfter(row, pc, luck)
  {
  }

  /**
   What each step of a call shows in its service's row, and in no other: RESTARTING from the first write to the
   container start or the failure, then running and healthy, one restart more, or crashed with the reason.
   */
  lemma CallShows(config: Config, states: seq<State>, steps: seq<Step>, i: nat, name: Name)
    requires IsRun(config, states, steps) && i < |steps| && steps[i].Advance? && name in states[i].rows
    requires !states[i].PcOf(steps[i].thread).Idle? && states[i].PcOf(steps[i].thread).service == name
    ensures name in states[i + 1].rows && OnlyRow(states[i], states[i + 1], name)
    ensures states[i + 1].rows[name]
         == ShownAfter(states[i].rows[name], states[i].PcOf(steps[i].thread), steps[i].luck)
  {
    assert Follows(config, states, steps, i);
    var pc := states[i].PcOf(steps[i].thread);
    ShownByProgram(config, pc, name in states[i].active, steps[i].luck, states[i].rows[name]);
  }
}
