/**
 The poll loop's deadlines (dockfleet/health/scheduler.py, `_poll`, `_due_services`, `_next_sleep_seconds` and the
 scheduling part of `run_single_pass`). Time is a real number; a sleep lasts exactly as long as it was asked to.
 */
module PollLoop {
  import opened Wrappers

  /** `services` in configuration order; `interval` has the services with a health check. */
  datatype Plan = Plan(services: seq<Name>, interval: map<Name, real>, loopInterval: real) {
    ghost predicate Valid() {
      && (forall name | name in interval :: interval[name] > 0.0 && name in services)
      && loopInterval > 0.0
    }
  }

  /** One turn of the loop: woken `at`, the services it checked, when their checks were `done`, when it wakes next. */
  datatype Turn = Turn(at: real, checked: set<Name>, done: real, wake: real)

  // ---------------------------------------------------------------- the history that the deadlines stand for

  /** The last check of the service in the first turns, plus its interval. */
  ghost function Deadline(plan: Plan, turns: seq<Turn>, name: Name): Option<real>
    requires name in plan.interval
  {
    if turns == [] then None
    else
      var n := |turns| - 1;
      if name in turns[n].checked then Some(turns[n].at + plan.interval[name])
      else Deadline(plan, turns[..n], name)
  }

  ghost predicate IsDue(plan: Plan, turns: seq<Turn>, name: Name, now: real) {
    name in plan.interval && (Deadline(plan, turns, name).None? || Deadline(plan, turns, name).value <= now)
  }

  function Max(a: real, b: real): real {
    if a >= b then a else b
  }

  /**
   How the loop sleeps after the first turns, at time `done` of the last one, which took `elapsed`: not at all when a
   deadline has passed, else no longer than to the earliest deadline nor than the cap, and exactly to one of the two.
   */
  ghost predicate SleepsUntil(plan: Plan, turns: seq<Turn>, done: real, elapsed: real, wake: real) {
    if forall name | name in plan.interval :: Deadline(plan, turns, name).None? then
      wake == done + Max(0.0, plan.loopInterval - elapsed)
    else
      && done <= wake
      && (wake == done || wake <= done + Max(1.0, plan.loopInterval))
      && (forall name | name in plan.interval && Deadline(plan, turns, name).Some? ::
            wake <= Max(done, Deadline(plan, turns, name).value))
      && (wake == done + Max(1.0, plan.loopInterval)
          || exists name | name in plan.interval && Deadline(plan, turns, name).Some? ::
               wake == Max(done, Deadline(plan, turns, name).value))
  }

  /** The last turn follows from the ones before it. */
  ghost predicate EndsWithTurn(plan: Plan, turns: seq<Turn>)
    requires turns != []
  {
    var n := |turns| - 1;
    && (forall name :: name in turns[n].checked <==> IsDue(plan, turns[..n], name, turns[n].at))
    && turns[n].at <= turns[n].done
    && SleepsUntil(plan, turns, turns[n].done, turns[n].done - turns[n].at, turns[n].wake)
  }

  /** A run of the loop: every turn starts when the one before it wakes the loop. */
  ghost predicate IsRun(plan: Plan, turns: seq<Turn>) {
    && (forall n | 0 < n <= |turns| :: EndsWithTurn(plan, turns[..n]))
    && (forall i {:trigger turns[i]} | 0 < i < |turns| :: turns[i].at == turns[i - 1].wake)
  }

  // ---------------------------------------------------------------- the loop

  ghost predicate AreDeadlines(plan: Plan, turns: seq<Turn>, times: map<Name, real>) {
    && times.Keys <= plan.interval.Keys
    && forall name | name in plan.interval ::
         Deadline(plan, turns, name) == if name in times then Some(times[name]) else None
  }

  /** Giving the checked services new times keeps the dictionary right. */
  lemma CheckedMovesOn(plan: Plan, turns: seq<Turn>, turn: Turn, before: map<Name, real>, after: map<Name, real>)
    requires AreDeadlines(plan, turns, before) && turn.checked <= plan.interval.Keys
    requires after.Keys == before.Keys + turn.checked
    requires forall name | name in after ::
               after[name] == if name in turn.checked then turn.at + plan.interval[name] else before[name]
    ensures AreDeadlines(plan, turns + [turn], after)
  {
    assert (turns + [turn])[..|turns|] == turns;
  }

  lemma TurnFollows(plan: Plan, turns: seq<Turn>, turn: Turn, elapsed: real)
    requires forall name :: name in turn.checked <==> IsDue(plan, turns, name, turn.at)
    requires elapsed >= 0.0 && turn.done == turn.at + elapsed
    requires SleepsUntil(plan, turns + [turn], turn.done, elapsed, turn.wake)
    ensures EndsWithTurn(plan, turns + [turn])
  {
    assert (turns + [turn])[..|turns|] == turns;
  }

  class CheckSchedule {
    const plan: Plan
    var nextCheckAt: map<Name, real>

    constructor (plan: Plan)
      ensures this.plan == plan && nextCheckAt == map[]
    {
      this.plan := plan;
      nextCheckAt := map[];
    }

    /** The dictionary is the history. */
    ghost predicate Holds(turns: seq<Turn>)
      reads this
    {
      AreDeadlines(plan, turns, nextCheckAt)
    }

    method DueServices(now: real) returns (due: seq<Name>)
      ensures forall name :: name in due <==>
                && name in plan.services && name in plan.interval
                && (name !in nextCheckAt || now >= nextCheckAt[name])
    {
      due := [];
      for i := 0 to |plan.services|
        invariant forall name :: name in due <==>
                    && name in plan.services[..i] && name in plan.interval
                    && (name !in nextCheckAt || now >= nextCheckAt[name])
      {
        var name := plan.services[i];
        if name in plan.interval && (name !in nextCheckAt || now >= nextCheckAt[name]) {
          due := due + [name];
        }
      }
    }

    /** Schedules the selected services from this pass; those the table shows as stopped are not submitted. */
    method ScheduleChecks(selected: Option<seq<Name>>, base: real, stopped: set<Name>) returns (submitted: seq<Name>)
      modifies this
      ensures nextCheckAt.Keys == old(nextCheckAt).Keys
                + set name | name in plan.services && name in plan.interval
                    && (selected.Some? ==> name in selected.value)
      ensures forall name | name in nextCheckAt ::
                nextCheckAt[name] ==
                if name in plan.services && name in plan.interval && (selected.Some? ==> name in selected.value)
                then base + plan.interval[name]
                else old(nextCheckAt)[name]
      ensures forall name :: name in submitted <==>
                && name in plan.services && name in plan.interval && (selected.Some? ==> name in selected.value)
                && name !in stopped
    {
      submitted := [];
      for i := 0 to |plan.services|
        invariant nextCheckAt.Keys == old(nextCheckAt).Keys
          + set name | name in plan.services[..i] && name in plan.interval
              && (selected.Some? ==> name in selected.value)
        invariant forall name | name in nextCheckAt ::
                    nextCheckAt[name] ==
                    if name in plan.services[..i] && name in plan.interval
                        && (selected.Some? ==> name in selected.value)
                    then base + plan.interval[name]
                    else old(nextCheckAt)[name]
        invariant forall name :: name in submitted <==>
                    && name in plan.services[..i] && name in plan.interval
                    && (selected.Some? ==> name in selected.value) && name !in stopped
      {
        var name := plan.services[i];
        assert plan.services[..i + 1] == plan.services[..i] + [name];
        if (selected.Some? && name !in selected.value) || name !in plan.interval {
          continue;
        }
        nextCheckAt := nextCheckAt[name := base + plan.interval[name]];
        if name in stopped {
          continue;
        }
        submitted := submitted + [name];
      }
      assert plan.services[..|plan.services|] == plan.services;
    }

    method NextSleepSeconds(now: real, elapsed: real) returns (sleep: real)
      requires nextCheckAt.Keys <= plan.interval.Keys && plan.Valid()
      ensures nextCheckAt == map[] ==> sleep == Max(0.0, plan.loopInterval - elapsed)
      ensures nextCheckAt != map[] ==>
                && 0.0 <= sleep <= Max(1.0, plan.loopInterval)
                && (forall name | name in nextCheckAt :: sleep <= Max(0.0, nextCheckAt[name] - now))
                && (sleep == Max(1.0, plan.loopInterval)
                    || exists name | name in nextCheckAt :: sleep == Max(0.0, nextCheckAt[name] - now))
    {
      var earliest: Option<real> := None;
      for i := 0 to |plan.services|
        invariant earliest.None? ==> forall name | name in plan.services[..i] :: name !in nextCheckAt
        invariant earliest.Some? ==>
                    && (forall name | name in plan.services[..i] && name in nextCheckAt ::
                          earliest.value <= nextCheckAt[name])
                    && exists name | name in nextCheckAt :: nextCheckAt[name] == earliest.value
      {
        var name := plan.services[i];
        if name in nextCheckAt && (earliest.None? || nextCheckAt[name] < earliest.value) {
          earliest := Some(nextCheckAt[name]);
        }
      }
      assert plan.services[..|plan.services|] == plan.services;
      if earliest.None? {
        assert nextCheckAt == map[];
        return Max(0.0, plan.loopInterval - elapsed);
      }
      var cap := Max(1.0, plan.loopInterval);
      var untilEarliest := Max(0.0, earliest.value - now);
      return if untilEarliest <= cap then untilEarliest else cap;
    }

    /** The sleep that was computed from the dictionary is right for the history it stands for. */
    lemma SleepFollows(turns: seq<Turn>, done: real, elapsed: real, sleep: real)
      requires Holds(turns)
      requires nextCheckAt == map[] ==> sleep == Max(0.0, plan.loopInterval - elapsed)
      requires nextCheckAt != map[] ==>
                && 0.0 <= sleep <= Max(1.0, plan.loopInterval)
                && (forall name | name in nextCheckAt :: sleep <= Max(0.0, nextCheckAt[name] - done))
                && (sleep == Max(1.0, plan.loopInterval)
                    || exists name | name in nextCheckAt :: sleep == Max(0.0, nextCheckAt[name] - done))
      ensures SleepsUntil(plan, turns, done, elapsed, done + sleep)
    {
      if nextCheckAt != map[] {
        var some :| some in nextCheckAt;
        assert some in plan.interval && Deadline(plan, turns, some).Some?;
        if sleep != Max(1.0, plan.loopInterval) {
          var name :| name in nextCheckAt && sleep == Max(0.0, nextCheckAt[name] - done);
          assert Deadline(plan, turns, name) == Some(nextCheckAt[name]);
        }
      }
    }

    /** The pass a turn starts: every due service gets its next time, and is checked unless it is stopped. */
    method StartPass(ghost turns: seq<Turn>, at: real, stopped: set<Name>)
      returns (checked: set<Name>, submitted: seq<Name>)
      requires Holds(turns)
      modifies this
      ensures forall name ::
                name in checked <==> name in plan.services && name in plan.interval && IsDue(plan, turns, name, at)
      ensures nextCheckAt.Keys == old(nextCheckAt).Keys + checked
      ensures forall name | name in nextCheckAt ::
                if name in checked then nextCheckAt[name] == at + plan.interval[name]
                else name in old(nextCheckAt) && nextCheckAt[name] == old(nextCheckAt)[name]
      ensures forall name :: name in submitted <==> name in checked && name !in stopped
    {
      var selected: Option<seq<Name>> := None;
      if nextCheckAt != map[] {
        var due := DueServices(at);
        selected := Some(due);
      }
      checked := set name | name in plan.services && name in plan.interval
          && (selected.Some? ==> name in selected.value);
      assert forall name :: name in checked <==> name in plan.services && IsDue(plan, turns, name, at);
      submitted := ScheduleChecks(selected, at, stopped);
    }

    /** One turn of `_poll`, woken at `at`; the pass takes `duration`. */
    method Once(ghost turns: seq<Turn>, at: real, duration: real, stopped: set<Name>)
      returns (turn: Turn, submitted: seq<Name>)
      requires plan.Valid() && Holds(turns) && duration >= 0.0
      modifies this
      ensures Holds(turns + [turn])
      ensures turn.at == at && turn.done == at + duration && EndsWithTurn(plan, turns + [turn])
      ensures forall name :: name in submitted <==> name in turn.checked && name !in stopped
    {
      var checked;
      checked, submitted := StartPass(turns, at, stopped);
      var sleep := NextSleepSeconds(at + duration, duration);
      turn := Turn(at, checked, at + duration, at + duration + sleep);
      CheckedMovesOn(plan, turns, turn, old(nextCheckAt), nextCheckAt);
      SleepFollows(turns + [turn], at + duration, duration, sleep);
      TurnFollows(plan, turns, turn, duration);
    }

    /** The loop until it is stopped, one turn for each of `durations`. */
    method Poll(start: real, durations: seq<real>, stopped: seq<set<Name>>) returns (turns: seq<Turn>)
      requires plan.Valid() && Holds([]) && |stopped| == |durations|
      requires forall i | 0 <= i < |durations| :: durations[i] >= 0.0
      modifies this
      ensures |turns| == |durations| && IsRun(plan, turns)
      ensures Holds(turns)
      ensures forall i | 0 <= i < |turns| :: turns[i].done == turns[i].at + durations[i]
    {
      turns := [];
      var now := start;
      for i := 0 to |durations|
        invariant |turns| == i && IsRun(plan, turns) && Holds(turns)
        invariant i > 0 ==> now == turns[i - 1].wake
        invariant forall j | 0 <= j < i :: turns[j].done == turns[j].at + durations[j]
      {
        ghost var before := turns;
        var turn, _ := Once(turns, now, durations[i], stopped[i]);
        turns := turns + [turn];
        forall n | 0 < n <= |turns|
          ensures EndsWithTurn(plan, turns[..n])
        {
          assert turns[..n] == if n < |turns| then before[..n] else turns;
        }
        now := turn.wake;
      }
    }
  }

  // ---------------------------------------------------------------- fairness, over every run

  /** `i` and `j` are consecutive turns that check the service. */
  ghost predicate NextCheck(turns: seq<Turn>, i: nat, j: nat, name: Name) {
    && i < j < |turns|
    && name in turns[i].checked && name in turns[j].checked
    && forall k | i < k < j :: name !in turns[k].checked
  }

  lemma {:induction false} DeadlineAfterCheck(plan: Plan, turns: seq<Turn>, i: nat, n: nat, name: Name)
    requires i < n <= |turns| && name in plan.interval && name in turns[i].checked
    requires forall k | i < k < n :: name !in turns[k].checked
    ensures Deadline(plan, turns[..n], name) == Some(turns[i].at + plan.interval[name])
  {
    if n - 1 > i {
      DeadlineAfterCheck(plan, turns, i, n - 1, name);
      assert turns[..n][..n - 1] == turns[..n - 1];
    }
  }

  lemma {:induction false} TimePasses(plan: Plan, turns: seq<Turn>, i: nat, j: nat)
    requires IsRun(plan, turns) && i <= j < |turns|
    ensures turns[i].at <= turns[j].at
    ensures i < j ==> turns[i].done <= turns[j].at
  {
    if i < j {
      TimePasses(plan, turns, i, j - 1);
      assert EndsWithTurn(plan, turns[..j]);
    }
  }

  lemma TurnRespects(plan: Plan, turns: seq<Turn>, name: Name, deadline: real)
    requires turns != [] && EndsWithTurn(plan, turns)
    requires name in plan.interval && Deadline(plan, turns, name) == Some(deadline)
    ensures var turn := turns[|turns| - 1];
            && (deadline <= turn.done ==> turn.wake == turn.done)
            && (deadline > turn.done ==> turn.wake <= deadline)
  {
    var turn := turns[|turns| - 1];
    assert turn.wake <= Max(turn.done, Deadline(plan, turns, name).value);
  }

  /** No deadline passes while the loop sleeps: if it sleeps at all, it is awake again by every deadline. */
  lemma NoDeadlinePassesAsleep(plan: Plan, turns: seq<Turn>, i: nat, n: nat, name: Name)
    requires IsRun(plan, turns) && name in plan.interval
    requires i < n <= |turns| && name in turns[i].checked && forall k | i < k < n :: name !in turns[k].checked
    ensures var deadline := turns[i].at + plan.interval[name];
            && (deadline <= turns[n - 1].done ==> turns[n - 1].wake == turns[n - 1].done)
            && (deadline > turns[n - 1].done ==> turns[n - 1].wake <= deadline)
  {
    DeadlineAfterCheck(plan, turns, i, n, name);
    assert EndsWithTurn(plan, turns[..n]);
    TurnRespects(plan, turns[..n], name, turns[i].at + plan.interval[name]);
  }

  /**
   Every service is checked in the first turn, and none is ever overlooked: at its deadline or later, a turn checks it.
   */
  lemma NothingIsOverlooked(plan: Plan, turns: seq<Turn>, i: nat, n: nat, name: Name)
    requires IsRun(plan, turns) && name in plan.interval && i < |turns|
    ensures name in turns[0].checked
    ensures name in turns[i].checked && i < n < |turns| && (forall k | i < k < n :: name !in turns[k].checked) ==>
              (name in turns[n].checked <==> turns[n].at >= turns[i].at + plan.interval[name])
  {
    assert EndsWithTurn(plan, turns[..1]);
    if name in turns[i].checked && i < n < |turns| && forall k | i < k < n :: name !in turns[k].checked {
      DeadlineAfterCheck(plan, turns, i, n, name);
      assert EndsWithTurn(plan, turns[..n + 1]);
      assert turns[..n + 1][..n] == turns[..n];
    }
  }

  /**
   A service's checks start at least its interval apart, and each one when the deadline set by the one before it comes,
   or at the end of the turn that is running then: it is late by at most the remainder of that turn.
   */
  lemma ChecksAreTimely(plan: Plan, turns: seq<Turn>, i: nat, j: nat, name: Name)
    requires IsRun(plan, turns) && plan.Valid() && name in plan.interval && NextCheck(turns, i, j, name)
    ensures var deadline := turns[i].at + plan.interval[name];
            && turns[j].at >= deadline
            && (turns[j].at > deadline ==>
                  turns[j - 1].at < deadline <= turns[j - 1].done && turns[j].at == turns[j - 1].done)
  {
    NothingIsOverlooked(plan, turns, i, j, name);
    NoDeadlinePassesAsleep(plan, turns, i, j, name);
    assert turns[j].at == turns[j - 1].wake;
    if i < j - 1 {
      NothingIsOverlooked(plan, turns, i, j - 1, name);
    }
  }

  /** Any two checks of a service, not only consecutive ones. */
  lemma {:induction false} ChecksAreApart(plan: Plan, turns: seq<Turn>, i: nat, j: nat, name: Name)
    requires IsRun(plan, turns) && plan.Valid() && name in plan.interval
    requires i < j < |turns| && name in turns[i].checked && name in turns[j].checked
    ensures turns[j].at >= turns[i].at + plan.interval[name]
  {
    if k :| i < k < j && name in turns[k].checked {
      ChecksAreApart(plan, turns, i, k, name);
      TimePasses(plan, turns, k, j);
    } else {
      ChecksAreTimely(plan, turns, i, j, name);
    }
  }

  /** With passes that take no time a service is checked exactly every interval, stopped services included. */
  lemma ExactWithInstantPasses(plan: Plan, turns: seq<Turn>, i: nat, j: nat, name: Name)
    requires IsRun(plan, turns) && plan.Valid() && name in plan.interval && NextCheck(turns, i, j, name)
    requires turns[j - 1].done == turns[j - 1].at
    ensures turns[j].at == turns[i].at + plan.interval[name]
  {
    ChecksAreTimely(plan, turns, i, j, name);
  }

  // ---------------------------------------------------------------- how long the loop sleeps

  /** No sleep is longer than the loop interval, or a second if that is shorter, so that a stop is seen. */
  lemma SleepIsBounded(plan: Plan, turns: seq<Turn>, i: nat)
    requires IsRun(plan, turns) && plan.Valid() && i < |turns|
    ensures turns[i].done <= turns[i].wake
    ensures turns[i].wake <= turns[i].done + if plan.loopInterval < 1.0 then 1.0 else plan.loopInterval
  {
    assert EndsWithTurn(plan, turns[..i + 1]);
    assert turns[..i + 1][i] == turns[i];
  }

  /** Without health checks a turn starts every loop interval, or at once after a longer one. */
  lemma WithoutChecksEveryLoopInterval(plan: Plan, turns: seq<Turn>, i: nat)
    requires IsRun(plan, turns) && i < |turns| && plan.interval == map[]
    ensures var due := turns[i].at + plan.loopInterval;
            turns[i].wake == if due < turns[i].done then turns[i].done else due
  {
    assert EndsWithTurn(plan, turns[..i + 1]);
    assert turns[..i + 1][i] == turns[i];
  }

  /** `k` is the turn that checked the service last, up to turn `i`. */
  ghost predicate LastCheck(turns: seq<Turn>, k: nat, i: nat, name: Name) {
    k <= i < |turns| && name in turns[k].checked && forall j | k < j <= i :: name !in turns[j].checked
  }

  lemma {:induction false} DeadlineIsALastCheck(plan: Plan, turns: seq<Turn>, i: nat, name: Name) returns (k: nat)
    requires i < |turns| && name in plan.interval && Deadline(plan, turns[..i + 1], name).Some?
    ensures LastCheck(turns, k, i, name)
    ensures Deadline(plan, turns[..i + 1], name).value == turns[k].at + plan.interval[name]
  {
    assert turns[..i + 1][..i] == turns[..i] && turns[..i + 1][i] == turns[i];
    if name in turns[i].checked {
      k := i;
    } else {
      assert i > 0;
      k := DeadlineIsALastCheck(plan, turns, i - 1, name);
    }
  }

  /** The loop wakes up for a reason: at once, at the cap, or exactly when a check falls due. */
  lemma WakesForAReason(plan: Plan, turns: seq<Turn>, i: nat)
    requires IsRun(plan, turns) && plan.Valid() && i < |turns| && plan.interval != map[]
    ensures || turns[i].wake == turns[i].done
            || turns[i].wake == turns[i].done + (if plan.loopInterval < 1.0 then 1.0 else plan.loopInterval)
            || exists k: nat, name :: LastCheck(turns, k, i, name) && name in plan.interval
                                      && turns[i].wake == turns[k].at + plan.interval[name]
  {
    var until := turns[..i + 1];
    assert EndsWithTurn(plan, until) && until[i] == turns[i];
    var some :| some in plan.interval;
    AlwaysADeadline(plan, turns, i, some);
    var cap := if plan.loopInterval < 1.0 then 1.0 else plan.loopInterval;
    if turns[i].wake != turns[i].done && turns[i].wake != turns[i].done + cap {
      var name :| name in plan.interval && Deadline(plan, until, name).Some?
                  && turns[i].wake == Max(turns[i].done, Deadline(plan, until, name).value);
      var k := DeadlineIsALastCheck(plan, turns, i, name);
      assert LastCheck(turns, k, i, name) && turns[i].wake == turns[k].at + plan.interval[name];
    }
  }

  lemma {:induction false} AlwaysADeadline(plan: Plan, turns: seq<Turn>, i: nat, name: Name)
    requires IsRun(plan, turns) && i < |turns| && name in plan.interval
    ensures Deadline(plan, turns[..i + 1], name).Some?
  {
    assert turns[..i + 1][..i] == turns[..i] && turns[..i + 1][i] == turns[i];
    if i == 0 {
      NothingIsOverlooked(plan, turns, 0, 0, name);
    } else {
      AlwaysADeadline(plan, turns, i - 1, name);
    }
  }

  /** Only services with a health check are ever checked. */
  lemma OnlyCheckedWithACheck(plan: Plan, turns: seq<Turn>, i: nat)
    requires IsRun(plan, turns) && i < |turns|
    ensures turns[i].checked <= plan.interval.Keys
  {
    assert EndsWithTurn(plan, turns[..i + 1]);
    assert turns[..i + 1][i] == turns[i];
  }
}
