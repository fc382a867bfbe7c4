/**
 The health side of a service's database row (dockfleet/health/status.py) and the table that holds the rows.

 Each function below is one `get_session` block applied to the row it loaded; `ServiceTable` applies them in place.
 Time stamps of the rows are not kept.
 */
module ServiceRows {
  import opened Wrappers
  import Text

  datatype ContainerStatus = Running | Stopped | Unknown

  datatype HealthStatus = Healthy | Unhealthy | Crashed | Restarting

  datatype Service = Service(
    restartPolicy: string,
    status: ContainerStatus,
    health: HealthStatus,
    restartCount: nat,
    consecutiveFailures: nat,
    lastFailureReason: Option<string>)

  datatype RestartEvent = RestartEvent(service: Name, reason: string, previousStatus: ContainerStatus)

  const CRASH_THRESHOLD: nat := 3

  /** Container started. The failure streak is left alone. */
  function MarkRunning(svc: Service): Service {
    svc.(status := Running, health := Healthy)
  }

  /** Clean stop, from the orchestrator and again from the dashboard. The streak and the counts are left alone. */
  function MarkStopped(svc: Service): Service {
    svc.(status := Stopped, health := Healthy)
  }

  function MarkRestarting(svc: Service): Service {
    svc.(health := Restarting)
  }

  function MarkRestartFailed(svc: Service, reason: string): Service {
    svc.(status := Unknown, health := Crashed, lastFailureReason := Some("auto-restart failed: " + reason))
  }

  /** The outer exception handler of a restart: only a row still shown as restarting is touched. */
  function MarkInterrupted(svc: Service): Service {
    if svc.health == Restarting then svc.(health := Crashed) else svc
  }

  function CountRestart(svc: Service): Service {
    svc.(restartCount := svc.restartCount + 1)
  }

  function MarkRestartSuccessful(svc: Service): Service {
    svc.(consecutiveFailures := 0, status := Running, health := Healthy, lastFailureReason := None)
  }

  function MarkManualRestart(svc: Service): Service {
    svc.(status := Running, health := Healthy, consecutiveFailures := 0)
  }

  /** A failed check of a service that was stopped on purpose leaves the row alone; any other result is recorded. */
  predicate IgnoresCheck(svc: Service, isHealthy: bool) {
    !isHealthy && svc.status == Stopped
  }

  function UpdateHealth(svc: Service, isHealthy: bool, reason: Option<string>): Service {
    if IgnoresCheck(svc, isHealthy) then svc
    else if isHealthy then
      svc.(status := if svc.status != Stopped then Running else Stopped,
           health := Healthy, consecutiveFailures := 0, lastFailureReason := None)
    else
      var failures := svc.consecutiveFailures + 1;
      svc.(consecutiveFailures := failures,
           health := if failures >= CRASH_THRESHOLD then Crashed else Unhealthy,
           lastFailureReason := if reason.Some? && reason.value != "" then reason else svc.lastFailureReason)
  }

  function NormalizedPolicy(policy: string): string {
    Text.Replace(Text.Lower(Text.Trim(policy)), '_', '-')
  }

  predicate NeedsRestart(svc: Service) {
    && svc.status != Stopped
    && svc.consecutiveFailures >= CRASH_THRESHOLD
    && NormalizedPolicy(svc.restartPolicy) in {"always", "on-failure"}
    && svc.health in {Unhealthy, Crashed}
  }

  // ---------------------------------------------------------------- policies

  /** The word in any case, with an underscore or a hyphen where it has a hyphen. */
  predicate Spells(core: string, word: string)
    requires IsWord(word)
  {
    && |core| == |word|
    && forall i | 0 <= i < |core| ::
         if word[i] == '-' then core[i] == '-' || core[i] == '_'
         else core[i] == word[i] || core[i] == Text.UpperChar(word[i])
  }

  predicate IsWord(word: string) {
    word != "" && forall i | 0 <= i < |word| :: word[i] == '-' || 'a' <= word[i] <= 'z'
  }

  /** Which policies count as a word: those that spell it, whatever white space is around them. */
  lemma PolicyIsSpelling(front: string, core: string, back: string, word: string)
    requires IsWord(word) && Text.AllSpace(front) && Text.AllSpace(back)
    requires core != "" && !Text.IsSpace(core[0]) && !Text.IsSpace(core[|core| - 1])
    ensures NormalizedPolicy(front + core + back) == word <==> Spells(core, word)
  {
    Text.TrimIsExact(front, core, back);
    var normal := NormalizedPolicy(front + core + back);
    forall i | 0 <= i < |core| && |core| == |word|
      ensures normal[i] == word[i] <==>
                if word[i] == '-' then core[i] == '-' || core[i] == '_'
                else core[i] == word[i] || core[i] == Text.UpperChar(word[i])
    {
      if word[i] == '-' {
        Text.LowerOfOther(core[i], '-');
        Text.LowerOfOther(core[i], '_');
      } else {
        Text.LowerOfLetter(core[i], word[i]);
      }
    }
  }

  lemma EitherWord(policy: string, always: bool, onFailure: bool)
    requires (policy == "always" <==> always) && (policy == "on-failure" <==> onFailure)
    ensures policy in {"always", "on-failure"} <==> always || onFailure
  {
  }

  lemma AreWords()
    ensures IsWord("always") && IsWord("on-failure")
  {
  }

  /** The policies under which a row may need a restart. */
  lemma AutomaticPolicies(front: string, core: string, back: string)
    requires Text.AllSpace(front) && Text.AllSpace(back)
    requires core != "" && !Text.IsSpace(core[0]) && !Text.IsSpace(core[|core| - 1])
    ensures NormalizedPolicy(front + core + back) in {"always", "on-failure"}
       <==> Spells(core, "always") || Spells(core, "on-failure")
  {
    AreWords();
    PolicyIsSpelling(front, core, back, "always");
    PolicyIsSpelling(front, core, back, "on-failure");
    EitherWord(NormalizedPolicy(front + core + back), Spells(core, "always"), Spells(core, "on-failure"));
  }

  /** Of the rows with three failures and such a policy, the stopped, healthy and restarting ones need no restart. */
  lemma NoRestartIsNeeded(svc: Service)
    requires svc.consecutiveFailures >= 3 && NormalizedPolicy(svc.restartPolicy) in {"always", "on-failure"}
    ensures !NeedsRestart(svc) <==> svc.status == Stopped || svc.health == Healthy || svc.health == Restarting
  {
  }

  // ---------------------------------------------------------------- what starts and stops mean for later checks

  /** The row after some more checks, each with its reason. */
  function AfterChecks(svc: Service, checks: seq<(bool, Option<string>)>): Service {
    if checks == [] then svc
    else
      var n := |checks| - 1;
      UpdateHealth(AfterChecks(svc, checks[..n]), checks[n].0, checks[n].1)
  }

  /**
   A clean stop outlasts every sequence of checks: the row stays stopped and healthy and never needs a restart. The stop
   itself clears nothing: the streak is what it was, unless a check has passed since, and the restarts stay counted.
   */
  lemma {:induction false} StopOutlastsChecks(svc: Service, checks: seq<(bool, Option<string>)>)
    ensures var after := AfterChecks(MarkStopped(svc), checks);
            && after.status == Stopped && after.health == Healthy && !NeedsRestart(after)
            && after.restartCount == svc.restartCount
            && after.consecutiveFailures ==
               if exists i | 0 <= i < |checks| :: checks[i].0 then 0 else svc.consecutiveFailures
  {
    if checks != [] {
      var n := |checks| - 1;
      StopOutlastsChecks(svc, checks[..n]);
      assert checks == checks[..n] + [checks[n]];
    }
  }

  /** The check fails, and says nothing about why. */
  predicate FailsSilently(check: (bool, Option<string>)) {
    !check.0 && (check.1 == None || check.1 == Some(""))
  }

  /** The reason kept for a failing service is the last one that was given; a passing check clears it. */
  lemma {:induction false} ReasonIsTheLastGiven(svc: Service, checks: seq<(bool, Option<string>)>, i: nat)
    requires svc.status != Stopped && i < |checks| && !FailsSilently(checks[i])
    requires forall j | i < j < |checks| :: FailsSilently(checks[j])
    ensures AfterChecks(svc, checks).status != Stopped
    ensures AfterChecks(svc, checks).lastFailureReason == if checks[i].0 then None else checks[i].1
  {
    var n := |checks| - 1;
    NeverStopped(svc, checks[..n]);
    if i < n {
      ReasonIsTheLastGiven(svc, checks[..n], i);
    }
  }

  lemma {:induction false} NeverStopped(svc: Service, checks: seq<(bool, Option<string>)>)
    requires svc.status != Stopped
    ensures AfterChecks(svc, checks).status != Stopped
  {
    if checks != [] {
      NeverStopped(svc, checks[..|checks| - 1]);
    }
  }

  /**
   A start shows the service running and healthy, so it needs no restart, but does not clear the streak: with two or
   more failures before it, the first failed check after it makes the row need one again.
   */
  lemma StartKeepsTheStreak(svc: Service, reason: Option<string>)
    ensures var started := MarkRunning(svc);
            && started.status == Running && started.health == Healthy && !NeedsRestart(started)
            && (NeedsRestart(UpdateHealth(started, false, reason)) <==>
                  && svc.consecutiveFailures >= CRASH_THRESHOLD - 1
                  && NormalizedPolicy(svc.restartPolicy) in {"always", "on-failure"})
  {
  }

  /** The Service and RestartEvent tables. Every method is one session; a name without a row changes nothing. */
  class ServiceTable {
    var rows: map<Name, Service>
    var events: seq<RestartEvent>

    constructor (rows: map<Name, Service>)
      ensures this.rows == rows && events == []
    {
      this.rows := rows;
      events := [];
    }

    method UpdateServiceHealth(name: Name, isHealthy: bool, reason: Option<string>)
      modifies this`rows
      ensures rows == if name in old(rows) then old(rows)[name := UpdateHealth(old(rows)[name], isHealthy, reason)]
                      else old(rows)
    {
      if name !in rows {
        return;
      }
      var svc := rows[name];
      if !isHealthy && svc.status == Stopped {
        return;
      }
      if isHealthy {
        if svc.status != Stopped {
          svc := svc.(status := Running);
        }
        svc := svc.(health := Healthy);
        svc := svc.(consecutiveFailures := 0);
        svc := svc.(lastFailureReason := None);
      } else {
        svc := svc.(consecutiveFailures := svc.consecutiveFailures + 1);
        if svc.consecutiveFailures >= CRASH_THRESHOLD {
          svc := svc.(health := Crashed);
        } else {
          svc := svc.(health := Unhealthy);
        }
        if reason.Some? && reason.value != "" {
          svc := svc.(lastFailureReason := reason);
        }
      }
      rows := rows[name := svc];
    }

    /** `passed` is the status of the row object the caller still has; it counts only when no row is found. */
    method RecordRestartEvent(name: Name, passed: ContainerStatus, reason: string)
      modifies this`events
      ensures |events| == |old(events)| + 1 && events[..|old(events)|] == old(events)
      ensures var event := events[|old(events)|];
              && event.service == name && event.reason == reason
              && event.previousStatus == if name in rows then rows[name].status else passed
    {
      var previousStatus := passed;
      if name in rows {
        previousStatus := rows[name].status;
      }
      events := events + [RestartEvent(name, reason, previousStatus)];
    }

    method RecordManualRestartEvent(name: Name)
      modifies this
      ensures name !in old(rows) ==> rows == old(rows) && events == old(events)
      ensures name in old(rows) ==>
                && rows == old(rows)[name := MarkManualRestart(old(rows)[name])]
                && events == old(events) + [RestartEvent(name, "manual_dashboard_restart", old(rows)[name].status)]
    {
      if name !in rows {
        return;
      }
      var svc := rows[name];
      var previousStatus := svc.status;
      svc := svc.(status := Running);
      svc := svc.(health := Healthy);
      svc := svc.(consecutiveFailures := 0);
      rows := rows[name := svc];
      events := events + [RestartEvent(name, "manual_dashboard_restart", previousStatus)];
    }

    /** The remaining writers assign one row; `write` is the assignment. */
    method Write(name: Name, write: Service -> Service)
      modifies this`rows
      ensures rows == if name in old(rows) then old(rows)[name := write(old(rows)[name])] else old(rows)
    {
      if name in rows {
        rows := rows[name := write(rows[name])];
      }
    }
  }
}
