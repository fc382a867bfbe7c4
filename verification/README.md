# DockFleet in Dafny: self-healing, log and configuration core

DockFleet runs a fleet of Docker containers from one YAML file. This project models the parts of it whose promises are
about whole runs, several threads or several functions at once, and proves those promises for every input, every
interleaving and every reachable state:

- **Self-healing** (`ServiceRows`, `SelfHealing`, `RestartLock`, `RestartGuard`, `RecoveryCycles`, `RowsShown`,
  `Orchestrator`, `Scheduler`, `Passes`, `PollLoop`). The scheduler's thread, the monitor and the dashboard act on the
  same rows and on one guard set behind one lock. `SelfHealing` is a state machine in which each database session,
  each answer from Docker, each taking and releasing of the lock and each look at the guard set is one step;
  `restart_service` and its callers are a small-step program per thread. `RestartLock`, `RestartGuard` and
  `RecoveryCycles` prove invariants of all its runs, and `RowsShown` what a reader of the table sees after each step
  of them. `Orchestrator` and `Scheduler` hold the code itself, as classes that update their fields; they and `Passes`
  prove that a call, a decision and a whole pass that are left alone are runs of that machine. `PollLoop` is the loop
  that decides when each service is checked.
- **Log ingestion** (`LogIngest`, `IngestPoll`, `IngestRuns`, `IngestLimits`). One poll with its cursor, its boundary
  duplicates and its batches, counted line by line, then whole runs of polls that complete, fail or die between two
  commits.
- **Log export** (`LogExport`, `LogSearch`, `ExportPrinting`, `Csv`). Keyset pagination against the plain sorted
  table, also while other writers insert, what the two filters select, and CSV printing against a reader for section 2
  of RFC 4180.
- **Dependency graph** (`Dependencies`). Two depth-first searches, one that rejects cycles with a witness and one that
  orders the services for `up` and `down`.
- **Stream queue** (`StreamQueue`). A bounded queue that drops lines but puts markers back, between two readers and
  one consumer.
- **Scheduler lock** (`SchedulerLock`). Lock file, PID file, `start`, `stop` and crashing processes.
- **Port mappings** (`Ports`). The configuration's parser and the orchestrator's extraction of host ports.

`Text` and `Wrappers` hold strings and what else several modules need. Time is a real number, or an integer where only
the order of stamps matters. What Docker, the clock, a probe or a dying process does is a parameter or a step, so
every theorem holds whatever they do.

## Where the code falls short of its own promise

Each of these is proved with the exact condition under which the promise does hold.

- `enqueue_item` is documented to drop the oldest entries. A push on a full queue does exactly that when a line is at
  the head; with a marker at the head a new line is lost itself, and a new marker costs the second entry
  (`OldestIsDroppedExactly`). So for every capacity the newest line can be lost while older ones wait
  (`NewestLineMayBeLost`).
- Its code says that markers are not dropped. A marker pushed on a full queue whose two oldest entries are both
  markers evicts the second one (`KeepsEveryMarkerExactly`), and for every capacity there is a session that ends
  normally although a reader failed (`ErrorMayBeLost`). An error is seen exactly when its marker was pushed and not
  evicted (`ErrorSeenExactly`).
- Over all runs, ingestion stores no line of a log in time order too often if and only if the log has no blank line
  and no 501 lines with one time stamp (`SafeExactly`). A blank line is stored again by every poll while it is still
  in the window (`BlankLinesAreStoredAgain`), and lines beyond the 500th of one stamp by every poll while that stamp
  is the cursor's (`RepollStoresTheExcess`).
- `_extract_host_ports` finds no port in a bracketed IPv6 mapping that the configuration accepts (`ExtractedIsParsed`,
  `BracketedHostPortIsMissed`).
- A page size of zero exports nothing (`PagingIsSorting`).
- `query_logs` documents a case-sensitive search; the `LIKE` it becomes on SQLite ignores the case of ASCII letters. A
  search is case-sensitive if and only if it has no ASCII letter (`CaseSensitiveExactly`); "a" finds a message that
  has only "A" (`LowerCaseFindsUpperCase`).

## Model

| member | source | states |
|---|---|---|
| `ServiceRows.ServiceTable.UpdateServiceHealth` | dockfleet/health/status.py:80-136 | one recorded check does to the row what the rule for passing, failing and ignored checks says, and touches no other row |
| `ServiceRows.ServiceTable.RecordRestartEvent` | dockfleet/health/status.py:172-215 | exactly one event is appended, with the status of the row as it is in the table, or of the passed object when no row is found |
| `ServiceRows.ServiceTable.RecordManualRestartEvent` | dockfleet/health/status.py:242-278 | a manual restart clears the streak of exactly that row and appends exactly one event with the previous status |
| `ServiceRows.StopOutlastsChecks` | dockfleet/health/status.py:29-77 | a clean stop outlasts every sequence of checks: stopped, healthy, never in need of a restart; it clears neither the restart count nor the streak |
| `ServiceRows.StartKeepsTheStreak` | dockfleet/health/status.py:14-77 | a start shows the service running and healthy but keeps the streak: after two or more failures, the first failed check makes the row need a restart again |
| `ServiceRows.PolicyIsSpelling` | dockfleet/health/status.py:139-169 | a policy, stripped of the white space around it, counts as a word if and only if it spells that word, in any case and with underscores or hyphens |
| `ServiceRows.AutomaticPolicies` | dockfleet/health/status.py:139-169 | the policies under which a row may need a restart are exactly those that spell "always" or "on-failure" |
| `ServiceRows.ReasonIsTheLastGiven` | dockfleet/health/status.py:119-133 | after any checks the reason kept for a service that is not stopped is the last one that was given, and none since the last passing check |
| `RowsShown.FailedCheckShows` | dockfleet/health/status.py:108-133 | in every run, after a failed check of a service that is not stopped its row reads CRASHED if and only if three or more checks have failed in a row, and UNHEALTHY if and only if one or two have |
| `RowsShown.PassedCheckShows` | dockfleet/health/status.py:119-127 | after a passing check the row is healthy, and running unless it was stopped; streak, failure reason and recovery cycle are cleared, counts and other rows are not |
| `RowsShown.IgnoredCheckShows` | dockfleet/health/status.py:108-114 | a failed check of a stopped service changes nothing at all |
| `RowsShown.OperatorShows` | dockfleet/health/status.py:14-77 | what a start and a stop show: status and health of that row alone |
| `RowsShown.CallShows` | dockfleet/core/orchestrator.py:506-600 | field by field, what each step of a restart call writes to its row, and that it writes no other: restarting, running, counted, failed with the reason, or interrupted |
| `RestartGuard.GuardIsExact` | dockfleet/core/orchestrator.py:497-582 | in every reachable state the guard set is exactly the services with a restart in flight, and no service has two |
| `RestartGuard.EntersUnlessInFlight` | dockfleet/core/orchestrator.py:498-504 | with the lock in hand, a request enters the guard set if and only if no call has that service in flight; otherwise it leaves with "already in progress" |
| `RestartLock.LockIsExact` | dockfleet/core/orchestrator.py:498-582 | in every reachable state the restart lock is held exactly by the call that is inside one of its two sections |
| `RestartLock.HolderIsQuick` | dockfleet/core/orchestrator.py:498-504 | in every reachable state the holder's next step neither asks Docker nor touches a row, can be taken at once, and brings it closer to the release, at most two steps away |
| `RestartLock.HeldForTwoSteps` | dockfleet/core/orchestrator.py:580-582 | over every interleaving, while one call has the lock it takes fewer than two steps of its own; the second one releases it |
| `RestartLock.WaitingCallGetsIn` | dockfleet/core/orchestrator.py:498-504 | from every reachable state a waiting call gets the lock after at most two steps of the holder, whichever services the two calls are for |
| `RestartGuard.NothingBlocksACall` | dockfleet/core/orchestrator.py:497-582 | in every reachable state a call can take its next step, at once or after at most two steps of the lock's holder; only its own steps move it, at most twelve in all |
| `RestartGuard.ExitClearsTheGuard` | dockfleet/core/orchestrator.py:567-582 | every exit, normal or exceptional, passes the one step that removes the service from the guard and nothing else, and keeps the outcome |
| `RestartGuard.WritesOfACall` | dockfleet/core/orchestrator.py:520-582 | which steps of a call write the row so that it reads RESTARTING, and that each later write of that call ends it |
| `RestartGuard.RestartingOnlyWhileGuarded` | dockfleet/core/orchestrator.py:520-582 | a row reads RESTARTING only while its service is in the guard, unless the run found it so |
| `RestartGuard.RestartsAreConserved` | dockfleet/core/orchestrator.py:584-600 | across all interleavings, restarts counted in the row equal events stored plus callers that have not stored theirs yet |
| `RestartGuard.NoEventWithoutARow` | dockfleet/core/orchestrator.py:675-682 | of a service without a row no run ever stores a restart |
| `RestartGuard.AtMostOneInside` | dockfleet/core/orchestrator.py:498-582 | at most one call per service is between entering the guard set and releasing the lock on its way out |
| `RestartGuard.CountMatchesTrueReturns` | dockfleet/core/orchestrator.py:553-600 | `restart_count` grows by exactly the calls that returned True, plus one if a call is about to; with the service out of the guard set and the lock free there is none |
| `RestartGuard.StartsAreReturned` | dockfleet/core/orchestrator.py:553-582 | over every interleaving the containers Docker started in restarts are exactly the calls that returned True and those on their way out |
| `RestartGuard.RefusalIsExact` | dockfleet/core/orchestrator.py:480-496 | a request returns False at once if and only if healing is off, the service is unknown or its policy is never; otherwise it takes the lock |
| `RestartGuard.RefusedIsNeverRestarted` | dockfleet/core/orchestrator.py:480-496 | such a service is in no run ever admitted to the guard set, and its container is never started by a restart |
| `RecoveryCycles.FailuresAreTheStreak` | dockfleet/health/status.py:108-136 | `consecutive_failures` is the number of failed checks counted since the last passing check or recorded restart, and UNHEALTHY means one or two |
| `RecoveryCycles.NeedsRestartMeansCrashed` | dockfleet/health/status.py:139-169 | `needs_restart` holds if and only if the row is CRASHED, not STOPPED, under an automatic policy, with a streak of at least three |
| `RecoveryCycles.StoppedStep` | dockfleet/health/status.py:108-125 | no single step but a start or a restart's outcome moves a row out of STOPPED or raises its failures |
| `RecoveryCycles.StoppedIsSticky` | dockfleet/health/scheduler.py:184-192 | the same over every stretch of every run, with any check results still arriving |
| `RecoveryCycles.RestartBudget` | dockfleet/health/scheduler.py:358-370 | restarts with a success, failure or exception outcome since the last passing check never exceed `max_restarts` |
| `RecoveryCycles.DecisionIsExact` | dockfleet/health/scheduler.py:309-416 | a decision calls for a restart if and only if healing is on, the row needs it, budget is left and the current backoff has elapsed since the first eligible decision of this attempt |
| `RecoveryCycles.DelayIsExponential` | dockfleet/health/scheduler.py:376-378 | the first backoff is the configured one, and each counted restart multiplies it by the configured multiplier, or by one when there is none |
| `RecoveryCycles.GeometricIsHorner` | dockfleet/health/scheduler.py:376-378 | the sum of the backoffs in units of the first is 0 for no restart and 1 + m times the sum before it for one more |
| `RecoveryCycles.GeometricBackoff` | dockfleet/health/scheduler.py:372-454 | the n-th counted restart of a recovery cycle starts at least b(1 + m + ... + m^(n-1)), so at least nb, after the cycle's first eligible decision |
| `RecoveryCycles.AlwaysTracked` | dockfleet/health/scheduler.py:376-456 | the attempt counter and the next-attempt time the scheduler keeps agree with the history of the run in every state |
| `Orchestrator.RestartEngine.RestartService` | dockfleet/core/orchestrator.py:462-582 | outcome and rows of an undisturbed call, whether waiting for the ports raises and whether the container starts; the guard is as before on every path |
| `Orchestrator.UndisturbedCall` | dockfleet/core/orchestrator.py:462-600 | with the lock free, the small-step program left alone reaches the return with exactly the method's outcome, rows and guard, and the lock free again |
| `Scheduler.RecordAllIsRecorded` | dockfleet/health/scheduler.py:198-222 | the recording loop does to each row and each memory what its own result says, whatever the order |
| `Scheduler.RecordingIsConfluent` | dockfleet/health/scheduler.py:198-222 | for every completion order of the concurrent checks the recorded rows, attempts and deadlines are the same |
| `Scheduler.PostHealthIsARun` | dockfleet/health/scheduler.py:309-456 | a decision with the call and bookkeeping that follow it is a run of the state machine, and leaves the thread idle |
| `Scheduler.AttemptsCountedExactly` | dockfleet/health/scheduler.py:410-456 | a decision counts exactly one attempt, of its service, if and only if it calls for a restart and the service is not being restarted already, or has nothing to restart |
| `Scheduler.OnlySuccessIsStored` | dockfleet/health/scheduler.py:440-456 | a decision stores an event if and only if its restart succeeded: one, of this service, with that reason, and with the status running when there is a row |
| `Scheduler.RecoveryScheduler.RecordResults` | dockfleet/health/scheduler.py:198-222 | the loop over the completed checks computes the recording of all of them |
| `Scheduler.RecoveryScheduler.PassesGates` | dockfleet/health/scheduler.py:318-370 | the cascade of early returns is the eligibility predicate, on the table and the dictionaries as they are |
| `Scheduler.RecoveryScheduler.BackoffElapsed` | dockfleet/health/scheduler.py:372-399 | the backoff branch agrees with the decision of the state machine and stores the same next-attempt time |
| `Scheduler.RecoveryScheduler.SettleCall` | dockfleet/health/scheduler.py:410-456 | the bookkeeping for each outcome; a restart already in progress is not counted |
| `Scheduler.RecoveryScheduler.HandlePostHealth` | dockfleet/health/scheduler.py:309-456 | one decision from the row to the bookkeeping; the guard is left as it was |
| `Scheduler.RecoveryScheduler.RecordAndDecide` | dockfleet/health/scheduler.py:198-235 | every result of a pass is recorded before the first decision is taken on any of them |
| `Passes.PassIsARun` | dockfleet/health/scheduler.py:198-235 | what a pass does to the tables and the dictionaries is a run of the state machine: one recorded check per result, then decisions and the calls they lead to |
| `Passes.PassExtendsTheRun` | dockfleet/health/scheduler.py:198-235 | after any run a pass makes a longer run, so every theorem about runs holds of the scheduler after any number of passes |
| `Passes.PassKeepsTheBudget` | dockfleet/health/scheduler.py:358-370 | the attempts the scheduler remembers after a pass are within `max_restarts`, whatever happened before |
| `PollLoop.CheckSchedule.DueServices` | dockfleet/health/scheduler.py:276-287 | exactly the health-checked services without a deadline or with one that has passed |
| `PollLoop.CheckSchedule.ScheduleChecks` | dockfleet/health/scheduler.py:163-196 | every selected service gets its next deadline, also when it is skipped as STOPPED, and exactly the others are submitted |
| `PollLoop.CheckSchedule.NextSleepSeconds` | dockfleet/health/scheduler.py:289-307 | the sleep never passes a deadline nor the cap, and ends exactly at one of the two |
| `PollLoop.CheckSchedule.Once` | dockfleet/health/scheduler.py:252-272 | one turn checks exactly what was due in the history of the loop and keeps the dictionary equal to that history |
| `PollLoop.CheckSchedule.Poll` | dockfleet/health/scheduler.py:237-274 | the loop, for any durations of its passes, is a run in the sense of the fairness theorems |
| `PollLoop.NoDeadlinePassesAsleep` | dockfleet/health/scheduler.py:289-307 | no deadline passes while the loop sleeps |
| `PollLoop.NothingIsOverlooked` | dockfleet/health/scheduler.py:276-287 | a service whose deadline has passed when a turn starts is checked in that turn |
| `PollLoop.ChecksAreTimely` | dockfleet/health/scheduler.py:252-307 | a check is late by at most what remained, at its deadline, of the pass that was running |
| `PollLoop.ChecksAreApart` | dockfleet/health/scheduler.py:173-179 | two checks of one service start at least its interval apart |
| `PollLoop.ExactWithInstantPasses` | dockfleet/health/scheduler.py:252-307 | with passes that take no time a service is checked exactly every interval, stopped or not |
| `PollLoop.SleepIsBounded` | dockfleet/health/scheduler.py:289-307 | no sleep is longer than the loop interval, or a second if that is shorter |
| `PollLoop.WakesForAReason` | dockfleet/health/scheduler.py:289-307 | the loop wakes at once, at that cap, or exactly one interval after the last check of some service |
| `PollLoop.WithoutChecksEveryLoopInterval` | dockfleet/health/scheduler.py:301-303 | without health checks a turn starts every loop interval, or at once after a longer one |
| `PollLoop.OnlyCheckedWithACheck` | dockfleet/health/scheduler.py:276-287 | no service without a health check is ever checked |
| `LogIngest.LogTables.BoundaryRecords` | dockfleet/health/log_ingestor.py:130-146 | the boundary is the multiset of those of the newest 500 events that are not older than the cursor |
| `LogIngest.LogTables.WithoutDuplicate` | dockfleet/health/log_ingestor.py:169-177 | one line is dropped or kept as the multiset rule says, and uses up at most one stored event |
| `LogIngest.LogTables.StoreLine` | dockfleet/health/log_ingestor.py:179-204 | a full batch commits events and cursor together, and nothing is lost between batches |
| `LogIngest.LogTables.IngestOnce` | dockfleet/health/log_ingestor.py:78-215 | one poll, also one that dies after some of its commits, leaves exactly the committed prefix of what it accepts and that prefix's last stamp |
| `IngestPoll.AcceptedExactly` | dockfleet/health/log_ingestor.py:148-177 | of each line, a poll accepts exactly: every occurrence without a cursor, beyond it or if it is blank; none before it; and at the cursor, as many as the stored boundary does not have |
| `IngestPoll.AcceptedInOrder` | dockfleet/health/log_ingestor.py:148-177 | the accepted lines stand in the order in which Docker printed them |
| `IngestPoll.BoundaryExactly` | dockfleet/health/log_ingestor.py:130-146 | an event is in the boundary as often as the newest 500 events have it, if it is not older than the cursor |
| `IngestPoll.CommittedExactly` | dockfleet/health/log_ingestor.py:179-215 | a poll that dies has stored a thousand accepted lines per commit, or all if there are fewer, behind all earlier events |
| `IngestPoll.LastStampExactly` | dockfleet/health/log_ingestor.py:179-204 | the cursor after some lines is the stamp of the last one that has a stamp |
| `IngestRuns.InvHolds` | dockfleet/health/log_ingestor.py:81-215 | in every run the events are some lines up to the first cursor, none too often, and then a prefix of the newer lines, each once and in order |
| `IngestRuns.NothingStoredTwice` | dockfleet/health/log_ingestor.py:169-215 | after any polls, failures and deaths no line is stored more often than it occurs in the log |
| `IngestRuns.ExactlyOnceInOrder` | dockfleet/health/log_ingestor.py:81-215 | after any such run that ends with a completed poll, every line newer than the first cursor is stored exactly once and in log order |
| `IngestRuns.LaterPoll` | dockfleet/health/log_ingestor.py:169-215 | a later poll extends the stored prefix of newer lines, to the end of the log if it completes |
| `IngestLimits.BlankLinesAreStoredAgain` | dockfleet/health/log_ingestor.py:148-177 | every completed poll adds one event per blank line of its window, whatever was stored before |
| `IngestLimits.RepollStoresTheExcess` | dockfleet/health/log_ingestor.py:136-146 | from a store that has all lines at its cursor, polling again with nothing new changes nothing if and only if they are at most 500; otherwise it stores exactly the excess again |
| `IngestLimits.BlankIsUnsafe` | dockfleet/health/log_ingestor.py:148-177 | for every log in time order with a blank line there is a run that stores more blank events than it has blank lines |
| `IngestLimits.BigGroupIsUnsafe` | dockfleet/health/log_ingestor.py:136-146 | for every log with over 500 lines of one stamp there is a run that stores some line more often than it occurs |
| `IngestLimits.SafeExactly` | dockfleet/health/log_ingestor.py:81-215 | every run over a log in time order stores each of its lines at most as often as it occurs if and only if it has no blank line and no 501 lines share a stamp |
| `LogExport.Select` | dockfleet/health/logs.py:109-121 | exactly the rows of the table that match the filter and lie behind the cursor |
| `LogExport.OrderedIsDescending` | dockfleet/health/logs.py:123 | ordering the rows gives the same rows, strictly descending in (created_at, id) |
| `LogExport.DescendingIsUnique` | dockfleet/health/logs.py:123 | a strictly descending listing is determined by the rows in it |
| `LogExport.QueryIsAPage` | dockfleet/health/logs.py:85-135 | one query is a descending page of selected rows, and every selected row that is not on it comes after its last |
| `LogExport.PageLength` | dockfleet/health/logs.py:106-131 | a page has as many rows as asked for, or a thousand, or all there are, whichever is least |
| `LogExport.DescendingIsNewestFirst` | dockfleet/health/logs.py:123 | strictly descending means newest first, and among rows of one time stamp the larger id first |
| `LogExport.PageShrinks` | dockfleet/health/logs.py:150-172 | after a page there is strictly less left to select, so the paged loop ends |
| `LogExport.YieldsDescending` | dockfleet/health/logs.py:150-172 | over all pages and whatever is added meanwhile, what is yielded is strictly descending and matches |
| `LogExport.YieldsEverything` | dockfleet/health/logs.py:150-172 | no matching row that was in the table at the start is missed |
| `LogExport.ExportUnderInserts` | dockfleet/health/logs.py:138-172 | the whole export under concurrent inserts: descending, no row twice, every row present at the start exactly once |
| `LogExport.PagingIsSorting` | dockfleet/health/logs.py:138-172 | on a table nobody changes, paging equals sorting the whole filtered table if and only if the page size is not zero or nothing matches |
| `LogSearch.CaseSensitiveExactly` | dockfleet/health/logs.py:94-116 | a search finds exactly the messages that contain it as written if and only if it has no ASCII letter |
| `LogSearch.LowerCaseFindsUpperCase` | dockfleet/health/logs.py:94-116 | a search for "a" finds a message that has only "A" |
| `LogSearch.ServiceFilterExactly` | dockfleet/health/logs.py:112-113 | a service filter selects exactly the rows whose service has the same length and, character by character, the same character or the same letter in the other case |
| `LogSearch.SearchExactly` | dockfleet/health/logs.py:115-116 | a search selects exactly the rows with a message in which it stands somewhere, up to the case of letters |
| `LogSearch.FiltersCombine` | dockfleet/health/logs.py:109-116 | with both filters a row is selected if and only if each of them alone selects it; an empty filter selects every row |
| `ExportPrinting.IterLogsAsText` | dockfleet/health/logs.py:138-172 | the text generator yields one line for each row of all pages, in order |
| `ExportPrinting.IterLogsAsCsv` | dockfleet/health/logs.py:189-241 | the CSV generator yields the header and one chunk for each page |
| `ExportPrinting.ExportRoundTrip` | dockfleet/health/logs.py:189-241 | reading header and all chunks back gives the header and exactly the five fields of every row, for all rows and strings |
| `ExportPrinting.PrintingIsInjective` | dockfleet/health/logs.py:175-186 | equal exports come from rows with equal fields, however they were split into pages |
| `ExportPrinting.ExportAndReadBack` | dockfleet/health/logs.py:189-241 | on a table nobody changes, what the CSV generator yields is read back as the header and the fields of the whole sorted filtered table, for every page size but zero |
| `ExportPrinting.ColumnsAreNamed` | dockfleet/health/logs.py:200-235 | in the text read back, the field of a row in each column is the field that the header of that column names |
| `ExportPrinting.TextLineReadsBack` | dockfleet/health/logs.py:163-168 | a text line can be taken apart into stamp, service and message again, when the first two have no closing bracket |
| `Csv.FieldRoundTrip` | dockfleet/health/logs.py:175-186 | an RFC 4180 reader gets every printed field back, whatever separator follows it |
| `Csv.QuotedOnlyWhenNeeded` | dockfleet/health/logs.py:175-186 | a field is written as it is if and only if it has no comma, quote or line break |
| `Csv.RecordRoundTrip` | dockfleet/health/logs.py:216-232 | and every printed record |
| `Csv.ChunkRoundTrip` | dockfleet/health/logs.py:234-235 | and every chunk of records, in front of any readable text |
| `Dependencies.OrderedMeansAcyclic` | dockfleet/core/orchestrator.py:684-717 | an order with dependencies first exists only for graphs without a closed walk |
| `Dependencies.WalkCloses` | dockfleet/cli/config.py:278-284 | the reported path is a real closed walk along `depends_on` and passes no service twice |
| `Dependencies.CycleFinder.Visit` | dockfleet/cli/config.py:278-294 | the recursive visit finds a closed walk or finishes the service and all it depends on; it ends because each nested visit enters one more service |
| `Dependencies.ValidateDependsOn` | dockfleet/cli/config.py:263-298 | accepts if and only if every dependency is defined and the graph is acyclic; an unknown reference is real and reported first, a cycle is a real simple one |
| `Dependencies.ServiceSorter.Visit` | dockfleet/core/orchestrator.py:690-712 | the sort's visit fails only on a cyclic graph, and else finishes the service after all it depends on |
| `Dependencies.ResolveServiceOrder` | dockfleet/core/orchestrator.py:684-717 | fails if and only if the graph is cyclic; otherwise each service exactly once, with all its dependencies before it |
| `Dependencies.Up` | dockfleet/core/orchestrator.py:735-748 | attempts every service once, dependencies first, whatever failed before, and reports exactly the failures |
| `Dependencies.FailuresInOrder` | dockfleet/core/orchestrator.py:737-745 | the failures of a list of services are those of its parts, in the order in which they were attempted |
| `Dependencies.ReversedStopsDependentsFirst` | dockfleet/core/orchestrator.py:755 | reversing a start order stops every service before anything it depends on |
| `Dependencies.Down` | dockfleet/core/orchestrator.py:750-761 | attempts every service once, dependents first, and reports exactly the failures |
| `Dependencies.AcceptedIsDeployable` | dockfleet/cli/config.py:263-298 | what the validator accepts never makes the sort fail, and a reported cycle always does |
| `StreamQueue.KeepsEveryMarkerExactly` | dockfleet/core/logs.py:42-80 | one push keeps every marker and adds its own if and only if it does not evict, that is, unless it is a marker on a full queue with two markers at the head |
| `StreamQueue.ErrorSeenExactly` | dockfleet/core/logs.py:141-190 | over every interleaving, the consumer sees an error before it ends if and only if some error marker was pushed and not evicted |
| `StreamQueue.ErrorMayBeLost` | dockfleet/core/logs.py:47-68 | for every capacity there is a session that ends without showing a reader's error |
| `StreamQueue.EndedExactly` | dockfleet/core/logs.py:141-180 | in every session an error marker or the second end marker is the last thing delivered, and the session has ended if and only if one of them was or the consumer found the queue empty with both readers finished |
| `StreamQueue.ConsumerGetsToTheEnd` | dockfleet/core/logs.py:141-160 | once both readers have finished, the consumer comes to its end in at most one turn more than entries wait |
| `StreamQueue.FirstInFirstOut` | dockfleet/core/logs.py:42-80 | while no more is pushed than the queue holds, the delivered and the waiting entries are all that was pushed, in order |
| `StreamQueue.OldestIsDroppedExactly` | dockfleet/core/logs.py:46-80 | a push on a full queue drops the oldest entry and nothing else if and only if a line is at the head (or the second entry, lost to a marker, equals the first); a line pushed against a marker is lost itself |
| `StreamQueue.FullPushLosesOne` | dockfleet/core/logs.py:46-80 | a push on a full queue loses exactly one entry: the line at the head, else the second entry to a marker, else the new line |
| `StreamQueue.NewestLineMayBeLost` | dockfleet/core/logs.py:69-80 | for every capacity there is a session in which the line pushed last is lost while older lines wait |
| `StreamQueue.LinesStayInOrder` | dockfleet/core/logs.py:69-80 | the delivered lines of each stream, then the waiting ones, are an in-order subsequence of those pushed |
| `StreamQueue.EndsComeLast` | dockfleet/core/logs.py:90-136 | no line of a stream is delivered or waits behind that stream's end marker |
| `StreamQueue.BothEndsArrive` | dockfleet/core/logs.py:141-190 | without reader errors both end markers are delivered, each after its stream's last delivered line |
| `StreamQueue.Run` | dockfleet/core/logs.py:34-88 | in every reachable session the queue is no longer than its capacity |
| `StreamQueue.LogStream.PushOrDrop` | dockfleet/core/logs.py:42-80 | the get-and-put steps of a push come to the queue that the theorems are about |
| `StreamQueue.LogStream.EnqueueItem` | dockfleet/core/logs.py:37-88 | a reader's push is one step of the session |
| `StreamQueue.LogStream.ConsumerTurn` | dockfleet/core/logs.py:141-190 | a turn of the consumer is one step of the session; its counter of active streams reaches zero exactly when both end markers were taken |
| `SchedulerLock.FileLock.TryAcquire` | dockfleet/health/scheduler_lock.py:146-181 | the calls on files and locks come to the acquisition that the theorems are about, also when an older descriptor is still open |
| `SchedulerLock.FileLock.RaiseConflict` | dockfleet/health/scheduler_lock.py:290-339 | the same for the conflict path with its stale-lock recovery |
| `SchedulerLock.FileLock.ReleaseIt` | dockfleet/health/scheduler_lock.py:184-211 | the same for releasing, which is without effect when the lock is not held |
| `SchedulerLock.HealthScheduler.Start` | dockfleet/health/scheduler.py:72-102 | nothing while the thread runs, else the thread runs exactly if the lock was acquired |
| `SchedulerLock.HealthScheduler.Stop` | dockfleet/health/scheduler.py:104-136 | a stop that times out changes nothing, any other releases |
| `SchedulerLock.AttemptIsExact` | dockfleet/health/scheduler_lock.py:146-181 | an attempt acquires if and only if no other living scheduler holds the lock; else it names that holder's process and changes nothing |
| `SchedulerLock.InvHolds` | dockfleet/health/scheduler_lock.py:146-347 | every step of every run keeps lock file, PID file, locks and schedulers consistent |
| `SchedulerLock.OneLiveScheduler` | dockfleet/health/scheduler_lock.py:76-81 | in every run a live polling thread has its lock held, at most one polls, and the PID file names it |
| `SchedulerLock.StartIsExact` | dockfleet/health/scheduler_lock.py:290-339 | in every run `start` fails with the living holder's process or takes the lock at once; stale recovery never runs |
| `SchedulerLock.CrashFreesTheLock` | dockfleet/health/scheduler_lock.py:159-181 | after the holder's process has died, the next `start` gets the lock |
| `SchedulerLock.StopKeepsTheLockWhileItPolls` | dockfleet/health/scheduler.py:115-136 | after a stop another scheduler can start if and only if the thread has really exited |
| `SchedulerLock.DeadThreadKeepsTheLock` | dockfleet/health/scheduler.py:87-102 | a polling thread that ends by itself leaves its process with the lock: others are turned away with that process, and the scheduler itself can start again |
| `SchedulerLock.StopClearsTheFiles` | dockfleet/health/scheduler_lock.py:184-211 | in every run a stop that is not timed out removes both files, frees the lock and clears the handle of a scheduler that held it, and changes no file for one that did not |
| `SchedulerLock.FilesExistWhileHeld` | dockfleet/health/scheduler_lock.py:159-211 | in every run in which no holder crashed, once the lock has been taken the PID file and the lock file exist if and only if a living scheduler has it |
| `SchedulerLock.ConflictIsExact` | dockfleet/health/scheduler_lock.py:290-347 | on any host: with no PID file, or one that names a living process, the conflict path changes nothing; else it takes the lock on a new file and touches no other lock |
| `SchedulerLock.FailureHoldsNothing` | dockfleet/health/scheduler_lock.py:159-181 | a failed attempt, from any host and handle, leaves no descriptor open and no lock held through an older one |
| `Ports.PrintedIsParsed` | dockfleet/cli/config.py:95-130 | printing a mapping and parsing it gives it back, for every port, address and protocol suffix, or none |
| `Ports.AcceptedIsPrintable` | dockfleet/cli/config.py:95-130 | whatever is accepted has ports in range and an address that can be printed again |
| `Ports.AcceptedReads` | dockfleet/cli/config.py:95-130 | every accepted mapping reads as an address, if any, then two numbers with a colon between them, and the result is these three |
| `Ports.PortRangeIsExact` | dockfleet/cli/config.py:116-128 | two numbers with a colon between them are accepted if and only if both are from 1 to 65535, whatever their size |
| `Ports.ProtocolIsExact` | dockfleet/cli/config.py:95-99 | what follows the first slash must be nothing, or tcp, udp or sctp in any case, and has no other effect |
| `Ports.ExtractHostPorts` | dockfleet/core/orchestrator.py:260-283 | the loop collects, in order, what each mapping yields |
| `Ports.ExtractedIsParsed` | dockfleet/core/orchestrator.py:264-283 | an accepted mapping yields exactly its parsed host port if and only if it does not hide a colon in brackets; else nothing |
| `Ports.ExtractedAddress` | dockfleet/core/orchestrator.py:264-283 | the address beside the host port is the one in the mapping, without white space in front of it, or any address when there is none |
| `Ports.BracketedHostPortIsMissed` | dockfleet/core/orchestrator.py:264-283 | every IPv6 mapping is accepted and its host port is missed |
| `Text.DigitsRoundTrip` | dockfleet/cli/config.py:119-123 | every port number survives being written and read |

## Left out

- Docker, sockets, probes and subprocesses: their answers are parameters or steps, so nothing is said about what they do.
- Docker's answer to `--since` is taken to be every line at or after the cursor, in log order.
- `Orchestrator.UndisturbedCall`: starts with the restart lock free; while another call has it and does not move, the call waits.
- Which of several waiting calls gets the restart lock next is left open, as it is in the source.
- Database failures and corrupted rows: each `get_session` block succeeds as one atomic step on valid values.
- Time stamps of the health rows (`last_health_check`, `last_restart_at`) are not kept.
- Rounding: backoffs, intervals and clocks are real numbers; a sleep lasts as long as it was asked to.
- `RestartGuard.RestartingOnlyWhileGuarded`: rows that already read RESTARTING when the process started are excepted, because an earlier process may have left them so.
- `RecoveryCycles.FailuresAreTheStreak`: what UNHEALTHY means is left open for a row that starts out UNHEALTHY with no failure or with three or more; no code writes such a row.
- The gap between loading the row and acting on the decision is not modelled: a decision is one step.
- `PollLoop.CheckSchedule.Once`: the instant at which a turn starts is also the base of the new deadlines; the source reads the clock twice in a row.
- Checks that raise: they are logged and leave no result, so they do not appear among a pass's results.
- `LogIngest.LogTables.IngestOnce`: the text of a stored blank line (its stamp) and the calendar are not modelled; stamps are integers of one resolution.
- `IngestRuns.ExactlyOnceInOrder`: the ingestor is the only writer of the service's events, as the dashboard's log stream is not part of this model.
- Upper and lower case, white space and digits outside ASCII.
- `LogExport.QueryIsAPage`: the offset of a query is not modelled; the exports never pass one.
- `RowsShown.CallShows`: a restart that raises leaves one fixed reason; the text of the exception is not modelled.
- `Ports.ExtractHostPorts`: signs, blanks and underscores that Python's `int` accepts yield no port here; no accepted mapping has them.
- `LogExport.ExportUnderInserts`: rows are only added; deleting rows during an export is not modelled.
- `SchedulerLock.InvHolds`: the lock is modelled one call at a time; interleavings inside `acquire` or `release`, Windows locking, reuse of process ids and the command that deletes the lock files are not modelled.
- Disconnecting clients, the tail of stderr kept for an exit message, and exit codes of `docker logs`.
- Seeding, Docker flags, HTTP routes, templates, CLI output, statistics and environment checks: they would only add easy members.
