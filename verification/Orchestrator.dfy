/**
 `restart_service` and the scheduler's use of it as the code writes them: on the shared table, in place, one call at a
 time. An undisturbed call is proved to be a run of the small-step machine of `SelfHealing`.
 */
module Orchestrator {
  import opened Wrappers
  import opened ServiceRows
  import opened SelfHealing

  /** How a call ends: whether waiting for the ports raises, and whether the container starts. */
  function CallOutcome(config: Config, name: Name, caller: Caller, taken: bool, waitRaises: bool, starts: bool)
    : Outcome
  {
    if config.Refuses(name) then NotRestarted
    else if taken then (if caller.Scheduler? then InProgress else NotRestarted)
    else if waitRaises then Raised
    else if starts then Restarted
    else NotRestarted
  }

  /** When a call returns True, when it raises, and when it says that a restart is in progress. */
  lemma OutcomeIsExact(config: Config, name: Name, caller: Caller, taken: bool, waitRaises: bool, starts: bool)
    ensures var outcome := CallOutcome(config, name, caller, taken, waitRaises, starts);
            var may := config.orchestratorHealing && name in config.services && config.services[name].restart != Never;
            && (outcome == Restarted <==> may && !taken && !waitRaises && starts)
            && (outcome == Raised <==> may && !taken && waitRaises)
            && (outcome == InProgress <==> may && taken && caller.Scheduler?)
  {
  }

  /** What a call that entered the guard leaves in its row. */
  function CallRow(row: Service, waitRaises: bool, starts: bool): Service {
    if waitRaises then row.(health := Crashed)
    else if starts then CountRestart(MarkRunning(row))
    else MarkRestartFailed(row, "start_service returned False")
  }

  function GuardedRows(rows: map<Name, Service>, name: Name, waitRaises: bool, starts: bool): map<Name, Service> {
    if name in rows then rows[name := CallRow(rows[name], waitRaises, starts)] else rows
  }

  function CallRows(config: Config, rows: map<Name, Service>, active: set<Name>, name: Name, waitRaises: bool,
                    starts: bool)
    : map<Name, Service>
  {
    if config.Refuses(name) || name in active then rows else GuardedRows(rows, name, waitRaises, starts)
  }

  class RestartEngine {
    const config: Config
    const table: ServiceTable
    var activeRestarts: set<Name>

    constructor (config: Config, table: ServiceTable)
      ensures this.config == config && this.table == table && activeRestarts == {}
    {
      this.config := config;
      this.table := table;
      activeRestarts := {};
    }

    /** One undisturbed call; an exception is the outcome `Raised`, and the `finally` clause runs on every path. */
    method RestartService(name: Name, caller: Caller, waitRaises: bool, starts: bool) returns (outcome: Outcome)
      modifies this`activeRestarts, table`rows
      ensures activeRestarts == old(activeRestarts)
      ensures outcome == CallOutcome(config, name, caller, name in old(activeRestarts), waitRaises, starts)
      ensures table.rows == CallRows(config, old(table.rows), old(activeRestarts), name, waitRaises, starts)
    {
      if !config.orchestratorHealing || name !in config.services || config.services[name].restart == Never {
        return NotRestarted;
      }
      if name in activeRestarts {
        return if caller.Scheduler? then InProgress else NotRestarted;
      }
      activeRestarts := activeRestarts + {name};
      table.Write(name, MarkRestarting);
      if waitRaises {
        table.Write(name, MarkInterrupted);
        outcome := Raised;
      } else if starts {
        table.Write(name, MarkRunning);
        table.Write(name, CountRestart);
        outcome := Restarted;
      } else {
        table.Write(name, svc => MarkRestartFailed(svc, "start_service returned False"));
        outcome := NotRestarted;
      }
      activeRestarts := activeRestarts - {name};
    }
  }

  // ---------------------------------------------------------------- an undisturbed call is a run of the machine

  /** `thread` advances alone, once for each element of `luck`. */
  ghost function RunAlone(config: Config, state: State, thread: ThreadId, luck: seq<bool>): Option<State> {
    RunFrom(config, state, Moves(thread, luck))
  }

  function Moves(thread: ThreadId, luck: seq<bool>): seq<Step> {
    seq(|luck|, i requires 0 <= i < |luck| => Advance(thread, luck[i]))
  }

  lemma MovesOneMore(thread: ThreadId, luck: seq<bool>, next: bool)
    ensures Moves(thread, luck + [next]) == Moves(thread, luck) + [Advance(thread, next)]
  {
  }

  function Written(rows: map<Name, Service>, name: Name, write: Write): map<Name, Service> {
    if name in rows && !write.NoWrite? then rows[name := Assign(write, rows[name])] else rows
  }

  /** How far a call has come: what it does next, and what it has made of the rows, the guard set and the lock. */
  datatype Place = Place(pc: Pc, rows: map<Name, Service>, active: set<Name>, lock: Option<ThreadId>)

  /** The place after one more step. */
  function Onward(config: Config, at: Place, thread: ThreadId, luck: bool): Place
    requires !at.pc.Idle?
  {
    var name := at.pc.service;
    var effect := Program(config, at.pc, name in at.active, luck);
    Place(effect.next, Written(at.rows, name, effect.write),
          match effect.guard
          case Keep => at.active
          case Add => at.active + {name}
          case Discard => at.active - {name},
          match effect.lock
          case Stay => at.lock
          case Take => Some(thread)
          case Free => None)
  }

  /** Compared with `first`, `now` differs only in one thread, the rows, the guard set and the lock. */
  ghost predicate Reached(first: State, now: State, thread: ThreadId, at: Place) {
    && now.PcOf(thread) == at.pc && now.rows == at.rows && now.active == at.active && now.lock == at.lock
    && now.events == first.events && now.cycles == first.cycles && now.clock == first.clock
    && forall other | other != thread :: now.PcOf(other) == first.PcOf(other)
  }

  lemma ReachedMoved(first: State, now: State, thread: ThreadId, at: Place, effect: Effect)
    requires Reached(first, now, thread, at) && !at.pc.Idle? && !effect.storesEvent && !effect.countsAttempt
    ensures var after, name := Moved(now, thread, effect), at.pc.service;
            && after.PcOf(thread) == effect.next && after.rows == Written(at.rows, name, effect.write)
            && after.events == first.events && after.cycles == first.cycles && after.clock == first.clock
            && forall other | other != thread :: after.PcOf(other) == first.PcOf(other)
  {
  }

  lemma NothingRecorded(config: Config, pc: Pc, taken: bool, luck: bool)
    requires !pc.Idle? && !pc.Returned? && !pc.Recording?
    ensures var effect := Program(config, pc, taken, luck); !effect.storesEvent && !effect.countsAttempt
  {
  }

  /** A call inside `restart_service` can take its next step. */
  predicate CanMove(config: Config, at: Place) {
    !at.pc.Idle? && !at.pc.Returned? && !at.pc.Recording? && (Waits(config, at.pc) ==> at.lock.None?)
  }

  function Further(config: Config, thread: ThreadId, at: Place, luck: bool): Option<Place> {
    if CanMove(config, at) then Some(Onward(config, at, thread, luck)) else None
  }

  /** One more step of a call that is still inside `restart_service`. */
  lemma OneMore(config: Config, first: State, thread: ThreadId, luck: seq<bool>, now: State, at: Place, next: bool,
                to: Place)
    returns (after: State)
    requires RunAlone(config, first, thread, luck) == Some(now) && Reached(first, now, thread, at)
    requires Further(config, thread, at, next) == Some(to)
    ensures RunAlone(config, first, thread, luck + [next]) == Some(after)
    ensures Reached(first, after, thread, to)
  {
    MovesOneMore(thread, luck, next);
    after := Advanced(config, now, thread, next);
    RunFromOneMore(config, first, Moves(thread, luck), now, Advance(thread, next));
    NothingRecorded(config, at.pc, at.pc.service in at.active, next);
    ReachedMoved(first, now, thread, at, Program(config, at.pc, at.pc.service in at.active, next));
  }

  /** The rows a call leaves are its writes, one after the other. */
  lemma RowsOfACall(rows: map<Name, Service>, name: Name)
    ensures var shown := Written(rows, name, WriteRestarting);
            && GuardedRows(rows, name, true, false) == Written(shown, name, WriteInterrupted)
            && GuardedRows(rows, name, true, true) == Written(shown, name, WriteInterrupted)
            && GuardedRows(rows, name, false, true) == Written(Written(shown, name, WriteRunning), name, WriteCount)
            && GuardedRows(rows, name, false, false)
               == Written(shown, name, WriteFailed("start_service returned False"))
  {
  }

  /** Where a call inside `restart_service` comes when it is left alone, as far as it can move. */
  function Along(config: Config, at: Place, thread: ThreadId, luck: seq<bool>): Option<Place> {
    Fold((now: Place, next: bool) => Further(config, thread, now, next), at, luck)
  }

  lemma AlongThen(config: Config, at: Place, thread: ThreadId, luck: seq<bool>, to: Place, more: seq<bool>)
    requires Along(config, at, thread, luck) == Some(to)
    ensures Along(config, at, thread, luck + more) == Along(config, to, thread, more)
  {
    FoldThen((now: Place, next: bool) => Further(config, thread, now, next), at, luck, to, more);
  }

  lemma BeforeTheLast(config: Config, at: Place, thread: ThreadId, luck: seq<bool>, to: Place) returns (before: Place)
    requires luck != [] && Along(config, at, thread, luck) == Some(to)
    ensures Along(config, at, thread, luck[..|luck| - 1]) == Some(before)
    ensures Further(config, thread, before, luck[|luck| - 1]) == Some(to)
  {
    before := Along(config, at, thread, luck[..|luck| - 1]).value;
  }

  /** Moving from place to place is running in the machine. */
  lemma {:induction false} AlongIsARun(config: Config, first: State, thread: ThreadId, at: Place, luck: seq<bool>,
                                       to: Place)
    returns (last: State)
    requires Reached(first, first, thread, at) && Along(config, at, thread, luck) == Some(to)
    ensures RunAlone(config, first, thread, luck) == Some(last) && Reached(first, last, thread, to)
    decreases |luck|
  {
    if luck == [] {
      last := first;
    } else {
      var n := |luck| - 1;
      var before := BeforeTheLast(config, at, thread, luck, to);
      var now := AlongIsARun(config, first, thread, at, luck[..n], before);
      last := OneMore(config, first, thread, luck[..n], now, before, luck[n], to);
      assert luck[..n] + [luck[n]] == luck;
    }
  }

  lemma OneAlong(config: Config, at: Place, thread: ThreadId, luck: bool)
    requires CanMove(config, at)
    ensures Along(config, at, thread, [luck]) == Some(Onward(config, at, thread, luck))
  {
    FoldOne((now: Place, next: bool) => Further(config, thread, now, next), at, luck);
  }

  lemma ThreeAlong(config: Config, a: Place, thread: ThreadId, b: Place, c: Place)
    requires Along(config, a, thread, [true]) == Some(b) && Along(config, b, thread, [true]) == Some(c)
    ensures Along(config, a, thread, [true, true, true]) == Along(config, c, thread, [true])
  {
    AlongThen(config, a, thread, [true], b, [true]);
    assert [true] + [true] == [true, true];
    AlongThen(config, a, thread, [true, true], c, [true]);
    assert [true, true] + [true] == [true, true, true];
  }

  /** From waiting for the lock to the release: the guard set loses the service, and the call returns its outcome. */
  lemma LeavingAlong(config: Config, thread: ThreadId, caller: Caller, name: Name, outcome: Outcome,
                     rows: map<Name, Service>, active: set<Name>)
    ensures Along(config, Place(Leaving(caller, name, outcome), rows, active, None), thread, [true, true, true])
         == Some(Place(Returned(caller, name, outcome), rows, active - {name}, None))
  {
    var leaving := Place(Leaving(caller, name, outcome), rows, active, None);
    var discarding := Place(Discarding(caller, name, outcome), rows, active, Some(thread));
    var dropped := Place(Dropped(caller, name, outcome), rows, active - {name}, Some(thread));
    OneAlong(config, leaving, thread, true);
    OneAlong(config, discarding, thread, true);
    OneAlong(config, dropped, thread, true);
    ThreeAlong(config, leaving, thread, discarding, dropped);
  }

  /** From the last write to the return. */
  lemma LastWriteAlong(config: Config, thread: ThreadId, at: Place)
    requires (at.pc.Counting? || at.pc.Failing? || at.pc.Raising?) && at.lock.None?
    ensures var name, effect := at.pc.service, Program(config, at.pc, true, true);
            Along(config, at, thread, [true] + [true, true, true])
            == Some(Place(Returned(at.pc.caller, name, effect.next.outcome), Written(at.rows, name, effect.write),
                          at.active - {name}, None))
  {
    var leaving := Onward(config, at, thread, true);
    OneAlong(config, at, thread, true);
    AlongThen(config, at, thread, [true], leaving, [true, true, true]);
    LeavingAlong(config, thread, at.pc.caller, at.pc.service, leaving.pc.outcome, leaving.rows, at.active);
  }

  /** From starting the container to the return. */
  lemma StartingAlong(config: Config, thread: ThreadId, caller: Caller, name: Name,
                      rows: map<Name, Service>, active: set<Name>, starts: bool)
    ensures Along(config, Place(Starting(caller, name), rows, active, None), thread,
        [starts] + ([true] + [true, true, true]))
         == Some(Place(Returned(caller, name, if starts then Restarted else NotRestarted),
                       if starts then Written(Written(rows, name, WriteRunning), name, WriteCount)
                       else Written(rows, name, WriteFailed("start_service returned False")),
                       active - {name}, None))
  {
    var starting := Place(Starting(caller, name), rows, active, None);
    var writing := if starts then Place(Counting(caller, name), Written(rows, name, WriteRunning), active, None)
                   else Place(Failing(caller, name), rows, active, None);
    OneAlong(config, starting, thread, starts);
    AlongThen(config, starting, thread, [starts], writing, [true] + [true, true, true]);
    LastWriteAlong(config, thread, writing);
  }

  /** From clearing the old container away to the return. */
  lemma ClearingAlong(config: Config, thread: ThreadId, caller: Caller, name: Name,
                      rows: map<Name, Service>, active: set<Name>, waitRaises: bool, starts: bool)
    returns (luck: seq<bool>)
    ensures var clearing := Place(Clearing(caller, name), Written(rows, name, WriteRestarting), active, None);
            var outcome := if waitRaises then Raised else if starts then Restarted else NotRestarted;
            Along(config, clearing, thread, luck)
            == Some(Place(Returned(caller, name, outcome),
                       GuardedRows(rows, name, waitRaises, starts), active - {name}, None))
  {
    RowsOfACall(rows, name);
    var shown := Written(rows, name, WriteRestarting);
    var clearing := Place(Clearing(caller, name), shown, active, None);
    OneAlong(config, clearing, thread, !waitRaises);
    if waitRaises {
      var raising := Place(Raising(caller, name), shown, active, None);
      luck := [false] + ([true] + [true, true, true]);
      AlongThen(config, clearing, thread, [false], raising, [true] + [true, true, true]);
      LastWriteAlong(config, thread, raising);
    } else {
      var starting := Place(Starting(caller, name), shown, active, None);
      luck := [true] + ([starts] + ([true] + [true, true, true]));
      AlongThen(config, clearing, thread, [true], starting, [starts] + ([true] + [true, true, true]));
      StartingAlong(config, thread, caller, name, shown, active, starts);
    }
  }

  /** From inside the guard to the return. */
  lemma GuardedAlong(config: Config, thread: ThreadId, caller: Caller, name: Name,
                     rows: map<Name, Service>, active: set<Name>, waitRaises: bool, starts: bool)
    returns (luck: seq<bool>)
    ensures var outcome := if waitRaises then Raised else if starts then Restarted else NotRestarted;
            Along(config, Place(Entered(caller, name), rows, active, None), thread, luck)
            == Some(Place(Returned(caller, name, outcome),
                       GuardedRows(rows, name, waitRaises, starts), active - {name}, None))
  {
    var entered := Place(Entered(caller, name), rows, active, None);
    var clearing := Place(Clearing(caller, name), Written(rows, name, WriteRestarting), active, None);
    var more := ClearingAlong(config, thread, caller, name, rows, active, waitRaises, starts);
    OneAlong(config, entered, thread, true);
    AlongThen(config, entered, thread, [true], clearing, more);
    luck := [true] + more;
  }

  /** From the request, with the lock free, to the answer of the first section. */
  lemma AskingAlong(config: Config, thread: ThreadId, caller: Caller, name: Name, rows: map<Name, Service>,
                    active: set<Name>)
    requires !config.Refuses(name)
    ensures Along(config, Place(Requested(caller, name), rows, active, None), thread, [true, true, true])
         == Some(if name in active then
                   Place(Returned(caller, name, if caller.Scheduler? then InProgress else NotRestarted),
                         rows, active, None)
                 else Place(Entered(caller, name), rows, active + {name}, None))
  {
    var requested := Place(Requested(caller, name), rows, active, None);
    var checking := Place(Checking(caller, name), rows, active, Some(thread));
    var answered := if name in active then Place(Declining(caller, name), rows, active, Some(thread))
                    else Place(Admitted(caller, name), rows, active + {name}, Some(thread));
    OneAlong(config, requested, thread, true);
    OneAlong(config, checking, thread, true);
    OneAlong(config, answered, thread, true);
    ThreeAlong(config, requested, thread, checking, answered);
  }

  lemma WholeCallAlong(config: Config, thread: ThreadId, caller: Caller, name: Name,
                       rows: map<Name, Service>, active: set<Name>, waitRaises: bool, starts: bool)
    returns (luck: seq<bool>)
    ensures Along(config, Place(Requested(caller, name), rows, active, None), thread, luck)
         == Some(Place(Returned(caller, name, CallOutcome(config, name, caller, name in active, waitRaises, starts)),
                       CallRows(config, rows, active, name, waitRaises, starts), active, None))
  {
    var requested := Place(Requested(caller, name), rows, active, None);
    if config.Refuses(name) {
      luck := [true];
      OneAlong(config, requested, thread, true);
    } else {
      luck := [true, true, true];
      AskingAlong(config, thread, caller, name, rows, active);
      if name !in active {
        var more := GuardedAlong(config, thread, caller, name, rows, active + {name}, waitRaises, starts);
        AlongThen(config, requested, thread, luck, Place(Entered(caller, name), rows, active + {name}, None), more);
        luck := luck + more;
        assert active + {name} - {name} == active;
      }
    }
  }

  /**
   Left alone with the lock free, the small-step program from the request to the return does exactly what the method
   does: same outcome, same rows, same guard set, the lock free again, and nothing else changed.
   */
  lemma UndisturbedCall(config: Config, first: State, thread: ThreadId, caller: Caller, name: Name,
                        waitRaises: bool, starts: bool)
    returns (steps: seq<bool>, last: State)
    requires first.PcOf(thread) == Requested(caller, name) && first.lock.None?
    ensures RunAlone(config, first, thread, steps) == Some(last)
    ensures Reached(first, last, thread,
                    Place(Returned(caller, name,
                                   CallOutcome(config, name, caller, name in first.active, waitRaises, starts)),
                          CallRows(config, first.rows, first.active, name, waitRaises, starts),
                          first.active, None))
  {
    var requested := Place(Requested(caller, name), first.rows, first.active, None);
    steps := WholeCallAlong(config, thread, caller, name, first.rows, first.active, waitRaises, starts);
    var to := Along(config, requested, thread, steps).value;
    last := AlongIsARun(config, first, thread, requested, steps, to);
  }
}
