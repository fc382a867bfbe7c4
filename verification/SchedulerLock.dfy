/**
 The cross-process scheduler lock (dockfleet/health/scheduler_lock.py) with the scheduler's `start` and `stop`
 (dockfleet/health/scheduler.py), one call at a time: the lock file with its inode, the PID file, and the locks that the
 operating system frees when a descriptor is closed or its process dies. Process ids are not reused.
 */
module SchedulerLock {
  import opened Wrappers

  type Inode = nat
  type Pid = nat
  type Id = nat

  /** One lock object: its scheduler and that scheduler's process. */
  datatype Owner = Owner(id: Id, pid: Pid)

  /** `locks` remembers who last locked an inode; the lock counts only while that process lives. */
  datatype Host = Host(
    lockFile: Option<Inode>,
    pidFile: Option<Pid>,
    nextInode: Inode,
    locks: map<Inode, Option<Owner>>,
    alive: set<Pid>)
  {
    function HolderOf(inode: Inode): Option<Owner> {
      if inode in locks && locks[inode].Some? && locks[inode].value.pid in alive then locks[inode] else None
    }

    /** Opening the lock file creates it when it is missing. */
    function Opened(): Host {
      if lockFile.Some? then this else this.(lockFile := Some(nextInode), nextInode := nextInode + 1)
    }

    function Locked(inode: Inode, owner: Owner): Host {
      this.(locks := locks[inode := Some(owner)])
    }

    /** Closing a descriptor frees the lock that was taken through it. */
    function Closed(fd: Option<Inode>, owner: Owner): Host {
      if fd.Some? && HolderOf(fd.value) == Some(owner) then this.(locks := locks[fd.value := None]) else this
    }

    function Unlinked(): Host {
      this.(pidFile := None, lockFile := None)
    }
  }

  /** The lock object: its open descriptor, if any, and whether it takes itself for the holder. */
  datatype Handle = Handle(owner: Owner, fd: Option<Inode>, acquired: bool)

  datatype Outcome = Acquired | Recovered | HeldBy(pid: Pid) | StillLocked | Unidentified

  datatype Attempt = Attempt(host: Host, handle: Handle, outcome: Outcome)

  function Taken(host: Host, handle: Handle, inode: Inode, outcome: Outcome): Attempt {
    Attempt(host.Locked(inode, handle.owner).(pidFile := Some(handle.owner.pid)),
        Handle(handle.owner, Some(inode), true), outcome)
  }

  function Acquire(host: Host, handle: Handle): Attempt {
    var withFile := host.Opened();
    var inode := withFile.lockFile.value;
    var closed := withFile.Closed(handle.fd, handle.owner);
    if closed.HolderOf(inode).None? then Taken(closed, handle, inode, Acquired)
    else Conflict(closed, handle.(fd := None))
  }

  /** The lock is held: report the holder, or recover when the PID file names a process that is gone. */
  function Conflict(host: Host, handle: Handle): Attempt {
    if host.pidFile.None? then Attempt(host, handle, Unidentified)
    else if host.pidFile.value in host.alive then Attempt(host, handle, HeldBy(host.pidFile.value))
    else
      var withFile := host.Unlinked().Opened();
      var inode := withFile.lockFile.value;
      if withFile.HolderOf(inode).None? then Taken(withFile, handle, inode, Recovered)
      else Attempt(withFile, handle, StillLocked)
  }

  function Release(host: Host, handle: Handle): (Host, Handle) {
    if !handle.acquired then (host, handle)
    else (host.Closed(handle.fd, handle.owner).Unlinked(), Handle(handle.owner, None, false))
  }

  // ---------------------------------------------------------------- the objects

  class LocalHost {
    var now: Host

    constructor (now: Host)
      ensures this.now == now
    {
      this.now := now;
    }

    method Open() returns (inode: Inode)
      modifies this
      ensures now == old(now).Opened() && now.lockFile == Some(inode)
    {
      if now.lockFile.None? {
        now := now.(lockFile := Some(now.nextInode), nextInode := now.nextInode + 1);
      }
      inode := now.lockFile.value;
    }

    method Close(fd: Option<Inode>, owner: Owner)
      modifies this
      ensures now == old(now).Closed(fd, owner)
    {
      if fd.Some? && now.HolderOf(fd.value) == Some(owner) {
        now := now.(locks := now.locks[fd.value := None]);
      }
    }

    /** Locking without blocking; it fails while a living process holds the lock. */
    method TryLock(inode: Inode, owner: Owner) returns (ok: bool)
      modifies this
      ensures ok == old(now).HolderOf(inode).None?
      ensures now == if ok then old(now).Locked(inode, owner) else old(now)
    {
      ok := now.HolderOf(inode).None?;
      if ok {
        now := now.Locked(inode, owner);
      }
    }

    method WritePid(pid: Pid)
      modifies this
      ensures now == old(now).(pidFile := Some(pid))
    {
      now := now.(pidFile := Some(pid));
    }

    method Unlink()
      modifies this
      ensures now == old(now).Unlinked()
    {
      now := now.(pidFile := None);
      now := now.(lockFile := None);
    }
  }

  class FileLock {
    const owner: Owner
    const host: LocalHost
    var fd: Option<Inode>
    var acquired: bool

    constructor (owner: Owner, host: LocalHost)
      ensures this.owner == owner && this.host == host && View() == Handle(owner, None, false)
    {
      this.owner, this.host := owner, host;
      fd, acquired := None, false;
    }

    function View(): Handle
      reads this
    {
      Handle(owner, fd, acquired)
    }

    method TryAcquire() returns (outcome: Outcome)
      modifies this, host
      ensures Attempt(host.now, View(), outcome) == Acquire(old(host.now), old(View()))
    {
      var inode := host.Open();
      var before := fd;
      fd := Some(inode);
      host.Close(before, owner);
      var ok := host.TryLock(inode, owner);
      if !ok {
        fd := None;
        outcome := RaiseConflict();
        return;
      }
      acquired := true;
      host.WritePid(owner.pid);
      return Acquired;
    }

    method RaiseConflict() returns (outcome: Outcome)
      requires fd == None
      modifies this, host
      ensures Attempt(host.now, View(), outcome) == Conflict(old(host.now), old(View()))
    {
      if host.now.pidFile.None? {
        return Unidentified;
      }
      if host.now.pidFile.value in host.now.alive {
        return HeldBy(host.now.pidFile.value);
      }
      host.Unlink();
      var inode := host.Open();
      var ok := host.TryLock(inode, owner);
      if !ok {
        return StillLocked;
      }
      fd := Some(inode);
      acquired := true;
      host.WritePid(owner.pid);
      return Recovered;
    }

    method ReleaseIt()
      modifies this, host
      ensures (host.now, View()) == Release(old(host.now), old(View()))
    {
      if !acquired {
        return;
      }
      host.Close(fd, owner);
      fd := None;
      acquired := false;
      host.Unlink();
    }
  }

  predicate Succeeded(outcome: Outcome) {
    outcome.Acquired? || outcome.Recovered?
  }

  class HealthScheduler {
    const lock: FileLock
    var polling: bool

    constructor (lock: FileLock)
      ensures this.lock == lock && !polling
    {
      this.lock := lock;
      polling := false;
    }

    /** Nothing while the thread runs; else it acquires the lock, and starts the thread if that worked. */
    method Start() returns (outcome: Option<Outcome>)
      modifies this, lock, lock.host
      ensures old(polling) ==>
                && polling && outcome == None
                && lock.View() == old(lock.View()) && lock.host.now == old(lock.host.now)
      ensures !old(polling) ==>
                && outcome.Some? && polling == Succeeded(outcome.value)
                && Attempt(lock.host.now, lock.View(), outcome.value) == Acquire(old(lock.host.now), old(lock.View()))
    {
      if polling {
        return None;
      }
      var attempt := lock.TryAcquire();
      polling := Succeeded(attempt);
      return Some(attempt);
    }

    /** The lock is released only once the thread is gone; `exits` tells whether it ends before the timeout. */
    method Stop(exits: bool)
      modifies this, lock, lock.host
      ensures old(polling) && !exits ==>
                polling && lock.View() == old(lock.View()) && lock.host.now == old(lock.host.now)
      ensures !old(polling) || exits ==>
                !polling && (lock.host.now, lock.View()) == Release(old(lock.host.now), old(lock.View()))
    {
      if polling && !exits {
        return;
      }
      polling := false;
      if lock.acquired {
        lock.ReleaseIt();
      }
    }
  }

  // ---------------------------------------------------------------- schedulers, processes and steps

  datatype World = World(host: Host, handles: map<Id, Handle>, threads: set<Id>) {
    /** The scheduler's process exists. */
    predicate Lives(id: Id) {
      id in handles && handles[id].owner.pid in host.alive
    }

    /** The scheduler's polling thread runs. */
    predicate Polls(id: Id) {
      Lives(id) && id in threads
    }
  }

  datatype Step =
    | Spawn(id: Id, pid: Pid)
    | Start(id: Id)
    | Stop(id: Id, exits: bool)
    | ThreadDies(id: Id)
    | Crash(pid: Pid)

  /** `gone` has the ids of the processes that have died. */
  predicate Enabled(w: World, gone: set<Pid>, step: Step) {
    match step
    case Spawn(id, pid) => id !in w.handles && pid !in gone
    case Start(id) => w.Lives(id)
    case Stop(id, _) => w.Lives(id)
    case ThreadDies(id) => w.Lives(id)
    case Crash(_) => true
  }

  function Started(w: World, id: Id): (World, Option<Outcome>)
    requires id in w.handles
  {
    if id in w.threads then (w, None)
    else
      var attempt := Acquire(w.host, w.handles[id]);
      (World(attempt.host, w.handles[id := attempt.handle],
             if Succeeded(attempt.outcome) then w.threads + {id} else w.threads),
       Some(attempt.outcome))
  }

  function Stopped(w: World, id: Id, exits: bool): World
    requires id in w.handles
  {
    if id in w.threads && !exits then w
    else
      var (host, handle) := Release(w.host, w.handles[id]);
      World(host, w.handles[id := handle], w.threads - {id})
  }

  function Apply(w: World, step: Step): World
    requires step.Start? || step.Stop? ==> step.id in w.handles
  {
    match step
    case Spawn(id, pid) =>
      w.(host := w.host.(alive := w.host.alive + {pid}),
          handles := w.handles[id := Handle(Owner(id, pid), None, false)])
    case Start(id) => Started(w, id).0
    case Stop(id, exits) => Stopped(w, id, exits)
    case ThreadDies(id) => w.(threads := w.threads - {id})
    case Crash(pid) => w.(host := w.host.(alive := w.host.alive - {pid}))
  }

  function Gone(steps: seq<Step>): set<Pid> {
    if steps == [] then {}
    else
      var n := |steps| - 1;
      Gone(steps[..n]) + if steps[n].Crash? then {steps[n].pid} else {}
  }

  /** Nobody runs yet and nothing is locked; files that earlier processes left behind may still be there. */
  ghost predicate Initial(w: World) {
    && w.handles == map[] && w.threads == {} && w.host.alive == {} && w.host.locks == map[]
    && (w.host.lockFile.Some? ==> w.host.lockFile.value < w.host.nextInode)
  }

  ghost predicate IsRun(first: World, steps: seq<Step>) {
    if steps == [] then Initial(first)
    else
      var n := |steps| - 1;
      IsRun(first, steps[..n]) && Enabled(After(first, steps[..n]), Gone(steps[..n]), steps[n])
  }

  /** Steps that are not enabled leave the world as it is. */
  function After(first: World, steps: seq<Step>): World {
    if steps == [] then first
    else
      var n := |steps| - 1;
      var w := After(first, steps[..n]);
      if Enabled(w, Gone(steps[..n]), steps[n]) then Apply(w, steps[n]) else w
  }

  // ---------------------------------------------------------------- the invariant

  /**
   The scheduler's descriptor is on the lock file of the directory, its lock is the file's, and the PID file names it.
   */
  ghost predicate Holds(w: World, id: Id)
    requires id in w.handles
  {
    var handle := w.handles[id];
    && handle.fd.Some? && w.host.lockFile == handle.fd
    && w.host.HolderOf(handle.fd.value) == Some(handle.owner)
    && w.host.pidFile == Some(handle.owner.pid)
  }

  ghost predicate Sound(w: World, id: Id)
    requires id in w.handles
  {
    var handle := w.handles[id];
    && handle.owner.id == id
    && handle.acquired == handle.fd.Some?
    && (handle.acquired ==> Holds(w, id))
    && (id in w.threads ==> handle.acquired)
  }

  ghost predicate Inv(w: World, gone: set<Pid>) {
    && w.host.alive !! gone
    && w.threads <= w.handles.Keys
    && (w.host.lockFile.Some? ==> w.host.lockFile.value < w.host.nextInode)
    && (forall id | w.Lives(id) :: Sound(w, id))
    && (forall id | id in w.handles && !w.Lives(id) :: w.handles[id].owner.pid in gone)
    && (forall inode: Inode | inode in w.host.locks && w.host.locks[inode].Some? ::
          w.host.locks[inode].value.pid in w.host.alive + gone)
    && (forall inode: Inode | w.host.HolderOf(inode).Some? ::
          && inode < w.host.nextInode
          && w.Lives(w.host.HolderOf(inode).value.id)
          && w.handles[w.host.HolderOf(inode).value.id] == Handle(w.host.HolderOf(inode).value, Some(inode), true))
  }

  lemma OneHolder(w: World, gone: set<Pid>, a: Id, b: Id)
    requires Inv(w, gone) && w.Lives(a) && w.Lives(b) && w.handles[a].acquired && w.handles[b].acquired
    ensures a == b
  {
    assert Sound(w, a) && Sound(w, b);
  }

  /** When a living process has the lock file locked, it is the one the PID file names. */
  lemma HolderIsNamed(w: World, gone: set<Pid>)
    requires Inv(w, gone) && w.host.lockFile.Some? && w.host.HolderOf(w.host.lockFile.value).Some?
    ensures var owner := w.host.HolderOf(w.host.lockFile.value).value;
            w.Lives(owner.id) && w.handles[owner.id].acquired && Holds(w, owner.id)
            && w.host.pidFile == Some(owner.pid) && owner.pid in w.host.alive && w.handles[owner.id].owner == owner
  {
    var owner := w.host.HolderOf(w.host.lockFile.value).value;
    assert Sound(w, owner.id);
  }

  /** Some other living scheduler holds the lock. */
  ghost predicate HeldByAnother(w: World, id: Id) {
    exists other :: other != id && w.Lives(other) && w.handles[other].acquired
  }

  /** What an attempt comes to: recovery never happens, and a conflict always names the living holder. */
  lemma AttemptIsExact(w: World, gone: set<Pid>, id: Id)
    requires Inv(w, gone) && w.Lives(id)
    ensures var attempt := Acquire(w.host, w.handles[id]);
            && (HeldByAnother(w, id) ==>
                  && attempt.outcome.HeldBy? && attempt.host == w.host && attempt.handle == w.handles[id]
                  && exists other :: other != id && w.Lives(other) && w.handles[other].acquired
                                     && w.handles[other].owner.pid == attempt.outcome.pid)
            && (!HeldByAnother(w, id) ==> attempt.outcome == Acquired)
  {
    assert Sound(w, id);
    if HeldByAnother(w, id) {
      var other :| other != id && w.Lives(other) && w.handles[other].acquired;
      assert Sound(w, other);
      assert !w.handles[id].acquired by {
        if w.handles[id].acquired {
          OneHolder(w, gone, id, other);
        }
      }
    } else if w.host.lockFile.Some? && w.host.HolderOf(w.host.lockFile.value).Some? {
      HolderIsNamed(w, gone);
    }
  }

  /** Only what belongs to `id` and the files changes, and `id` is sound again: the invariant is kept. */
  lemma KeptByOwnChange(w: World, gone: set<Pid>, id: Id, after: World)
    requires Inv(w, gone) && w.Lives(id) && !HeldByAnother(w, id)
    requires after.host.alive == w.host.alive && after.host.nextInode >= w.host.nextInode
    requires id in after.handles
    requires after.handles == w.handles[id := after.handles[id]] && after.handles[id].owner == w.handles[id].owner
    requires after.threads - {id} == w.threads - {id}
    requires after.host.lockFile.Some? ==> after.host.lockFile.value < after.host.nextInode
    requires Sound(after, id)
    requires forall inode: Inode | inode in after.host.locks && after.host.locks[inode].Some? ::
               after.host.locks[inode].value == w.handles[id].owner
                   || (inode in w.host.locks && after.host.locks[inode] == w.host.locks[inode])
    requires forall inode: Inode | after.host.HolderOf(inode).Some? ::
               after.handles[id] == Handle(after.host.HolderOf(inode).value, Some(inode), true)
    ensures Inv(after, gone)
  {
    assert Sound(w, id);
    forall other | after.Lives(other)
      ensures Sound(after, other)
    {
      if other != id {
        assert w.Lives(other) && Sound(w, other);
        assert !w.handles[other].acquired;
        assert other !in w.threads - {id};
      }
    }
    forall other | other in after.threads
      ensures other in after.handles
    {
      assert other != id ==> other in w.threads - {id};
    }
  }

  lemma StartKeepsInv(w: World, gone: set<Pid>, id: Id)
    requires Inv(w, gone) && w.Lives(id)
    ensures Inv(Started(w, id).0, gone)
  {
    AttemptIsExact(w, gone, id);
    if id !in w.threads {
      var after := Started(w, id).0;
      if HeldByAnother(w, id) {
        assert after == w;
      } else {
        assert Sound(w, id);
        NobodyElseHolds(w, gone, id);
        KeptByOwnChange(w, gone, id, after);
      }
    }
  }

  lemma HolderIsAlone(w: World, gone: set<Pid>, id: Id)
    requires Inv(w, gone) && w.Lives(id) && w.handles[id].acquired
    ensures !HeldByAnother(w, id)
  {
    forall other | w.Lives(other) && w.handles[other].acquired
      ensures other == id
    {
      OneHolder(w, gone, id, other);
    }
  }

  /** Without another holder, every lock is the scheduler's own. */
  lemma NobodyElseHolds(w: World, gone: set<Pid>, id: Id)
    requires Inv(w, gone) && w.Lives(id) && !HeldByAnother(w, id)
    ensures forall inode: Inode | w.host.HolderOf(inode).Some? ::
              w.host.HolderOf(inode).value == w.handles[id].owner && w.handles[id].fd == Some(inode)
  {
  }

  lemma StopKeepsInv(w: World, gone: set<Pid>, id: Id, exits: bool)
    requires Inv(w, gone) && w.Lives(id)
    ensures Inv(Stopped(w, id, exits), gone)
  {
    assert Sound(w, id);
    var after := Stopped(w, id, exits);
    if w.handles[id].acquired && (id !in w.threads || exits) {
      HolderIsAlone(w, gone, id);
      NobodyElseHolds(w, gone, id);
      KeptByOwnChange(w, gone, id, after);
    } else {
      assert after == w;
    }
  }

  lemma ProcessStepKeepsInv(w: World, gone: set<Pid>, step: Step)
    requires Inv(w, gone) && Enabled(w, gone, step) && (step.Spawn? || step.ThreadDies? || step.Crash?)
    ensures Inv(Apply(w, step), gone + if step.Crash? then {step.pid} else {})
  {
    var after := Apply(w, step);
    forall inode: Inode | after.host.HolderOf(inode).Some?
      ensures after.host.HolderOf(inode) == w.host.HolderOf(inode)
    {
      assert inode in w.host.locks && w.host.locks[inode].Some?;
    }
    forall inode: Inode | after.host.HolderOf(inode).Some?
      ensures after.Lives(after.host.HolderOf(inode).value.id)
      ensures after.handles[after.host.HolderOf(inode).value.id]
          == Handle(after.host.HolderOf(inode).value, Some(inode), true)
    {
      assert w.Lives(w.host.HolderOf(inode).value.id);
    }
    forall id | after.Lives(id)
      ensures Sound(after, id)
    {
      assert w.Lives(id) ==> Sound(w, id);
    }
  }

  lemma {:induction false} InvHolds(first: World, steps: seq<Step>)
    requires IsRun(first, steps)
    ensures Inv(After(first, steps), Gone(steps))
  {
    if steps != [] {
      var n := |steps| - 1;
      var w, gone, step := After(first, steps[..n]), Gone(steps[..n]), steps[n];
      InvHolds(first, steps[..n]);
      match step
      case Start(id) => StartKeepsInv(w, gone, id);
      case Stop(id, exits) => StopKeepsInv(w, gone, id, exits);
      case _ => ProcessStepKeepsInv(w, gone, step);
    }
  }

  // ---------------------------------------------------------------- main results, over every run

  /** A live polling thread has its lock held; at most one polls per project directory; the PID file names it. */
  lemma OneLiveScheduler(first: World, steps: seq<Step>)
    requires IsRun(first, steps)
    ensures var w := After(first, steps);
            && (forall id | w.Polls(id) ::
                  && w.handles[id].acquired && w.host.lockFile.Some?
                  && w.host.HolderOf(w.host.lockFile.value) == Some(w.handles[id].owner)
                  && w.host.pidFile == Some(w.handles[id].owner.pid))
            && (forall a, b | w.Polls(a) && w.Polls(b) :: a == b)
  {
    var w, gone := After(first, steps), Gone(steps);
    InvHolds(first, steps);
    forall id | w.Polls(id)
      ensures w.handles[id].acquired && Holds(w, id)
    {
      assert Sound(w, id);
    }
    forall a, b | w.Polls(a) && w.Polls(b)
      ensures a == b
    {
      OneHolder(w, gone, a, b);
    }
  }

  /**
   What `start` does in every reachable world: with another living holder it fails, names that holder's process and
   changes nothing; otherwise it takes the lock at once and polls. Stale recovery never runs.
   */
  lemma StartIsExact(first: World, steps: seq<Step>, id: Id)
    requires IsRun(first, steps)
    requires After(first, steps).Lives(id) && id !in After(first, steps).threads
    ensures var w := After(first, steps);
            var (after, outcome) := Started(w, id);
            && (HeldByAnother(w, id) ==>
                  after == w && outcome.Some? && outcome.value.HeldBy? && outcome.value.pid in w.host.alive)
            && (!HeldByAnother(w, id) ==> outcome == Some(Acquired) && after.Polls(id))
  {
    var w := After(first, steps);
    InvHolds(first, steps);
    AttemptIsExact(w, Gone(steps), id);
    if HeldByAnother(w, id) {
      assert w.handles[id := w.handles[id]] == w.handles;
    }
  }

  /** When the holder's process dies, whoever starts next gets the lock. */
  lemma CrashFreesTheLock(first: World, steps: seq<Step>, holder: Id, next: Id)
    requires IsRun(first, steps)
    requires var w := After(first, steps);
             && w.Lives(holder) && w.handles[holder].acquired && w.Lives(next)
             && w.handles[holder].owner.pid != w.handles[next].owner.pid
    ensures var crashed := After(first, steps + [Crash(After(first, steps).handles[holder].owner.pid)]);
            Started(crashed, next).1 == Some(Acquired)
  {
    var w, crash := After(first, steps), Crash(After(first, steps).handles[holder].owner.pid);
    assert (steps + [crash])[..|steps|] == steps;
    InvHolds(first, steps);
    InvHolds(first, steps + [crash]);
    var crashed := After(first, steps + [crash]);
    HolderIsAlone(w, Gone(steps), holder);
    assert Sound(w, next);
    AttemptIsExact(crashed, Gone(steps + [crash]), next);
  }

  /** A stop that times out keeps the lock, so nobody else can start; a stop that ends the thread frees the lock. */
  lemma StopKeepsTheLockWhileItPolls(first: World, steps: seq<Step>, id: Id, other: Id, exits: bool)
    requires IsRun(first, steps)
    requires After(first, steps).Polls(id) && After(first, steps).Lives(other) && other != id
    ensures var stopped := After(first, steps + [Stop(id, exits)]);
            Started(stopped, other).1 == Some(Acquired) <==> exits
  {
    var w, stop := After(first, steps), Stop(id, exits);
    assert (steps + [stop])[..|steps|] == steps;
    InvHolds(first, steps);
    InvHolds(first, steps + [stop]);
    assert Sound(w, id) && Sound(w, other);
    HolderIsAlone(w, Gone(steps), id);
    var stopped := After(first, steps + [stop]);
    AttemptIsExact(stopped, Gone(steps + [stop]), other);
  }

  /**
   A thread that ends by itself leaves its process with the lock: every other scheduler is still turned away with that
   process, and the scheduler itself can start again.
   */
  lemma DeadThreadKeepsTheLock(first: World, steps: seq<Step>, id: Id, other: Id)
    requires IsRun(first, steps)
    requires After(first, steps).Polls(id) && After(first, steps).Lives(other) && other != id
    ensures var w, dead := After(first, steps), After(first, steps + [ThreadDies(id)]);
            && !dead.Polls(id) && dead.host == w.host && dead.handles == w.handles
            && Started(dead, other).1 == Some(HeldBy(w.handles[id].owner.pid))
            && Started(dead, id).1 == Some(Acquired) && Started(dead, id).0.Polls(id)
  {
    var w, dies := After(first, steps), ThreadDies(id);
    assert (steps + [dies])[..|steps|] == steps;
    InvHolds(first, steps);
    InvHolds(first, steps + [dies]);
    assert Sound(w, id) && Sound(w, other);
    HolderIsAlone(w, Gone(steps), id);
    var dead := After(first, steps + [dies]);
    AttemptIsExact(dead, Gone(steps + [dies]), other);
    AttemptIsExact(dead, Gone(steps + [dies]), id);
  }

  /** A living scheduler can always be started and stopped, a process die, and a scheduler be made in a new process. */
  lemma RunsGoOn(first: World, steps: seq<Step>, step: Step)
    requires IsRun(first, steps)
    requires step.Start? || step.Stop? ==> After(first, steps).Lives(step.id)
    requires step.Spawn? ==> step.id !in After(first, steps).handles && step.pid !in Gone(steps)
    requires step.ThreadDies? ==> After(first, steps).Polls(step.id)
    ensures IsRun(first, steps + [step])
    ensures var w, after := After(first, steps), After(first, steps + [step]);
            && (step.Start? ==> after == Started(w, step.id).0)
            && (step.Stop? ==> after == Stopped(w, step.id, step.exits))
            && (step.ThreadDies? ==> after.threads == w.threads - {step.id})
            && (step.Spawn? ==>
                  && after.Lives(step.id) && after.threads == w.threads
                  && after.handles[step.id] == Handle(Owner(step.id, step.pid), None, false))
            && (step.Crash? ==> step.pid !in after.host.alive && after.handles == w.handles)
  {
    assert (steps + [step])[..|steps|] == steps;
  }

  // ---------------------------------------------------------------- the files

  /** A stop that is not timed out removes both files and frees the lock; of a scheduler that has none, nothing. */
  lemma StopClearsTheFiles(first: World, steps: seq<Step>, id: Id, exits: bool)
    requires IsRun(first, steps) && After(first, steps).Lives(id)
    requires id in After(first, steps).threads ==> exits
    ensures var w, after := After(first, steps), After(first, steps + [Stop(id, exits)]);
            && id !in after.threads && after.handles == w.handles[id := Handle(w.handles[id].owner, None, false)]
            && (w.handles[id].acquired ==>
                  && after.host.pidFile == None && after.host.lockFile == None
                  && w.handles[id].fd.Some? && after.host.HolderOf(w.handles[id].fd.value) == None)
            && (!w.handles[id].acquired ==> after.host == w.host)
  {
    var w, stop := After(first, steps), Stop(id, exits);
    assert (steps + [stop])[..|steps|] == steps;
    InvHolds(first, steps);
    assert Sound(w, id);
  }

  /** Starting a scheduler that polls already does nothing. */
  lemma StartTwiceIsOnce(w: World, id: Id)
    requires w.Polls(id)
    ensures Started(w, id) == (w, None)
  {
  }

  ghost predicate HasHolder(w: World) {
    exists id :: w.Lives(id) && w.handles[id].acquired
  }

  /** How many starts have acquired the lock. */
  function Acquisitions(first: World, steps: seq<Step>): nat {
    if steps == [] then 0
    else
      var n := |steps| - 1;
      var w := After(first, steps[..n]);
      Acquisitions(first, steps[..n]) +
      AsNat(steps[n].Start? && w.Lives(steps[n].id) && Started(w, steps[n].id).1 == Some(Acquired))
  }

  /** No process died while a scheduler of it had the lock. */
  ghost predicate NoHolderCrashed(first: World, steps: seq<Step>) {
    steps != [] ==>
      var n := |steps| - 1;
      && NoHolderCrashed(first, steps[..n])
      && (steps[n].Crash? ==>
            forall id | After(first, steps[..n]).Lives(id) && After(first, steps[..n]).handles[id].acquired ::
              After(first, steps[..n]).handles[id].owner.pid != steps[n].pid)
  }

  /** The files are there exactly while a living scheduler has the lock, once there has been one; before, as found. */
  ghost predicate FilesTell(first: World, w: World, acquisitions: nat) {
    if acquisitions == 0 then
      !HasHolder(w) && w.host.pidFile == first.host.pidFile && w.host.lockFile == first.host.lockFile
    else
      (w.host.pidFile.Some? <==> HasHolder(w)) && (w.host.lockFile.Some? <==> HasHolder(w))
  }

  lemma FilesAfterStart(first: World, w: World, gone: set<Pid>, id: Id, n: nat)
    requires Inv(w, gone) && w.Lives(id) && FilesTell(first, w, n)
    ensures var (after, outcome) := Started(w, id);
            FilesTell(first, after, n + AsNat(outcome == Some(Acquired)))
  {
    if id !in w.threads {
      AttemptIsExact(w, gone, id);
      var after := Started(w, id).0;
      if HeldByAnother(w, id) {
        assert after == w;
      } else {
        assert after.Lives(id) && after.handles[id].acquired;
      }
    }
  }

  lemma FilesAfterStop(first: World, w: World, gone: set<Pid>, id: Id, exits: bool, n: nat)
    requires Inv(w, gone) && w.Lives(id) && FilesTell(first, w, n)
    ensures FilesTell(first, Stopped(w, id, exits), n)
  {
    assert Sound(w, id);
    var after := Stopped(w, id, exits);
    if w.handles[id].acquired && (id !in w.threads || exits) {
      HolderIsAlone(w, gone, id);
      forall other | after.Lives(other)
        ensures !after.handles[other].acquired
      {
        assert other != id ==> w.Lives(other) && after.handles[other] == w.handles[other];
      }
    } else {
      assert after == w;
    }
  }

  lemma FilesAfterProcessStep(first: World, w: World, gone: set<Pid>, step: Step, n: nat)
    requires Inv(w, gone) && Enabled(w, gone, step) && FilesTell(first, w, n)
    requires step.Spawn? || step.ThreadDies? || step.Crash?
    requires step.Crash? ==> forall id | w.Lives(id) && w.handles[id].acquired :: w.handles[id].owner.pid != step.pid
    ensures FilesTell(first, Apply(w, step), n)
  {
    var after := Apply(w, step);
    forall id
      ensures after.Lives(id) && after.handles[id].acquired <==> w.Lives(id) && w.handles[id].acquired
    {
      assert id in w.handles && !w.Lives(id) ==> w.handles[id].owner.pid in gone;
    }
  }

  /**
   Over every run in which no holder's process died: once a scheduler has had the lock, the PID file and the lock file
   exist exactly while a living scheduler has it; before that they are as the run found them.
   */
  lemma {:induction false} FilesExistWhileHeld(first: World, steps: seq<Step>)
    requires IsRun(first, steps) && NoHolderCrashed(first, steps)
    ensures FilesTell(first, After(first, steps), Acquisitions(first, steps))
  {
    if steps != [] {
      var n := |steps| - 1;
      var w, gone, step := After(first, steps[..n]), Gone(steps[..n]), steps[n];
      FilesExistWhileHeld(first, steps[..n]);
      InvHolds(first, steps[..n]);
      match step
      case Start(id) => FilesAfterStart(first, w, gone, id, Acquisitions(first, steps[..n]));
      case Stop(id, exits) => FilesAfterStop(first, w, gone, id, exits, Acquisitions(first, steps[..n]));
      case _ => FilesAfterProcessStep(first, w, gone, step, Acquisitions(first, steps[..n]));
    }
  }

  // ---------------------------------------------------------------- attempts by themselves

  /** An attempt that fails leaves no descriptor open and no lock held through the one that was, whatever it found. */
  lemma FailureHoldsNothing(host: Host, handle: Handle)
    requires !Succeeded(Acquire(host, handle).outcome)
    ensures var attempt := Acquire(host, handle);
            && attempt.handle == Handle(handle.owner, None, handle.acquired)
            && (handle.fd.Some? ==> attempt.host.HolderOf(handle.fd.value) != Some(handle.owner))
  {
  }

  /**
   What the conflict path does on any host, also one that no run reaches: with a PID file that names a living process,
   or with none, it changes nothing. Otherwise it takes the lock on a fresh lock file, names its own process, and leaves
   every other lock as it was, so also that of a holder whose PID file was wrong.
   */
  lemma ConflictIsExact(host: Host, handle: Handle)
    ensures var attempt := Conflict(host, handle);
            && (host.pidFile.None? ==> attempt == Attempt(host, handle, Unidentified))
            && (host.pidFile.Some? && host.pidFile.value in host.alive ==>
                  attempt == Attempt(host, handle, HeldBy(host.pidFile.value)))
            && (host.pidFile.Some? && host.pidFile.value !in host.alive && host.HolderOf(host.nextInode).None?
                && handle.owner.pid in host.alive ==>
                  && attempt.outcome == Recovered
                  && attempt.handle == Handle(handle.owner, Some(host.nextInode), true)
                  && attempt.host.lockFile == Some(host.nextInode) && attempt.host.pidFile == Some(handle.owner.pid)
                  && attempt.host.HolderOf(host.nextInode) == Some(handle.owner)
                  && forall inode: Inode | inode != host.nextInode ::
                       attempt.host.HolderOf(inode) == host.HolderOf(inode))
  {
  }
}
