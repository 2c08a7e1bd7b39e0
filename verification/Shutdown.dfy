/** Shutdown and graceful restart: the server task, any number of admin handlers, delayed restart
    tasks and lifecycle jobs, interleaved. One step is one atomic access, one lock or gate
    operation, or one move of a job. */
module Shutdown {
  import opened Wrappers

  /** Values of the shutdown phase. */
  const RUNNING: nat := 0
  const DRAINING: nat := 1
  const STOPPING: nat := 2
  const FAILED: nat := 3

  datatype Owner = ByServer | ByHandler(id: nat) | ByTask(id: nat)

  /** Atomics, the phase lock, and what is running. */
  datatype Shared = Shared(
    phase: nat,
    shuttingDown: bool,
    lock: Option<Owner>,
    slot: bool,                  // the graceful-restart slot is taken
    retry: bool,                 // a stored wake-up for the cleanup loop
    jobs: set<nat>,              // running admin jobs that may touch the child
    recovery: bool,              // a recovery is active
    failures: nat,               // publications of failure so far
    claims: nat)                 // successful claims of a failure so far
  {
    function Publish(value: nat): Shared {
      this.(phase := value, failures := if value == FAILED then failures + 1 else failures)
    }

    /** Compare-exchange failed -> draining. */
    function ClaimFailure(): Shared {
      if phase == FAILED then this.(phase := DRAINING, claims := claims + 1) else this
    }
  }

  // ---------- admin handlers ----------

  /** How far a handler that holds the restart slot has come; `value` is the phase it publishes. */
  datatype Progress =
    | Claimed
    | WantLock(value: nat)
    | Locked(value: nat)
    | MayStore(value: nat)       // saw the shutdown flag clear, under the lock
    | Unlocking(value: nat)
    | Published(value: nat)

  /** A request other than GET or HEAD on the admin listener; `restart` means `/admin/restart`. */
  datatype Handler =
    | Absent
    | Arrived(restart: bool)                 // waits for the read side of the gate
    | Entered(restart: bool)                 // holds it from here on
    | Loaded(restart: bool, seen: nat)       // has read the phase
    | Mutating                               // an ordinary mutation handler runs
    | RestartCheck                           // restart handler, about to read the shutdown flag
    | RestartClaim                           // about to claim a published failure
    | RestartNotify                          // about to wake the cleanup loop
    | RestartSlot                            // about to swap the restart slot
    | Restarting(progress: Progress)         // holds the slot
  {
    predicate HoldsGate() {
      !Absent? && !Arrived?
    }

    /** The handler may start a job or stop the child. */
    predicate MayMutate() {
      Mutating? || RestartSlot? || Restarting?
    }

    predicate HoldsLock() {
      Restarting? && (progress.Locked? || progress.MayStore? || progress.Unlocking?)
    }
  }

  datatype HandlerAct =
    | Arrive(restart: bool)
    | Enter
    | Load
    | Decide
    | Leave
    | StartJob(job: nat)
    | StartRecovery
    | CheckFlag
    | Claim
    | NotifyRetry
    | TakeSlot
    | SetPhase(value: nat)       // call `set_manual_shutdown_phase`
    | GiveUp
    | LockPhase
    | ReadFlag
    | StorePhase
    | UnlockPhase
    | Accept(task: nat)

  predicate HandlerCan(g: Shared, h: Handler, act: HandlerAct) {
    match act
    case Arrive(_) => h.Absent?
    case Enter => h.Arrived?
    case Load => h.Entered?
    case Decide => h.Loaded?
    case Leave =>
      // done, refused, or dropped by its client while it waits
      h.Arrived? || h.Mutating? || h.RestartCheck? || (h.Restarting? && h.progress.Published?)
    case StartJob(job) => h.Mutating? && job !in g.jobs
    case StartRecovery => h.Mutating? && !g.recovery
    case CheckFlag => h.RestartCheck?
    case Claim => h.RestartClaim?
    case NotifyRetry => h.RestartNotify?
    case TakeSlot => h.RestartSlot?
    case SetPhase(value) =>
      // draining; then stopping, or failed after a drain timeout; then failed
      && h.Restarting?
      && (|| (h.progress.Claimed? && value == DRAINING)
          || (h.progress == Published(DRAINING) && (value == STOPPING || value == FAILED))
          || (h.progress == Published(STOPPING) && value == FAILED))
    case GiveUp => h == Restarting(Claimed) || h == Restarting(Published(FAILED))
    case LockPhase => h.Restarting? && h.progress.WantLock? && g.lock.None?
    case ReadFlag => h.Restarting? && h.progress.Locked?
    case StorePhase => h.Restarting? && h.progress.MayStore?
    case UnlockPhase => h.Restarting? && h.progress.Unlocking?
    case Accept(_) => h == Restarting(Published(STOPPING))
  }

  /** The middleware's verdict on a handler that has read the phase. */
  function Verdict(g: Shared, h: Handler): Handler
    requires h.Loaded?
  {
    var cleanupRetry := h.seen == FAILED && h.restart;
    if !cleanupRetry && (g.shuttingDown || h.seen == DRAINING || h.seen == STOPPING) then Absent
    else if h.restart then RestartCheck
    else Mutating
  }

  function HandlerNext(g: Shared, id: nat, h: Handler, act: HandlerAct): (Shared, Handler)
    requires HandlerCan(g, h, act)
  {
    match act
    case Arrive(restart) => (g, Arrived(restart))
    case Enter => (g, Entered(h.restart))
    case Load => (g, Loaded(h.restart, g.phase))
    case Decide => (g, Verdict(g, h))
    case Leave => (g, Absent)
    case StartJob(job) => (g.(jobs := g.jobs + {job}), h)
    case StartRecovery => (g.(recovery := true), h)
    case CheckFlag => (g, if g.shuttingDown then RestartClaim else RestartSlot)
    case Claim => (g.ClaimFailure(), if g.phase == FAILED then RestartNotify else Absent)
    case NotifyRetry => (g.(retry := true), Absent)
    case TakeSlot => (g.(slot := true), if g.slot then Absent else Restarting(Claimed))
    case SetPhase(value) => (g, Restarting(WantLock(value)))
    case GiveUp => (g.(slot := false), Absent)
    case LockPhase => (g.(lock := Some(ByHandler(id))), Restarting(Locked(h.progress.value)))
    case ReadFlag =>
      (g, Restarting(if g.shuttingDown then Unlocking(h.progress.value) else MayStore(h.progress.value)))
    case StorePhase => (g.Publish(h.progress.value), Restarting(Unlocking(h.progress.value)))
    case UnlockPhase => (g.(lock := None), Restarting(Published(h.progress.value)))
    case Accept(_) => (g, Absent)
  }

  // ---------- delayed restart tasks ----------

  /** The task that an accepted restart leaves behind: it asks the server to restart. */
  datatype Task =
    | NoTask
    | TaskWantLock
    | TaskLocked
    | TaskClaim
    | TaskNotify
    | TaskMarkLoad
    | TaskMark(seen: nat)
    | TaskUnlock
  {
    predicate HoldsLock() {
      !NoTask? && !TaskWantLock?
    }
  }

  predicate TaskCan(g: Shared, t: Task) {
    !t.NoTask? && (t.TaskWantLock? ==> g.lock.None?)
  }

  /** `lucky` is false when the weak compare-exchange fails spuriously. */
  function TaskNext(g: Shared, id: nat, t: Task, lucky: bool): (Shared, Task)
    requires TaskCan(g, t)
  {
    match t
    case TaskWantLock => (g.(lock := Some(ByTask(id))), TaskLocked)
    case TaskLocked => (g, if g.shuttingDown then TaskClaim else TaskMarkLoad)
    case TaskClaim => (g.ClaimFailure(), if g.phase == FAILED then TaskNotify else TaskUnlock)
    case TaskNotify => (g.(retry := true), TaskUnlock)
    case TaskMarkLoad => (g, TaskMark(g.phase))
    case TaskMark(seen) =>
      if seen != RUNNING && seen != FAILED then (g, TaskUnlock)
      else if lucky && g.phase == seen then (g.(phase := DRAINING), TaskUnlock)
      else (g, TaskMark(g.phase))
    case TaskUnlock => (g.(lock := None), NoTask)
  }

  // ---------- the server ----------

  datatype Server =
    | Listening
    | ShutLocked                             // holds the phase lock, flag not stored yet
    | MarkLoad(locked: bool)                 // about to load the phase
    | Mark(seen: nat, locked: bool)          // in the compare-exchange loop
    | ShutUnlock
    | Quiescing                              // listeners drain, monitors and detector are aborted
    | AwaitGate                              // waits for the write side of the gate
    | GateHeld
    | AwaitJobs                              // polls for lifecycle jobs
    | AdminQuiet                             // saw no admin job, about to ask for a recovery
    | Ready                                  // about to publish that the child is being stopped
    | Cleaning                               // the child cleanup runs
    | CleanupFailed                          // about to publish the failure
    | Failed                                 // waits for a retry
    | Finished                               // the admin listener has been told to stop
  {
    predicate HoldsLock() {
      ShutLocked? || ShutUnlock? || ((MarkLoad? || Mark?) && locked)
    }

    /** After the gate was taken in this attempt. */
    predicate PastGate() {
      GateHeld? || AwaitJobs? || AdminQuiet? || Ready? || Cleaning? || Finished?
    }

    /** After monitors and detector have stopped. */
    predicate PastQuiescing() {
      PastGate() || AwaitGate? || CleanupFailed? || Failed? || ((MarkLoad? || Mark?) && !locked)
    }
  }

  datatype State = State(
    g: Shared,
    handlers: map<nat, Handler>,
    tasks: map<nat, Task>,
    detector: bool,              // the automatic detector still runs
    server: Server,
    adminEnded: bool,            // the admin listener has ended by itself
    gatePassed: bool)            // the write side of the gate has been held since shutdown began

  function HandlerAt(s: State, id: nat): Handler {
    if id in s.handlers then s.handlers[id] else Absent
  }

  function TaskAt(s: State, id: nat): Task {
    if id in s.tasks then s.tasks[id] else NoTask
  }

  datatype ServerAct =
    | Continue(lucky: bool)      // the server's next access, where nothing is left to chance but luck
    | WaitTimesOut
    | CleanupEnds(ok: bool)
    | WakeForRetry
    | AdminEnds
    | RetryAlone

  /** The server can make its next access; taking the gate also needs that no handler holds it. */
  predicate CanContinue(g: Shared, v: Server) {
    match v
    case Listening => g.lock.None?
    case Cleaning => false
    case Failed => false
    case Finished => false
    case _ => true
  }

  /** The server's next access. */
  function ServerContinue(g: Shared, v: Server, lucky: bool): (Shared, Server)
    requires CanContinue(g, v)
  {
    match v
    case Listening => (g.(lock := Some(ByServer)), ShutLocked)
    case ShutLocked => (g.(shuttingDown := true), MarkLoad(true))
    case MarkLoad(locked) => (g, Mark(g.phase, locked))
    case Mark(seen, locked) =>
      var next := if locked then ShutUnlock else AwaitGate;
      if seen != RUNNING && seen != FAILED then (g, next)
      else if lucky && g.phase == seen then (g.(phase := DRAINING), next)
      else (g, Mark(g.phase, locked))
    case ShutUnlock => (g.(lock := None), Quiescing)
    case Quiescing => (g, AwaitGate)
    case AwaitGate => (g, GateHeld)
    case GateHeld => (g, AwaitJobs)
    case AwaitJobs => (g, if g.jobs == {} then AdminQuiet else AwaitJobs)
    case AdminQuiet => (g, if g.recovery then AwaitJobs else Ready)
    case Ready => (g.(phase := STOPPING), Cleaning)
    case CleanupFailed => (g.Publish(FAILED), Failed)
  }

  predicate ServerCan(s: State, act: ServerAct) {
    match act
    case Continue(_) =>
      && CanContinue(s.g, s.server)
      && (s.server.AwaitGate? ==> forall id | id in s.handlers :: !s.handlers[id].HoldsGate())
    case WaitTimesOut => s.server.AwaitGate? || s.server.AwaitJobs? || s.server.AdminQuiet?
    case CleanupEnds(_) => s.server.Cleaning?
    case WakeForRetry => s.server.Failed? && s.g.retry && !s.adminEnded
    case AdminEnds => (s.server.Failed? || s.server.Listening?) && !s.adminEnded
    case RetryAlone => s.server.Failed? && s.adminEnded
  }

  function ServerNext(s: State, act: ServerAct): State
    requires ServerCan(s, act)
  {
    match act
    case Continue(lucky) =>
      var (g, v) := ServerContinue(s.g, s.server, lucky);
      s.(g := g, server := v,
         detector := s.detector && !s.server.Quiescing?,
         gatePassed := s.gatePassed || v.GateHeld?)
    case WaitTimesOut => s.(server := CleanupFailed)
    case CleanupEnds(ok) => s.(server := if ok then Finished else CleanupFailed)
    case WakeForRetry => s.(g := s.g.(retry := false), server := MarkLoad(false))
    case AdminEnds =>
      // a listener that ends while serving starts the shutdown by the same path
      if s.server.Listening? then s.(adminEnded := true) else s.(adminEnded := true, server := MarkLoad(false))
    case RetryAlone => s.(server := MarkLoad(false))
  }

  // ---------- the whole system ----------

  datatype Step =
    | HandlerStep(id: nat, act: HandlerAct)
    | TaskStep(id: nat, lucky: bool)
    | ServerStep(move: ServerAct)
    | JobEnds(job: nat)
    | RecoveryEnds
    | DetectorStarts

  predicate Enabled(s: State, step: Step) {
    match step
    case HandlerStep(id, act) =>
      && HandlerCan(s.g, HandlerAt(s, id), act)
      && (act.Enter? ==> !s.server.GateHeld?)
      && (act.Accept? ==> TaskAt(s, act.task).NoTask?)
    case TaskStep(id, _) => TaskCan(s.g, TaskAt(s, id))
    case ServerStep(act) => ServerCan(s, act)
    case JobEnds(job) => job in s.g.jobs
    case RecoveryEnds => s.g.recovery
    case DetectorStarts => s.detector && !s.g.recovery
  }

  function Apply(s: State, step: Step): State
    requires Enabled(s, step)
  {
    match step
    case HandlerStep(id, act) =>
      var (g, h) := HandlerNext(s.g, id, HandlerAt(s, id), act);
      var s' := s.(g := g, handlers := s.handlers[id := h]);
      if act.Accept? then s'.(tasks := s.tasks[act.task := TaskWantLock]) else s'
    case TaskStep(id, lucky) =>
      var (g, t) := TaskNext(s.g, id, TaskAt(s, id), lucky);
      s.(g := g, tasks := s.tasks[id := t])
    case ServerStep(act) => ServerNext(s, act)
    case JobEnds(job) => s.(g := s.g.(jobs := s.g.jobs - {job}))
    case RecoveryEnds => s.(g := s.g.(recovery := false))
    case DetectorStarts => s.(g := s.g.(recovery := true))
  }

  function Initial(): State {
    State(Shared(RUNNING, false, None, false, false, {}, false, 0, 0), map[], map[], true, Listening, false, false)
  }
}
