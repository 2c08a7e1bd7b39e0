/** What every interleaving of the shutdown protocol keeps. */
module ShutdownSafety {
  import opened Wrappers
  import opened Shutdown

  // ---------- invariants ----------

  /** The phase lock is held by exactly the party that is inside its critical section. */
  ghost predicate LockInv(s: State) {
    && (s.server.HoldsLock() <==> s.g.lock == Some(ByServer))
    && (forall id :: HandlerAt(s, id).HoldsLock() <==> s.g.lock == Some(ByHandler(id)))
    && (forall id :: TaskAt(s, id).HoldsLock() <==> s.g.lock == Some(ByTask(id)))
  }

  predicate SawFlagClear(h: Handler) {
    h.Restarting? && h.progress.MayStore?
  }

  predicate TaskSawFlagClear(t: Task) {
    t.TaskMarkLoad? || t.TaskMark?
  }

  /** Who saw the shutdown flag clear under the lock still finds it clear. */
  ghost predicate FlagInv(s: State) {
    && (s.g.shuttingDown <==> !(s.server.Listening? || s.server.ShutLocked?))
    && (forall id :: SawFlagClear(HandlerAt(s, id)) ==> !s.g.shuttingDown)
    && (forall id :: TaskSawFlagClear(TaskAt(s, id)) ==> !s.g.shuttingDown)
  }

  /** At most one handler holds the restart slot. */
  ghost predicate SlotInv(s: State) {
    && (forall id :: HandlerAt(s, id).Restarting? ==> s.g.slot)
    && (forall i, j :: HandlerAt(s, i).Restarting? && HandlerAt(s, j).Restarting? ==> i == j)
  }

  /** Every claim had a publication of failure of its own. */
  predicate Counted(g: Shared) {
    g.claims + (if g.phase == FAILED then 1 else 0) <= g.failures
  }

  /** What taking the gate during shutdown settles for good. */
  ghost predicate GateInv(s: State) {
    && (s.server.PastGate() ==> s.gatePassed)
    && (s.gatePassed || s.server.PastQuiescing() ==> s.g.shuttingDown && !s.detector)
    && (s.server.GateHeld? ==> forall id :: !HandlerAt(s, id).HoldsGate())
    && (s.gatePassed ==> forall id :: !HandlerAt(s, id).MayMutate())
  }

  /** From the moment the jobs were seen finished until the cleanup ends there are none. */
  predicate JobsDone(g: Shared, v: Server) {
    && (v.AdminQuiet? || v.Ready? || v.Cleaning? ==> g.jobs == {})
    && (v.Ready? || v.Cleaning? ==> !g.recovery)
  }

  ghost predicate Inv(s: State) {
    LockInv(s) && FlagInv(s) && SlotInv(s) && Counted(s.g) && GateInv(s) && JobsDone(s.g, s.server)
  }

  // ---------- one handler ----------

  predicate LockMove(lock: Option<Owner>, lock': Option<Owner>, me: Owner, held': bool) {
    || (lock' == lock && held' == (lock == Some(me)))
    || (lock.None? && lock' == Some(me) && held')
    || (lock == Some(me) && lock'.None? && !held')
  }

  predicate SlotMove(g: Shared, h: Handler, g': Shared, h': Handler) {
    || (g'.slot == g.slot && (h'.Restarting? ==> h.Restarting?))
    || (!g.slot && g'.slot)
    || (h.Restarting? && !h'.Restarting?)
  }

  /** During shutdown only the claim of a failure changes the phase. */
  predicate PhaseMove(g: Shared, g': Shared) {
    g.shuttingDown ==>
      || (g'.phase == g.phase && g'.claims == g.claims)
      || (g.phase == FAILED && g'.phase == DRAINING && g'.claims == g.claims + 1)
  }

  /** What one step of one handler can do to it and to the shared state. */
  predicate HandlerMove(g: Shared, id: nat, h: Handler, g': Shared, h': Handler) {
    && LockMove(g.lock, g'.lock, ByHandler(id), h'.HoldsLock())
    && SlotMove(g, h, g', h')
    && PhaseMove(g, g')
    && g'.shuttingDown == g.shuttingDown
    && (SawFlagClear(h') ==> !g.shuttingDown)
    && (Counted(g) ==> Counted(g'))
    && (h'.MayMutate() && g.shuttingDown ==> h.MayMutate())
    && (h.MayMutate() || (g'.jobs == g.jobs && g'.recovery == g.recovery))
  }

  lemma HandlerTakes(g: Shared, id: nat, h: Handler, act: HandlerAct)
    requires HandlerCan(g, h, act)
    requires h.HoldsLock() <==> g.lock == Some(ByHandler(id))
    ensures
      var (g', h') := HandlerNext(g, id, h, act);
      LockMove(g.lock, g'.lock, ByHandler(id), h'.HoldsLock()) && SlotMove(g, h, g', h')
  {
  }

  lemma HandlerMoves(g: Shared, id: nat, h: Handler, act: HandlerAct)
    requires HandlerCan(g, h, act)
    requires h.HoldsLock() <==> g.lock == Some(ByHandler(id))
    requires SawFlagClear(h) ==> !g.shuttingDown
    ensures
      var (g', h') := HandlerNext(g, id, h, act);
      && HandlerMove(g, id, h, g', h')
      && (h'.HoldsGate() ==> h.HoldsGate() || act.Enter?)
  {
    HandlerTakes(g, id, h, act);
  }

  ghost predicate SameOtherHandlers(s: State, s': State, id: nat) {
    forall j :: j != id ==> HandlerAt(s', j) == HandlerAt(s, j)
  }

  lemma HandlerKeepsLocks(s: State, s': State, id: nat)
    requires LockInv(s) && FlagInv(s) && SlotInv(s)
    requires HandlerMove(s.g, id, HandlerAt(s, id), s'.g, HandlerAt(s', id)) && SameOtherHandlers(s, s', id)
    requires s'.server == s.server
    requires forall j :: TaskAt(s', j) == TaskAt(s, j) || (TaskAt(s, j).NoTask? && TaskAt(s', j).TaskWantLock?)
    ensures LockInv(s') && FlagInv(s') && SlotInv(s')
  {
    forall j ensures TaskAt(s', j).HoldsLock() <==> s'.g.lock == Some(ByTask(j)) {
      assert TaskAt(s, j).HoldsLock() <==> s.g.lock == Some(ByTask(j));
    }
    forall j ensures TaskSawFlagClear(TaskAt(s', j)) ==> !s'.g.shuttingDown {
      assert TaskSawFlagClear(TaskAt(s, j)) ==> !s.g.shuttingDown;
    }
    assert HandlerAt(s, id).HoldsLock() <==> s.g.lock == Some(ByHandler(id));
    forall j ensures HandlerAt(s', j).HoldsLock() <==> s'.g.lock == Some(ByHandler(j)) {
      assert HandlerAt(s, j).HoldsLock() <==> s.g.lock == Some(ByHandler(j));
    }
    forall j ensures HandlerAt(s', j).Restarting? ==> s'.g.slot {
      assert HandlerAt(s, j).Restarting? && HandlerAt(s, id).Restarting? ==> j == id;
    }
  }

  lemma HandlerStepKeepsInv(s: State, id: nat, act: HandlerAct)
    requires Inv(s) && Enabled(s, HandlerStep(id, act))
    ensures Inv(Apply(s, HandlerStep(id, act)))
    ensures HandlerMove(s.g, id, HandlerAt(s, id), Apply(s, HandlerStep(id, act)).g, HandlerAt(Apply(s, HandlerStep(id, act)), id))
  {
    var s' := Apply(s, HandlerStep(id, act));
    HandlerMoves(s.g, id, HandlerAt(s, id), act);
    assert HandlerAt(s', id) == HandlerNext(s.g, id, HandlerAt(s, id), act).1;
    assert SameOtherHandlers(s, s', id);
    HandlerKeepsLocks(s, s', id);
    forall j ensures s'.gatePassed ==> !HandlerAt(s', j).MayMutate() {
      assert s.gatePassed ==> !HandlerAt(s, j).MayMutate();
    }
    forall j ensures s'.server.GateHeld? ==> !HandlerAt(s', j).HoldsGate() {
      assert s.server.GateHeld? ==> !HandlerAt(s, j).HoldsGate();
    }
  }

  // ---------- one task ----------

  predicate TaskMove(g: Shared, id: nat, t: Task, g': Shared, t': Task) {
    && LockMove(g.lock, g'.lock, ByTask(id), t'.HoldsLock())
    && PhaseMove(g, g')
    && (TaskSawFlagClear(t') ==> !g.shuttingDown)
    && (Counted(g) ==> Counted(g'))
    && g'.shuttingDown == g.shuttingDown && g'.slot == g.slot
    && g'.jobs == g.jobs && g'.recovery == g.recovery
    && (t.TaskMark? && !t'.TaskMark? ==> g'.phase == if t.seen == RUNNING || t.seen == FAILED then DRAINING else g.phase)
  }

  lemma TaskMoves(g: Shared, id: nat, t: Task, lucky: bool)
    requires TaskCan(g, t)
    requires t.HoldsLock() <==> g.lock == Some(ByTask(id))
    requires TaskSawFlagClear(t) ==> !g.shuttingDown
    ensures
      var (g', t') := TaskNext(g, id, t, lucky);
      TaskMove(g, id, t, g', t')
  {
  }

  lemma TaskStepKeepsInv(s: State, id: nat, lucky: bool)
    requires Inv(s) && Enabled(s, TaskStep(id, lucky))
    ensures Inv(Apply(s, TaskStep(id, lucky)))
    ensures TaskMove(s.g, id, TaskAt(s, id), Apply(s, TaskStep(id, lucky)).g, TaskAt(Apply(s, TaskStep(id, lucky)), id))
  {
    var s' := Apply(s, TaskStep(id, lucky));
    TaskMoves(s.g, id, TaskAt(s, id), lucky);
    assert TaskAt(s', id) == TaskNext(s.g, id, TaskAt(s, id), lucky).1;
    assert forall j :: HandlerAt(s', j) == HandlerAt(s, j);
    forall j ensures HandlerAt(s', j).HoldsLock() <==> s'.g.lock == Some(ByHandler(j)) {
      assert HandlerAt(s, j).HoldsLock() <==> s.g.lock == Some(ByHandler(j));
    }
    forall j ensures TaskAt(s', j).HoldsLock() <==> s'.g.lock == Some(ByTask(j)) {
      assert j != id ==> TaskAt(s', j) == TaskAt(s, j);
      assert TaskAt(s, j).HoldsLock() <==> s.g.lock == Some(ByTask(j));
    }
    forall j ensures TaskSawFlagClear(TaskAt(s', j)) ==> !s'.g.shuttingDown {
      assert j != id ==> TaskAt(s', j) == TaskAt(s, j);
    }
  }

  // ---------- the server and the jobs ----------

  /** The part of the invariant that does not speak of handlers and tasks. */
  predicate ServerInv(s: State) {
    && (s.server.HoldsLock() <==> s.g.lock == Some(ByServer))
    && (s.g.shuttingDown <==> !(s.server.Listening? || s.server.ShutLocked?))
    && Counted(s.g)
    && (s.server.PastGate() ==> s.gatePassed)
    && (s.gatePassed || s.server.PastQuiescing() ==> s.g.shuttingDown && !s.detector)
    && JobsDone(s.g, s.server)
  }

  /** What one step of the server can do to the rest. */
  predicate ServerMove(s: State, s': State) {
    && s'.handlers == s.handlers && s'.tasks == s.tasks
    && LockMove(s.g.lock, s'.g.lock, ByServer, s'.server.HoldsLock())
    && (s'.g.shuttingDown == s.g.shuttingDown || s.server.ShutLocked?)
    && s'.g.slot == s.g.slot
    && s'.g.jobs == s.g.jobs && s'.g.recovery == s.g.recovery && (s'.detector ==> s.detector)
    && (s'.server.GateHeld? ==> s.server.AwaitGate?)
    && (s'.gatePassed ==> s.gatePassed || s'.server.GateHeld?)
    && (s.gatePassed ==> s'.gatePassed)
    && ServerPhaseMove(s.g, s.server, s'.g, s'.server)
  }

  /** The server's accesses to the phase: it marks draining over running or failed, publishes
      stopping as the cleanup starts, and failed as it begins to wait for a retry. */
  predicate ServerPhaseMove(g: Shared, v: Server, g': Shared, v': Server) {
    && (v.Ready? && v'.Cleaning? ==> g'.phase == STOPPING)
    && (v.CleanupFailed? && v'.Failed? ==> g'.phase == FAILED && g'.failures == g.failures + 1)
    && (v.Mark? && !v'.Mark? ==> g'.phase == if v.seen == RUNNING || v.seen == FAILED then DRAINING else g.phase)
    && (g'.phase != g.phase ==> v.Mark? || v'.Cleaning? || v'.Failed?)
    && (v.Ready? ==> v'.Cleaning?) && (v.CleanupFailed? ==> v'.Failed?)
  }

  /** The same, for the server's own accesses. */
  predicate ContinueMove(g: Shared, v: Server, g': Shared, v': Server) {
    && LockMove(g.lock, g'.lock, ByServer, v'.HoldsLock())
    && (g'.shuttingDown <==> !(v'.Listening? || v'.ShutLocked?))
    && (g'.shuttingDown == g.shuttingDown || v.ShutLocked?)
    && (Counted(g) ==> Counted(g'))
    && (JobsDone(g, v) ==> JobsDone(g', v'))
    && g'.slot == g.slot && g'.jobs == g.jobs && g'.recovery == g.recovery
    && (v'.GateHeld? <==> v.AwaitGate?)
    && (v'.PastGate() ==> v.PastGate() || v'.GateHeld?)
    && (v'.PastQuiescing() ==> v.PastQuiescing() || v.Quiescing?)
    && ServerPhaseMove(g, v, g', v')
  }

  lemma ServerContinueMoves(g: Shared, v: Server, lucky: bool)
    requires CanContinue(g, v)
    requires v.HoldsLock() <==> g.lock == Some(ByServer)
    requires g.shuttingDown <==> !(v.Listening? || v.ShutLocked?)
    ensures
      var (g', v') := ServerContinue(g, v, lucky);
      ContinueMove(g, v, g', v')
  {
  }

  lemma ServerMoves(s: State, act: ServerAct)
    requires ServerInv(s) && ServerCan(s, act)
    ensures ServerInv(ServerNext(s, act)) && ServerMove(s, ServerNext(s, act))
    ensures
      ServerNext(s, act).server.GateHeld? ==> forall id | id in s.handlers :: !s.handlers[id].HoldsGate()
  {
    if act.Continue? {
      ServerContinueMoves(s.g, s.server, act.lucky);
    }
  }

  /** A handler that may change something holds the gate. */
  lemma GateExcludesMutators(s: State)
    requires forall id | id in s.handlers :: !s.handlers[id].HoldsGate()
    ensures forall id :: !HandlerAt(s, id).HoldsGate() && !HandlerAt(s, id).MayMutate()
  {
  }

  lemma ServerMoveKeepsInv(s: State, s': State)
    requires Inv(s) && ServerInv(s') && ServerMove(s, s')
    requires s'.server.GateHeld? ==> forall id | id in s.handlers :: !s.handlers[id].HoldsGate()
    ensures Inv(s')
  {
    assert forall j :: HandlerAt(s', j) == HandlerAt(s, j) && TaskAt(s', j) == TaskAt(s, j);
    forall j
      ensures HandlerAt(s', j).HoldsLock() <==> s'.g.lock == Some(ByHandler(j))
      ensures SawFlagClear(HandlerAt(s', j)) ==> !s'.g.shuttingDown
    {
      assert HandlerAt(s, j).HoldsLock() <==> s.g.lock == Some(ByHandler(j));
    }
    forall j
      ensures TaskAt(s', j).HoldsLock() <==> s'.g.lock == Some(ByTask(j))
      ensures TaskSawFlagClear(TaskAt(s', j)) ==> !s'.g.shuttingDown
    {
      assert TaskAt(s, j).HoldsLock() <==> s.g.lock == Some(ByTask(j));
    }
    if s'.server.GateHeld? {
      GateExcludesMutators(s);
    }
  }

  lemma StepKeepsInv(s: State, step: Step)
    requires Inv(s) && Enabled(s, step)
    ensures Inv(Apply(s, step))
  {
    match step
    case HandlerStep(id, act) => HandlerStepKeepsInv(s, id, act);
    case TaskStep(id, lucky) => TaskStepKeepsInv(s, id, lucky);
    case ServerStep(act) =>
      ServerMoves(s, act);
      ServerMoveKeepsInv(s, ServerNext(s, act));
    case _ => JobsKeepInv(s, step);
  }

  lemma JobsKeepInv(s: State, step: Step)
    requires Inv(s) && Enabled(s, step)
    requires step.JobEnds? || step.RecoveryEnds? || step.DetectorStarts?
    ensures Inv(Apply(s, step))
  {
    var s' := Apply(s, step);
    assert forall j :: HandlerAt(s', j) == HandlerAt(s, j) && TaskAt(s', j) == TaskAt(s, j);
  }

  lemma InitialInv()
    ensures Inv(Initial())
  {
  }

  // ---------- runs ----------

  predicate Runs(s: State, steps: seq<Step>)
    decreases |steps|
  {
    steps == [] || (Enabled(s, steps[0]) && Runs(Apply(s, steps[0]), steps[1..]))
  }

  function After(s: State, steps: seq<Step>): State
    requires Runs(s, steps)
    decreases |steps|
  {
    if steps == [] then s else After(Apply(s, steps[0]), steps[1..])
  }

  lemma {:induction false} RunKeepsInv(s: State, steps: seq<Step>)
    requires Inv(s) && Runs(s, steps)
    ensures Inv(After(s, steps))
    decreases |steps|
  {
    if steps != [] {
      StepKeepsInv(s, steps[0]);
      RunKeepsInv(Apply(s, steps[0]), steps[1..]);
    }
  }

  /** In every interleaving: while the child cleanup runs, every handler that could start a job or
      touch the child has returned, and no admin job and no recovery runs. */
  lemma CleanupRunsAlone(steps: seq<Step>)
    requires Runs(Initial(), steps) && After(Initial(), steps).server.Cleaning?
    ensures
      var s := After(Initial(), steps);
      && s.g.shuttingDown && !s.detector
      && s.g.jobs == {} && !s.g.recovery
      && forall id :: !HandlerAt(s, id).MayMutate()
  {
    InitialInv();
    RunKeepsInv(Initial(), steps);
  }

  lemma StepStartsNothing(s: State, step: Step)
    requires Inv(s) && s.gatePassed && Enabled(s, step)
    ensures
      var s' := Apply(s, step);
      && Inv(s') && s'.gatePassed
      && s'.g.jobs <= s.g.jobs && (s'.g.recovery ==> s.g.recovery)
  {
    StepKeepsInv(s, step);
    match step
    case HandlerStep(id, act) =>
      HandlerStepKeepsInv(s, id, act);
      assert !HandlerAt(s, id).MayMutate();
    case TaskStep(id, lucky) => TaskStepKeepsInv(s, id, lucky);
    case ServerStep(act) => ServerMoves(s, act);
    case _ =>
  }

  /** Once the gate was taken during shutdown, nothing starts any more: for any further handlers,
      failures and retries the running jobs only become fewer. */
  lemma {:induction false} NothingStartsAfterGate(s: State, steps: seq<Step>)
    requires Inv(s) && s.gatePassed && Runs(s, steps)
    ensures
      var s' := After(s, steps);
      && s'.gatePassed
      && s'.g.jobs <= s.g.jobs && (s'.g.recovery ==> s.g.recovery)
      && forall id :: !HandlerAt(s', id).MayMutate()
    decreases |steps|
  {
    if steps != [] {
      StepStartsNothing(s, steps[0]);
      NothingStartsAfterGate(Apply(s, steps[0]), steps[1..]);
    }
  }

  lemma ContinueNeverFinishes(g: Shared, v: Server, lucky: bool)
    requires CanContinue(g, v)
    ensures !ServerContinue(g, v, lucky).1.Finished?
  {
  }

  lemma OnlyServerMovesServer(s: State, step: Step)
    requires Enabled(s, step) && !step.ServerStep?
    ensures Apply(s, step).server == s.server
  {
  }

  lemma FinishStep(s: State, step: Step)
    requires Enabled(s, step) && !s.server.Finished? && Apply(s, step).server.Finished?
    ensures step == ServerStep(CleanupEnds(true)) && s.server.Cleaning?
  {
    if !step.ServerStep? {
      OnlyServerMovesServer(s, step);
    } else if step.move.Continue? {
      ContinueNeverFinishes(s.g, s.server, step.move.lucky);
    }
  }

  /** Step `i` is the end of a cleanup that succeeded. */
  predicate CleanedAt(s: State, steps: seq<Step>, i: nat) {
    && i < |steps| && steps[i] == ServerStep(CleanupEnds(true))
    && Runs(s, steps[..i]) && After(s, steps[..i]).server.Cleaning?
  }

  lemma CleanedLater(s: State, steps: seq<Step>, i: nat)
    requires steps != [] && Enabled(s, steps[0]) && CleanedAt(Apply(s, steps[0]), steps[1..], i)
    ensures CleanedAt(s, steps, i + 1)
  {
    assert steps[..i + 1][1..] == steps[1..][..i];
    assert steps[i + 1] == steps[1..][i];
  }

  /** The admin listener is told to stop only by a cleanup that succeeded. */
  lemma {:induction false} AdminStopsAfterCleanup(s: State, steps: seq<Step>)
    requires Inv(s) && Runs(s, steps) && !s.server.Finished? && After(s, steps).server.Finished?
    ensures exists i: nat :: CleanedAt(s, steps, i)
    decreases |steps|
  {
    if Apply(s, steps[0]).server.Finished? {
      FinishStep(s, steps[0]);
      assert steps[..0] == [];
      assert CleanedAt(s, steps, 0);
    } else {
      StepKeepsInv(s, steps[0]);
      AdminStopsAfterCleanup(Apply(s, steps[0]), steps[1..]);
      var i: nat :| CleanedAt(Apply(s, steps[0]), steps[1..], i);
      CleanedLater(s, steps, i);
    }
  }

  /** Once the server is shutting down, restart handlers and delayed restart tasks change the phase
      only by claiming a published failure. */
  lemma ManualRestartOnlyClaims(steps: seq<Step>, step: Step)
    requires Runs(Initial(), steps) && After(Initial(), steps).g.shuttingDown
    requires Enabled(After(Initial(), steps), step) && (step.HandlerStep? || step.TaskStep?)
    ensures PhaseMove(After(Initial(), steps).g, Apply(After(Initial(), steps), step).g)
  {
    InitialInv();
    RunKeepsInv(Initial(), steps);
    var s := After(Initial(), steps);
    match step
    case HandlerStep(id, act) => HandlerStepKeepsInv(s, id, act);
    case TaskStep(id, lucky) => TaskStepKeepsInv(s, id, lucky);
  }

  /** Every claim, and a failure that is still published, had a publication of its own; at most one handler holds the restart slot,
      and the phase lock has one owner. */
  lemma OwnershipIsUnique(steps: seq<Step>)
    requires Runs(Initial(), steps)
    ensures
      var s := After(Initial(), steps);
      && s.g.claims + (if s.g.phase == FAILED then 1 else 0) <= s.g.failures
      && (forall i, j :: HandlerAt(s, i).Restarting? && HandlerAt(s, j).Restarting? ==> i == j)
      && (forall i, j :: !(HandlerAt(s, i).HoldsLock() && TaskAt(s, j).HoldsLock()))
      && (forall i :: HandlerAt(s, i).HoldsLock() || TaskAt(s, i).HoldsLock() ==> !s.server.HoldsLock())
  {
    InitialInv();
    RunKeepsInv(Initial(), steps);
    var s := After(Initial(), steps);
    forall i, j ensures !(HandlerAt(s, i).HoldsLock() && TaskAt(s, j).HoldsLock()) {
      assert HandlerAt(s, i).HoldsLock() <==> s.g.lock == Some(ByHandler(i));
      assert TaskAt(s, j).HoldsLock() <==> s.g.lock == Some(ByTask(j));
    }
  }
}
