/** The published phase against what the server is doing, over every interleaving: failures are
    published, stay published until they are claimed, and a cleanup runs under its own phase. */
module ShutdownPhase {
  import opened Wrappers
  import opened Shutdown
  import opened ShutdownSafety

  // ---------- the phase at every position of the server ----------

  /** A value read from the phase during shutdown: only a failure can have been claimed since. */
  predicate SeenFits(seen: nat, phase: nat) {
    phase <= FAILED && if seen == FAILED then phase == FAILED || phase == DRAINING else phase == seen
  }

  predicate PhaseFits(g: Shared, v: Server) {
    match v
    case Listening => g.phase <= FAILED
    case ShutLocked => g.phase <= FAILED
    case MarkLoad(locked) => if locked then g.phase <= FAILED else g.phase == DRAINING || g.phase == FAILED
    case Mark(seen, locked) => SeenFits(seen, g.phase) && (locked || seen == DRAINING || seen == FAILED)
    case Cleaning => g.phase == STOPPING
    case Finished => g.phase == STOPPING
    case Failed => g.phase == FAILED || g.phase == DRAINING
    case _ => g.phase == DRAINING || g.phase == STOPPING
  }

  /** A handler that publishes a phase publishes one of the three after running. */
  predicate ValueFits(h: Handler) {
    h.Restarting? && !h.progress.Claimed? ==> DRAINING <= h.progress.value <= FAILED
  }

  ghost predicate PhaseInv(s: State) {
    PhaseFits(s.g, s.server) && forall id :: ValueFits(HandlerAt(s, id))
  }

  lemma HandlerKeepsPhase(g: Shared, id: nat, h: Handler, act: HandlerAct, v: Server)
    requires HandlerCan(g, h, act) && ValueFits(h) && PhaseFits(g, v)
    requires SawFlagClear(h) ==> !g.shuttingDown
    requires g.shuttingDown <==> !(v.Listening? || v.ShutLocked?)
    ensures
      var (g', h') := HandlerNext(g, id, h, act);
      ValueFits(h') && PhaseFits(g', v)
  {
  }

  lemma TaskKeepsPhase(g: Shared, id: nat, t: Task, lucky: bool, v: Server)
    requires TaskCan(g, t) && PhaseFits(g, v)
    requires TaskSawFlagClear(t) ==> !g.shuttingDown
    requires g.shuttingDown <==> !(v.Listening? || v.ShutLocked?)
    ensures PhaseFits(TaskNext(g, id, t, lucky).0, v)
  {
  }

  lemma ContinueKeepsPhase(g: Shared, v: Server, lucky: bool)
    requires CanContinue(g, v) && PhaseFits(g, v)
    ensures
      var (g', v') := ServerContinue(g, v, lucky);
      PhaseFits(g', v')
  {
  }

  lemma ServerKeepsPhase(s: State, act: ServerAct)
    requires ServerCan(s, act) && PhaseFits(s.g, s.server)
    ensures PhaseFits(ServerNext(s, act).g, ServerNext(s, act).server)
    ensures ServerNext(s, act).handlers == s.handlers
  {
    if act.Continue? {
      ContinueKeepsPhase(s.g, s.server, act.lucky);
    }
  }

  lemma StepKeepsPhase(s: State, step: Step)
    requires Inv(s) && PhaseInv(s) && Enabled(s, step)
    ensures PhaseInv(Apply(s, step))
  {
    var s' := Apply(s, step);
    match step
    case HandlerStep(id, act) =>
      HandlerKeepsPhase(s.g, id, HandlerAt(s, id), act, s.server);
      forall j ensures ValueFits(HandlerAt(s', j)) {
        assert j != id ==> HandlerAt(s', j) == HandlerAt(s, j);
      }
    case TaskStep(id, lucky) =>
      TaskKeepsPhase(s.g, id, TaskAt(s, id), lucky, s.server);
      assert forall j :: HandlerAt(s', j) == HandlerAt(s, j);
    case ServerStep(act) =>
      ServerKeepsPhase(s, act);
      assert forall j :: HandlerAt(s', j) == HandlerAt(s, j);
    case _ =>
      assert forall j :: HandlerAt(s', j) == HandlerAt(s, j);
  }

  lemma {:induction false} RunKeepsPhase(s: State, steps: seq<Step>)
    requires Inv(s) && PhaseInv(s) && Runs(s, steps)
    ensures Inv(After(s, steps)) && PhaseInv(After(s, steps))
    decreases |steps|
  {
    if steps != [] {
      StepKeepsInv(s, steps[0]);
      StepKeepsPhase(s, steps[0]);
      RunKeepsPhase(Apply(s, steps[0]), steps[1..]);
    }
  }

  lemma ReachableFits(steps: seq<Step>)
    requires Runs(Initial(), steps)
    ensures Inv(After(Initial(), steps)) && PhaseInv(After(Initial(), steps))
  {
    InitialInv();
    RunKeepsPhase(Initial(), steps);
  }

  /** In every reachable state: the phase is stopping while the cleanup runs and after it succeeded;
      a server that waits for a retry shows the failure, or draining once that was claimed; and from
      the end of the shutdown's first steps on the phase is never running. */
  lemma PhaseTellsPosition(steps: seq<Step>)
    requires Runs(Initial(), steps)
    ensures
      var s := After(Initial(), steps);
      && (s.server.Cleaning? || s.server.Finished? ==> s.g.phase == STOPPING)
      && (s.server.Failed? ==> s.g.phase == FAILED || s.g.phase == DRAINING)
      && (s.g.shuttingDown && !(s.server.MarkLoad? && s.server.locked) && !(s.server.Mark? && s.server.locked) ==>
            s.g.phase != RUNNING)
  {
    ReachableFits(steps);
  }

  // ---------- claims and delayed tasks ----------

  predicate Claiming(h: Handler) {
    h.RestartClaim? || h.RestartNotify?
  }

  /** A task claims only during a shutdown; before one it finds the phase as it read it and leaves it
      draining or stopping. */
  predicate TaskFits(g: Shared, t: Task) {
    && (t.TaskClaim? || t.TaskNotify? ==> g.shuttingDown)
    && (t.TaskMark? ==> t.seen == g.phase <= FAILED)
    && (t.TaskUnlock? && !g.shuttingDown ==> g.phase == DRAINING || g.phase == STOPPING)
  }

  ghost predicate TaskInv(s: State) {
    && (forall id :: Claiming(HandlerAt(s, id)) ==> s.g.shuttingDown)
    && (forall id :: TaskFits(s.g, TaskAt(s, id)))
  }

  lemma HandlerClaims(g: Shared, id: nat, h: Handler, act: HandlerAct)
    requires HandlerCan(g, h, act) && (Claiming(h) ==> g.shuttingDown)
    requires SawFlagClear(h) ==> g.lock == Some(ByHandler(id))
    ensures
      var (g', h') := HandlerNext(g, id, h, act);
      && g'.shuttingDown == g.shuttingDown && (Claiming(h') ==> g.shuttingDown)
      && (g'.phase != g.phase ==> g.shuttingDown || g.lock == Some(ByHandler(id)))
  {
  }

  lemma OwnTaskFits(g: Shared, id: nat, t: Task, lucky: bool)
    requires TaskCan(g, t) && TaskFits(g, t) && g.phase <= FAILED
    requires TaskSawFlagClear(t) ==> !g.shuttingDown
    ensures
      var (g', t') := TaskNext(g, id, t, lucky);
      TaskFits(g', t') && g'.shuttingDown == g.shuttingDown
  {
  }

  /** A step of somebody else that respects the lock does not disturb a task that holds it. */
  lemma OtherTaskFits(g: Shared, g': Shared, t: Task)
    requires TaskFits(g, t) && (TaskSawFlagClear(t) ==> !g.shuttingDown)
    requires g'.shuttingDown == g.shuttingDown || (g'.shuttingDown && !t.HoldsLock())
    requires g'.phase != g.phase ==> g.shuttingDown || !t.HoldsLock()
    ensures TaskFits(g', t)
  {
  }

  lemma HandlerKeepsTasks(s: State, id: nat, act: HandlerAct)
    requires Inv(s) && TaskInv(s) && Enabled(s, HandlerStep(id, act))
    ensures TaskInv(Apply(s, HandlerStep(id, act)))
  {
    var s' := Apply(s, HandlerStep(id, act));
    HandlerClaims(s.g, id, HandlerAt(s, id), act);
    forall j ensures Claiming(HandlerAt(s', j)) ==> s'.g.shuttingDown {
      assert j != id ==> HandlerAt(s', j) == HandlerAt(s, j);
    }
    forall j ensures TaskFits(s'.g, TaskAt(s', j)) {
      assert TaskAt(s, j).HoldsLock() <==> s.g.lock == Some(ByTask(j));
      assert TaskFits(s.g, TaskAt(s, j));
      OtherTaskFits(s.g, s'.g, TaskAt(s, j));
    }
  }

  lemma TaskKeepsTasks(s: State, id: nat, lucky: bool)
    requires Inv(s) && PhaseInv(s) && TaskInv(s) && Enabled(s, TaskStep(id, lucky))
    ensures TaskInv(Apply(s, TaskStep(id, lucky)))
  {
    var s' := Apply(s, TaskStep(id, lucky));
    OwnTaskFits(s.g, id, TaskAt(s, id), lucky);
    assert forall j :: HandlerAt(s', j) == HandlerAt(s, j);
    TaskCounts(s.g, id, TaskAt(s, id), lucky);
    forall j ensures TaskFits(s'.g, TaskAt(s', j)) {
      if j != id {
        assert TaskAt(s', j) == TaskAt(s, j);
        assert TaskAt(s, j).HoldsLock() <==> s.g.lock == Some(ByTask(j));
        assert TaskAt(s, id).HoldsLock() <==> s.g.lock == Some(ByTask(id));
        OtherTaskFits(s.g, s'.g, TaskAt(s, j));
      }
    }
  }

  lemma ServerKeepsTasks(s: State, act: ServerAct)
    requires Inv(s) && TaskInv(s) && ServerCan(s, act)
    ensures TaskInv(ServerNext(s, act))
  {
    var s' := ServerNext(s, act);
    ServerMoves(s, act);
    assert forall j :: HandlerAt(s', j) == HandlerAt(s, j) && TaskAt(s', j) == TaskAt(s, j);
    forall j ensures TaskFits(s'.g, TaskAt(s', j)) {
      assert TaskAt(s, j).HoldsLock() <==> s.g.lock == Some(ByTask(j));
      OtherTaskFits(s.g, s'.g, TaskAt(s, j));
    }
  }

  lemma OthersKeepTasks(s: State, s': State)
    requires TaskInv(s) && s'.handlers == s.handlers && s'.tasks == s.tasks
    requires s'.g.phase == s.g.phase && s'.g.shuttingDown == s.g.shuttingDown
    ensures TaskInv(s')
  {
    assert forall j :: HandlerAt(s', j) == HandlerAt(s, j);
    forall j ensures TaskFits(s'.g, TaskAt(s', j)) {
      assert TaskFits(s.g, TaskAt(s, j));
    }
  }

  lemma StepKeepsTasks(s: State, step: Step)
    requires Inv(s) && PhaseInv(s) && TaskInv(s) && Enabled(s, step)
    ensures TaskInv(Apply(s, step))
  {
    match step
    case HandlerStep(id, act) => HandlerKeepsTasks(s, id, act);
    case TaskStep(id, lucky) => TaskKeepsTasks(s, id, lucky);
    case ServerStep(act) => ServerKeepsTasks(s, act);
    case _ => OthersKeepTasks(s, Apply(s, step));
  }

  lemma {:induction false} RunKeepsTasks(s: State, steps: seq<Step>)
    requires Inv(s) && PhaseInv(s) && TaskInv(s) && Runs(s, steps)
    ensures TaskInv(After(s, steps))
    decreases |steps|
  {
    if steps != [] {
      StepKeepsInv(s, steps[0]);
      StepKeepsPhase(s, steps[0]);
      StepKeepsTasks(s, steps[0]);
      RunKeepsTasks(Apply(s, steps[0]), steps[1..]);
    }
  }

  /** In every reachable state: whoever is about to claim or has claimed a failure does so during a
      shutdown, and a delayed restart task that releases the lock before one leaves the server
      draining or stopping. */
  lemma TasksLeaveDraining(steps: seq<Step>, id: nat)
    requires Runs(Initial(), steps)
    ensures
      var s := After(Initial(), steps);
      && (HandlerAt(s, id).RestartClaim? || HandlerAt(s, id).RestartNotify? ==> s.g.shuttingDown)
      && (TaskAt(s, id).TaskClaim? || TaskAt(s, id).TaskNotify? ==> s.g.shuttingDown)
      && (TaskAt(s, id).TaskUnlock? && !s.g.shuttingDown ==> s.g.phase == DRAINING || s.g.phase == STOPPING)
  {
    InitialInv();
    RunKeepsTasks(Initial(), steps);
    assert TaskFits(After(Initial(), steps).g, TaskAt(After(Initial(), steps), id));
  }

  // ---------- failures ----------

  /** The access that a handler makes to the phase and to its two counts. */
  lemma HandlerCounts(g: Shared, id: nat, h: Handler, act: HandlerAct)
    requires HandlerCan(g, h, act)
    ensures
      var g' := HandlerNext(g, id, h, act).0;
      var stores := act.StorePhase? && h == Restarting(MayStore(FAILED));
      var claims := act.Claim? && g.phase == FAILED;
      && g'.failures == g.failures + (if stores then 1 else 0) && (stores ==> g'.phase == FAILED)
      && g'.claims == g.claims + (if claims then 1 else 0) && (claims ==> g'.phase == DRAINING)
      && (g'.phase != g.phase ==> claims || SawFlagClear(h))
      && (g'.phase == FAILED ==> g.phase == FAILED || stores)
  {
  }

  lemma TaskCounts(g: Shared, id: nat, t: Task, lucky: bool)
    requires TaskCan(g, t)
    ensures
      var g' := TaskNext(g, id, t, lucky).0;
      var claims := t.TaskClaim? && g.phase == FAILED;
      && g'.failures == g.failures
      && g'.claims == g.claims + (if claims then 1 else 0) && (claims ==> g'.phase == DRAINING)
      && (g'.phase != g.phase ==> claims || TaskSawFlagClear(t))
      && (g'.phase == FAILED ==> g.phase == FAILED)
  {
  }

  lemma ContinueCounts(g: Shared, v: Server, lucky: bool)
    requires CanContinue(g, v)
    ensures
      var (g', v') := ServerContinue(g, v, lucky);
      && g'.failures == g.failures + (if v.CleanupFailed? then 1 else 0)
      && g'.claims == g.claims
      && (v'.Failed? <==> v.CleanupFailed?)
      && (v.CleanupFailed? ==> g'.phase == FAILED)
      && (g'.phase == FAILED ==> g.phase == FAILED || v.CleanupFailed?)
      && !v'.CleanupFailed?
  {
  }

  lemma ServerCounts(s: State, act: ServerAct)
    requires ServerCan(s, act)
    ensures
      var s' := ServerNext(s, act);
      && s'.g.failures == s.g.failures + (if s.server.CleanupFailed? then 1 else 0)
      && s'.g.claims == s.g.claims
      && (s'.server.Failed? <==> s.server.CleanupFailed?)
      && (s.server.CleanupFailed? ==> s'.g.phase == FAILED)
      && (s'.g.phase == FAILED ==> s.g.phase == FAILED || s.server.CleanupFailed?)
      && (s'.server.CleanupFailed? <==> act == WaitTimesOut || act == CleanupEnds(false))
  {
    if act.Continue? {
      ContinueCounts(s.g, s.server, act.lucky);
    }
  }

  /** Failures are counted exactly when they are stored: by the server after an attempt that timed
      out or failed, which then waits for a retry, or by a restart handler that gives up before any
      shutdown. */
  lemma FailureIsPublished(s: State, step: Step)
    requires Enabled(s, step)
    ensures
      var s' := Apply(s, step);
      var published :=
        || (step.ServerStep? && s.server.CleanupFailed?)
        || (step.HandlerStep? && step.act.StorePhase? && HandlerAt(s, step.id) == Restarting(MayStore(FAILED)));
      && s'.g.failures == s.g.failures + (if published then 1 else 0)
      && (published ==> s'.g.phase == FAILED)
      && (s'.server.Failed? <==> if step.ServerStep? then s.server.CleanupFailed? else s.server.Failed?)
      && (step.ServerStep? ==>
            (s'.server.CleanupFailed? <==> step.move == WaitTimesOut || step.move == CleanupEnds(false)))
  {
    match step
    case HandlerStep(id, act) => HandlerCounts(s.g, id, HandlerAt(s, id), act);
    case TaskStep(id, lucky) => TaskCounts(s.g, id, TaskAt(s, id), lucky);
    case ServerStep(act) => ServerCounts(s, act);
    case _ =>
  }

  /** The number of steps of a run that publish a failure. */
  ghost function Publications(s: State, steps: seq<Step>): nat
    requires Runs(s, steps)
    decreases |steps|
  {
    if steps == [] then 0 else
      var published :=
        || (steps[0].ServerStep? && s.server.CleanupFailed?)
        || (steps[0].HandlerStep? && steps[0].act.StorePhase? &&
            HandlerAt(s, steps[0].id) == Restarting(MayStore(FAILED)));
      (if published then 1 else 0) + Publications(Apply(s, steps[0]), steps[1..])
  }

  lemma {:induction false} FailuresAreCounted(s: State, steps: seq<Step>)
    requires Runs(s, steps)
    ensures After(s, steps).g.failures == s.g.failures + Publications(s, steps)
    decreases |steps|
  {
    if steps != [] {
      FailureIsPublished(s, steps[0]);
      FailuresAreCounted(Apply(s, steps[0]), steps[1..]);
    }
  }

  /** A claim takes a published failure, and nothing else changes the phase while the server waits. */
  lemma FailureStaysUntilClaimed(s: State, step: Step)
    requires Inv(s) && Enabled(s, step)
    ensures
      var s' := Apply(s, step);
      var claimed := s.g.phase == FAILED &&
        (|| (step.HandlerStep? && step.act.Claim?)
         || (step.TaskStep? && TaskAt(s, step.id).TaskClaim?));
      && s'.g.claims == s.g.claims + (if claimed then 1 else 0)
      && (claimed ==> s'.g.phase == DRAINING)
      && (s.server.Failed? && s'.server.Failed? && !claimed ==> s'.g.phase == s.g.phase)
  {
    match step
    case HandlerStep(id, act) => HandlerCounts(s.g, id, HandlerAt(s, id), act);
    case TaskStep(id, lucky) => TaskCounts(s.g, id, TaskAt(s, id), lucky);
    case ServerStep(act) => ServerCounts(s, act);
    case _ =>
  }

  /** A published failure was replaced without a claim: by a new publication, or by a drain that began. */
  predicate Overwrites(s: State, s': State) {
    s.g.phase == FAILED && (s'.g.failures > s.g.failures || (s'.g.phase != FAILED && s'.g.claims == s.g.claims))
  }

  ghost function Overwritten(s: State, steps: seq<Step>): nat
    requires Runs(s, steps)
    decreases |steps|
  {
    if steps == [] then 0
    else (if Overwrites(s, Apply(s, steps[0])) then 1 else 0) + Overwritten(Apply(s, steps[0]), steps[1..])
  }

  function Showing(g: Shared): nat {
    if g.phase == FAILED then 1 else 0
  }

  lemma StepBalances(s: State, step: Step)
    requires Enabled(s, step)
    ensures
      var s' := Apply(s, step);
      s'.g.failures - s'.g.claims - Showing(s'.g) ==
      s.g.failures - s.g.claims - Showing(s.g) + if Overwrites(s, s') then 1 else 0
  {
    match step
    case HandlerStep(id, act) => HandlerCounts(s.g, id, HandlerAt(s, id), act);
    case TaskStep(id, lucky) => TaskCounts(s.g, id, TaskAt(s, id), lucky);
    case ServerStep(act) => ServerCounts(s, act);
    case _ =>
  }

  lemma {:induction false} RunBalances(s: State, steps: seq<Step>)
    requires Runs(s, steps)
    ensures
      var s' := After(s, steps);
      s'.g.failures - s'.g.claims - Showing(s'.g) ==
      s.g.failures - s.g.claims - Showing(s.g) + Overwritten(s, steps)
    decreases |steps|
  {
    if steps != [] {
      StepBalances(s, steps[0]);
      RunBalances(Apply(s, steps[0]), steps[1..]);
    }
  }

  /** In every run each published failure was claimed, was replaced unclaimed, or still shows. */
  lemma FailuresBalance(steps: seq<Step>)
    requires Runs(Initial(), steps)
    ensures
      var g := After(Initial(), steps).g;
      g.failures == g.claims + Overwritten(Initial(), steps) + if g.phase == FAILED then 1 else 0
  {
    RunBalances(Initial(), steps);
  }

  ghost predicate WaitsThroughout(s: State, steps: seq<Step>)
    requires Runs(s, steps)
    decreases |steps|
  {
    s.server.Failed? && (steps == [] || WaitsThroughout(Apply(s, steps[0]), steps[1..]))
  }

  /** While the server waits for a retry, for any steps of others: the failure stays published, or
      exactly one claim turned it into draining. */
  lemma {:induction false} WaitingShowsFailure(s: State, steps: seq<Step>)
    requires Inv(s) && PhaseInv(s) && Runs(s, steps) && WaitsThroughout(s, steps)
    ensures
      var s' := After(s, steps);
      if s.g.phase == FAILED then
        || (s'.g.phase == FAILED && s'.g.claims == s.g.claims)
        || (s'.g.phase == DRAINING && s'.g.claims == s.g.claims + 1)
      else s'.g.phase == DRAINING && s'.g.claims == s.g.claims
    decreases |steps|
  {
    if steps != [] {
      StepKeepsInv(s, steps[0]);
      StepKeepsPhase(s, steps[0]);
      FailureStaysUntilClaimed(s, steps[0]);
      WaitingShowsFailure(Apply(s, steps[0]), steps[1..]);
    }
  }
}
