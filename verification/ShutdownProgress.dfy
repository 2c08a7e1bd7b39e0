/** What the parties to a shutdown can still do: a failed cleanup can be retried, a quiet system
    can finish, and a restart request goes its whole way. */
module ShutdownProgress {
  import opened Wrappers
  import opened Shutdown
  import opened ShutdownSafety

  lemma {:induction false} Extend(s: State, steps: seq<Step>, step: Step)
    requires Runs(s, steps) && Enabled(After(s, steps), step)
    ensures Runs(s, steps + [step]) && After(s, steps + [step]) == Apply(After(s, steps), step)
    decreases |steps|
  {
    if steps == [] {
      assert steps + [step] == [step];
    } else {
      Extend(Apply(s, steps[0]), steps[1..], step);
      assert (steps + [step])[1..] == steps[1..] + [step];
    }
  }

  lemma {:induction false} Join(s: State, first: seq<Step>, second: seq<Step>)
    requires Runs(s, first) && Runs(After(s, first), second)
    ensures Runs(s, first + second) && After(s, first + second) == After(After(s, first), second)
    decreases |first|
  {
    if first == [] {
      assert first + second == second;
    } else {
      Join(Apply(s, first[0]), first[1..], second);
      assert (first + second)[1..] == first[1..] + second;
    }
  }

  // ---------- one handler on its own ----------

  /** `s` after steps of handler `id` alone. */
  function With(s: State, g: Shared, id: nat, h: Handler): State {
    s.(g := g, handlers := s.handlers[id := h])
  }

  /** Steps of one handler. */
  function Acts(id: nat, acts: seq<HandlerAct>): seq<Step> {
    seq(|acts|, k requires 0 <= k < |acts| => HandlerStep(id, acts[k]))
  }

  predicate Does(g: Shared, id: nat, h: Handler, act: HandlerAct, g': Shared, h': Handler) {
    HandlerCan(g, h, act) && !act.Accept? && HandlerNext(g, id, h, act) == (g', h')
  }

  predicate Follows(g: Shared, id: nat, h: Handler, acts: seq<HandlerAct>, g': Shared, h': Handler)
    decreases |acts|
  {
    if acts == [] then g' == g && h' == h
    else
      && HandlerCan(g, h, acts[0]) && !acts[0].Accept?
      && var (g1, h1) := HandlerNext(g, id, h, acts[0]);
      Follows(g1, id, h1, acts[1..], g', h')
  }

  /** From `(g, h)` the handler can perform `acts` and ends in `(g', h')`. */
  predicate Path(g: Shared, id: nat, h: Handler, acts: seq<HandlerAct>, g': Shared, h': Handler) {
    Follows(g, id, h, acts, g', h')
  }

  lemma ActApplies(s: State, id: nat, act: HandlerAct, g': Shared, h': Handler)
    requires !s.server.GateHeld? && Does(s.g, id, HandlerAt(s, id), act, g', h')
    ensures Enabled(s, HandlerStep(id, act)) && Apply(s, HandlerStep(id, act)) == With(s, g', id, h')
  {
  }

  lemma RunsCons(s: State, step: Step, s1: State, rest: seq<Step>)
    requires Enabled(s, step) && Apply(s, step) == s1 && Runs(s1, rest)
    ensures Runs(s, [step] + rest) && After(s, [step] + rest) == After(s1, rest)
  {
    assert ([step] + rest)[1..] == rest;
  }

  lemma PathUncons(g: Shared, id: nat, h: Handler, acts: seq<HandlerAct>, g': Shared, h': Handler)
    returns (g1: Shared, h1: Handler)
    requires acts != [] && Path(g, id, h, acts, g', h')
    ensures Does(g, id, h, acts[0], g1, h1) && Path(g1, id, h1, acts[1..], g', h')
    ensures |acts| == 1 ==> g1 == g' && h1 == h'
  {
    var next := HandlerNext(g, id, h, acts[0]);
    g1, h1 := next.0, next.1;
    assert Follows(g1, id, h1, acts[1..], g', h');
  }

  lemma ActsCons(id: nat, acts: seq<HandlerAct>)
    requires acts != []
    ensures Acts(id, acts) == [HandlerStep(id, acts[0])] + Acts(id, acts[1..])
  {
  }

  lemma WithTwice(s: State, g1: Shared, g': Shared, id: nat, h1: Handler, h': Handler)
    ensures With(With(s, g1, id, h1), g', id, h') == With(s, g', id, h')
    ensures HandlerAt(With(s, g1, id, h1), id) == h1 && With(s, g1, id, h1).g == g1
    ensures With(s, g1, id, h1).server == s.server
  {
    assert s.handlers[id := h1][id := h'] == s.handlers[id := h'];
  }

  lemma {:induction false} PathRuns(s: State, id: nat, acts: seq<HandlerAct>, g': Shared, h': Handler)
    requires !s.server.GateHeld? && acts != []
    requires Path(s.g, id, HandlerAt(s, id), acts, g', h')
    ensures Runs(s, Acts(id, acts)) && After(s, Acts(id, acts)) == With(s, g', id, h')
    decreases |acts|
  {
    var g1, h1 := PathUncons(s.g, id, HandlerAt(s, id), acts, g', h');
    var s1 := With(s, g1, id, h1);
    ActApplies(s, id, acts[0], g1, h1);
    ActsCons(id, acts);
    WithTwice(s, g1, g', id, h1, h');
    if |acts| > 1 {
      PathRuns(s1, id, acts[1..], g', h');
    }
    RunsCons(s, HandlerStep(id, acts[0]), s1, Acts(id, acts[1..]));
  }

  lemma PathCons(
    g: Shared, id: nat, h: Handler, act: HandlerAct, g1: Shared, h1: Handler, rest: seq<HandlerAct>,
    g': Shared, h': Handler)
    requires Does(g, id, h, act, g1, h1) && Path(g1, id, h1, rest, g', h')
    ensures Path(g, id, h, [act] + rest, g', h')
  {
    assert ([act] + rest)[1..] == rest;
  }

  lemma {:induction false} PathJoin(
    g: Shared, id: nat, h: Handler, first: seq<HandlerAct>, g1: Shared, h1: Handler, second: seq<HandlerAct>,
    g': Shared, h': Handler)
    requires Path(g, id, h, first, g1, h1) && Path(g1, id, h1, second, g', h')
    ensures Path(g, id, h, first + second, g', h')
    decreases |first|
  {
    if first == [] {
      assert first + second == second;
    } else {
      var (g2, h2) := HandlerNext(g, id, h, first[0]);
      PathJoin(g2, id, h2, first[1..], g1, h1, second, g', h');
      assert (first + second)[1..] == first[1..] + second;
    }
  }

  const ENTRY := [Enter, Load, Decide]

  /** The middleware: a request that has arrived enters, reads the phase and is judged by it. */
  lemma EntryPath(g: Shared, id: nat, restart: bool)
    ensures
      var refused := (g.shuttingDown || g.phase == DRAINING || g.phase == STOPPING) && !(restart && g.phase == FAILED);
      Path(g, id, Absent, [Arrive(restart)] + ENTRY, g,
           if refused then Absent else if restart then RestartCheck else Mutating)
  {
    var h := Verdict(g, Loaded(restart, g.phase));
    PathCons(g, id, Loaded(restart, g.phase), Decide, g, h, [], g, h);
    PathCons(g, id, Entered(restart), Load, g, Loaded(restart, g.phase), [Decide], g, h);
    assert [Load] + [Decide] == [Load, Decide];
    PathCons(g, id, Arrived(restart), Enter, g, Entered(restart), [Load, Decide], g, h);
    assert [Enter] + [Load, Decide] == ENTRY;
    PathCons(g, id, Absent, Arrive(restart), g, Arrived(restart), ENTRY, g, h);
  }

  lemma StorePath(g: Shared, id: nat, value: nat)
    requires g.lock == Some(ByHandler(id)) && !g.shuttingDown
    ensures
      Path(g, id, Restarting(Locked(value)), [ReadFlag, StorePhase, UnlockPhase],
           g.(lock := None, phase := value, failures := if value == FAILED then g.failures + 1 else g.failures),
           Restarting(Published(value)))
  {
    var stored := g.(phase := value, failures := if value == FAILED then g.failures + 1 else g.failures);
    var g', h' := stored.(lock := None), Restarting(Published(value));
    PathCons(stored, id, Restarting(Unlocking(value)), UnlockPhase, g', h', [], g', h');
    PathCons(g, id, Restarting(MayStore(value)), StorePhase, stored, Restarting(Unlocking(value)), [UnlockPhase], g', h');
    assert [StorePhase] + [UnlockPhase] == [StorePhase, UnlockPhase];
    PathCons(g, id, Restarting(Locked(value)), ReadFlag, g, Restarting(MayStore(value)), [StorePhase, UnlockPhase], g', h');
    assert [ReadFlag] + [StorePhase, UnlockPhase] == [ReadFlag, StorePhase, UnlockPhase];
  }

  /** The accesses of one publication. */
  function Publishing(value: nat): seq<HandlerAct> {
    [SetPhase(value), LockPhase] + [ReadFlag, StorePhase, UnlockPhase]
  }

  lemma LockPath(g: Shared, id: nat, value: nat, g': Shared, h': Handler)
    requires g.lock.None?
    requires Path(g.(lock := Some(ByHandler(id))), id, Restarting(Locked(value)), [ReadFlag, StorePhase, UnlockPhase], g', h')
    ensures Path(g, id, Restarting(WantLock(value)), [LockPhase] + [ReadFlag, StorePhase, UnlockPhase], g', h')
  {
    PathCons(g, id, Restarting(WantLock(value)), LockPhase, g.(lock := Some(ByHandler(id))), Restarting(Locked(value)),
             [ReadFlag, StorePhase, UnlockPhase], g', h');
  }

  /** Publishing one phase before any shutdown: the phase and, for a failure, the count. */
  lemma PublishPath(g: Shared, id: nat, h: Handler, value: nat)
    requires HandlerCan(g, h, SetPhase(value)) && !g.shuttingDown && g.lock.None?
    ensures
      Path(g, id, h, Publishing(value),
           g.(phase := value, failures := if value == FAILED then g.failures + 1 else g.failures),
           Restarting(Published(value)))
  {
    var g' := g.(phase := value, failures := if value == FAILED then g.failures + 1 else g.failures);
    var h' := Restarting(Published(value));
    var rest := [ReadFlag, StorePhase, UnlockPhase];
    StorePath(g.(lock := Some(ByHandler(id))), id, value);
    LockPath(g, id, value, g', h');
    PathCons(g, id, h, SetPhase(value), g, Restarting(WantLock(value)), [LockPhase] + rest, g', h');
    assert [SetPhase(value)] + ([LockPhase] + rest) == Publishing(value);
  }

  // ---------- requests ----------

  /** A request is admitted exactly if no shutdown has begun and the child is not being drained or
      stopped; only a restart request is let through besides, and only while a failure is published. */
  lemma RequestIsJudged(s: State, id: nat, restart: bool)
    requires !s.server.GateHeld? && HandlerAt(s, id).Absent?
    ensures
      var steps := Acts(id, [Arrive(restart)] + ENTRY);
      var refused := (s.g.shuttingDown || s.g.phase == DRAINING || s.g.phase == STOPPING) && !(restart && s.g.phase == FAILED);
      && Runs(s, steps)
      && After(s, steps) == With(s, s.g, id, if refused then Absent else if restart then RestartCheck else Mutating)
  {
    var refused := (s.g.shuttingDown || s.g.phase == DRAINING || s.g.phase == STOPPING) && !(restart && s.g.phase == FAILED);
    EntryPath(s.g, id, restart);
    PathRuns(s, id, [Arrive(restart)] + ENTRY, s.g, if refused then Absent else if restart then RestartCheck else Mutating);
  }

  lemma WorkPath(g: Shared, id: nat, job: nat)
    requires job !in g.jobs && !g.recovery
    ensures
      Path(g, id, Mutating, [StartJob(job), StartRecovery, Leave], g.(jobs := g.jobs + {job}, recovery := true), Absent)
  {
    var working := g.(jobs := g.jobs + {job});
    var g' := working.(recovery := true);
    PathCons(g', id, Mutating, Leave, g', Absent, [], g', Absent);
    PathCons(working, id, Mutating, StartRecovery, g', Mutating, [Leave], g', Absent);
    assert [StartRecovery] + [Leave] == [StartRecovery, Leave];
    PathCons(g, id, Mutating, StartJob(job), working, Mutating, [StartRecovery, Leave], g', Absent);
    assert [StartJob(job)] + [StartRecovery, Leave] == [StartJob(job), StartRecovery, Leave];
  }

  /** An admitted mutation leaves the job and the recovery it started running when it returns, until
      they end. */
  lemma MutationLeavesWork(s: State, id: nat, job: nat)
    requires !s.server.GateHeld? && HandlerAt(s, id).Absent? && job !in s.g.jobs && !s.g.recovery
    requires !s.g.shuttingDown && (s.g.phase == RUNNING || s.g.phase == FAILED)
    ensures
      var acts := [Arrive(false)] + ENTRY + [StartJob(job), StartRecovery, Leave];
      var working := With(s, s.g.(jobs := s.g.jobs + {job}, recovery := true), id, Absent);
      && Runs(s, Acts(id, acts)) && After(s, Acts(id, acts)) == working
      && Runs(working, [JobEnds(job), RecoveryEnds])
      && After(working, [JobEnds(job), RecoveryEnds]) == With(s, s.g, id, Absent)
  {
    var g' := s.g.(jobs := s.g.jobs + {job}, recovery := true);
    EntryPath(s.g, id, false);
    WorkPath(s.g, id, job);
    PathJoin(s.g, id, Absent, [Arrive(false)] + ENTRY, s.g, Mutating, [StartJob(job), StartRecovery, Leave], g', Absent);
    PathRuns(s, id, [Arrive(false)] + ENTRY + [StartJob(job), StartRecovery, Leave], g', Absent);
    var working := With(s, g', id, Absent);
    assert s.g.jobs + {job} - {job} == s.g.jobs;
    Extend(working, [], JobEnds(job));
    assert [] + [JobEnds(job)] == [JobEnds(job)];
    Extend(working, [JobEnds(job)], RecoveryEnds);
    assert [JobEnds(job)] + [RecoveryEnds] == [JobEnds(job), RecoveryEnds];
  }

  /** While the detector runs it can start a recovery, which ends by itself. */
  lemma DetectorCanStart(s: State)
    requires s.detector && !s.g.recovery
    ensures Runs(s, [DetectorStarts]) && After(s, [DetectorStarts]) == s.(g := s.g.(recovery := true))
    ensures Runs(s, [DetectorStarts, RecoveryEnds]) && After(s, [DetectorStarts, RecoveryEnds]) == s
  {
    Extend(s, [], DetectorStarts);
    assert [] + [DetectorStarts] == [DetectorStarts];
    Extend(s, [DetectorStarts], RecoveryEnds);
    assert [DetectorStarts] + [RecoveryEnds] == [DetectorStarts, RecoveryEnds];
  }

  lemma ClaimPath(g: Shared, id: nat)
    requires g.shuttingDown && g.phase == FAILED
    ensures
      Path(g, id, RestartCheck, [CheckFlag, Claim, NotifyRetry],
           g.(phase := DRAINING, claims := g.claims + 1, retry := true), Absent)
  {
    var claimed := g.(phase := DRAINING, claims := g.claims + 1);
    var g' := claimed.(retry := true);
    PathCons(claimed, id, RestartNotify, NotifyRetry, g', Absent, [], g', Absent);
    PathCons(g, id, RestartClaim, Claim, claimed, RestartNotify, [NotifyRetry], g', Absent);
    assert [Claim] + [NotifyRetry] == [Claim, NotifyRetry];
    PathCons(g, id, RestartCheck, CheckFlag, g, RestartClaim, [Claim, NotifyRetry], g', Absent);
    assert [CheckFlag] + [Claim, NotifyRetry] == [CheckFlag, Claim, NotifyRetry];
  }

  /** A restart request claims a published failure during shutdown. */
  lemma RequestClaims(s: State, id: nat)
    requires s.g.shuttingDown && !s.server.GateHeld? && s.g.phase == FAILED && HandlerAt(s, id).Absent?
    ensures
      var steps := Acts(id, [Arrive(true)] + ENTRY + [CheckFlag, Claim, NotifyRetry]);
      && Runs(s, steps)
      && After(s, steps) == With(s, s.g.(phase := DRAINING, claims := s.g.claims + 1, retry := true), id, Absent)
  {
    var g' := s.g.(phase := DRAINING, claims := s.g.claims + 1, retry := true);
    EntryPath(s.g, id, true);
    ClaimPath(s.g, id);
    PathJoin(s.g, id, Absent, [Arrive(true)] + ENTRY, s.g, RestartCheck, [CheckFlag, Claim, NotifyRetry], g', Absent);
    PathRuns(s, id, [Arrive(true)] + ENTRY + [CheckFlag, Claim, NotifyRetry], g', Absent);
  }

  /** A failed cleanup can be retried: while the failure is published and the admin listener lives,
      one restart request claims it and wakes the server, which starts a new attempt. */
  lemma FailureCanBeRetried(s: State, id: nat)
    requires Inv(s) && s.server.Failed? && s.g.phase == FAILED && !s.adminEnded && HandlerAt(s, id).Absent?
    ensures
      var steps := Acts(id, [Arrive(true)] + ENTRY + [CheckFlag, Claim, NotifyRetry]) + [ServerStep(WakeForRetry)];
      && Runs(s, steps)
      && After(s, steps) ==
           With(s, s.g.(phase := DRAINING, claims := s.g.claims + 1, retry := false), id, Absent).(server := MarkLoad(false))
  {
    RequestClaims(s, id);
    Extend(s, Acts(id, [Arrive(true)] + ENTRY + [CheckFlag, Claim, NotifyRetry]), ServerStep(WakeForRetry));
  }

  lemma LostClaimPath(g: Shared, id: nat)
    requires g.phase != FAILED
    ensures Path(g, id, RestartClaim, [Claim], g, Absent)
  {
    PathCons(g, id, RestartClaim, Claim, g, Absent, [], g, Absent);
    assert [Claim] + [] == [Claim];
  }

  lemma RequestRaces(s: State, id: nat)
    requires s.g.shuttingDown && !s.server.GateHeld? && s.g.phase == FAILED && HandlerAt(s, id).Absent?
    ensures
      var steps := Acts(id, [Arrive(true)] + ENTRY + [CheckFlag]);
      Runs(s, steps) && After(s, steps) == With(s, s.g, id, RestartClaim)
  {
    EntryPath(s.g, id, true);
    PathCons(s.g, id, RestartCheck, CheckFlag, s.g, RestartClaim, [], s.g, RestartClaim);
    assert [CheckFlag] + [] == [CheckFlag];
    PathJoin(s.g, id, Absent, [Arrive(true)] + ENTRY, s.g, RestartCheck, [CheckFlag], s.g, RestartClaim);
    PathRuns(s, id, [Arrive(true)] + ENTRY + [CheckFlag], s.g, RestartClaim);
  }

  /** Two restart requests may both find the failure published: one of them claims it, and the other
      is refused without waking the server. */
  lemma OneRequestClaims(s: State, i: nat, j: nat)
    requires s.g.shuttingDown && !s.server.GateHeld? && s.g.phase == FAILED && i != j
    requires HandlerAt(s, i).Absent? && HandlerAt(s, j).Absent?
    ensures
      var late := Acts(i, [Arrive(true)] + ENTRY + [CheckFlag]);
      var first := Acts(j, [Arrive(true)] + ENTRY + [CheckFlag, Claim, NotifyRetry]);
      var steps := late + first + Acts(i, [Claim]);
      var g' := s.g.(phase := DRAINING, claims := s.g.claims + 1, retry := true);
      && Runs(s, steps)
      && After(s, steps) == With(With(With(s, s.g, i, RestartClaim), g', j, Absent), g', i, Absent)
  {
    var late := Acts(i, [Arrive(true)] + ENTRY + [CheckFlag]);
    var first := Acts(j, [Arrive(true)] + ENTRY + [CheckFlag, Claim, NotifyRetry]);
    var g' := s.g.(phase := DRAINING, claims := s.g.claims + 1, retry := true);
    var s1 := With(s, s.g, i, RestartClaim);
    var s2 := With(s1, g', j, Absent);
    RequestRaces(s, i);
    RequestClaims(s1, j);
    Join(s, late, first);
    LostClaimPath(g', i);
    PathRuns(s2, i, [Claim], g', Absent);
    Join(s, late + first, Acts(i, [Claim]));
  }

  /** Once the admin listener has ended, the server retries by itself. */
  lemma FailureIsRetriedAlone(s: State)
    requires s.server.Failed?
    ensures
      var steps := if s.adminEnded then [ServerStep(RetryAlone)] else [ServerStep(AdminEnds)];
      && Runs(s, steps) && After(s, steps) == s.(adminEnded := true, server := MarkLoad(false))
  {
    var step := if s.adminEnded then ServerStep(RetryAlone) else ServerStep(AdminEnds);
    Extend(s, [], step);
    assert [] + [step] == [step];
  }

  lemma SlotPath(g: Shared, id: nat)
    requires !g.shuttingDown
    ensures
      Path(g, id, RestartCheck, [CheckFlag, TakeSlot], g.(slot := true), if g.slot then Absent else Restarting(Claimed))
  {
    var h' := if g.slot then Absent else Restarting(Claimed);
    PathCons(g, id, RestartSlot, TakeSlot, g.(slot := true), h', [], g.(slot := true), h');
    PathCons(g, id, RestartCheck, CheckFlag, g, RestartSlot, [TakeSlot], g.(slot := true), h');
    assert [CheckFlag] + [TakeSlot] == [CheckFlag, TakeSlot];
  }

  /** A restart request while another one holds the slot changes nothing. */
  lemma SecondRestartIsRefused(s: State, id: nat)
    requires Inv(s) && !s.g.shuttingDown && (s.g.phase == RUNNING || s.g.phase == FAILED) && s.g.slot
    requires HandlerAt(s, id).Absent?
    ensures
      var steps := Acts(id, [Arrive(true)] + ENTRY + [CheckFlag, TakeSlot]);
      Runs(s, steps) && After(s, steps) == With(s, s.g, id, Absent)
  {
    EntryPath(s.g, id, true);
    SlotPath(s.g, id);
    PathJoin(s.g, id, Absent, [Arrive(true)] + ENTRY, s.g, RestartCheck, [CheckFlag, TakeSlot], s.g, Absent);
    PathRuns(s, id, [Arrive(true)] + ENTRY + [CheckFlag, TakeSlot], s.g, Absent);
  }

  /** A restart request up to the publication that its child is being drained. */
  lemma DrainPath(g: Shared, id: nat)
    requires !g.shuttingDown && (g.phase == RUNNING || g.phase == FAILED) && !g.slot && g.lock.None?
    ensures
      Path(g, id, Absent, [Arrive(true)] + ENTRY + [CheckFlag, TakeSlot] + Publishing(DRAINING),
           g.(slot := true, phase := DRAINING), Restarting(Published(DRAINING)))
  {
    var taken := g.(slot := true);
    var first := [Arrive(true)] + ENTRY;
    EntryPath(g, id, true);
    SlotPath(g, id);
    PathJoin(g, id, Absent, first, g, RestartCheck, [CheckFlag, TakeSlot], taken, Restarting(Claimed));
    PublishPath(taken, id, Restarting(Claimed), DRAINING);
    PathJoin(g, id, Absent, first + [CheckFlag, TakeSlot], taken, Restarting(Claimed), Publishing(DRAINING),
             g.(slot := true, phase := DRAINING), Restarting(Published(DRAINING)));
  }

  /** The same up to the publication that the child is being stopped, or that the drain failed. */
  lemma StopPath(g: Shared, id: nat, value: nat)
    requires !g.shuttingDown && (g.phase == RUNNING || g.phase == FAILED) && !g.slot && g.lock.None?
    requires value == STOPPING || value == FAILED
    ensures
      Path(g, id, Absent, [Arrive(true)] + ENTRY + [CheckFlag, TakeSlot] + Publishing(DRAINING) + Publishing(value),
           g.(slot := true, phase := value, failures := if value == FAILED then g.failures + 1 else g.failures),
           Restarting(Published(value)))
  {
    var first := [Arrive(true)] + ENTRY + [CheckFlag, TakeSlot] + Publishing(DRAINING);
    var drained := g.(slot := true, phase := DRAINING);
    var g' := g.(slot := true, phase := value, failures := if value == FAILED then g.failures + 1 else g.failures);
    DrainPath(g, id);
    PublishPath(drained, id, Restarting(Published(DRAINING)), value);
    PathJoin(g, id, Absent, first, drained, Restarting(Published(DRAINING)), Publishing(value), g', Restarting(Published(value)));
  }

  lemma AcceptEnds(s: State, g: Shared, id: nat, task: nat)
    requires TaskAt(s, task).NoTask?
    ensures
      var held := With(s, g, id, Restarting(Published(STOPPING)));
      && Enabled(held, HandlerStep(id, Accept(task)))
      && Apply(held, HandlerStep(id, Accept(task))) == With(s, g, id, Absent).(tasks := s.tasks[task := TaskWantLock])
  {
    assert s.handlers[id := Restarting(Published(STOPPING))][id := Absent] == s.handlers[id := Absent];
  }

  /** An accepted restart: the phases draining and stopping are published in turn, the slot stays
      taken, and a task is left behind that will ask the server to restart. */
  lemma RestartIsAccepted(s: State, id: nat, task: nat)
    requires Inv(s) && !s.g.shuttingDown && (s.g.phase == RUNNING || s.g.phase == FAILED) && !s.g.slot && s.g.lock.None?
    requires HandlerAt(s, id).Absent? && TaskAt(s, task).NoTask?
    ensures
      var acts := [Arrive(true)] + ENTRY + [CheckFlag, TakeSlot] + Publishing(DRAINING) + Publishing(STOPPING);
      var steps := Acts(id, acts) + [HandlerStep(id, Accept(task))];
      && Runs(s, steps)
      && After(s, steps) ==
           With(s, s.g.(slot := true, phase := STOPPING), id, Absent).(tasks := s.tasks[task := TaskWantLock])
  {
    var acts := [Arrive(true)] + ENTRY + [CheckFlag, TakeSlot] + Publishing(DRAINING) + Publishing(STOPPING);
    var stopped := s.g.(slot := true, phase := STOPPING);
    StopPath(s.g, id, STOPPING);
    PathRuns(s, id, acts, stopped, Restarting(Published(STOPPING)));
    AcceptEnds(s, stopped, id, task);
    Extend(s, Acts(id, acts), HandlerStep(id, Accept(task)));
  }

  /** A restart whose drain fails: the failure is published and counted, and the slot is free again,
      so that the next request can try. */
  lemma RestartGivesUp(s: State, id: nat)
    requires Inv(s) && !s.g.shuttingDown && (s.g.phase == RUNNING || s.g.phase == FAILED) && !s.g.slot && s.g.lock.None?
    requires HandlerAt(s, id).Absent?
    ensures
      var acts := [Arrive(true)] + ENTRY + [CheckFlag, TakeSlot] + Publishing(DRAINING) + Publishing(FAILED) + [GiveUp];
      && Runs(s, Acts(id, acts))
      && After(s, Acts(id, acts)) == With(s, s.g.(phase := FAILED, failures := s.g.failures + 1), id, Absent)
  {
    var first := [Arrive(true)] + ENTRY + [CheckFlag, TakeSlot] + Publishing(DRAINING) + Publishing(FAILED);
    var failed := s.g.(slot := true, phase := FAILED, failures := s.g.failures + 1);
    var g' := s.g.(phase := FAILED, failures := s.g.failures + 1);
    StopPath(s.g, id, FAILED);
    PathCons(failed, id, Restarting(Published(FAILED)), GiveUp, g', Absent, [], g', Absent);
    assert [GiveUp] + [] == [GiveUp];
    PathJoin(s.g, id, Absent, first, failed, Restarting(Published(FAILED)), [GiveUp], g', Absent);
    PathRuns(s, id, first + [GiveUp], g', Absent);
  }

  // ---------- the server on its own ----------

  /** Moves of the server alone lead from `s` to `s'`. */
  predicate Leads(s: State, moves: seq<ServerAct>, s': State)
    decreases |moves|
  {
    if moves == [] then s' == s else ServerCan(s, moves[0]) && Leads(ServerNext(s, moves[0]), moves[1..], s')
  }

  function Moves(moves: seq<ServerAct>): seq<Step> {
    seq(|moves|, k requires 0 <= k < |moves| => ServerStep(moves[k]))
  }

  lemma {:induction false} LeadsRuns(s: State, moves: seq<ServerAct>, s': State)
    requires Leads(s, moves, s')
    ensures Runs(s, Moves(moves)) && After(s, Moves(moves)) == s'
    decreases |moves|
  {
    if moves != [] {
      LeadsRuns(ServerNext(s, moves[0]), moves[1..], s');
      assert Moves(moves)[1..] == Moves(moves[1..]);
    }
  }

  lemma LeadsCons(s: State, act: ServerAct, s1: State, rest: seq<ServerAct>, s': State)
    requires ServerCan(s, act) && ServerNext(s, act) == s1 && Leads(s1, rest, s')
    ensures Leads(s, [act] + rest, s')
  {
    assert ([act] + rest)[1..] == rest;
  }

  const GO := Continue(true)

  /** `n` accesses of the server, then `rest`. */
  function Go(n: nat, rest: seq<ServerAct>): seq<ServerAct> {
    seq(n, _ => GO) + rest
  }

  predicate Goes(s: State, s1: State) {
    ServerCan(s, GO) && ServerNext(s, GO) == s1
  }

  /** After `n` accesses of the server and the moves `rest` it is in `s'`. */
  predicate GoesOn(s: State, n: nat, rest: seq<ServerAct>, s': State) {
    Leads(s, Go(n, rest), s')
  }

  lemma LeadsGo(s: State, s1: State, n: nat, rest: seq<ServerAct>, s': State)
    requires Goes(s, s1) && GoesOn(s1, n, rest, s')
    ensures GoesOn(s, n + 1, rest, s')
  {
    assert [GO] + Go(n, rest) == Go(n + 1, rest);
    LeadsCons(s, GO, s1, Go(n, rest), s');
  }

  /** The end of an attempt: the failure is published after a cleanup that failed. */
  function Ending(ok: bool): seq<ServerAct> {
    if ok then [CleanupEnds(true)] else [CleanupEnds(false), GO]
  }

  function Ended(s: State, ok: bool): State {
    if ok then s.(server := Finished)
    else s.(g := s.g.(phase := FAILED, failures := s.g.failures + 1), server := Failed)
  }

  lemma CleanupEnd(s: State, ok: bool)
    requires s.server.Cleaning?
    ensures Leads(s, Ending(ok), Ended(s, ok))
  {
    if ok {
      LeadsCons(s, CleanupEnds(true), Ended(s, true), [], Ended(s, true));
    } else {
      var failed := s.(server := CleanupFailed);
      LeadsCons(failed, GO, Ended(s, false), [], Ended(s, false));
      LeadsCons(s, CleanupEnds(false), failed, [GO], Ended(s, false));
      assert [CleanupEnds(false)] + [GO] == Ending(false);
    }
  }

  /** No job and no recovery runs, and no handler holds the gate. */
  predicate Quiet(s: State) {
    s.g.jobs == {} && !s.g.recovery && forall id | id in s.handlers :: !s.handlers[id].HoldsGate()
  }

  lemma AttemptFromReady(s: State, ok: bool)
    requires s.server.Ready?
    ensures GoesOn(s, 1, Ending(ok), Ended(s.(g := s.g.(phase := STOPPING), server := Cleaning), ok))
  {
    var cleaning := s.(g := s.g.(phase := STOPPING), server := Cleaning);
    CleanupEnd(cleaning, ok);
    assert Go(0, Ending(ok)) == Ending(ok);
    LeadsGo(s, cleaning, 0, Ending(ok), Ended(cleaning, ok));
  }

  lemma AttemptFromJobs(s: State, ok: bool)
    requires s.server.AwaitJobs? && s.g.jobs == {} && !s.g.recovery
    ensures GoesOn(s, 3, Ending(ok), Ended(s.(g := s.g.(phase := STOPPING), server := Cleaning), ok))
  {
    var quiet, ready := s.(server := AdminQuiet), s.(server := Ready);
    var s', end := Ended(s.(g := s.g.(phase := STOPPING), server := Cleaning), ok), Ending(ok);
    AttemptFromReady(ready, ok);
    LeadsGo(quiet, ready, 1, end, s');
    LeadsGo(s, quiet, 2, end, s');
  }

  /** One attempt in a quiet system: the gate is taken, the child is stopped under its phase, and
      the cleanup ends. */
  lemma AttemptFromGate(s: State, ok: bool)
    requires s.server.AwaitGate? && Quiet(s)
    ensures
      GoesOn(s, 5, Ending(ok),
             Ended(s.(g := s.g.(phase := STOPPING), gatePassed := true, server := Cleaning), ok))
  {
    var held := s.(gatePassed := true, server := GateHeld);
    var waiting := held.(server := AwaitJobs);
    var s' := Ended(s.(g := s.g.(phase := STOPPING), gatePassed := true, server := Cleaning), ok);
    AttemptFromJobs(waiting, ok);
    LeadsGo(held, waiting, 3, Ending(ok), s');
    LeadsGo(s, held, 4, Ending(ok), s');
  }

  /** The compare-exchange loop without a spurious failure. */
  lemma MarkGoes(s: State, locked: bool, phase: nat)
    requires s.server == Mark(s.g.phase, locked) && s.g.phase <= FAILED
    requires phase == if s.g.phase == STOPPING then STOPPING else DRAINING
    ensures Goes(s, s.(g := s.g.(phase := phase), server := if locked then ShutUnlock else AwaitGate))
  {
  }

  lemma LoadGoes(s: State, locked: bool)
    requires s.server == MarkLoad(locked)
    ensures Goes(s, s.(server := Mark(s.g.phase, locked)))
  {
  }

  lemma RetryGoes(s: State, ok: bool)
    requires s.server == MarkLoad(false) && (s.g.phase == DRAINING || s.g.phase == FAILED) && Quiet(s)
    ensures
      GoesOn(s, 7, Ending(ok), Ended(s.(g := s.g.(phase := STOPPING), gatePassed := true, server := Cleaning), ok))
  {
    var marked := s.(server := Mark(s.g.phase, false));
    var gate := s.(g := s.g.(phase := DRAINING), server := AwaitGate);
    var s' := Ended(s.(g := s.g.(phase := STOPPING), gatePassed := true, server := Cleaning), ok);
    AttemptFromGate(gate, ok);
    MarkGoes(marked, false, DRAINING);
    LeadsGo(marked, gate, 5, Ending(ok), s');
    LoadGoes(s, false);
    LeadsGo(s, marked, 6, Ending(ok), s');
  }

  /** A retried attempt: the published failure, claimed or not, is over as the attempt begins, and
      the cleanup ends the shutdown or publishes its own failure. */
  lemma RetriedAttempt(s: State, ok: bool)
    requires s.server == MarkLoad(false) && (s.g.phase == DRAINING || s.g.phase == FAILED) && Quiet(s)
    ensures
      && Runs(s, Moves(Go(7, Ending(ok))))
      && After(s, Moves(Go(7, Ending(ok)))) ==
           if ok then s.(g := s.g.(phase := STOPPING), gatePassed := true, server := Finished)
           else s.(g := s.g.(phase := FAILED, failures := s.g.failures + 1), gatePassed := true, server := Failed)
  {
    RetryGoes(s, ok);
    LeadsRuns(s, Go(7, Ending(ok)), Ended(s.(g := s.g.(phase := STOPPING), gatePassed := true, server := Cleaning), ok));
  }

  /** The requests and moves of a retry that succeeds. */
  function RetrySteps(id: nat): seq<Step> {
    Acts(id, [Arrive(true)] + ENTRY + [CheckFlag, Claim, NotifyRetry]) + [ServerStep(WakeForRetry)]
  }

  /** From a published failure in a quiet system, one restart request and a cleanup that succeeds
      finish the shutdown. */
  lemma RetryCanFinish(s: State, id: nat)
    requires Inv(s) && s.server.Failed? && s.g.phase == FAILED && !s.adminEnded && Quiet(s) && HandlerAt(s, id).Absent?
    ensures
      var steps := RetrySteps(id) + Moves(Go(7, Ending(true)));
      && Runs(s, steps)
      && After(s, steps) ==
           With(s, s.g.(phase := STOPPING, claims := s.g.claims + 1, retry := false), id, Absent)
             .(gatePassed := true, server := Finished)
  {
    FailureCanBeRetried(s, id);
    var s1 := After(s, RetrySteps(id));
    RetriedAttempt(s1, true);
    Join(s, RetrySteps(id), Moves(Go(7, Ending(true))));
  }

  lemma ShutdownMarks(s: State, phase: nat, rest: seq<ServerAct>, s': State)
    requires s.server == MarkLoad(true) && s.g.phase <= FAILED
    requires phase == if s.g.phase == STOPPING then STOPPING else DRAINING
    requires GoesOn(s.(g := s.g.(phase := phase), server := ShutUnlock), 7, rest, s')
    ensures GoesOn(s, 9, rest, s')
  {
    var seen := s.(server := Mark(s.g.phase, true));
    MarkGoes(seen, true, phase);
    LeadsGo(seen, s.(g := s.g.(phase := phase), server := ShutUnlock), 7, rest, s');
    LoadGoes(s, true);
    LeadsGo(s, seen, 8, rest, s');
  }

  lemma ShutdownStarts(s: State, rest: seq<ServerAct>, s': State)
    requires s.server.Listening? && s.g.lock.None?
    requires GoesOn(s.(g := s.g.(lock := Some(ByServer), shuttingDown := true), server := MarkLoad(true)), 9, rest, s')
    ensures GoesOn(s, 11, rest, s')
  {
    var held := s.(g := s.g.(lock := Some(ByServer)), server := ShutLocked);
    var flagged := s.(g := held.g.(shuttingDown := true), server := MarkLoad(true));
    LeadsGo(held, flagged, 9, rest, s');
    LeadsGo(s, held, 10, rest, s');
  }

  lemma ShutdownUnlocks(s: State, rest: seq<ServerAct>, s': State)
    requires s.server.ShutUnlock?
    requires GoesOn(s.(g := s.g.(lock := None), detector := false, server := AwaitGate), 5, rest, s')
    ensures GoesOn(s, 7, rest, s')
  {
    var free := s.(g := s.g.(lock := None), server := Quiescing);
    LeadsGo(free, free.(detector := false, server := AwaitGate), 5, rest, s');
    LeadsGo(s, free, 6, rest, s');
  }

  lemma ShutdownGoes(s: State, ok: bool)
    requires s.server.Listening? && s.g.lock.None? && s.g.phase <= FAILED && Quiet(s)
    ensures
      GoesOn(s, 11, Ending(ok),
             Ended(s.(g := s.g.(shuttingDown := true, phase := STOPPING), detector := false, gatePassed := true,
               server := Cleaning), ok))
  {
    var phase := if s.g.phase == STOPPING then STOPPING else DRAINING;
    var gate := s.(g := s.g.(shuttingDown := true, phase := phase), detector := false, server := AwaitGate);
    var s' := Ended(s.(g := s.g.(shuttingDown := true, phase := STOPPING), detector := false, gatePassed := true,
               server := Cleaning), ok);
    AttemptFromGate(gate, ok);
    var flagged := s.(g := s.g.(lock := Some(ByServer), shuttingDown := true), server := MarkLoad(true));
    ShutdownUnlocks(flagged.(g := flagged.g.(phase := phase), server := ShutUnlock), Ending(ok), s');
    ShutdownMarks(flagged, phase, Ending(ok), s');
    ShutdownStarts(s, Ending(ok), s');
  }

  /** A quiet server can be shut down: the flag is set and draining is published over running or
      failed, under the lock; then the attempt goes the whole way to the end of the admin listener,
      or to the published failure that a retry can claim. */
  lemma ShutdownCanFinish(s: State, ok: bool)
    requires s.server.Listening? && s.g.lock.None? && s.g.phase <= FAILED && Quiet(s)
    ensures
      && Runs(s, Moves(Go(11, Ending(ok))))
      && After(s, Moves(Go(11, Ending(ok)))) ==
           if ok then s.(g := s.g.(shuttingDown := true, phase := STOPPING),
                         detector := false, gatePassed := true, server := Finished)
           else s.(g := s.g.(shuttingDown := true, phase := FAILED, failures := s.g.failures + 1),
                   detector := false, gatePassed := true, server := Failed)
  {
    ShutdownGoes(s, ok);
    LeadsRuns(s, Go(11, Ending(ok)),
              Ended(s.(g := s.g.(shuttingDown := true, phase := STOPPING), detector := false, gatePassed := true,
               server := Cleaning), ok));
  }

  /** Claims can fall short of failures: a restart gave up before the shutdown, and the shutdown's
      drain replaced its failure unclaimed. */
  lemma FailureCanBeReplaced(s: State, id: nat)
    requires Inv(s) && s.server.Listening? && s.g.phase == RUNNING && !s.g.slot && s.g.lock.None? && Quiet(s)
    requires HandlerAt(s, id).Absent?
    ensures
      var acts := [Arrive(true)] + ENTRY + [CheckFlag, TakeSlot] + Publishing(DRAINING) + Publishing(FAILED) + [GiveUp];
      var steps := Acts(id, acts) + Moves(Go(11, Ending(true)));
      && Runs(s, steps)
      && After(s, steps).g.failures == s.g.failures + 1 && After(s, steps).g.claims == s.g.claims
      && After(s, steps).g.phase == STOPPING
  {
    var acts := [Arrive(true)] + ENTRY + [CheckFlag, TakeSlot] + Publishing(DRAINING) + Publishing(FAILED) + [GiveUp];
    RestartGivesUp(s, id);
    ShutdownCanFinish(After(s, Acts(id, acts)), true);
    Join(s, Acts(id, acts), Moves(Go(11, Ending(true))));
  }

  // ---------- the delayed restart task ----------

  /** `s` after steps of task `id` alone. */
  function WithTask(s: State, g: Shared, id: nat, t: Task): State {
    s.(g := g, tasks := s.tasks[id := t])
  }

  /** From `(g, t)` the task ends in `g'` after `n` accesses. */
  predicate TaskEnds(g: Shared, id: nat, t: Task, n: nat, g': Shared)
    decreases n
  {
    if n == 0 then t.NoTask? && g' == g
    else
      && TaskCan(g, t)
      && var (g1, t1) := TaskNext(g, id, t, true);
      TaskEnds(g1, id, t1, n - 1, g')
  }

  function Accesses(id: nat, n: nat): seq<Step> {
    seq(n, _ => TaskStep(id, true))
  }

  lemma {:induction false} TaskRuns(s: State, id: nat, n: nat, g': Shared)
    requires n > 0 && TaskEnds(s.g, id, TaskAt(s, id), n, g')
    ensures Runs(s, Accesses(id, n)) && After(s, Accesses(id, n)) == WithTask(s, g', id, NoTask)
    decreases n
  {
    var (g1, t1) := TaskNext(s.g, id, TaskAt(s, id), true);
    var s1 := WithTask(s, g1, id, t1);
    assert Apply(s, TaskStep(id, true)) == s1;
    assert Accesses(id, n)[1..] == Accesses(id, n - 1);
    if n > 1 {
      TaskRuns(s1, id, n - 1, g');
      assert s.tasks[id := t1][id := NoTask] == s.tasks[id := NoTask];
    }
  }

  lemma ClaimingTask(g: Shared, id: nat)
    requires g.shuttingDown && g.lock == Some(ByTask(id))
    ensures g.phase == FAILED ==>
      TaskEnds(g, id, TaskLocked, 4, g.(lock := None, phase := DRAINING, claims := g.claims + 1, retry := true))
    ensures g.phase != FAILED ==> TaskEnds(g, id, TaskLocked, 3, g.(lock := None))
  {
    if g.phase == FAILED {
      var claimed := g.(phase := DRAINING, claims := g.claims + 1);
      assert TaskEnds(claimed, id, TaskNotify, 2, claimed.(lock := None, retry := true));
    } else {
      assert TaskEnds(g, id, TaskUnlock, 1, g.(lock := None));
    }
  }

  lemma MarkingTask(g: Shared, id: nat)
    requires !g.shuttingDown && g.lock == Some(ByTask(id))
    ensures
      TaskEnds(g, id, TaskLocked, 4,
               g.(lock := None, phase := if g.phase == RUNNING || g.phase == FAILED then DRAINING else g.phase))
  {
    var g' := g.(phase := if g.phase == RUNNING || g.phase == FAILED then DRAINING else g.phase);
    assert TaskEnds(g, id, TaskMark(g.phase), 2, g'.(lock := None));
  }

  /** The task that an accepted restart left behind: before a shutdown it publishes draining over
      running or failed; during one it claims a published failure and wakes the server. Either way
      it returns the lock and is gone. */
  lemma DelayedRestartRuns(s: State, id: nat)
    requires TaskAt(s, id).TaskWantLock? && s.g.lock.None?
    ensures
      var claims := s.g.shuttingDown && s.g.phase == FAILED;
      var steps := Accesses(id, if claims || !s.g.shuttingDown then 5 else 4);
      && Runs(s, steps)
      && After(s, steps) ==
           WithTask(s,
             if claims then s.g.(phase := DRAINING, claims := s.g.claims + 1, retry := true)
             else if !s.g.shuttingDown && (s.g.phase == RUNNING || s.g.phase == FAILED) then s.g.(phase := DRAINING)
             else s.g,
             id, NoTask)
  {
    var held := s.g.(lock := Some(ByTask(id)));
    if !s.g.shuttingDown {
      MarkingTask(held, id);
      TaskRuns(s, id, 5, s.g.(phase := if s.g.phase == RUNNING || s.g.phase == FAILED then DRAINING else s.g.phase));
    } else {
      ClaimingTask(held, id);
      if s.g.phase == FAILED {
        TaskRuns(s, id, 5, s.g.(phase := DRAINING, claims := s.g.claims + 1, retry := true));
      } else {
        TaskRuns(s, id, 4, s.g);
      }
    }
  }
}
