/** Every interleaving of the gate's users: requests that acquire and drop permits, tasks that wait
    for zero in flight or drain, and the runtime that serves, blocks and closes. One step is one
    critical section, one notification or one wake-up. */
module AdmissionProtocol {
  import opened Wrappers
  import opened AdmissionGate

  /** A task inside `wait_for_zero`; `drain` is the generation when it runs inside `drain`.
      `epoch` counts notifications: a `Notified` future sees every one sent after its creation. */
  datatype Waiter =
    | Looping(drain: Option<nat>)
    | Armed(epoch: nat, drain: Option<nat>)
    | Parked(epoch: nat, drain: Option<nat>)
    | SawZero(drain: Option<nat>)

  datatype State = State(
    gate: Inner,
    live: set<nat>,             // permits not yet dropped
    owing: set<nat>,            // dropped permits that brought the count to zero and have not notified
    waiters: map<nat, Waiter>,
    epoch: nat)

  datatype Step =
    | StartServing
    | Block
    | Close
    | ResetBlockedGeneration
    | Acquire(permit: nat, upstreamReady: bool)
    | AcquireRecovery(permit: nat, upstreamReady: bool)
    | Drop(permit: nat)
    | Notify(permit: nat)
    | BeginDrain(generation: nat)
    | EnterWait(task: nat)
    | EnterDrain(task: nat, generation: nat)
    | Arm(task: nat)
    | Check(task: nat)
    | Wake(task: nat)
    | TimeOut(task: nat)
    | Return(task: nat)

  predicate Fresh(s: State, permit: nat) {
    permit !in s.live && permit !in s.owing
  }

  predicate Enabled(s: State, step: Step) {
    match step
    case Acquire(permit, _) => Fresh(s, permit)
    case AcquireRecovery(permit, _) => Fresh(s, permit)
    case Drop(permit) => permit in s.live
    case Notify(permit) => permit in s.owing
    case EnterWait(task) => task !in s.waiters
    case EnterDrain(task, _) => task !in s.waiters
    case Arm(task) => task in s.waiters && s.waiters[task].Looping?
    case Check(task) => task in s.waiters && s.waiters[task].Armed?
    case Wake(task) => task in s.waiters && s.waiters[task].Parked? && s.waiters[task].epoch < s.epoch
    case TimeOut(task) => task in s.waiters && !s.waiters[task].SawZero?
    case Return(task) => task in s.waiters && s.waiters[task].SawZero?
    case _ => true
  }

  /** Whether the step hands out a permit. */
  predicate Grants(s: State, step: Step) {
    && (step.Acquire? || step.AcquireRecovery?)
    && !s.gate.closed && step.upstreamReady && s.gate.inFlight < s.gate.maxInFlight
    && (step.Acquire? ==> s.gate.state == Serving)
  }

  /** Whether the step is a drain that returns successfully. */
  predicate DrainSucceeds(s: State, step: Step)
    requires Enabled(s, step)
  {
    && step.Return?
    && s.waiters[step.task].drain.Some?
    && s.gate.drainGeneration == s.waiters[step.task].drain
  }

  function Apply(s: State, step: Step): State
    requires Enabled(s, step) && (step.Drop? ==> s.gate.inFlight > 0)
  {
    match step
    case StartServing => s.(gate := s.gate.StartServing())
    case Block => s.(gate := s.gate.Block())
    case Close => s.(gate := s.gate.Close())
    case ResetBlockedGeneration => s.(gate := s.gate.ResetBlockedGeneration())
    case Acquire(permit, _) =>
      if Grants(s, step) then s.(gate := s.gate.Admit(), live := s.live + {permit}) else s
    case AcquireRecovery(permit, _) =>
      if Grants(s, step) then s.(gate := s.gate.Admit(), live := s.live + {permit}) else s
    case Drop(permit) =>
      var gate := s.gate.Release();
      s.(gate := gate, live := s.live - {permit}, owing := if gate.inFlight == 0 then s.owing + {permit} else s.owing)
    case Notify(permit) => s.(owing := s.owing - {permit}, epoch := s.epoch + 1)
    case BeginDrain(generation) => s.(gate := s.gate.BeginDrain(generation))
    case EnterWait(task) => s.(waiters := s.waiters[task := Looping(None)])
    case EnterDrain(task, generation) =>
      if s.gate.DrainAllowed(generation)
      then s.(gate := s.gate.BeginDrain(generation), waiters := s.waiters[task := Looping(Some(generation))])
      else s
    case Arm(task) => s.(waiters := s.waiters[task := Armed(s.epoch, s.waiters[task].drain)])
    case Check(task) =>
      var w := s.waiters[task];
      s.(waiters := s.waiters[task := if s.gate.inFlight == 0 then SawZero(w.drain) else Parked(w.epoch, w.drain)])
    case Wake(task) => s.(waiters := s.waiters[task := Looping(s.waiters[task].drain)])
    case TimeOut(task) => s.(waiters := s.waiters - {task})
    case Return(task) =>
      s.(waiters := s.waiters - {task}, gate := if DrainSucceeds(s, step) then s.gate.Block() else s.gate)
  }

  function Initial(maxInFlight: nat): State {
    State(Inner(Blocked, false, 0, maxInFlight, None), {}, {}, map[], 0)
  }

  // ---------- invariant ----------

  /** A parked task that nothing has notified since its future was created. */
  predicate Unnotified(s: State, task: nat) {
    task in s.waiters && s.waiters[task].Parked? && s.waiters[task].epoch >= s.epoch
  }

  /** The counter counts the live permits. */
  ghost predicate CountInv(s: State) {
    s.gate.Sound() && s.gate.inFlight == |s.live| && s.live !! s.owing
  }

  /** A parked, un-notified task has something to wait for. */
  ghost predicate WakeInv(s: State) {
    && (forall t | t in s.waiters && (s.waiters[t].Armed? || s.waiters[t].Parked?) :: s.waiters[t].epoch <= s.epoch)
    && (forall t | t in s.waiters && Unnotified(s, t) :: s.gate.inFlight > 0 || s.owing != {})
  }

  ghost predicate Inv(s: State) {
    CountInv(s) && WakeInv(s)
  }

  lemma CardinalityPositive(s: set<nat>, x: nat)
    requires x in s
    ensures |s| > 0
  {
    assert s != {};
  }

  lemma StepKeepsCount(s: State, step: Step)
    requires CountInv(s) && Enabled(s, step)
    ensures step.Drop? ==> s.gate.inFlight > 0
    ensures CountInv(Apply(s, step))
  {
    if step.Drop? {
      CardinalityPositive(s.live, step.permit);
    }
  }

  lemma StepKeepsWakeups(s: State, step: Step)
    requires WakeInv(s) && Enabled(s, step) && (step.Drop? ==> s.gate.inFlight > 0)
    ensures WakeInv(Apply(s, step))
  {
    var s' := Apply(s, step);
    forall t | t in s'.waiters && Unnotified(s', t) ensures s'.gate.inFlight > 0 || s'.owing != {} {
      if step.Drop? && s'.gate.inFlight == 0 {
        assert step.permit in s'.owing;
      } else if !(step.Check? && step.task == t) {
        assert Unnotified(s, t);
      }
    }
  }

  lemma StepKeepsInv(s: State, step: Step)
    requires Inv(s) && Enabled(s, step)
    ensures step.Drop? ==> s.gate.inFlight > 0
    ensures Inv(Apply(s, step))
  {
    StepKeepsCount(s, step);
    StepKeepsWakeups(s, step);
  }

  // ---------- runs ----------

  ghost predicate Runs(s: State, steps: seq<Step>)
    requires Inv(s)
    decreases |steps|
  {
    steps == [] ||
    (&& Enabled(s, steps[0])
     && (StepKeepsInv(s, steps[0]); Runs(Apply(s, steps[0]), steps[1..])))
  }

  ghost function After(s: State, steps: seq<Step>): (r: State)
    requires Inv(s) && Runs(s, steps)
    ensures Inv(r)
    decreases |steps|
  {
    if steps == [] then s
    else
      StepKeepsInv(s, steps[0]);
      After(Apply(s, steps[0]), steps[1..])
  }

  lemma RunCons(s: State, step: Step, rest: seq<Step>)
    requires Inv(s) && Enabled(s, step)
    requires (StepKeepsInv(s, step); Runs(Apply(s, step), rest))
    ensures Runs(s, [step] + rest)
    ensures (StepKeepsInv(s, step); After(s, [step] + rest) == After(Apply(s, step), rest))
  {
    assert ([step] + rest)[1..] == rest;
  }

  lemma InitialInv(maxInFlight: nat)
    requires maxInFlight > 0
    ensures Inv(Initial(maxInFlight))
  {
  }

  /** Over every interleaving the counter is the number of live permits and within its maximum. */
  lemma CounterIsExact(maxInFlight: nat, steps: seq<Step>)
    requires maxInFlight > 0 && Runs(Initial(maxInFlight), steps)
    ensures
      var s := After(Initial(maxInFlight), steps);
      s.gate.inFlight == |s.live| <= maxInFlight
  {
    MaximumIsConstant(Initial(maxInFlight), steps);
  }

  lemma {:induction false} MaximumIsConstant(s: State, steps: seq<Step>)
    requires Inv(s) && Runs(s, steps)
    ensures After(s, steps).gate.maxInFlight == s.gate.maxInFlight
    decreases |steps|
  {
    if steps != [] {
      StepKeepsInv(s, steps[0]);
      MaximumIsConstant(Apply(s, steps[0]), steps[1..]);
    }
  }

  /** No lost wake-up: in every reachable state a parked task that was not notified has a permit or
      a notification still to come. */
  lemma NoLostWakeup(maxInFlight: nat, steps: seq<Step>, task: nat)
    requires maxInFlight > 0 && Runs(Initial(maxInFlight), steps)
    requires Unnotified(After(Initial(maxInFlight), steps), task)
    ensures
      var s := After(Initial(maxInFlight), steps);
      s.live != {} || s.owing != {}
  {
    assert After(Initial(maxInFlight), steps).gate.inFlight > 0 || After(Initial(maxInFlight), steps).owing != {};
  }

  /** So once every permit is dropped and notified, each parked task reaches the end of its wait by
      its own three steps. */
  lemma QuietGateReleasesWaiters(s: State, task: nat)
    requires Inv(s) && s.live == {} && s.owing == {}
    requires task in s.waiters && s.waiters[task].Parked?
    ensures Runs(s, [Wake(task), Arm(task), Check(task)])
    ensures After(s, [Wake(task), Arm(task), Check(task)]) == s.(waiters := s.waiters[task := SawZero(s.waiters[task].drain)])
  {
    assert !Unnotified(s, task);
    var s1 := Apply(s, Wake(task));
    var s2 := Apply(s1, Arm(task));
    var s3 := Apply(s2, Check(task));
    StepKeepsInv(s, Wake(task));
    StepKeepsInv(s1, Arm(task));
    StepKeepsInv(s2, Check(task));
    RunOfThree(s, Wake(task), s1, Arm(task), s2, Check(task), s3);
    assert s3.waiters == s.waiters[task := SawZero(s.waiters[task].drain)];
  }

  lemma RunOfThree(s: State, a: Step, s1: State, b: Step, s2: State, c: Step, s3: State)
    requires Inv(s) && Enabled(s, a) && (a.Drop? ==> s.gate.inFlight > 0) && Apply(s, a) == s1
    requires Inv(s1) && Enabled(s1, b) && (b.Drop? ==> s1.gate.inFlight > 0) && Apply(s1, b) == s2
    requires Inv(s2) && Enabled(s2, c) && (c.Drop? ==> s2.gate.inFlight > 0) && Apply(s2, c) == s3 && Inv(s3)
    ensures Runs(s, [a, b, c]) && After(s, [a, b, c]) == s3
  {
    RunCons(s2, c, []);
    RunCons(s1, b, [c]);
    RunCons(s, a, [b, c]);
    assert [c] + [] == [c] && [b] + [c] == [b, c] && [a] + [b, c] == [a, b, c];
  }

  /** A notification between the creation of the future and the check still wakes the waiter. */
  lemma EarlyNotificationWakes(s: State, task: nat, permit: nat)
    requires Inv(s) && task in s.waiters && s.waiters[task].Looping? && permit in s.owing
    ensures
      var steps := [Arm(task), Notify(permit), Check(task)];
      && Runs(s, steps)
      && var s' := After(s, steps);
      && task in s'.waiters && s'.epoch == s.epoch + 1 && s'.owing == s.owing - {permit}
      && (s'.waiters[task].SawZero? || Enabled(s', Wake(task)))
  {
    var s1 := s.(waiters := s.waiters[task := Armed(s.epoch, s.waiters[task].drain)]);
    var s2 := s1.(owing := s.owing - {permit}, epoch := s.epoch + 1);
    var s3 := Apply(s2, Check(task));
    StepKeepsInv(s, Arm(task));
    StepKeepsInv(s1, Notify(permit));
    StepKeepsInv(s2, Check(task));
    RunOfThree(s, Arm(task), s1, Notify(permit), s2, Check(task), s3);
  }

  // ---------- one step, exactly ----------

  /** A public request is admitted exactly if the gate serves, is not closed, the upstream is ready
      and fewer permits are live than the maximum; the recovery does not need a serving gate. */
  lemma AcquireExactly(s: State, permit: nat, upstreamReady: bool)
    requires Inv(s) && permit !in s.live && permit !in s.owing
    ensures
      permit in Apply(s, Acquire(permit, upstreamReady)).live <==>
      s.gate.state == Serving && !s.gate.closed && upstreamReady && |s.live| < s.gate.maxInFlight
    ensures
      permit in Apply(s, AcquireRecovery(permit, upstreamReady)).live <==>
      !s.gate.closed && upstreamReady && |s.live| < s.gate.maxInFlight
    ensures forall step | step == Acquire(permit, upstreamReady) || step == AcquireRecovery(permit, upstreamReady) ::
      Apply(s, step).live - {permit} == s.live && (permit !in Apply(s, step).live ==> Apply(s, step) == s)
  {
  }

  /** A drain begins exactly if no other generation is held, and then the gate drains for it. */
  lemma BeginExactly(s: State, generation: nat)
    requires Inv(s)
    ensures
      var g := Apply(s, BeginDrain(generation)).gate;
      if s.gate.drainGeneration == None || s.gate.drainGeneration == Some(generation)
      then g.state == Draining && g.drainGeneration == Some(generation)
      else g == s.gate
  {
  }

  /** A reset, or a start of a gate that is not closed, lets any generation begin. */
  lemma RetiringFreesGenerations(s: State, step: Step, generation: nat)
    requires Inv(s) && (step.ResetBlockedGeneration? || (step.StartServing? && !s.gate.closed))
    ensures
      var s1 := Apply(s, step);
      var g := Apply(s1, BeginDrain(generation)).gate;
      g.state == Draining && g.drainGeneration == Some(generation)
  {
  }

  /** A drain that times out leaves the gate as it is and every permit alive. */
  lemma TimeOutExactly(s: State, task: nat)
    requires Inv(s) && task in s.waiters && !s.waiters[task].SawZero?
    ensures Enabled(s, TimeOut(task))
    ensures
      var s' := Apply(s, TimeOut(task));
      s'.gate == s.gate && s'.live == s.live && task !in s'.waiters
  {
  }

  // ---------- closing ----------

  lemma ClosedStep(s: State, step: Step)
    requires Inv(s) && s.gate.closed && Enabled(s, step)
    ensures Inv(Apply(s, step)) && Apply(s, step).gate.closed
  {
    StepKeepsInv(s, step);
  }

  lemma {:induction false} StaysClosed(s: State, steps: seq<Step>)
    requires Inv(s) && s.gate.closed && Runs(s, steps)
    ensures After(s, steps).gate.closed
    decreases |steps|
  {
    if steps != [] {
      ClosedStep(s, steps[0]);
      StaysClosed(Apply(s, steps[0]), steps[1..]);
    }
  }

  /** Once closed, the gate stays closed and no acquisition of either kind succeeds again. */
  lemma CloseIsFinal(s: State, steps: seq<Step>, step: Step)
    requires Inv(s) && s.gate.closed && Runs(s, steps)
    ensures After(s, steps).gate.closed && !Grants(After(s, steps), step)
  {
    StaysClosed(s, steps);
  }

  // ---------- drain generations ----------

  /** The step retires the drain generation. */
  predicate Retires(s: State, step: Step) {
    step.ResetBlockedGeneration? || (step.StartServing? && !s.gate.closed)
  }

  predicate BeginsDrain(s: State, step: Step, generation: nat) {
    (step == BeginDrain(generation) || (step.EnterDrain? && step.generation == generation)) && s.gate.DrainAllowed(generation)
  }

  ghost predicate NeverRetires(s: State, steps: seq<Step>)
    requires Inv(s) && Runs(s, steps)
    decreases |steps|
  {
    steps == [] ||
    (&& !Retires(s, steps[0])
     && (StepKeepsInv(s, steps[0]); NeverRetires(Apply(s, steps[0]), steps[1..])))
  }

  lemma {:induction false} GenerationStays(s: State, steps: seq<Step>, generation: nat)
    requires Inv(s) && Runs(s, steps) && NeverRetires(s, steps)
    requires s.gate.drainGeneration == Some(generation)
    ensures After(s, steps).gate.drainGeneration == Some(generation)
    decreases |steps|
  {
    if steps != [] {
      StepKeepsInv(s, steps[0]);
      GenerationStays(Apply(s, steps[0]), steps[1..], generation);
    }
  }

  /** Drains of two different generations both begin only with a generation reset or an effective
      `start_serving` between them. */
  lemma DrainGenerationsAreSeparated(s: State, first: Step, g1: nat, steps: seq<Step>, second: Step, g2: nat)
    requires Inv(s) && Enabled(s, first) && BeginsDrain(s, first, g1)
    requires Inv(Apply(s, first)) && Runs(Apply(s, first), steps)
    requires BeginsDrain(After(Apply(s, first), steps), second, g2) && g1 != g2
    ensures !NeverRetires(Apply(s, first), steps)
  {
    if NeverRetires(Apply(s, first), steps) {
      GenerationStays(Apply(s, first), steps, g1);
    }
  }

  // ---------- what a drain guarantees ----------

  /** Steps that may run beside a drain without disturbing it. */
  predicate LeavesDrainAlone(s: State, step: Step) {
    !(step.AcquireRecovery? && Grants(s, step)) && !(step.StartServing? && !s.gate.closed)
  }

  ghost predicate Undisturbed(s: State, steps: seq<Step>)
    requires Inv(s) && Runs(s, steps)
    decreases |steps|
  {
    steps == [] ||
    (&& LeavesDrainAlone(s, steps[0])
     && (StepKeepsInv(s, steps[0]); Undisturbed(Apply(s, steps[0]), steps[1..])))
  }

  /** The gate is not serving, and the task has seen zero only if it is still zero. */
  ghost predicate DrainHolds(s: State, task: nat) {
    && s.gate.state != Serving
    && (task in s.waiters && s.waiters[task].SawZero? ==> s.gate.inFlight == 0)
  }

  lemma DrainStep(s: State, step: Step, task: nat)
    requires Inv(s) && Enabled(s, step) && LeavesDrainAlone(s, step) && DrainHolds(s, task)
    requires step.Drop? ==> s.gate.inFlight > 0
    ensures DrainHolds(Apply(s, step), task) && Apply(s, step).gate.inFlight <= s.gate.inFlight
  {
  }

  lemma {:induction false} DrainKeeps(s: State, steps: seq<Step>, task: nat)
    requires Inv(s) && Runs(s, steps) && Undisturbed(s, steps) && DrainHolds(s, task)
    ensures DrainHolds(After(s, steps), task) && After(s, steps).gate.inFlight <= s.gate.inFlight
    decreases |steps|
  {
    if steps != [] {
      StepKeepsInv(s, steps[0]);
      DrainStep(s, steps[0], task);
      DrainKeeps(Apply(s, steps[0]), steps[1..], task);
    }
  }

  /** From any begin of a drain, with no effective `start_serving` and no granted recovery
      acquisition after it, the number in flight never rises, and a drain whose zero check comes
      after the begin leaves the gate blocked with nothing in flight if it succeeds. */
  lemma DrainEmptiesGate(s: State, first: Step, generation: nat, steps: seq<Step>, task: nat)
    requires Inv(s) && Enabled(s, first) && BeginsDrain(s, first, generation)
    requires
      var s1 := Apply(s, first);
      && Inv(s1) && Runs(s1, steps) && Undisturbed(s1, steps)
      && (task in s1.waiters ==> !s1.waiters[task].SawZero?)
    ensures
      var s1 := Apply(s, first);
      var s2 := After(s1, steps);
      && s2.gate.inFlight <= s.gate.inFlight
      && (Enabled(s2, Return(task)) && DrainSucceeds(s2, Return(task)) ==>
            var s3 := Apply(s2, Return(task));
            s3.gate.state == Blocked && s3.gate.inFlight == 0 && s3.live == {})
  {
    var s1 := Apply(s, first);
    DrainKeeps(s1, steps, task);
    assert |After(s1, steps).live| == 0 ==> After(s1, steps).live == {};
  }
}
