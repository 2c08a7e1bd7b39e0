/** The one-use recovery canary permit: the only way past a gate that is not serving. Tokens are
    identifiers; a request first consumes a token, then acquires, in two critical sections. */
module RecoveryCanary {
  import opened Wrappers
  import opened AdmissionGate

  datatype CanaryPermit = CanaryPermit(recoveryId: string, token: nat, expiresAt: nat)

  predicate Accepts(slot: Option<CanaryPermit>, token: nat, now: nat) {
    slot.Some? && slot.value.recoveryId != "" && slot.value.expiresAt > now && slot.value.token == token
  }

  /** The slot after a consumption attempt: emptied by success and by expiry. */
  function Consumed(slot: Option<CanaryPermit>, token: nat, now: nat): Option<CanaryPermit> {
    if Accepts(slot, token, now) || (slot.Some? && slot.value.expiresAt <= now) then None else slot
  }

  class CanarySlot {
    var permit: Option<CanaryPermit>

    constructor ()
      ensures permit == None
    {
      permit := None;
    }

    method Issue(recoveryId: string, token: nat, now: nat, lifetime: nat)
      modifies this
      ensures permit == Some(CanaryPermit(recoveryId, token, now + lifetime))
    {
      permit := Some(CanaryPermit(recoveryId, token, now + lifetime));
    }

    method Consume(token: nat, now: nat) returns (valid: bool)
      modifies this
      ensures valid <==>
        old(permit).Some? && old(permit).value.token == token && old(permit).value.recoveryId != ""
        && now < old(permit).value.expiresAt
      ensures permit == None || permit == old(permit)
      ensures old(permit).Some? ==> (permit == None <==> valid || old(permit).value.expiresAt <= now)
    {
      valid := permit.Some? && permit.value.recoveryId != "" && permit.value.expiresAt > now && permit.value.token == token;
      if valid || (permit.Some? && permit.value.expiresAt <= now) {
        permit := None;
      }
    }
  }

  // ---------- every run ----------

  datatype State = State(
    gate: Inner,
    slot: Option<CanaryPermit>,
    issued: seq<nat>,            // tokens issued so far
    redeemed: seq<nat>,          // tokens consumed successfully so far
    cleared: set<nat>,           // requests that consumed a token and have not acquired yet
    exceptions: nat)             // permits granted while the gate was not serving

  /** The runtime's own operations on the gate. */
  datatype Move = Serve | Block | Close | Reset | Drain(generation: nat)

  datatype Step =
    | Runtime(move: Move)
    | Issue(recoveryId: string, token: nat, now: nat, lifetime: nat)
    | Consume(request: nat, token: nat, now: nat)
    | AcquireRecovery(request: nat, upstreamReady: bool)
    | AcquirePublic(upstreamReady: bool)
    | Drop

  function Moved(gate: Inner, move: Move): Inner {
    match move
    case Serve => gate.StartServing()
    case Block => gate.Block()
    case Close => gate.Close()
    case Reset => gate.ResetBlockedGeneration()
    case Drain(generation) => gate.BeginDrain(generation)
  }

  predicate Enabled(s: State, step: Step) {
    match step
    case Runtime(_) => true
    case Issue(_, token, _, _) => token !in s.issued
    case Consume(request, _, _) => request !in s.cleared
    case AcquireRecovery(request, _) => request in s.cleared
    case AcquirePublic(_) => true
    case Drop => s.gate.inFlight > 0
  }

  function Admitted(s: State, refusal: Option<AdmissionError>): State {
    if refusal.Some? then s
    else s.(gate := s.gate.Admit(), exceptions := s.exceptions + if s.gate.state == Serving then 0 else 1)
  }

  function Apply(s: State, step: Step): State
    requires Enabled(s, step)
  {
    match step
    case Runtime(move) => s.(gate := Moved(s.gate, move))
    case Issue(recoveryId, token, now, lifetime) =>
      s.(slot := Some(CanaryPermit(recoveryId, token, now + lifetime)), issued := s.issued + [token])
    case Consume(request, token, now) =>
      var s' := s.(slot := Consumed(s.slot, token, now));
      if Accepts(s.slot, token, now)
      then s'.(cleared := s.cleared + {request}, redeemed := s.redeemed + [token])
      else s'
    case AcquireRecovery(request, ready) =>
      Admitted(s.(cleared := s.cleared - {request}), s.gate.Refusal(ready))
    case AcquirePublic(ready) => Admitted(s, s.gate.PublicRefusal(ready))
    case Drop => s.(gate := s.gate.Release())
  }

  function Initial(maxInFlight: nat): State {
    State(Inner(Blocked, false, 0, maxInFlight, None), None, [], [], {}, 0)
  }

  predicate Distinct(tokens: seq<nat>) {
    forall i, j | 0 <= i < j < |tokens| :: tokens[i] != tokens[j]
  }

  ghost predicate Inv(s: State) {
    s.gate.Sound() && Accounted(s)
  }

  /** Tokens are issued and redeemed once, and every exception was redeemed before. */
  ghost predicate Accounted(s: State) {
    && Distinct(s.issued) && Distinct(s.redeemed)
    && (forall t | t in s.redeemed :: t in s.issued)
    && (s.slot.Some? ==> s.slot.value.token in s.issued && s.slot.value.token !in s.redeemed)
    && |s.redeemed| + (if s.slot.Some? then 1 else 0) <= |s.issued|
    && s.exceptions + |s.cleared| <= |s.redeemed|
  }

  lemma StepKeepsGate(s: State, step: Step)
    requires s.gate.Sound() && Enabled(s, step)
    ensures Apply(s, step).gate.Sound()
  {
  }

  lemma StepKeepsInv(s: State, step: Step)
    requires Inv(s) && Enabled(s, step)
    ensures Inv(Apply(s, step))
  {
    StepKeepsGate(s, step);
    match step
    case AcquireRecovery(request, ready) =>
      assert s.cleared == (s.cleared - {request}) + {request};
    case _ =>
  }

  predicate Runs(s: State, steps: seq<Step>)
    decreases |steps|
  {
    steps == [] || (Enabled(s, steps[0]) && Runs(Apply(s, steps[0]), steps[1..]))
  }

  function After(s: State, steps: seq<Step>): State
    requires Runs(s, steps)
    decreases |steps|
  {
    if steps == [] then s else After(Apply(s, steps[0]), steps[1..])
  }

  lemma {:induction false} RunKeepsInv(s: State, steps: seq<Step>)
    requires Inv(s) && Runs(s, steps)
    ensures Inv(After(s, steps))
    decreases |steps|
  {
    if steps != [] {
      StepKeepsInv(s, steps[0]);
      RunKeepsInv(Apply(s, steps[0]), steps[1..]);
    }
  }

  /** In every run, for any mix of wrong, expired, repeated and overwritten tokens: permits granted
      while the gate is not serving never outnumber the canary permits issued, only issued tokens
      are redeemed, and none of them twice. */
  lemma ExceptionsAreIssued(maxInFlight: nat, steps: seq<Step>)
    requires maxInFlight > 0 && Runs(Initial(maxInFlight), steps)
    ensures
      var s := After(Initial(maxInFlight), steps);
      && s.exceptions <= |s.redeemed| <= |s.issued|
      && Distinct(s.redeemed)
      && forall t | t in s.redeemed :: t in s.issued
  {
    RunKeepsInv(Initial(maxInFlight), steps);
  }

  /** A request past its token is admitted exactly if the gate is not closed, the upstream is ready
      and there is room; any other needs a serving gate as well. Admissions past a gate that does not
      serve are what is counted. */
  lemma AdmissionsAreCounted(s: State, step: Step)
    requires Enabled(s, step)
    ensures
      var s' := Apply(s, step);
      && (step.AcquireRecovery? ==>
            (s'.gate.inFlight == s.gate.inFlight + 1 <==>
             !s.gate.closed && step.upstreamReady && s.gate.inFlight < s.gate.maxInFlight))
      && (step.AcquirePublic? ==>
            (s'.gate.inFlight == s.gate.inFlight + 1 <==>
             s.gate.state == Serving && !s.gate.closed && step.upstreamReady && s.gate.inFlight < s.gate.maxInFlight))
      && s'.exceptions ==
           s.exceptions + if s'.gate.inFlight > s.gate.inFlight && s.gate.state != Serving then 1 else 0
  {
  }

  // ---------- which tokens are redeemed ----------

  function StateAt(s: State, steps: seq<Step>, i: nat): State
    requires Runs(s, steps) && i <= |steps|
    decreases i
  {
    if i == 0 then s else StateAt(Apply(s, steps[0]), steps[1..], i - 1)
  }

  lemma {:induction false} StateNext(s: State, steps: seq<Step>, i: nat)
    requires Runs(s, steps) && i < |steps|
    ensures Enabled(StateAt(s, steps, i), steps[i])
    ensures StateAt(s, steps, i + 1) == Apply(StateAt(s, steps, i), steps[i])
    decreases i
  {
    if i > 0 {
      StateNext(Apply(s, steps[0]), steps[1..], i - 1);
    }
  }

  predicate Issues(step: Step, permit: CanaryPermit) {
    step.Issue? && permit.recoveryId == step.recoveryId && permit.token == step.token
    && permit.expiresAt == step.now + step.lifetime
  }

  /** The step leaves the permit in the slot: nothing is issued over it, and no attempt comes after
      its expiry or with its token, unless it has no recovery. */
  predicate Spares(step: Step, permit: CanaryPermit) {
    && !step.Issue?
    && (step.Consume? ==>
          step.now < permit.expiresAt && (step.token == permit.token ==> permit.recoveryId == ""))
  }

  ghost predicate SparedFrom(steps: seq<Step>, j: nat, n: nat, permit: CanaryPermit)
    requires n <= |steps|
  {
    forall k | j <= k < n :: Spares(steps[k], permit)
  }

  ghost predicate IssuedAt(steps: seq<Step>, j: nat, n: nat, permit: CanaryPermit)
    requires j < n <= |steps|
  {
    Issues(steps[j], permit) && SparedFrom(steps, j + 1, n, permit)
  }

  ghost predicate HeldAt(steps: seq<Step>, n: nat, permit: CanaryPermit)
    requires n <= |steps|
  {
    exists j | 0 <= j < n :: IssuedAt(steps, j, n, permit)
  }

  lemma HeldNext(steps: seq<Step>, n: nat, permit: CanaryPermit)
    requires n < |steps|
    ensures
      HeldAt(steps, n + 1, permit) <==>
      Issues(steps[n], permit) || (HeldAt(steps, n, permit) && Spares(steps[n], permit))
  {
    if HeldAt(steps, n + 1, permit) {
      var j :| 0 <= j < n + 1 && IssuedAt(steps, j, n + 1, permit);
      if j < n { assert IssuedAt(steps, j, n, permit); }
    }
    if Issues(steps[n], permit) {
      assert IssuedAt(steps, n, n + 1, permit);
    } else if HeldAt(steps, n, permit) && Spares(steps[n], permit) {
      var j :| 0 <= j < n && IssuedAt(steps, j, n, permit);
      assert IssuedAt(steps, j, n + 1, permit);
    }
  }

  /** The slot holds a permit exactly if that was issued and spared by every step since. */
  lemma {:induction false} SlotExactly(maxInFlight: nat, steps: seq<Step>, n: nat, permit: CanaryPermit)
    requires Runs(Initial(maxInFlight), steps) && n <= |steps|
    ensures StateAt(Initial(maxInFlight), steps, n).slot == Some(permit) <==> HeldAt(steps, n, permit)
    decreases n
  {
    if n > 0 {
      StateNext(Initial(maxInFlight), steps, n - 1);
      SlotExactly(maxInFlight, steps, n - 1, permit);
      HeldNext(steps, n - 1, permit);
      SlotStep(StateAt(Initial(maxInFlight), steps, n - 1), steps[n - 1], permit);
    }
  }

  lemma SlotStep(s: State, step: Step, permit: CanaryPermit)
    requires Enabled(s, step)
    ensures
      Apply(s, step).slot == Some(permit) <==>
      Issues(step, permit) || (s.slot == Some(permit) && Spares(step, permit))
  {
  }

  /** In every run: an attempt is let through exactly if its token was issued for a recovery and has
      not expired, no other permit was issued since, and no attempt since came with the token or at
      a time after its expiry. */
  lemma RedeemedExactly(maxInFlight: nat, steps: seq<Step>, i: nat)
    requires Runs(Initial(maxInFlight), steps) && i < |steps| && steps[i].Consume?
    ensures
      steps[i].request in StateAt(Initial(maxInFlight), steps, i + 1).cleared <==>
      exists permit: CanaryPermit ::
        && HeldAt(steps, i, permit)
        && permit.token == steps[i].token && permit.recoveryId != "" && steps[i].now < permit.expiresAt
  {
    var s := StateAt(Initial(maxInFlight), steps, i);
    StateNext(Initial(maxInFlight), steps, i);
    if s.slot.Some? {
      SlotExactly(maxInFlight, steps, i, s.slot.value);
    }
    forall permit | HeldAt(steps, i, permit) ensures s.slot == Some(permit) {
      SlotExactly(maxInFlight, steps, i, permit);
    }
  }

  // ---------- the objects ----------

  method PerformMove(gate: AdmissionGate, move: Move)
    requires gate.Valid()
    modifies gate
    ensures gate.Value() == Moved(old(gate.Value()), move)
  {
    match move {
      case Serve => gate.StartServing();
      case Block => gate.Block();
      case Close => gate.Close();
      case Reset => gate.ResetBlockedGeneration();
      case Drain(generation) => var refused := gate.BeginDrain(generation);
    }
  }

  /** One step, by the gate and the slot. */
  method Perform(gate: AdmissionGate, slot: CanarySlot, s: State, step: Step)
    requires Inv(s) && Enabled(s, step) && gate.Value() == s.gate && slot.permit == s.slot
    modifies gate, slot
    ensures gate.Value() == Apply(s, step).gate && slot.permit == Apply(s, step).slot
  {
    match step {
      case Runtime(move) => PerformMove(gate, move);
      case Issue(recoveryId, token, now, lifetime) => slot.Issue(recoveryId, token, now, lifetime);
      case Consume(_, token, now) => var valid := slot.Consume(token, now);
      case AcquireRecovery(_, upstreamReady) => var refused := gate.TryAcquireRecovery(upstreamReady);
      case AcquirePublic(upstreamReady) => var refused := gate.TryAcquire(upstreamReady);
      case Drop => var becameZero := gate.DropPermit();
    }
  }

  /** Every run, carried out by the objects: they reach the gate and slot of the transition system. */
  method RunCanary(maxInFlight: nat, steps: seq<Step>) returns (gate: AdmissionGate, slot: CanarySlot)
    requires maxInFlight > 0 && Runs(Initial(maxInFlight), steps)
    ensures gate.Value() == After(Initial(maxInFlight), steps).gate
    ensures slot.permit == After(Initial(maxInFlight), steps).slot
  {
    gate := new AdmissionGate(maxInFlight);
    slot := new CanarySlot();
    var s, rest := Initial(maxInFlight), steps;
    while rest != []
      invariant fresh(gate) && fresh(slot) && gate.Value() == s.gate && slot.permit == s.slot
      invariant Inv(s) && Runs(s, rest) && After(s, rest) == After(Initial(maxInFlight), steps)
      decreases |rest|
    {
      StepKeepsInv(s, rest[0]);
      Perform(gate, slot, s, rest[0]);
      s, rest := Apply(s, rest[0]), rest[1..];
    }
  }
}
