/** Exactly when a successful drain leaves the gate empty, over every interleaving. */
module AdmissionDrain {
  import opened Wrappers
  import opened AdmissionGate
  import opened AdmissionProtocol

  // ---------- states along a run ----------

  /** The state after the first `i` steps. */
  ghost function StateAt(s: State, steps: seq<Step>, i: nat): (r: State)
    requires Inv(s) && Runs(s, steps) && i <= |steps|
    ensures Inv(r)
    decreases i
  {
    if i == 0 then s
    else
      StepKeepsInv(s, steps[0]);
      StateAt(Apply(s, steps[0]), steps[1..], i - 1)
  }

  lemma {:induction false} StateNext(s: State, steps: seq<Step>, i: nat)
    requires Inv(s) && Runs(s, steps) && i < |steps|
    ensures Enabled(StateAt(s, steps, i), steps[i])
    ensures steps[i].Drop? ==> StateAt(s, steps, i).gate.inFlight > 0
    ensures StateAt(s, steps, i + 1) == Apply(StateAt(s, steps, i), steps[i])
    decreases i
  {
    StepKeepsInv(s, steps[0]);
    if i > 0 {
      StateNext(Apply(s, steps[0]), steps[1..], i - 1);
    }
  }

  lemma {:induction false} StateAtEnd(s: State, steps: seq<Step>)
    requires Inv(s) && Runs(s, steps)
    ensures StateAt(s, steps, |steps|) == After(s, steps)
    decreases |steps|
  {
    if steps != [] {
      StepKeepsInv(s, steps[0]);
      StateAtEnd(Apply(s, steps[0]), steps[1..]);
    }
  }

  // ---------- permits along a run ----------

  ghost predicate GrantAt(s: State, steps: seq<Step>, i: nat)
    requires Inv(s) && Runs(s, steps) && i < |steps|
  {
    Grants(StateAt(s, steps, i), steps[i])
  }

  ghost predicate DroppedFrom(steps: seq<Step>, i: nat, permit: nat) {
    exists j | i <= j < |steps| :: steps[j] == Drop(permit)
  }

  /** Permit handed out in step `j` and not dropped after it. */
  ghost predicate Kept(s: State, steps: seq<Step>, j: nat, permit: nat)
    requires Inv(s) && Runs(s, steps) && j < |steps|
  {
    GrantAt(s, steps, j) && steps[j].permit == permit && !DroppedFrom(steps, j + 1, permit)
  }

  ghost predicate KeptFrom(s: State, steps: seq<Step>, i: nat, permit: nat)
    requires Inv(s) && Runs(s, steps)
  {
    exists j | i <= j < |steps| :: Kept(s, steps, j, permit)
  }

  /** The live permits at the end: those live at step `i` and not dropped since, and those handed
      out since and not dropped again. */
  lemma {:induction false} LiveFrom(s: State, steps: seq<Step>, i: nat, permit: nat)
    requires Inv(s) && Runs(s, steps) && i <= |steps|
    ensures
      permit in StateAt(s, steps, |steps|).live <==>
      (permit in StateAt(s, steps, i).live && !DroppedFrom(steps, i, permit)) || KeptFrom(s, steps, i, permit)
    decreases |steps| - i
  {
    if i < |steps| {
      LiveFrom(s, steps, i + 1, permit);
      LiveStep(s, steps, i, permit);
      StateNext(s, steps, i);
    }
  }

  lemma LiveStep(s: State, steps: seq<Step>, i: nat, permit: nat)
    requires Inv(s) && Runs(s, steps) && i < |steps|
    ensures DroppedFrom(steps, i, permit) <==> steps[i] == Drop(permit) || DroppedFrom(steps, i + 1, permit)
    ensures KeptFrom(s, steps, i, permit) <==> Kept(s, steps, i, permit) || KeptFrom(s, steps, i + 1, permit)
  {
  }

  /** Every permit handed out from step `i` on is dropped again. */
  ghost predicate AllDropped(s: State, steps: seq<Step>, i: nat)
    requires Inv(s) && Runs(s, steps)
  {
    forall j | i <= j < |steps| && GrantAt(s, steps, j) :: DroppedFrom(steps, j + 1, steps[j].permit)
  }

  lemma EmptyExactly(s: State, steps: seq<Step>, i: nat)
    requires Inv(s) && Runs(s, steps) && i <= |steps| && StateAt(s, steps, i).live == {}
    ensures StateAt(s, steps, |steps|).live == {} <==> AllDropped(s, steps, i)
  {
    var live := StateAt(s, steps, |steps|).live;
    if AllDropped(s, steps, i) {
      forall permit ensures permit !in live {
        LiveFrom(s, steps, i, permit);
      }
    } else {
      var j :| i <= j < |steps| && GrantAt(s, steps, j) && !DroppedFrom(steps, j + 1, steps[j].permit);
      LiveFrom(s, steps, i, steps[j].permit);
      assert Kept(s, steps, j, steps[j].permit);
    }
  }

  // ---------- the call of the task ----------

  /** The task stays inside one call of `drain`. */
  ghost predicate SameCall(steps: seq<Step>, task: nat) {
    forall i | 0 <= i < |steps| :: steps[i] != Return(task) && steps[i] != TimeOut(task)
  }

  lemma {:induction false} CallStays(s: State, steps: seq<Step>, task: nat, i: nat)
    requires Inv(s) && Runs(s, steps) && i <= |steps| && SameCall(steps, task) && task in s.waiters
    ensures task in StateAt(s, steps, i).waiters && StateAt(s, steps, i).waiters[task].drain == s.waiters[task].drain
    decreases i
  {
    if i > 0 {
      CallStays(s, steps, task, i - 1);
      StateNext(s, steps, i - 1);
    }
  }

  ghost predicate SawZeroAt(s: State, steps: seq<Step>, task: nat, i: nat)
    requires Inv(s) && Runs(s, steps) && i <= |steps|
  {
    task in StateAt(s, steps, i).waiters && StateAt(s, steps, i).waiters[task].SawZero?
  }

  /** The zero check that let the task return. */
  lemma {:induction false} LastCheck(s: State, steps: seq<Step>, task: nat, n: nat) returns (i: nat)
    requires Inv(s) && Runs(s, steps) && n <= |steps| && SameCall(steps, task)
    requires task in s.waiters && !s.waiters[task].SawZero? && SawZeroAt(s, steps, task, n)
    ensures i < n && steps[i] == Check(task) && (forall j | i < j < n :: steps[j] != Check(task))
    ensures StateAt(s, steps, i + 1).gate.inFlight == 0
    decreases n
  {
    assert n > 0;
    CallStays(s, steps, task, n - 1);
    StateNext(s, steps, n - 1);
    if steps[n - 1] == Check(task) {
      i := n - 1;
    } else {
      i := LastCheck(s, steps, task, n - 1);
    }
  }

  // ---------- how a request can be admitted ----------

  ghost predicate StartsAt(s: State, steps: seq<Step>, a: nat)
    requires Inv(s) && Runs(s, steps) && a < |steps|
  {
    steps[a].StartServing? && !StateAt(s, steps, a).gate.closed
  }

  ghost predicate BeginsAt(s: State, steps: seq<Step>, b: nat, generation: nat)
    requires Inv(s) && Runs(s, steps) && b < |steps|
  {
    BeginsDrain(StateAt(s, steps, b), steps[b], generation)
  }

  lemma {:induction false} Started(s: State, steps: seq<Step>, j: nat) returns (a: nat)
    requires Inv(s) && Runs(s, steps) && j <= |steps|
    requires s.gate.state != Serving && StateAt(s, steps, j).gate.state == Serving
    ensures a < j && StartsAt(s, steps, a)
    decreases j
  {
    assert j > 0;
    StateNext(s, steps, j - 1);
    if StateAt(s, steps, j - 1).gate.state == Serving {
      a := Started(s, steps, j - 1);
    } else {
      a := j - 1;
    }
  }

  lemma {:induction false} Begun(s: State, steps: seq<Step>, j: nat, generation: nat) returns (b: nat)
    requires Inv(s) && Runs(s, steps) && j <= |steps|
    requires StateAt(s, steps, j).gate.drainGeneration != Some(generation)
    requires StateAt(s, steps, |steps|).gate.drainGeneration == Some(generation)
    ensures j <= b < |steps| && BeginsAt(s, steps, b, generation)
    decreases |steps| - j
  {
    assert j < |steps|;
    StateNext(s, steps, j);
    if StateAt(s, steps, j + 1).gate.drainGeneration == Some(generation) {
      b := j;
    } else {
      b := Begun(s, steps, j + 1, generation);
    }
  }

  /** The grant in step `j` went to the recovery, or the gate was started before it and a drain of
      the same generation was begun again after it. */
  ghost predicate Excused(s: State, steps: seq<Step>, j: nat, generation: nat)
    requires Inv(s) && Runs(s, steps) && j < |steps|
  {
    || steps[j].AcquireRecovery?
    || exists a, b | 0 <= a < j < b < |steps| :: StartsAt(s, steps, a) && BeginsAt(s, steps, b, generation)
  }

  lemma GrantExcused(s: State, steps: seq<Step>, j: nat, generation: nat)
    requires Inv(s) && Runs(s, steps) && j < |steps| && GrantAt(s, steps, j)
    requires s.gate.state != Serving && StateAt(s, steps, |steps|).gate.drainGeneration == Some(generation)
    ensures Excused(s, steps, j, generation)
  {
    if !steps[j].AcquireRecovery? {
      var a := Started(s, steps, j);
      var b := Begun(s, steps, j, generation);
      assert StartsAt(s, steps, a) && BeginsAt(s, steps, b, generation);
    }
  }

  // ---------- the theorem ----------

  /** For every run of a call of `drain` that succeeds: it saw zero in a last check, and it leaves
      the gate blocked, and empty if and only if every permit handed out since that check was
      dropped again. Such a permit was a recovery permit, or the gate was started before it and a
      drain of the same generation begun after it. */
  lemma DrainExactly(s: State, task: nat, generation: nat, steps: seq<Step>) returns (check: nat)
    requires Inv(s) && Enabled(s, EnterDrain(task, generation)) && s.gate.DrainAllowed(generation)
    requires Inv(Apply(s, EnterDrain(task, generation))) && Runs(Apply(s, EnterDrain(task, generation)), steps)
    requires SameCall(steps, task)
    requires
      var s2 := After(Apply(s, EnterDrain(task, generation)), steps);
      Enabled(s2, Return(task)) && DrainSucceeds(s2, Return(task))
    ensures
      var s1 := Apply(s, EnterDrain(task, generation));
      var s3 := Apply(After(s1, steps), Return(task));
      && check < |steps| && steps[check] == Check(task) && (forall j | check < j < |steps| :: steps[j] != Check(task))
      && StateAt(s1, steps, check + 1).live == {}
      && s3.gate.state == Blocked && s3.gate.inFlight == |s3.live|
      && (s3.live == {} <==> AllDropped(s1, steps, check + 1))
      && (forall j | check < j < |steps| && GrantAt(s1, steps, j) :: Excused(s1, steps, j, generation))
  {
    var s1 := Apply(s, EnterDrain(task, generation));
    StateAtEnd(s1, steps);
    CallStays(s1, steps, task, |steps|);
    check := LastCheck(s1, steps, task, |steps|);
    assert |StateAt(s1, steps, check + 1).live| == 0;
    EmptyExactly(s1, steps, check + 1);
    forall j | check < j < |steps| && GrantAt(s1, steps, j) ensures Excused(s1, steps, j, generation) {
      GrantExcused(s1, steps, j, generation);
    }
  }

  // ---------- both excuses occur ----------

  /** A recovery acquisition between the zero check and the return of the drain leaves a request in
      flight behind a successful drain. */
  lemma RecoveryCanOutliveDrain(maxInFlight: nat) returns (s1: State, s2: State, s3: State, s4: State, s5: State)
    requires maxInFlight > 0
    ensures var s := Initial(maxInFlight);
            Enabled(s, EnterDrain(0, 7)) && s.gate.DrainAllowed(7) && s1 == Apply(s, EnterDrain(0, 7))
    ensures Enabled(s1, Arm(0)) && s2 == Apply(s1, Arm(0))
    ensures Enabled(s2, Check(0)) && s3 == Apply(s2, Check(0))
    ensures Enabled(s3, AcquireRecovery(1, true)) && s4 == Apply(s3, AcquireRecovery(1, true))
    ensures Enabled(s4, Return(0)) && DrainSucceeds(s4, Return(0)) && s5 == Apply(s4, Return(0))
    ensures s5.gate.state == Blocked && s5.gate.inFlight == 1
  {
    s1 := Apply(Initial(maxInFlight), EnterDrain(0, 7));
    s2 := Apply(s1, Arm(0));
    s3 := Apply(s2, Check(0));
    s4 := Apply(s3, AcquireRecovery(1, true));
    s5 := Apply(s4, Return(0));
  }

  /** So does a public request admitted after a restart of the gate, if a drain of the same
      generation begins again before the first one returns. */
  lemma RestartCanOutliveDrain(maxInFlight: nat)
    returns (s1: State, s2: State, s3: State, s4: State, s5: State, s6: State, s7: State)
    requires maxInFlight > 0
    ensures var s := Initial(maxInFlight);
            Enabled(s, EnterDrain(0, 7)) && s.gate.DrainAllowed(7) && s1 == Apply(s, EnterDrain(0, 7))
    ensures Enabled(s1, Arm(0)) && s2 == Apply(s1, Arm(0))
    ensures Enabled(s2, Check(0)) && s3 == Apply(s2, Check(0))
    ensures Enabled(s3, StartServing) && s4 == Apply(s3, StartServing)
    ensures Enabled(s4, Acquire(1, true)) && s5 == Apply(s4, Acquire(1, true))
    ensures Enabled(s5, BeginDrain(7)) && s6 == Apply(s5, BeginDrain(7))
    ensures Enabled(s6, Return(0)) && DrainSucceeds(s6, Return(0)) && s7 == Apply(s6, Return(0))
    ensures s7.gate.state == Blocked && s7.gate.inFlight == 1
  {
    s1 := Apply(Initial(maxInFlight), EnterDrain(0, 7));
    s2 := Apply(s1, Arm(0));
    s3 := Apply(s2, Check(0));
    s4 := Apply(s3, StartServing);
    s5 := Apply(s4, Acquire(1, true));
    s6 := Apply(s5, BeginDrain(7));
    s7 := Apply(s6, Return(0));
  }

  // ---------- the object ----------

  /** One step of the protocol, by the object. */
  method Perform(gate: AdmissionGate, s: State, step: Step)
    requires Inv(s) && Enabled(s, step) && gate.Value() == s.gate
    requires step.Drop? ==> s.gate.inFlight > 0
    modifies gate
    ensures gate.Value() == Apply(s, step).gate
  {
    match step {
      case StartServing => gate.StartServing();
      case Block => gate.Block();
      case Close => gate.Close();
      case ResetBlockedGeneration => gate.ResetBlockedGeneration();
      case Acquire(_, upstreamReady) => var refused := gate.TryAcquire(upstreamReady);
      case AcquireRecovery(_, upstreamReady) => var refused := gate.TryAcquireRecovery(upstreamReady);
      case Drop(_) => var becameZero := gate.DropPermit();
      case BeginDrain(generation) => var refused := gate.BeginDrain(generation);
      case EnterDrain(_, generation) => var refused := gate.BeginDrain(generation);
      case Return(task) =>
        var drain := s.waiters[task].drain;
        if drain.Some? {
          var changed := gate.FinishDrain(drain.value);
        }
      case _ =>
    }
  }

  /** Every interleaving, carried out by the object: it reaches the gate of the transition system, so
      what holds there over whole runs holds of it. */
  method RunGate(maxInFlight: nat, steps: seq<Step>) returns (gate: AdmissionGate)
    requires maxInFlight > 0 && Runs(Initial(maxInFlight), steps)
    ensures gate.Value() == After(Initial(maxInFlight), steps).gate
  {
    gate := new AdmissionGate(maxInFlight);
    var s, rest := Initial(maxInFlight), steps;
    while rest != []
      invariant fresh(gate) && gate.Value() == s.gate
      invariant Inv(s) && Runs(s, rest) && After(s, rest) == After(Initial(maxInFlight), steps)
      decreases |rest|
    {
      StepKeepsInv(s, rest[0]);
      Perform(gate, s, rest[0]);
      s, rest := Apply(s, rest[0]), rest[1..];
    }
  }
}
