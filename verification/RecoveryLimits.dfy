/** The rate limits of the recovery service over whole runs, and what the bounded history costs. */
module RecoveryLimits {
  import opened Wrappers
  import opened RecoveryService

  /** The service with its unbounded log; the history is the latest part of the log. */
  datatype State = State(policy: Policy, active: Option<Job>, log: seq<Job>, clock: u64)

  function History(s: State): seq<Job> {
    Latest(s.log, s.policy.historyLimit)
  }

  datatype Step =
    | BeginAt(gate: Gate, request: Request, id: nat, now: u64)
    | SnapshotTaken(id: nat, now: u64, path: string)
    | Progress(id: nat, now: u64, phase: Phase, admission: Option<string>)
    | Succeed(id: nat, now: u64, generation: u64)
    | Fail(id: nat, now: u64, reason: Reason)
    | SnapshotFailed(id: nat, now: u64, reason: Reason)

  /** The clock does not run backwards, and snapshot failures are reported with a reason that
      counts as a failure, as all callers do. */
  predicate Enabled(s: State, step: Step) {
    && s.clock <= step.now
    && (step.SnapshotFailed? ==> !Suppresses(step.reason))
  }

  function Answer(s: State, step: Step): Start
    requires step.BeginAt?
  {
    Begin(s.policy, s.active, History(s), step.gate, step.request, step.id, step.now)
  }

  predicate Ends(step: Step) {
    step.Succeed? || step.Fail? || step.SnapshotFailed?
  }

  /** The job a step about it leaves. */
  function Marked(job: Job, step: Step): Job
    requires !step.BeginAt?
  {
    match step
    case SnapshotTaken(_, _, path) => job.(snapshotPath := Some(path))
    case Progress(_, _, phase, admission) => job.(phase := phase, admission := admission)
    case Succeed(_, now, generation) => Terminal(job, now, Succeeded, CompletedPhase, None, Some(generation))
    case Fail(_, now, reason) => Terminal(job, now, Failed, FailedPhase, Some(reason), None)
    case SnapshotFailed(_, now, reason) => WithFailure(job, reason, now)
  }

  function Apply(s: State, step: Step): State
    requires Enabled(s, step)
  {
    var s' := s.(clock := step.now);
    if step.BeginAt? then
      match Answer(s, step)
      case Created(job) => s'.(active := Some(job))
      case Existing(_) => s'
      case Refused(job) => s'.(log := s.log + [job])
    else if s.active.None? || s.active.value.id != step.id then s'
    else
      var job := Marked(s.active.value, step);
      if Ends(step) then s'.(active := None, log := s.log + [job]) else s'.(active := Some(job))
  }

  function Initial(policy: Policy): State {
    State(policy, None, [], 0)
  }

  // ---------- attempts ----------

  function Attempts(log: seq<Job>): seq<Job> {
    if log == [] then []
    else if IsAttempt(log[0]) then [log[0]] + Attempts(log[1..])
    else Attempts(log[1..])
  }

  lemma {:induction false} AttemptsSnoc(log: seq<Job>, job: Job)
    ensures Attempts(log + [job]) == Attempts(log) + (if IsAttempt(job) then [job] else [])
    decreases |log|
  {
    if log == [] {
      assert log + [job] == [job];
    } else {
      assert (log + [job])[1..] == log[1..] + [job];
      AttemptsSnoc(log[1..], job);
    }
  }

  lemma {:induction false} AttemptsFromLog(log: seq<Job>, i: nat) returns (k: nat)
    requires i < |Attempts(log)|
    ensures k < |log| && log[k] == Attempts(log)[i] && IsAttempt(log[k])
    decreases |log|
  {
    if IsAttempt(log[0]) && i == 0 {
      k := 0;
    } else {
      var j := AttemptsFromLog(log[1..], if IsAttempt(log[0]) then i - 1 else i);
      k := j + 1;
    }
  }

  /** If every attempt from the `i`-th on is in the window, they are all counted. */
  lemma {:induction false} CountFrom(policy: Policy, log: seq<Job>, now: u64, i: nat)
    requires i <= |Attempts(log)|
    requires forall k | i <= k < |Attempts(log)| :: InWindow(policy, Attempts(log)[k], now)
    ensures AttemptsInWindow(policy, log, now) >= |Attempts(log)| - i
    decreases |log|
  {
    if log != [] {
      var rest := Attempts(log[1..]);
      if IsAttempt(log[0]) {
        assert Attempts(log) == [log[0]] + rest;
        assert forall k | 0 <= k < |rest| :: rest[k] == Attempts(log)[k + 1];
        assert i == 0 ==> InWindow(policy, Attempts(log)[0], now);
        CountFrom(policy, log[1..], now, if i == 0 then 0 else i - 1);
      } else {
        CountFrom(policy, log[1..], now, i);
      }
    }
  }

  /** Attempts before the `i`-th that are not in the window are not counted. */
  lemma {:induction false} CountAtMost(policy: Policy, log: seq<Job>, now: u64, i: nat)
    requires i <= |Attempts(log)|
    requires forall k | 0 <= k < i :: !InWindow(policy, Attempts(log)[k], now)
    ensures AttemptsInWindow(policy, log, now) <= |Attempts(log)| - i
    decreases |log|
  {
    if log != [] {
      var rest := Attempts(log[1..]);
      if IsAttempt(log[0]) {
        assert Attempts(log) == [log[0]] + rest;
        assert forall k | 0 <= k < |rest| :: rest[k] == Attempts(log)[k + 1];
        assert i > 0 ==> !InWindow(policy, Attempts(log)[0], now);
        CountAtMost(policy, log[1..], now, if i == 0 then 0 else i - 1);
      } else {
        CountAtMost(policy, log[1..], now, i);
      }
    }
  }

  lemma {:induction false} AttemptsHold(log: seq<Job>, job: Job)
    requires job in log && IsAttempt(job)
    ensures job in Attempts(log)
    decreases |log|
  {
    if log[0] != job {
      assert job in log[1..];
      AttemptsHold(log[1..], job);
    }
  }

  // ---------- what the history retains ----------

  /** The attempt still bears on a start at `now`. */
  predicate Binding(policy: Policy, job: Job, now: u64) {
    && IsAttempt(job)
    && (InWindow(policy, job, now) || (job.finished.Some? && now < job.finished.value + policy.cooldown))
  }

  /** Every attempt that still bears on a start was followed by fewer jobs than the history holds. */
  ghost predicate Retained(s: State, now: u64) {
    forall i | 0 <= i < |s.log| && Binding(s.policy, s.log[i], now) :: |s.log| - i <= s.policy.historyLimit
  }

  lemma {:induction false} CountSuffix(policy: Policy, log: seq<Job>, now: u64, k: nat)
    requires k <= |log| && forall i | 0 <= i < k :: !InWindow(policy, log[i], now)
    ensures AttemptsInWindow(policy, log[k..], now) == AttemptsInWindow(policy, log, now)
    decreases |log|
  {
    if k > 0 {
      assert log[1..][k - 1..] == log[k..];
      CountSuffix(policy, log[1..], now, k - 1);
    } else {
      assert log[0..] == log;
    }
  }

  lemma RetainedCount(s: State, now: u64)
    requires Retained(s, now)
    ensures AttemptsInWindow(s.policy, History(s), now) == AttemptsInWindow(s.policy, s.log, now)
  {
    if |s.log| > s.policy.historyLimit {
      var k := |s.log| - s.policy.historyLimit;
      forall i | 0 <= i < k ensures !InWindow(s.policy, s.log[i], now) {
        assert !Binding(s.policy, s.log[i], now);
      }
      CountSuffix(s.policy, s.log, now, k);
    }
  }

  /** Outside the cooldown of the history, every logged attempt is past its cooldown. */
  lemma RetainedCooldown(s: State, now: u64, i: nat)
    requires Retained(s, now) && now < U64_MAX && !InCooldown(s.policy, History(s), now)
    requires i < |s.log| && IsAttempt(s.log[i]) && s.log[i].finished.Some?
    ensures s.log[i].finished.value + s.policy.cooldown <= now
  {
    var job := s.log[i];
    if Binding(s.policy, job, now) {
      assert job in History(s) by {
        if |s.log| > s.policy.historyLimit {
          var k := |s.log| - s.policy.historyLimit;
          assert History(s)[i - k] == job;
        }
      }
      assert job.finished.value <= LatestFinish(History(s)).value;
    }
  }

  // ---------- the limits ----------

  /** Every job that was created and not refused, in order. */
  function Recoveries(s: State): seq<Job> {
    Attempts(s.log) + (if s.active.Some? then [s.active.value] else [])
  }

  /** Any `maxAttempts + 1` recoveries span strictly more than the window, and each starts at least
      the cooldown after every earlier finish. */
  ghost predicate WithinLimits(s: State) {
    Spaced(s.policy, Recoveries(s))
  }

  ghost predicate Spaced(policy: Policy, r: seq<Job>) {
    && (forall i | 0 <= i && i + policy.maxAttempts < |r| ::
          r[i + policy.maxAttempts].started > r[i].started + policy.window)
    && (forall i, j | 0 <= i < j < |r| && r[i].finished.Some? ::
          r[j].started >= r[i].finished.value + policy.cooldown)
  }

  ghost predicate Ordered(s: State) {
    var r := Recoveries(s);
    && (forall i, j | 0 <= i < j < |r| :: r[i].started <= r[j].started)
    && (forall i | 0 <= i < |r| :: r[i].started <= s.clock)
    && (forall i | 0 <= i < |Attempts(s.log)| :: IsAttempt(Attempts(s.log)[i]) && Attempts(s.log)[i].finished.Some?)
    && (s.active.Some? ==> s.active.value.state == Running && s.active.value.finished.None?)
  }

  /** The step creates a recovery. */
  predicate Creates(s: State, step: Step) {
    step.BeginAt? && Answer(s, step).Created?
  }

  /** `r'` is `r`, except that its last element may have finished. */
  predicate SameStarts(r: seq<Job>, r': seq<Job>) {
    && |r'| == |r|
    && (forall i | 0 <= i < |r| :: r'[i].started == r[i].started)
    && (forall i | 0 <= i < |r| - 1 :: r'[i] == r[i])
  }

  lemma OtherStep(s: State, step: Step)
    requires Enabled(s, step) && Ordered(s) && !Creates(s, step)
    ensures SameStarts(Recoveries(s), Recoveries(Apply(s, step))) && Ordered(Apply(s, step))
  {
    var s' := Apply(s, step);
    if step.BeginAt? {
      if Answer(s, step).Refused? {
        AttemptsSnoc(s.log, Answer(s, step).job);
        assert Attempts(s.log) + [] == Attempts(s.log);
      }
    } else if s.active.Some? && s.active.value.id == step.id {
      AttemptsSnoc(s.log, Marked(s.active.value, step));
      assert Recoveries(s') == Attempts(s.log) + [Marked(s.active.value, step)];
    }
  }

  lemma CreateStep(s: State, step: Step)
    requires Enabled(s, step) && Ordered(s) && Creates(s, step)
    ensures
      var job := Answer(s, step).job;
      && s.active.None? && Recoveries(s) == Attempts(s.log)
      && Recoveries(Apply(s, step)) == Attempts(s.log) + [job]
      && job.started == step.now && job.finished.None?
      && !InCooldown(s.policy, History(s), step.now)
      && AttemptsInWindow(s.policy, History(s), step.now) < s.policy.maxAttempts
      && Ordered(Apply(s, step))
  {
    assert Attempts(s.log) + [] == Attempts(s.log);
  }

  /** A start at `now` would be allowed if the history kept every job. */
  predicate LogAllows(s: State, now: u64) {
    && !InCooldown(s.policy, s.log, now)
    && AttemptsInWindow(s.policy, s.log, now) < s.policy.maxAttempts
  }

  /** A history that retains what still bears on a start decides like the whole log. */
  lemma RetainedAllows(s: State, now: u64)
    requires Retained(s, now) && now < U64_MAX && !InCooldown(s.policy, History(s), now)
    requires AttemptsInWindow(s.policy, History(s), now) < s.policy.maxAttempts
    ensures LogAllows(s, now)
  {
    RetainedCount(s, now);
    var latest := LatestFinish(s.log);
    if latest.Some? {
      var job :| job in s.log && IsAttempt(job) && job.finished == latest;
      var i :| 0 <= i < |s.log| && s.log[i] == job;
      RetainedCooldown(s, now, i);
    }
  }

  /** A start that the log allows respects the window, and only such a start does. */
  lemma WindowExact(s: State, now: u64)
    requires Ordered(s) && s.active.None? && s.clock <= now && s.policy.maxAttempts > 0
    ensures AttemptsInWindow(s.policy, s.log, now) < s.policy.maxAttempts <==>
      (|Attempts(s.log)| >= s.policy.maxAttempts ==>
         now > Attempts(s.log)[|Attempts(s.log)| - s.policy.maxAttempts].started + s.policy.window)
  {
    var a := Attempts(s.log);
    assert Recoveries(s) == a;
    CountAtMost(s.policy, s.log, now, 0);
    if |a| >= s.policy.maxAttempts {
      var n := |a| - s.policy.maxAttempts;
      if now <= a[n].started + s.policy.window {
        forall k | n <= k < |a| ensures InWindow(s.policy, a[k], now) {
          assert a[n].started <= a[k].started;
        }
        CountFrom(s.policy, s.log, now, n);
      } else {
        forall k | 0 <= k < n + 1 ensures !InWindow(s.policy, a[k], now) {
          assert k < n ==> a[k].started <= a[n].started;
        }
        CountAtMost(s.policy, s.log, now, n + 1);
      }
    }
  }

  /** A start that the log allows respects every cooldown, and only such a start does. */
  lemma CooldownExact(s: State, now: u64)
    requires Ordered(s) && now < U64_MAX
    ensures !InCooldown(s.policy, s.log, now) <==>
      forall i | 0 <= i < |Attempts(s.log)| :: now >= Attempts(s.log)[i].finished.value + s.policy.cooldown
  {
    var a, latest := Attempts(s.log), LatestFinish(s.log);
    if InCooldown(s.policy, s.log, now) {
      var job :| job in s.log && IsAttempt(job) && job.finished == latest;
      AttemptsHold(s.log, job);
      var i :| 0 <= i < |a| && a[i] == job;
      assert now < a[i].finished.value + s.policy.cooldown;
    } else {
      forall i | 0 <= i < |a| ensures now >= a[i].finished.value + s.policy.cooldown {
        var k := AttemptsFromLog(s.log, i);
        assert s.log[k] in s.log && a[i].finished.Some?;
      }
    }
  }

  /** One more recovery is spaced from the earlier ones exactly when both limits hold for it. */
  lemma SpacedSnoc(policy: Policy, r: seq<Job>, job: Job)
    requires Spaced(policy, r) && policy.maxAttempts > 0
    requires forall i | 0 <= i < |r| :: r[i].finished.Some?
    ensures Spaced(policy, r + [job]) <==>
      && (|r| >= policy.maxAttempts ==> job.started > r[|r| - policy.maxAttempts].started + policy.window)
      && (forall i | 0 <= i < |r| :: job.started >= r[i].finished.value + policy.cooldown)
  {
    var r', m := r + [job], policy.maxAttempts;
    forall i | 0 <= i < |r| ensures r'[i] == r[i] {}
    assert r'[|r|] == job;
    if |r| >= m {
      assert Spaced(policy, r') ==> r'[|r| - m + m].started > r'[|r| - m].started + policy.window;
    }
    forall i | 0 <= i && i + m < |r| ensures r'[i + m].started > r'[i].started + policy.window {
      assert r[i + m].started > r[i].started + policy.window;
    }
  }

  lemma SpacedSame(policy: Policy, r: seq<Job>, r': seq<Job>)
    requires SameStarts(r, r')
    ensures Spaced(policy, r) <==> Spaced(policy, r')
  {
    var m := policy.maxAttempts;
    forall i | 0 <= i && i + m < |r| && Spaced(policy, r) ensures r'[i + m].started > r'[i].started + policy.window {
      assert r[i + m].started > r[i].started + policy.window;
    }
    forall i | 0 <= i && i + m < |r| && Spaced(policy, r') ensures r[i + m].started > r[i].started + policy.window {
      assert r'[i + m].started > r'[i].started + policy.window;
    }
  }

  lemma CreateExact(s: State, step: Step)
    requires Enabled(s, step) && Ordered(s) && WithinLimits(s) && step.now < U64_MAX && Creates(s, step)
    ensures Ordered(Apply(s, step))
    ensures WithinLimits(Apply(s, step)) <==> LogAllows(s, step.now)
  {
    CreateStep(s, step);
    WindowExact(s, step.now);
    CooldownExact(s, step.now);
    SpacedSnoc(s.policy, Attempts(s.log), Answer(s, step).job);
  }

  /** A creation keeps the limits exactly when the whole log would have allowed it; no other step
      bears on them. */
  lemma StepExact(s: State, step: Step)
    requires Enabled(s, step) && Ordered(s) && WithinLimits(s) && step.now < U64_MAX
    ensures Ordered(Apply(s, step))
    ensures WithinLimits(Apply(s, step)) <==> (Creates(s, step) ==> LogAllows(s, step.now))
  {
    if Creates(s, step) {
      CreateExact(s, step);
    } else {
      OtherStep(s, step);
      SpacedSame(s.policy, Recoveries(s), Recoveries(Apply(s, step)));
    }
  }

  /** A broken limit stays broken. */
  lemma LimitsOnlyBreak(s: State, step: Step)
    requires Enabled(s, step) && Ordered(s) && WithinLimits(Apply(s, step))
    ensures Ordered(Apply(s, step)) && WithinLimits(s)
  {
    if Creates(s, step) {
      CreateStep(s, step);
      SpacedPrefix(s.policy, Recoveries(s), Answer(s, step).job);
    } else {
      OtherStep(s, step);
      SpacedSame(s.policy, Recoveries(s), Recoveries(Apply(s, step)));
    }
  }

  lemma SpacedPrefix(policy: Policy, r: seq<Job>, job: Job)
    requires Spaced(policy, r + [job])
    ensures Spaced(policy, r)
  {
    var r', m := r + [job], policy.maxAttempts;
    forall i | 0 <= i < |r| ensures r'[i] == r[i] {}
    forall i | 0 <= i && i + m < |r| ensures r[i + m].started > r[i].started + policy.window {
      assert r'[i + m].started > r'[i].started + policy.window;
    }
  }

  // ---------- runs ----------

  predicate Runs(s: State, steps: seq<Step>)
    decreases |steps|
  {
    steps == [] || (Enabled(s, steps[0]) && Runs(Apply(s, steps[0]), steps[1..]))
  }

  function After(s: State, steps: seq<Step>): State
    requires Runs(s, steps)
    decreases |steps|
  {
    if steps == [] then s else After(Apply(s, steps[0]), steps[1..])
  }

  /** `states` are the states `steps` lead through. */
  ghost predicate Through(states: seq<State>, steps: seq<Step>) {
    && |states| == |steps| + 1
    && forall i | 0 <= i < |steps| :: Enabled(states[i], steps[i]) && Apply(states[i], steps[i]) == states[i + 1]
  }

  lemma {:induction false} ThroughRuns(states: seq<State>, steps: seq<Step>)
    requires Through(states, steps)
    ensures Runs(states[0], steps) && After(states[0], steps) == states[|steps|]
    decreases |steps|
  {
    if steps != [] {
      forall i | 0 <= i < |steps| - 1
        ensures Enabled(states[1..][i], steps[1..][i])
        ensures Apply(states[1..][i], steps[1..][i]) == states[1..][i + 1]
      {
        assert states[1..][i] == states[i + 1] && steps[1..][i] == steps[i + 1];
      }
      ThroughRuns(states[1..], steps[1..]);
    }
  }

  /** Whenever a recovery is created, every attempt that still bears on it is in the history. */
  ghost predicate NeverForgets(s: State, steps: seq<Step>)
    requires Runs(s, steps)
    decreases |steps|
  {
    steps == [] ||
    (&& (Creates(s, steps[0]) ==> Retained(s, steps[0].now))
     && NeverForgets(Apply(s, steps[0]), steps[1..]))
  }

  /** Every creation would also have been allowed with an unbounded history. */
  ghost predicate LogAllowsAll(s: State, steps: seq<Step>)
    requires Runs(s, steps)
    decreases |steps|
  {
    steps == [] ||
    ((Creates(s, steps[0]) ==> LogAllows(s, steps[0].now)) && LogAllowsAll(Apply(s, steps[0]), steps[1..]))
  }

  predicate Unsaturated(steps: seq<Step>) {
    forall i | 0 <= i < |steps| :: steps[i].now < U64_MAX
  }

  lemma {:induction false} RunOnlyBreaks(s: State, steps: seq<Step>)
    requires Runs(s, steps) && Ordered(s) && WithinLimits(After(s, steps))
    ensures WithinLimits(s)
    decreases |steps|
  {
    if steps != [] {
      OrderedNext(s, steps[0]);
      RunOnlyBreaks(Apply(s, steps[0]), steps[1..]);
      LimitsOnlyBreak(s, steps[0]);
    }
  }

  lemma OrderedNext(s: State, step: Step)
    requires Enabled(s, step) && Ordered(s)
    ensures Ordered(Apply(s, step))
  {
    if Creates(s, step) { CreateStep(s, step); } else { OtherStep(s, step); }
  }

  lemma {:induction false} RunExact(s: State, steps: seq<Step>)
    requires Runs(s, steps) && Unsaturated(steps) && Ordered(s) && WithinLimits(s)
    ensures WithinLimits(After(s, steps)) <==> LogAllowsAll(s, steps)
    decreases |steps|, 0
  {
    if steps != [] {
      RunUnfolds(s, steps);
      StepExact(s, steps[0]);
      RunExactAfter(Apply(s, steps[0]), steps[1..]);
    }
  }

  lemma RunUnfolds(s: State, steps: seq<Step>)
    requires Runs(s, steps) && Unsaturated(steps) && steps != []
    ensures Enabled(s, steps[0]) && Runs(Apply(s, steps[0]), steps[1..])
    ensures steps[0].now < U64_MAX && Unsaturated(steps[1..])
    ensures After(s, steps) == After(Apply(s, steps[0]), steps[1..])
    ensures
      LogAllowsAll(s, steps) <==>
      (Creates(s, steps[0]) ==> LogAllows(s, steps[0].now)) && LogAllowsAll(Apply(s, steps[0]), steps[1..])
  {
  }

  /** After one step, whether or not it kept the limits. */
  lemma {:induction false} RunExactAfter(s: State, steps: seq<Step>)
    requires Runs(s, steps) && Unsaturated(steps) && Ordered(s)
    ensures WithinLimits(After(s, steps)) <==> WithinLimits(s) && LogAllowsAll(s, steps)
    decreases |steps|, 1
  {
    if WithinLimits(s) {
      RunExact(s, steps);
    } else if WithinLimits(After(s, steps)) {
      RunOnlyBreaks(s, steps);
    }
  }

  /** For every policy and every run away from the end of time: the window and cooldown limits hold
      over the whole run if and only if every creation would also have been allowed by a history
      that keeps every job. */
  lemma LimitsHoldExactly(policy: Policy, steps: seq<Step>)
    requires Runs(Initial(policy), steps) && Unsaturated(steps)
    ensures WithinLimits(After(Initial(policy), steps)) <==> LogAllowsAll(Initial(policy), steps)
  {
    RunExact(Initial(policy), steps);
  }

  lemma {:induction false} NeverForgetsAllows(s: State, steps: seq<Step>)
    requires Runs(s, steps) && Unsaturated(steps) && NeverForgets(s, steps) && Ordered(s)
    ensures LogAllowsAll(s, steps)
    decreases |steps|
  {
    if steps != [] {
      OrderedNext(s, steps[0]);
      if Creates(s, steps[0]) {
        CreateStep(s, steps[0]);
        RetainedAllows(s, steps[0].now);
      }
      NeverForgetsAllows(Apply(s, steps[0]), steps[1..]);
    }
  }

  /** So they hold in every run in which no attempt that still bears on a start was pushed out of
      the bounded history. */
  lemma LimitsHold(policy: Policy, steps: seq<Step>)
    requires Runs(Initial(policy), steps) && Unsaturated(steps) && NeverForgets(Initial(policy), steps)
    ensures WithinLimits(After(Initial(policy), steps))
  {
    NeverForgetsAllows(Initial(policy), steps);
    LimitsHoldExactly(policy, steps);
  }

  // ---------- what the bounded history costs ----------

  const READY := Gate(Coordinator, DistributedLayerParallel, DistributedReady, 0)

  function FirstAttempt(): Job {
    Terminal(NewJob(READY, Request(0, 0), 0, 0, Running, Snapshot), 0, Failed, FailedPhase, Some(CanaryFailed), None)
  }

  function RefusedJob(key: nat): Job {
    WithFailure(NewJob(READY, Request(0, key), key, 0, Suppressed, SuppressedPhase), Cooldown, 0)
  }

  /** The jobs of `n` refused requests. */
  function RefusedJobs(n: nat): (r: seq<Job>)
    ensures |r| == n
    ensures forall j | j in r :: 0 < j.key <= n && !IsAttempt(j)
  {
    if n == 0 then [] else RefusedJobs(n - 1) + [RefusedJob(n)]
  }

  /** One failed attempt and `n` refused requests, all at time zero. */
  function Flooded(policy: Policy, n: nat): State {
    State(policy, None, [FirstAttempt()] + RefusedJobs(n), 0)
  }

  function Flood(key: nat): Step {
    BeginAt(READY, Request(0, key), key, 0)
  }

  lemma FloodStart(policy: Policy)
    requires policy.historyLimit >= 1 && policy.maxAttempts >= 1
    ensures
      var s := Initial(policy);
      && Creates(s, Flood(0))
      && Enabled(Apply(s, Flood(0)), Fail(0, 0, CanaryFailed))
      && Apply(Apply(s, Flood(0)), Fail(0, 0, CanaryFailed)) == Flooded(policy, 0)
  {
    assert [] + [FirstAttempt()] == [FirstAttempt()] + RefusedJobs(0);
  }

  lemma FloodedHistory(policy: Policy, n: nat)
    requires n < policy.historyLimit && policy.cooldown >= 1
    ensures
      var s := Flooded(policy, n);
      && History(s) == s.log
      && FindKey(s.log, n + 1).None?
      && InCooldown(policy, s.log, 0)
  {
    var s := Flooded(policy, n);
    assert s.log[0] == FirstAttempt() && FirstAttempt() in s.log;
  }

  lemma BeginRefused(policy: Policy, history: seq<Job>, key: nat)
    requires FindKey(history, key).None? && InCooldown(policy, history, 0)
    ensures Begin(policy, None, history, READY, Request(0, key), key, 0) == Refused(RefusedJob(key))
  {
  }

  /** While the attempt is still in the history, a request is refused and pushed. */
  lemma FloodStep(policy: Policy, n: nat)
    requires n < policy.historyLimit && policy.cooldown >= 1
    ensures Enabled(Flooded(policy, n), Flood(n + 1))
    ensures Apply(Flooded(policy, n), Flood(n + 1)) == Flooded(policy, n + 1)
  {
    FloodedHistory(policy, n);
    BeginRefused(policy, Flooded(policy, n).log, n + 1);
    FloodedLog(n);
  }

  lemma FloodedLog(n: nat)
    ensures [FirstAttempt()] + RefusedJobs(n) + [RefusedJob(n + 1)] == [FirstAttempt()] + RefusedJobs(n + 1)
  {
  }

  lemma {:induction false} NoAttempts(policy: Policy, log: seq<Job>, now: u64)
    requires forall j | j in log :: !IsAttempt(j)
    ensures AttemptsInWindow(policy, log, now) == 0 && LatestFinish(log).None?
    decreases |log|
  {
    if log != [] {
      assert log[0] in log;
      NoAttempts(policy, log[1..], now);
    }
  }

  lemma BeginCreated(policy: Policy, history: seq<Job>, key: nat)
    requires FindKey(history, key).None? && policy.maxAttempts >= 1
    requires AttemptsInWindow(policy, history, 0) == 0 && LatestFinish(history).None?
    ensures
      Begin(policy, None, history, READY, Request(0, key), key, 0) ==
      Created(NewJob(READY, Request(0, key), key, 0, Running, Snapshot))
  {
  }

  lemma ForgottenHistory(policy: Policy)
    requires policy.historyLimit >= 1
    ensures History(Flooded(policy, policy.historyLimit)) == RefusedJobs(policy.historyLimit)
  {
  }

  lemma FloodForgets(policy: Policy)
    requires policy.historyLimit >= 1 && policy.maxAttempts >= 1
    ensures
      var n := policy.historyLimit;
      Answer(Flooded(policy, n), Flood(n + 1)) == Created(NewJob(READY, Request(0, n + 1), n + 1, 0, Running, Snapshot))
  {
    var n := policy.historyLimit;
    ForgottenHistory(policy);
    NoAttempts(policy, RefusedJobs(n), 0);
    BeginCreated(policy, RefusedJobs(n), n + 1);
  }

  /** Once `historyLimit` requests were refused the attempt is forgotten and the next start is
      allowed at once, inside the cooldown. */
  lemma FloodBreaks(policy: Policy)
    requires policy.historyLimit >= 1 && policy.cooldown >= 1 && policy.maxAttempts >= 1
    ensures
      var n := policy.historyLimit;
      && Enabled(Flooded(policy, n), Flood(n + 1))
      && !Retained(Flooded(policy, n), 0) && !WithinLimits(Apply(Flooded(policy, n), Flood(n + 1)))
  {
    var n := policy.historyLimit;
    var s := Flooded(policy, n);
    FloodForgets(policy);
    assert s.log[0] == FirstAttempt() && Binding(policy, s.log[0], 0);
    TooClose(policy, Attempts(s.log), Answer(s, Flood(n + 1)).job);
  }

  lemma TooClose(policy: Policy, r: seq<Job>, job: Job)
    requires r != [] && r[0].finished == Some(0) && job.started == 0 && policy.cooldown >= 1
    ensures !Spaced(policy, r + [job])
  {
    var r' := r + [job];
    assert r'[0] == r[0] && r'[|r|] == job;
  }

  function FloodState(policy: Policy, i: nat): State
    requires i <= policy.historyLimit + 3
  {
    var n := policy.historyLimit;
    if i == 0 then Initial(policy)
    else if i == 1 then Apply(Initial(policy), Flood(0))
    else if i <= n + 2 then Flooded(policy, i - 2)
    else Apply(Flooded(policy, n), Flood(n + 1))
  }

  function FloodAt(i: nat): Step {
    if i == 0 then Flood(0) else if i == 1 then Fail(0, 0, CanaryFailed) else Flood(i - 1)
  }

  lemma FloodMovesOn(policy: Policy, i: nat, n: nat)
    requires policy.cooldown >= 1 && i == n + 2 && n < policy.historyLimit
    ensures Enabled(FloodState(policy, i), FloodAt(i))
    ensures Apply(FloodState(policy, i), FloodAt(i)) == FloodState(policy, i + 1)
  {
    FloodStep(policy, n);
    assert FloodState(policy, i) == Flooded(policy, n) && FloodState(policy, i + 1) == Flooded(policy, n + 1);
  }

  lemma FloodMoves(policy: Policy, i: nat)
    requires policy.historyLimit >= 1 && policy.cooldown >= 1 && policy.maxAttempts >= 1
    requires i < policy.historyLimit + 3
    ensures Enabled(FloodState(policy, i), FloodAt(i))
    ensures Apply(FloodState(policy, i), FloodAt(i)) == FloodState(policy, i + 1)
  {
    if i < 2 {
      FloodStart(policy);
    } else if i < policy.historyLimit + 2 {
      FloodMovesOn(policy, i, i - 2);
    } else {
      assert FloodState(policy, i) == Flooded(policy, policy.historyLimit);
    }
  }

  lemma FloodPath(policy: Policy) returns (states: seq<State>, steps: seq<Step>)
    requires policy.historyLimit >= 1 && policy.cooldown >= 1 && policy.maxAttempts >= 1
    ensures |steps| == policy.historyLimit + 3 && Through(states, steps)
    ensures states[0] == FloodState(policy, 0) && states[|steps|] == FloodState(policy, |steps|)
  {
    var n := policy.historyLimit;
    states := seq(n + 4, i requires 0 <= i < n + 4 => FloodState(policy, i));
    steps := seq(n + 3, i requires 0 <= i => FloodAt(i));
    forall i | 0 <= i < n + 3
      ensures Enabled(states[i], steps[i]) && Apply(states[i], steps[i]) == states[i + 1]
    {
      FloodMoves(policy, i);
    }
  }

  /** For every policy with a cooldown there is a run, all at one instant, that breaks the limits:
      `historyLimit` refused requests push the failed attempt out of the history. */
  lemma ForgettingBreaksLimits(policy: Policy) returns (steps: seq<Step>)
    requires policy.historyLimit >= 1 && policy.cooldown >= 1 && policy.maxAttempts >= 1
    ensures |steps| == policy.historyLimit + 3
    ensures Runs(Initial(policy), steps) && !WithinLimits(After(Initial(policy), steps))
  {
    var states: seq<State>;
    states, steps := FloodPath(policy);
    ThroughRuns(states, steps);
    FloodBreaks(policy);
  }

  // ---------- the object ----------

  ghost predicate Matches(service: RecoveryService, s: State)
    reads service
  {
    service.Valid() && service.policy == s.policy && service.active == s.active && service.log == s.log
  }

  /** One step, by the service. */
  method Perform(service: RecoveryService, s: State, step: Step)
    requires Enabled(s, step) && Matches(service, s)
    modifies service
    ensures Matches(service, Apply(s, step))
  {
    match step {
      case BeginAt(gate, request, id, now) => var start := service.BeginAt(gate, request, id, now);
      case SnapshotTaken(id, _, path) => var job := service.MarkSnapshotSucceeded(id, path);
      case Progress(id, _, phase, admission) => var job := service.MarkPhase(id, phase, admission);
      case Succeed(id, now, generation) => var job := service.MarkSucceeded(id, now, generation);
      case Fail(id, now, reason) => var job := service.MarkFailed(id, now, reason);
      case SnapshotFailed(id, now, reason) => var job := service.MarkSnapshotFailed(id, reason, now);
    }
  }

  /** Every run, carried out by the service: it reaches the active job and the history of the
      transition system, so what holds there over whole runs holds of it. */
  method RunService(policy: Policy, steps: seq<Step>) returns (active: Option<Job>, history: seq<Job>)
    requires Runs(Initial(policy.Effective()), steps)
    ensures
      var s := After(Initial(policy.Effective()), steps);
      active == s.active && history == History(s)
  {
    var service := new RecoveryService(policy);
    var s, rest := Initial(policy.Effective()), steps;
    while rest != []
      invariant fresh(service) && Matches(service, s)
      invariant Runs(s, rest) && After(s, rest) == After(Initial(policy.Effective()), steps)
      decreases |rest|
    {
      Perform(service, s, rest[0]);
      s, rest := Apply(s, rest[0]), rest[1..];
    }
    active, history := service.active, service.history;
  }
}
