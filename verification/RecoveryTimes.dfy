/** The rate limits in terms of when the service was called: which calls started a recovery, which
    ended one, and how far apart they are. */
module RecoveryTimes {
  import opened Wrappers
  import opened RecoveryService
  import opened RecoveryLimits

  // ---------- states along a run ----------

  ghost function StateAt(s: State, steps: seq<Step>, i: nat): State
    requires Runs(s, steps) && i <= |steps|
    decreases i
  {
    if i == 0 then s else StateAt(Apply(s, steps[0]), steps[1..], i - 1)
  }

  lemma {:induction false} StateNext(s: State, steps: seq<Step>, i: nat)
    requires Runs(s, steps) && i < |steps|
    ensures Enabled(StateAt(s, steps, i), steps[i])
    ensures StateAt(s, steps, i + 1) == Apply(StateAt(s, steps, i), steps[i])
    decreases i
  {
    if i > 0 {
      StateNext(Apply(s, steps[0]), steps[1..], i - 1);
    }
  }

  lemma {:induction false} StateAtEnd(s: State, steps: seq<Step>)
    requires Runs(s, steps)
    ensures StateAt(s, steps, |steps|) == After(s, steps)
    decreases |steps|
  {
    if steps != [] {
      StateAtEnd(Apply(s, steps[0]), steps[1..]);
    }
  }

  /** Step `i` leaves a recovery active where there was none. */
  ghost predicate StartsAt(s: State, steps: seq<Step>, i: nat)
    requires Runs(s, steps) && i < |steps|
  {
    StateAt(s, steps, i).active.None? && StateAt(s, steps, i + 1).active.Some?
  }

  /** Step `i` leaves none active where there was one. */
  ghost predicate EndsAt(s: State, steps: seq<Step>, i: nat)
    requires Runs(s, steps) && i < |steps|
  {
    StateAt(s, steps, i).active.Some? && StateAt(s, steps, i + 1).active.None?
  }

  function Also(times: seq<u64>, more: bool, now: u64): seq<u64> {
    if more then times + [now] else times
  }

  /** When the recoveries among the first `n` steps were started. */
  ghost function StartTimes(s: State, steps: seq<Step>, n: nat): seq<u64>
    requires Runs(s, steps) && n <= |steps|
  {
    if n == 0 then [] else Also(StartTimes(s, steps, n - 1), StartsAt(s, steps, n - 1), steps[n - 1].now)
  }

  /** When those that have ended did. */
  ghost function EndTimes(s: State, steps: seq<Step>, n: nat): seq<u64>
    requires Runs(s, steps) && n <= |steps|
  {
    if n == 0 then [] else Also(EndTimes(s, steps, n - 1), EndsAt(s, steps, n - 1), steps[n - 1].now)
  }

  // ---------- what the log records ----------

  function StartsOf(r: seq<Job>): (t: seq<u64>)
    ensures |t| == |r|
  {
    seq(|r|, i requires 0 <= i < |r| => r[i].started)
  }

  function FinishOf(job: Job): u64 {
    if job.finished.Some? then job.finished.value else 0
  }

  function EndsOf(r: seq<Job>): (t: seq<u64>)
    ensures |t| == |r|
  {
    seq(|r|, i requires 0 <= i < |r| => FinishOf(r[i]))
  }

  /** The service records when recoveries were started and ended. */
  ghost predicate Recorded(s: State, starts: seq<u64>, ends: seq<u64>) {
    StartsOf(Recoveries(s)) == starts && EndsOf(Attempts(s.log)) == ends
  }

  lemma StartsSnoc(r: seq<Job>, job: Job)
    ensures StartsOf(r + [job]) == StartsOf(r) + [job.started]
    ensures EndsOf(r + [job]) == EndsOf(r) + [FinishOf(job)]
  {
  }

  /** A step that starts a recovery records when it was made. */
  lemma StartShape(s: State, step: Step)
    requires Enabled(s, step) && s.active.None? && Apply(s, step).active.Some?
    ensures Apply(s, step).log == s.log && Apply(s, step).active.value.started == step.now
  {
    assert step.BeginAt?;
    assert Answer(s, step).Created?;
  }

  /** A step that ends one logs it, with its start and the time of the step. */
  lemma EndShape(s: State, step: Step)
    requires Enabled(s, step) && s.active.Some? && Apply(s, step).active.None?
    ensures
      var job := Marked(s.active.value, step);
      && Apply(s, step).log == s.log + [job] && IsAttempt(job)
      && job.started == s.active.value.started && job.finished == Some(step.now)
  {
    assert !step.BeginAt?;
  }

  lemma RecordsStart(s: State, s': State, now: u64, starts: seq<u64>, ends: seq<u64>)
    requires Recorded(s, starts, ends) && s.active.None? && s'.active.Some?
    requires s'.log == s.log && s'.active.value.started == now
    ensures Recorded(s', starts + [now], ends)
  {
    var a := Attempts(s.log);
    StartsSnoc(a, s'.active.value);
    assert a + [] == a;
  }

  lemma RecordsEnd(s: State, s': State, job: Job, now: u64, starts: seq<u64>, ends: seq<u64>)
    requires Recorded(s, starts, ends) && s.active.Some? && s'.active.None?
    requires s'.log == s.log + [job] && IsAttempt(job)
    requires job.started == s.active.value.started && job.finished == Some(now)
    ensures Recorded(s', starts, ends + [now])
  {
    var a := Attempts(s.log);
    AttemptsSnoc(s.log, job);
    StartsSnoc(a, job);
    StartsSnoc(a, s.active.value);
    assert a + [job] + [] == a + [job];
  }

  /** Any other step leaves the attempts and the start of the active recovery alone. */
  lemma OtherShape(s: State, step: Step)
    requires Enabled(s, step) && s.active.Some? == Apply(s, step).active.Some?
    ensures
      var s' := Apply(s, step);
      && Attempts(s'.log) == Attempts(s.log)
      && (s.active.Some? ==> s'.active.value.started == s.active.value.started)
  {
    if step.BeginAt? && Answer(s, step).Refused? {
      AttemptsSnoc(s.log, Answer(s, step).job);
      assert Attempts(s.log) + [] == Attempts(s.log);
    }
  }

  lemma RecordsNothing(s: State, s': State, starts: seq<u64>, ends: seq<u64>)
    requires Recorded(s, starts, ends) && Attempts(s'.log) == Attempts(s.log)
    requires s.active.Some? == s'.active.Some? && (s.active.Some? ==> s'.active.value.started == s.active.value.started)
    ensures Recorded(s', starts, ends)
  {
    var a := Attempts(s.log);
    if s.active.Some? {
      StartsSnoc(a, s.active.value);
      StartsSnoc(a, s'.active.value);
    }
  }

  lemma RecordsStep(s: State, step: Step, s': State, starts: seq<u64>, ends: seq<u64>)
    requires Enabled(s, step) && Ordered(s) && Recorded(s, starts, ends) && s' == Apply(s, step)
    ensures Ordered(s')
    ensures
      Recorded(s', Also(starts, s.active.None? && s'.active.Some?, step.now),
               Also(ends, s.active.Some? && s'.active.None?, step.now))
  {
    OrderedNext(s, step);
    if s.active.None? && s'.active.Some? {
      StartShape(s, step);
      RecordsStart(s, s', step.now, starts, ends);
    } else if s.active.Some? && s'.active.None? {
      EndShape(s, step);
      RecordsEnd(s, s', Marked(s.active.value, step), step.now, starts, ends);
    } else {
      OtherShape(s, step);
      RecordsNothing(s, s', starts, ends);
    }
  }

  /** At every point of a run the log tells when recoveries were started and ended. */
  lemma {:induction false} RunRecords(s: State, steps: seq<Step>, n: nat)
    requires Runs(s, steps) && n <= |steps| && Ordered(s) && Recorded(s, [], [])
    ensures Ordered(StateAt(s, steps, n))
    ensures Recorded(StateAt(s, steps, n), StartTimes(s, steps, n), EndTimes(s, steps, n))
    decreases n
  {
    if n > 0 {
      RunRecords(s, steps, n - 1);
      StateNext(s, steps, n - 1);
      RecordsStep(StateAt(s, steps, n - 1), steps[n - 1], StateAt(s, steps, n),
                  StartTimes(s, steps, n - 1), EndTimes(s, steps, n - 1));
    }
  }

  // ---------- the limits ----------

  /** Any `maxAttempts + 1` starts span strictly more than the window, and after each end every
      later start is at least the cooldown away. */
  ghost predicate Apart(policy: Policy, starts: seq<u64>, ends: seq<u64>) {
    && (forall i | 0 <= i && i + policy.maxAttempts < |starts| ::
          starts[i + policy.maxAttempts] > starts[i] + policy.window)
    && (forall i, j | 0 <= i < |ends| && i < j < |starts| :: starts[j] >= ends[i] + policy.cooldown)
  }

  lemma ApartIsWithinLimits(s: State, starts: seq<u64>, ends: seq<u64>)
    requires Ordered(s) && Recorded(s, starts, ends)
    ensures Apart(s.policy, starts, ends) <==> WithinLimits(s)
  {
    var r, a, m := Recoveries(s), Attempts(s.log), s.policy.maxAttempts;
    forall i | 0 <= i < |r| ensures starts[i] == r[i].started {
      assert StartsOf(r)[i] == r[i].started;
    }
    forall i | 0 <= i < |a| ensures r[i] == a[i] && r[i].finished == Some(ends[i]) {
      assert EndsOf(a)[i] == FinishOf(a[i]);
    }
    forall i | |a| <= i < |r| ensures r[i].finished.None? {
      assert i == |a| && r[i] == s.active.value;
    }
    if Apart(s.policy, starts, ends) {
      forall i | 0 <= i && i + m < |r| ensures r[i + m].started > r[i].started + s.policy.window {
        assert starts[i + m] > starts[i] + s.policy.window;
      }
    }
    if WithinLimits(s) {
      forall i | 0 <= i && i + m < |starts| ensures starts[i + m] > starts[i] + s.policy.window {
        assert r[i + m].started > r[i].started + s.policy.window;
      }
    }
  }

  lemma {:induction false} PolicyStays(s: State, steps: seq<Step>, n: nat)
    requires Runs(s, steps) && n <= |steps|
    ensures StateAt(s, steps, n).policy == s.policy
    decreases n
  {
    if n > 0 {
      PolicyStays(s, steps, n - 1);
      StateNext(s, steps, n - 1);
    }
  }

  /** For every policy and every run away from the end of time: the calls that start and end
      recoveries keep the window and the cooldown if and only if every start would also have been
      allowed by a history that keeps every job. */
  lemma CallsApartExactly(policy: Policy, steps: seq<Step>)
    requires Runs(Initial(policy), steps) && Unsaturated(steps)
    ensures
      Apart(policy, StartTimes(Initial(policy), steps, |steps|), EndTimes(Initial(policy), steps, |steps|)) <==>
      LogAllowsAll(Initial(policy), steps)
  {
    var s := Initial(policy);
    RunRecords(s, steps, |steps|);
    StateAtEnd(s, steps);
    PolicyStays(s, steps, |steps|);
    ApartIsWithinLimits(After(s, steps), StartTimes(s, steps, |steps|), EndTimes(s, steps, |steps|));
    LimitsHoldExactly(policy, steps);
  }

  /** So they do in every run in which no attempt that still bears on a start was pushed out of the
      bounded history. */
  lemma CallsApart(policy: Policy, steps: seq<Step>)
    requires Runs(Initial(policy), steps) && Unsaturated(steps) && NeverForgets(Initial(policy), steps)
    ensures
      Apart(policy, StartTimes(Initial(policy), steps, |steps|), EndTimes(Initial(policy), steps, |steps|))
  {
    NeverForgetsAllows(Initial(policy), steps);
    CallsApartExactly(policy, steps);
  }

  // ---------- two calls ----------

  lemma {:induction false} TimesGrow(s: State, steps: seq<Step>, m: nat, n: nat)
    requires Runs(s, steps) && m <= n <= |steps|
    ensures StartTimes(s, steps, m) <= StartTimes(s, steps, n)
    ensures EndTimes(s, steps, m) <= EndTimes(s, steps, n)
    decreases n
  {
    if m < n { TimesGrow(s, steps, m, n - 1); }
  }

  lemma EndsThen(s: State, steps: seq<Step>, j: nat, n: nat)
    requires Runs(s, steps) && j < n <= |steps| && EndsAt(s, steps, j)
    ensures |EndTimes(s, steps, j)| < |EndTimes(s, steps, n)|
    ensures EndTimes(s, steps, n)[|EndTimes(s, steps, j)|] == steps[j].now
  {
    TimesGrow(s, steps, j + 1, n);
    assert EndTimes(s, steps, j + 1) == EndTimes(s, steps, j) + [steps[j].now];
  }

  lemma StartsThen(s: State, steps: seq<Step>, i: nat, n: nat)
    requires Runs(s, steps) && i < n <= |steps| && StartsAt(s, steps, i)
    ensures |StartTimes(s, steps, i)| < |StartTimes(s, steps, n)|
    ensures StartTimes(s, steps, n)[|StartTimes(s, steps, i)|] == steps[i].now
  {
    TimesGrow(s, steps, i + 1, n);
    assert StartTimes(s, steps, i + 1) == StartTimes(s, steps, i) + [steps[i].now];
  }

  lemma EveryStartEnded(s: State, starts: seq<u64>, ends: seq<u64>)
    requires Recorded(s, starts, ends) && s.active.None?
    ensures |starts| == |ends|
  {
  }

  /** A start that comes after an end comes at least the cooldown after it. */
  lemma CooldownBetweenCalls(policy: Policy, steps: seq<Step>, j: nat, i: nat)
    requires Runs(Initial(policy), steps) && j < i < |steps|
    requires EndsAt(Initial(policy), steps, j) && StartsAt(Initial(policy), steps, i)
    requires Apart(policy, StartTimes(Initial(policy), steps, |steps|), EndTimes(Initial(policy), steps, |steps|))
    ensures steps[i].now >= steps[j].now + policy.cooldown
  {
    var s, n := Initial(policy), |steps|;
    EndsThen(s, steps, j, i);
    EndsThen(s, steps, j, n);
    StartsThen(s, steps, i, n);
    RunRecords(s, steps, i);
    EveryStartEnded(StateAt(s, steps, i), StartTimes(s, steps, i), EndTimes(s, steps, i));
  }
}
