/**
  * The automatic throughput detector (src/recovery.rs). The specification speaks of the whole
  * stream of events seen so far and of the answers given to them; the class keeps only the three
  * fields of the source.
  */
module RecoveryDetector {
  import opened Wrappers

  /** A floating-point reading: finite, or an infinity or NaN. */
  datatype Reading = Finite(value: real) | NotFinite

  datatype Trigger = FirstTokenTimeout | SlowDecode | Stall | CanaryFailure

  datatype Observation =
    | Idle
    | Active(firstProgress: bool, activeAge: nat, progressAge: Option<nat>, tps: Option<Reading>)

  datatype CanaryReason = Healthy | Deadline | LowDecodeTps | ProgressStall | HttpError

  datatype Event =
    | Observed(now: nat, observation: Observation)
    | Canary(now: nat, reason: CanaryReason)

  datatype Policy = Policy(lowTps: Reading, duration: nat, stall: nat, firstToken: nat) {
    predicate Valid() {
      lowTps.Finite? && lowTps.value >= 0.0 && duration > 0 && stall > 0 && firstToken > 0
    }
  }

  type Answer = Option<Trigger>

  // ---------- what one event says ----------

  predicate Stalled(policy: Policy, o: Observation) {
    o.Active? && o.firstProgress && o.progressAge.Some? && o.progressAge.value >= policy.stall
  }

  predicate Slow(policy: Policy, o: Observation) {
    && o.Active? && o.firstProgress && !Stalled(policy, o)
    && o.tps.Some? && o.tps.value.Finite? && policy.lowTps.Finite?
    && 0.0 <= o.tps.value.value < policy.lowTps.value
  }

  predicate SlowEvent(policy: Policy, e: Event) {
    e.Observed? && Slow(policy, e.observation)
  }

  /** The events that end an incident. */
  predicate Resets(e: Event) {
    (e.Observed? && e.observation.Idle?) || (e.Canary? && e.reason.Healthy?)
  }

  // ---------- what a stream of events says ----------

  /** Running-maximum time after the first `n` events: the clock the detector acts on. */
  function Clock(es: seq<Event>, n: nat): (r: nat)
    requires n <= |es|
  {
    if n == 0 then 0
    else if es[n - 1].now > Clock(es, n - 1) then es[n - 1].now else Clock(es, n - 1)
  }

  ghost predicate SlowFrom(policy: Policy, es: seq<Event>, j: nat, n: nat)
    requires n <= |es|
  {
    forall k | j <= k < n :: SlowEvent(policy, es[k])
  }

  /** Events `j` to `i` are all slow observations and span the sustained duration. */
  ghost predicate SlowSpan(policy: Policy, es: seq<Event>, j: nat, i: nat)
    requires j <= i < |es|
  {
    SlowFrom(policy, es, j, i + 1) && Clock(es, i + 1) - Clock(es, j + 1) >= policy.duration
  }

  /** An unbroken run of slow observations ends with event `i` and spans the sustained duration. */
  ghost predicate SustainedSlow(policy: Policy, es: seq<Event>, i: nat)
    requires i < |es|
  {
    exists j | 0 <= j <= i :: SlowSpan(policy, es, j, i)
  }

  ghost predicate Quiet(es: seq<Event>, from: nat, to: nat)
    requires to <= |es|
  {
    forall k | from <= k < to :: !Resets(es[k])
  }

  /** A trigger was emitted among the first `n` answers and nothing ended that incident since. */
  ghost predicate Incident(es: seq<Event>, answers: seq<Answer>, n: nat)
    requires n <= |es| && n <= |answers|
  {
    exists t | 0 <= t < n :: answers[t].Some? && Quiet(es, t + 1, n)
  }

  /** What event `i` calls for when no incident is active. */
  ghost function Due(policy: Policy, es: seq<Event>, i: nat): Answer
    requires i < |es|
  {
    match es[i]
    case Canary(_, Healthy) => None
    case Canary(_, Deadline) => Some(FirstTokenTimeout)
    case Canary(_, LowDecodeTps) => Some(SlowDecode)
    case Canary(_, ProgressStall) => Some(Stall)
    case Canary(_, HttpError) => Some(CanaryFailure)
    case Observed(_, Idle) => None
    case Observed(_, o) =>
      if !o.firstProgress then (if o.activeAge >= policy.firstToken then Some(FirstTokenTimeout) else None)
      else if Stalled(policy, o) then Some(Stall)
      else if SustainedSlow(policy, es, i) then Some(SlowDecode)
      else None
  }

  ghost predicate AnswerFits(policy: Policy, es: seq<Event>, answers: seq<Answer>, i: nat)
    requires i < |es| && i < |answers|
  {
    answers[i] == if Incident(es, answers, i) then None else Due(policy, es, i)
  }

  /** `answers` are what a one-shot detector gives for the whole stream. */
  ghost predicate Detects(policy: Policy, es: seq<Event>, answers: seq<Answer>) {
    && |answers| == |es|
    && forall i | 0 <= i < |es| :: AnswerFits(policy, es, answers, i)
  }

  // ---------- reading a longer stream ----------

  lemma {:induction false} ClockExtends(es: seq<Event>, more: seq<Event>, n: nat)
    requires n <= |es|
    ensures Clock(es + more, n) == Clock(es, n)
  {
    if n > 0 { ClockExtends(es, more, n - 1); }
  }

  lemma {:induction false} ClockGrows(es: seq<Event>, m: nat, n: nat)
    requires m <= n <= |es|
    ensures Clock(es, m) <= Clock(es, n)
    decreases n
  {
    if m < n { ClockGrows(es, m, n - 1); }
  }

  lemma SlowFromExtends(policy: Policy, es: seq<Event>, more: seq<Event>, j: nat, n: nat)
    requires n <= |es|
    ensures SlowFrom(policy, es + more, j, n) <==> SlowFrom(policy, es, j, n)
  {
    forall k | j <= k < n ensures (es + more)[k] == es[k] {}
  }

  lemma SustainedExtends(policy: Policy, es: seq<Event>, more: seq<Event>, i: nat)
    requires i < |es|
    ensures SustainedSlow(policy, es + more, i) <==> SustainedSlow(policy, es, i)
  {
    forall j | 0 <= j <= i ensures SlowSpan(policy, es + more, j, i) <==> SlowSpan(policy, es, j, i) {
      SlowFromExtends(policy, es, more, j, i + 1);
      ClockExtends(es, more, i + 1);
      ClockExtends(es, more, j + 1);
    }
  }

  lemma IncidentExtends(es: seq<Event>, answers: seq<Answer>, e: Event, a: Answer, n: nat)
    requires n <= |es| == |answers|
    ensures Incident(es + [e], answers + [a], n) <==> Incident(es, answers, n)
  {
    forall t | 0 <= t < n
      ensures (answers + [a])[t] == answers[t] && (Quiet(es + [e], t + 1, n) <==> Quiet(es, t + 1, n))
    {
      forall k | t + 1 <= k < n ensures (es + [e])[k] == es[k] {}
    }
  }

  /** One more event: earlier answers still fit. */
  lemma DetectsExtends(policy: Policy, es: seq<Event>, answers: seq<Answer>, e: Event, a: Answer)
    requires Detects(policy, es, answers)
    requires AnswerFits(policy, es + [e], answers + [a], |es|)
    ensures Detects(policy, es + [e], answers + [a])
  {
    forall i | 0 <= i < |es| ensures AnswerFits(policy, es + [e], answers + [a], i) {
      assert AnswerFits(policy, es, answers, i);
      IncidentExtends(es, answers, e, a, i);
      SustainedExtends(policy, es, [e], i);
    }
  }

  /** How one more event and its answer change whether an incident is active. */
  lemma IncidentAfter(es: seq<Event>, answers: seq<Answer>, e: Event, a: Answer)
    requires |es| == |answers|
    ensures Incident(es + [e], answers + [a], |es| + 1)
      <==> a.Some? || (Incident(es, answers, |es|) && !Resets(e))
  {
    var es', answers', n := es + [e], answers + [a], |es|;
    assert es'[n] == e && answers'[n] == a;
    forall t | 0 <= t < n
      ensures answers'[t] == answers[t]
      ensures Quiet(es', t + 1, n + 1) <==> Quiet(es, t + 1, n) && !Resets(e)
    {
      forall k | t + 1 <= k < n ensures es'[k] == es[k] {}
    }
    assert Quiet(es', n + 1, n + 1);
    if Incident(es, answers, n) && !Resets(e) {
      var t :| 0 <= t < n && answers[t].Some? && Quiet(es, t + 1, n);
      assert answers'[t].Some?;
    }
  }

  /** The run of slow observations that ends with the last of the first `n` events starts at
      `start`: the run is unbroken and cannot be continued backwards. */
  ghost predicate RunStarts(policy: Policy, es: seq<Event>, start: nat, n: nat)
    requires n <= |es|
  {
    && start < n && SlowFrom(policy, es, start, n)
    && (start == 0 || !SlowEvent(policy, es[start - 1]))
  }

  /** `lowSince` is the time of the first observation of the run of slow ones that ends now. */
  ghost predicate LowSinceFits(policy: Policy, es: seq<Event>, lowSince: Option<nat>, start: nat) {
    if lowSince.Some? then RunStarts(policy, es, start, |es|) && lowSince.value == Clock(es, start + 1)
    else es == [] || !SlowEvent(policy, es[|es| - 1])
  }

  /** The longest run decides whether slowness was sustained. */
  lemma SustainedByLongest(policy: Policy, es: seq<Event>, start: nat, i: nat)
    requires i < |es| && RunStarts(policy, es, start, i + 1)
    ensures SustainedSlow(policy, es, i) <==> Clock(es, i + 1) - Clock(es, start + 1) >= policy.duration
  {
    forall j | 0 <= j <= i && SlowSpan(policy, es, j, i) ensures SlowSpan(policy, es, start, i) {
      assert start <= j by {
        assert start == 0 || !SlowEvent(policy, es[start - 1]);
      }
      ClockGrows(es, start + 1, j + 1);
    }
    assert SlowSpan(policy, es, start, i) <==> Clock(es, i + 1) - Clock(es, start + 1) >= policy.duration;
  }

  /** A slow observation continues the run before it or starts a new one. */
  lemma RunGoesOn(policy: Policy, es: seq<Event>, start: nat, e: Event)
    requires SlowEvent(policy, e)
    ensures RunStarts(policy, es, start, |es|) ==>
      RunStarts(policy, es + [e], start, |es| + 1) && Clock(es + [e], start + 1) == Clock(es, start + 1)
    ensures (es == [] || !SlowEvent(policy, es[|es| - 1])) ==> RunStarts(policy, es + [e], |es|, |es| + 1)
  {
    if RunStarts(policy, es, start, |es|) {
      ClockExtends(es, [e], start + 1);
      forall k | start <= k < |es| ensures (es + [e])[k] == es[k] {}
    }
  }

  lemma SustainedNeedsSlow(policy: Policy, es: seq<Event>, i: nat)
    requires i < |es| && SustainedSlow(policy, es, i)
    ensures SlowEvent(policy, es[i])
  {
    var j :| 0 <= j <= i && SlowSpan(policy, es, j, i);
  }

  function SaturatingSub(x: nat, y: nat): nat {
    if x >= y then x - y else 0
  }

  // ---------- the detector ----------

  class RecoveryDetector {
    const policy: Policy
    var lowSince: Option<nat>
    var incident: bool
    var last: nat

    ghost var seen: seq<Event>
    ghost var given: seq<Answer>
    ghost var start: nat

    /** While an incident is active `lowSince` may be stale; nothing reads it then. */
    ghost predicate Valid()
      reads this
    {
      && Detects(policy, seen, given)
      && last == Clock(seen, |seen|)
      && (incident <==> Incident(seen, given, |seen|))
      && (!incident ==> LowSinceFits(policy, seen, lowSince, start))
    }

    constructor (policy: Policy)
      requires policy.Valid()
      ensures Valid() && this.policy == policy && seen == [] && given == []
    {
      this.policy := policy;
      lowSince, incident, last := None, false, 0;
      seen, given, start := [], [], 0;
    }

    method EmitOnce(trigger: Trigger) returns (r: Answer)
      modifies this`incident
      ensures incident && r == if old(incident) then None else Some(trigger)
    {
      if incident { return None; }
      incident := true;
      return Some(trigger);
    }

    method ResetIncident()
      modifies this`lowSince, this`incident
      ensures lowSince == None && !incident
    {
      lowSince, incident := None, false;
    }

    /** Once the fields answer for one more event, so does the invariant. */
    ghost method Record(e: Event, r: Answer, before: bool)
      requires Detects(policy, seen, given) && (before <==> Incident(seen, given, |seen|))
      requires r == if before then None else Due(policy, seen + [e], |seen|)
      requires incident <==> r.Some? || (before && !Resets(e))
      requires last == Clock(seen + [e], |seen| + 1)
      requires !incident ==> LowSinceFits(policy, seen + [e], lowSince, start)
      modifies this`seen, this`given
      ensures Valid() && seen == old(seen) + [e] && given == old(given) + [r]
    {
      IncidentExtends(seen, given, e, r, |seen|);
      IncidentAfter(seen, given, e, r);
      DetectsExtends(policy, seen, given, e, r);
      seen, given := seen + [e], given + [r];
    }

    method Tick(now: nat, ghost e: Event)
      requires e.now == now && last == Clock(seen, |seen|)
      modifies this`last
      ensures last == Clock(seen + [e], |seen| + 1)
    {
      last := if now > last then now else last;
      ClockExtends(seen, [e], |seen|);
    }

    /** The branch of a slow observation. */
    method Slowed(ghost e: Event) returns (r: Answer)
      requires SlowEvent(policy, e) && last == Clock(seen + [e], |seen| + 1)
      requires !incident ==> LowSinceFits(policy, seen, lowSince, start)
      modifies this`lowSince, this`start, this`incident
      ensures r == if !old(incident) && SustainedSlow(policy, seen + [e], |seen|) then Some(SlowDecode) else None
      ensures incident <==> old(incident) || r.Some?
      ensures !incident ==> LowSinceFits(policy, seen + [e], lowSince, start)
    {
      RunGoesOn(policy, seen, start, e);
      if lowSince.None? {
        lowSince := Some(last);
        start := |seen|;
      }
      if !incident {
        SustainedByLongest(policy, seen + [e], start, |seen|);
        ClockGrows(seen + [e], start + 1, |seen| + 1);
      }
      r := None;
      if SaturatingSub(last, lowSince.value) >= policy.duration {
        r := EmitOnce(SlowDecode);
      }
    }

    method ObserveAt(now: nat, observation: Observation) returns (r: Answer)
      requires Valid()
      modifies this
      ensures Valid()
      ensures seen == old(seen) + [Observed(now, observation)] && given == old(given) + [r]
    {
      ghost var e := Observed(now, observation);
      Tick(now, e);
      r := None;
      match observation {
        case Idle =>
          ResetIncident();
        case Active(firstProgress, activeAge, progressAge, tps) =>
          if !firstProgress {
            lowSince := None;
            if activeAge >= policy.firstToken {
              r := EmitOnce(FirstTokenTimeout);
            }
          } else if progressAge.Some? && progressAge.value >= policy.stall {
            r := EmitOnce(Stall);
          } else if tps.Some? && tps.value.Finite? && policy.lowTps.Finite? && 0.0 <= tps.value.value < policy.lowTps.value {
            r := Slowed(e);
          } else {
            lowSince := None;
            if SustainedSlow(policy, seen + [e], |seen|) { SustainedNeedsSlow(policy, seen + [e], |seen|); }
          }
      }
      Record(e, r, old(incident));
    }

    method ObserveCanaryAt(now: nat, reason: CanaryReason) returns (r: Answer)
      requires Valid()
      modifies this
      ensures Valid()
      ensures seen == old(seen) + [Canary(now, reason)] && given == old(given) + [r]
    {
      ghost var e := Canary(now, reason);
      Tick(now, e);
      match reason {
        case Healthy =>
          ResetIncident();
          r := None;
        case Deadline => r := EmitOnce(FirstTokenTimeout);
        case LowDecodeTps => r := EmitOnce(SlowDecode);
        case ProgressStall => r := EmitOnce(Stall);
        case HttpError => r := EmitOnce(CanaryFailure);
      }
      Record(e, r, old(incident));
    }
  }

  /** A detector exists exactly for the policies the source accepts. */
  method New(policy: Policy) returns (detector: RecoveryDetector?)
    ensures detector != null <==> policy.Valid()
    ensures detector != null ==> fresh(detector) && detector.Valid() && detector.policy == policy && detector.seen == []
  {
    if policy.lowTps.Finite? && policy.lowTps.value >= 0.0 && policy.duration > 0 && policy.stall > 0 && policy.firstToken > 0 {
      detector := new RecoveryDetector(policy);
    } else {
      detector := null;
    }
  }

  // ---------- whole runs ----------

  /** Feeding any stream of events to a new detector. */
  method Watch(policy: Policy, es: seq<Event>) returns (answers: seq<Answer>)
    requires policy.Valid()
    ensures Detects(policy, es, answers)
  {
    var detector := new RecoveryDetector(policy);
    answers := [];
    for i := 0 to |es|
      invariant fresh(detector) && detector.Valid() && detector.policy == policy
      invariant detector.seen == es[..i] && detector.given == answers
    {
      var a: Answer;
      match es[i] {
        case Observed(now, observation) => a := detector.ObserveAt(now, observation);
        case Canary(now, reason) => a := detector.ObserveCanaryAt(now, reason);
      }
      assert es[..i] + [es[i]] == es[..i + 1];
      answers := answers + [a];
    }
    assert es[..|es|] == es;
  }

  /** The detector's clock is the latest time reported so far. */
  lemma {:induction false} ClockIsLatest(es: seq<Event>, n: nat)
    requires n <= |es|
    ensures forall k | 0 <= k < n :: es[k].now <= Clock(es, n)
    ensures Clock(es, n) == 0 || exists k | 0 <= k < n :: es[k].now == Clock(es, n)
  {
    if n > 0 {
      ClockIsLatest(es, n - 1);
      if es[n - 1].now <= Clock(es, n - 1) && Clock(es, n) != 0 {
        var k :| 0 <= k < n - 1 && es[k].now == Clock(es, n - 1);
      }
    }
  }

  /** Events `j` to `i` are observations below the limit, with progress and none of them stalled. */
  ghost predicate LowThroughout(policy: Policy, es: seq<Event>, j: nat, i: nat)
    requires i < |es|
  {
    forall k | j <= k <= i ::
      && es[k].Observed? && es[k].observation.Active? && es[k].observation.firstProgress
      && (es[k].observation.progressAge.Some? ==> es[k].observation.progressAge.value < policy.stall)
      && es[k].observation.tps.Some? && es[k].observation.tps.value.Finite? && policy.lowTps.Finite?
      && 0.0 <= es[k].observation.tps.value.value < policy.lowTps.value
  }

  lemma SpanExactly(policy: Policy, es: seq<Event>, j: nat, i: nat)
    requires j <= i < |es|
    ensures SlowSpan(policy, es, j, i) <==>
      LowThroughout(policy, es, j, i) && Clock(es, i + 1) - Clock(es, j + 1) >= policy.duration
  {
    if SlowSpan(policy, es, j, i) {
      assert forall k | j <= k < i + 1 :: SlowEvent(policy, es[k]);
    }
  }

  /** A slow-decode trigger comes from an observation exactly when no incident is active and an
      unbroken run of observations below the limit, none of them stalled, has lasted the sustained
      duration. */
  lemma SlowTriggerExactly(policy: Policy, es: seq<Event>, answers: seq<Answer>, i: nat)
    requires Detects(policy, es, answers) && i < |es| && es[i].Observed?
    ensures answers[i] == Some(SlowDecode) <==>
      && !Incident(es, answers, i)
      && exists j | 0 <= j <= i ::
           LowThroughout(policy, es, j, i) && Clock(es, i + 1) - Clock(es, j + 1) >= policy.duration
  {
    assert AnswerFits(policy, es, answers, i);
    if SustainedSlow(policy, es, i) {
      SustainedNeedsSlow(policy, es, i);
      var j :| 0 <= j <= i && SlowSpan(policy, es, j, i);
      SpanExactly(policy, es, j, i);
    }
    forall j | 0 <= j <= i && LowThroughout(policy, es, j, i) && Clock(es, i + 1) - Clock(es, j + 1) >= policy.duration
      ensures SustainedSlow(policy, es, i)
    {
      SpanExactly(policy, es, j, i);
    }
  }

  /** An observation triggers a first-token timeout exactly when no incident is active and the
      request has waited its whole limit without progress, and a stall exactly when no incident is
      active and progress has stopped for the stall limit; it never triggers a canary failure. */
  lemma WaitTriggersExactly(policy: Policy, es: seq<Event>, answers: seq<Answer>, i: nat)
    requires Detects(policy, es, answers) && i < |es| && es[i].Observed?
    ensures answers[i] == Some(FirstTokenTimeout) <==>
      && !Incident(es, answers, i) && es[i].observation.Active?
      && !es[i].observation.firstProgress && es[i].observation.activeAge >= policy.firstToken
    ensures answers[i] == Some(Stall) <==>
      && !Incident(es, answers, i) && es[i].observation.Active? && es[i].observation.firstProgress
      && es[i].observation.progressAge.Some? && es[i].observation.progressAge.value >= policy.stall
    ensures answers[i] != Some(CanaryFailure)
  {
    assert AnswerFits(policy, es, answers, i);
  }

  /** Each unhealthy canary reason calls for a trigger of its own, unless an incident is active. */
  lemma CanaryTriggersExactly(policy: Policy, es: seq<Event>, answers: seq<Answer>, i: nat)
    requires Detects(policy, es, answers) && i < |es| && es[i].Canary?
    ensures answers[i].None? <==> Incident(es, answers, i) || es[i].reason == Healthy
    ensures !Incident(es, answers, i) ==>
      && (answers[i] == Some(FirstTokenTimeout) <==> es[i].reason == Deadline)
      && (answers[i] == Some(SlowDecode) <==> es[i].reason == LowDecodeTps)
      && (answers[i] == Some(Stall) <==> es[i].reason == ProgressStall)
      && (answers[i] == Some(CanaryFailure) <==> es[i].reason == HttpError)
  {
    assert AnswerFits(policy, es, answers, i);
  }

  /** An incident is active exactly from a trigger to the next idle observation or healthy canary. */
  lemma IncidentExactly(es: seq<Event>, answers: seq<Answer>, n: nat)
    requires n <= |es| && n <= |answers|
    ensures Incident(es, answers, n) <==>
      exists t | 0 <= t < n :: answers[t].Some? &&
        forall k | t < k < n :: es[k] != Observed(es[k].now, Idle) && es[k] != Canary(es[k].now, Healthy)
  {
    forall t | 0 <= t < n && answers[t].Some?
      ensures Quiet(es, t + 1, n) <==>
        forall k | t < k < n :: es[k] != Observed(es[k].now, Idle) && es[k] != Canary(es[k].now, Healthy)
    {
    }
  }

  /** Any two triggers have an idle observation or a healthy canary between them. */
  lemma TriggersAreSeparated(policy: Policy, es: seq<Event>, answers: seq<Answer>, i: nat, j: nat)
    requires Detects(policy, es, answers) && i < j < |es| && answers[i].Some? && answers[j].Some?
    ensures exists k :: i < k < j && (es[k] == Observed(es[k].now, Idle) || es[k] == Canary(es[k].now, Healthy))
  {
    assert AnswerFits(policy, es, answers, j);
    assert !Quiet(es, i + 1, j);
  }

  /** Every trigger lost to an incident belongs to one that was emitted before it and not ended. */
  lemma NoTriggerIsLost(policy: Policy, es: seq<Event>, answers: seq<Answer>, i: nat)
    requires Detects(policy, es, answers) && i < |es| && Due(policy, es, i).Some?
    ensures exists t :: 0 <= t <= i && answers[t].Some? && Quiet(es, t + 1, i + 1)
  {
    assert AnswerFits(policy, es, answers, i);
    if answers[i].Some? {
      assert Quiet(es, i + 1, i + 1);
    } else {
      var t :| 0 <= t < i && answers[t].Some? && Quiet(es, t + 1, i);
      assert !Resets(es[i]);
      assert Quiet(es, t + 1, i + 1);
    }
  }

  /** The specification leaves no choice: it fixes every answer. */
  lemma {:induction false} AnswersAreDetermined(policy: Policy, es: seq<Event>, a: seq<Answer>, b: seq<Answer>, n: nat)
    requires Detects(policy, es, a) && Detects(policy, es, b) && n <= |es|
    ensures a[..n] == b[..n]
  {
    if n > 0 {
      AnswersAreDetermined(policy, es, a, b, n - 1);
      assert AnswerFits(policy, es, a, n - 1) && AnswerFits(policy, es, b, n - 1);
      forall t | 0 <= t < n - 1 ensures a[t] == b[t] {
        assert a[t] == a[..n - 1][t] && b[t] == b[..n - 1][t];
      }
      assert a[n - 1] == b[n - 1];
    }
  }
}
