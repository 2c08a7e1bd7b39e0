/** The recovery job manager: one active job, a bounded history, a cooldown after every attempt and
    a limit on attempts per window. Recovery identifiers and idempotency keys are plain
    identifiers here; the caller supplies the clock. */
module RecoveryService {
  import opened Wrappers

  const U64_MAX: nat := 0xFFFF_FFFF_FFFF_FFFF
  type u64 = x: nat | x <= U64_MAX

  function SaturatingAdd(a: u64, b: u64): u64 {
    if a + b <= U64_MAX then a + b else U64_MAX
  }

  function SaturatingSub(a: u64, b: u64): u64 {
    if a >= b then a - b else 0
  }

  datatype LocalRole = Coordinator | Worker | UnknownRole
  datatype StableMode = SoloStandalone | PairedStandalone | DistributedLayerParallel | DistributedTensorParallel
  /** Only the state in which a recovery may start is told apart. */
  datatype ClusterState = DistributedReady | OtherState

  datatype Gate = Gate(role: LocalRole, mode: StableMode, state: ClusterState, generation: u64)
  datatype Request = Request(trigger: nat, key: nat)
  datatype Policy = Policy(historyLimit: nat, cooldown: u64, window: u64, maxAttempts: nat) {
    /** At least one job is kept. */
    function Effective(): Policy {
      this.(historyLimit := if historyLimit == 0 then 1 else historyLimit)
    }
  }

  datatype JobState = Running | Succeeded | Failed | Suppressed
  datatype Phase =
    | Accepted | Snapshot | AdmissionBlocked | Draining | Demoting | PairedPhase | Promoting
    | PostRecoveryCanary | ServingPhase | CompletedPhase | FailedPhase | SuppressedPhase
  datatype Reason =
    | NotCoordinator | NotDistributedReady | Cooldown | AttemptLimit | SnapshotWrite | UnknownRecoveryId
    | RecoveryOwnerBusy | DrainTimeout | DemotionFailed | PromotionFailed | ChildIdentityMismatch
    | PeerLoss | CanaryFailed

  datatype Job = Job(
    id: nat, state: JobState, phase: Phase, trigger: nat, started: u64, finished: Option<u64>,
    generation: u64, newGeneration: Option<u64>, key: nat, failure: Option<Reason>,
    snapshotPath: Option<string>, admission: Option<string>)

  datatype Start = Created(job: Job) | Existing(job: Job) | Refused(job: Job)

  // ---------- pure parts ----------

  /** A finished attempt: what the limits count. */
  predicate IsAttempt(job: Job) {
    job.state == Succeeded || job.state == Failed
  }

  function GateFailure(gate: Gate): (r: Option<Reason>)
    ensures r == Some(NotCoordinator) <==> gate.role != Coordinator
    ensures r == Some(NotDistributedReady) <==>
      gate.role == Coordinator && (gate.mode != DistributedLayerParallel || gate.state != DistributedReady)
    ensures r == None <==>
      gate.role == Coordinator && gate.mode == DistributedLayerParallel && gate.state == DistributedReady
  {
    if gate.role != Coordinator then Some(NotCoordinator)
    else if gate.mode != DistributedLayerParallel || gate.state != DistributedReady then Some(NotDistributedReady)
    else None
  }

  /** The latest finish among the attempts. */
  function LatestFinish(history: seq<Job>): (r: Option<u64>)
    ensures forall j | j in history && IsAttempt(j) && j.finished.Some? :: r.Some? && j.finished.value <= r.value
    ensures r.Some? ==> exists j :: j in history && IsAttempt(j) && j.finished == r
  {
    if history == [] then None
    else
      var rest := LatestFinish(history[1..]);
      var job := history[0];
      if IsAttempt(job) && job.finished.Some? && (rest.None? || rest.value <= job.finished.value)
      then job.finished else rest
  }

  /** Some attempt in the history finished less than the cooldown ago. */
  ghost predicate CoolingDown(policy: Policy, history: seq<Job>, now: u64) {
    exists j | j in history ::
      && (j.state == Succeeded || j.state == Failed) && j.finished.Some?
      && now < j.finished.value + policy.cooldown && now < U64_MAX
  }

  /** Where in the history the attempts started within the window are. */
  ghost function Recent(policy: Policy, history: seq<Job>, now: u64): set<nat> {
    set i: nat | i < |history| && (history[i].state == Succeeded || history[i].state == Failed)
            && now <= history[i].started + policy.window
  }

  predicate InCooldown(policy: Policy, history: seq<Job>, now: u64) {
    var latest := LatestFinish(history);
    latest.Some? && now < SaturatingAdd(latest.value, policy.cooldown)
  }

  predicate InWindow(policy: Policy, job: Job, now: u64) {
    IsAttempt(job) && SaturatingSub(now, job.started) <= policy.window
  }

  function AttemptsInWindow(policy: Policy, history: seq<Job>, now: u64): nat {
    if history == [] then 0
    else (if InWindow(policy, history[0], now) then 1 else 0) + AttemptsInWindow(policy, history[1..], now)
  }

  lemma InCooldownExactly(policy: Policy, history: seq<Job>, now: u64)
    ensures InCooldown(policy, history, now) <==> CoolingDown(policy, history, now)
  {
  }

  lemma {:induction false} CountSnoc(policy: Policy, history: seq<Job>, job: Job, now: u64)
    ensures
      AttemptsInWindow(policy, history + [job], now) ==
      AttemptsInWindow(policy, history, now) + if InWindow(policy, job, now) then 1 else 0
    decreases |history|
  {
    if history == [] {
      assert history + [job] == [job];
    } else {
      assert (history + [job])[1..] == history[1..] + [job];
      CountSnoc(policy, history[1..], job, now);
    }
  }

  lemma RecentSnoc(policy: Policy, history: seq<Job>, job: Job, now: u64)
    ensures
      Recent(policy, history + [job], now) ==
      Recent(policy, history, now) + (if InWindow(policy, job, now) then {|history|} else {})
  {
    var all := history + [job];
    forall i: nat | i < |history| ensures all[i] == history[i] {}
    assert all[|history|] == job;
  }

  lemma {:induction false} CountIsCardinality(policy: Policy, history: seq<Job>, now: u64)
    ensures AttemptsInWindow(policy, history, now) == |Recent(policy, history, now)|
    decreases |history|
  {
    if history != [] {
      var n := |history| - 1;
      assert history == history[..n] + [history[n]];
      CountIsCardinality(policy, history[..n], now);
      CountSnoc(policy, history[..n], history[n], now);
      RecentSnoc(policy, history[..n], history[n], now);
      assert n !in Recent(policy, history[..n], now);
    }
  }

  /** `job` is the latest of the history with the key. */
  ghost predicate IsLatest(history: seq<Job>, key: nat, job: Job) {
    exists i | 0 <= i < |history| ::
      history[i] == job && job.key == key && forall j | i < j < |history| :: history[j].key != key
  }

  function FindKey(history: seq<Job>, key: nat): (r: Option<Job>)
    ensures r.Some? ==> r.value in history && IsLatest(history, key, r.value)
    ensures r.None? <==> forall i | 0 <= i < |history| :: history[i].key != key
  {
    if history == [] then None
    else
      var last := |history| - 1;
      if history[last].key == key then Some(history[last]) else FindKey(history[..last], key)
  }

  function NewJob(gate: Gate, request: Request, id: nat, now: u64, state: JobState, phase: Phase): Job {
    Job(id, state, phase, request.trigger, now, None, gate.generation, None, request.key, None, None, None)
  }

  predicate Suppresses(reason: Reason) {
    reason.NotCoordinator? || reason.NotDistributedReady? || reason.Cooldown? || reason.AttemptLimit? ||
    reason.UnknownRecoveryId?
  }

  function WithFailure(job: Job, reason: Reason, finished: u64): Job {
    job.(state := if Suppresses(reason) then Suppressed else Failed,
         phase := if Suppresses(reason) then SuppressedPhase else FailedPhase,
         failure := Some(reason), finished := Some(finished))
  }

  /** Why a start is refused, if it is; the first reason counts. */
  function Refusal(policy: Policy, history: seq<Job>, gate: Gate, now: u64): Option<Reason> {
    if GateFailure(gate).Some? then GateFailure(gate)
    else if InCooldown(policy, history, now) then Some(Cooldown)
    else if AttemptsInWindow(policy, history, now) >= policy.maxAttempts then Some(AttemptLimit)
    else None
  }

  /** The last `n` elements. */
  function Latest<T>(s: seq<T>, n: nat): (r: seq<T>)
    ensures |r| == if |s| <= n then |s| else n
  {
    if |s| <= n then s else s[|s| - n..]
  }

  /** What `begin_at` answers. */
  function Begin(policy: Policy, active: Option<Job>, history: seq<Job>, gate: Gate, request: Request, id: nat, now: u64): Start {
    if active.Some? then Existing(active.value)
    else if FindKey(history, request.key).Some? then Existing(FindKey(history, request.key).value)
    else match Refusal(policy, history, gate, now)
      case Some(reason) => Refused(WithFailure(NewJob(gate, request, id, now, Suppressed, SuppressedPhase), reason, now))
      case None => Created(NewJob(gate, request, id, now, Running, Snapshot))
  }

  /** The terminal form of a job. */
  function Terminal(job: Job, finished: u64, state: JobState, phase: Phase, failure: Option<Reason>, generation: Option<u64>): Job {
    job.(state := state, phase := phase, finished := Some(finished), failure := failure, newGeneration := generation)
  }

  // ---------- the service ----------

  class RecoveryService {
    const policy: Policy
    var active: Option<Job>
    var history: seq<Job>
    /** Every job ever pushed to the history. */
    ghost var log: seq<Job>

    ghost predicate Valid()
      reads this
    {
      && policy.historyLimit >= 1
      && history == Latest(log, policy.historyLimit)
      && (active.Some? ==> active.value.state == Running)
    }

    constructor (policy: Policy)
      ensures Valid() && active == None && history == [] && log == []
      ensures this.policy == policy.(historyLimit := if policy.historyLimit == 0 then 1 else policy.historyLimit)
    {
      this.policy := policy.Effective();
      active, history, log := None, [], [];
    }

    /** Append and drop from the front what exceeds the limit. */
    method PushHistory(job: Job)
      requires Valid()
      modifies `history, `log
      ensures Valid() && log == old(log) + [job]
    {
      history := history + [job];
      ghost var whole := history;
      ghost var dropped := 0;
      while |history| > policy.historyLimit
        invariant log == old(log) && dropped <= |whole| && history == whole[dropped..]
        invariant |history| >= policy.historyLimit || dropped == 0
      {
        history := history[1..];
        dropped := dropped + 1;
      }
      LatestSnoc(log, job, policy.historyLimit);
      log := log + [job];
    }

    /** The active job or the latest one with the key if there is one; otherwise a refusal for the
        first of four reasons, which is logged, or a new active job. */
    method BeginAt(gate: Gate, request: Request, id: nat, now: u64) returns (start: Start)
      requires Valid()
      modifies `active, `history, `log
      ensures Valid()
      ensures start == Begin(policy, old(active), old(history), gate, request, id, now)
      ensures active == if start.Created? then Some(start.job) else old(active)
      ensures log == if start.Refused? then old(log) + [start.job] else old(log)
      ensures old(active).Some? ==> start == Existing(old(active).value)
      ensures old(active).None? && (exists j | j in old(history) :: j.key == request.key) ==>
        start.Existing? && IsLatest(old(history), request.key, start.job)
      ensures old(active).None? && (forall j | j in old(history) :: j.key != request.key) ==>
        if gate.role != Coordinator then
          start == Refused(Job(id, Suppressed, SuppressedPhase, request.trigger, now, Some(now), gate.generation, None,
                               request.key, Some(NotCoordinator), None, None))
        else if gate.mode != DistributedLayerParallel || gate.state != DistributedReady then
          start == Refused(Job(id, Suppressed, SuppressedPhase, request.trigger, now, Some(now), gate.generation, None,
                               request.key, Some(NotDistributedReady), None, None))
        else if CoolingDown(policy, old(history), now) then
          start == Refused(Job(id, Suppressed, SuppressedPhase, request.trigger, now, Some(now), gate.generation, None,
                               request.key, Some(Cooldown), None, None))
        else if |Recent(policy, old(history), now)| >= policy.maxAttempts then
          start == Refused(Job(id, Suppressed, SuppressedPhase, request.trigger, now, Some(now), gate.generation, None,
                               request.key, Some(AttemptLimit), None, None))
        else
          start == Created(Job(id, Running, Snapshot, request.trigger, now, None, gate.generation, None,
                               request.key, None, None, None))
    {
      InCooldownExactly(policy, history, now);
      CountIsCardinality(policy, history, now);
      if active.Some? {
        return Existing(active.value);
      }
      var existing := FindKey(history, request.key);
      if existing.Some? {
        return Existing(existing.value);
      }
      var refusal := Refusal(policy, history, gate, now);
      if refusal.Some? {
        var job := WithFailure(NewJob(gate, request, id, now, Suppressed, SuppressedPhase), refusal.value, now);
        PushHistory(job);
        return Refused(job);
      }
      var job := NewJob(gate, request, id, now, Running, Snapshot);
      active := Some(job);
      start := Created(job);
    }

    method MarkSnapshotSucceeded(id: nat, path: string) returns (job: Option<Job>)
      requires Valid()
      modifies `active
      ensures Valid()
      ensures job == if old(active).Some? && old(active).value.id == id
                     then Some(old(active).value.(snapshotPath := Some(path))) else None
      ensures active == if job.Some? then job else old(active)
    {
      if active.None? || active.value.id != id {
        return None;
      }
      active := Some(active.value.(snapshotPath := Some(path)));
      job := active;
    }

    method MarkPhase(id: nat, phase: Phase, admission: Option<string>) returns (job: Option<Job>)
      requires Valid()
      modifies `active
      ensures Valid()
      ensures job == if old(active).Some? && old(active).value.id == id
                     then Some(old(active).value.(phase := phase, admission := admission)) else None
      ensures active == if job.Some? then job else old(active)
    {
      if active.None? || active.value.id != id {
        return None;
      }
      active := Some(active.value.(phase := phase, admission := admission));
      job := active;
    }

    /** Some reasons only suppress the job; any other makes it a failed attempt. */
    method MarkSnapshotFailed(id: nat, reason: Reason, finished: u64) returns (job: Option<Job>)
      requires Valid()
      modifies `active, `history, `log
      ensures Valid()
      ensures job.Some? <==> old(active).Some? && old(active).value.id == id
      ensures job.Some? ==>
        var a := old(active).value;
        job.value == if reason in {NotCoordinator, NotDistributedReady, Cooldown, AttemptLimit, UnknownRecoveryId}
          then Job(a.id, Suppressed, SuppressedPhase, a.trigger, a.started, Some(finished), a.generation, a.newGeneration,
                   a.key, Some(reason), a.snapshotPath, a.admission)
          else Job(a.id, Failed, FailedPhase, a.trigger, a.started, Some(finished), a.generation, a.newGeneration,
                   a.key, Some(reason), a.snapshotPath, a.admission)
      ensures job.Some? ==> active == None && log == old(log) + [job.value]
      ensures job.None? ==> active == old(active) && log == old(log)
    {
      if active.None? || active.value.id != id {
        return None;
      }
      var ended := WithFailure(active.value, reason, finished);
      active := None;
      PushHistory(ended);
      job := Some(ended);
    }

    method MarkSucceeded(id: nat, finished: u64, generation: u64) returns (job: Option<Job>)
      requires Valid()
      modifies `active, `history, `log
      ensures Valid()
      ensures job.Some? <==> old(active).Some? && old(active).value.id == id
      ensures job.Some? ==>
        var a := old(active).value;
        job.value == Job(a.id, Succeeded, CompletedPhase, a.trigger, a.started, Some(finished), a.generation, Some(generation),
            a.key, None, a.snapshotPath, a.admission)
      ensures job.Some? ==> active == None && log == old(log) + [job.value]
      ensures job.None? ==> active == old(active) && log == old(log)
    {
      job := MarkTerminal(id, finished, Succeeded, CompletedPhase, None, Some(generation));
    }

    method MarkFailed(id: nat, finished: u64, reason: Reason) returns (job: Option<Job>)
      requires Valid()
      modifies `active, `history, `log
      ensures Valid()
      ensures job.Some? <==> old(active).Some? && old(active).value.id == id
      ensures job.Some? ==>
        var a := old(active).value;
        job.value == Job(a.id, Failed, FailedPhase, a.trigger, a.started, Some(finished), a.generation, None,
            a.key, Some(reason), a.snapshotPath, a.admission)
      ensures job.Some? ==> active == None && log == old(log) + [job.value]
      ensures job.None? ==> active == old(active) && log == old(log)
    {
      job := MarkTerminal(id, finished, Failed, FailedPhase, Some(reason), None);
    }

    method MarkTerminal(
      id: nat, finished: u64, state: JobState, phase: Phase, failure: Option<Reason>, generation: Option<u64>)
      returns (job: Option<Job>)
      requires Valid()
      modifies `active, `history, `log
      ensures Valid()
      ensures job.Some? <==> old(active).Some? && old(active).value.id == id
      ensures job.Some? ==>
        var a := old(active).value;
        job.value == Job(a.id, state, phase, a.trigger, a.started, Some(finished), a.generation, generation,
                         a.key, failure, a.snapshotPath, a.admission)
      ensures job.Some? ==> active == None && log == old(log) + [job.value]
      ensures job.None? ==> active == old(active) && log == old(log)
    {
      if active.None? || active.value.id != id {
        return None;
      }
      var ended := Terminal(active.value, finished, state, phase, failure, generation);
      active := None;
      PushHistory(ended);
      job := Some(ended);
    }
  }

  /** Dropping from the front keeps the latest jobs. */
  lemma LatestSnoc(log: seq<Job>, job: Job, n: nat)
    requires n >= 1
    ensures Latest(log + [job], n) == Latest(Latest(log, n) + [job], n)
  {
  }
}
