/**
  * Tracking manager jobs from polls that may arrive late or out of order
  * (monitor/src/jobs.rs).
  */
module JobTracker {
  datatype Phase = Running | Succeeded | Failed | Cancelling | Unknown

  /** A job as a poll reports it. */
  datatype Job = Job(id: string, kind: string, progress: nat, phase: string, updatedAt: nat, cancel: bool)

  /** A job as it is shown. */
  datatype View = View(id: string, kind: string, phase: Phase, progress: nat, updatedAt: nat, cancel: bool, terminal: bool)

  function FromWire(value: string): Phase {
    if value == "running" then Running
    else if value == "succeeded" then Succeeded
    else if value == "failed" then Failed
    else if value == "cancelling" then Cancelling
    else Unknown
  }

  predicate IsTerminal(phase: Phase) {
    !phase.Running?
  }

  function FromJob(job: Job): View {
    var phase := FromWire(job.phase);
    View(job.id, job.kind, phase, job.progress, job.updatedAt, job.cancel, IsTerminal(phase))
  }

  // ---------- what a stream of reports shows ----------

  /** A job reported by a poll, or the loss of the connection. */
  datatype Event = Reported(job: Job) | Lost

  predicate Reports(e: Event, id: string) {
    e.Reported? && e.job.id == id
  }

  /** Report `k` of the job is the newest; of equally new ones the last to arrive counts. */
  ghost predicate Newest(es: seq<Event>, id: string, k: nat) {
    && k < |es| && Reports(es[k], id)
    && forall j | 0 <= j < |es| && Reports(es[j], id) :: NotNewer(es, j, k)
  }

  predicate NotNewer(es: seq<Event>, j: nat, k: nat)
    requires j < |es| && k < |es| && es[j].Reported? && es[k].Reported?
  {
    es[j].job.updatedAt < es[k].job.updatedAt || (es[j].job.updatedAt == es[k].job.updatedAt && j <= k)
  }

  predicate LostSince(es: seq<Event>, k: nat) {
    exists i | 0 <= i < |es| :: k < i && es[i].Lost?
  }

  /** The newest report, unknown if the job was running and the connection was lost since. */
  ghost function Shown(es: seq<Event>, k: nat): View
    requires k < |es| && es[k].Reported?
  {
    var view := FromJob(es[k].job);
    if LostSince(es, k) && !view.terminal then view.(phase := Unknown, terminal := true) else view
  }

  ghost predicate IsReported(es: seq<Event>, id: string) {
    exists k | 0 <= k < |es| :: Reports(es[k], id)
  }

  /** `view` is what the reports so far show for the job. */
  ghost predicate Shows(es: seq<Event>, id: string, view: View) {
    exists k: nat :: Newest(es, id, k) && view == Shown(es, k)
  }

  /** `jobs` is what the reports so far show: exactly the reported jobs, each by its newest report. */
  ghost predicate ShowsAll(es: seq<Event>, jobs: map<string, View>) {
    && (forall id :: id in jobs <==> IsReported(es, id))
    && (forall id | id in jobs :: Shows(es, id, jobs[id]))
  }

  lemma NewestIsUnique(es: seq<Event>, id: string, j: nat, k: nat)
    requires Newest(es, id, j) && Newest(es, id, k)
    ensures j == k
  {
    assert NotNewer(es, j, k) && NotNewer(es, k, j);
  }

  // ---------- one more event ----------

  lemma ReportedNext(es: seq<Event>, e: Event, id: string)
    ensures IsReported(es + [e], id) <==> IsReported(es, id) || Reports(e, id)
  {
    if IsReported(es, id) {
      var k :| 0 <= k < |es| && Reports(es[k], id);
      assert (es + [e])[k] == es[k];
    }
    assert (es + [e])[|es|] == e;
  }

  /** A report that is not older than the newest one takes its place. */
  lemma Replaces(es: seq<Event>, job: Job)
    requires forall k: nat | Newest(es, job.id, k) :: es[k].job.updatedAt <= job.updatedAt
    requires IsReported(es, job.id) ==> exists k: nat :: Newest(es, job.id, k)
    ensures Shows(es + [Reported(job)], job.id, FromJob(job))
  {
    var es', n := es + [Reported(job)], |es|;
    assert es'[n] == Reported(job);
    forall j | 0 <= j < |es'| && Reports(es'[j], job.id) ensures NotNewer(es', j, n) {
      if j < n {
        assert Reports(es[j], job.id);
        var k: nat :| Newest(es, job.id, k);
        assert NotNewer(es, j, k);
      }
    }
    assert Newest(es', job.id, n) && !LostSince(es', n);
  }

  /** An older report, or one of another job, changes nothing. */
  lemma Stays(es: seq<Event>, job: Job, id: string, view: View)
    requires Shows(es, id, view) && (job.id == id ==> job.updatedAt < view.updatedAt)
    ensures Shows(es + [Reported(job)], id, view)
  {
    var es' := es + [Reported(job)];
    var k: nat :| Newest(es, id, k) && view == Shown(es, k);
    forall j | 0 <= j < |es| ensures es'[j] == es[j] {}
    forall j | 0 <= j < |es'| && Reports(es'[j], id) ensures NotNewer(es', j, k) {
      if j < |es| { assert Reports(es[j], id) && NotNewer(es, j, k); }
    }
    assert Newest(es', id, k);
    assert LostSince(es', k) <==> LostSince(es, k);
  }

  function Disconnected(view: View): View {
    if view.terminal then view else view.(phase := Unknown, terminal := true)
  }

  lemma Disconnects(es: seq<Event>, id: string, view: View)
    requires Shows(es, id, view)
    ensures Shows(es + [Lost], id, Disconnected(view))
  {
    var es' := es + [Lost];
    var k: nat :| Newest(es, id, k) && view == Shown(es, k);
    forall j | 0 <= j < |es| ensures es'[j] == es[j] {}
    forall j | 0 <= j < |es'| && Reports(es'[j], id) ensures NotNewer(es', j, k) {
      assert Reports(es[j], id) && NotNewer(es, j, k);
    }
    assert es'[|es|].Lost?;
    assert Newest(es', id, k) && LostSince(es', k);
  }

  // ---------- the tracker ----------

  function Updated(jobs: map<string, View>, job: Job): map<string, View> {
    if job.id !in jobs || job.updatedAt >= jobs[job.id].updatedAt then jobs[job.id := FromJob(job)] else jobs
  }

  lemma UpdateShows(es: seq<Event>, jobs: map<string, View>, job: Job)
    requires ShowsAll(es, jobs)
    ensures ShowsAll(es + [Reported(job)], Updated(jobs, job))
  {
    var es', jobs' := es + [Reported(job)], Updated(jobs, job);
    forall id ensures id in jobs' <==> IsReported(es', id) {
      ReportedNext(es, Reported(job), id);
      assert id in jobs <==> IsReported(es, id);
    }
    forall id | id in jobs' ensures Shows(es', id, jobs'[id]) {
      if id == job.id && jobs' == jobs[job.id := FromJob(job)] {
        assert id in jobs <==> IsReported(es, id);
        assert id in jobs ==> Shows(es, id, jobs[id]);
        forall k: nat | Newest(es, id, k) ensures es[k].job.updatedAt <= job.updatedAt {
          assert Reports(es[k], id);
          var n: nat :| Newest(es, id, n) && jobs[id] == Shown(es, n);
          NewestIsUnique(es, id, n, k);
        }
        Replaces(es, job);
      } else {
        assert Shows(es, id, jobs[id]);
        Stays(es, job, id, jobs[id]);
      }
    }
  }

  lemma DisconnectShows(es: seq<Event>, before: map<string, View>, after: map<string, View>)
    requires ShowsAll(es, before) && after.Keys == before.Keys
    requires forall id | id in before :: after[id] == Disconnected(before[id])
    ensures ShowsAll(es + [Lost], after)
  {
    forall id ensures id in after <==> IsReported(es + [Lost], id) {
      ReportedNext(es, Lost, id);
      assert id in before <==> IsReported(es, id);
      assert id in after <==> id in after.Keys;
    }
    forall id | id in after ensures Shows(es + [Lost], id, after[id]) {
      assert id in before.Keys && Shows(es, id, before[id]);
      Disconnects(es, id, before[id]);
    }
  }

  /** The views of all jobs but those in `left` are marked. */
  ghost predicate PartlyDisconnected(before: map<string, View>, jobs: map<string, View>, left: set<string>) {
    && left <= jobs.Keys == before.Keys
    && forall id | id in jobs :: jobs[id] == if id in left then before[id] else Disconnected(before[id])
  }

  lemma MarkOne(before: map<string, View>, jobs: map<string, View>, left: set<string>, id: string)
    requires PartlyDisconnected(before, jobs, left) && id in left
    ensures id in jobs
    ensures PartlyDisconnected(before, if jobs[id].terminal then jobs else jobs[id := Disconnected(jobs[id])], left - {id})
  {
    var jobs' := jobs[id := Disconnected(jobs[id])];
    assert jobs'.Keys == jobs.Keys;
  }

  function AsEvents(jobs: seq<Job>): (es: seq<Event>)
    ensures |es| == |jobs|
  {
    if jobs == [] then [] else AsEvents(jobs[..|jobs| - 1]) + [Reported(jobs[|jobs| - 1])]
  }

  class JobTracker {
    var jobs: map<string, View>
    var managerSupported: bool
    ghost var seen: seq<Event>

    ghost predicate Valid()
      reads this
    {
      ShowsAll(seen, jobs)
    }

    constructor ()
      ensures Valid() && jobs == map[] && seen == [] && managerSupported
    {
      jobs, managerSupported, seen := map[], true, [];
    }

    /** One job of a poll. */
    method Receive(job: Job)
      requires Valid()
      modifies this
      ensures Valid() && managerSupported == old(managerSupported) && seen == old(seen) + [Reported(job)]
    {
      UpdateShows(seen, jobs, job);
      var incoming := FromJob(job);
      var replace := incoming.id !in jobs || incoming.updatedAt >= jobs[incoming.id].updatedAt;
      if replace {
        jobs := jobs[incoming.id := incoming];
      }
      seen := seen + [Reported(job)];
    }

    method Apply(status: seq<Job>)
      requires Valid()
      modifies this
      ensures Valid() && managerSupported && seen == old(seen) + AsEvents(status)
    {
      managerSupported := true;
      for i := 0 to |status|
        invariant Valid() && managerSupported && seen == old(seen) + AsEvents(status[..i])
      {
        Receive(status[i]);
        assert status[..i + 1][..i] == status[..i];
      }
      assert status[..|status|] == status;
    }

    method MarkView(id: string, ghost before: map<string, View>, ghost left: set<string>)
      requires PartlyDisconnected(before, jobs, left) && id in left
      modifies `jobs
      ensures PartlyDisconnected(before, jobs, left - {id})
    {
      MarkOne(before, jobs, left, id);
      var view := jobs[id];
      if !view.terminal {
        jobs := jobs[id := view.(phase := Unknown, terminal := true)];
      }
    }

    method MarkAll()
      modifies `jobs
      ensures PartlyDisconnected(old(jobs), jobs, {})
    {
      ghost var before := jobs;
      var left := jobs.Keys;
      while left != {}
        invariant PartlyDisconnected(before, jobs, left)
        decreases |left|
      {
        var id :| id in left;
        MarkView(id, before, left);
        left := left - {id};
      }
    }

    method MarkDisconnected()
      requires Valid()
      modifies `jobs, `seen
      ensures Valid() && seen == old(seen) + [Lost]
    {
      MarkAll();
      DisconnectShows(seen, old(jobs), jobs);
      seen := seen + [Lost];
    }
  }

  // ---------- whole runs ----------

  datatype Operation = Poll(status: seq<Job>) | Disconnect

  function Events(operations: seq<Operation>): seq<Event> {
    if operations == [] then []
    else
      var last := operations[|operations| - 1];
      Events(operations[..|operations| - 1]) + if last.Poll? then AsEvents(last.status) else [Lost]
  }

  /** Any mix of polls and lost connections. */
  method Track(operations: seq<Operation>) returns (jobs: map<string, View>)
    ensures ShowsAll(Events(operations), jobs)
  {
    var tracker := new JobTracker();
    for i := 0 to |operations|
      invariant fresh(tracker) && tracker.Valid() && tracker.seen == Events(operations[..i])
    {
      assert operations[..i + 1][..i] == operations[..i];
      match operations[i] {
        case Poll(status) => tracker.Apply(status);
        case Disconnect => tracker.MarkDisconnected();
      }
    }
    assert operations[..|operations|] == operations;
    jobs := tracker.jobs;
  }

  // ---------- order ----------

  /** Reports of one job with the same time are the same report, and the connection held. */
  ghost predicate Consistent(es: seq<Event>) {
    && (forall i | 0 <= i < |es| :: es[i].Reported?)
    && forall i, j | 0 <= i < |es| && 0 <= j < |es| :: SameReport(es[i], es[j])
  }

  predicate SameReport(d: Event, e: Event) {
    d.Reported? && e.Reported? && d.job.id == e.job.id && d.job.updatedAt == e.job.updatedAt ==> d == e
  }

  lemma SameView(a: seq<Event>, b: seq<Event>, id: string, v: View, w: View)
    requires Consistent(a) && (forall e :: e in a <==> e in b)
    requires Shows(a, id, v) && Shows(b, id, w)
    ensures v == w
  {
    var j: nat :| Newest(a, id, j) && v == Shown(a, j);
    var k: nat :| Newest(b, id, k) && w == Shown(b, k);
    assert a[j] in b && b[k] in a;
    var j' :| 0 <= j' < |b| && b[j'] == a[j];
    var k' :| 0 <= k' < |a| && a[k'] == b[k];
    assert NotNewer(b, j', k) && NotNewer(a, k', j);
    assert SameReport(a[j], a[k']);
    assert !LostSince(a, j);
    forall i | 0 <= i < |b| ensures b[i].Reported? { assert b[i] in a; }
  }

  /** The final views depend only on which reports arrived, not on their order or repetition. */
  lemma OrderDoesNotMatter(a: seq<Event>, b: seq<Event>, shownA: map<string, View>, shownB: map<string, View>)
    requires Consistent(a) && (forall e :: e in a <==> e in b)
    requires ShowsAll(a, shownA) && ShowsAll(b, shownB)
    ensures shownA == shownB
  {
    forall id ensures id in shownA <==> id in shownB {
      if IsReported(a, id) {
        var k :| 0 <= k < |a| && Reports(a[k], id);
        assert a[k] in b;
      }
      if IsReported(b, id) {
        var k :| 0 <= k < |b| && Reports(b[k], id);
        assert b[k] in a;
      }
    }
    forall id | id in shownA ensures shownA[id] == shownB[id] {
      SameView(a, b, id, shownA[id], shownB[id]);
    }
  }

  /** The operation brings the event. */
  predicate Brings(operation: Operation, e: Event) {
    match operation
    case Poll(status) => e.Reported? && e.job in status
    case Disconnect => e.Lost?
  }

  lemma {:induction false} AsEventsHold(jobs: seq<Job>, e: Event)
    ensures e in AsEvents(jobs) <==> e.Reported? && e.job in jobs
    decreases |jobs|
  {
    if jobs != [] {
      var front, last := jobs[..|jobs| - 1], jobs[|jobs| - 1];
      AsEventsHold(front, e);
      assert jobs == front + [last];
    }
  }

  lemma {:induction false} EventsHold(operations: seq<Operation>, e: Event)
    ensures e in Events(operations) <==> exists operation :: operation in operations && Brings(operation, e)
    decreases |operations|
  {
    if operations != [] {
      var front, last := operations[..|operations| - 1], operations[|operations| - 1];
      EventsHold(front, e);
      assert operations == front + [last];
      if last.Poll? { AsEventsHold(last.status, e); }
      assert e in Events(operations) <==> e in Events(front) || Brings(last, e);
      assert forall operation :: operation in operations <==> operation in front || operation == last;
    }
  }

  /** Polls in any order and with any repetition give the same views. */
  lemma PollOrderDoesNotMatter(
    a: seq<Operation>, b: seq<Operation>, shownA: map<string, View>, shownB: map<string, View>)
    requires (forall operation :: operation in a <==> operation in b) && Consistent(Events(a))
    requires ShowsAll(Events(a), shownA) && ShowsAll(Events(b), shownB)
    ensures shownA == shownB
  {
    forall e ensures e in Events(a) <==> e in Events(b) {
      EventsHold(a, e);
      EventsHold(b, e);
    }
    OrderDoesNotMatter(Events(a), Events(b), shownA, shownB);
  }

  lemma PermutedPolls(a: seq<Operation>, b: seq<Operation>)
    requires multiset(a) == multiset(b)
    ensures forall operation :: operation in a <==> operation in b
  {
    forall operation ensures operation in a <==> operation in b {
      assert operation in a <==> operation in multiset(a);
      assert operation in b <==> operation in multiset(b);
    }
  }

  /** `view` shows report `k`: identity, kind, progress and time as reported, the outcome by the wire
      word, and running only while the connection held since; a job is final once it does not run. */
  ghost predicate ShowsReport(es: seq<Event>, k: nat, view: View)
    requires k < |es| && es[k].Reported?
  {
    var job := es[k].job;
    && view.id == job.id && view.kind == job.kind && view.progress == job.progress
    && view.updatedAt == job.updatedAt && view.cancel == job.cancel
    && (view.phase == Succeeded <==> job.phase == "succeeded")
    && (view.phase == Failed <==> job.phase == "failed")
    && (view.phase == Cancelling <==> job.phase == "cancelling")
    && (view.phase == Running <==> job.phase == "running" && forall i | k < i < |es| :: !es[i].Lost?)
    && (view.terminal <==> view.phase != Running)
  }

  /** No report of the job is later than report `k`, and none that is as late arrived after it. */
  ghost predicate IsLatest(es: seq<Event>, id: string, k: nat)
    requires k < |es| && es[k].Reported?
  {
    forall j | 0 <= j < |es| && es[j].Reported? && es[j].job.id == id ::
      es[j].job.updatedAt < es[k].job.updatedAt || (es[j].job.updatedAt == es[k].job.updatedAt && j <= k)
  }

  /** What is shown of a job is its latest report. */
  lemma ViewExactly(es: seq<Event>, id: string, view: View)
    requires Shows(es, id, view)
    ensures exists k: nat | k < |es| :: es[k].Reported? && es[k].job.id == id && IsLatest(es, id, k) && ShowsReport(es, k, view)
  {
    var k: nat :| Newest(es, id, k) && view == Shown(es, k);
    forall j | 0 <= j < |es| && es[j].Reported? && es[j].job.id == id ensures NotNewer(es, j, k) {
      assert Reports(es[j], id);
    }
    assert IsLatest(es, id, k);
    assert ShowsReport(es, k, view);
  }

  /** More events never move a job back in time. */
  lemma UpdatedAtNeverDecreases(es: seq<Event>, more: seq<Event>, id: string, v: View, w: View)
    requires Shows(es, id, v) && Shows(es + more, id, w)
    ensures v.updatedAt <= w.updatedAt
  {
    var j: nat :| Newest(es, id, j) && v == Shown(es, j);
    var k: nat :| Newest(es + more, id, k) && w == Shown(es + more, k);
    assert (es + more)[j] == es[j] && NotNewer(es + more, j, k);
  }

  /** Whatever was lost in between, the newest report arriving again is shown as it is. */
  lemma ReplayRestores(es: seq<Event>, id: string, k: nat)
    requires Newest(es, id, k)
    ensures Shows(es + [es[k]], id, FromJob(es[k].job))
  {
    forall n: nat | Newest(es, id, n) ensures n == k { NewestIsUnique(es, id, n, k); }
    Replaces(es, es[k].job);
  }
}
