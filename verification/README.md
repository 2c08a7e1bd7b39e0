# siDeroStat: verified models of its state machines

siDeroStat is a two-node inference proxy and supervisor. This project models the parts of it where
a mistake is easy to make and hard to see, and proves what they promise for every input, every run
and every interleaving:

- **Event-stream framing and the response body** (`src/proxy.rs`). A resumable scanner cuts server-sent
  events out of chunks; three stream state machines are stacked on it. The reference is the whole-string
  reading of sections 9.2.5 and 9.2.6 of the WHATWG HTML Living Standard (`SseSpec`). `SseFrameBuffer`,
  `SseChunking`, `SseFrameStream`, `SseStreamSafety`, `SseStreamExact`, `SseStreamAgreement`, `SseStreamCuts`,
  `ResponseStream`, `ClientAgreement`.
- **Admission gate and recovery canary permit** (`src/admission.rs`, `src/proxy.rs`). A permit counter with
  drain generations and a check-then-wait loop, as an object and as a transition system over its critical
  sections, notifications and wake-ups. `AdmissionGate`, `AdmissionProtocol`, `AdmissionDrain`,
  `RecoveryCanary`.
- **Shutdown and graceful restart** (`src/app.rs`). Atomics, a lock, a reader/writer gate, any number of
  request handlers, delayed restart tasks and jobs, and the cleanup retry loop. `Shutdown`, `ShutdownSafety`,
  `ShutdownPhase`, `ShutdownProgress`.
- **Recovery** (`src/recovery.rs`). The rate-limited job manager over a bounded history, the one-shot
  throughput detector, the civil-date conversion and the timestamp text. `RecoveryService`,
  `RecoveryLimits`, `RecoveryTimes`, `RecoveryDetector`, `CivilDate`, `Timestamp`.
- **Canary stream parser** (`src/canary.rs`). `CanaryParser`.
- **Migration backups and job polling** (`monitor/src/migration.rs`, `monitor/src/jobs.rs`). `Migration`,
  `JobTracker`.

`Wrappers` and `Decimal` hold the option type and decimal digits. `dafny verify dfyconfig.toml` checks
everything.

Objects that the source updates in place are classes. A class keeps ghost fields only to relate its real
fields to the run so far: the bytes released, the events seen, the log of all jobs. Concurrency is a
transition system whose steps are the source's critical sections, and its invariants are proved step by step
and lifted to all runs. Clocks, timeouts, tokens and failures of the outside world are parameters or steps of
their own. Integer widths are written out where they matter (saturating 64-bit time in `RecoveryService`);
elsewhere the results hold for all integers. `terminalText`, in `SseFrameStream.Mode`, stands for the text part
of `is_sse_terminal_event`: that function turns CRLF and CR into LF before it looks at the text, which is
all the proofs use, besides that an event without fields is not terminal (`Valid`). `accepts`, in
`CanaryParser`, stands for `parse_event`.

## Where the code does less than one would expect

Each of these is kept as the code has it, shown by a witness and fenced by an exact condition or by the
condition under which the promise holds.

- What a client is given depends on chunk boundaries exactly when a fragile event is reached: one that is over
  the size limit by just the LF of its CRLF, or one so long that a part of it without its end is already over
  the limit. The second kind is always refused, but with different error events (`ClientChunkInvariance`,
  `StreamChunkInvariance`, `FragileDepends`).
- A completion can end with both an upstream terminal event and a synthesised error, exactly when the
  restart interrupt comes in the poll right after the terminal event (`EndsTwiceExactly`).
- A drain can report success with requests in flight: exactly those admitted after its last zero check and
  not finished since, either through the recovery exception or because the gate was started and the same
  generation begun again in between (`DrainExactly`, `RecoveryCanOutliveDrain`, `RestartCanOutliveDrain`).
- The history of recoveries is bounded, and refused requests push attempts out of it. The rate limits hold
  exactly when every creation would also have been allowed by an unbounded history (`LimitsHoldExactly`);
  for every policy with a cooldown there is a run that breaks them (`ForgettingBreaksLimits`).
- Two timestamps sort as text as they sort in time exactly when their years have equally many digits or the
  earlier year is at most the leading digits of the later (`FormatOrderExactly`). All timestamps up to a bound
  do exactly when the bound lies before the year 10000 (`FormatOrdersUpTo`).
- The comment in `monitor/src/migration.rs` says that a re-run never overwrites a backup. A file named like
  the manifest or its temporary file is lost when that place is free, and nothing else is
  (`BackupLegacy`, `ManifestNameIsLost`). The inventory only produces two other names.

## Model

| member | source | states |
|---|---|---|
| `SseSpec.FrameUnfolds` | src/proxy.rs:41-85 | framing the lines of a whole string is the same as taking its first event and framing the rest |
| `SseSpec.SplitIsFrame` | src/proxy.rs:41-85 | the event-at-a-time form and the line-by-line specification agree on every string |
| `SseSpec.FrameConserves` | src/proxy.rs:41-85 | events and remainder concatenate to the input |
| `SseSpec.EventEndExtends` | src/proxy.rs:41-85 | a visible event end is final when bytes are appended, except that a final CR takes the LF that follows it |
| `SseFrameBuffer.Scan` | src/proxy.rs:52-82 | from any resumable position the loop finds exactly the first event end of the whole buffer, or stops in a resumable position, in at most one iteration per byte passed plus one |
| `SseFrameBuffer.SseFrameBuffer.constructor` | src/proxy.rs:33-39 | a new scanner is empty, open for bytes and has done no work |
| `SseFrameBuffer.SseFrameBuffer.Extend` | src/proxy.rs:161-162 | appending a chunk keeps the scan position usable |
| `SseFrameBuffer.SseFrameBuffer.SplitTo` | src/proxy.rs:77-79 | bytes are handed out from the front and counted as released |
| `SseFrameBuffer.SseFrameBuffer.TakeEvent` | src/proxy.rs:42-84 | a call depends on the unread bytes alone, not on where the scan stood; no byte is lost; the scan invariant and the bound iterations <= bytes released + cursor + calls are kept |
| `SseFrameBuffer.SseFrameBuffer.ScanForEvent` | src/proxy.rs:52-84 | the same for the part after a pending LF was dealt with |
| `SseChunking.DrainFresh` | src/proxy.rs:41-85 | draining takes exactly the events of the string present |
| `SseChunking.SplitAppend` | src/proxy.rs:41-85 | events of a concatenation are those of the first part with an LF moved to a split CRLF, then those of the remainder with the second part |
| `SseChunking.FeedTracks` | src/proxy.rs:41-85 | after any chunks the scanner's pieces and rest are those of everything fed, up to an LF still to come |
| `SseChunking.ChunkInvariance` | src/proxy.rs:33-85 | for every cutting of every byte string the glued pieces are the events of the whole string, the bytes kept are its incomplete tail, and end of file releases nothing more |
| `SseChunking.DrainBuffer` | src/proxy.rs:41-85 | draining the object follows the value-level drain and conserves bytes |
| `SseChunking.FrameChunks` | src/proxy.rs:33-85 | running the object over any chunks yields the events and rest of the whole string in at most bytes plus calls loop iterations |
| `SseFrameStream.SseFrameStream.constructor` | src/proxy.rs:112-121 | a new stream will yield the outputs of its source |
| `SseFrameStream.SseFrameStream.PollSource` | src/proxy.rs:161-168 | one upstream item is appended, or ends the input with or without an error |
| `SseFrameStream.SseFrameStream.Next` | src/proxy.rs:112-172 | each poll pops the next item of the denoted output and reports the end only when none is left; the polling loop ends |
| `SseStreamSafety.StreamShape` | src/proxy.rs:112-172 | for every trace only the last item can be an error or have terminal text under a required terminal, every piece is at most 1 MiB, and a required terminal leaves exactly one of a terminal piece and an error at the end |
| `SseStreamSafety.StreamHandsOutPieces` | src/proxy.rs:112-172 | pieces come out in scanner order; a transport error comes out, after all of them, if and only if the upstream failed that way, no piece was terminal or too large, and the incomplete rest was not too large |
| `SseStreamSafety.StreamPrefix` | src/proxy.rs:112-172 | the bytes handed out are a prefix of the bytes received |
| `SseStreamExact.NormaliseIsLines` | src/proxy.rs:87-92 | the text that is inspected is the texts of the lines of the event, each ended by LF, with no CR left |
| `SseStreamExact.StreamComes` | src/proxy.rs:112-172 | for every trace the items in order: the scanner's pieces up to the first that is too large or terminal, and then which error, or none, under which condition on source, rest and mode; an oversized piece gives one of two errors, by the cutting |
| `SseStreamExact.TerminalEndsStream` | src/proxy.rs:126-139 | for every trace, if the first framed event that is too large or terminal is terminal and fits, the output ends with it and holds no error |
| `SseStreamAgreement.NormaliseDropsLf` | src/proxy.rs:87-92 | the LF of a final CRLF makes no difference to the terminal check |
| `SseStreamAgreement.NoEventInside` | src/proxy.rs:52-82 | a part of an event without its end holds no event |
| `SseStreamCuts.OneChunkIsReference` | src/proxy.rs:112-172 | a string received as one chunk comes out as its framed events up to the first oversized or terminal one, then the ending, exactly |
| `SseStreamAgreement.AgreementHolds` | src/proxy.rs:112-172 | for every chunking the same events and the same kind of error are seen as for the whole string, unless a fragile event is reached: one over the limit by just the LF of its CRLF, or one so long that a part without its end is over the limit |
| `SseStreamCuts.CutDiffers` | src/proxy.rs:126-147 | if a fragile event is reached, a cut inside it changes which event or which kind of error comes out |
| `SseStreamCuts.StreamChunkInvariance` | src/proxy.rs:112-172 | chunk invariance of events and error kind holds if and only if no fragile event is reached, for every string and ending |
| `SseStreamCuts.FragileDepends` | src/proxy.rs:29-31 | for each kind of fragile event two concrete sources with the same bytes that come out differently |
| `ResponseStream.ResponseStream.constructor` | src/proxy.rs:974-976 | a response starts with its permit held |
| `ResponseStream.ResponseStream.Next` | src/proxy.rs:976-1044 | the permit is held exactly after a forwarded item: it is given up in the step that reports a failure and at the end; polls yield the denoted body |
| `ResponseStream.BodyShape` | src/proxy.rs:974-1045 | forwarded items mirror the upstream, a report is last, and an event-stream client gets no transport error |
| `ResponseStream.BodyExactly` | src/proxy.rs:976-1044 | for either kind of body the length and every item: forwarded pieces up to the first interrupt, error or end, then the report that belongs to it, or none |
| `ResponseStream.BodyInterrupted` | src/proxy.rs:980-1003 | an interrupt after any number of forwarded pieces gives exactly those and one report: a restart event for an event stream, a broken body for any other |
| `ResponseStream.BodyReadToEnd` | src/proxy.rs:974-1045 | an uninterrupted body read to its end forwards every piece up to the first error and then reports that error alone, for event streams and for other bodies |
| `ResponseStream.ClientSeesAtMostOneError` | src/proxy.rs:112-194 | over idle timeout, framing and outer stream: a synthesised error is unique and last, no transport error is seen, and nothing but one item follows a terminal event |
| `ResponseStream.TimeoutExactly` | src/proxy.rs:174-194 | items pass unchanged up to the first idle period, which ends the stream with a timeout |
| `ResponseStream.UnframedExactly` | src/proxy.rs:968-974 | without framing every item is passed on as it is, also after an error |
| `ResponseStream.ResponseConcludes` | src/proxy.rs:1004-1043 | each way an upstream trace can end gives the client the error event that belongs to it, an oversized event one of two, and a terminal event none |
| `ResponseStream.CompletionEndsOnce` | src/proxy.rs:933-1045 | an uninterrupted completion read to its end finishes with exactly one of a terminal event and a synthesised error |
| `ResponseStream.EndsTwiceExactly` | src/proxy.rs:980-1003 | it ends with both if and only if the upstream ended with a terminal event and the first interrupt comes in the poll right after it |
| `ClientAgreement.ReadingIsView` | src/proxy.rs:1004-1043 | the texts and the error event the client is given are the events and the error kind of the framed stream |
| `ClientAgreement.ClientChunkInvariance` | src/proxy.rs:933-1045 | over idle timeout, framing and body together, for every byte string and every way the upstream ends: the client is given the same texts and the same error event for all cuttings if and only if no fragile event is reached |
| `AdmissionGate.AdmissionGate.constructor` | src/admission.rs:65-79 | a new gate is blocked, open and empty |
| `AdmissionGate.AdmissionGate.StartServing` | src/admission.rs:91-98 | serves and forgets the generation unless closed |
| `AdmissionGate.AdmissionGate.Block` | src/admission.rs:100-102 | blocks and changes nothing else |
| `AdmissionGate.AdmissionGate.Close` | src/admission.rs:105-109 | closes and blocks |
| `AdmissionGate.AdmissionGate.ResetBlockedGeneration` | src/admission.rs:116-121 | forgets the generation and changes nothing else |
| `AdmissionGate.AdmissionGate.TryAcquire` | src/admission.rs:123-129 | a public request gets a permit exactly if the gate serves, is not closed, the upstream is ready and fewer than the maximum are in flight; each error comes back under exactly its own condition and changes nothing |
| `AdmissionGate.AdmissionGate.TryAcquireRecovery` | src/admission.rs:133-139 | the same without the serving condition |
| `AdmissionGate.AdmissionGate.AcquirePermit` | src/admission.rs:141-159 | the permit and each error under exactly its own condition: closed, then not ready, then capacity; the maximum is kept |
| `AdmissionGate.AdmissionGate.BeginDrain` | src/admission.rs:161-171 | drains unless another generation is active, then changes nothing |
| `AdmissionGate.AdmissionGate.FinishDrain` | src/admission.rs:195-200 | blocks only if the generation is still the drain's own |
| `AdmissionGate.AdmissionGate.DropPermit` | src/admission.rs:211-222 | one fewer in flight, and tells exactly whether a notification is owed |
| `AdmissionProtocol.StepKeepsInv` | src/admission.rs:91-227 | every critical section, notification and wake-up keeps the counter, capacity and wake-up invariant |
| `AdmissionProtocol.CounterIsExact` | src/admission.rs:123-159 | over every interleaving the counter is the number of live permits and within the maximum |
| `AdmissionProtocol.NoLostWakeup` | src/admission.rs:178-190 | a parked, un-notified waiter implies a live permit or a drop that still owes its notification |
| `AdmissionProtocol.EarlyNotificationWakes` | src/admission.rs:178-190 | a notification between the creation of the future and the check still wakes the waiter |
| `AdmissionProtocol.QuietGateReleasesWaiters` | src/admission.rs:178-190 | with every permit dropped and notified, a parked waiter ends its wait by its own three steps |
| `AdmissionProtocol.AcquireExactly` | src/admission.rs:123-159 | in every invariant state a public acquisition adds its permit to the live ones if and only if the gate serves, is open, the upstream is ready and fewer than the maximum are live; the recovery one without serving; nothing else changes on refusal |
| `AdmissionProtocol.BeginExactly` | src/admission.rs:161-171 | a drain of a generation begins if and only if no other generation is held |
| `AdmissionProtocol.RetiringFreesGenerations` | src/admission.rs:91-121 | after a reset or an effective start a drain of any generation can begin |
| `AdmissionProtocol.TimeOutExactly` | src/admission.rs:184-201 | a wait that times out leaves the gate as it is and every permit alive |
| `AdmissionProtocol.CloseIsFinal` | src/admission.rs:104-109 | after close no acquisition of either kind succeeds, over every further run |
| `AdmissionProtocol.DrainGenerationsAreSeparated` | src/admission.rs:161-171 | two generations both begin draining only with a reset or an effective start between them |
| `AdmissionProtocol.DrainEmptiesGate` | src/admission.rs:161-201 | after any begin of a drain, with no effective start and no granted recovery acquisition, the number in flight never rises, and a drain that checks after the begin and succeeds leaves the gate blocked and empty |
| `AdmissionDrain.LiveFrom` | src/admission.rs:141-227 | the live permits are those live before and not dropped since and those granted since and not dropped again |
| `AdmissionDrain.DrainExactly` | src/admission.rs:178-201 | for every run of a drain call that succeeds: the gate ends blocked, and empty if and only if every permit granted since its last zero check was dropped again; each such grant went to the recovery, or followed a start of the gate and preceded a new begin of the same generation |
| `AdmissionDrain.RecoveryCanOutliveDrain` | src/admission.rs:133-201 | a run in which a successful drain leaves a recovery request in flight |
| `AdmissionDrain.RestartCanOutliveDrain` | src/admission.rs:91-201 | a run without recovery in which a successful drain leaves a public request in flight |
| `AdmissionDrain.RunGate` | src/admission.rs:64-227 | the object, driven through any interleaving, reaches the gate of the transition system |
| `RecoveryCanary.CanarySlot.constructor` | src/proxy.rs:196-200 | the slot starts empty |
| `RecoveryCanary.CanarySlot.Issue` | src/proxy.rs:475-490 | a new permit replaces any other |
| `RecoveryCanary.CanarySlot.Consume` | src/proxy.rs:492-511 | accepts exactly the current token before its expiry; success and expiry empty the slot, anything else leaves it |
| `RecoveryCanary.StepKeepsInv` | src/proxy.rs:475-511 | every issue, consumption, acquisition and gate move keeps the accounting of tokens |
| `RecoveryCanary.ExceptionsAreIssued` | src/proxy.rs:681-696 | in every run admissions past a gate that is not serving never exceed the permits issued, and no token is redeemed twice |
| `RecoveryCanary.AdmissionsAreCounted` | src/proxy.rs:681-696 | an admission is counted as an exception exactly when it is granted while the gate is not serving, under the written conditions |
| `RecoveryCanary.RedeemedExactly` | src/proxy.rs:475-511 | over every run a token is accepted if and only if it is the one issued last, was not used or expired before, and its own expiry lies ahead |
| `RecoveryCanary.RunCanary` | src/proxy.rs:475-511 | slot and gate objects, driven through any run, reach the slot and gate of the transition system |
| `ShutdownSafety.HandlerMoves` | src/app.rs:1756-1781 | what one step of a handler can do to the shared state |
| `ShutdownSafety.TaskMoves` | src/app.rs:354-380 | what one step of a delayed restart task can do to it; it leaves the marking loop only with draining published or a phase that needs none |
| `ShutdownSafety.ServerMoves` | src/app.rs:1411-1489 | what one step of the server task can do to it: it marks draining over running or failed, publishes stopping as the cleanup starts and failed, with its count, as it begins to wait for a retry, and changes the phase nowhere else |
| `ShutdownSafety.StepKeepsInv` | src/app.rs:1411-1548 | every step keeps the invariant of phase, lock, gate, slot, jobs and cleanup |
| `ShutdownSafety.CleanupRunsAlone` | src/app.rs:1506-1548 | while the child is cleaned up, every admitted mutation handler has returned and no admin or recovery job runs |
| `ShutdownSafety.NothingStartsAfterGate` | src/app.rs:1756-1781 | once the gate was taken in shutdown, no job starts again, for any handlers, failures and retries |
| `ShutdownSafety.AdminStopsAfterCleanup` | src/app.rs:1533-1547 | the admin listener is told to stop only by a cleanup that succeeded |
| `ShutdownSafety.ManualRestartOnlyClaims` | src/app.rs:316-380 | once the server shuts down, restart handlers and tasks change the phase only by the claim of a published failure |
| `ShutdownSafety.OwnershipIsUnique` | src/app.rs:302-314 | every claim, and a failure that still shows, had a publication of its own; one handler at most holds the restart slot, and the phase lock has one owner |
| `ShutdownPhase.PhaseTellsPosition` | src/app.rs:1411-1548 | in every reachable state: stopping is published while the cleanup runs and after it succeeded, a server that waits for a retry shows failed, or draining once that was claimed, and after the first steps of a shutdown the phase is never running |
| `ShutdownPhase.TasksLeaveDraining` | src/app.rs:340-380 | in every reachable state whoever claims a failure does so during a shutdown, and a delayed task that finishes before one leaves the phase draining or stopping |
| `ShutdownPhase.FailureIsPublished` | src/app.rs:1529-1543 | a step publishes and counts a failure exactly when the server gives up an attempt that timed out or failed, and then it waits for a retry, or when a restart handler stores it |
| `ShutdownPhase.FailuresAreCounted` | src/app.rs:1529-1543 | over every run the count of failures is the number of those steps |
| `ShutdownPhase.FailuresBalance` | src/app.rs:330-380 | over every run each published failure was claimed, was replaced unclaimed by a drain or a new failure, or still shows |
| `ShutdownPhase.FailureStaysUntilClaimed` | src/app.rs:354-380 | a claim takes a published failure and publishes draining, and while the server waits nothing else changes the phase |
| `ShutdownPhase.WaitingShowsFailure` | src/app.rs:1474-1489 | as long as the server waits, for any steps of others, the failure stays published or exactly one claim turned it into draining |
| `ShutdownProgress.RequestIsJudged` | src/app.rs:1756-1781 | a request is admitted exactly if no shutdown has begun and the phase is neither draining nor stopping, or if it is a restart request while a failure is published |
| `ShutdownProgress.MutationLeavesWork` | src/app.rs:1756-1781 | an admitted mutation leaves the job and the recovery it started running, until they end |
| `ShutdownProgress.DetectorCanStart` | src/app.rs:1234-1275 | until it is aborted the detector can start a recovery, which ends by itself |
| `ShutdownProgress.FailureCanBeRetried` | src/app.rs:2619-2643 | from every invariant state that waits with the failure published and the admin listener alive, one restart request claims it, wakes the server and a new attempt begins |
| `ShutdownProgress.OneRequestClaims` | src/app.rs:2619-2643 | of two restart requests that both find the failure published one claims it and the other is refused without a wake-up |
| `ShutdownProgress.FailureIsRetriedAlone` | src/app.rs:1467-1488 | when the admin listener has ended or ends, the server begins a new attempt by itself |
| `ShutdownProgress.RetriedAttempt` | src/app.rs:1449-1489 | in a quiet system a retried attempt takes the gate, runs the cleanup under stopping and ends the shutdown or publishes its own failure |
| `ShutdownProgress.RetryCanFinish` | src/app.rs:1449-1548 | from a published failure in a quiet system one restart request and a successful cleanup finish the shutdown |
| `ShutdownProgress.ShutdownCanFinish` | src/app.rs:330-352 | a quiet server can be shut down: flag and draining under the lock, then one attempt to its end |
| `ShutdownProgress.FailureCanBeReplaced` | src/app.rs:330-352 | a run in which a failure published before the shutdown is replaced by its drain, so claims can fall short of failures |
| `ShutdownProgress.RestartIsAccepted` | src/app.rs:2842-2900 | an accepted restart publishes draining and stopping in turn, keeps the slot and leaves the delayed task behind |
| `ShutdownProgress.RestartGivesUp` | src/app.rs:2842-2900 | a restart whose drain fails publishes and counts the failure and frees the slot |
| `ShutdownProgress.SecondRestartIsRefused` | src/app.rs:302-314 | a restart request while the slot is taken changes nothing |
| `ShutdownProgress.DelayedRestartRuns` | src/app.rs:354-380 | the delayed task publishes draining over running or failed before a shutdown, claims a published failure and wakes the server during one, and returns the lock |
| `RecoveryService.LatestFinish` | src/recovery.rs:749-757 | the latest finish of the attempts: an upper bound that one of them attains |
| `RecoveryService.FindKey` | src/recovery.rs:525-532 | finds the latest job with the key exactly when the history has one |
| `RecoveryService.GateFailure` | src/recovery.rs:737-747 | each gate reason under exactly its own condition on role, mode and state |
| `RecoveryService.InCooldownExactly` | src/recovery.rs:749-757 | a start is in the cooldown exactly if some attempt of the history finished less than the cooldown ago |
| `RecoveryService.CountIsCardinality` | src/recovery.rs:759-766 | the count of the loop is the number of attempts of the history that started within the window |
| `RecoveryService.RecoveryService.constructor` | src/recovery.rs:500-509 | a new service is idle and keeps at least one job |
| `RecoveryService.RecoveryService.PushHistory` | src/recovery.rs:822-827 | the history stays the latest part of the log of all jobs |
| `RecoveryService.RecoveryService.BeginAt` | src/recovery.rs:515-580 | the active job, else the latest with the key, else a refusal by the first of the four reasons or a new job, each record written out; only a refusal is logged and only a creation becomes active |
| `RecoveryService.RecoveryService.MarkSnapshotSucceeded` | src/recovery.rs:582-594 | only the active job with the id is changed |
| `RecoveryService.RecoveryService.MarkPhase` | src/recovery.rs:596-610 | only the active job with the id is changed |
| `RecoveryService.RecoveryService.MarkSnapshotFailed` | src/recovery.rs:626-641 | the job leaves the active slot and is logged once with the given finish and reason, suppressed or failed by the reason; or nothing changes |
| `RecoveryService.RecoveryService.MarkSucceeded` | src/recovery.rs:643-657 | the job is logged as succeeded with its start, the given finish and generation and every other field kept; or nothing changes |
| `RecoveryService.RecoveryService.MarkFailed` | src/recovery.rs:659-673 | the same for failure, with the reason |
| `RecoveryService.RecoveryService.MarkTerminal` | src/recovery.rs:700-722 | the same for any terminal state |
| `RecoveryLimits.RetainedAllows` | src/recovery.rs:749-766 | a history that retains every binding attempt decides like the whole log |
| `RecoveryLimits.StepExact` | src/recovery.rs:515-580 | a creation keeps window and cooldown exactly when the whole log would have allowed it |
| `RecoveryLimits.LimitsHoldExactly` | src/recovery.rs:749-766 | over every run, any `max_attempts + 1` recoveries span more than the window and each starts the cooldown after every earlier finish, if and only if every creation is one the unbounded log allows |
| `RecoveryLimits.LimitsHold` | src/recovery.rs:822-827 | so they hold in every run in which no binding attempt was evicted |
| `RecoveryLimits.FloodStep` | src/recovery.rs:546-557 | a request refused for the cooldown is logged and moves the attempt one place toward eviction |
| `RecoveryLimits.ForgettingBreaksLimits` | src/recovery.rs:822-827 | for every policy with a cooldown, a run of `history_limit + 3` steps at one instant that breaks the limits |
| `RecoveryLimits.RunService` | src/recovery.rs:500-722 | the service object, driven through any run, reaches the active job and the history of the transition system |
| `RecoveryTimes.RunRecords` | src/recovery.rs:515-722 | at every point of every run the recorded starts and finishes are the times of the calls that started and ended recoveries |
| `RecoveryTimes.CallsApartExactly` | src/recovery.rs:515-766 | over every run, in terms of call times: any `max_attempts + 1` starting calls span more than the window and each start comes the cooldown after every earlier ending call, if and only if the unbounded log allows every creation |
| `RecoveryTimes.CallsApart` | src/recovery.rs:822-827 | so they do in every run in which no binding attempt was evicted |
| `RecoveryTimes.CooldownBetweenCalls` | src/recovery.rs:749-757 | then a call that starts a recovery after one that ended one comes at least the cooldown later |
| `RecoveryDetector.RecoveryDetector.constructor` | src/recovery.rs:229-234 | a new detector has seen nothing |
| `RecoveryDetector.RecoveryDetector.EmitOnce` | src/recovery.rs:302-308 | a trigger is emitted once per incident |
| `RecoveryDetector.RecoveryDetector.ResetIncident` | src/recovery.rs:310-313 | ends the incident and the slow run |
| `RecoveryDetector.RecoveryDetector.Slowed` | src/recovery.rs:267-275 | the stored start time decides sustained slowness as the whole stream does |
| `RecoveryDetector.RecoveryDetector.ObserveAt` | src/recovery.rs:237-281 | the answer is the one the whole stream of events calls for |
| `RecoveryDetector.RecoveryDetector.ObserveCanaryAt` | src/recovery.rs:283-300 | the same for canary results |
| `RecoveryDetector.New` | src/recovery.rs:212-235 | a detector exists exactly for acceptable policies |
| `RecoveryDetector.Watch` | src/recovery.rs:237-314 | over any mix of observations and canary results the answers are those of the specification |
| `RecoveryDetector.SlowTriggerExactly` | src/recovery.rs:237-281 | a slow-decode trigger is emitted if and only if no incident is active and an unbroken run of observations ending now, all with progress, not stalled and below the limit, spans the duration in running-maximum time |
| `RecoveryDetector.WaitTriggersExactly` | src/recovery.rs:244-266 | first-token timeout and stall come from an observation if and only if no incident is active and the request has waited the limit without progress, or progress has stopped for the limit |
| `RecoveryDetector.CanaryTriggersExactly` | src/recovery.rs:283-300 | without an incident each unhealthy canary reason gives its own trigger, and only a healthy one gives none |
| `RecoveryDetector.IncidentExactly` | src/recovery.rs:302-314 | an incident is active exactly from a trigger to the next idle observation or healthy canary |
| `RecoveryDetector.ClockIsLatest` | src/recovery.rs:237-243 | the clock acted on is the latest time reported so far |
| `RecoveryDetector.TriggersAreSeparated` | src/recovery.rs:302-314 | between any two triggers lies an idle observation or a healthy canary |
| `RecoveryDetector.NoTriggerIsLost` | src/recovery.rs:302-308 | a due trigger is emitted, or belongs to an incident emitted before and not ended |
| `RecoveryDetector.AnswersAreDetermined` | src/recovery.rs:237-314 | the specification fixes every answer |
| `CivilDate.YearLength` | src/recovery.rs:863-880 | years have 366 days exactly when they are leap years |
| `CivilDate.NextDayAdvances` | src/recovery.rs:863-880 | the next day of a valid date is valid and counts one more |
| `CivilDate.YearIsExact` | src/recovery.rs:870-874 | the division formula gives the exact year of the era, with day 365 only before a leap day |
| `CivilDate.FromDaysInverts` | src/recovery.rs:863-880 | every day number, also negative, gives a valid date that counts back to it |
| `CivilDate.FromDaysCovers` | src/recovery.rs:863-880 | every valid date is reached by its day number |
| `CivilDate.DaysFromCivilOrders` | src/recovery.rs:863-880 | later dates have larger day numbers |
| `CivilDate.FromDaysSteps` | src/recovery.rs:863-880 | each day is the calendar's next day after the one before |
| `CivilDate.FromDaysCounts` | src/recovery.rs:863-880 | the conversion is the simple count of days from 1970-01-01 |
| `CivilDate.IntermediatesFit` | src/recovery.rs:863-880 | for every day number within three eras of the ends of the signed 64-bit range no value computed on the way leaves it |
| `Timestamp.MomentIsValid` | src/recovery.rs:849-857 | date and time fields are in range and add up to the milliseconds |
| `Timestamp.ReadText` | src/recovery.rs:858 | printed fields of any width are read back |
| `Timestamp.FormatRoundTrips` | src/recovery.rs:849-859 | every timestamp text is read back as the same instant |
| `Timestamp.FormatLayout` | src/recovery.rs:849-859 | the text is the year with at least four digits, then month, day, hour, minute and second with two and milliseconds with three digits between fixed separators; 24 characters before the year 10000 |
| `Timestamp.TextOrderIsFieldOrder` | src/recovery.rs:858 | fields that fit their widths sort as text as they sort as numbers |
| `Timestamp.FormatOrders` | src/recovery.rs:849-859 | before the year 10000 text order is time order, both ways (sections 5.1 and 5.6 of RFC 3339) |
| `Timestamp.FormatOrderExactly` | src/recovery.rs:858 | for any two instants the earlier sorts first as text if and only if their years have equally many digits or the earlier year is at most the leading digits of the later; otherwise it sorts last |
| `Timestamp.FormatOrdersUpTo` | src/recovery.rs:849-859 | text order is time order for all instants up to a bound if and only if the bound lies before the year 10000 |
| `Timestamp.FormatFits` | src/recovery.rs:849-880 | for every 64-bit millisecond count no value computed on the way leaves the signed 64-bit range |
| `CanaryParser.BoundaryIsEarliest` | src/canary.rs:327-336 | the two searches together find exactly the earliest delimiter of either kind, with its length |
| `CanaryParser.BoundaryIsFinal` | src/canary.rs:327-336 | a delimiter completed by later bytes never precedes one already found |
| `CanaryParser.CutAppend` | src/canary.rs:311-325 | cutting what arrived, then the leftover with the next bytes, is cutting the whole |
| `CanaryParser.SseParser.constructor` | src/canary.rs:306-309 | a new parser is empty |
| `CanaryParser.SseParser.Push` | src/canary.rs:312-324 | fails exactly on size or on an event that does not parse; otherwise yields the cut of all bytes and keeps the leftover; what each failure leaves behind |
| `CanaryParser.Feed` | src/canary.rs:311-325 | for every chunking the run succeeds if and only if every chunk fits and every event of the whole parses, and then gives the events and leftover of the whole |
| `CanaryParser.OnePushFits` | src/canary.rs:313-315 | a string that one push takes fits in any chunks |
| `Migration.SuffixedIsInjective` | monitor/src/migration.rs:167-173 | different suffixes give different names |
| `Migration.SuffixedIsNotReserved` | monitor/src/migration.rs:167-173 | no suffixed name is the manifest or its temporary file |
| `Migration.SuffixedWithExtension` | monitor/src/migration.rs:165-173 | the number goes between the stem and the extension after the last dot |
| `Migration.SuffixedWithoutExtension` | monitor/src/migration.rs:165-173 | a name without an extension, or with only a leading dot, gets the number at its end |
| `Migration.TakenIsBounded` | monitor/src/migration.rs:167-178 | no more suffixes are taken than there are files |
| `Migration.UniqueBackupPath` | monitor/src/migration.rs:160-180 | ends for every finite directory with the first free name |
| `Migration.CopyAll` | monitor/src/migration.rs:149-158 | copies go to new, distinct places in order, and what a failed copy leaves overwrites nothing |
| `Migration.BackupLegacy` | monitor/src/migration.rs:213-231 | no other file changes, old entries stay in front, failures keep the manifest, and every recorded destination holds its copy if and only if no file name takes a free reserved place |
| `Migration.ManifestNameIsLost` | monitor/src/migration.rs:213-231 | a run that succeeds and loses the copy it records |
| `Migration.BackupRuns` | monitor/src/migration.rs:213-231 | over any number of runs: each succeeds exactly when nothing goes wrong and then records a copy of every file at a new place; destinations stay distinct, earlier manifests stay a prefix and no file is overwritten |
| `Migration.CopiesLast` | monitor/src/migration.rs:213-231 | a copy recorded by one run is still listed and holds its contents after every later run |
| `JobTracker.JobTracker.constructor` | monitor/src/jobs.rs:85-90 | a new tracker shows nothing |
| `JobTracker.JobTracker.Receive` | monitor/src/jobs.rs:96-106 | one report keeps the tracker showing the newest report of every job |
| `JobTracker.JobTracker.Apply` | monitor/src/jobs.rs:94-107 | a poll does so for each job it lists |
| `JobTracker.JobTracker.MarkDisconnected` | monitor/src/jobs.rs:110-117 | running jobs become unknown, others stay |
| `JobTracker.Track` | monitor/src/jobs.rs:94-117 | over any mix of polls and disconnects exactly the reported jobs are shown, each by its newest report, unknown only if it was running and the connection was lost since |
| `JobTracker.ViewExactly` | monitor/src/jobs.rs:48-117 | a view is the latest report of its job: fields as reported, outcome by the wire word, running only if the connection held since, final exactly when not running |
| `JobTracker.OrderDoesNotMatter` | monitor/src/jobs.rs:94-107 | the final views depend only on which reports arrived, not on order or repetition |
| `JobTracker.PollOrderDoesNotMatter` | monitor/src/jobs.rs:94-107 | polls in any order and with any repetition lead to the same views |
| `JobTracker.PermutedPolls` | monitor/src/jobs.rs:94-107 | a permutation of the polls holds the same polls, so the result above covers it |
| `JobTracker.UpdatedAtNeverDecreases` | monitor/src/jobs.rs:99-105 | more events never move a job back in time |
| `JobTracker.ReplayRestores` | monitor/src/jobs.rs:94-117 | the newest report arriving again is shown as it is |

## Left out

- HTTP, TCP, TLS, headers, request bodies and JSON shapes: input and output.
- UTF-8 decoding, JSON and the text rules of `is_sse_terminal_event` and `parse_event`: abstract predicates on bytes.
- Cluster internals behind the handlers (mode runtime, production runtime, admin controller, state store): a set of running jobs and an active-recovery flag in `Shutdown`.
- Real time and liveness: clocks are parameters, timeouts are steps that may happen at any time; that a woken task eventually runs is not stated.
- `src/app.rs` is modelled as a transition system over its atomics, lock and gate rather than as a class, because its handlers interleave.
- The choice of the proxy target (`src/target.rs`), configuration, command line, localisation, launchd, menus and windows: finite case splits or user interface.
- Metrics (`src/metrics.rs`): counters, metric keys and their rendering; the progress readings the detector is fed are its inputs here.
- Token secrecy and constant-time comparison: tokens are identifiers that are never issued twice.
- `RecoveryService`: `mark_post_recovery_canary`, `status`, the serialised form and the validation of request keys; recovery ids and keys are numbers.
- The limits in `RecoveryLimits` count jobs that reached a terminal state or are active; snapshot failures carry a reason that counts as a failure, as all callers pass.
- Migration: directory creation, serialisation of the manifest and the wrap-around of the 64-bit suffix are not modelled; a directory with 2^64 files is out of reach.
- `JobTracker`: the flag for runtimes without the manager API is a field that only polls set.
- Throughput readings are real numbers, infinities or not-a-number; floating-point rounding does not enter, since they are only compared.
