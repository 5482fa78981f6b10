# Automation control plane: a verified model

The control plane keeps a catalog of automations, accepts telemetry about their
executions, turns failures into incidents and governs releases. Beside it runs a
synthetic operations API against which automations act. This project models the
parts of both whose correctness depends on more than one function, and proves what
they keep over every run.

## What is modelled

**The durable outbox and its workers** (`Outbox`, `Incidents`, `WorkerProtocol`).
Any number of workers lease rows for thirty seconds, correlate failures into
incidents, and complete, retry or dead-letter their row, while operators act on the
same incidents, the catalog is synchronized, the clock advances and workers crash.
`WorkerProtocol` is a transition system of fifteen actions; a run is any sequence of
enabled ones. An action is one transaction, but correlation is split into its select
and its write, and burial into its insert and its update, so that others come in
between. Commits whose acknowledgement is lost, calls that abort and a lease whose
answer never arrives are actions too. No action looks at a fencing token, because
the code has none: `Fencing` finds the invariant that makes `leased_by = $2` enough.

- `Settlement`: ownership, stale workers, dead letters, permanence.
- `Scheduling`: the lease budget, exclusive leases, backoff.
- `Recovery`: exactly when a crash leaves recoverable work.
- `FailureLedger`, `IncidentLedger`, `FailureConservation`: failures from report to
  incident, the active-incident index under races, histories that explain rows.
- `OutboxCalls`, `OutboxService`: the repository and processor as classes that
  update tables in place, proved against functions that are runs of the protocol.
- `OutboxEffects`, `IncidentEffects`: what each statement leaves, column by column.
- `HealthyTurns`: what a turn comes to, and what the loop achieves when nothing fails.
- `IncidentService`: the operators' side as classes.

**Telemetry** (`Telemetry`, `TelemetryOrder`, `TelemetryService`, `Ingestion`,
`EndToEnd`). Event log, incremental `executions` aggregate and outbox intent in one
transaction; the aggregate against a batch computation; duplication and reordering;
the handover to the workers, and both together from delivery to incident.

**Governance ledgers** (`ReleaseLedger`, `ReleaseOrigins`, `ReleaseService`,
`Catalog`, `CatalogService`, `Migrations`). Proposers, deciders and synchronizations in any
interleaving; the audit chain of checksums; a migrator that may die anywhere.

**Synthetic operations API** (`Idempotency`, `SyntheticOperations`,
`SyntheticEffects`, `SyntheticService`). Commerce and inspection ledgers behind a replay cache, under
injected failures.

## Where the code keeps less than its documentation says

The model follows the code. Each point below has the exact condition under which
the promise holds.

- docs/architecture.md:240 says that a worker crash leaves work for lease-based
  recovery. It does if and only if the crashed lease was not the row's last attempt
  (`Recovery.CrashRecovery`); a row of the default five attempts can be stranded for
  ever (`Recovery.StrandedMessageIsReachable`).
- docs/security-threat-model.md:57 lists idempotent incident correlation. A failure
  report is counted at least once and at most once per attempt
  (`FailureConservation.NoFailureIsLost`). A report completed at attempt n is sure to
  have been counted once if and only if n is 1
  (`FailureConservation.CountedOnceExactlyAtFirstAttempt`).
- docs/architecture.md:242-245 expects reordered events to do no harm. Times and
  counts never depend on order; status, duration and error code are independent of
  it if and only if all accepted events that could be decisive agree
  (`TelemetryOrder.OutcomeIgnoresOrderExactly`).
- The event contract admits a SUCCEEDED event with an error code; the table's check
  constraint refuses it, and such an event is never accepted
  (`Telemetry.ContractAgainstRowCheck`).
- Independent approval of high-risk releases is checked against a tier read in an
  earlier statement; it fails if and only if the last synchronization in between made
  the automation high-risk (`ReleaseLedger.SeparationFailsExactlyOnRaise`).
- An idempotency record joins operation, inspection id and caller's key with colons
  and hashes the body only. Answers are about the resource asked for if and only if
  the path's id has no colon (`SyntheticOperations.AnswersAreOwnExactlyWithoutColons`).
- An incident's history determines its error code, status, failure count, recovery
  note, its acknowledged, resolved, closed, created and updated times, and whether it
  is assigned, and no other column (`Incidents.HistoryTellsExactly`,
  `FailureConservation.EqualHistoriesTellTheSame`). The automation,
  the correlation key, the severity, the two occurrence times and the assignee's name
  are left open (`FailureConservation.OpeningIsNotRecorded`,
  `OccurrenceIsNotRecorded`, `AssigneeIsNotRecorded`).

## How tables and calls are represented

- Table ids are positions, since rows are only appended; generated UUIDs and worker
  instance ids are fresh. Row locks and unique indexes are guards on actions;
  `locked` stands for the rows that `skip locked` passes over.
- The clock only advances. A step takes its `now()` when it commits.
- JSON strings are tagged by the format that the schemas ask of them. Error texts
  and the workers' history notes are reduced to the kind of error and the error code.
- A request stands for its own SHA-256 hash; a migration's checksum is a parameter,
  injective where that matters. The orders of the synthetic API are a parameter.
- A correlate call that finds its incident locked waits until others move; theorems
  about a whole uninterrupted call or loop say when it finds none locked.
- `System.commits` and `Ledger.clearances` are histories that no table stores. They
  record which correlate calls committed and which tier a decision was cleared
  under, so that theorems can speak about them; no step reads them.
- A class method is one caller's uninterrupted call. What comes in between callers is
  the business of `WorkerProtocol` and `ReleaseLedger`; a `Connection` says of each
  transaction whether it commits, commits without its caller hearing of it, or is
  taken back, and a `Fate` says so of a synchronization, down to the item.
- A delivery carries the automations that the catalog has when it comes, so that a
  refused event may be accepted later. The catalog's loader refuses repeated ids
  (services/control-plane/src/catalog/catalog-loader.ts:41-42) and the manifest schema
  implies the service-level constraints (packages/contracts/src/manifest.ts:90-105);
  the catalog theorems do not rely on either.

## Model

| member | source | states |
|---|---|---|
| `Outbox.NextToLease` | services/control-plane/src/outbox/outbox.repository.ts:44-57 | The row picked is eligible and unlocked and no eligible unlocked row precedes it by (`available_at`, id); nothing is picked only if there is no such row. |
| `Outbox.TotalBackoff` | services/control-plane/src/outbox/outbox.repository.ts:277-279 | The delays after failures of attempts 1 to n add up to 2^n - 1 seconds for n up to 6, and to 63 + 60(n - 6) from there on. |
| `OutboxCalls.LoopIsRun` | services/control-plane/src/outbox/outbox-processor.service.ts:32-46 | Where no turn finds its incident locked, the worker's loop is a run of the protocol granting at most `limit` leases, exactly as many as the count it answers. |
| `OutboxCalls.LoopAnswers` | services/control-plane/src/outbox/outbox-processor.service.ts:36-45 | The loop ends idle with a count of at most `limit`, short of it only when the next lease would find no row; or with an error, and then the process is gone. |
| `OutboxCalls.LoopStaysReachable` | services/control-plane/src/outbox/outbox-processor.service.ts:32-77 | From a reachable state such a loop leads to a reachable one, so every theorem about reachable states holds of what the loop leaves; it spends at most `limit` attempts. |
| `OutboxCalls.CorrelateCallIsRun` | services/control-plane/src/outbox/outbox.repository.ts:166-253 | One correlateFailure call that finds its incident unlocked is, whatever the connection does, a run of the protocol's split steps: select under a row lock, then write. |
| `OutboxCalls.FailCallIsRun` | services/control-plane/src/outbox/outbox.repository.ts:96-164 | One `fail` call is a run: a retry, or a burial in its two halves, chosen by the attempts in the worker's copy. |
| `OutboxCalls.ProcessCallIsRun` | services/control-plane/src/outbox/outbox-processor.service.ts:48-77 | `processOne` is a run: whatever goes wrong before or in `complete` ends in `fail`. |
| `HealthyTurns.TurnComesTo` | services/control-plane/src/outbox/outbox-processor.service.ts:48-77 | Whatever goes wrong in a turn: its row is completed exactly if the attempt raised no error and the completion committed, heard of or not; else it is rescheduled after its backoff, or buried on the last attempt, with the error of the step that failed, unless `fail` is refused too. |
| `HealthyTurns.HealthyTurn` | services/control-plane/src/outbox/outbox-processor.service.ts:48-77 | When nothing fails, a turn completes its message, with one more committed correlation if it is a failure report and none otherwise. |
| `HealthyTurns.HealthyLoopCompletesAll` | services/control-plane/src/outbox/outbox-processor.service.ts:32-46 | From every reachable state, a healthy loop with room for the unsettled rows completes every row that could be leased. |
| `OutboxService.OutboxRepository.Lease` | services/control-plane/src/outbox/outbox.repository.ts:34-79 | In place: the first eligible row gets one more attempt, this owner and thirty seconds, and keeps every other column; the answer is a copy of the updated row. |
| `OutboxService.OutboxRepository.Complete` | services/control-plane/src/outbox/outbox.repository.ts:81-94 | In place: stamps the row and lets go of it if this worker still owns it, and otherwise changes nothing, in every outcome of the connection. |
| `OutboxService.OutboxRepository.Fail` | services/control-plane/src/outbox/outbox.repository.ts:96-164 | In place: on the copy's last attempt leaves a letter and settles the row with the error; before it, makes the row available after the backoff of that attempt, in seconds; each only if this worker owns the row and the transaction commits. |
| `OutboxService.OutboxRepository.CorrelateFailure` | services/control-plane/src/outbox/outbox.repository.ts:166-253 | In place: counts on the active incident, or opens one with the automation's present tier as its severity, each with its history row; fails exactly when the connection does or the automation is unknown and no active incident exists. |
| `OutboxEffects.RetryIsLeasableExactly` | services/control-plane/src/outbox/outbox.repository.ts:143-155 | A row that its owner gives back after a failed attempt can be leased again exactly from 1, 2, 4, 8, 16, 32 or, from the seventh attempt on, 60 seconds later; it keeps its attempts and has the worker's error, and nothing else changes. |
| `OutboxEffects.LeaseHoldsForThirtySeconds` | services/control-plane/src/outbox/outbox.repository.ts:39-66 | A lease takes one attempt and nothing else of the row; nobody can lease it for exactly thirty seconds, and after that exactly if an attempt is left; the worker's copy is the row as it then is. |
| `OutboxEffects.CompletionSettles` | services/control-plane/src/outbox/outbox.repository.ts:81-94 | A completion by the owner stamps the row, keeps its last error, and makes it unleasable for ever. |
| `OutboxEffects.BurialLeavesLetter` | services/control-plane/src/outbox/outbox.repository.ts:104-141 | A burial by the owner adds one letter with the row's topic, aggregate, payload and attempts and the worker's error, and leaves the same error on the row. |
| `OutboxService.OutboxRepository.Bury` | services/control-plane/src/outbox/outbox.repository.ts:104-141 | In place: settles the row with the error and makes sure of a letter, if this worker owns it; else changes nothing. |
| `OutboxService.OutboxRepository.Reschedule` | services/control-plane/src/outbox/outbox.repository.ts:143-155 | In place: makes the row available after the given number of seconds, if this worker owns it; else changes nothing. |
| `OutboxService.OutboxProcessor.ProcessOne` | services/control-plane/src/outbox/outbox-processor.service.ts:48-77 | Does what its specification says, and leaves the worker able to lease again unless `fail` itself raised an error. |
| `OutboxService.OutboxProcessor.ProcessAvailable` | services/control-plane/src/outbox/outbox-processor.service.ts:32-46 | The while loop computes the specified end state and count; it keeps reachability and its leases match its count. |
| `Fencing.StepKeepsInv` | services/control-plane/src/outbox/outbox.repository.ts:34-164 | The fencing invariant: an owned row belongs to a worker that has crashed or holds that very lease, and every other copy of it is older; copies never run ahead of rows; no two workers hold one lease; letters match settled rows. Kept by all fifteen actions in any interleaving. |
| `Settlement.ReachableKeepsInv` | services/control-plane/src/outbox/outbox.repository.ts:34-164 | The fencing invariant holds in every reachable state. |
| `Settlement.OwnerHoldsTheLease` | services/control-plane/src/outbox/outbox.repository.ts:34-94 | A row's owner has crashed or holds a copy equal to the row, `attempts` included; every other worker's copy of the row is of an older lease, whether the owner has crashed or not. |
| `Settlement.StaleWorkerChangesNothing` | services/control-plane/src/outbox/outbox.repository.ts:89-90 | `complete`, retry and burial by a worker whose message was re-leased or settled change neither messages nor dead letters, although the guard compares only the owner. |
| `Settlement.SettlementIsConsistent` | services/control-plane/migrations/003_operational_control_plane.sql:77-107 | Processed means completed or dead-lettered; a processed row has no owner and no lease; a dead-lettered one has exactly one letter, with attempts = max_attempts and the row's last error. |
| `Settlement.RowChangesOnlyByLeaseOrOwner` | services/control-plane/src/outbox/outbox.repository.ts:34-164 | A step changes a row only by leasing it while eligible, or by its owner giving it back. |
| `Settlement.BurialIsAtomic` | services/control-plane/src/outbox/outbox.repository.ts:104-141 | The letter appears exactly when the row is settled, in both halves or neither, although the insert and the update test the owner separately. |
| `Settlement.SettlingStep` | services/control-plane/src/outbox/outbox.repository.ts:81-141 | A message is completed only by its current owner, after correlation if it needs one, and dead-lettered only by its owner on the last attempt. |
| `Settlement.SettlementIsPermanent` | services/control-plane/src/outbox/outbox.repository.ts:81-164 | Over any run, a settled row and its settlement never change again. |
| `Settlement.UnsettledRowIsLeasableOrOwned` | services/control-plane/src/outbox/outbox.repository.ts:44-57 | An unsettled row becomes leasable if and only if an attempt is left; without an owner that is from `available_at` on; without an attempt left it is in the hands of the worker that took the last one. |
| `Scheduling.LeaseBudget` | services/control-plane/src/outbox/outbox.repository.ts:39-49 | Over any run, leases granted = attempts spent, hence at most the total of max_attempts less the attempts spent before. |
| `Scheduling.RowIsStable` | services/control-plane/src/outbox/outbox.repository.ts:44-57 | Over any run, a row that nobody may lease before some time, and whose owner is silent, does not change before that time. |
| `Scheduling.LeaseIsExclusive` | services/control-plane/src/outbox/outbox.repository.ts:43-53 | Over any run within thirty seconds of a lease in which its worker gives nothing back, the row stays exactly as that lease left it. |
| `Scheduling.BackoffIsRespected` | services/control-plane/src/outbox/outbox.repository.ts:143-155 | Over any run that ends before the backoff has passed, a failed row is not touched, so not leased. (The wait itself, from both sides, is OutboxEffects.RetryIsLeasableExactly.) |
| `Recovery.CrashRecovery` | services/control-plane/src/outbox/outbox.repository.ts:44-57 | After its owner crashes, some run leases the row again if and only if the crashed lease was not on the last attempt; otherwise no run changes the row. docs/architecture.md:240 promises recovery after any crash. |
| `Recovery.AttemptsLeftSuffice` | services/control-plane/src/outbox/outbox.repository.ts:44-57 | From any sound state, an unsettled row with an attempt left can be leased again: a clock step, a new worker and a lease are enough. |
| `Recovery.StrandedForever` | services/control-plane/src/outbox/outbox.repository.ts:49 | Over any run, a row on its last attempt whose owner has crashed stays as it is. |
| `Recovery.StrandedMessageIsReachable` | services/control-plane/src/worker-runtime.service.ts:54 | A message with the default five attempts, of any payload, can come to a state from which no run leases or settles it. |
| `FailureLedger.StepKeepsCommits` | services/control-plane/src/outbox/outbox.repository.ts:166-253 | Every committed correlation belongs to a lease of a message that asks for it, at most one per lease, and where each worker stands agrees with what it has committed; kept by every action. |
| `FailureLedger.MessageIsCorrelatedAtMostOncePerAttempt` | services/control-plane/src/outbox/outbox-processor.service.ts:57-68 | A message has at most `attempts` <= `max_attempts` committed correlations, and at least one if it completed and reports a failure; a message that fails its contract never completes. |
| `IncidentLedger.StepKeepsLedger` | services/control-plane/src/outbox/outbox.repository.ts:166-253 | At most one active incident per key, row locks, every row explained by its history, and counts equal to commits, kept by every action of workers and operators. |
| `FailureConservation.FailuresAreConserved` | services/control-plane/src/outbox/outbox.repository.ts:228-245 | For each (automation, correlation key, error code), the failure counts of its incidents add up to the committed correlations of that key. |
| `FailureConservation.CommitsByMessage` | services/control-plane/src/outbox/outbox.repository.ts:166-253 | Counting commits by key or by the messages that report the key gives the same number. |
| `FailureConservation.NoFailureIsLost` | services/control-plane/src/outbox/outbox-processor.service.ts:57-68 | For each key, completed reports <= failures counted <= attempts on reports: no completed failure is missed and duplicates come from retries only. |
| `FailureConservation.ReportCanBeCountedOncePerAttempt` | services/control-plane/src/outbox/outbox.repository.ts:246-249 | The upper bound is met: any failure report can be completed having been counted n times, for every n up to its attempts. docs/security-threat-model.md:57 calls correlation idempotent. |
| `FailureConservation.CountedOnceExactlyAtFirstAttempt` | services/control-plane/src/outbox/outbox.repository.ts:166-253 | For every failure report: each completed message of it with attempts = n is sure to have exactly one committed correlation if and only if n = 1. |
| `FailureConservation.ActiveIncidentIsUnique` | services/control-plane/migrations/003_operational_control_plane.sql:197-199 | In every reachable state at most one OPEN or ACKNOWLEDGED incident exists per key. |
| `FailureConservation.RaceOpensOneIncident` | services/control-plane/src/outbox/outbox.repository.ts:175-249 | Two transactions that both found no incident of one key: in either order of their writes, the tables gain exactly the first one's incident, OPENED entry and commit, and the second fails with the unique violation. |
| `FailureConservation.RaceIsReachable` | services/control-plane/src/outbox/outbox.repository.ts:175-187 | Such a race is reachable, for every two failure reports of one key. |
| `FailureConservation.HistoryExplainsIncident` | services/control-plane/migrations/003_operational_control_plane.sql:173-224 | In every reachable state an incident's history gives its status, failure count, recovery note and times; its first and last occurrence come from its commits. |
| `FailureConservation.RunEvolves` | services/control-plane/src/operations/incident.repository.ts:156-229 | Over any run an incident's rank never falls; once it is resolved, its count, last occurrence, note and assignee are frozen; once closed, the whole row. |
| `FailureConservation.NextFailureOpensNewIncident` | services/control-plane/src/outbox/outbox.repository.ts:189-226 | When no incident of the key is active, the next committed failure opens one with count 1 and the automation's present tier, and changes no older one. |
| `IncidentEffects.OpeningTakesEffect` | services/control-plane/src/outbox/outbox.repository.ts:189-226 | The whole new row, column by column, and its OPENED entry, as the worker's doing. |
| `IncidentEffects.RepetitionTakesEffect` | services/control-plane/src/outbox/outbox.repository.ts:228-244 | A repetition counts one more, keeps the later occurrence and changes nothing else of the row; its entry is the worker's. |
| `IncidentEffects.ActionTakesEffect` | services/control-plane/src/operations/incident.repository.ts:114-252 | Each operator action is allowed in exactly the listed states; it sets its own columns and is recorded as its kind of event with the operator and the note, or changes nothing. |
| `IncidentEffects.SeverityIsTheTierAtOpening` | services/control-plane/src/outbox/outbox.repository.ts:202-211 | Over any run, every incident was opened by one of its writes for a failure at the incident's first time, and still has the tier that its automation had then. |
| `Incidents.HistoryTellsExactly` | services/control-plane/migrations/003_operational_control_plane.sql:173-224 | A history that explains a row explains exactly the rows with its error code, status, failure count, recovery note, five times and having-an-assignee: these columns it determines, and no others. |
| `FailureConservation.EqualHistoriesTellTheSame` | services/control-plane/migrations/003_operational_control_plane.sql:173-224 | In any two reachable states, incidents with equal histories agree on all those columns. |
| `FailureConservation.OpeningIsNotRecorded` | services/control-plane/src/outbox/outbox.repository.ts:189-226 | Any two failures with one error code can leave equal histories and rows that differ in key, severity and first and last occurrence. |
| `FailureConservation.OccurrenceIsNotRecorded` | services/control-plane/src/outbox/outbox.repository.ts:228-244 | Two reports of one key that occurred at different times leave the same history and different last occurrences. |
| `FailureConservation.AssigneeIsNotRecorded` | services/control-plane/src/operations/incident.repository.ts:127-145 | Assignments to two people leave the same history and different rows. |
| `Incidents.GuardMatchesPolicy` | services/control-plane/src/operations/operations-policy.ts:17-28 | The update's SQL guard and the service's check accept the same actions in the same states. |
| `Incidents.ActionIsExplained` | services/control-plane/src/operations/incident.repository.ts:114-154 | Any action that passes its guard leaves a row explained by the history with the appended entry. |
| `Incidents.RepeatIsExplained` | services/control-plane/src/outbox/outbox.repository.ts:228-244 | A repeated failure leaves a row explained by the history with the appended entry. |
| `IncidentService.IncidentRepository.UpdateIncident` | services/control-plane/src/operations/incident.repository.ts:156-229 | In place: each action's guarded statement changes the row as specified exactly when the action is allowed in its state. |
| `IncidentService.IncidentRepository.ApplyAction` | services/control-plane/src/operations/incident.repository.ts:114-154 | In place: updates the row and appends one history row exactly when the action is allowed and the transaction commits, heard of or not; else does neither. |
| `IncidentService.IncidentService.ApplyAction` | services/control-plane/src/operations/incident.service.ts:42-70 | Takes effect exactly when the action is allowed in the state that was read and in the state that is updated and the transaction commits; the answer says so unless the connection was lost. |
| `Telemetry.ContractAgainstRowCheck` | services/control-plane/migrations/003_operational_control_plane.sql:24-37 | Of the events that meet the published contract, the table refuses exactly the SUCCEEDED ones that carry an error code. |
| `Telemetry.IngestedWorkIsNeverRejected` | packages/contracts/src/telemetry.ts:38-62 | A message written for an event that meets the contract passes the worker's schema and asks for correlation if and only if the event is a failure. |
| `Telemetry.EncodingTells` | services/control-plane/src/telemetry/telemetry.repository.ts:89-98 | The payload has exactly the named fields, each with the event's own value; the correlation id falls back on the execution id. |
| `Telemetry.EncodingIsFaithful` | services/control-plane/src/telemetry/telemetry.repository.ts:89-98 | So the payload determines the event's id, key, status, time, error code and correlation key. |
| `Telemetry.SchemaIsWhatIngestionWrites` | services/control-plane/src/outbox/outbox-processor.service.ts:10-21 | The worker's strict schema lets in exactly the payloads that ingestion could write of an event with names. |
| `Telemetry.WorkFollowsFromEvent` | services/control-plane/src/outbox/outbox-processor.service.ts:53-67 | For every topic and every such payload, what the worker does follows from the event: failures are correlated by automation, correlation id and error code, other events need nothing, foreign topics and failures without a code are rejected. |
| `Telemetry.ForeignPayloadsAreRejected` | services/control-plane/src/outbox/outbox-processor.service.ts:53-56 | Every other payload is rejected. |
| `Telemetry.RowCheckRules` | services/control-plane/migrations/003_operational_control_plane.sql:24-37 | The constraint on failure details as three rules about status, error code and duration. |
| `Telemetry.AcceptanceWrites` | services/control-plane/src/telemetry/telemetry.repository.ts:43-107 | An acceptance writes the event as it came with its client and time, and one message that tells of it field by field, with the three ids as its aggregate, untried, leasable at once and five attempts at most; and answers so. |
| `Telemetry.MergeIsAggregate` | services/control-plane/src/telemetry/telemetry.repository.ts:207-240 | The upsert of one event is the group-by of the log with that event added. |
| `Telemetry.IngestionKeepsInv` | services/control-plane/src/telemetry/telemetry.repository.ts:43-114 | After any deliveries: event ids are unique, the aggregate is the group-by of the accepted log, and the outbox holds exactly one intent per accepted event, in order. |
| `Telemetry.IncrementalEqualsBatch` | services/control-plane/src/telemetry/telemetry.repository.ts:175-255 | After any deliveries, an execution has a row if and only if an event of its was accepted, and the row is the batch aggregate of its events. |
| `Telemetry.AggregateTimes` | services/control-plane/src/telemetry/telemetry.repository.ts:209-216 | The batch row's first and latest times are the least and the greatest occurrence. |
| `Telemetry.AggregateCorrelation` | services/control-plane/src/telemetry/telemetry.repository.ts:235-238 | Its correlation id is the first that any event has, if any. |
| `Telemetry.AggregateOutcome` | services/control-plane/src/telemetry/telemetry.repository.ts:217-234 | Its status, duration and error code come from one event: the first accepted terminal one, or else the first. |
| `Telemetry.AggregateRest` | services/control-plane/src/telemetry/telemetry.repository.ts:181-206 | Release and platform are the first event's; the count is the number of events. |
| `Telemetry.ReplayReturnsFirstAcceptance` | services/control-plane/src/telemetry/telemetry.repository.ts:52-71 | A replay after anything in between changes no table and answers the first acceptance time. |
| `Telemetry.AcceptIsAtomic` | services/control-plane/src/telemetry/telemetry.repository.ts:43-114 | A refusal or replay changes no table; an acceptance adds one event and one message; acceptance happens exactly under the stated condition. |
| `Telemetry.RetryAfterFailure` | services/control-plane/src/telemetry/telemetry.repository.ts:108-114 | After a request that failed with its connection, the same request is accepted anew if the first did not commit, and else replays the first acceptance. |
| `TelemetryOrder.AcceptedEvents` | services/control-plane/src/telemetry/telemetry.repository.ts:43-71 | An event ends up in the log if and only if some delivery of it was acceptable when it came, however often, in whatever order and whatever was refused before. |
| `TelemetryOrder.TimesAndCountIgnoreOrder` | services/control-plane/src/telemetry/telemetry.repository.ts:207-239 | First and latest times and the event count depend on the set of events only. |
| `TelemetryOrder.OutcomeIgnoresOrderExactly` | services/control-plane/src/telemetry/telemetry.repository.ts:217-234 | For every stream: all its permutations, and all its reorderings with repetition, leave the same status, duration and error code if and only if all accepted events that could be decisive report one outcome. |
| `TelemetryOrder.ReorderingAndDuplication` | services/control-plane/src/telemetry/telemetry.repository.ts:43-255 | Two streams of the same content, permuted and repeated at will, give a row for the same executions, with the same times and counts. |
| `TelemetryOrder.OneTerminalEventDecides` | services/control-plane/src/telemetry/telemetry.repository.ts:217-234 | With one terminal event of an execution, every such stream leaves that event's outcome. |
| `TelemetryService.TelemetryRepository.InsertEvent` | services/control-plane/src/telemetry/telemetry.repository.ts:116-173 | In place: the order of checks is row check, event id, automation; inserts exactly when all pass. |
| `TelemetryService.TelemetryRepository.UpdateExecution` | services/control-plane/src/telemetry/telemetry.repository.ts:175-255 | In place: the upsert of the specification. |
| `TelemetryService.TelemetryRepository.Accept` | services/control-plane/src/telemetry/telemetry.repository.ts:43-114 | In place: the transaction under every outcome of the connection; an acceptance writes the event and a message that tells of it field by field; keeps the ingestion invariant. |
| `Ingestion.IngestActionAddsIntent` | services/control-plane/src/telemetry/telemetry.repository.ts:74-100 | The message that accepting an event writes is the one that the worker protocol enqueues. |
| `Ingestion.IngestedWorkNeverFailsItsContract` | services/control-plane/src/outbox/outbox-processor.service.ts:53-60 | In any run whose messages come from accepted events, no worker reaches a contract error, and no correlation fails for want of its automation. |
| `EndToEnd.AcceptedFailuresAreCounted` | services/control-plane/src/telemetry/telemetry.repository.ts:43-114 | Ingestion and workers over the same tables, in any interleaving: for each key, the incidents have counted every accepted failure event whose message has completed, and at most five failures per accepted failure event, duplicates not included. |
| `EndToEnd.MovesKeepInStep` | services/control-plane/src/telemetry/telemetry.repository.ts:73-101 | Accepted events and messages stay in bijection while workers lease, retry, complete and bury the messages. |
| `ReleaseLedger.StepKeepsInv` | services/control-plane/src/operations/release.service.ts:27-130 | Release slots stay unique, every history tells its row, and every approval was cleared by the tier that was read; kept by every step of proposers, deciders and synchronizations. |
| `ReleaseLedger.ReleaseIsAccountedFor` | services/control-plane/migrations/003_operational_control_plane.sql:109-168 | After any interleaving: a release's history is PROPOSED by its proposer plus at most one decision, the row's own; its slot is its own; if approved and the tier read was HIGH or CRITICAL, approver and proposer differ. |
| `ReleaseLedger.ProposalTakesFreeSlot` | services/control-plane/src/operations/release.repository.ts:68-141 | An insert adds the proposed release and its history exactly if no release has its automation, version and environment; else nothing. |
| `ReleaseLedger.PolicyStopsOwnHighRiskApproval` | services/control-plane/src/operations/operations-policy.ts:6-15 | Reading the policy ends a proposer's own approval exactly on the tiers HIGH and CRITICAL, and clears every other decision as it was asked for. |
| `ReleaseLedger.FirstDecisionTakesEffect` | services/control-plane/src/operations/release.repository.ts:177-197 | A cleared decision on a proposed release sets status, approver, rationale and time, and its history row; on a decided one it does nothing. |
| `ReleaseOrigins.EveryReleaseHasOrigin` | services/control-plane/src/operations/release.service.ts:27-130 | After any interleaving: every release was proposed in the run by its proposer when the registered manifest, artifact and environment matched and the evidence was good; every decision was committed at its time in a session in which its approver had asked for just that. |
| `ReleaseLedger.DecisionIsFinal` | services/control-plane/src/operations/release.repository.ts:168-206 | Over any run, a decided release and its history never change. |
| `ReleaseLedger.SeparationFailsExactlyOnRaise` | services/control-plane/src/operations/release.service.ts:101-125 | Over every run from the read of the policy to the commit of a decision: a proposer's own approval of a high-risk release takes effect if and only if the last synchronization of its automation in between made it high-risk. |
| `ReleaseLedger.NoRaiseNoFailure` | services/control-plane/src/operations/release.service.ts:102-118 | So separation holds in every run without a synchronization that makes the automation high-risk. |
| `ReleaseLedger.RaiseBreaksSeparation` | services/control-plane/src/operations/release.service.ts:101-125 | From every session about to approve its own proposer's release, one such synchronization is enough to break it. |
| `ReleaseLedger.StaleTierIsReachable` | services/control-plane/src/operations/release.service.ts:101-125 | Such a commit is reachable: a synchronization raises the tier between the read and the update. |
| `ReleaseService.ReleaseRepository.Create` | services/control-plane/src/operations/release.repository.ts:68-141 | In place: inserts row and history exactly when the slot is free and the transaction commits, else neither; which answer in each case. |
| `ReleaseService.ReleaseRepository.Decide` | services/control-plane/src/operations/release.repository.ts:168-206 | In place: decides the row and appends the decision exactly when the row is still proposed and the transaction commits, else changes nothing. |
| `ReleaseService.ReleaseService.Propose` | services/control-plane/src/operations/release.service.ts:27-76 | Leaves a release exactly under the registered policy, with a free slot and a commit, heard of or not; which error when; keeps the ledger's invariant. |
| `ReleaseService.ReleaseService.Decide` | services/control-plane/src/operations/release.service.ts:90-130 | Uninterrupted, decides exactly a proposed release, unless its own proposer approves it on a HIGH or CRITICAL tier, if the transaction commits, heard of or not; keeps the ledger's invariant. |
| `Catalog.AuditIsAChain` | services/control-plane/src/catalog/catalog.repository.ts:61-208 | After any synchronizations, each committed, unheard of or broken off anywhere, each automation's audit starts with REGISTERED and no previous checksum, every later record starts from the one before and changes it, and the last equals the row. |
| `Catalog.AttemptFailsExactly` | services/control-plane/src/catalog/catalog.repository.ts:61-77 | The statements of a synchronization get through if and only if none of them fails and every row meets the constraints. |
| `Catalog.SynchronizeIsAtomic` | services/control-plane/src/catalog/catalog.repository.ts:66-76 | A failure at any item, at the commit or of a constraint leaves rows and audit as they were; otherwise the result is that of the undisturbed synchronization, heard of or not. |
| `Catalog.SynchronizeStoresCatalog` | services/control-plane/src/catalog/catalog.repository.ts:79-208 | A catalog of distinct ids that commits leaves every listed automation's row as its item and adds to its audit exactly the record due: REGISTERED for a new one, the old and the new checksum for a changed one, none otherwise. |
| `Catalog.UnlistedIsUntouched` | services/control-plane/src/catalog/catalog.repository.ts:79-208 | Rows and audits of automations that the catalog does not list stay as they were. |
| `Catalog.ChecksAre` | services/control-plane/migrations/002_automation_catalog.sql:49-51 | The constraints on service levels, as the tables state them. |
| `Catalog.ResynchronizationChangesNothing` | services/control-plane/src/catalog/catalog.repository.ts:128-207 | Synchronizing a catalog again changes neither rows nor audit if and only if it breaks a constraint or lists no id with two checksums. |
| `Catalog.RetriesConverge` | services/control-plane/src/catalog/catalog.repository.ts:61-77 | Whatever number of synchronizations of a catalog failed or went unheard before, a complete one leaves what one alone would. |
| `CatalogService.CatalogRepository.Synchronize` | services/control-plane/src/catalog/catalog.repository.ts:61-77 | The loop in its transaction, failing at any item or at the commit, equals the specification, answers whether its caller may count on it, stores and audits every listed automation, and keeps every chain. |
| `CatalogService.CatalogRepository.SynchronizeAutomation` | services/control-plane/src/catalog/catalog.repository.ts:79-208 | In place: the upsert and the audit record, if any. |
| `Migrations.RunExtendsPrefix` | services/control-plane/src/database/migrate.ts:65-92 | A run takes an applied prefix to the longer prefix that ends before the first file that fails, and reports that file. |
| `Migrations.AppliedIsAPrefix` | services/control-plane/src/database/migrate.ts:65-92 | After any number of runs, each broken off anywhere, exactly a prefix of the files is applied. |
| `Migrations.MigrationsConverge` | services/control-plane/src/database/migrate.ts:47-98 | Whatever runs were broken off before, a complete run leaves what a single clean run would have, with every script executed once and in order and every file recorded with its checksum; a further run changes nothing. |
| `Migrations.ModifiedFileStopsTheLoop` | services/control-plane/src/database/migrate.ts:73-78 | A modified file that was applied ends the loop there: the effect is that of the files before it. |
| `Migrations.ModificationIsNoticed` | services/control-plane/src/database/migrate.ts:70-78 | With a prefix applied, a run reports a modification if and only if an applied file's contents changed, and then changes nothing. |
| `Migrations.Migrator.Run` | services/control-plane/src/database/migrate.ts:47-98 | The loop over the files equals the specification. |
| `SyntheticOperations.EffectsAreRecorded` | services/synthetic-operations-api/src/idempotency.service.ts:40-56 | Over any calls and injected failures, the action of a record key takes effect once if the key is recorded and never otherwise. |
| `SyntheticOperations.CallChangesOnlyByRecording` | services/synthetic-operations-api/src/idempotency.service.ts:23-57 | A call changes nothing at all, or it records a new key together with the one change of its action; an action that throws leaves cache and ledgers alone. |
| `SyntheticOperations.RetryReturnsTheFirstValue` | services/synthetic-operations-api/src/idempotency.service.ts:44-52 | Once a call took effect, whatever it was answered and whatever came in between, the same request without injected failures is answered with the first value and changes nothing. |
| `SyntheticOperations.ErrorsHideEffectsOnlyWhenUncertain` | services/synthetic-operations-api/src/failure-injection.ts:22-41 | A call that took effect is answered with an error if and only if the UNCERTAIN failure was injected after its side effect. |
| `SyntheticOperations.LedgersOverAllCalls` | services/synthetic-operations-api/src/commerce.controller.ts:69-197 | Over any calls: returns and refunds are written once, an inspection leaves PENDING at most once, PASS is always approved, and every refund pays an eligible return of a delivered order exactly the paid amount. |
| `SyntheticOperations.ActKeepsLedgers` | services/synthetic-operations-api/src/field-inspections.controller.ts:54-112 | Every successful action keeps the ledgers sound and only adds to them. |
| `SyntheticEffects.RefusalsBeforeTheCache` | services/synthetic-operations-api/src/commerce.controller.ts:149-168 | When a call is refused before the cache is asked, and with which error: malformed bodies, unknown orders and returns, refunds of ineligible returns or wrong amounts, injected failures; none of them changes anything. |
| `SyntheticEffects.IdentifiersAreDashedWords` | packages/contracts/src/synthetic-operations.ts:5-8 | Identifiers are words of lower-case letters and digits joined by dashes, of at most a hundred characters. |
| `SyntheticEffects.RefusalsAndReplays` | services/synthetic-operations-api/src/idempotency.service.ts:29-52 | When the cache refuses a key, and what it answers for one that it has: the recorded value for the same body, a conflict for another; neither changes anything. |
| `SyntheticEffects.NewKeysTakeEffect` | services/synthetic-operations-api/src/commerce.controller.ts:69-197 | A call with a good and new key changes the ledgers as its request says, every field stated, records the value and answers with it; or meets an existing resource and changes nothing. |
| `SyntheticEffects.OnlyNewKeysTakeEffect` | services/synthetic-operations-api/src/idempotency.service.ts:40-56 | Every call that takes effect is of that kind. |
| `SyntheticEffects.FreshAnswersAreMade` | services/synthetic-operations-api/src/field-inspections.controller.ts:38-115 | Every successful answer that is no replay comes with the ledgers changed as the request says. |
| `SyntheticEffects.SameBodies` | services/synthetic-operations-api/src/idempotency.service.ts:41-46 | Two requests count as the same input exactly if their bodies are equal; the id in a decision's path is no part of it. |
| `SyntheticEffects.InspectionsFollowDecisions` | services/synthetic-operations-api/src/field-inspections.controller.ts:54-114 | After any calls, an inspection is approved exactly if it passed or a decision that took effect approved it, and rejected exactly if one rejected it. |
| `SyntheticOperations.RecordKeysAreInjective` | services/synthetic-operations-api/src/idempotency.service.ts:40 | The record key determines operation, inspection and caller's key when the ids of decisions contain no colon. |
| `SyntheticOperations.AnswersAreOwnExactlyWithoutColons` | services/synthetic-operations-api/src/field-inspections.controller.ts:94-114 | After any calls, a successful answer is about the resource asked for if and only if the id in the path has no colon. |
| `SyntheticOperations.ColonsReachForeignAnswers` | services/synthetic-operations-api/src/field-inspections.controller.ts:85-97 | A decision on an inspection that does not exist, with a colon in its path id, is answered with the recorded decision on another. |
| `SyntheticService.IdempotencyService.Recall` | services/synthetic-operations-api/src/idempotency.service.ts:29-52 | Before the action: refuses a malformed key or other input under a used key, or finds the recorded value. |
| `SyntheticService.CommerceController.CreateReturn` | services/synthetic-operations-api/src/commerce.controller.ts:69-110 | In place: new state and answer are those of the specified call; a fresh answer leaves the return with the eligibility, amount and status that its order and reason call for. |
| `SyntheticService.CommerceController.CreateWarehouseWork` | services/synthetic-operations-api/src/commerce.controller.ts:121-147 | In place: new state and answer are those of the specified call; a fresh answer leaves the work item for its return; the failure mode is not read. |
| `SyntheticService.CommerceController.CreateRefund` | services/synthetic-operations-api/src/commerce.controller.ts:149-197 | In place: new state and answer are those of the specified call; a fresh answer leaves the refund and its callback. |
| `SyntheticService.FieldInspectionsController.Create` | services/synthetic-operations-api/src/field-inspections.controller.ts:38-72 | In place: new state and answer are those of the specified call; a fresh answer leaves the inspection approved if it passed and pending if not, and its callback. |
| `SyntheticService.FieldInspectionsController.Decide` | services/synthetic-operations-api/src/field-inspections.controller.ts:85-115 | In place: new state and answer are those of the specified call; a fresh answer leaves a pending inspection approved or rejected as asked, and its callback; the body alone is compared on replay. |

## Left out

- WorkerProtocol.Step: a transaction's `now()` is read at its commit, not at its
  first statement, so times that a long transaction dates back to its start are not
  distinguished.
- A select that waits for a row lock is not a step of its own; it takes place when the
  lock is free.
- Total refunds per return: distinct refund ids may refund one return repeatedly, so
  no bound is stated.
- `first_occurred_at` of an incident is the opening failure's time, as proved, and
  not the least time.
- Concurrent first registrations of one automation: `for update` locks no row then,
  and catalog synchronizations are taken one after the other.
- PostgreSQL's own isolation, deadlocks and storage failures: a transaction commits
  or leaves no trace.
- String formats and length bounds of the telemetry and governance contracts: only
  presence, non-emptiness and the rules about status, error code and duration are
  modelled. The release contracts' other fields (commit, rollback instructions,
  configuration changes) decide nothing and are not modelled.
- Unregistered environment and platform checks above the telemetry repository, and
  the two constraints on telemetry enumerations: they only refuse more events.
- Heartbeats, idle waiting, shutdown signals, metrics, tracing, logging and health.
- An unsupported value of the failure header, answered like TRANSIENT after the same
  checks; claims, partner cases, signed callbacks and read-only routes.
- HTTP, authentication, sessions, environment parsing and the web application.
- Provider packages (n8n, Zapier, Make, Power Platform), deployment files and drills.
