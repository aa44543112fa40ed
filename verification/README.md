# Athlos verification model

Models of the stateful protocols and the pure cores of the Athlos club-management system, with proofs
about every input, every run and every interleaving. `dafny verify dfyconfig.toml` checks everything.

Shared-state protocols are transition systems. One SQL statement (or one transaction, where the code
uses one) is one atomic step over maps; any number of workers interleave, fail, roll back or crash
between steps. Where the program keeps the state in fields or rows that it changes in place, a class does
the same, and its methods are proved to take exactly those steps. What the functions of a model compute
is also said without them, about rows, columns and events, so that the two can be read against each other.

- **Evidence closure.** `ClosureLease` is the fenced lease. `ClosureEvidence` holds the rows, receipts
  and counting loops; `ClosurePhases` the three transactional phases as a state machine;
  `ClosureGuarantees` what every interleaving keeps; `ClosureMeaning` and `ClosureApplications` what the
  rows and counts mean, said about the tables; `ClosureCitations` the foreign keys to the catalog;
  `ClosureStore` the phases as one session runs them;
  `ClosureJob` the job that renews the lease before each phase and reconciles the receipts.
- **Scheduler.** `RunTracker` is the job_runs table, `Scheduler` the transition system and its invariant,
  `SchedulerGuarantees` the lifecycle, retry and shutdown results, `SchedulerOutcomes` how a row ends, told
  by what its handler did, `SchedulerAdmission` what gets in and what stop makes of the rest,
  `SchedulerOverlap` the concurrency guard,
  `SchedulerClass` the class with its separate maps and sets.
- **Approvals.** `ApprovalQueue` is cursor paging over a table that changes, `ApprovalDecision` deciding,
  consuming and executing under races, `ApprovalConsumption` when a request is used, `ApprovalCreate` idempotent creation under a unique index,
  `ApprovalRequestAlone` one create or route that nothing disturbs,
  `ApprovalRace` when one caller key ends with two rows, and what the routes' locks leave of that.
- **Batch pipelines.** `ImportPipeline` and `ImportRun` are the buffered import against row-by-row inserts,
  `Promotion` and `PromotionRun` the promotion of ctacte and ctacte1 and the order of domains,
  `PromotionKeys` the legacy id as SQL and as JavaScript compute it, `PromotionGuarantees` what follows
  for one run, `PromotionHistory` for any sequence of runs, failed ones among them.
- **Cores.** `CanonicalJson` (two hashing forms), `Csv` (printer against an RFC 4180 section 2 parser),
  `Saldo` (exact cents), `RefreshTokens` (rotation), `RefreshProvenance` (where tokens come from),
  `RefreshAlone` (one call that nothing disturbs), `RefreshRevocation` (what a deletion leaves),
  `Lockout` (login rate bound).

## Assumptions

- (execution_identity, phase) is unique for phase receipts and execution_identity for application
  receipts; (source_table, source_key, content_hash) and legacy_id are unique in raw_events; legacy_id is
  unique on the master tables; the resolutions of an evidence row form one chain, each superseding the one
  before; action_id is unique per approval request; every membership snapshot is in state `applied`, which
  no code ever takes back.
- A statement that fails has no effect, and neither has a transaction that does not commit.
- SHA-256 and JSON.stringify are injective on the values they are given.
- Clocks, random ids, database answers and file contents are parameters or nondeterministic events.

## What the code does that its documentation does not say

Each of these is a theorem, with the exact condition where the documented property does hold.

- The scheduler's "previous run still in progress" guard covers first attempts of ticks only: exactly when an
  execution starts beside another one of its job is `StartsBesideIff` and, over whole runs, `JobsOverlapIff`
  (`RunNowOverlapsATick` and `RetryOverlapsATick` are such runs). A retry does not re-read its row, contrary
  to its comment; it need not, since the row is always failed with the previous attempt when its timer fires
  (`RowMoves`).
- `stop` reaches its sweep iff none of the executions it waits for is rejected by a failed write
  (`RejectionSkipsTheSweepIff`, `RejectionLeavesARowRunning`).
- A members phase over a batch with a raw event that has no identity evidence can never commit, because
  of the receipt's CHECK (`MembersCommitsIff`). A new execution identity cannot rebuild a catalog that any
  evidence, application or resolution cites, even a superseded one (`CandidatesCommitsIff`,
  `CitedCatalogIsFrozen`): after a first closure that validated a row, every other execution identity on the
  same catalog fails (`SecondExecutionFails`).
- Lease intervals of different fences can share an instant only after some worker renewed or released with a
  clock behind its own grant (`HoldsOverlapIff`, `HoldsNeverOverlap`, `BackwardClockOverlaps`).
- The legacy id of a raw event and that of its master row agree iff no key column holds a number that
  JavaScript prints with an exponent (`LegacyIdsAgreeIff`). Outside that range a wrong raw event can be
  stamped (`ExponentTwinsStampTheWrongRow`).
- Within it a run stamps exactly the rows it inserted iff it did not both insert something and end in the
  catch-all error (`RunStampsItsInsertsIff`). What such a run inserted keeps its master row and is never
  stamped by any later run (`StampedAndStrandedIff`, `StrandedForever`, `StrandedIsReachable`); a later run
  that goes through still completes the master (`RunThatGoesThroughCompletes`).
- Lineage recomputes the import's hash iff the stored payload has no null or legacyKey field and its
  arrays are already canonical (`VerifyHashMatchesIff`, `NullColumnNeverVerifies`).
- The caller key of a community-work request has no unique index: two requests with one key both get a row
  iff they ask for different obligations and race (`KeyHasTwoRowsIff`, `BothRequestsGetRowsIff`); a retry of
  the same request that races is refused as a conflict (`RacedRetryConflicts`). The recovery from a violated
  condonation key works only outside a transaction, and the routes call it inside one
  (`LostRaceOfARoute`, `LostRaceAlone`).
- The deletion of an operator can leave a live refresh token iff a refresh or login is past its read of the
  operator when the revoking statement starts (`DeletionCanLeaveALiveTokenIff`, `SurvivorIsReachable`).
- CSV without columns does not parse back (`ParsingUndoesPrintingIff`).

## Model

| member | source | states |
|---|---|---|
| ClosureLease.LeaseStore.AcquireClosureLease | packages/db/src/evidence-closure.ts:57-72 | granted iff the pair has no row or one that expires at or before the given instant; then owner, new end, and fence 1 or the old fence plus one; otherwise nothing changes |
| ClosureLease.LeaseStore.RenewClosureLease | packages/db/src/evidence-closure.ts:74-87 | true iff the row has the caller's owner and fence and expires strictly after the given instant; then only its end moves, otherwise nothing changes |
| ClosureLease.LeaseStore.ReleaseClosureLease | packages/db/src/evidence-closure.ts:89-102 | true iff the row has the caller's owner and fence and expires strictly after the given instant; then it ends at that instant, otherwise nothing changes |
| ClosureLease.FenceMonotone | packages/db/src/evidence-closure.ts:57-102 | over every run rows never vanish, fences never fall, and a row that keeps its fence keeps its owner |
| ClosureLease.FencesStrictlyIncrease | packages/db/src/evidence-closure.ts:57-72 | successive grants of one pair carry strictly increasing fences, at any clocks |
| ClosureLease.SupersededIsDead | packages/db/src/evidence-closure.ts:74-102 | a fence that a later grant superseded never renews or releases again, whatever clock it passes |
| ClosureLease.SuccessIsLatestGrant | packages/db/src/evidence-closure.ts:74-102 | a renewal or release that succeeds carries the owner and fence of the latest grant before it |
| ClosureLease.RowIsLastHold | packages/db/src/evidence-closure.ts:57-102 | the row is always the newest holding interval, and the fence counts the intervals |
| ClosureLease.StatementsMoveHolds | packages/db/src/evidence-closure.ts:57-102 | told by the holding intervals alone: a grant needs the newest one to have ended; a renewal or release takes effect iff it carries that one's owner and fence and a clock strictly before its end, and then moves that end and nothing else |
| ClosureLease.EndedHoldsStayEnded | packages/db/src/evidence-closure.ts:74-102 | over every run a statement that changes an interval passes a clock strictly before its end: no hold is extended at or after its end |
| ClosureLease.LateClocksExtendNothing | packages/db/src/evidence-closure.ts:74-102 | while every clock is at or after its end an interval stays as it is |
| ClosureLease.HoldsOverlapIff | packages/db/src/evidence-closure.ts:57-102 | at any clocks two intervals share an instant only if some grant between them was left to end before it began; exactly when they do is told by their ends |
| ClosureLease.NextGrantCanOverlapIff | packages/db/src/evidence-closure.ts:57-72 | some next acquire would be granted beside an interval that still lasts iff the row says it expired before that interval ends |
| ClosureLease.ForwardClockSuffices | packages/db/src/evidence-closure.ts:57-102 | a clock that never goes back, with positive durations, gives the condition for every key |
| ClosureLease.HoldsNeverOverlap | packages/db/src/evidence-closure.ts:57-102 | mutual exclusion without a common clock: when no renewal or release leaves its own grant to end before it began, no instant lies in the intervals of two fences |
| ClosureLease.RenewalIsInsideOwnHold | packages/db/src/evidence-closure.ts:74-87 | when each grantee's own clock does not go back, the instant of a successful renewal lies inside its own fence's interval, after all older and before all newer ones |
| ClosureLease.BackwardClockOverlaps | packages/db/src/evidence-closure.ts:57-102 | the condition is needed: a run in which one release with a clock behind its own grant lets two other fences hold one instant |
| ClosureEvidence.ProjectedRowsAreAttachedIffValidated | packages/promotion/src/legacy-membership-evidence.ts:216-240 | a projected row has a member and a type iff it is validated |
| ClosureEvidence.ReconciledIffComplete | packages/promotion/src/legacy-membership-evidence.ts:244-270 | the receipt's counts satisfy its CHECK iff every raw event of the batch has an evidence row |
| ClosureEvidence.OutcomesPartitionLeaves | packages/promotion/src/legacy-member-evidence-resolution-application.ts:69-80 | every exception has exactly one outcome, and unresolved splits into unknown type and ambiguous identity |
| ClosureEvidence.FingerprintFixesCounts | packages/promotion/src/legacy-member-evidence-resolution-application.ts:36-53 | two sets of leaves with one fingerprint agree on every count but the split of resolved ones into applied and stale |
| ClosureEvidence.SameEvidenceReconciles | packages/promotion/src/legacy-member-evidence-resolution-application.ts:142-159 | over the same evidence rows the counts of the projection and of the resolution loop always reconcile |
| ClosureEvidence.CountOutcomes | packages/promotion/src/legacy-member-evidence-resolution-application.ts:142-159 | the counting loop yields the number of leaves with each outcome |
| ClosureEvidence.InsertApplications | packages/promotion/src/legacy-member-evidence-resolution-application.ts:179-195 | the insert loop writes one application for each applied leaf and no other |
| ClosurePhases.RebuildIsDetermined | packages/promotion/src/legacy-membership-evidence.ts:168-175 | each code of the batch gets the one source row of greatest (ordinal, id); no other choice satisfies the query |
| ClosurePhases.RunInv | packages/promotion/src/legacy-membership-evidence.ts:32-63 | the invariant of the phase machine holds after every interleaving of statements, failures, rollbacks, crashes and unacknowledged commits |
| ClosurePhases.PublishedIsTrue | packages/promotion/src/legacy-membership-evidence.ts:118-145 | the receipt that a COMMIT publishes is true of the tables it publishes |
| ClosureGuarantees.StepPublishesAtMostOneReceipt | packages/promotion/src/legacy-membership-evidence.ts:32-63 | tables change only in a COMMIT that publishes the receipt of a key that had none, and only in the rows that call may touch; committed receipts stay |
| ClosureGuarantees.ReceiptsArePermanent | packages/promotion/src/legacy-membership-evidence.ts:95-145 | a committed receipt is never changed or removed |
| ClosureGuarantees.EffectsHappenOnce | packages/promotion/src/legacy-membership-evidence.ts:95-272 | whatever workers crash, retry or overlap, tables change at most once on behalf of one (execution identity, phase) |
| ClosureGuarantees.ReturnsTheCommittedReceipt | packages/promotion/src/legacy-membership-evidence.ts:95-116 | calls that return for one key, at any times, all return the one committed receipt with their own batch and fingerprint |
| ClosureGuarantees.IncompatibleCallIsInert | packages/promotion/src/legacy-membership-evidence.ts:111-114 | over every run a call whose batch or fingerprint differs from the committed receipt never returns and none of its statements changes a table |
| ClosureGuarantees.MembersReceiptStaysTrue | packages/promotion/src/legacy-membership-evidence.ts:205-271 | after a members receipt every raw event of its batch has evidence and the receipt equals the table's counts at every later moment |
| ClosureGuarantees.ApplicationRowsMatchReceipt | packages/promotion/src/legacy-member-evidence-resolution-application.ts:160-198 | an execution has application rows iff it has a receipt, as many as the receipt's applied count |
| ClosureGuarantees.ApplicationAlwaysReconciles | packages/promotion/src/legacy-member-evidence-resolution-application.ts:82-198 | an application that starts after a members receipt of its batch, fresh or replayed, whatever happens in between, returns counts that reconcile with that receipt |
| ClosureGuarantees.MembersCommitsIff | packages/promotion/src/legacy-membership-evidence.ts:205-271 | an undisturbed fresh members phase commits iff its fingerprint is not empty, every joined row can be inserted and no raw event lacks both evidence and identity; otherwise it changes nothing |
| ClosureGuarantees.CompleteBatchGetsItsReceipt | packages/promotion/src/legacy-membership-evidence.ts:205-271 | when no transaction is under way, a members phase over a batch in which every raw event can be inserted and has identity evidence commits its receipt and exactly the missing evidence rows |
| ClosureGuarantees.CandidatesCommitsIff | packages/promotion/src/legacy-membership-evidence.ts:148-202 | an undisturbed fresh candidates phase commits iff its fingerprint is not empty, the snapshot exists and no evidence, application or resolution, superseded or not, cites a candidate of the batch; then it leaves the rebuilt catalog |
| ClosureMeaning.RebuildTakesLatestRows | packages/promotion/src/legacy-membership-evidence.ts:168-175 | a rebuilt catalog has exactly the codes of its batch, each with the row of greatest ordinal and then greatest id |
| ClosureMeaning.CitedIffSomethingPoints | packages/db/drizzle/0044_socios_member_evidence_resolutions.sql:7-29 | a catalog cannot be rebuilt iff some evidence, application or resolution, superseded or not, points at one of its candidates |
| ClosureMeaning.MembersPhaseMeans | packages/promotion/src/legacy-membership-evidence.ts:205-271 | an undisturbed members phase, told by the tables: exactly when it commits, and then each new row is validated, with its identity's member and the newest snapshot's candidate, iff the identity was validated, named a member and the code was in that catalog; missing_identity, unknown_type and ambiguous_identity each iff their own case; the receipt counts every state |
| ClosureMeaning.EvidenceSaysWhatWasKnown | packages/promotion/src/legacy-membership-evidence.ts:216-240 | over every run from empty tables a committed row says what identity evidence and catalog said when its INSERT ran; a row with a member had validated identity evidence for that member |
| ClosureMeaning.MembersReceiptCountsTheTable | packages/promotion/src/legacy-membership-evidence.ts:244-270 | at every later moment the receipt's counts are the number of rows of the batch in each state, and account for every raw event |
| ClosureMeaning.ReturnedReceiptIsItsOwn | packages/promotion/src/legacy-membership-evidence.ts:95-116 | over every run a call that returns does so with the committed receipt of its own execution, phase, batch and fingerprint |
| ClosureMeaning.DifferingCallIsInert | packages/promotion/src/legacy-membership-evidence.ts:111-114 | a call that differs from the committed receipt in batch or fingerprint never returns and changes no table |
| ClosureApplications.OutcomeMeans | packages/promotion/src/legacy-member-evidence-resolution-application.ts:69-80 | the outcome of an exception told by the tables: technical iff missing_identity; unresolved iff nobody resolved it; applied iff its last resolution has its state as kind, the raw event's content hash as fingerprint, and a member and candidate that exist; stale iff it has a resolution and that fails |
| ClosureApplications.ReadingCounts | packages/promotion/src/legacy-member-evidence-resolution-application.ts:142-159 | the counts are the sizes of those sets of exceptions |
| ClosureApplications.SameFingerprintIff | packages/promotion/src/legacy-member-evidence-resolution-application.ts:36-53 | two readings have one fingerprint iff they see the same exceptions in the same states with the same last resolutions |
| ClosureApplications.ApplicationsHeldWhenRead | packages/promotion/src/legacy-member-evidence-resolution-application.ts:95-198 | over every run the application rows of an execution are exactly those whose resolution held when an application of it read the tables, with that resolution's id, member and type, and its receipt counts the outcomes of that moment |
| ClosureApplications.WaitsIff | packages/promotion/src/legacy-membership-evidence.ts:157-167 | exactly when a statement of one transaction waits for another: the snapshot's row lock, uncommitted rows of the same batch, foreign keys between a rebuild and uncommitted citations, the advisory lock, an uncommitted key |
| ClosureApplications.ApplicationsOfOneExecutionFollowEachOther | packages/promotion/src/legacy-member-evidence-resolution-application.ts:94-95 | over every run of two applications of one execution at most one is between its reading and its end |
| ClosureCitations.RunCitesOk | packages/db/drizzle/0044_socios_member_evidence_resolutions.sql:7-29 | referential integrity of committed and uncommitted rows holds in every interleaving of phases and new resolutions |
| ClosureCitations.CitationsResolve | packages/db/drizzle/0045_socios_member_evidence_resolution_applications.sql:17-29 | over every run from empty tables, every row that cites a candidate finds it |
| ClosureCitations.CitedCatalogIsFrozen | packages/promotion/src/legacy-membership-evidence.ts:164-175 | from the moment anything cites a candidate of a batch, no run ever changes that catalog or gives it another candidates receipt |
| ClosureCitations.SecondExecutionFails | packages/promotion/src/legacy-membership-evidence.ts:148-202 | on every input: once a first closure has validated a row, a second execution identity on the same catalog fails in its candidates phase and changes nothing |
| ClosureStore.EvidenceStore.ReplayOrReject | packages/promotion/src/legacy-membership-evidence.ts:95-116 | no receipt, the compatible receipt, or a rejection |
| ClosureStore.EvidenceStore.ProjectLegacyMembershipCandidates | packages/promotion/src/legacy-membership-evidence.ts:148-202 | one call, told by the tables: replays only its own batch and fingerprint, otherwise rebuilds the latest rows iff nothing points at the catalog; and exactly what its worker does in the phase machine when nothing else runs |
| ClosureStore.EvidenceStore.ProjectLegacyMemberEvidence | packages/promotion/src/legacy-membership-evidence.ts:205-272 | one call, told by the tables: replays only its own batch and fingerprint, otherwise each new row says what its identity evidence and the newest catalog say; and exactly what its worker does in the phase machine |
| ClosureStore.EvidenceStore.ApplyLegacyMemberEvidenceResolutions | packages/promotion/src/legacy-member-evidence-resolution-application.ts:82-205 | one call, with its two loops, told by the tables: which resolutions it applies, what it counts and when it replays or refuses; and exactly what its worker does in the phase machine |
| ClosureJob.ClosureRun.Enter | apps/api/src/jobs/socios-evidence-closure.ts:113-118 | a phase starts iff not cancelled, lease renewed, not cancelled again, in this order, and the trace stays gated |
| ClosureJob.EveryPhaseIsGated | apps/api/src/jobs/socios-evidence-closure.ts:113-118 | right before a phase runs the job was found not cancelled, renewed its lease, and was found not cancelled again |
| ClosureJob.CompletesIff | apps/api/src/jobs/socios-evidence-closure.ts:83-173 | when a job completes, spelled out on gates, receipts and counts, and its phases in their order |
| ClosureJob.ClosureRun.RunSociosEvidenceClosure | apps/api/src/jobs/socios-evidence-closure.ts:109-173 | phases run in the planned order, each right behind its gate; the job returns iff every gate opened, every phase returned and the receipts leave nothing unaccounted for |
| ClosureJob.ResultAccountsForEveryRow | apps/api/src/jobs/socios-evidence-closure.ts:127-142 | with an application eligible = projected + applied + unresolved and success iff eligible = projected + applied; without one nothing is missing and success iff eligible = projected |
| ClosureJob.RealReceiptsCompleteIff | apps/api/src/jobs/socios-evidence-closure.ts:83-142 | with receipts that the phases really produce the reconciliation never fails: behind open gates the job completes iff nothing is stale or without member identity |
| ClosureJob.RerunsAgree | apps/api/src/jobs/socios-evidence-closure.ts:109-173 | two runs with one execution identity, both with or both without a resolution application, that complete return the same result, however they crash, retry or overlap |
| ClosureJob.PhasesStartInsideOwnHold | apps/api/src/jobs/socios-evidence-closure.ts:113-118 | every phase starts right after a renewal inside the holding interval of the job's own fence, at whatever clocks the other jobs pass |
| RunTracker.JobRuns.RecordStart | packages/scheduler/src/run-tracker.ts:38-53 | inserts a pending row with attempt 1 and changes no other |
| RunTracker.JobRuns.RecordFinish | packages/scheduler/src/run-tracker.ts:77-109 | writes exactly the given fields of the row; given metadata replaces every key that binds nothing and adds binding keys that were absent, stored binding keys win; null for an unknown row |
| RunTracker.JobRuns.MarkInflightAsShutdown | packages/scheduler/src/run-tracker.ts:143-153 | fails exactly the running rows with the shutdown message; reports how many only when the driver answers with an array of rows, otherwise 0 |
| RunTracker.BindingIsPermanent | packages/scheduler/src/run-tracker.ts:84-101 | a binding key (lease owner and fence among them) keeps its value through every later write |
| Scheduler.RunInv | packages/scheduler/src/scheduler.ts:177-430 | the scheduler's invariant holds after every sequence of ticks, runNow, writes, handler outcomes, timers and shutdown steps |
| SchedulerGuarantees.RowMoves | packages/scheduler/src/scheduler.ts:350-388 | before the sweep a row moves only pending to running, running to success-like or failed, failed to running by a retry with the next attempt, failed to dead_letter from attempt 3 |
| SchedulerGuarantees.TerminalIsForever | packages/scheduler/src/run-tracker.ts:77-108 | success-like and dead-letter rows never change again, not even by the shutdown sweep |
| SchedulerGuarantees.CleanupAfterDurableSuccess | packages/scheduler/src/scheduler.ts:353-364 | post-commit clean-up (the release of a closure's lease) starts only on a row durably in a success-like status |
| SchedulerGuarantees.AttemptsInOrder | packages/scheduler/src/scheduler.ts:325-396 | a row's handler is called with attempts 1, 2, 3 in order and never a fourth time; dead_letter has used all three |
| SchedulerGuarantees.SchedulerKeepsBinding | packages/scheduler/src/run-tracker.ts:84-101 | a row's binding metadata survives whatever the scheduler writes in any run |
| SchedulerGuarantees.RowsComeToRest | packages/scheduler/src/scheduler.ts:366-396 | 3 minus attempt, then the stage, is a termination measure: a row's stage moves at most 24 times in any run |
| SchedulerOutcomes.RowEndsAsItsHandlerReturned | packages/scheduler/src/scheduler.ts:353-359 | over every run, after a handler's result and its successful closing write the row has the returned status, so completed_with_review never reads succeeded; returned metadata sets every non-binding key, empty metadata changes nothing |
| SchedulerOutcomes.RowFailsAsItsHandlerThrew | packages/scheduler/src/scheduler.ts:366-388 | after a handler throws and that is written the row is failed with that error and attempt, a retry for the next attempt is armed iff fewer than three were made, else the dead-letter write follows |
| SchedulerOutcomes.LostSuccessIsAFailedAttempt | packages/scheduler/src/scheduler.ts:355-383 | a success whose closing write fails is recorded as a failed attempt and retried like one |
| SchedulerOutcomes.ThirdFailureIsADeadLetter | packages/scheduler/src/scheduler.ts:384-388 | the dead letter carries the error of the third attempt and nothing of the row is left in flight |
| SchedulerOutcomes.HandlerRunsOnARunningRow | packages/scheduler/src/scheduler.ts:350-353 | a handler is called only on a row durably running, with the number of earlier calls plus one as attempt |
| SchedulerOutcomes.TimerStartsTheArmedAttempt | packages/scheduler/src/scheduler.ts:424-427 | a retry timer outside shutdown starts the armed attempt, one more than recorded on the failed row |
| SchedulerOutcomes.InFlightCanBeAborted | packages/scheduler/src/scheduler.ts:333-334 | whatever is in flight has an abort controller |
| SchedulerOverlap.StartsBesideIff | packages/scheduler/src/scheduler.ts:294-333 | a tick that passed the guard starts beside another execution of its job iff a manual run or a retry of the job is in flight; a manual run or retry does iff one of those is or a recorded tick holds the name |
| SchedulerOverlap.JobsOverlapIff | packages/scheduler/src/scheduler.ts:294-333 | over every run two executions of one job are ever in flight together iff some execution was started where that condition held |
| SchedulerOverlap.GuardCoversFirstAttemptsOfTicks | packages/scheduler/src/scheduler.ts:294-316 | first attempts of ticks of one job never overlap |
| SchedulerOverlap.RunNowOverlapsATick | packages/scheduler/src/scheduler.ts:229-249 | a run from the initial state with a manual run's handler beside a tick's |
| SchedulerOverlap.RetryOverlapsATick | packages/scheduler/src/scheduler.ts:398-429 | a run from the initial state with a retry's handler beside a newer tick's |
| SchedulerGuarantees.DrainingOnlyShrinks | packages/scheduler/src/scheduler.ts:325-333 | once stopping, nothing new gets in flight and every handler called later was in flight then; timers armed while draining start nothing |
| SchedulerGuarantees.RetryArmedWhileDrainingNeverRuns | packages/scheduler/src/scheduler.ts:410-429 | a retry timer armed while draining never leads to a handler call |
| SchedulerGuarantees.StopWaitsForExactlyTheInFlight | packages/scheduler/src/scheduler.ts:193-213 | stop waits for exactly the executions in flight: it goes on iff the last one settles or the timeout fires, and fails iff one of them is rejected |
| SchedulerGuarantees.DrainedLeavesNothingRunning | packages/scheduler/src/scheduler.ts:177-218 | if all in-flight work ended in time a row is still running exactly where its closing write failed |
| SchedulerGuarantees.RejectionSkipsTheSweepIff | packages/scheduler/src/scheduler.ts:194-216 | over every run stop has failed, and never sweeps again, iff at some moment an execution it was waiting for was rejected by a failed write |
| SchedulerGuarantees.RejectionLeavesARowRunning | packages/scheduler/src/scheduler.ts:194-216 | a run from the initial state after which, whatever comes, a row stays running and is never swept |
| SchedulerAdmission.OnlyRegisteredJobsRun | packages/scheduler/src/scheduler.ts:229-304 | over every run only registered jobs tick, are run by hand or have rows |
| SchedulerAdmission.NothingIsAdmittedWhileStopping | packages/scheduler/src/scheduler.ts:229-236 | once stopping no job is registered and no manual run is accepted |
| SchedulerAdmission.ManualRunsKeepTheirJob | packages/scheduler/src/scheduler.ts:229-249 | outside shutdown a manual run of a registered job is accepted whatever runs, and its row is a pending one of that job, started unless stopping |
| SchedulerAdmission.FailedTickFreesItsJob | packages/scheduler/src/scheduler.ts:311-315 | a tick whose row could not be inserted lets the next tick of the job pass the guard |
| SchedulerAdmission.ExecutionsEnd | packages/scheduler/src/scheduler.ts:350-395 | an execution ends with its clean-up or with a failed recordRunning, touching no row and arming no retry |
| SchedulerAdmission.StopFindsTheInFlight | packages/scheduler/src/scheduler.ts:177-199 | stop clears every retry, touches no row and waits for exactly what is in flight, or for nothing |
| SchedulerAdmission.SweepFailsTheRunning | packages/scheduler/src/scheduler.ts:213-217 | the sweep runs once, after a drained or timed-out wait, and fails exactly the running rows with the shutdown message |
| SchedulerClass.InProcessScheduler.Schedule | packages/scheduler/src/scheduler.ts:91-118 | registers the job unless stopping; exactly one step of the transition system |
| SchedulerClass.InProcessScheduler.Execute | packages/scheduler/src/scheduler.ts:294-304 | skips the tick iff an earlier tick of the job is under way; exactly one step of the transition system |
| SchedulerClass.InProcessScheduler.TickRecorded | packages/scheduler/src/scheduler.ts:305-316 | after the row is inserted the tick runs it, or ends at once when stopping; exactly one step of the transition system |
| SchedulerClass.InProcessScheduler.TickFailed | packages/scheduler/src/scheduler.ts:311-315 | a tick whose row could not be inserted frees the job's name; exactly one step of the transition system |
| SchedulerClass.InProcessScheduler.RunNow | packages/scheduler/src/scheduler.ts:229-244 | refused when stopping or unknown, whatever is running; exactly one step of the transition system |
| SchedulerClass.InProcessScheduler.RunNowRecorded | packages/scheduler/src/scheduler.ts:245-249 | inserts the row and starts it unless stopping; exactly one step of the transition system |
| SchedulerClass.InProcessScheduler.Resume | packages/scheduler/src/scheduler.ts:350-353 | recordRunning, then the handler; its failure rejects without a retry; exactly one step of the transition system |
| SchedulerClass.InProcessScheduler.HandlerSettled | packages/scheduler/src/scheduler.ts:353-368 | a result goes on to be written, an exception to the catch block; exactly one step of the transition system |
| SchedulerClass.InProcessScheduler.SuccessWritten | packages/scheduler/src/scheduler.ts:355-361 | the row gets the handler's status and metadata, then clean-up starts; exactly one step of the transition system |
| SchedulerClass.InProcessScheduler.SuccessWriteThrew | packages/scheduler/src/scheduler.ts:366-368 | a failed success write counts as a failed attempt; exactly one step of the transition system |
| SchedulerClass.InProcessScheduler.FailureWritten | packages/scheduler/src/scheduler.ts:369-383 | failed with the attempt; a retry is armed while attempts are left, otherwise the dead-letter write follows; exactly one step of the transition system |
| SchedulerClass.InProcessScheduler.DeadLetterWritten | packages/scheduler/src/scheduler.ts:378-395 | the row is dead-letter and the execution settles; exactly one step of the transition system |
| SchedulerClass.InProcessScheduler.CatchBlockThrew | packages/scheduler/src/scheduler.ts:366-396 | a failed write in the catch block rejects the execution; exactly one step of the transition system |
| SchedulerClass.InProcessScheduler.CleanedUp | packages/scheduler/src/scheduler.ts:360-395 | clean-up ended, well or badly: the execution settles; exactly one step of the transition system |
| SchedulerClass.InProcessScheduler.RetryTimer | packages/scheduler/src/scheduler.ts:424-427 | the timer runs the next attempt unless stopping; exactly one step of the transition system |
| SchedulerClass.InProcessScheduler.Stop | packages/scheduler/src/scheduler.ts:177-199 | clears every retry timer one by one and waits for what is in flight; exactly one step of the transition system |
| SchedulerClass.InProcessScheduler.GracefulTimeout | packages/scheduler/src/scheduler.ts:200-212 | at the timeout every live controller is aborted; exactly one step of the transition system |
| SchedulerClass.InProcessScheduler.MarkRemaining | packages/scheduler/src/scheduler.ts:215-217 | the sweep marks what still runs; exactly one step of the transition system |
| ApprovalQueue.DescendingEnumerates | packages/approval/src/service.ts:275-287 | ordering by (created_at, id) descending lists every row once |
| ApprovalQueue.PageIsNextRows | apps/api/src/routes/approval.ts:307-330 | a page is the first rows below the cursor; it has a next cursor iff something eligible remains, and all of it lies below that cursor |
| ApprovalQueue.PageShowsTheTable | packages/approval/src/service.ts:241-287 | a page told by the columns: newest first by creation and id; on the actionable view only pending, unused, unexpired, unexecuted requests; only below the cursor; nothing between the cursors is left out |
| ApprovalQueue.PageRefusedIff | packages/approval/src/service.ts:288-306 | the queue is unavailable iff some incoherent row it lists has at most `limit` listed rows before it |
| ApprovalQueue.PageUnavailableIff | packages/approval/src/service.ts:288-306 | a page is refused iff one of the rows it fetches, lookahead included, is incoherent |
| ApprovalQueue.TraversalNeverRepeats | apps/api/src/routes/approval.ts:307-330 | whatever happens to the table between fetches, listed rows strictly descend: none twice, and the cursor is the last one |
| ApprovalQueue.StableRowsListedExactlyOnce | apps/api/src/routes/approval.ts:307-330 | a finished traversal lists exactly once every row that the view would list at each of its fetches, told by the row's columns |
| ApprovalQueue.OnlyEligibleListed | packages/approval/src/service.ts:236-287 | nothing is listed that the view would not list at some fetch, told by the row's columns |
| ApprovalQueue.SteadyTraversalListsAll | apps/api/src/routes/approval.ts:369-397 | on a table that stays the traversal ends and its pages concatenate to the full descending list |
| ApprovalDecision.RunInv | packages/approval/src/service.ts:576-635 | the invariant of requests, decide calls, public consumption, execution and clean-up holds in every interleaving |
| ApprovalDecision.StepWritesOneDecision | packages/approval/src/service.ts:605-626 | a decision is written only by the commit of a call whose request had none; written ones stay |
| ApprovalDecision.DecisionIsPermanent | packages/approval/src/service.ts:576-635 | at most one decision is ever written for a request and it never changes |
| ApprovalDecision.SuccessesAgree | packages/approval/src/service.ts:563-635 | every successful decide call, at any time, sees the one decision of its request; any two of them asked for the same |
| ApprovalDecision.DecidedAsAsked | packages/approval/src/service.ts:563-570 | field by field, at every moment of every run: a successful call's decision has its own actor, reason, evidence, verdict and, for community work, fingerprint |
| ApprovalDecision.DecisionsAreSound | packages/approval/src/service.ts:590-624 | decider differs from requester, decided before expiry, execution id iff approved; undecided rows are unused |
| ApprovalDecision.DecisionFieldsFrozen | packages/approval/src/service.ts:605-626 | decision, status and kind of a decided treasury row stay as long as the row exists, whatever route is used |
| ApprovalDecision.PublicRouteLeavesTreasuryAlone | apps/api/src/routes/approval.ts:411-434 | the public token route never changes a treasury request, however its steps interleave |
| ApprovalConsumption.ConsumedTokensWereLive | packages/approval/src/service.ts:928-940 | over every run a public call that consumed a token had seen it unused, unexpired and no treasury request, and used it while still unused |
| ApprovalConsumption.LoneConsumptionIff | packages/approval/src/service.ts:928-940 | undisturbed, a token is consumed iff it is there, unused, unexpired and no treasury request, and nothing else changes |
| ApprovalConsumption.LoneDecisionGoesThrough | packages/approval/src/service.ts:590-624 | undisturbed, a decision on an open, unexpired request by somebody else is written in every field and returned |
| ApprovalConsumption.ExecutedOnceIff | apps/api/src/modules/dues/condonations.ts:260-268 | a treasury request is executed iff it is approved, unused and unexpired, nobody is deciding it, and the caller is its decider with its execution id; never twice |
| ApprovalConsumption.TreasuryUsesAreExecutions | apps/api/src/modules/dues/condonations.ts:260-268 | over every run a used treasury request was executed by its decider under its execution id before it expired; no other route uses one |
| ApprovalDecision.UsedIsForever | packages/approval/src/service.ts:928-940 | a used token is never unused or used again while its row exists |
| ApprovalDecision.RepeatedDecision | packages/approval/src/service.ts:597-600 | repeating a committed decision in every field returns it, a difference in any one field is a conflict, and the requester is refused |
| ApprovalDecision.LoserOfTheRace | packages/approval/src/service.ts:605-635 | a call that lost the race ends with the other decision iff it asked for the same in every field, else with a conflict, and changes nothing |
| ApprovalDecision.ApprovalService.Decide | packages/approval/src/service.ts:790-850 | one call, field by field: which error it gives exactly when; on an open request the decision it writes; on a decided one success iff actor, verdict, reason, evidence and, for community work, fingerprint are all the same, else a conflict |
| ApprovalCreate.FingerprintBindsRequestUpToOrder | packages/approval/src/service.ts:465-484 | two valid requests have one fingerprint iff all fields agree and the obligations are the same in any order |
| ApprovalCreate.RunInv | packages/approval/src/service.ts:502-561 | the invariant of concurrent creates holds in every interleaving |
| ApprovalCreate.CreatesReturnTheOneRow | packages/approval/src/service.ts:502-561 | at most one condonation row per (requester, caller key); every success, at any time, returns it with the caller's fingerprint |
| ApprovalCreate.ReturnedRowIsTheRequest | packages/approval/src/service.ts:502-561 | field by field, at every moment of every run: a successful create returns a committed row of its own kind, requester, key, member, details and obligations in any order, complete and of one currency |
| ApprovalCreate.OtherFingerprintNeverReturns | packages/approval/src/service.ts:516-525 | a call with another fingerprint is never returned the row |
| ApprovalRequestAlone.RouteLooks | apps/api/src/routes/approval.ts:579-599 | the route's own look, told by the columns: no row leads to the locks, a row for another member or other obligations is a conflict, otherwise the call goes on with that row's obligations and requester key |
| ApprovalRequestAlone.RouteLocks | apps/api/src/routes/approval.ts:589-599 | what is locked are exactly the obligations asked for, and the call goes on with what they owe now |
| ApprovalRequestAlone.FirstCreateInserts | packages/approval/src/service.ts:502-561 | a first create that nothing disturbs inserts its own request and returns it |
| ApprovalRequestAlone.FirstRouteInserts | apps/api/src/routes/approval.ts:578-641 | a first route that works alone inserts a row for what its obligations owe now and shows it at its COMMIT |
| ApprovalRequestAlone.RepeatedCreateReturnsTheRow | packages/approval/src/service.ts:517-525 | a repeated create gets the row iff it asks for the same, else a conflict |
| ApprovalRequestAlone.RepeatedRouteReturnsTheRow | apps/api/src/routes/approval.ts:578-641 | a repeated route for the same member and obligations, whatever they owe by now, gets its row iff all other texts are the same, else a conflict |
| ApprovalRace.KeyHasTwoRowsIff | packages/approval/src/service.ts:710-773 | over every run a key has two rows iff some create committed between the find and the commit of another one |
| ApprovalRace.RowsOfOneKeyAskForDifferentObligations | apps/api/src/routes/approval.ts:569-627 | the routes lock the obligations first: two requests under one key never ask for the same obligation, however the routes race |
| ApprovalRace.BothRequestsGetRowsIff | apps/api/src/routes/approval.ts:569-627 | two valid community-work requests of one requester with one key can both end with a row iff their obligations are disjoint |
| ApprovalRace.RacedRetryConflicts | apps/api/src/routes/approval.ts:627-641 | a community-work route that looked before the row was committed is refused even for the same request, because of its fresh requester key |
| ApprovalRace.LostRaceOfARoute | packages/approval/src/service.ts:548-558 | a condonation route that loses the unique key asked for other obligations; it is not told of the conflict, its transaction is aborted |
| ApprovalRace.LostRaceAlone | packages/approval/src/service.ts:548-558 | outside a transaction the loser of the unique key gets the row or a conflict |
| ApprovalCreate.RequestStore.Create | packages/approval/src/service.ts:502-561 | one call: validation error iff invalid; otherwise the existing row, a conflict, or exactly one new row |
| ImportPipeline.RawEvents.InsertRawEvent | packages/import/src/pipeline.ts:530-543 | throws iff the row is refused, otherwise inserts iff the key is new |
| ImportPipeline.RawEvents.InsertRawEventBatch | packages/import/src/pipeline.ts:558-572 | all or nothing; reports how many rows were new |
| ImportPipeline.BatchIsRowByRow | packages/import/src/pipeline.ts:558-572 | a batch without refused rows leaves what single inserts leave and inserts as many |
| ImportPipeline.TableImport.Flush | packages/import/src/pipeline.ts:207-241 | however the batch fares, the buffered rows are taken one after the other |
| ImportPipeline.TableImport.ImportRecords | packages/import/src/pipeline.ts:243-278 | buffering, flushing and fallback end with the rows and counts of a row-by-row import |
| ImportPipeline.RowByRowConserves | packages/import/src/pipeline.ts:207-278 | read = inserted + skipped + failed, raw_events grow by exactly the inserted rows, and none is changed |
| ImportPipeline.RowByRowImports | packages/import/src/pipeline.ts:248-268 | the keys added are exactly those of good records that the database accepts |
| ImportPipeline.CountsMean | packages/import/src/pipeline.ts:207-276 | failed is the number of records without a key, that cannot be processed or that the database refuses; skipped the number of others whose key and hash were there or came earlier; inserted all the rest |
| ImportPipeline.ImportedRowIsItsFirstRecord | packages/import/src/pipeline.ts:258-268 | an imported row holds table, key, hash, payload, ordinal and batch of the first accepted record with its key and hash |
| ImportRun.ResolveTableList | packages/import/src/pipeline.ts:310-335 | accepts exactly the lists of known tables in non-decreasing order |
| ImportRun.DependenciesComeFirst | packages/import/src/pipeline.ts:62-110 | every dependency precedes the table that needs it |
| ImportRun.NeedsItsDependency | packages/import/src/pipeline.ts:174-187 | a table is stopped iff it is ctacte1, socios or asientod and its one dependency is neither imported earlier in the run nor in raw_events |
| ImportRun.FullOrderNeverLacksADependency | packages/import/src/pipeline.ts:174-187 | the default list is never stopped by a missing dependency |
| ImportRun.TablesConserve | packages/import/src/pipeline.ts:169-298 | counts balance for every table and in total |
| ImportRun.SecondRunInsertsNothing | packages/import/src/pipeline.ts:145-152 | after a complete run, a second one over the same files completes and inserts nothing, unless it is given rows the first was refused |
| ImportRun.ImportTable | packages/import/src/pipeline.ts:190-280 | one table ends in the row-by-row state, and the run totals, never reset, move on by its counters |
| ImportRun.ImportTables | packages/import/src/pipeline.ts:169-298 | the loop over tables gives the row-by-row result, its totals are the sums, and an error message exists iff something failed |
| ImportRun.RunImport | packages/import/src/pipeline.ts:157-298 | succeeded iff nothing failed; inserted is the growth of raw_events; a bad list changes nothing; the default list aborts only on an unreadable file |
| Promotion.CollectedAreOriginsIff | packages/promotion/src/promote.ts:119-139 | for any transform, a batch collects for stamping exactly the raw events whose master row it inserted iff no two entries share a legacy id new to the master |
| Promotion.CollectedAreInsertedIff | packages/promotion/src/promote.ts:119-166 | for any transform, over a whole domain the raw events collected for stamping are exactly the inserted ones iff no batch had such twins |
| Promotion.InjectiveTransformCollectsExactly | packages/promotion/src/promote.ts:119-166 | the raw events collected are exactly the inserted ones whenever the transform gives different rows different legacy ids |
| Promotion.PromoteCounts | packages/promotion/src/promote.ts:107-166 | without the catch-all error every row is inserted, skipped or failed; with it, rows of the batch are in no count; inserted is the master's growth and master rows are never replaced |
| PromotionKeys.LegacyIdsAgreeIff | packages/db/drizzle/0018_raw_events_legacy_id_backfill.sql:21-33 | the id that migration 0018 computes from a payload equals the one the transform computes iff no key column holds a number that JavaScript prints with an exponent |
| PromotionKeys.KeysSpelledOut | packages/db/drizzle/0018_raw_events_legacy_id_backfill.sql:19-33 | which columns both hashed texts join, in which order, for each ledger |
| PromotionGuarantees.TransformKeepsLegacyId | packages/promotion/src/transforms/ctacte.ts:26-37 | on migrated rows with plain keys the transform gives a row it accepts the legacy id of its raw event, and throws on all others |
| PromotionGuarantees.MigratedRowsCollectExactly | packages/promotion/src/promote.ts:107-166 | on such rows the raw events collected for stamping, when a later insert throws too, are exactly those whose master row the run inserted |
| PromotionGuarantees.MigratedRowsEndUnderTheirOwnId | packages/promotion/src/promote.ts:150-166 | on such rows, when nothing threw, a row that was neither known nor there ends in the master under its own id iff the transform accepts it, and failed counts exactly the unknown rows it does not accept |
| PromotionGuarantees.NewRowsCameFromTheirRawEvent | packages/promotion/src/promote.ts:107-166 | on such rows every master row that the run added came from the raw event with that legacy id |
| PromotionGuarantees.ExponentTwinsStampTheWrongRow | packages/promotion/src/transforms/ctacte.ts:29-37 | outside that range: two concrete migrated payloads of which the transform makes one id, and a run in which nothing throws that inserts one and stamps the other's raw event |
| PromotionHistory.RunStampsItsInsertsIff | packages/promotion/src/promote.ts:104-179 | on plain migrated raw events a run marks as promoted exactly those whose master row it inserted iff it did not both insert something and end in the catch-all error |
| PromotionHistory.StampedAndStrandedIff | packages/promotion/src/promote.ts:84-179 | over any sequence of runs a raw event gets promoted iff the run that inserted its row went through, and its row is in the master without the mark iff that run ended in the catch-all error |
| PromotionHistory.StrandedForever | packages/promotion/src/dedup.ts:116-148 | a raw event with a master row and without the mark never gets it from any later run, and its row is never replaced |
| PromotionHistory.RunThatGoesThroughCompletes | packages/promotion/src/promote.ts:84-179 | after whatever runs, one that goes through leaves every raw event in the master under its own legacy id, rejected by the transform, or with a legacy id that is a promoted source key |
| PromotionHistory.StrandedIsReachable | packages/promotion/src/promote.ts:168-177 | a run whose final update throws: its row is in the master and unmarked |
| PromotionRun.CompleteRunAccounts | packages/promotion/src/promote.ts:150-166 | after a run in which nothing threw, each row was known, has a failing transform, or has its master row |
| PromotionRun.SecondRunIsIdle | packages/promotion/src/dedup.ts:116-148 | once only: after such a run another one over the same rows inserts nothing |
| PromotionRun.CompleteRunMeans | packages/promotion/src/promote.ts:150-166 | a run in which nothing threw: failed is the number of unknown rows whose transform throws, the master gains exactly the ids of the other unknown rows, and all remaining rows are skipped |
| PromotionRun.EndsInStarIff | packages/promotion/src/promote.ts:84-179 | a run that cannot select or look up does nothing; otherwise, if no batch throws, it ends in the catch-all error iff the final update throws and something was inserted; then nothing is marked |
| PromotionRun.DomainPromotion.Flush | packages/promotion/src/promote.ts:119-139 | the correlation loops compute exactly one batch step of the specification |
| PromotionRun.DomainPromotion.PromoteDomain | packages/promotion/src/promote.ts:68-179 | counts, master and promoted marks of the specification and exactly when the result carries the catch-all error; attempted is the number of rows read even when a later statement threw; nothing is stamped then, and such a result never counts as fully failed |
| PromotionRun.OneResultPerDomain | packages/promotion/src/promote.ts:270-301 | one result per domain in order; after the first fully failed blocking domain every later one is reported as skipped because of it |
| PromotionRun.OnlySociosAndCtacteBlock | packages/promotion/src/promote.ts:270-301 | domain by domain: only a wholly failed socios skips all others, only a wholly failed ctacte skips ctacte1; wholly failed is inserted 0 and failed equal to a positive attempted |
| PromotionRun.Promoter.PromoteAll | packages/promotion/src/promote.ts:270-301 | yields those results and promotes no domain after a fully failed blocking one |
| CanonicalJson.Idempotent | packages/import/src/hash.ts:41-59 | canonicalizing twice changes nothing more; the canonical values are exactly its results |
| CanonicalJson.CanonMeans | packages/import/src/hash.ts:41-59 | the hashed form of an object has its fields in code-unit order of their keys, without legacyKey, null and undefined ones, each in hashed form; arrays keep every item; dates read as ISO text |
| CanonicalJson.LineageMeans | packages/lineage/src/verify.ts:62-73 | lineage's form of a stored object has all its fields in that order, and of anything else it is the value |
| CanonicalJson.CanonEqualIffEquivalent | packages/import/src/hash.ts:25-59 | two records have one canonical form iff they agree up to key order, dropped null, undefined or legacyKey fields, and dates as ISO text |
| CanonicalJson.Canonicalize | packages/import/src/hash.ts:41-59 | the program's loops compute the canonical form |
| CanonicalJson.FormsAgreeIffPlain | packages/lineage/src/verify.ts:56-73 | on stored values lineage's form equals the import's iff no object has a null or legacyKey field and every array is already canonical |
| CanonicalJson.VerifyHashMatchesIff | packages/lineage/src/verify.ts:20-60 | an untouched stored row verifies iff its stored payload is plain in that sense |
| CanonicalJson.SimplePayloadsVerify | packages/lineage/src/verify.ts:51-73 | it does verify without nulls, legacyKey or objects nested in arrays |
| CanonicalJson.NullColumnNeverVerifies | packages/lineage/src/verify.ts:62-73 | a null in any field of a stored object, or a legacyKey field, is enough for a mismatch |
| Csv.ParsingUndoesPrintingIff | apps/web/src/lib/csv-export.ts:41-62 | an RFC 4180 parser returns exactly the header and cells, for any text, iff there is a column |
| Csv.FileHoldsTheValues | apps/web/src/lib/csv-export.ts:41-52 | cell by cell, what the parser returns: the titles, then each row's value per column, empty where there is none |
| Csv.PrintingIsInjective | apps/web/src/lib/csv-export.ts:41-62 | two tables of the same columns never print alike |
| Csv.FieldRoundTrip | apps/web/src/lib/csv-export.ts:59-62 | an escaped cell is read back as one field, whatever follows |
| Csv.QuotedOnlyWhenNeeded | apps/web/src/lib/csv-export.ts:59-62 | a cell is quoted iff it holds a comma, a quote or a line break |
| Csv.ToCSV | apps/web/src/lib/csv-export.ts:41-52 | the loop prints the table that the parser reads back |
| Saldo.ParsingUndoesPrinting | packages/projection/src/saldo.ts:5-20 | parseCents(centsToString(c)) = c for every integer |
| Saldo.PrintingUndoesParsingIff | packages/projection/src/saldo.ts:5-20 | centsToString undoes parseCents exactly on the normalized two-decimal strings, which are exactly what it prints |
| Saldo.ParsesTwoPlaces | packages/projection/src/saldo.ts:5-11 | parseCents reads sign, whole digits and two places: missing places are zeros, further ones are cut |
| Saldo.EachRowAddsItsColumns | packages/projection/src/saldo.ts:70-78 | an annulled row adds nothing, any other its debe to one sum and its haber to the other |
| Saldo.BalanceIsExact | packages/projection/src/saldo.ts:70-87 | the printed sums parse to the sums over non-annulled rows, saldo to their difference, in any row order |
| Saldo.ComputeSaldo | packages/projection/src/saldo.ts:70-87 | fails iff an amount of a non-annulled row does not parse; otherwise the exact printed sums |
| RefreshTokens.RunInv | apps/api/src/services/auth.ts:95-195 | the invariant of tokens and transactions in flight holds in every interleaving of refreshes, logins, logouts and deletions |
| RefreshTokens.AtMostOneSuccessor | apps/api/src/services/auth.ts:157-174 | a token has at most one successor, is then revoked, and the successor has the same operator |
| RefreshTokens.OneWinner | apps/api/src/services/auth.ts:127-174 | of refreshes that present one token at most one succeeds |
| RefreshTokens.RefreshKeepsLiveCount | apps/api/src/services/auth.ts:157-174 | the COMMIT of a refresh keeps the number of live tokens of every operator |
| RefreshTokens.LiveMoves | apps/api/src/services/login.ts:83-99 | a refresh swaps one live token for a new one, a login adds one, and no other step adds any |
| RefreshTokens.RotationNeedsALiveToken | apps/api/src/services/auth.ts:157-174 | the conditional update, once nobody else holds the token, succeeds iff the token is still live |
| RefreshProvenance.EveryTokenWasEarned | apps/api/src/services/auth.ts:127-174 | over every run each new token was inserted by a worker that saw its operator active and, for a successor, had before that found the parent unrevoked and unexpired; it has that operator and expires its lifetime after the clock read for the insert |
| RefreshAlone.LoneRefresh | apps/api/src/services/auth.ts:127-174 | one refresh that nothing disturbs, told by the rows: the swap, the revoked orphan, or no change |
| RefreshAlone.LoneLogin | apps/api/src/services/login.ts:79-99 | one login that nothing disturbs gives an active operator one new live token, and otherwise changes nothing |
| RefreshAlone.LoneDeletion | apps/api/src/services/operators.ts:195-209 | one deletion that nothing disturbs deactivates the operator and revokes all of its tokens and no other |
| RefreshRevocation.DeletionCanLeaveALiveTokenIff | apps/api/src/services/operators.ts:195-209 | when a deletion's second statement starts, some continuation leaves the operator a live token iff a refresh or login has already read the operator as active and can still commit |
| RefreshRevocation.SurvivorIsReachable | apps/api/src/services/operators.ts:195-209 | a run from one active operator in which a login leaves a live token behind the completed deletion |
| RefreshRevocation.SurvivorsOnlyShrink | apps/api/src/services/auth.ts:127-146 | once nobody can commit any more, the live tokens of an inactive operator only become fewer |
| RefreshTokens.AuthStore.Refresh | apps/api/src/services/auth.ts:127-181 | one call: succeeds iff the token is live and unexpired and its operator active; then exactly the token is revoked and its successor has that operator and the new expiry; an orphan token is revoked |
| RefreshTokens.AuthStore.Logout | apps/api/src/services/auth.ts:189-195 | revokes the token if it is there and live, and nothing else |
| RefreshTokens.AuthStore.SoftDelete | apps/api/src/services/operators.ts:195-209 | deactivates the operator and revokes exactly that operator's tokens; unknown operators change nothing |
| Lockout.OperatorRow.Login | apps/api/src/services/login.ts:51-115 | locked iff lockedUntil is after the clock read first, and then nothing changes; a success clears; the fifth wrong password locks for fifteen minutes from the second clock reading |
| Lockout.CounterStaysBelowThreshold | apps/api/src/services/login.ts:37-49 | failedLoginAttempts stays within 0..4 in every run |
| Lockout.SixFailuresTakeFifteenMinutes | apps/api/src/services/login.ts:27-115 | any six consecutive recorded wrong passwords span at least fifteen minutes |
| Lockout.AtMostFivePerWindow | apps/api/src/services/login.ts:27-115 | no half-open fifteen-minute window holds more than five recorded wrong-password checks |

## Left out

- HTTP handlers, validation schemas, notifications, DBF parsing, React code: input and output around these cores.
- `closureMetadata`, `sameSnapshot`, DTO mapping and the lifecycle lists: pure checks that would only add easy members.
- The text encoding of queue cursors (base64url, JSON, calendar check): a cursor is the key it encodes.
- Phase 1 of the closure (`catalog`): its materializer has its own receipt and is only ordered and gated here.
- A membership snapshot in state `rolled_back`: nothing sets it, so the newest snapshot is the selectable one.
- Anomalies inside one SQL statement under READ COMMITTED: a statement reads one state of the tables, except
  the revoking statement of an operator's deletion, whose snapshot and end are two steps.
- Deletion of members, raw events or source rows while closures run.
- `setEnabled`, `start` and cron task handles: any registered job may tick at any time, which includes every schedule they allow.
- Boot reconciliation and the import cancel route: they write job_runs of other processes outside the scheduler's own steps.
- Two database statements of recordFinish with metadata (read, then update) are one step: the binding keys it reads never change.
- The message that an import reports as its first error: rows of a failed batch are reported after later records, so it can differ from a row-by-row import; only whether there is one is modelled.
- Concurrent imports: one run at a time changes raw_events.
- The generic promotion path and its positional correlation, per-domain transforms, foreign-key lookups.
- Clean-up of old refresh tokens; the password check and lockout of the login that inserts one.
- Concurrent logins of one operator: the lockout bound is for logins that follow one another.
- Deletion of old approval rows during a create; the create results are for rows that stay.
- Object keys that look like array indices, which JavaScript enumerates first; NaN and infinities; the order of keys beyond the basic plane.
- Saldo.ComputeSaldo: spellings that BigInt accepts beside plain digits (blanks, other radices, a second sign)
  are taken as errors; the amounts come from numeric columns, which print plain digits.
- Raw events without a legacy_id: the select does not read them.
- Arrays and objects in a key column of ctacte or ctacte1: legacy records hold scalars.
- The end of the process by an unhandled rejection: a rejected execution of a manual run or a retry is a
  promise that nobody awaits (packages/scheduler/src/scheduler.ts:247, 426); here it only settles its row.
- Wall-clock delays: backoff, jitter and timeouts are events that may happen at any time.
