# Verified model of the acquisition, delivery and calendar protocols

This project models the stateful protocols of an intelligence-gathering service in Dafny and proves their safety
properties over every run. Each part follows the same plan: the specification of every transaction is a function on
tables, a class whose fields are those tables has methods with the loops and updates of the service, each method is
proved equal to its function, and lemmas prove what the service promises about the functions and about all runs of them.
The files named `…Outcomes`, with `RateLimitScopes` and `CalendarConclusions`, state for every transaction which answer it
gives and which rows it leaves, in terms of its inputs and of the rows before it alone.

| part | files |
|---|---|
| hierarchical rate limiter | `RateLimitModel`, `RateLimitInvariants`, `RateLimitRuns`, `RateLimitDenials`, `RateLimitTenures`, `RateLimitGrants`, `RateLimitScopes`, `RateLimitService` |
| alert delivery | `AlertDelivery`, `AlertDeliveryOutcomes`, `AlertDeliveryService` |
| endpoint leases | `Lease`, `LeaseRuns`, `LeaseOutcomes`, `LeaseService` |
| acquisition worker, the composition of leases and limiter | `Worker`, `WorkerRuns`, `WorkerRecovery`, `WorkerRefinement`, `WorkerTenures`, `WorkerOutcomes`, `WorkerExamples`, `WorkerService` |
| deletion-first artifact ingestion | `ArtifactIngest`, `ArtifactRuns`, `ArtifactStore`, `ArtifactOverlap`, `ArtifactOutcomes`, `ArtifactService` |
| calendar validation | `CalendarPath`, `CalendarFusion`, `CalendarVerdict`, `CalendarScope`, `CalendarRuns`, `CalendarHistory`, `CalendarPipeline`, `CalendarEvidence`, `CalendarOutcomes`, `CalendarConclusions`, `CalendarService`, `CalendarEvidenceService` |
| streaming feed detector | `FeedDetector`, `FeedTrees`, `FeedOutcomes` |
| coverage hierarchy | `CoverageHierarchy` |
| byte signatures | `Signature`, `SignatureMatching`, `SignatureOutcomes`, `SignatureImport`, `SignatureImportOutcomes` |
| shared vocabulary | `Prelude`, `CommutativeFold`, `SupersessionChains` |

`dafny verify dfyconfig.toml` checks all of it.

## How the source is represented

- A database transaction is one atomic step; a run is a sequence of steps of any number of actors, with a clock that
  does not go back. An exception rolls the step back. Unique indexes and CHECK constraints that a statement would
  violate make the step fail.
- Rows are values in the sequence and map fields of a store class; a row's identifier is its position. An ORM object
  held across statements is re-read by position, so aliasing of row objects does not arise.
- Scope identities of the limiter are a datatype instead of formatted strings; claim tokens are integers chosen by the
  caller, and a claim whose token was used before fails on the unique index of the attempt log; a lease token is the
  lease's position.
- Database clocks, other endpoints' policies, lookups of adapter, source and configuration, credentials, scanner,
  parser and HTTP outcomes are inputs without restriction.
- Timestamps are integers counting microseconds; evidence scores are reals, rounded half-even to four places where
  the code quantizes. SHA-256 is an arbitrary function of the bytes; an ElementTree document is its sequence of start
  and end events; JSON is a datatype.
- A commit can fail: of the worker's authorization and closing transactions and of an ingest's acceptance. A failed
  commit leaves nothing of its transaction, while what the code has already put into its variables stays.
- Ingestion takes a script saying which external step fails, including cancellation at an `await`, which
  `except Exception` does not catch.

## Findings

Promises of the documentation, and laws one would expect, that do not hold of the code as written. For each, the lemma
named first gives the exact condition under which the law holds, the one named after it an instance on which it fails:

- *Staged file gone on every exit.* The directory creation, `mkstemp` and the check of an existing canonical path run
  outside the `try` of promotion (`app/services/artifact_security_service.py:774-792`), and a cancellation is not an
  `Exception`: `ArtifactRuns.StagedFileFate`, `ArtifactRuns.StagedFileCanSurvive`.
- *Database failure removes a newly created unreferenced promotion.* While ingests of the same bytes overlap, the file
  that a failing one removes (`app/services/artifact_security_service.py:305-310`) may be named by another's row, or be
  relied on by another that found it and writes its row later: `ArtifactOverlap.WithdrawIsSafeIff` for one withdrawal and
  `ArtifactOverlap.BackedIffNoHarm` for whole interleavings, `ArtifactOverlap.OverlapCanOrphan` and
  `ArtifactOverlap.LateRecordIsOrphaned` for the two ways.
- *Withdrawing an override exposes the newest defensible machine state*
  (`docs/specifications/INTELLIGENCE_CALENDAR_PHASE_2_ARCHITECTURE.md:171-173`). After a conflict that the machine
  decided for support it exposes `rejected`: `CalendarEvidence.WithdrawalExposesVerdictIff`,
  `CalendarEvidence.WithdrawalCanExposeRejected`.
- *An operator's word rules an occurrence.* It does while the occurrence is pinned; an occurrence published without a
  step is not, and follows its event: `CalendarHistory.OccurrenceShowsDemandIff`, `CalendarHistory.OccurrenceCanDrift`.
- *A denied request changes no request counters* (`docs/specifications/PHASE_3_ACQUISITION_CONTROL_RUNTIME.md:47-49`).
  The code rolls windows that are over and sweeps abandoned reservations on denial too:
  `RateLimitDenials.DenialKeepsCountsIff`, and for the occupied slots `RateLimitDenials.DenialKeepsSlotsIff`;
  `RateLimitDenials.DenialCanClearCounts`.
- *A concurrency cap bounds the calls at work.* The worker leaves its reservation the default lifetime of two minutes
  (`app/services/acquisition_worker_service.py:131-136`) while its lease lasts five, so another call's authorization
  can reclaim the slot of a call at work: `WorkerTenures.WorkingUntilReclaimed` says when, `WorkerTenures.AuthorizedIff`
  and `WorkerTenures.CapBoundsWork` what the cap still bounds, `WorkerExamples.TwoAtWork` is a run with two calls at work
  under a cap of one.
- *A call that is over has given up its lease.* `reservation_id` is set before the authorization commits
  (`app/services/acquisition_worker_service.py:124-139`); when that commit fails, the exception branch finalizes a
  reservation that was rolled back, raises, and the lease stays active until it expires: `WorkerRuns.CloseSucceedsIff`,
  `WorkerExamples.LostCommitStrandsLease`.
- *Manual retry is for failed deliveries* (`docs/specifications/STEP_26_ALERTS_AND_NTFY.md:183`). Pending and cancelled
  ones are retried too: `AlertDelivery.RetryReopens`, `AlertDelivery.RetryTakesPendingAndCancelled`.
- *More contradicting evidence never helps an event.* It can lift the verdict from `candidate` to `probable`:
  `CalendarVerdict.MoreContradictionCanPromote`, `CalendarVerdict.PromotionExample`.

Where the code does more than its documentation says, the model follows the code: retries honour HTTP dates as well as
numeric `Retry-After` values (`docs/specifications/STEP_26_ALERTS_AND_NTFY.md:149-150`, `AlertDelivery.RetryDelayExact`).

## Model

| member | source | states |
|---|---|---|
| `RateLimitInvariants.ClampNeverBites` | `app/services/acquisition_rate_limit_service.py:190-222` | releasing an open membership always finds a positive counter, so `max(0, …)` is an exact decrement |
| `RateLimitInvariants.ReleaseKeepsValid` | `app/services/acquisition_rate_limit_service.py:389-430` | closing an active reservation keeps counters equal to open memberships, memberships open exactly for active reservations, and every counter within its policy |
| `RateLimitInvariants.PreparedKeepsValid` | `app/services/acquisition_rate_limit_service.py:78-131` | creating buckets, sweeping and rolling windows keep the same invariants |
| `RateLimitEligibility.EligibleIffAdmits` | `app/services/acquisition_rate_limit_service.py:433-471` | window roll plus candidate list answers "now" exactly when holds, both windows, spacing and concurrency all admit |
| `RateLimitEligibility.RollingOnlyForgets` | `app/services/acquisition_rate_limit_service.py:433-444` | rolling makes both windows current, forgets only counts of windows that are over, and moves no moment of admission from now on |
| `RateLimitEligibility.ReportedTimeIsExact` | `app/services/acquisition_rate_limit_service.py:446-471` | a bucket with current windows reports no time exactly when it is open now; a reported time lies ahead, from it on everything but concurrency admits, and before it nothing does unless all slots are taken |
| `RateLimitEligibility.ControllingIsLatest` | `app/services/acquisition_rate_limit_service.py:119-142` | the controlling bucket is the first targeted one with the latest waiting time, and none exists only if nobody waits |
| `RateLimitEligibility.ReserveGrantsIff` | `app/services/acquisition_rate_limit_service.py:46-169` | a request is granted if and only if it is new, eligible, its run belongs to the endpoint and every targeted bucket is open at once after the sweep |
| `RateLimitEligibility.ReplayChangesNothing` | `app/services/acquisition_rate_limit_service.py:64-76` | repeating a request identity returns its reservation and leaves every table as it was |
| `RateLimitEligibility.DelayTakesNothing` | `app/services/acquisition_rate_limit_service.py:132-142` | a delayed request adds no reservation or membership, raises no counter and reports a time strictly after now |
| `RateLimitEligibility.RetryGrantedIff` | `app/services/acquisition_rate_limit_service.py:46-169` | retried at any later time with no change between, a delayed request is granted if and only if every targeted bucket admits it then and has a free slot after that sweep |
| `RateLimitEligibility.RetryGrantedIffSlots` | `app/services/acquisition_rate_limit_service.py:446-471` | retried at or after the reported time with no change between, a delayed request is granted if and only if every targeted bucket has a free slot after that sweep |
| `RateLimitEligibility.NoEarlierRetry` | `app/services/acquisition_rate_limit_service.py:446-471` | a reported time that comes from a hold, a window, the daily budget or the spacing of a targeted bucket is tight: no earlier retry is granted |
| `RateLimitEligibility.FreeSlotsReportOtherwise` | `app/services/acquisition_rate_limit_service.py:446-471` | where every targeted bucket has a free slot the reported time comes from a hold, a window, the daily budget or the spacing |
| `RateLimitDenials.DenialKeepsCountsIff` | `app/services/acquisition_rate_limit_service.py:119-142` | a denied request leaves both counts of every bucket alone if and only if no targeted bucket holds a count of a window that is over |
| `RateLimitDenials.DenialKeepsSlotsIff` | `app/services/acquisition_rate_limit_service.py:108-142` | a denied request leaves every occupied slot alone if and only if it finds no abandoned reservation on its targets |
| `RateLimitDenials.DenialCanClearCounts` | `app/services/acquisition_rate_limit_service.py:119-142` | an instance: a request denied by a hold clears the count of the past minute |
| `RateLimitGrants.SweptCountsUnexpired` | `app/services/acquisition_rate_limit_service.py:389-430` | after the sweep a targeted bucket counts exactly the active reservations on it whose time is not over |
| `RateLimitGrants.GrantedIffFree` | `app/services/acquisition_rate_limit_service.py:46-169` | read off the tables before the request: it is granted if and only if it is new, eligible, of its endpoint, and every existing targeted bucket admits it and has fewer unexpired reservations than its cap |
| `RateLimitScopes.TargetedIff` | `app/services/acquisition_rate_limit_service.py:291-331` | a scope is targeted if and only if it is the installation, the configuration's adapter, platform (if it has one), origin or source, the endpoint itself or one of the request's credentials |
| `RateLimitScopes.SortedAscends` | `app/services/acquisition_rate_limit_service.py:318-331` | the credentials are asked in ascending order, each once |
| `RateLimitScopes.GrantChargesExactly` | `app/services/acquisition_rate_limit_service.py:78-169` | a grant takes one request, one day count and one slot, and opens a membership, in the bucket of every scope the request concerns and in no other; windows that are over roll first, and a new bucket starts empty under its scope's own policy or else the installation's |
| `RateLimitScopes.GrantRow` | `app/services/acquisition_rate_limit_service.py:143-160` | the grant's row is the last one, active until `now` plus the request's lifetime, and every concerned scope has its bucket |
| `RateLimitScopes.GrantedExactly` | `app/services/acquisition_rate_limit_service.py:46-169` | a request is granted if and only if its lifetime is positive, it is new, configuration, origin, installation policy and run are in order, and every existing bucket of a scope it concerns lets it through beside the unexpired reservations there |
| `RateLimitScopes.ClosedScopeDenies` | `app/services/acquisition_rate_limit_service.py:119-142` | one bucket of a concerned scope that is held, full, spent or too close to its last request denies a new request |
| `RateLimitScopes.DelayReportsLatestWait` | `app/services/acquisition_rate_limit_service.py:119-142` | a delay names a concerned bucket that makes the request wait and the latest of all waits, one second ahead for a full cap |
| `RateLimitScopes.DenialOnlyRolls` | `app/services/acquisition_rate_limit_service.py:108-142` | a denial rolls and recounts the buckets of the scopes the request concerns, notes the time on the controlling one and leaves the others but for reclaimed slots |
| `RateLimitScopes.RequestReclaimsExactly` | `app/services/acquisition_rate_limit_service.py:389-430` | a request ends exactly the active reservations that have expired and share a bucket it concerns, and none when it is refused or replayed |
| `RateLimitScopes.RefusedExactly` | `app/services/acquisition_rate_limit_service.py:46-118` | a request that raises changes nothing and names the first thing wrong; a replay returns its reservation and whether it is still active |
| `RateLimitScopes.FinalizeExactly` | `app/services/acquisition_rate_limit_service.py:171-222` | finalizing an active reservation stamps it and its memberships and takes exactly one slot from each bucket it is charged to; ended ones are returned as they are, unknown ones and other outcomes refused |
| `RateLimitScopes.HoldExactly` | `app/services/acquisition_rate_limit_service.py:224-268` | a hold closes each bucket its reservation was charged to until the latest time known, notes a provider's reset and touches nothing else |
| `RateLimitScopes.HoldRecords` | `app/services/acquisition_rate_limit_service.py:242-268` | a hold appends one observation for each of those buckets, in their order, and none for another |
| `RateLimitRuns.RunsAreTimely` | `app/services/acquisition_rate_limit_service.py:46-268` | on every run with a non-decreasing clock the counters, windows and last-request times agree with the recorded grants and no hold is forgotten |
| `RateLimitRuns.SlidingCount` | `app/services/acquisition_rate_limit_service.py:433-444` | times at least a period apart every `2 * limit` positions put at most `2 * limit` into any closed interval of one period |
| `RateLimitRuns.SlidingWindowBound` | `app/services/acquisition_rate_limit_service.py:433-463` | any closed interval of one period holds at most 2·(requests per period + burst − 1) grants on a bucket, although the windows are fixed |
| `RateLimitRuns.DailyBudgetBound` | `app/services/acquisition_rate_limit_service.py:433-469` | any closed interval of 24 hours holds at most twice the daily budget |
| `RateLimitRuns.GrantsAreSpaced` | `app/services/acquisition_rate_limit_service.py:464-471` | two grants on a bucket are at least the minimum spacing apart |
| `RateLimitRuns.ConcurrencyBound` | `app/services/acquisition_rate_limit_service.py:156-169` | in every reachable state a bucket's counter is the number of active reservations charged to it and at most its cap |
| `RateLimitRuns.HoldReachesEveryBucket` | `app/services/acquisition_rate_limit_service.py:224-268` | an observed hold is recorded for every bucket its reservation used |
| `RateLimitRuns.ObservationsPersist` | `app/services/acquisition_rate_limit_service.py:242-268` | no step removes or alters an observation |
| `RateLimitRuns.HoldsAreRespected` | `app/services/acquisition_rate_limit_service.py:242-268` | on every run, a grant that charges a bucket comes no earlier than every retry-after and provider-reset time ever observed for that bucket |
| `RateLimitRuns.SweepClears` | `app/services/acquisition_rate_limit_service.py:389-430` | after the sweep no expired active reservation remains on the targeted buckets |
| `RateLimitRuns.SweepExpiresAbandoned` | `app/services/acquisition_rate_limit_service.py:389-430` | the sweep expires exactly the abandoned reservations and leaves every other row alone |
| `RateLimitTenures.ActiveUntilEnded` | `app/services/acquisition_rate_limit_service.py:147-222` | over any run a reservation holds its slots exactly as long as nobody finalized it and no kept request sharing a bucket with it came at or after its expiry |
| `RateLimitTenures.FinalizeUndoesGrant` | `app/services/acquisition_rate_limit_service.py:171-222` | whatever happened since the grant, finalizing an active reservation gives back exactly the slots it took, one in each bucket its request targeted |
| `RateLimitService.RateLimiter.EnsureDefaultBuckets` | `app/services/acquisition_rate_limit_service.py:333-387` | the loop over targets creates exactly the missing bindings and buckets, under the installation policy |
| `RateLimitService.RateLimiter.ReleaseReservation` | `app/services/acquisition_rate_limit_service.py:407-430` | the membership loop releases all open memberships and stamps the reservation |
| `RateLimitService.RateLimiter.ExpireAbandoned` | `app/services/acquisition_rate_limit_service.py:389-430` | the sweep loop performs the specified sweep and keeps the books |
| `RateLimitService.RateLimiter.RefreshWindows` | `app/services/acquisition_rate_limit_service.py:433-444` | the windows come out current, a count is lost only with a window that is over, and every moment of admission from now on stays what it was |
| `RateLimitService.RateLimiter.NextEligibleAt` | `app/services/acquisition_rate_limit_service.py:446-471` | no time exactly when the bucket admits and has a slot; otherwise the first moment from which everything but concurrency admits |
| `RateLimitService.RateLimiter.SelectControlling` | `app/services/acquisition_rate_limit_service.py:119-131` | one pass over the buckets rolls every target and finds the controlling one |
| `RateLimitService.RateLimiter.ChargeTargets` | `app/services/acquisition_rate_limit_service.py:147-169` | one pass charges every target and records its membership |
| `RateLimitService.RateLimiter.Reserve` | `app/services/acquisition_rate_limit_service.py:46-169` | the whole transaction meets its specification on every path, with rollback on errors; `RateLimitScopes` says which scopes that charges, asks and leaves alone |
| `RateLimitService.RateLimiter.Finalize` | `app/services/acquisition_rate_limit_service.py:171-222` | finalization meets its specification, including unknown, replayed and conflicting outcomes |
| `RateLimitService.RateLimiter.ObserveHold` | `app/services/acquisition_rate_limit_service.py:224-268` | every used bucket's hold becomes the latest of the known times |
| `AlertDelivery.PrepareKeepsValid` | `app/services/alert_service.py:361-498` | preparing keeps the claim, schedule, counter and delivered CHECKs, attempt numbers 1..n, and a running attempt with the current token exactly while processing |
| `AlertDelivery.FinalizeKeepsValid` | `app/services/alert_service.py:527-612` | finalizing keeps the same invariants |
| `AlertDelivery.RetryKeepsValid` | `app/services/alert_service.py:709-749` | a manual retry keeps the same invariants |
| `AlertDelivery.RunsAreValid` | `app/models/alert.py:341-364` | every reachable delivery satisfies the table's CHECK constraints and agrees with its attempt log |
| `AlertDelivery.DueExactly` | `app/repositories/alert_repository.py:294-329` | the due query lists a delivery with an active destination if and only if preparing it at that time would claim or exhaust it |
| `AlertDelivery.RetryReopens` | `app/services/alert_service.py:709-749` | a manual retry is accepted exactly while the delivery is neither processing nor delivered and its destination active; the next preparation then claims it at once |
| `AlertDelivery.RetryTakesPendingAndCancelled` | `app/services/alert_service.py:709-749` | an instance: a pending delivery, and one cancelled with its destination, are retried by hand |
| `AlertDelivery.RetryDelayExact` | `app/services/alert_service.py:501-524` | the delay is the larger of backoff and requested time, capped at the maximum, hence between base and maximum (section 10.2.3 of RFC 9110) |
| `AlertDelivery.RetryIsScheduledAhead` | `app/services/alert_service.py:576-605` | a retryable failure with budget left is scheduled between one base and one maximum delay ahead |
| `AlertDelivery.ClaimOutlastsRequest` | `app/services/alert_service.py:460-468` | a claim outlasts its own HTTP timeout by at least thirty seconds |
| `AlertDelivery.DeliveredAbsorbs` | `app/services/alert_service.py:377-385` | no sequence of steps changes a delivered row |
| `AlertDelivery.AtMostOneSuccess` | `app/services/alert_service.py:548-575` | over any run exactly one attempt succeeded if the row is delivered, and none otherwise |
| `AlertDelivery.AttemptsAreBounded` | `app/services/alert_service.py:438-453` | over any run there are at most max_attempts·(1 + accepted manual retries) attempts |
| `AlertDelivery.LogIsAppendOnly` | `app/services/alert_service.py:469-482` | no step changes the number, token or start of an attempt or touches a finished one |
| `AlertDelivery.TakeoverFences` | `app/services/alert_service.py:397-425` | claiming an expired claim closes its attempt as retryable and makes its token useless |
| `AlertDelivery.FencedStaysFenced` | `app/services/alert_service.py:548-561` | no step makes a superseded token current or running again |
| `AlertDelivery.SupersededForever` | `app/services/alert_service.py:548-561` | after any further run, finalizing with a superseded token changes nothing |
| `AlertDeliveryOutcomes.FinalizeExactly` | `app/services/alert_service.py:562-612` | under the current token an accepted request delivers at `now`, a retryable one with budget left is scheduled after its delay and everything else is a permanent failure without a next attempt; the attempt that ran carries its outcome, HTTP status and time, the claim is given back and nothing else moves |
| `AlertDeliveryOutcomes.FinalizeRefused` | `app/services/alert_service.py:548-558` | any other token is superseded and changes nothing |
| `AlertDeliveryOutcomes.PermanentIsFinal` | `app/services/alert_service.py:585-604` | after a permanent outcome no preparation claims the delivery, over any run, until a manual retry is accepted |
| `AlertDeliveryOutcomes.TerminalUntilRetried` | `app/services/alert_service.py:377-385` | a delivered, given-up or cancelled delivery stays as it is, over any run, until an operator's retry |
| `AlertDeliveryOutcomes.PrepareExactly` | `app/services/alert_service.py:361-498` | a due delivery is cancelled with an inactive destination, given up when the cycle's budget is spent and claimed otherwise, field by field, after a claim that ran out was closed; a token used before aborts |
| `AlertDeliveryOutcomes.UnripeIsLeft` | `app/services/alert_service.py:377-436` | a delivery that is not due is left alone, and the answer says why |
| `AlertDeliveryOutcomes.RetryExactly` | `app/services/alert_service.py:709-749` | an accepted manual retry starts a new cycle at once and keeps the history; a refused one changes nothing |
| `AlertDeliveryOutcomes.DelayDoubles` | `app/services/alert_service.py:506-509` | without a header the first delay is the base and each further attempt of the cycle doubles it, up to the maximum |
| `AlertDeliveryOutcomes.HeaderRaisesDelay` | `app/services/alert_service.py:510-524` | a header can only raise the delay, to the seconds it names or the whole seconds until its date, never past the maximum; a malformed one counts for nothing |
| `AlertDeliveryService.DeliveryRow.FindRunning` | `app/repositories/alert_repository.py:332-345` | finds the running attempt that carries the token |
| `AlertDeliveryService.DeliveryRow.PrepareDelivery` | `app/services/alert_service.py:361-498` | the transaction meets its specification on every branch |
| `AlertDeliveryService.DeliveryRow.RetryDelaySeconds` | `app/services/alert_service.py:501-524` | the stepwise delay equals its specification and lies between base and maximum |
| `AlertDeliveryService.DeliveryRow.FinalizeDelivery` | `app/services/alert_service.py:527-612` | the transaction meets its specification for every outcome and token; `AlertDeliveryOutcomes.FinalizeExactly` says what that leaves |
| `AlertDeliveryService.DeliveryRow.RetryDelivery` | `app/services/alert_service.py:709-749` | the manual retry meets its specification |
| `Lease.AcquireKeepsValid` | `app/services/acquisition_lease_service.py:53-145` | acquiring keeps tenures disjoint, the log foldable to the status, takeover counts exact and identities unique |
| `Lease.HeartbeatKeepsValid` | `app/services/acquisition_lease_service.py:147-177` | renewing keeps the same invariants |
| `Lease.FinalizeKeepsValid` | `app/services/acquisition_lease_service.py:179-205` | ending keeps the same invariants |
| `LeaseRuns.RunsAreValid` | `app/services/acquisition_lease_service.py:53-205` | the invariants hold in every reachable state |
| `LeaseRuns.TenuresAreDisjoint` | `app/services/acquisition_lease_service.py:98-128` | of two leases of an endpoint the earlier ended, by finalization or past its expiry, before the later began |
| `LeaseRuns.AtMostOneActive` | `app/services/acquisition_lease_service.py:90-97` | an endpoint has at most one active lease |
| `LeaseRuns.GrantedIff` | `app/services/acquisition_lease_service.py:64-145` | a lease is granted if and only if the execution is new, the endpoint configured and no active lease lasts past now |
| `LeaseRuns.GrantIsExclusive` | `app/services/acquisition_lease_service.py:98-145` | the grantee alone holds the endpoint, until now plus its lifetime, and other endpoints' leases are untouched |
| `LeaseRuns.LeaseProtects` | `app/services/acquisition_lease_service.py:101-103` | before it expires, an active lease is moved by no one but its owner, over any run |
| `LeaseRuns.EndedStaysEnded` | `app/services/acquisition_lease_service.py:156-205` | a lease that is over never changes again |
| `LeaseRuns.TakeoverFencesOldToken` | `app/services/acquisition_lease_service.py:104-115` | after a takeover, and any further run, neither heartbeat nor finalize by the old token succeeds or changes a row |
| `LeaseRuns.ReplayReturnsSameLease` | `app/services/acquisition_lease_service.py:69-87` | acquiring again for an execution returns its one lease at any later time and changes no lease |
| `LeaseRuns.LogTellsStatus` | `app/services/acquisition_lease_service.py:106-143` | folding a lease's events, replays ignored, gives its status |
| `LeaseRuns.LogOnlyGrows` | `app/services/acquisition_lease_service.py:75-83` | events are only appended |
| `LeaseRuns.TakeoverCountIsChainLength` | `app/services/acquisition_lease_service.py:114-115` | the takeover count is the length of the chain of expired leases directly before |
| `LeaseOutcomes.AcquireAnswersFirst` | `app/services/acquisition_lease_service.py:64-97` | an execution that has a lease gets it again, only noted in the log; a new one needs an active configuration |
| `LeaseOutcomes.AcquireHeldExactly` | `app/services/acquisition_lease_service.py:90-128` | while somebody holds the endpoint past `now` a new execution is busy and changes nothing; a holder whose time is over is expired and its takeover count continued by one, row and log entries given |
| `LeaseOutcomes.AcquireFreeExactly` | `app/services/acquisition_lease_service.py:117-145` | a free endpoint goes to the first new execution with a positive lifetime, row and log entry given |
| `LeaseOutcomes.HeartbeatExactly` | `app/services/acquisition_lease_service.py:147-177` | a heartbeat renews exactly the active, unexpired lease of its own owner until `now` plus its lifetime, and is refused without a change in every other case |
| `LeaseOutcomes.FinalizeExactly` | `app/services/acquisition_lease_service.py:179-205` | finalizing ends exactly the active lease of its own owner, expired or not, and is refused without a change otherwise |
| `LeaseOutcomes.RenewalProtects` | `app/services/acquisition_lease_service.py:147-177` | a renewal in time keeps everybody else out until its own end, over any run of what they try |
| `LeaseOutcomes.LogIsSequenced` | `app/services/acquisition_lease_service.py:53-205` | on every run the log tells of each lease in order: its opening first and only once, renewals while it lasts, at most one end, and after that only replays |
| `LeaseService.LeaseTable.Acquire` | `app/services/acquisition_lease_service.py:53-145` | the transaction meets its specification on every branch |
| `LeaseService.LeaseTable.Heartbeat` | `app/services/acquisition_lease_service.py:147-177` | the transaction meets its specification, errors included |
| `LeaseService.LeaseTable.Finalize` | `app/services/acquisition_lease_service.py:179-205` | the transaction meets its specification, errors included |
| `WorkerRuns.FinalizeAuthorityIsAtomic` | `app/services/acquisition_worker_service.py:405-425` | reservation and lease close together or not at all: exactly when the reservation exists, the lease still answers its owner and the commit goes through, and then every slot the reservation held is free; which failure is noticed first |
| `WorkerRuns.CloseSucceedsIff` | `app/services/acquisition_worker_service.py:405-425` | on reachable states a call's close succeeds exactly while its lease is active, the reservation it holds exists and the commit goes through |
| `WorkerRuns.FreshRunNeverReplays` | `app/services/acquisition_worker_service.py:126-139` | a newly opened call's reservation is never a replay and never a foreign run |
| `WorkerRuns.RunsAreValid` | `app/services/acquisition_worker_service.py:104-237` | any interleaving of any number of workers, crashes and failed commits included, keeps limiter, leases and calls linked and in agreement |
| `WorkerRuns.CompletedMeansClosed` | `app/services/acquisition_worker_service.py:226-237` | a completed call released its own lease and its reservation holds no slot |
| `WorkerRuns.LeakMeansRaised` | `app/services/acquisition_worker_service.py:209-224` | a reservation still active after its call ended means that the call raised, and that its lease was taken over or its last commit failed |
| `WorkerRuns.StrandedMeansFailedCommit` | `app/services/acquisition_worker_service.py:209-224` | a lease still active after its call ended means a failed commit, of the closing transaction or of the authorization before it |
| `WorkerRuns.StrandedBlocks` | `app/services/acquisition_lease_service.py:90-103` | until such a lease expires no call on its endpoint gets past its opening |
| `WorkerRuns.CallsExclude` | `app/services/acquisition_worker_service.py:113-121` | two calls never hold live leases on one endpoint |
| `WorkerRuns.OneCallPerExecution` | `app/services/acquisition_worker_service.py:239-345` | an execution identity of an endpoint is opened by one call only |
| `WorkerRuns.FencedNeverCompletes` | `app/services/acquisition_worker_service.py:405-425` | once its lease was taken over a call can only fail, whatever happens |
| `WorkerRuns.SecondCloseFailsToo` | `app/services/acquisition_worker_service.py:141-163` | when the close of a delayed call fails for a lost lease, the second close made by the exception branch fails too and changes nothing |
| `WorkerRecovery.InstallationStaysFirst` | `app/services/acquisition_rate_limit_service.py:270-331` | on every run each reservation is charged to the installation-wide bucket, which is the first one |
| `WorkerRecovery.PreparedSweeps` | `app/services/acquisition_rate_limit_service.py:108-118` | getting any eligible request ready expires exactly the active reservations whose time is over |
| `WorkerRecovery.NextAuthorizationFrees` | `app/services/acquisition_rate_limit_service.py:389-430` | a leaked reservation is freed by the next authorization of any call on any endpoint, once its lifetime is over and not before |
| `WorkerRefinement.RunsRefineLimiter` | `app/services/acquisition_worker_service.py:104-237` | every interleaving of the workers is, on the limiter's tables, a run of the limiter in the order of the clock |
| `WorkerRefinement.RunsRefineLeases` | `app/services/acquisition_worker_service.py:104-237` | every interleaving of the workers is, on the lease table, a run of the lease protocol in the order of the clock |
| `WorkerRefinement.WorkersStayInWindow` | `app/services/acquisition_rate_limit_service.py:433-463` | all workers together: any closed interval of one period holds at most 2·(requests per period + burst − 1) grants on a bucket |
| `WorkerTenures.StepEndsIff` | `app/services/acquisition_rate_limit_service.py:389-430` | one event ends an active reservation exactly by its holder's committed close or by a committed authorization that reaches the buckets at or after its expiry |
| `WorkerTenures.WorkingUntilReclaimed` | `app/services/acquisition_worker_service.py:131-136` | on every run a call at work still has its reservation if and only if no authorization that reached the buckets was committed at or after the reservation's expiry |
| `WorkerTenures.CapBoundsWork` | `app/services/acquisition_rate_limit_service.py:119-131` | on every run the calls at work on a bucket whose reservations are active number at most its cap; altogether they exceed it by no more than those whose reservation was reclaimed |
| `WorkerTenures.AuthorizedIff` | `app/services/acquisition_worker_service.py:124-139` | an authorization puts a call to work if and only if it reaches the buckets and every existing one it targets is free; calls at work under an expired reservation do not count |
| `WorkerOutcomes.OpenOpens` | `app/services/acquisition_worker_service.py:300-345` | a ready call with a new identity on an endpoint nobody holds past `now` opens the next execution: its lease is the next row, in its own name until `now` plus its own lifetime, an overdue holder is expired, and the limiter is not asked |
| `WorkerOutcomes.OpenDeclines` | `app/services/acquisition_worker_service.py:251-312` | a call that is not ready, whose identity was used before or whose endpoint is busy declines, and no lease, reservation or execution is added |
| `WorkerOutcomes.AuthorizeExactly` | `app/services/acquisition_worker_service.py:124-141` | the authorization asks the limiter for the call's own run, endpoint and identity for two minutes without credentials; a committed grant puts the call to work on the granted row, a delay sends it to the delayed close, an error to the failing one, and without commit or credentials the tables stay as they were |
| `WorkerOutcomes.WorksIff` | `app/services/acquisition_worker_service.py:124-139` | a call is put to work exactly when configuration, origin and installation policy are there and every existing bucket of a scope its request concerns lets it through |
| `WorkerOutcomes.CloseExactly` | `app/services/acquisition_worker_service.py:141-237` | a close nothing stands in the way of ends lease and held reservation as released and completed after success and as failed otherwise, and finishes the call as delayed, completed or raised; a failed one changes no table and leads from the delay to the failing close, else to a raised call with the obstacle named |
| `WorkerOutcomes.WorkExactly` | `app/services/acquisition_worker_service.py:165-224` | work ends in success or failure with the reservation still in the call's hands and no table touched |
| `WorkerOutcomes.CrashExactly` | `app/services/acquisition_worker_service.py:104-237` | a dying process leaves its lease and whatever reservation it held behind, and touches no table |
| `WorkerExamples.TwoAtWork` | `app/services/acquisition_worker_service.py:131-136` | an instance: two calls at work under a cap of one, the first one's reservation reclaimed |
| `WorkerExamples.LostCommitStrandsLease` | `app/services/acquisition_worker_service.py:124-139` | an instance: the authorization's commit fails, the call raises, its lease stays active |
| `WorkerService.AcquisitionWorkers.OpenExecution` | `app/services/acquisition_worker_service.py:239-345` | the opening transaction is one step of the interleaving machine and ends opened or declined |
| `WorkerService.AcquisitionWorkers.Reserve` | `app/services/acquisition_worker_service.py:124-139` | the authorization transaction, its commit included, is one step and leaves the call working, delayed or failing |
| `WorkerService.AcquisitionWorkers.CloseAuthority` | `app/services/acquisition_worker_service.py:405-425` | the two finalizations, rolled back together when one raises or the commit fails |
| `WorkerService.AcquisitionWorkers.Attempt` | `app/services/acquisition_worker_service.py:123-208` | whatever raises between opening and closing, the call comes out ready to close |
| `WorkerService.AcquisitionWorkers.ConcludeDelay` | `app/services/acquisition_worker_service.py:141-163` | a delayed call closes once, or twice through the exception branch, and reports accordingly |
| `WorkerService.AcquisitionWorkers.Conclude` | `app/services/acquisition_worker_service.py:209-237` | the last close decides between completed, delayed and raised |
| `WorkerService.AcquisitionWorkers.Run` | `app/services/acquisition_worker_service.py:104-237` | one whole call, with anything happening between its transactions, is a run of the interleaving machine and reports what its stage says |
| `ArtifactRuns.StagesExactly` | `app/services/artifact_security_service.py:389-447` | a stream is staged if and only if it is all bytes, not empty and within the limit, and then byte for byte; a refused one keeps at most the limit |
| `ArtifactOutcomes.StreamStopsAt` | `app/services/artifact_security_service.py:389-447` | the first chunk that is no bytes, raises or exceeds the limit ends the stream, and with which reason and how many bytes staged |
| `ArtifactRuns.StagedFileFate` | `app/services/artifact_security_service.py:211-318` | with working deletes, the staged file is left behind if and only if an inspection await is cancelled or promotion cannot start, and no other staged file is touched |
| `ArtifactRuns.StagedFileCanSurvive` | `app/services/artifact_security_service.py:774-777` | an instance: the staged file survives a promotion whose directory cannot be made |
| `ArtifactRuns.RejectionFollowsDeletion` | `app/services/artifact_security_service.py:959-971` | a rejection row is only written when the file is no longer staged, nothing was promoted and no other table changed |
| `ArtifactRuns.OneTip` | `app/models/acquisition_artifact.py:553-558` | in a supersession chain exactly the last version of a resource is not superseded |
| `ArtifactRuns.TipIsLast` | `app/services/artifact_security_service.py:883-900` | the query for the newest un-superseded version finds the end of the chain whatever the acceptance times |
| `ArtifactRuns.AcceptingExtendsChain` | `app/services/artifact_security_service.py:872-915` | accepting new bytes appends one link to the chain's end; accepting an earlier payload again adds none |
| `ArtifactStore.AcceptanceIsIdempotent` | `app/services/artifact_security_service.py:829-957` | accepting the same retrieval of the same bytes again returns the same artifact and writes no row |
| `ArtifactStore.IngestKeepsConsistent` | `app/services/artifact_security_service.py:211-318` | an ingest not overlapped by another keeps every canonical file hashing to its name and every row backed by a file; an accepted one stored the stream, byte for byte where its hash is unmistakable, and recorded it |
| `ArtifactStore.RunsAreConsistent` | `app/services/artifact_security_service.py:774-827` | the same over every run of ingests that do not overlap, whatever fails in them |
| `ArtifactStore.RunsHaveOneTip` | `app/services/artifact_security_service.py:872-957` | over every run of ingests, raced or not, each resource has one acyclic chain with exactly one tip |
| `ArtifactStore.RunsObserveOnce` | `app/services/artifact_security_service.py:928-957` | over every run of ingests, raced or not, a run's retrieval identity is observed once, as one existing artifact |
| `ArtifactOutcomes.AcceptedPassedAll` | `app/services/artifact_security_service.py:211-318` | an accepted ingest was started and staged, its detection, declared evidence, scan and parse all passed with a known parser, and the staged file still had its hash and length at the end |
| `ArtifactOutcomes.AcceptedIff` | `app/services/artifact_security_service.py:211-318` | with a store that works an ingest is accepted if and only if it starts, its stream delivers, every inspection passes, the commit goes through, and path, payload rows and observations that are already there fit the bytes |
| `ArtifactOutcomes.IngestEndsAtFirst` | `app/services/artifact_security_service.py:236-296` | the first inspection that refuses, raises or is cancelled decides the ingest: the error, or the rejection row with its reason, format and scanned flag |
| `ArtifactOutcomes.IngestStopsAt` | `app/services/artifact_security_service.py:211-235` | a stream that does not deliver is rejected with the reason of its first bad chunk and what had been staged |
| `ArtifactOutcomes.IngestOfNothing` | `app/services/artifact_security_service.py:389-447` | a stream without bytes is rejected as an empty payload |
| `ArtifactOutcomes.IngestDoesNotStart` | `app/services/artifact_security_service.py:211-234` | an invalid request or missing infrastructure raises and leaves tables and files as they were |
| `ArtifactOutcomes.AcceptanceExactly` | `app/services/artifact_security_service.py:829-957` | an acceptance appends at most one row to each table: the payload unless its hash is known, the version unless the resource has these bytes, superseding its last one, and the retrieval unless it is recorded |
| `ArtifactOutcomes.AcceptanceSucceedsIff` | `app/services/artifact_security_service.py:829-957` | the acceptance transaction succeeds exactly when payload rows and observations that are there fit |
| `ArtifactOutcomes.PromoteExactly` | `app/services/artifact_security_service.py:774-827` | a promotion exit by exit: which failures raise before any clean-up, when the staged file goes, when an existing or raced path is taken over and when the file is created |
| `ArtifactOutcomes.PromotionSucceedsIff` | `app/services/artifact_security_service.py:774-827` | a promotion of verified bytes with nothing in its way succeeds exactly when what lies at the path fits |
| `ArtifactOutcomes.RecordExactly` | `app/services/artifact_security_service.py:296-318` | a cancelled commit leaves everything, a failed one leaves the rows and removes the file exactly when this ingest created it, and one that goes through keeps the file |
| `ArtifactOverlap.AloneIsIngest` | `app/services/artifact_security_service.py:211-318` | the five interleaved steps of an ingest with nobody in between do what the whole ingest does |
| `ArtifactOverlap.OutOfTurnIsIdle` | `app/services/artifact_security_service.py:211-318` | a step its ingest does not wait for changes neither the world nor the ingest |
| `ArtifactOverlap.OtherStepsKeepBacked` | `app/services/artifact_security_service.py:774-827` | every step of any ingest but a withdrawal keeps every row and every promoted ingest with its file |
| `ArtifactOverlap.WithdrawIsSafeIff` | `app/services/artifact_security_service.py:305-310` | a withdrawal leaves every row and every promoted ingest with its file if and only if its ingest did not create the file, or no row names it and no other ingest has promoted to it and is still to write its row |
| `ArtifactOverlap.BackedIffNoHarm` | `app/services/artifact_security_service.py:211-318` | over any interleaving of any number of ingests everything is backed at every moment if and only if no withdrawal was of a file somebody needed |
| `ArtifactOverlap.InterleavingsKeepAddresses` | `app/services/artifact_security_service.py:796-827` | over any interleaving every canonical file hashes to its name and the rows stay linked |
| `ArtifactOverlap.InterleavingsHaveOneTip` | `app/services/artifact_security_service.py:872-957` | over any interleaving each resource has one acyclic chain with exactly one tip |
| `ArtifactOverlap.InterleavingsObserveOnce` | `app/services/artifact_security_service.py:928-957` | over any interleaving a run's retrieval is observed once, as one existing artifact |
| `ArtifactOverlap.OverlapCanOrphan` | `app/services/artifact_security_service.py:305-310` | an instance: the file is removed under another ingest's committed row |
| `ArtifactOverlap.LateRecordIsOrphaned` | `app/services/artifact_security_service.py:305-310` | an instance: the file is removed while no row names it, and the ingest that had found it commits its row afterwards |
| `ArtifactService.ArtifactRuntime.Stage` | `app/services/artifact_security_service.py:389-447` | the chunk loop stages exactly the specified bytes |
| `ArtifactService.ArtifactRuntime.PromoteFile` | `app/services/artifact_security_service.py:774-827` | promotion meets its specification, including existing, special and raced paths |
| `ArtifactService.ArtifactRuntime.PersistAccepted` | `app/services/artifact_security_service.py:829-957` | the acceptance transaction meets its specification, undone on an observation conflict |
| `ArtifactService.ArtifactRuntime.PersistRejected` | `app/services/artifact_security_service.py:959-1038` | the rejection transaction meets its specification and refuses while the file exists |
| `ArtifactService.ArtifactRuntime.RecordAccepted` | `app/services/artifact_security_service.py:294-318` | a failed acceptance withdraws the file it created, and only that one |
| `ArtifactService.ArtifactRuntime.InspectStaged` | `app/services/artifact_security_service.py:236-296` | the inspections run one after the other as in the specification, and a rejection deletes the staged file before its row is written; `ArtifactOutcomes.IngestEndsAtFirst` says which inspection decides and how |
| `ArtifactService.ArtifactRuntime.IngestStream` | `app/services/artifact_security_service.py:211-318` | the whole ingest meets its specification, exceptions and cancellations included; `ArtifactOutcomes.AcceptedIff` says when it accepts |
| `CalendarPath.SearchFindsShortest` | `app/services/calendar_inference_service.py:157-172` | from any reachable queue the search ends with a shortest legal path or the proof that there is none |
| `CalendarPath.PathIsShortest` | `app/services/calendar_inference_service.py:157-172` | on every finite edge map the search finds a path if and only if the target is reachable, and then a shortest one |
| `CalendarPath.FindPath` | `app/services/calendar_inference_service.py:157-172` | the deque loop itself terminates with a shortest legal path exactly when there is one |
| `CalendarPath.StatesConnect` | `app/services/calendar_inference_service.py:64-77` | every validation state reaches every other in at most three legal steps, so publishing never fails |
| `CalendarOutcomes.LegalSteps` | `app/services/calendar_inference_service.py:64-77` | a candidate rises to probable, verified and confirmed step by step, everything not rejected can be disputed, a dispute ends anywhere, only an undisputed event below confirmed or a disputed one is rejected, and a rejected one only becomes a candidate again |
| `CalendarFusion.FuseStrength` | `app/services/calendar_inference_service.py:142-154` | the accumulator loop computes the fused strength, between zero and one |
| `CalendarFusion.OrderIsIrrelevant` | `app/services/calendar_validation_adapter.py:98-110` | the strength depends only on the multiset of evidence |
| `CalendarFusion.MoreEvidenceIsStronger` | `app/services/calendar_inference_service.py:142-154` | more evidence never weakens a side, rounding included |
| `CalendarFusion.OneRowWeighs` | `app/services/calendar_inference_service.py:142-154` | a row of the kinds takes away its confidence, at half its weight for a worthless authority and at full weight for a perfect one; a row of another kind takes nothing away |
| `CalendarFusion.DoubtsMultiply` | `app/services/calendar_inference_service.py:142-154` | stretches of evidence multiply the doubt they leave, starting from all of it |
| `CalendarFusion.StrengthIsNearest` | `app/services/calendar_inference_service.py:109-154` | the strength is what the evidence takes away, to the nearest of four decimal places and to the even one in between |
| `CalendarVerdict.RebuildEvidence` | `app/services/calendar_inference_service.py:671-745` | the resolution context holds each linked row once, and nothing else, in the order of the identifiers |
| `CalendarVerdict.SameEvidence` | `app/services/calendar_inference_service.py:671-745` | links to the rows of detection, read in any order, give back those rows, and the same support and contradiction |
| `CalendarVerdict.SecondPassNeverResolves` | `app/services/calendar_validation_adapter.py:116-204` | where detection finds a conflict the adversarial pass never resolves, so the margin of the first pass decides |
| `CalendarVerdict.VerdictTable` | `app/services/calendar_inference_service.py:561-645` | the verdict of detection, both passes and the disabled router together is the stated threshold table, for all strengths |
| `CalendarVerdict.ResolveExactly` | `app/services/calendar_validation_adapter.py:116-204` | the adapter is unavailable for another version or strategy; it decides for the stronger side, if that is a candidate and the sides are 0.35 apart, or 0.50 apart with the weaker below 0.20 in the adversarial review, and is as confident as the sides are apart |
| `CalendarVerdict.DetectionConfidence` | `app/services/calendar_inference_service.py:427-668` | detection is as confident as the side it decides for, and as the stronger one when it leaves a candidate |
| `CalendarVerdict.MoreContradictionCanPromote` | `app/services/calendar_inference_service.py:561-645` | exactly when raising the contradiction lifts the verdict from candidate to probable |
| `CalendarVerdict.PromotionExample` | `app/services/calendar_inference_service.py:561-645` | an instance of such a promotion |
| `CalendarVerdict.VerdictIgnoresOrder` | `app/services/calendar_inference_service.py:142-154` | the verdict does not depend on the order evidence is read in |
| `CalendarRuns.OnlyNewestIsFree` | `app/models/calendar_inference.py:1055-1058` | in a linear chain exactly the newest override of a scope is not superseded |
| `CalendarRuns.AdministrativePriorIsNewest` | `app/services/calendar_administration_service.py:813-914` | a withdrawal looks its override up by conflict, yet only gets through when that is the newest of the scope |
| `CalendarRuns.PublishRestoresPrecedence` | `app/services/calendar_inference_service.py:316-396` | after publishing, a scope shows its operator's demand or else the given machine state, and other scopes are untouched |
| `CalendarRuns.RunsKeepLedger` | `app/services/calendar_inference_service.py:427-1400` | every run of inference, override and administration steps keeps the ledger's invariants |
| `CalendarRuns.OperatorPrecedence` | `app/services/calendar_inference_service.py:285-333` | on every run, an event whose newest override asserts or selects shows that state |
| `CalendarRuns.OverridesAreLinear` | `app/services/calendar_administration_service.py:463-480` | on every run each override supersedes the one before it in its scope and only the newest is free |
| `CalendarRuns.ResolvedMeansAgreed` | `app/services/calendar_administration_service.py:543-688` | on every run a resolved exception belongs to a resolved conflict with a selected assertion |
| `CalendarOutcomes.ProjectedShows` | `app/services/calendar_inference_service.py:316-396` | a projection leaves the scope showing its target by logged legal steps of one actor that start at the old state, none exactly if nothing changes, and moves nothing else |
| `CalendarOutcomes.SetExactly` | `app/services/calendar_inference_service.py:1197-1304` | an override that is set is one new operator assertion and one new override superseding the scope's newest, and scope and answer show its state; it is refused, without a change, only for another kind, an unknown scope or an unknown conflict |
| `CalendarOutcomes.WithdrawExactly` | `app/services/calendar_inference_service.py:1307-1400` | a withdrawal undoes the scope's newest override, if that asserts or selects and there is a machine assertion, repeats its state as withdrawn and shows the machine's newest state as the operator's act |
| `CalendarOutcomes.ResolveExactly` | `app/services/calendar_administration_service.py:543-688` | a resolution publishes the state of the member the operator selected, or the state given, as one new assertion and one new override that selects or asserts on this conflict, which becomes agreed on it while the exception is resolved; refusals exactly named |
| `CalendarOutcomes.DenyExactly` | `app/services/calendar_administration_service.py:691-773` | a denial records the member's state as denied with an override that demands nothing, publishes nothing and leaves exception and conflict as they are; refusals exactly named |
| `CalendarOutcomes.ActionExactly` | `app/services/calendar_administration_service.py:776-810` | only an open exception is closed, only one that is not open is reopened, and a note changes nothing |
| `CalendarOutcomes.WithdrawAdministrativeExactly` | `app/services/calendar_administration_service.py:813-914` | an administrative withdrawal undoes the newest override on the conflict exactly when that acts, is also the scope's newest and a machine assertion exists; then conflict and exception are open again and the scope shows the machine's newest state |
| `CalendarConclusions.InferExactly` | `app/services/calendar_inference_service.py:427-668` | an inference replays a finished run on the same facts, names the conflict of one at work, raises a conflict and publishes nothing when both strengths reach 0.40, and else asserts the table's verdict, shown unless the operator demands something |
| `CalendarConclusions.FinalizeResolvedExactly` | `app/services/calendar_inference_service.py:988-1101` | a decision ends the run as succeeded and leaves the conflict agreed on the assertion, whose state shows unless the operator demands something; refusals exactly named |
| `CalendarConclusions.FinalizeExhaustedExactly` | `app/services/calendar_inference_service.py:988-1101` | without a decision the run ends as partial, `disputed` is asserted and shown unless the operator demands something, the conflict is unsettled and one open exception recorded; aborted exactly for a selected assertion, an existing exception or a route not exhausted |
| `CalendarConclusions.FailExactly` | `app/services/calendar_inference_service.py:1456-1481` | an infrastructure failure is recorded on the scope's newest run at work and on nothing else |
| `CalendarHistory.StepProjects` | `app/services/calendar_inference_service.py:376-396` | every step leaves the published states alone or is one projection of one scope |
| `CalendarHistory.RunsAreTold` | `app/models/calendar.py:852-877` | on every run each logged transition is legal and starts from what its scope showed at that moment, its event's state while it had none of its own, and the log ends at the state the scope is pinned to |
| `CalendarHistory.OccurrenceShowsDemandIff` | `app/services/calendar_inference_service.py:360-375` | an occurrence shows its operator's demand exactly when it is pinned or its event happens to agree |
| `CalendarHistory.PublicationPinsIff` | `app/services/calendar_inference_service.py:360-396` | a publication leaves an occurrence pinned exactly when it was pinned before or had to differ from its event |
| `CalendarHistory.OccurrenceCanDrift` | `app/services/calendar_inference_service.py:360-396` | an instance: an occurrence override lost to a later change of the event |
| `CalendarPipeline.PendingPublishes` | `app/services/calendar_inference_service.py:988-1101` | a conflict awaiting its decision ends with the verdict on its evidence, or with what the operator demands by then, and opens one exception exactly for a dispute |
| `CalendarPipeline.WithdrawalPublishesLatest` | `app/services/calendar_inference_service.py:1307-1400` | a withdrawal by operator or administrator publishes the machine assertion of the scope with the highest position |
| `CalendarPipeline.AdministrativeWithdrawalPublishesLatest` | `app/services/calendar_administration_service.py:813-914` | an administrator's withdrawal publishes the machine assertion with the highest position and reopens exactly its exception and conflict |
| `CalendarEvidence.ContextIsRows` | `app/services/calendar_inference_service.py:671-745` | the links that detection writes give adjudication exactly the rows of detection, whatever order they are read in |
| `CalendarEvidence.PipelinePublishesVerdict` | `app/services/calendar_inference_service.py:1104-1194` | from the evidence rows on: a first inference publishes what the threshold table says of their fused strengths, or the operator's demand, and opens one exception exactly for a dispute |
| `CalendarEvidence.RerunAfterCrash` | `app/services/calendar_inference_service.py:520-537` | for every ledger a rerun after a crash between detection and finalization ends where the uninterrupted run does |
| `CalendarEvidence.SecondRunChangesNothing` | `app/services/calendar_inference_service.py:1104-1194` | for every ledger a second run on the same evidence changes nothing |
| `CalendarEvidence.ResumedPublishesVerdict` | `app/services/calendar_inference_service.py:1104-1194` | a conflict found, then anything operators and administrators do, then the resumed run: the verdict of the evidence, or the demand by then, is published |
| `CalendarEvidence.WithdrawalExposesVerdictIff` | `app/services/calendar_inference_service.py:399-424` | after any administration in between, a withdrawal by either exposes the machine's verdict exactly unless a conflict was decided for support, and then rejection |
| `CalendarEvidence.WithdrawalCanExposeRejected` | `app/services/calendar_inference_service.py:399-424` | an instance from two evidence rows: probable, confirmed by the operator, rejected after the withdrawal |
| `CalendarService.EventLedger.Project` | `app/services/calendar_inference_service.py:376-396` | the loop over the path logs and applies exactly the legal steps to the target |
| `CalendarService.EventLedger.PublishEffective` | `app/services/calendar_inference_service.py:316-396` | publication meets its specification |
| `CalendarService.EventLedger.PrepareInference` | `app/services/calendar_inference_service.py:427-668` | detection meets its specification: replay, conflict or conclusion |
| `CalendarService.EventLedger.FinalizeResolution` | `app/services/calendar_inference_service.py:988-1101` | resolution and exhaustion meet their specification |
| `CalendarService.EventLedger.SetOperatorOverride` | `app/services/calendar_inference_service.py:1197-1304` | the override transaction meets its specification, refusals included |
| `CalendarService.EventLedger.WithdrawOperatorOverride` | `app/services/calendar_inference_service.py:1307-1400` | the withdrawal transaction meets its specification, refusals included |
| `CalendarService.EventLedger.ResolveAdministrativeException` | `app/services/calendar_administration_service.py:543-688` | the resolution transaction meets its specification, refusals included; `CalendarOutcomes.ResolveExactly` says what that publishes |
| `CalendarService.EventLedger.DenyAdministrativeProposal` | `app/services/calendar_administration_service.py:691-773` | the denial transaction meets its specification |
| `CalendarService.EventLedger.RecordAdministrativeAction` | `app/services/calendar_administration_service.py:776-810` | closing, reopening and noting move the exception as specified, and never the conflict |
| `CalendarService.EventLedger.WithdrawAdministrativeOverride` | `app/services/calendar_administration_service.py:813-914` | the administrative withdrawal meets its specification, refusals included |
| `CalendarEvidenceService.ValidationRuntime.PrepareInference` | `app/services/calendar_inference_service.py:427-668` | detection on the rows: both strengths fused, the ledger moved, what was asserted linked to the rows |
| `CalendarEvidenceService.ValidationRuntime.ResolutionContext` | `app/services/calendar_inference_service.py:671-745` | the facts of a conflict read back through the links of its two assertions |
| `CalendarEvidenceService.ValidationRuntime.Adjudicate` | `app/services/calendar_validation_adapter.py:116-204` | both internal passes decide as specified |
| `CalendarEvidenceService.ValidationRuntime.Validate` | `app/services/calendar_inference_service.py:1104-1194` | the whole pipeline meets its specification on every ledger and any rows |
| `FeedDetector.DetectFeed` | `app/services/artifact_inspection_worker.py:204-325` | the event loop with its flags meets its specification on every stream |
| `FeedDetector.ScanVisits` | `app/services/artifact_inspection_worker.py:245-288` | scanning the start and end events of an element is visiting its nodes in document order with their depths |
| `FeedTrees.NodesMeasure` | `app/services/artifact_inspection_worker.py:248-264` | node count, greatest depth and attribute width of the visit are the tree's size, height and width |
| `FeedTrees.NoViolationIff` | `app/services/artifact_inspection_worker.py:248-264` | the scan meets no violation exactly when all three limits hold |
| `FeedTrees.RootsAtDepth` | `app/services/artifact_inspection_worker.py:267-283` | what the scan sees at depth two is exactly the children of the root |
| `FeedTrees.ScanOfDocument` | `app/services/artifact_inspection_worker.py:238-302` | a finished scan knows size, root and kind of the tree; a stopped one names the first violation in document order |
| `FeedTrees.DocumentAcceptedIff` | `app/services/artifact_inspection_worker.py:238-325` | a document is accepted if and only if its tree is within depth 64, 200000 elements and 256 attributes and is RSS, RDF or Atom with id, title and updated (section 4.1.1 of RFC 4287), with its size reported; otherwise the rejection is the stated one |
| `FeedTrees.ViolationDecides` | `app/services/artifact_inspection_worker.py:251-264` | after the first violation the rest of the stream, well-formed or not, changes nothing |
| `FeedTrees.BrokenStreamRejected` | `app/services/artifact_inspection_worker.py:289-295` | a stream that breaks off is never accepted, and malformed when it breaks off before any violation |
| `FeedOutcomes.BytesRefusedExactly` | `app/services/artifact_inspection_worker.py:212-236` | bytes are refused for an empty or more than 10 MiB long payload, else for a NUL byte, else for a document type or entity declaration in any letter case, and for nothing else |
| `FeedOutcomes.DocumentJudgedExactly` | `app/services/artifact_inspection_worker.py:238-325` | a document within the limits is accepted as RSS for a `rss` or RDF root with a channel, as Atom for an Atom feed with title, id and updated, with size and root reported, and rejected as unrecognized otherwise |
| `FeedOutcomes.FirstOffenderDecides` | `app/services/artifact_inspection_worker.py:248-264` | a document beyond a limit is rejected for its first offending node in document order: for the structure when it lies deeper than 64 or beyond the 200000th, else for more than 256 attributes |
| `CoverageHierarchy.ExpandIds` | `app/services/coverage_profile_service.py:282-309` | the worklist terminates on any parent relation and returns exactly the selections and what is reached without descending through a selected node that excludes its descendants |
| `CoverageHierarchy.WorkedOut` | `app/services/coverage_profile_service.py:303-309` | an empty worklist means that the result is exactly the covered set |
| `CoverageHierarchy.CoveredThroughParent` | `app/services/coverage_profile_service.py:298-308` | an unselected node is covered exactly through a reached parent that lets the descent pass |
| `CoverageHierarchy.SelectionStopsDescent` | `app/services/coverage_profile_service.py:290-308` | adding a selection can remove a node from the scope: it is not the full descendant closure |
| `CoverageHierarchy.ExpandSourceTypes` | `app/services/coverage_profile_service.py:312-344` | the slug version is the image of the identifier version under the bijection, unknown slugs kept |
| `CoverageHierarchy.SelectionsCarryOver` | `app/services/coverage_profile_service.py:312-333` | through the identifiers a slug with a row is selected exactly as it was, descendants included or not, and nothing else is |
| `Signature.HexRoundTrips` | `app/services/artifact_signature_service.py:56-63` | printing bytes as hex and decoding them gives the bytes back |
| `Signature.DigitsDecode` | `app/services/artifact_signature_service.py:104-112` | every normalized even-length hex text decodes, to half its length, and prints back as itself |
| `Signature.ParsedSignatureIsBounded` | `app/services/artifact_signature_service.py:97-156` | an accepted signature has sequences, all non-empty, within 4096 bytes and the window, and none twice |
| `Signature.StoredPatternReadsBack` | `app/services/artifact_security_service.py:606-645` | every signature the release parser accepts is read back from its stored pattern, sequence by sequence |
| `Signature.PatternReparses` | `app/services/artifact_signature_service.py:56-63` | the stored pattern under its identifier and priority parses to the same definition |
| `Signature.ParseDbPattern` | `app/services/artifact_security_service.py:606-645` | the loop over a stored pattern reads it or refuses it as specified, for every JSON value |
| `SignatureOutcomes.PairIsByte` | `app/services/artifact_security_service.py:606-645` | a pair of hexadecimal digits in either case is one byte in front of what follows |
| `SignatureOutcomes.SpacingIsSkipped` | `app/services/artifact_security_service.py:606-645` | white space in front of a pair is skipped |
| `SignatureOutcomes.OddTextIsRefused` | `app/services/artifact_security_service.py:606-645` | a lone character or a pair with one that is no digit makes the text unreadable |
| `SignatureOutcomes.PatternReadsIff` | `app/services/artifact_security_service.py:606-645` | a stored pattern reads as given sequences exactly when it is an object with `all` alone, a non-empty list of offset and hex objects that spell them |
| `SignatureOutcomes.SignatureParsesIff` | `app/services/artifact_signature_service.py:97-156` | a release's signature is accepted as a definition exactly when it has no sixth field, an identifier that is not blank, a priority that is not negative and sequences in one of the two forms, in lower-case digits, within both limits and no two the same |
| `SignatureMatching.HeaderDecides` | `app/services/artifact_security_service.py:478-533` | reading only as far as the longest signature gives the same formats and identifiers as reading the whole file |
| `SignatureMatching.RowOrderIsIrrelevant` | `app/services/artifact_security_service.py:455-469` | the judgement does not depend on the order of the signature rows |
| `SignatureMatching.ReleaseNeverRefused` | `app/services/artifact_security_service.py:478-500` | rows stored from an accepted release never trigger the invalid-release, kind or window rejections, and each matches exactly what the release says |
| `SignatureOutcomes.JudgeExactly` | `app/services/artifact_security_service.py:501-533` | a file is unknown exactly when it carries no row's pattern, ambiguous exactly when it carries patterns of two formats, and else found as the one format, each identifier named as often as a row with it matches |
| `SignatureOutcomes.DetectExactly` | `app/services/artifact_security_service.py:449-533` | detection refuses a release without rows, else the first row it cannot use with its reason, else a sequence ending beyond the first mebibyte, and judges the whole file otherwise |
| `SignatureMatching.DetectFormat` | `app/services/artifact_security_service.py:449-533` | the matching loop and its dictionary meet their specification |
| `SignatureImport.CheckOwners` | `app/services/artifact_signature_service.py:275-289` | the owner dictionary accepts a release if and only if no media type or extension has two formats |
| `SignatureImport.ImportKeepsSound` | `app/services/artifact_signature_service.py:343-478` | an import keeps one active release per authority, one owner per active media type and extension, and no signature without its release |
| `SignatureImport.ImportActivates` | `app/services/artifact_signature_service.py:343-478` | a successful import leaves this release the authority's only active one, with all its evidence active |
| `SignatureImport.ImportIsIdempotent` | `app/services/artifact_signature_service.py:354-376` | importing the same release again returns the same row and changes nothing |
| `SignatureImport.ImportStoresSignatures` | `app/services/artifact_signature_service.py:417-432` | a new import stores exactly its own signatures under its release, each in its place as a `byte_sequence` row of the usable format of its own slug, and leaves those of every other release alone |
| `SignatureImportOutcomes.ImportExactly` | `app/services/artifact_signature_service.py:343-478` | a release not stored yet is imported unless a format is unusable or active evidence gives one of its media types or extensions to another format; the import adds one row a signature under its own format with its priority, exactly the missing evidence, retires the authority's active releases and comes last, active |
| `SignatureImportOutcomes.ReimportExactly` | `app/services/artifact_signature_service.py:354-376` | a stored release is returned if it has the same bytes and is active, refused otherwise, and nothing changes |
| `SignatureImportOutcomes.OwnersPassIff` | `app/services/artifact_signature_service.py:275-289` | the owner check passes exactly when each media type and each extension listed by some format has one owner |
| `SignatureImportOutcomes.ImportedFormatIsFound` | `app/services/artifact_signature_service.py:417-432` | under an imported release a file is found as the one format whose signatures it shows, ambiguous when it shows those of formats stored under different identifiers, and unknown when it shows none |
| `SignatureImportOutcomes.OneFormatIsFound` | `app/services/artifact_signature_service.py:417-432` | a file that shows signatures of one format of the release only is found as that format |
| `SignatureImport.ImportedReleaseDetects` | `app/services/artifact_signature_service.py:343-478` | detection under an imported release never refuses it and judges every file by exactly the signatures it was parsed from |
| `SignatureImport.ReleaseStore.ImportRelease` | `app/services/artifact_signature_service.py:343-478` | the import transaction meets its specification on every branch; `SignatureImportOutcomes.ImportExactly` says what that leaves in each table |

## Left out

- Row objects: rows are values at positions, so in-place updates are captured and aliasing of ORM objects is not.
- RateLimitRuns.SlidingWindowBound: policies and bindings are fixed over a run and never retired; a policy change between
  two grants changes the bound itself. The same holds of the daily, spacing and concurrency bounds.
- Calendar transactions whose timestamps commit out of order: the newest row is taken to be the last one.
- A commit that reports failure although the database kept it: a failed commit is taken to be rolled back.
- Request identities with secrets in the worker: it passes none; the limiter itself models them.
- CalendarFusion.FuseStrength: exact reals rounded half-even to four places, not `Decimal` with 28 significant digits,
  where the product of very many rows may round before it is quantized.
- The HTTP call to ntfy, request headers, message payloads, response excerpts and error texts of alert delivery.
- Alert creation, monitor bindings and destinations: they only create the rows the delivery protocol starts from.
- The sandbox, the scanner and the parsers: each is an arbitrary outcome of the ingestion script.
- Structural format detectors and the tables of declared evidence: an arbitrary outcome of the ingestion script.
- Temporary copies during promotion: they never outlive the call, so only the canonical path is modelled.
- The provenance of a payload and its read-only mode.
- Manifest digests, format fields, media-type patterns and lower-case checks of a pinned release: no further state.
- XML tokenising, character encodings and JSON decoding: library behaviour; the models start from events and values.
- Evidence rows that are edited after they were linked: a link stands for the row as detection read it.
- Recorded resolution attempts: the deterministic adapter decides the same again, so replaying its record changes nothing.
- Assertion series, supersession among assertions, authority assessments and provenance records of the calendar.
- CalendarRuns.OperatorPrecedence: stated over the inference and administration operations; the direct event-state
  operation in `app/services/calendar_service.py:831-900` bypasses overrides and is not part of this model.
- Listing of pending validation scopes, administrative listings and payloads: read-only projections.
- External routers and adapters other than the default ones: `CalendarPipeline` and `CalendarEvidence` are about the
  deterministic adapter and the disabled router, while `CalendarRuns` and `CalendarHistory` allow any decision.
- Celery, Redis, FastAPI routes, relationship extraction, classification and ingestion services.
