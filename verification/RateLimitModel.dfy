/**
 The tables of the hierarchical rate limiter and what one transaction does to them.
 Row identifiers are positions: bucket `b` is `buckets[b]`, reservation `r` is
 `reservations[r]`, and a membership row is keyed by its unique pair (r, b).
 */
module RateLimitModel {
  import opened Prelude

  datatype Scope =
    | Installation
    | Adapter(adapterId: int)
    | Platform(slug: string)
    | Origin(origin: string)
    | SourceScope(sourceId: int)
    | EndpointScope(endpointId: int)
    | Credential(referenceId: int)

  datatype PolicyRow = PolicyRow(
    requestsPerPeriod: int,
    periodSeconds: int,
    burstSize: int,
    maxConcurrency: int,
    minimumSpacingSeconds: int,
    dailyBudget: Option<int>
  )
  {
    function Limit(): int { requestsPerPeriod + burstSize - 1 }
    function Period(): int { periodSeconds * SECOND }
    function Spacing(): int { minimumSpacingSeconds * SECOND }
  }

  /** A policy row that satisfies the table's CHECK constraints. */
  type Policy = p: PolicyRow |
      && 1 <= p.requestsPerPeriod <= 10_000
      && 1 <= p.periodSeconds <= 86_400
      && 1 <= p.burstSize <= 100
      && 1 <= p.maxConcurrency <= 16
      && 0 <= p.minimumSpacingSeconds
      && (p.dailyBudget.Some? ==> 0 < p.dailyBudget.value)
    witness PolicyRow(6, 60, 1, 1, 0, None)

  datatype Bucket = Bucket(
    scope: Scope,
    policy: Policy,
    windowStartedAt: Instant,
    requestCount: int,
    dailyStartedAt: Instant,
    dailyCount: int,
    activeConcurrency: int,
    lastRequestAt: Option<Instant>,
    blockedUntil: Option<Instant>,
    providerResetAt: Option<Instant>,
    nextEligibleAt: Option<Instant>
  )

  datatype Status = Active | Completed | Failed | Expired

  datatype Reservation = Reservation(
    runId: int,
    requestIdentity: string,
    status: Status,
    reservedAt: Instant,
    expiresAt: Instant,
    finalizedAt: Option<Instant>
  )

  datatype Observation = Observation(
    bucket: nat,
    retryAfterAt: Option<Instant>,
    providerResetAt: Option<Instant>
  )

  datatype State = State(
    bindings: map<Scope, Policy>,
    buckets: seq<Bucket>,
    reservations: seq<Reservation>,
    memberships: map<(nat, nat), Option<Instant>>,
    observations: seq<Observation>
  )

  datatype Request = Request(
    runId: int,
    endpointId: int,
    identity: string,
    secretReferenceIds: seq<int>,
    ttl: int
  )

  /** The active endpoint configuration; `origin` is None when the URL has no canonical HTTP origin. */
  datatype EndpointConfiguration = EndpointConfiguration(
    adapterId: int,
    platform: Option<string>,
    origin: Option<string>,
    sourceId: int
  )

  /** What `reserve` reads from tables it does not write, and the database's own clock. */
  datatype Lookups = Lookups(
    configuration: Option<EndpointConfiguration>,
    defaultPolicy: Option<Policy>,
    runEndpoint: Option<int>,
    databaseClock: Instant
  )

  datatype Error =
    | InvalidTtl
    | ConfigurationUnavailable
    | NoCanonicalOrigin
    | InstallationPolicyUnavailable
    | ForeignRun
    | NoSuchReservation
    | InvalidOutcome

  datatype Decision =
    | Replayed(existing: nat, permitted: bool)
    | Delayed(controlling: Scope, nextEligibleAt: Instant)
    | Reserved(reservation: nat)

  // ------------------------------------------------------------------ targets

  /** `sorted(set(ids))`, one insertion at a time. */
  function InsertDistinct(ids: seq<int>, x: int): seq<int> {
    if ids == [] then [x]
    else if x == ids[0] then ids
    else if x < ids[0] then [x] + ids
    else [ids[0]] + InsertDistinct(ids[1..], x)
  }

  function SortedDistinct(ids: seq<int>): seq<int> {
    if ids == [] then [] else InsertDistinct(SortedDistinct(ids[1..]), ids[0])
  }

  function Targets(q: Request, c: EndpointConfiguration, origin: string): seq<Scope> {
    [Installation, Adapter(c.adapterId)]
    + (if c.platform.Some? then [Platform(c.platform.value)] else [])
    + [Origin(origin), SourceScope(c.sourceId), EndpointScope(q.endpointId)]
    + var ids := SortedDistinct(q.secretReferenceIds); seq(|ids|, i requires 0 <= i < |ids| => Credential(ids[i]))
  }

  predicate HasBucket(s: State, scope: Scope) {
    exists b | 0 <= b < |s.buckets| :: s.buckets[b].scope == scope
  }

  function NewBucket(scope: Scope, policy: Policy, clock: Instant): Bucket {
    Bucket(scope, policy, clock, 0, clock, 0, 0, None, None, None, None)
  }

  /** Give `scope` its inherited binding and its bucket unless it already has them. */
  function EnsureBucket(s: State, scope: Scope, inherited: Policy, clock: Instant): State {
    var bindings := if scope in s.bindings then s.bindings else s.bindings[scope := inherited];
    s.(bindings := bindings,
       buckets := if HasBucket(s, scope) then s.buckets
                  else s.buckets + [NewBucket(scope, bindings[scope], clock)])
  }

  function EnsureBuckets(s: State, targets: seq<Scope>, inherited: Policy, clock: Instant): State {
    if targets == [] then s
    else EnsureBucket(EnsureBuckets(s, targets[..|targets| - 1], inherited, clock),
                      targets[|targets| - 1], inherited, clock)
  }

  // ------------------------------------------------------------------ releasing

  predicate Open(s: State, r: nat, b: nat) {
    (r, b) in s.memberships && s.memberships[(r, b)].None?
  }

  function Decremented(b: Bucket): Bucket {
    b.(activeConcurrency := Max(0, b.activeConcurrency - 1))
  }

  /** Close reservation `r`: every unreleased membership is released and its bucket gives one slot back. */
  function Release(s: State, r: nat, status: Status, now: Instant): State
    requires r < |s.reservations|
  {
    s.(buckets := seq(|s.buckets|, b requires 0 <= b < |s.buckets| =>
                        if Open(s, r, b) then Decremented(s.buckets[b]) else s.buckets[b]),
       reservations := s.reservations[r := s.reservations[r].(status := status, finalizedAt := Some(now))],
       memberships := map k | k in s.memberships ::
         if k.0 == r && s.memberships[k].None? then Some(now) else s.memberships[k])
  }

  /** An active reservation past its expiry that is a member of some targeted bucket. */
  predicate Abandoned(s: State, targets: seq<Scope>, now: Instant, r: nat) {
    && r < |s.reservations|
    && s.reservations[r].status == Active
    && s.reservations[r].expiresAt <= now
    && exists b | 0 <= b < |s.buckets| :: (r, b) in s.memberships && s.buckets[b].scope in targets
  }

  function SweepOne(s: State, targets: seq<Scope>, now: Instant, r: nat): (t: State)
    requires r < |s.reservations|
    ensures |t.reservations| == |s.reservations| && |t.buckets| == |s.buckets|
  {
    if Abandoned(s, targets, now, r) then Release(s, r, Expired, now) else s
  }

  /** The expiry sweep over the first `n` reservations. */
  function SweepUpTo(s: State, targets: seq<Scope>, now: Instant, n: nat): (t: State)
    requires n <= |s.reservations|
    ensures |t.reservations| == |s.reservations| && |t.buckets| == |s.buckets|
  {
    if n == 0 then s
    else SweepOne(SweepUpTo(s, targets, now, n - 1), targets, now, n - 1)
  }

  function Sweep(s: State, targets: seq<Scope>, now: Instant): State {
    SweepUpTo(s, targets, now, |s.reservations|)
  }

  // ------------------------------------------------------------------ eligibility

  function Refreshed(b: Bucket, now: Instant): Bucket {
    var b1 := if b.windowStartedAt + b.policy.Period() <= now
              then b.(windowStartedAt := now, requestCount := 0) else b;
    if b1.dailyStartedAt + DAY <= now
    then b1.(dailyStartedAt := now, dailyCount := 0) else b1
  }

  function When(condition: bool, t: Instant): seq<Instant> {
    if condition then [t] else []
  }

  function StillAhead(hold: Option<Instant>, now: Instant): seq<Instant> {
    if hold.Some? then When(hold.value > now, hold.value) else []
  }

  /** The waiting times `_next_eligible` collects, in its order. */
  function Candidates(b: Bucket, now: Instant): seq<Instant> {
    StillAhead(b.blockedUntil, now)
    + StillAhead(b.providerResetAt, now)
    + When(b.activeConcurrency >= b.policy.maxConcurrency, now + SECOND)
    + When(b.requestCount >= b.policy.Limit(), b.windowStartedAt + b.policy.Period())
    + (if b.policy.dailyBudget.Some?
       then When(b.dailyCount >= b.policy.dailyBudget.value, b.dailyStartedAt + DAY) else [])
    + (if b.lastRequestAt.Some?
       then StillAhead(Some(b.lastRequestAt.value + b.policy.Spacing()), now) else [])
  }

  function MaxOf(s: seq<int>): (m: int)
    requires s != []
    ensures m in s && forall x | x in s :: x <= m
  {
    if |s| == 1 then s[0]
    else
      assert s == s[..|s| - 1] + [s[|s| - 1]];
      Max(MaxOf(s[..|s| - 1]), s[|s| - 1])
  }

  function NextEligible(b: Bucket, now: Instant): Option<Instant> {
    var cs := Candidates(b, now);
    if cs == [] then None else Some(MaxOf(cs))
  }

  function RefreshAll(s: State, targets: seq<Scope>, now: Instant): State {
    s.(buckets := seq(|s.buckets|, b requires 0 <= b < |s.buckets| =>
                        if s.buckets[b].scope in targets then Refreshed(s.buckets[b], now) else s.buckets[b]))
  }

  /** The waiting time of every bucket; an untargeted bucket has none. */
  function Waits(s: State, targets: seq<Scope>, now: Instant): seq<Option<Instant>> {
    seq(|s.buckets|, b requires 0 <= b < |s.buckets| =>
          if s.buckets[b].scope in targets then NextEligible(s.buckets[b], now) else None)
  }

  /** A later waiting time takes over; an equal one does not. */
  function Better(best: Option<(nat, Instant)>, b: nat, wait: Option<Instant>): Option<(nat, Instant)> {
    if wait.Some? && (best.None? || wait.value > best.value.1) then Some((b, wait.value)) else best
  }

  /** The first position with the latest time among the first `n`. */
  function Latest(waits: seq<Option<Instant>>, n: nat): (best: Option<(nat, Instant)>)
    requires n <= |waits|
    ensures best.Some? ==> best.value.0 < n
  {
    if n == 0 then None
    else
      Better(Latest(waits, n - 1), n - 1, waits[n - 1])
  }

  function Controlling(s: State, targets: seq<Scope>, now: Instant): (best: Option<(nat, Instant)>)
    ensures best.Some? ==> best.value.0 < |s.buckets|
  {
    Latest(Waits(s, targets, now), |s.buckets|)
  }

  // ------------------------------------------------------------------ transactions

  predicate Matches(r: Reservation, q: Request) {
    r.runId == q.runId && r.requestIdentity == q.identity
  }

  /** The reservation with this run and request identity; the pair is unique. */
  function FindReservation(rs: seq<Reservation>, q: Request): (found: Option<nat>)
    ensures found.Some? ==> found.value < |rs| && Matches(rs[found.value], q)
    ensures found.None? ==> forall r | 0 <= r < |rs| :: !Matches(rs[r], q)
  {
    if rs == [] then None
    else if Matches(rs[|rs| - 1], q) then Some(|rs| - 1)
    else FindReservation(rs[..|rs| - 1], q)
  }

  function Charged(b: Bucket, now: Instant): Bucket {
    b.(requestCount := b.requestCount + 1,
       dailyCount := b.dailyCount + 1,
       activeConcurrency := b.activeConcurrency + 1,
       lastRequestAt := Some(now),
       nextEligibleAt := None)
  }

  /** The membership table once reservation `r` has joined the targeted ones of the first `n` buckets. */
  function Joined(s: State, targets: seq<Scope>, r: nat, n: nat): map<(nat, nat), Option<Instant>>
    requires n <= |s.buckets|
  {
    if n == 0 then s.memberships
    else
      var before := Joined(s, targets, r, n - 1);
      if s.buckets[n - 1].scope in targets then before[(r, n - 1) := None] else before
  }

  function Grant(s: State, targets: seq<Scope>, q: Request, now: Instant): State {
    var r := |s.reservations|;
    s.(buckets := seq(|s.buckets|, b requires 0 <= b < |s.buckets| =>
                        if s.buckets[b].scope in targets then Charged(s.buckets[b], now) else s.buckets[b]),
       reservations := s.reservations + [Reservation(q.runId, q.identity, Active, now, now + q.ttl, None)],
       memberships := Joined(s, targets, r, |s.buckets|))
  }

  function EligibilityErrors(q: Request, look: Lookups): (e: Option<Error>)
    ensures e.None? ==> look.configuration.Some? && look.configuration.value.origin.Some? && look.defaultPolicy.Some?
  {
    if look.configuration.None? then Some(ConfigurationUnavailable)
    else if look.configuration.value.origin.None? then Some(NoCanonicalOrigin)
    else if look.defaultPolicy.None? then Some(InstallationPolicyUnavailable)
    else None
  }

  function TargetsOf(q: Request, look: Lookups): seq<Scope>
    requires EligibilityErrors(q, look).None?
  {
    Targets(q, look.configuration.value, look.configuration.value.origin.value)
  }

  /** The tables once the targeted buckets exist, abandoned reservations are swept and windows are rolled. */
  function Prepared(s: State, q: Request, look: Lookups, now: Instant): State
    requires EligibilityErrors(q, look).None?
  {
    var targets := TargetsOf(q, look);
    RefreshAll(Sweep(EnsureBuckets(s, targets, look.defaultPolicy.value, look.databaseClock), targets, now), targets, now)
  }

  /** One `reserve` transaction; a raised error rolls the whole transaction back. */
  function Reserve(s: State, q: Request, look: Lookups, now: Instant): (State, Result<Decision, Error>) {
    if q.ttl <= 0 then (s, Failure(InvalidTtl))
    else
      var found := FindReservation(s.reservations, q);
      if found.Some? then (s, Success(Replayed(found.value, s.reservations[found.value].status == Active)))
      else if EligibilityErrors(q, look).Some? then (s, Failure(EligibilityErrors(q, look).value))
      else
        var targets := TargetsOf(q, look);
        var ready := Prepared(s, q, look, now);
        var controlling := Controlling(ready, targets, now);
        if controlling.Some? then
          var (b, eligible) := controlling.value;
          (ready.(buckets := ready.buckets[b := ready.buckets[b].(nextEligibleAt := Some(eligible))]),
           Success(Delayed(ready.buckets[b].scope, eligible)))
        else if look.runEndpoint != Some(q.endpointId) then (s, Failure(ForeignRun))
        else (Grant(ready, targets, q, now), Success(Reserved(|ready.reservations|)))
  }

  function Finalize(s: State, r: nat, outcome: Status, now: Instant): (State, Result<Reservation, Error>) {
    if outcome != Completed && outcome != Failed then (s, Failure(InvalidOutcome))
    else if r >= |s.reservations| then (s, Failure(NoSuchReservation))
    else if s.reservations[r].status != Active then (s, Success(s.reservations[r]))
    else
      var t := Release(s, r, outcome, now);
      (t, Success(t.reservations[r]))
  }

  function LaterHold(a: Option<Instant>, b: Option<Instant>): Option<Instant> {
    if a.None? then b else if b.None? then a else Some(Max(a.value, b.value))
  }

  function Held(b: Bucket, retryAfter: Option<Instant>, reset: Option<Instant>): Bucket {
    b.(blockedUntil := LaterHold(LaterHold(b.blockedUntil, retryAfter), reset),
       providerResetAt := if reset.Some? then reset else b.providerResetAt)
  }

  /** The observation rows a hold appends for the first `n` buckets. */
  function HoldRows(s: State, r: nat, retryAfter: Option<Instant>, reset: Option<Instant>, n: nat): seq<Observation> {
    if n == 0 then []
    else HoldRows(s, r, retryAfter, reset, n - 1)
         + if (r, n - 1) in s.memberships then [Observation(n - 1, retryAfter, reset)] else []
  }

  function ObserveHold(s: State, r: nat, retryAfter: Option<Instant>, reset: Option<Instant>): State {
    s.(buckets := seq(|s.buckets|, b requires 0 <= b < |s.buckets| =>
                        if (r, b) in s.memberships then Held(s.buckets[b], retryAfter, reset) else s.buckets[b]),
       observations := s.observations + HoldRows(s, r, retryAfter, reset, |s.buckets|))
  }
}
