/** What each limiter transaction does to every bucket, by the scopes a request concerns. */
module RateLimitScopes {
  import opened Prelude
  import opened RateLimitModel
  import opened RateLimitInvariants
  import opened RateLimitEligibility
  import opened RateLimitRuns
  import opened RateLimitDenials
  import opened RateLimitGrants
  import opened RateLimitTenures

  /** The scopes a request of an endpoint with this configuration concerns. */
  predicate Concerns(scope: Scope, q: Request, c: EndpointConfiguration) {
    match scope
    case Installation => true
    case Adapter(id) => id == c.adapterId
    case Platform(slug) => c.platform == Some(slug)
    case Origin(origin) => c.origin == Some(origin)
    case SourceScope(id) => id == c.sourceId
    case EndpointScope(id) => id == q.endpointId
    case Credential(id) => id in q.secretReferenceIds
  }

  lemma {:induction false} InsertedMember(ids: seq<int>, x: int, y: int)
    ensures y in InsertDistinct(ids, x) <==> y == x || y in ids
  {
    if ids != [] {
      assert ids == [ids[0]] + ids[1..];
      if x > ids[0] {
        InsertedMember(ids[1..], x, y);
      }
    }
  }

  lemma {:induction false} SortedMember(ids: seq<int>, y: int)
    ensures y in SortedDistinct(ids) <==> y in ids
  {
    if ids != [] {
      assert ids == [ids[0]] + ids[1..];
      SortedMember(ids[1..], y);
      InsertedMember(SortedDistinct(ids[1..]), ids[0], y);
    }
  }

  ghost predicate Ascends(ids: seq<int>) {
    forall i, j | 0 <= i < j < |ids| :: ids[i] < ids[j]
  }

  lemma {:induction false} InsertedAscends(ids: seq<int>, x: int)
    requires Ascends(ids)
    ensures Ascends(InsertDistinct(ids, x))
  {
    if ids != [] && x > ids[0] {
      InsertedAscends(ids[1..], x);
      var rest := InsertDistinct(ids[1..], x);
      forall j | 0 <= j < |rest| ensures ids[0] < rest[j] {
        InsertedMember(ids[1..], x, rest[j]);
      }
    }
  }

  /** The credentials are asked in ascending order, each once. */
  lemma {:induction false} SortedAscends(ids: seq<int>)
    ensures Ascends(SortedDistinct(ids))
  {
    if ids != [] {
      SortedAscends(ids[1..]);
      InsertedAscends(SortedDistinct(ids[1..]), ids[0]);
    }
  }

  /** A scope is targeted if and only if the request concerns it. */
  lemma TargetedIff(q: Request, look: Lookups, scope: Scope)
    requires EligibilityErrors(q, look).None?
    ensures scope in TargetsOf(q, look) <==> Concerns(scope, q, look.configuration.value)
  {
    var ids := SortedDistinct(q.secretReferenceIds);
    var credentials := seq(|ids|, i requires 0 <= i < |ids| => Credential(ids[i]));
    if scope.Credential? {
      SortedMember(q.secretReferenceIds, scope.referenceId);
      assert scope in credentials <==> scope.referenceId in ids by {
        if scope.referenceId in ids {
          var i :| 0 <= i < |ids| && ids[i] == scope.referenceId;
          assert credentials[i] == scope;
        }
      }
    } else {
      assert scope !in credentials;
    }
  }

  // ------------------------------------------------------------------ what a grant charges

  /** The bucket has taken one more request, day count and slot at `now`, in windows that roll when they are over. */
  predicate TookOne(before: Bucket, after: Bucket, slots: nat, now: Instant) {
    var over := before.windowStartedAt + before.policy.periodSeconds * SECOND <= now;
    var dayOver := before.dailyStartedAt + 86_400 * SECOND <= now;
    && after.scope == before.scope && after.policy == before.policy
    && after.windowStartedAt == (if over then now else before.windowStartedAt)
    && after.requestCount == (if over then 1 else before.requestCount + 1)
    && after.dailyStartedAt == (if dayOver then now else before.dailyStartedAt)
    && after.dailyCount == (if dayOver then 1 else before.dailyCount + 1)
    && after.activeConcurrency == slots + 1
    && after.lastRequestAt == Some(now) && after.nextEligibleAt.None?
    && after.blockedUntil == before.blockedUntil && after.providerResetAt == before.providerResetAt
  }

  lemma {:induction false} CreatedAreTargeted(s: State, targets: seq<Scope>, inherited: Policy, clock: Instant)
    ensures var t := EnsureBuckets(s, targets, inherited, clock);
      && |s.buckets| <= |t.buckets|
      && (forall b | |s.buckets| <= b < |t.buckets| :: t.buckets[b].scope in targets)
      && (forall x | x in t.bindings && x !in s.bindings :: t.bindings[x] == inherited)
  {
    if targets != [] {
      CreatedAreTargeted(s, targets[..|targets| - 1], inherited, clock);
      assert targets == targets[..|targets| - 1] + [targets[|targets| - 1]];
    }
  }

  /** What preparation leaves of a bucket that existed: rolled when targeted, and slots only ever given back. */
  lemma PreparedBucket(s: State, q: Request, look: Lookups, now: Instant, b: nat)
    requires Valid(s) && EligibilityErrors(q, look).None? && b < |s.buckets|
    ensures var t := Prepared(s, q, look, now); var targeted := s.buckets[b].scope in TargetsOf(q, look);
      && b < |t.buckets|
      && t.buckets[b] == (if targeted then Refreshed(s.buckets[b], now) else s.buckets[b]).(activeConcurrency := t.buckets[b].activeConcurrency)
      && t.buckets[b].activeConcurrency <= s.buckets[b].activeConcurrency
      && (targeted ==> t.buckets[b].activeConcurrency == |Unexpired(s, b, now)|)
  {
    var targets := TargetsOf(q, look);
    SweptFrame(s, q, look, now);
    PreparationTakesNothing(s, q, look, now);
    if s.buckets[b].scope in targets {
      EnsureBucketsProvides(s, targets, look.defaultPolicy.value, look.databaseClock);
      EnsureBucketsKeepsValid(s, targets, look.defaultPolicy.value, look.databaseClock);
      var s1 := EnsureBuckets(s, targets, look.defaultPolicy.value, look.databaseClock);
      assert s1.buckets[..|s.buckets|][b] == s1.buckets[b];
      SweptCountsUnexpired(s1, targets, now, b);
      assert Unexpired(s1, b, now) == Unexpired(s, b, now);
    }
  }

  /** A bucket that preparation creates is targeted, empty, and under its scope's policy, else the installation's. */
  lemma CreatedBucket(s: State, q: Request, look: Lookups, now: Instant, b: nat)
    requires Valid(s) && EligibilityErrors(q, look).None? && |s.buckets| <= b < |Prepared(s, q, look, now).buckets|
    ensures var t := Prepared(s, q, look, now); var scope := t.buckets[b].scope;
      && scope in TargetsOf(q, look) && t.buckets[b].activeConcurrency == 0
      && t.buckets[b] == Refreshed(NewBucket(scope, if scope in s.bindings then s.bindings[scope] else look.defaultPolicy.value,
                                             look.databaseClock), now)
  {
    var targets, inherited, clock := TargetsOf(q, look), look.defaultPolicy.value, look.databaseClock;
    CreatedAreTargeted(s, targets, inherited, clock);
    CreatedBucketsAreNew(s, targets, inherited, clock);
    EnsureBucketsKeepsValid(s, targets, inherited, clock);
    EnsureBucketsProvides(s, targets, inherited, clock);
    var s1 := EnsureBuckets(s, targets, inherited, clock);
    SweepFrame(s1, targets, now, |s1.reservations|);
    assert s1.buckets[b].policy == s1.bindings[s1.buckets[b].scope];
    assert s1.buckets[b] == NewBucket(s1.buckets[b].scope, s1.buckets[b].policy, clock);
  }

  /** Whether the request is charged to bucket `b` of the tables after it. */
  predicate ChargedTo(t: State, b: nat, q: Request, look: Lookups)
    requires look.configuration.Some? && b < |t.buckets|
  {
    Concerns(t.buckets[b].scope, q, look.configuration.value)
  }

  /** The grant's own row, the last one. */
  lemma GrantRow(s: State, q: Request, look: Lookups, now: Instant)
    requires Valid(s)
    requires var d := Reserve(s, q, look, now).1; d.Success? && d.value.Reserved?
    ensures var (t, d) := Reserve(s, q, look, now); var r := |s.reservations|;
      && EligibilityErrors(q, look).None? && d.value.reservation == r && |t.reservations| == r + 1
      && t.reservations[r] == Reservation(q.runId, q.identity, Active, now, now + q.ttl, None)
      && forall scope | Concerns(scope, q, look.configuration.value) :: HasBucket(t, scope)
  {
    KeptCases(s, q, look, now, Reserve(s, q, look, now).0);
    PreparationTakesNothing(s, q, look, now);
    PreparedIsReady(s, q, look, now);
    var t := Reserve(s, q, look, now).0;
    forall scope | Concerns(scope, q, look.configuration.value) ensures HasBucket(t, scope) {
      TargetedIff(q, look, scope);
      var ready := Prepared(s, q, look, now);
      assert HasBucket(ready, scope);
      var b :| 0 <= b < |ready.buckets| && ready.buckets[b].scope == scope;
      assert t.buckets[b].scope == scope;
    }
  }

  /** The membership a grant opens, and the bucket it charges, in terms of the prepared tables. */
  lemma GrantedBucket(s: State, q: Request, look: Lookups, now: Instant, b: nat, t: State)
    requires Valid(s) && Kept(s, q, look, now) && Reserve(s, q, look, now).1.value.Reserved?
    requires t == Reserve(s, q, look, now).0 && b < |t.buckets|
    ensures EligibilityErrors(q, look).None?
    ensures var ready := Prepared(s, q, look, now); var r := |s.reservations|; var charged := ChargedTo(t, b, q, look);
      && |t.buckets| == |ready.buckets| && t.buckets[b].scope == ready.buckets[b].scope
      && t.buckets[b] == (if charged then Charged(ready.buckets[b], now) else ready.buckets[b])
      && (Open(t, r, b) <==> charged) && ((r, b) in t.memberships <==> charged)
  {
    KeptCases(s, q, look, now, t);
    PreparedKeepsValid(s, q, look, now);
    PreparationTakesNothing(s, q, look, now);
    GrantMemberships(Prepared(s, q, look, now), TargetsOf(q, look), q, now);
    TargetedIff(q, look, t.buckets[b].scope);
  }

  lemma ChargedTookOne(before: Bucket, ready: Bucket, slots: nat, now: Instant)
    requires ready == Refreshed(before, now).(activeConcurrency := slots)
    ensures TookOne(before, Charged(ready, now), slots, now)
  {
  }

  /**
   A grant takes one request, one day count and one slot, and opens a membership, in the bucket of every scope the
   request concerns and in no other; what it creates starts under the scope's own policy or the installation's.
   */
  lemma GrantChargesExactly(s: State, q: Request, look: Lookups, now: Instant, b: nat)
    requires Valid(s)
    requires var d := Reserve(s, q, look, now).1; d.Success? && d.value.Reserved?
    requires b < |Reserve(s, q, look, now).0.buckets|
    ensures EligibilityErrors(q, look).None?
    ensures var t := Reserve(s, q, look, now).0; var r := |s.reservations|; var charged := ChargedTo(t, b, q, look);
      && (Open(t, r, b) <==> charged) && ((r, b) in t.memberships <==> charged)
      && (b < |s.buckets| && charged ==> TookOne(s.buckets[b], t.buckets[b], |Unexpired(s, b, now)|, now))
      && (b < |s.buckets| && !charged ==>
            && t.buckets[b] == s.buckets[b].(activeConcurrency := t.buckets[b].activeConcurrency)
            && t.buckets[b].activeConcurrency <= s.buckets[b].activeConcurrency)
      && (|s.buckets| <= b ==>
            var scope := t.buckets[b].scope;
            && charged
            && TookOne(NewBucket(scope, if scope in s.bindings then s.bindings[scope] else look.defaultPolicy.value, look.databaseClock),
                       t.buckets[b], 0, now))
  {
    var t := Reserve(s, q, look, now).0;
    GrantedBucket(s, q, look, now, b, t);
    var ready := Prepared(s, q, look, now).buckets[b];
    if b < |s.buckets| {
      PreparedBucket(s, q, look, now, b);
      TargetedIff(q, look, s.buckets[b].scope);
      if ChargedTo(t, b, q, look) {
        ChargedTookOne(s.buckets[b], ready, |Unexpired(s, b, now)|, now);
      }
    } else {
      CreatedBucket(s, q, look, now, b);
      TargetedIff(q, look, ready.scope);
      ChargedTookOne(NewBucket(ready.scope, if ready.scope in s.bindings then s.bindings[ready.scope] else look.defaultPolicy.value,
                               look.databaseClock), ready, 0, now);
    }
  }

  // ------------------------------------------------------------------ when it is granted

  /** The bucket lets a request through at `now` beside `taken` reservations. */
  predicate LetsThrough(b: Bucket, taken: nat, now: Instant) {
    var p := b.policy;
    && (b.blockedUntil.Some? ==> b.blockedUntil.value <= now)
    && (b.providerResetAt.Some? ==> b.providerResetAt.value <= now)
    && taken < p.maxConcurrency
    && (b.requestCount < p.requestsPerPeriod + p.burstSize - 1 || b.windowStartedAt + p.periodSeconds * SECOND <= now)
    && (p.dailyBudget.Some? ==> b.dailyCount < p.dailyBudget.value || b.dailyStartedAt + 86_400 * SECOND <= now)
    && (b.lastRequestAt.Some? ==> b.lastRequestAt.value + p.minimumSpacingSeconds * SECOND <= now)
  }

  lemma FreeLetsThrough(s: State, b: nat, now: Instant)
    requires b < |s.buckets|
    ensures Free(s, b, now) <==> LetsThrough(s.buckets[b], |Unexpired(s, b, now)|, now)
  {
  }

  /** No reservation of this run has the request's identity. */
  predicate IsNew(s: State, q: Request) {
    forall r | 0 <= r < |s.reservations| :: s.reservations[r].runId != q.runId || s.reservations[r].requestIdentity != q.identity
  }

  /**
   A request is granted if and only if its lifetime is positive, it is new, its endpoint is configured with a canonical
   origin, the installation has a policy, its run belongs to the endpoint, and every existing bucket of a scope it
   concerns lets it through beside the reservations there that have not expired.
   */
  lemma GrantedExactly(s: State, q: Request, look: Lookups, now: Instant)
    requires Valid(s)
    ensures var d := Reserve(s, q, look, now).1;
      (d.Success? && d.value.Reserved?)
      <==> && q.ttl > 0 && IsNew(s, q)
           && look.configuration.Some? && look.configuration.value.origin.Some? && look.defaultPolicy.Some?
           && look.runEndpoint == Some(q.endpointId)
           && forall b: nat | b < |s.buckets| && Concerns(s.buckets[b].scope, q, look.configuration.value) ::
                LetsThrough(s.buckets[b], |Unexpired(s, b, now)|, now)
  {
    GrantedIffFree(s, q, look, now);
    assert NoMatch(s, q) <==> IsNew(s, q);
    if EligibilityErrors(q, look).None? {
      forall b: nat | b < |s.buckets|
        ensures s.buckets[b].scope in TargetsOf(q, look) <==> Concerns(s.buckets[b].scope, q, look.configuration.value)
        ensures Free(s, b, now) <==> LetsThrough(s.buckets[b], |Unexpired(s, b, now)|, now)
      {
        TargetedIff(q, look, s.buckets[b].scope);
        FreeLetsThrough(s, b, now);
      }
    }
  }

  // ------------------------------------------------------------------ what denies

  /** A time the bucket makes a request wait for: a hold, a full cap, a full window, a spent day or the spacing. */
  predicate IsWait(b: Bucket, now: Instant, c: Instant) {
    var p := b.policy;
    || (now < c && b.blockedUntil == Some(c))
    || (now < c && b.providerResetAt == Some(c))
    || (b.activeConcurrency >= p.maxConcurrency && c == now + 1_000_000)
    || (b.requestCount >= p.requestsPerPeriod + p.burstSize - 1 && c == b.windowStartedAt + p.periodSeconds * SECOND)
    || (p.dailyBudget.Some? && b.dailyCount >= p.dailyBudget.value && c == b.dailyStartedAt + 86_400 * SECOND)
    || (b.lastRequestAt.Some? && now < c && c == b.lastRequestAt.value + p.minimumSpacingSeconds * SECOND)
  }

  lemma AheadIff(hold: Option<Instant>, now: Instant, c: Instant)
    ensures c in StillAhead(hold, now) <==> hold == Some(c) && now < c
  {
  }

  lemma WhenIff(condition: bool, t: Instant, c: Instant)
    ensures c in When(condition, t) <==> condition && c == t
  {
  }

  lemma CandidateIff(b: Bucket, now: Instant, c: Instant)
    ensures c in Candidates(b, now) <==> IsWait(b, now, c)
  {
    var p := b.policy;
    AheadIff(b.blockedUntil, now, c);
    AheadIff(b.providerResetAt, now, c);
    WhenIff(b.activeConcurrency >= p.maxConcurrency, now + SECOND, c);
    WhenIff(b.requestCount >= p.Limit(), b.windowStartedAt + p.Period(), c);
    if p.dailyBudget.Some? {
      WhenIff(b.dailyCount >= p.dailyBudget.value, b.dailyStartedAt + DAY, c);
    }
    if b.lastRequestAt.Some? {
      AheadIff(Some(b.lastRequestAt.value + p.Spacing()), now, c);
    }
  }

  /** The answer to a delayed request names a concerned bucket that makes it wait, and the latest wait of them all. */
  ghost predicate ReportsLatestWait(t: State, q: Request, look: Lookups, now: Instant, controlling: Scope, e: Instant)
    requires look.configuration.Some?
  {
    && (exists b | 0 <= b < |t.buckets| ::
          t.buckets[b].scope == controlling && ChargedTo(t, b, q, look) && IsWait(t.buckets[b], now, e) && t.buckets[b].nextEligibleAt == Some(e))
    && (forall b: nat, c | b < |t.buckets| && ChargedTo(t, b, q, look) && IsWait(t.buckets[b], now, c) :: c <= e)
  }

  lemma DelayReportsLatestWait(s: State, q: Request, look: Lookups, now: Instant)
    requires Valid(s)
    requires var d := Reserve(s, q, look, now).1; d.Success? && d.value.Delayed?
    ensures EligibilityErrors(q, look).None?
    ensures var (t, d) := Reserve(s, q, look, now); ReportsLatestWait(t, q, look, now, d.value.controlling, d.value.nextEligibleAt)
  {
    DelayedState(s, q, look, now);
    var (t, d) := Reserve(s, q, look, now);
    var e, targets, ready := d.value.nextEligibleAt, TargetsOf(q, look), Prepared(s, q, look, now);
    ControllingIsLatest(ready, targets, now);
    var k := Controlling(ready, targets, now).value.0;
    assert t.buckets[k] == ready.buckets[k].(nextEligibleAt := Some(e));
    MarkKeepsCandidates(ready.buckets[k], e, now);
    TargetedIff(q, look, t.buckets[k].scope);
    CandidateIff(t.buckets[k], now, e);
    forall b: nat, c | b < |t.buckets| && ChargedTo(t, b, q, look) && IsWait(t.buckets[b], now, c) ensures c <= e {
      TargetedIff(q, look, t.buckets[b].scope);
      CandidateIff(t.buckets[b], now, c);
    }
  }

  /** One existing bucket of a scope the request concerns that does not let it through denies a new request. */
  lemma ClosedScopeDenies(s: State, q: Request, look: Lookups, now: Instant, b: nat)
    requires Valid(s) && q.ttl > 0 && IsNew(s, q) && EligibilityErrors(q, look).None?
    requires b < |s.buckets| && ChargedTo(s, b, q, look) && !LetsThrough(s.buckets[b], |Unexpired(s, b, now)|, now)
    ensures var d := Reserve(s, q, look, now).1; d.Success? && d.value.Delayed?
  {
    TargetedIff(q, look, s.buckets[b].scope);
    FreeLetsThrough(s, b, now);
    DeniedNotForeign(s, q, look, now, b);
  }

  /** The wait is noticed before the run is looked up. */
  lemma DeniedNotForeign(s: State, q: Request, look: Lookups, now: Instant, b: nat)
    requires Valid(s) && q.ttl > 0 && NoMatch(s, q) && EligibilityErrors(q, look).None?
    requires b < |s.buckets| && s.buckets[b].scope in TargetsOf(q, look) && !Free(s, b, now)
    ensures var d := Reserve(s, q, look, now).1; d.Success? && d.value.Delayed?
  {
    var swept, ready := Swept(s, q, look, now), Prepared(s, q, look, now);
    ExistingBucketOpenIff(s, q, look, now, b);
    SweptFrame(s, q, look, now);
    EligibleIffAdmits(swept.buckets[b], now);
    assert ready.buckets[b] == Refreshed(swept.buckets[b], now);
    ControllingIsLatest(ready, TargetsOf(q, look), now);
  }

  /** The windows of the bucket have rolled as far as they are over, its slots are recounted, and nothing else has moved. */
  predicate OnlyRolled(before: Bucket, after: Bucket, slots: nat, now: Instant) {
    var over := before.windowStartedAt + before.policy.periodSeconds * SECOND <= now;
    var dayOver := before.dailyStartedAt + 86_400 * SECOND <= now;
    after == before.(windowStartedAt := if over then now else before.windowStartedAt,
                     requestCount := if over then 0 else before.requestCount,
                     dailyStartedAt := if dayOver then now else before.dailyStartedAt,
                     dailyCount := if dayOver then 0 else before.dailyCount,
                     activeConcurrency := slots, nextEligibleAt := after.nextEligibleAt)
  }

  /** What a denial leaves of a bucket: it is rolled and recounted where the request concerns it, and only recounted elsewhere. */
  lemma DenialOnlyRolls(s: State, q: Request, look: Lookups, now: Instant, b: nat)
    requires Valid(s) && b < |s.buckets|
    requires var d := Reserve(s, q, look, now).1; d.Success? && d.value.Delayed?
    ensures EligibilityErrors(q, look).None?
    ensures var (t, d) := Reserve(s, q, look, now);
      && b < |t.buckets|
      && (ChargedTo(s, b, q, look) ==> OnlyRolled(s.buckets[b], t.buckets[b], |Unexpired(s, b, now)|, now))
      && (!ChargedTo(s, b, q, look) ==>
            && t.buckets[b] == s.buckets[b].(activeConcurrency := t.buckets[b].activeConcurrency)
            && t.buckets[b].activeConcurrency <= s.buckets[b].activeConcurrency)
      && (t.buckets[b].nextEligibleAt != s.buckets[b].nextEligibleAt ==>
            t.buckets[b].nextEligibleAt == Some(d.value.nextEligibleAt) && t.buckets[b].scope == d.value.controlling)
  {
    PreparedBucket(s, q, look, now, b);
    TargetedIff(q, look, s.buckets[b].scope);
    ControllingIsLatest(Prepared(s, q, look, now), TargetsOf(q, look), now);
  }

  /** Which reservations a request ends: exactly the expired ones on a bucket it concerns, and none when it is not kept. */
  lemma RequestReclaimsExactly(s: State, q: Request, look: Lookups, now: Instant, r: nat)
    requires Valid(s) && r < |s.reservations| && s.reservations[r].status == Active
    ensures var t := Reserve(s, q, look, now).0;
      && r < |t.reservations|
      && (t.reservations[r] == s.reservations[r] || t.reservations[r] == s.reservations[r].(status := Expired, finalizedAt := Some(now)))
      && (t.reservations[r].status == Expired
          <==> && Kept(s, q, look, now) && EligibilityErrors(q, look).None? && s.reservations[r].expiresAt <= now
               && exists b | 0 <= b < |s.buckets| :: (r, b) in s.memberships && ChargedTo(s, b, q, look))
  {
    RequestEndsIff(s, q, look, now, r);
    if EligibilityErrors(q, look).None? {
      forall b: nat | b < |s.buckets| ensures s.buckets[b].scope in TargetsOf(q, look) <==> ChargedTo(s, b, q, look) {
        TargetedIff(q, look, s.buckets[b].scope);
      }
    }
    if Kept(s, q, look, now) {
      KeptPrepares(s, q, look, now);
    }
  }

  /** A request that raises changes nothing, and names the first thing that is wrong. */
  lemma RefusedExactly(s: State, q: Request, look: Lookups, now: Instant)
    ensures var (t, d) := Reserve(s, q, look, now);
      && (d.Failure? ==> t == s)
      && (q.ttl <= 0 <==> d == Failure(InvalidTtl))
      && (q.ttl > 0 && !IsNew(s, q) ==>
            d.Success? && d.value.Replayed? && t == s && d.value.existing < |s.reservations|
            && s.reservations[d.value.existing].runId == q.runId && s.reservations[d.value.existing].requestIdentity == q.identity
            && d.value.permitted == (s.reservations[d.value.existing].status == Active))
      && (q.ttl > 0 && IsNew(s, q) ==>
            && (look.configuration.None? <==> d == Failure(ConfigurationUnavailable))
            && (look.configuration.Some? && look.configuration.value.origin.None? <==> d == Failure(NoCanonicalOrigin))
            && (look.configuration.Some? && look.configuration.value.origin.Some? && look.defaultPolicy.None?
                <==> d == Failure(InstallationPolicyUnavailable))
            && (d == Failure(ForeignRun) ==> look.runEndpoint != Some(q.endpointId)))
  {
  }

  // ------------------------------------------------------------------ finalizing and holds

  /**
   Finalizing an active reservation stamps it and its memberships and takes one slot from each bucket it is charged to;
   one that has ended is returned as it is, and an unknown one or another outcome is refused.
   */
  lemma FinalizeExactly(s: State, r: nat, outcome: Status, now: Instant, b: nat, k: (nat, nat))
    requires Valid(s)
    ensures var (t, d) := Finalize(s, r, outcome, now);
      if outcome != Completed && outcome != Failed then (t, d) == (s, Failure(InvalidOutcome))
      else if r >= |s.reservations| then (t, d) == (s, Failure(NoSuchReservation))
      else if s.reservations[r].status != Active then (t, d) == (s, Success(s.reservations[r]))
      else
        var row := s.reservations[r].(status := outcome, finalizedAt := Some(now));
        && d == Success(row) && t.reservations == s.reservations[r := row] && t.bindings == s.bindings && t.observations == s.observations
        && (k in t.memberships <==> k in s.memberships)
        && (k in s.memberships ==> t.memberships[k] == if k.0 == r then Some(now) else s.memberships[k])
        && |t.buckets| == |s.buckets|
        && (b < |s.buckets| ==>
              t.buckets[b] == if (r, b) in s.memberships
                              then s.buckets[b].(activeConcurrency := s.buckets[b].activeConcurrency - 1) else s.buckets[b])
  {
    if r < |s.reservations| && b < |s.buckets| && Open(s, r, b) {
      ClampNeverBites(s, r, b);
    }
  }

  /** The latest of the times there are. */
  predicate IsLatestOf(latest: Option<Instant>, times: set<Option<Instant>>) {
    latest in times && forall x | x in times && x.Some? :: latest.Some? && x.value <= latest.value
  }

  /**
   A hold observed for a reservation closes each bucket it was charged to until the latest time known for it, notes a
   provider's reset, and touches nothing else.
   */
  lemma HoldExactly(s: State, r: nat, retryAfter: Option<Instant>, reset: Option<Instant>, b: nat)
    requires b < |s.buckets|
    ensures var t := ObserveHold(s, r, retryAfter, reset); var before := s.buckets[b];
      && |t.buckets| == |s.buckets| && t.reservations == s.reservations && t.memberships == s.memberships && t.bindings == s.bindings
      && t.buckets[b] == before.(blockedUntil := t.buckets[b].blockedUntil, providerResetAt := t.buckets[b].providerResetAt)
      && (if (r, b) in s.memberships then
            && IsLatestOf(t.buckets[b].blockedUntil, {before.blockedUntil, retryAfter, reset})
            && t.buckets[b].providerResetAt == (if reset.Some? then reset else before.providerResetAt)
          else t.buckets[b] == before)
  {
  }

  lemma {:induction false} HoldRowsAt(s: State, r: nat, retryAfter: Option<Instant>, reset: Option<Instant>, n: nat, o: Observation)
    ensures o in HoldRows(s, r, retryAfter, reset, n)
       <==> o.bucket < n && (r, o.bucket) in s.memberships && o == Observation(o.bucket, retryAfter, reset)
  {
    if n > 0 {
      HoldRowsAt(s, r, retryAfter, reset, n - 1, o);
    }
  }

  /** The observations are of different buckets, all below `n`, in their order. */
  ghost predicate InOrder(rows: seq<Observation>, n: nat) {
    && (forall i | 0 <= i < |rows| :: rows[i].bucket < n)
    && (forall i, j | 0 <= i < j < |rows| :: rows[i].bucket < rows[j].bucket)
  }

  lemma OneMoreInOrder(rows: seq<Observation>, n: nat, o: Observation)
    requires InOrder(rows, n) && o.bucket == n
    ensures InOrder(rows + [o], n + 1)
  {
    var all := rows + [o];
    forall i | 0 <= i < |all| ensures all[i].bucket < n + 1 {
      assert i < |rows| ==> all[i] == rows[i];
    }
  }

  lemma {:induction false} HoldRowsInOrder(s: State, r: nat, retryAfter: Option<Instant>, reset: Option<Instant>, n: nat)
    ensures InOrder(HoldRows(s, r, retryAfter, reset, n), n)
  {
    if n > 0 {
      HoldRowsInOrder(s, r, retryAfter, reset, n - 1);
      if (r, n - 1) in s.memberships {
        OneMoreInOrder(HoldRows(s, r, retryAfter, reset, n - 1), n - 1, Observation(n - 1, retryAfter, reset));
      }
    }
  }

  /** It appends one observation for each of those buckets, in their order, and none for another. */
  lemma HoldRecords(s: State, r: nat, retryAfter: Option<Instant>, reset: Option<Instant>, o: Observation)
    ensures var t := ObserveHold(s, r, retryAfter, reset);
      && s.observations <= t.observations
      && (o in t.observations[|s.observations|..]
          <==> o.bucket < |s.buckets| && (r, o.bucket) in s.memberships && o == Observation(o.bucket, retryAfter, reset))
      && InOrder(t.observations[|s.observations|..], |s.buckets|)
  {
    HoldRowsAt(s, r, retryAfter, reset, |s.buckets|, o);
    HoldRowsInOrder(s, r, retryAfter, reset, |s.buckets|);
    var t := ObserveHold(s, r, retryAfter, reset);
    var rows := HoldRows(s, r, retryAfter, reset, |s.buckets|);
    assert t.observations[|s.observations|..] == rows;
  }
}
