/** What every reachable state of the limiter's tables satisfies, transaction by transaction. */
module RateLimitInvariants {
  import opened Prelude
  import opened RateLimitModel

  /** The unreleased memberships of a bucket. */
  function OpenOn(s: State, b: nat): set<(nat, nat)> {
    set k | k in s.memberships && k.1 == b && s.memberships[k].None? :: k
  }

  predicate CountersInRange(b: Bucket) {
    && 0 <= b.requestCount <= b.policy.Limit()
    && 0 <= b.dailyCount
    && (b.policy.dailyBudget.Some? ==> b.dailyCount <= b.policy.dailyBudget.value)
    && 0 <= b.activeConcurrency <= b.policy.maxConcurrency
  }

  ghost predicate BucketsWellFormed(s: State) {
    && (forall i, j | 0 <= i < j < |s.buckets| :: s.buckets[i].scope != s.buckets[j].scope)
    && (forall b | 0 <= b < |s.buckets| ::
          && s.buckets[b].scope in s.bindings
          && s.buckets[b].policy == s.bindings[s.buckets[b].scope]
          && CountersInRange(s.buckets[b]))
  }

  ghost predicate MembershipsWellFormed(s: State) {
    && (forall k | k in s.memberships :: k.0 < |s.reservations| && k.1 < |s.buckets|)
    && (forall k | k in s.memberships :: s.memberships[k].None? <==> s.reservations[k.0].status == Active)
  }

  ghost predicate ConcurrencyAccounted(s: State) {
    forall b | 0 <= b < |s.buckets| :: s.buckets[b].activeConcurrency == |OpenOn(s, b)|
  }

  ghost predicate ReservationsWellFormed(s: State) {
    && (forall r | 0 <= r < |s.reservations| ::
          && s.reservations[r].reservedAt < s.reservations[r].expiresAt
          && (s.reservations[r].status == Active <==> s.reservations[r].finalizedAt.None?))
    && (forall i, j | 0 <= i < j < |s.reservations| ::
          s.reservations[i].runId != s.reservations[j].runId
          || s.reservations[i].requestIdentity != s.reservations[j].requestIdentity)
  }

  /** The clock-free invariant of the tables. */
  ghost predicate Valid(s: State) {
    && BucketsWellFormed(s)
    && MembershipsWellFormed(s)
    && ConcurrencyAccounted(s)
    && ReservationsWellFormed(s)
  }

  lemma EnsureBucketKeepsValid(s: State, scope: Scope, inherited: Policy, clock: Instant)
    requires Valid(s)
    ensures Valid(EnsureBucket(s, scope, inherited, clock))
    ensures HasBucket(EnsureBucket(s, scope, inherited, clock), scope)
  {
    var t := EnsureBucket(s, scope, inherited, clock);
    forall b | 0 <= b < |t.buckets| ensures t.buckets[b].activeConcurrency == |OpenOn(t, b)| {
      assert OpenOn(t, b) == OpenOn(s, b);
      if b == |s.buckets| {
        assert OpenOn(s, b) == {};
      }
    }
    if !HasBucket(s, scope) {
      assert t.buckets[|s.buckets|].scope == scope;
    }
  }

  lemma {:induction false} EnsureBucketsKeepsValid(s: State, targets: seq<Scope>, inherited: Policy, clock: Instant)
    requires Valid(s)
    ensures Valid(EnsureBuckets(s, targets, inherited, clock))
  {
    if targets != [] {
      EnsureBucketsKeepsValid(s, targets[..|targets| - 1], inherited, clock);
      EnsureBucketKeepsValid(EnsureBuckets(s, targets[..|targets| - 1], inherited, clock),
                             targets[|targets| - 1], inherited, clock);
    }
  }

  /** An open membership of an accounted bucket holds one of its slots, so the clamp at zero never bites. */
  lemma ClampNeverBites(s: State, r: nat, b: nat)
    requires ConcurrencyAccounted(s) && b < |s.buckets| && Open(s, r, b)
    ensures s.buckets[b].activeConcurrency >= 1
    ensures Decremented(s.buckets[b]).activeConcurrency == s.buckets[b].activeConcurrency - 1
  {
    assert (r, b) in OpenOn(s, b);
    CardinalityWithout(OpenOn(s, b), (r, b));
  }

  lemma ReleaseCloses(s: State, r: nat, status: Status, now: Instant, b: nat)
    requires r < |s.reservations|
    ensures OpenOn(Release(s, r, status, now), b) == OpenOn(s, b) - {(r, b)}
  {
    var t := Release(s, r, status, now);
    forall k | k in OpenOn(s, b) - {(r, b)} ensures k in OpenOn(t, b) {
      assert k.0 != r;
    }
  }

  lemma ReleaseKeepsAccounts(s: State, r: nat, status: Status, now: Instant, b: nat)
    requires ConcurrencyAccounted(s) && r < |s.reservations| && b < |s.buckets|
    ensures var t := Release(s, r, status, now);
      && t.buckets[b] == s.buckets[b].(activeConcurrency := |OpenOn(t, b)|)
      && t.buckets[b].activeConcurrency <= s.buckets[b].activeConcurrency
  {
    ReleaseCloses(s, r, status, now, b);
    if Open(s, r, b) {
      ClampNeverBites(s, r, b);
      CardinalityWithout(OpenOn(s, b), (r, b));
    } else {
      assert OpenOn(s, b) - {(r, b)} == OpenOn(s, b);
    }
  }

  lemma ReleaseKeepsMemberships(s: State, r: nat, status: Status, now: Instant)
    requires MembershipsWellFormed(s) && r < |s.reservations| && status != Active
    ensures MembershipsWellFormed(Release(s, r, status, now))
  {
    var t := Release(s, r, status, now);
    forall k | k in t.memberships ensures t.memberships[k].None? <==> t.reservations[k.0].status == Active {
      if k.0 != r {
        assert t.reservations[k.0] == s.reservations[k.0];
      }
    }
  }

  lemma ReleaseKeepsValid(s: State, r: nat, status: Status, now: Instant)
    requires Valid(s) && r < |s.reservations| && s.reservations[r].status == Active && status != Active
    ensures Valid(Release(s, r, status, now))
  {
    var t := Release(s, r, status, now);
    ReleaseKeepsMemberships(s, r, status, now);
    forall b | 0 <= b < |t.buckets|
      ensures t.buckets[b] == s.buckets[b].(activeConcurrency := |OpenOn(t, b)|)
      ensures t.buckets[b].activeConcurrency <= s.buckets[b].activeConcurrency
    {
      ReleaseKeepsAccounts(s, r, status, now, b);
    }
    assert BucketsWellFormed(t) && ConcurrencyAccounted(t);
    assert ReservationsWellFormed(t);
  }

  lemma SweepOneKeepsValid(s: State, targets: seq<Scope>, now: Instant, r: nat, t: State)
    requires Valid(s) && r < |s.reservations| && t == SweepOne(s, targets, now, r)
    ensures Valid(t)
  {
    if Abandoned(s, targets, now, r) {
      ReleaseKeepsValid(s, r, Expired, now);
    }
  }

  lemma {:induction false} SweepUpToKeepsValid(s: State, targets: seq<Scope>, now: Instant, n: nat, t: State)
    requires Valid(s) && n <= |s.reservations| && t == SweepUpTo(s, targets, now, n)
    ensures Valid(t)
    decreases n
  {
    if n == 0 {
      assert t == s;
    } else {
      var before := SweepUpTo(s, targets, now, n - 1);
      SweepUpToKeepsValid(s, targets, now, n - 1, before);
      SweepOneKeepsValid(before, targets, now, n - 1, t);
    }
  }

  lemma SweepKeepsValid(s: State, targets: seq<Scope>, now: Instant)
    requires Valid(s)
    ensures Valid(Sweep(s, targets, now))
  {
    SweepUpToKeepsValid(s, targets, now, |s.reservations|, Sweep(s, targets, now));
  }

  /** A transaction that leaves reservations, memberships and concurrency alone keeps the books. */
  lemma SameBooks(s: State, t: State)
    requires Valid(s) && t.reservations == s.reservations && t.memberships == s.memberships && t.bindings == s.bindings
    requires |t.buckets| == |s.buckets|
    requires forall b | 0 <= b < |s.buckets| ::
      && t.buckets[b].activeConcurrency == s.buckets[b].activeConcurrency
      && t.buckets[b].scope == s.buckets[b].scope && t.buckets[b].policy == s.buckets[b].policy
      && CountersInRange(t.buckets[b])
    ensures Valid(t)
  {
    forall b | 0 <= b < |t.buckets| ensures t.buckets[b].activeConcurrency == |OpenOn(t, b)| {
      assert OpenOn(t, b) == OpenOn(s, b);
    }
    assert BucketsWellFormed(t) && MembershipsWellFormed(t) && ReservationsWellFormed(t);
  }

  lemma RefreshAllKeepsValid(s: State, targets: seq<Scope>, now: Instant)
    requires Valid(s)
    ensures Valid(RefreshAll(s, targets, now))
  {
    var t := RefreshAll(s, targets, now);
    forall b | 0 <= b < |s.buckets| ensures CountersInRange(t.buckets[b]) {
      assert CountersInRange(s.buckets[b]);
    }
    SameBooks(s, t);
  }

  lemma PreparedKeepsValid(s: State, q: Request, look: Lookups, now: Instant)
    requires Valid(s) && EligibilityErrors(q, look).None?
    ensures Valid(Prepared(s, q, look, now))
  {
    var targets := TargetsOf(q, look);
    EnsureBucketsKeepsValid(s, targets, look.defaultPolicy.value, look.databaseClock);
    var s1 := EnsureBuckets(s, targets, look.defaultPolicy.value, look.databaseClock);
    SweepKeepsValid(s1, targets, now);
    RefreshAllKeepsValid(Sweep(s1, targets, now), targets, now);
  }
}

/** When a reservation is granted, when it is delayed, and what the reported waiting time means. */
module RateLimitEligibility {
  import opened Prelude
  import opened RateLimitModel
  import opened RateLimitInvariants

  /** Everything except concurrency lets a request through bucket `b` at time `t`. */
  predicate Admits(b: Bucket, t: Instant) {
    && (b.blockedUntil.Some? ==> b.blockedUntil.value <= t)
    && (b.providerResetAt.Some? ==> b.providerResetAt.value <= t)
    && (b.requestCount >= b.policy.Limit() ==> b.windowStartedAt + b.policy.Period() <= t)
    && (b.policy.dailyBudget.Some? && b.dailyCount >= b.policy.dailyBudget.value ==> b.dailyStartedAt + DAY <= t)
    && (b.lastRequestAt.Some? ==> b.lastRequestAt.value + b.policy.Spacing() <= t)
  }

  predicate HasSlot(b: Bucket) {
    b.activeConcurrency < b.policy.maxConcurrency
  }

  /** Rolling the windows and collecting the waits answers "now" exactly when the bucket admits and has a slot. */
  lemma EligibleIffAdmits(b: Bucket, t: Instant)
    ensures NextEligible(Refreshed(b, t), t).None? <==> Admits(b, t) && HasSlot(b)
  {
    var r := Refreshed(b, t);
    assert Candidates(r, t) == [] <==> Admits(r, t) && HasSlot(r);
  }

  /** Both windows run on past `now`. */
  predicate Current(b: Bucket, now: Instant) {
    now < b.windowStartedAt + b.policy.Period() && now < b.dailyStartedAt + DAY
  }

  /** Rolling makes both windows current, forgets only what is over, and moves no moment of admission from `now` on. */
  lemma RollingOnlyForgets(b: Bucket, now: Instant)
    ensures var r := Refreshed(b, now);
      && Current(r, now) && (Current(b, now) ==> r == b)
      && (r.requestCount != b.requestCount ==> r.requestCount == 0 && b.windowStartedAt + b.policy.Period() <= now)
      && (r.dailyCount != b.dailyCount ==> r.dailyCount == 0 && b.dailyStartedAt + DAY <= now)
      && r == b.(windowStartedAt := r.windowStartedAt, requestCount := r.requestCount,
                 dailyStartedAt := r.dailyStartedAt, dailyCount := r.dailyCount)
    ensures forall t | now <= t :: Admits(Refreshed(b, now), t) <==> Admits(b, t)
  {
    assert b.policy.Period() > 0 && b.policy.Limit() >= 1;
  }

  /**
   What the reported time of a bucket with current windows means: there is none exactly when the bucket is open now;
   otherwise it lies ahead, from it on everything but concurrency lets a request through, and before it nothing does
   unless all slots are taken.
   */
  lemma ReportedTimeIsExact(b: Bucket, now: Instant)
    requires Current(b, now)
    ensures var e := NextEligible(b, now);
      && (e.None? <==> Admits(b, now) && HasSlot(b))
      && (e.Some? ==> now < e.value)
    ensures var e := NextEligible(b, now); e.Some? ==>
      forall t | now <= t :: (e.value <= t ==> Admits(b, t)) && (HasSlot(b) && t < e.value ==> !Admits(b, t))
  {
    RollingOnlyForgets(b, now);
    EligibleIffAdmits(b, now);
    ReportedWaitIsLater(b, now);
    var e := NextEligible(b, now);
    if e.Some? {
      forall t | now <= t ensures (e.value <= t ==> Admits(b, t)) && (HasSlot(b) && t < e.value ==> !Admits(b, t)) {
        if e.value <= t {
          AdmitsAfterWaiting(b, now, t);
        } else if HasSlot(b) {
          FreeSlotAsIdle(b, now);
          ClosedUntilCandidate(b, now, e.value, t);
        }
      }
    }
  }

  lemma ReportedWaitIsLater(b: Bucket, now: Instant)
    ensures var e := NextEligible(Refreshed(b, now), now); e.Some? ==> now < e.value
  {
    var r := Refreshed(b, now);
    assert forall c | c in Candidates(r, now) :: now < c;
  }

  /** Waiting out every reported candidate is enough for everything except concurrency. */
  lemma AdmitsAfterWaiting(b: Bucket, now: Instant, t: Instant)
    requires now <= t && forall c | c in Candidates(b, now) :: c <= t
    ensures Admits(b, t)
  {
    var cs := Candidates(b, now);
    assert b.blockedUntil.Some? && b.blockedUntil.value > now ==> b.blockedUntil.value in cs;
    assert b.providerResetAt.Some? && b.providerResetAt.value > now ==> b.providerResetAt.value in cs;
    assert b.requestCount >= b.policy.Limit() ==> b.windowStartedAt + b.policy.Period() in cs;
    assert b.policy.dailyBudget.Some? && b.dailyCount >= b.policy.dailyBudget.value ==> b.dailyStartedAt + DAY in cs;
    assert b.lastRequestAt.Some? && b.lastRequestAt.value + b.policy.Spacing() > now
      ==> b.lastRequestAt.value + b.policy.Spacing() in cs;
  }

  /** The bucket with all its slots free: its candidates are those that do not come from concurrency. */
  function Idle(b: Bucket): Bucket {
    b.(activeConcurrency := 0)
  }

  lemma FreeSlotAsIdle(b: Bucket, now: Instant)
    requires HasSlot(b)
    ensures Candidates(Idle(b), now) == Candidates(b, now)
  {
  }

  /** A candidate that does not come from concurrency keeps the bucket closed until it has passed. */
  lemma ClosedUntilCandidate(b: Bucket, now: Instant, c: Instant, t: Instant)
    requires c in Candidates(Idle(b), now) && t < c
    ensures !Admits(b, t)
  {
  }

  lemma {:induction false} LatestIsFirstMaximum(waits: seq<Option<Instant>>, n: nat)
    requires n <= |waits|
    ensures var best := Latest(waits, n);
      if best.None? then forall b | 0 <= b < n :: waits[b].None?
      else
        && waits[best.value.0] == Some(best.value.1)
        && (forall b | 0 <= b < n && waits[b].Some? :: waits[b].value <= best.value.1)
        && (forall b | 0 <= b < best.value.0 && waits[b].Some? :: waits[b].value < best.value.1)
  {
    if n > 0 {
      LatestIsFirstMaximum(waits, n - 1);
    }
  }

  /** The controlling bucket is the first targeted bucket with the latest waiting time. */
  lemma ControllingIsLatest(s: State, targets: seq<Scope>, now: Instant)
    ensures var best := Controlling(s, targets, now);
      if best.None? then
        forall b | 0 <= b < |s.buckets| && s.buckets[b].scope in targets :: NextEligible(s.buckets[b], now).None?
      else
        var (k, e) := best.value;
        && s.buckets[k].scope in targets
        && NextEligible(s.buckets[k], now) == Some(e)
        && forall b | 0 <= b < |s.buckets| && s.buckets[b].scope in targets && NextEligible(s.buckets[b], now).Some? ::
             if b < k then NextEligible(s.buckets[b], now).value < e else NextEligible(s.buckets[b], now).value <= e
  {
    var waits := Waits(s, targets, now);
    LatestIsFirstMaximum(waits, |s.buckets|);
    forall b | 0 <= b < |s.buckets| && s.buckets[b].scope in targets
      ensures NextEligible(s.buckets[b], now) == waits[b]
    {
    }
  }

  // ------------------------------------------------------------------ frames

  lemma {:induction false} EnsureBucketsProvides(s: State, targets: seq<Scope>, inherited: Policy, clock: Instant)
    ensures var t := EnsureBuckets(s, targets, inherited, clock);
      && t.reservations == s.reservations && t.memberships == s.memberships && t.observations == s.observations
      && |s.buckets| <= |t.buckets| && t.buckets[..|s.buckets|] == s.buckets
      && (forall x | x in targets :: HasBucket(t, x) && x in t.bindings)
      && (forall x | x in s.bindings :: x in t.bindings && t.bindings[x] == s.bindings[x])
  {
    if targets != [] {
      var most := targets[..|targets| - 1];
      EnsureBucketsProvides(s, most, inherited, clock);
      var m := EnsureBuckets(s, most, inherited, clock);
      var t := EnsureBuckets(s, targets, inherited, clock);
      assert targets == most + [targets[|targets| - 1]];
      forall x | x in targets ensures HasBucket(t, x) && x in t.bindings {
        if HasBucket(m, x) {
          var b :| 0 <= b < |m.buckets| && m.buckets[b].scope == x;
          assert t.buckets[b].scope == x;
        } else {
          assert t.buckets[|m.buckets|].scope == x;
        }
      }
    }
  }

  /** The scopes that already have a binding and a bucket are left alone. */
  lemma {:induction false} EnsureBucketsIdle(s: State, targets: seq<Scope>, inherited: Policy, clock: Instant)
    requires forall x | x in targets :: HasBucket(s, x) && x in s.bindings
    ensures EnsureBuckets(s, targets, inherited, clock) == s
  {
    if targets != [] {
      EnsureBucketsIdle(s, targets[..|targets| - 1], inherited, clock);
    }
  }

  /** The sweep touches nothing of a bucket but its concurrency, and only downwards. */
  lemma {:induction false} SweepFrame(s: State, targets: seq<Scope>, now: Instant, n: nat)
    requires n <= |s.reservations|
    ensures var t := SweepUpTo(s, targets, now, n);
      && |t.buckets| == |s.buckets| && t.bindings == s.bindings && t.observations == s.observations
      && t.memberships.Keys == s.memberships.Keys
      && (forall b | 0 <= b < |s.buckets| ::
            t.buckets[b] == s.buckets[b].(activeConcurrency := t.buckets[b].activeConcurrency))
      && (forall b | 0 <= b < |s.buckets| && s.buckets[b].activeConcurrency >= 0 ::
            0 <= t.buckets[b].activeConcurrency <= s.buckets[b].activeConcurrency)
      && (forall r | 0 <= r < |s.reservations| ::
            t.reservations[r] == s.reservations[r].(status := t.reservations[r].status,
                                                    finalizedAt := t.reservations[r].finalizedAt))
  {
    if n > 0 {
      SweepFrame(s, targets, now, n - 1);
    }
  }

  /** The tables after the missing buckets were created and the abandoned reservations swept. */
  function Swept(s: State, q: Request, look: Lookups, now: Instant): State
    requires EligibilityErrors(q, look).None?
  {
    var targets := TargetsOf(q, look);
    Sweep(EnsureBuckets(s, targets, look.defaultPolicy.value, look.databaseClock), targets, now)
  }

  /** Every targeted bucket of `s` satisfies `Admits` at `now` and has a free slot. */
  predicate AllOpen(s: State, targets: seq<Scope>, now: Instant) {
    forall b | 0 <= b < |s.buckets| && s.buckets[b].scope in targets :: Admits(s.buckets[b], now) && HasSlot(s.buckets[b])
  }

  /** Authority needs every bucket at once: the exact condition under which `reserve` grants. */
  lemma ReserveGrantsIff(s: State, q: Request, look: Lookups, now: Instant)
    ensures
      var d := Reserve(s, q, look, now).1;
      d.Success? && d.value.Reserved?
      <==>
      && q.ttl > 0
      && NoMatch(s, q)
      && EligibilityErrors(q, look).None?
      && look.runEndpoint == Some(q.endpointId)
      && AllOpen(Swept(s, q, look, now), TargetsOf(q, look), now)
  {
    if q.ttl > 0 && FindReservation(s.reservations, q).None? && EligibilityErrors(q, look).None? {
      var targets := TargetsOf(q, look);
      var swept := Swept(s, q, look, now);
      var ready := Prepared(s, q, look, now);
      ControllingIsLatest(ready, targets, now);
      forall b | 0 <= b < |swept.buckets| && swept.buckets[b].scope in targets
        ensures NextEligible(ready.buckets[b], now).None? <==> Admits(swept.buckets[b], now) && HasSlot(swept.buckets[b])
      {
        EligibleIffAdmits(swept.buckets[b], now);
      }
      assert forall b | 0 <= b < |ready.buckets| :: ready.buckets[b].scope == swept.buckets[b].scope;
    }
  }

  /** A replayed request identity changes no table, whatever its earlier outcome and the clock. */
  lemma ReplayChangesNothing(s: State, q: Request, look: Lookups, now: Instant, r: nat)
    requires Valid(s) && q.ttl > 0 && r < |s.reservations| && Matches(s.reservations[r], q)
    ensures Reserve(s, q, look, now) == (s, Success(Replayed(r, s.reservations[r].status == Active)))
  {
    var found := FindReservation(s.reservations, q);
    assert found.Some?;
    assert found.value == r;
  }

  /** No usage counter of a bucket is higher in `after` than in `before`. */
  predicate NoMoreUsage(before: Bucket, after: Bucket) {
    && after.requestCount <= before.requestCount
    && after.dailyCount <= before.dailyCount
    && after.activeConcurrency <= before.activeConcurrency
    && after.lastRequestAt == before.lastRequestAt
  }

  lemma PreparationTakesNothing(s: State, q: Request, look: Lookups, now: Instant)
    requires Valid(s) && EligibilityErrors(q, look).None?
    ensures var t := Prepared(s, q, look, now);
      && |t.reservations| == |s.reservations| && t.memberships.Keys == s.memberships.Keys
      && |s.buckets| <= |t.buckets|
      && forall b | 0 <= b < |s.buckets| :: NoMoreUsage(s.buckets[b], t.buckets[b])
  {
    var targets := TargetsOf(q, look);
    EnsureBucketsProvides(s, targets, look.defaultPolicy.value, look.databaseClock);
    var s1 := EnsureBuckets(s, targets, look.defaultPolicy.value, look.databaseClock);
    SweepFrame(s1, targets, now, |s1.reservations|);
    var swept := Sweep(s1, targets, now);
    var t := Prepared(s, q, look, now);
    forall b | 0 <= b < |s.buckets| ensures NoMoreUsage(s.buckets[b], t.buckets[b]) {
      assert s1.buckets[..|s.buckets|][b] == s1.buckets[b];
      assert CountersInRange(s.buckets[b]);
      assert NoMoreUsage(s.buckets[b], swept.buckets[b]);
    }
  }

  /**
   A denial takes no usage: no reservation or membership appears, every counter that existed is
   unchanged or lower, and the reported time is still to come.
   */
  lemma DelayTakesNothing(s: State, q: Request, look: Lookups, now: Instant)
    requires Valid(s)
    requires var d := Reserve(s, q, look, now).1; d.Success? && d.value.Delayed?
    ensures var (t, d) := Reserve(s, q, look, now);
      && now < d.value.nextEligibleAt
      && |t.reservations| == |s.reservations| && t.memberships.Keys == s.memberships.Keys
      && |s.buckets| <= |t.buckets|
      && forall b | 0 <= b < |s.buckets| :: NoMoreUsage(s.buckets[b], t.buckets[b])
  {
    PreparationTakesNothing(s, q, look, now);
    var targets := TargetsOf(q, look);
    var ready := Prepared(s, q, look, now);
    ControllingIsLatest(ready, targets, now);
    var k := Controlling(ready, targets, now).value.0;
    ReportedWaitIsLater(Swept(s, q, look, now).buckets[k], now);
  }

  // ------------------------------------------------------------------ retrying

  predicate AllPresent(s: State, targets: seq<Scope>) {
    forall x | x in targets :: HasBucket(s, x) && x in s.bindings
  }

  predicate NoMatch(s: State, q: Request) {
    forall r | 0 <= r < |s.reservations| :: !Matches(s.reservations[r], q)
  }

  /** `e` is the latest candidate of any targeted bucket. */
  predicate LatestCandidate(s: State, targets: seq<Scope>, now: Instant, e: Instant) {
    && (forall b, c | 0 <= b < |s.buckets| && s.buckets[b].scope in targets && c in Candidates(s.buckets[b], now) :: c <= e)
    && (exists b | 0 <= b < |s.buckets| :: s.buckets[b].scope in targets && e in Candidates(s.buckets[b], now))
  }

  lemma SameScopesPresent(s: State, t: State, targets: seq<Scope>)
    requires AllPresent(s, targets) && t.bindings == s.bindings
    requires |t.buckets| == |s.buckets| && forall b | 0 <= b < |s.buckets| :: t.buckets[b].scope == s.buckets[b].scope
    ensures AllPresent(t, targets)
  {
    forall x | x in targets ensures HasBucket(t, x) {
      var b :| 0 <= b < |s.buckets| && s.buckets[b].scope == x;
      assert t.buckets[b].scope == x;
    }
  }

  lemma PreparedIsReady(s: State, q: Request, look: Lookups, now: Instant)
    requires EligibilityErrors(q, look).None? && NoMatch(s, q)
    ensures AllPresent(Prepared(s, q, look, now), TargetsOf(q, look)) && NoMatch(Prepared(s, q, look, now), q)
  {
    var targets := TargetsOf(q, look);
    EnsureBucketsProvides(s, targets, look.defaultPolicy.value, look.databaseClock);
    var s1 := EnsureBuckets(s, targets, look.defaultPolicy.value, look.databaseClock);
    SweepFrame(s1, targets, now, |s1.reservations|);
    SameScopesPresent(s1, Prepared(s, q, look, now), targets);
  }

  lemma ControllingIsLatestCandidate(s: State, targets: seq<Scope>, now: Instant)
    requires Controlling(s, targets, now).Some?
    ensures LatestCandidate(s, targets, now, Controlling(s, targets, now).value.1)
  {
    ControllingIsLatest(s, targets, now);
    var (k, e) := Controlling(s, targets, now).value;
    forall b, c | 0 <= b < |s.buckets| && s.buckets[b].scope in targets && c in Candidates(s.buckets[b], now)
      ensures c <= e
    {
      assert NextEligible(s.buckets[b], now).Some?;
    }
    assert e in Candidates(s.buckets[k], now);
  }

  /** Recording the reported time on one bucket changes neither scopes nor candidates. */
  function Marked(s: State, k: nat, e: Instant): State
    requires k < |s.buckets|
  {
    s.(buckets := s.buckets[k := s.buckets[k].(nextEligibleAt := Some(e))])
  }

  lemma MarkKeepsCandidates(b: Bucket, e: Instant, now: Instant)
    ensures Candidates(b.(nextEligibleAt := Some(e)), now) == Candidates(b, now)
  {
  }

  lemma MarkingKeepsCandidates(s: State, targets: seq<Scope>, now: Instant, k: nat, e: Instant)
    requires k < |s.buckets| && AllPresent(s, targets) && LatestCandidate(s, targets, now, e)
    ensures AllPresent(Marked(s, k, e), targets) && LatestCandidate(Marked(s, k, e), targets, now, e)
  {
    var t := Marked(s, k, e);
    SameScopesPresent(s, t, targets);
    forall b | 0 <= b < |t.buckets| ensures Candidates(t.buckets[b], now) == Candidates(s.buckets[b], now) {
      MarkKeepsCandidates(s.buckets[b], e, now);
    }
    var b :| 0 <= b < |s.buckets| && s.buckets[b].scope in targets && e in Candidates(s.buckets[b], now);
    assert t.buckets[b].scope in targets && e in Candidates(t.buckets[b], now);
  }

  /** What a delayed `reserve` leaves behind for its targets. */
  lemma DelayedState(s: State, q: Request, look: Lookups, now: Instant)
    requires var d := Reserve(s, q, look, now).1; d.Success? && d.value.Delayed?
    ensures var (t, d) := Reserve(s, q, look, now);
      && EligibilityErrors(q, look).None? && q.ttl > 0
      && NoMatch(t, q) && AllPresent(t, TargetsOf(q, look))
      && LatestCandidate(t, TargetsOf(q, look), now, d.value.nextEligibleAt)
  {
    var targets := TargetsOf(q, look);
    PreparedIsReady(s, q, look, now);
    var ready := Prepared(s, q, look, now);
    ControllingIsLatestCandidate(ready, targets, now);
    var (k, e) := Controlling(ready, targets, now).value;
    MarkingKeepsCandidates(ready, targets, now, k, e);
    assert Reserve(s, q, look, now).0 == Marked(ready, k, e);
  }

  /** A retry finds its buckets in place and sweeps what the denial left behind. */
  lemma RetrySees(s: State, q: Request, look: Lookups, now: Instant, later: Lookups, t: Instant)
    requires var d := Reserve(s, q, look, now).1; d.Success? && d.value.Delayed?
    requires later == look.(databaseClock := later.databaseClock)
    ensures var w := Reserve(s, q, look, now).0;
      && EligibilityErrors(q, later).None? && TargetsOf(q, later) == TargetsOf(q, look) && q.ttl > 0 && NoMatch(w, q)
      && Swept(w, q, later, t) == Sweep(w, TargetsOf(q, look), t)
  {
    DelayedState(s, q, look, now);
    EnsureBucketsIdle(Reserve(s, q, look, now).0, TargetsOf(q, look), look.defaultPolicy.value, later.databaseClock);
  }

  /**
   Retrying a delayed request at any later time, with no change in between, is granted exactly when every targeted
   bucket admits it at that time and the sweep then leaves the bucket below its concurrency cap.
   */
  lemma RetryGrantedIff(s: State, q: Request, look: Lookups, now: Instant, later: Lookups, t: Instant)
    requires var d := Reserve(s, q, look, now).1; d.Success? && d.value.Delayed?
    requires later == look.(databaseClock := later.databaseClock)
    ensures var w := Reserve(s, q, look, now).0;
      var d := Reserve(w, q, later, t).1;
      (d.Success? && d.value.Reserved?)
      <==> look.runEndpoint == Some(q.endpointId)
           && forall b | 0 <= b < |w.buckets| && w.buckets[b].scope in TargetsOf(q, look) ::
                Admits(w.buckets[b], t) && HasSlot(Sweep(w, TargetsOf(q, look), t).buckets[b])
  {
    RetrySees(s, q, look, now, later, t);
    var targets := TargetsOf(q, look);
    var w := Reserve(s, q, look, now).0;
    SweepFrame(w, targets, t, |w.reservations|);
    ReserveGrantsIff(w, q, later, t);
    var swept := Swept(w, q, later, t);
    forall b | 0 <= b < |w.buckets| && w.buckets[b].scope in targets
      ensures Admits(swept.buckets[b], t) <==> Admits(w.buckets[b], t)
    {
      assert swept.buckets[b] == w.buckets[b].(activeConcurrency := swept.buckets[b].activeConcurrency);
    }
  }

  /**
   Retrying a delayed request after the reported time, with no change in between, is granted
   exactly when the sweep at that time leaves every targeted bucket below its concurrency cap.
   */
  lemma RetryGrantedIffSlots(s: State, q: Request, look: Lookups, now: Instant, later: Lookups, t: Instant)
    requires var d := Reserve(s, q, look, now).1; d.Success? && d.value.Delayed?
    requires look.runEndpoint == Some(q.endpointId) && later == look.(databaseClock := later.databaseClock)
    requires now <= t && Reserve(s, q, look, now).1.value.nextEligibleAt <= t
    ensures var w := Reserve(s, q, look, now).0;
      var d := Reserve(w, q, later, t).1;
      (d.Success? && d.value.Reserved?)
      <==> forall b | 0 <= b < |w.buckets| && w.buckets[b].scope in TargetsOf(q, look) :: HasSlot(Sweep(w, TargetsOf(q, look), t).buckets[b])
  {
    DelayedState(s, q, look, now);
    var w := Reserve(s, q, look, now).0;
    RetryGrantedIff(s, q, look, now, later, t);
    forall b | 0 <= b < |w.buckets| && w.buckets[b].scope in TargetsOf(q, look) ensures Admits(w.buckets[b], t) {
      AdmitsAfterWaiting(w.buckets[b], now, t);
    }
  }

  /** The time comes from a hold, a window, the daily budget or the spacing of a targeted bucket. */
  predicate NotFromConcurrency(s: State, targets: seq<Scope>, now: Instant, e: Instant) {
    exists b | 0 <= b < |s.buckets| :: s.buckets[b].scope in targets && e in Candidates(Idle(s.buckets[b]), now)
  }

  /** Where every targeted bucket has a free slot the reported time does not come from concurrency. */
  lemma FreeSlotsReportOtherwise(s: State, q: Request, look: Lookups, now: Instant)
    requires var d := Reserve(s, q, look, now).1; d.Success? && d.value.Delayed?
    requires var w := Reserve(s, q, look, now).0;
      forall b | 0 <= b < |w.buckets| && w.buckets[b].scope in TargetsOf(q, look) :: HasSlot(w.buckets[b])
    ensures var (w, d) := Reserve(s, q, look, now); NotFromConcurrency(w, TargetsOf(q, look), now, d.value.nextEligibleAt)
  {
    DelayedState(s, q, look, now);
    var (w, d) := Reserve(s, q, look, now);
    var e := d.value.nextEligibleAt;
    var b :| 0 <= b < |w.buckets| && w.buckets[b].scope in TargetsOf(q, look) && e in Candidates(w.buckets[b], now);
    FreeSlotAsIdle(w.buckets[b], now);
  }

  /** A reported time that does not come from concurrency is tight: with no change in between, no earlier retry is granted. */
  lemma NoEarlierRetry(s: State, q: Request, look: Lookups, now: Instant, later: Lookups, t: Instant)
    requires var d := Reserve(s, q, look, now).1; d.Success? && d.value.Delayed?
    requires later == look.(databaseClock := later.databaseClock)
    requires var (w, d) := Reserve(s, q, look, now);
      t < d.value.nextEligibleAt && NotFromConcurrency(w, TargetsOf(q, look), now, d.value.nextEligibleAt)
    ensures var d := Reserve(Reserve(s, q, look, now).0, q, later, t).1;
      !(d.Success? && d.value.Reserved?)
  {
    var (w, d) := Reserve(s, q, look, now);
    var e := d.value.nextEligibleAt;
    var b :| 0 <= b < |w.buckets| && w.buckets[b].scope in TargetsOf(q, look) && e in Candidates(Idle(w.buckets[b]), now);
    ClosedUntilCandidate(w.buckets[b], now, e, t);
    RetryGrantedIff(s, q, look, now, later, t);
  }
}
