/** What a denied request does to the counters after all, exactly. */
module RateLimitDenials {
  import opened Prelude
  import opened RateLimitModel
  import opened RateLimitInvariants
  import opened RateLimitEligibility
  import opened RateLimitRuns

  /** A targeted bucket holds a count of a window that is over. */
  predicate CountsOver(b: Bucket, now: Instant) {
    || (b.windowStartedAt + b.policy.Period() <= now && b.requestCount != 0)
    || (b.dailyStartedAt + DAY <= now && b.dailyCount != 0)
  }

  predicate SameCounts(before: Bucket, after: Bucket) {
    after.requestCount == before.requestCount && after.dailyCount == before.dailyCount
  }

  /** The buckets that existed before are the first ones; creation and sweep leave their windows alone. */
  lemma SweptFrame(s: State, q: Request, look: Lookups, now: Instant)
    requires EligibilityErrors(q, look).None?
    ensures var t := Swept(s, q, look, now);
      && |s.buckets| <= |t.buckets|
      && forall b | 0 <= b < |s.buckets| :: t.buckets[b] == s.buckets[b].(activeConcurrency := t.buckets[b].activeConcurrency)
  {
    var targets := TargetsOf(q, look);
    EnsureBucketsProvides(s, targets, look.defaultPolicy.value, look.databaseClock);
    var s1 := EnsureBuckets(s, targets, look.defaultPolicy.value, look.databaseClock);
    SweepFrame(s1, targets, now, |s1.reservations|);
    forall b | 0 <= b < |s.buckets|
      ensures var t := Swept(s, q, look, now);
        t.buckets[b] == s.buckets[b].(activeConcurrency := t.buckets[b].activeConcurrency)
    {
      assert s1.buckets[..|s.buckets|][b] == s1.buckets[b];
    }
  }

  /** A denied bucket is the swept one, rolled when it is targeted, up to the noted time. */
  lemma DeniedBucket(s: State, q: Request, look: Lookups, now: Instant, b: nat)
    requires b < |s.buckets| && EligibilityErrors(q, look).None?
    requires var d := Reserve(s, q, look, now).1; d.Success? && d.value.Delayed?
    ensures var swept := Swept(s, q, look, now); var t := Reserve(s, q, look, now).0;
      && b < |swept.buckets| == |t.buckets|
      && var rolled := if s.buckets[b].scope in TargetsOf(q, look) then Refreshed(swept.buckets[b], now) else swept.buckets[b];
         t.buckets[b] == rolled.(nextEligibleAt := t.buckets[b].nextEligibleAt)
  {
    SweptFrame(s, q, look, now);
  }

  /**
   "A denial changes no request counters", made exact: every bucket keeps both counts if and only if no targeted
   bucket holds a count of a window that is over.
   */
  lemma DenialKeepsCountsIff(s: State, q: Request, look: Lookups, now: Instant)
    requires var d := Reserve(s, q, look, now).1; d.Success? && d.value.Delayed?
    ensures var t := Reserve(s, q, look, now).0;
      && |s.buckets| <= |t.buckets|
      && ((forall b | 0 <= b < |s.buckets| :: SameCounts(s.buckets[b], t.buckets[b]))
          <==> forall b | 0 <= b < |s.buckets| && s.buckets[b].scope in TargetsOf(q, look) :: !CountsOver(s.buckets[b], now))
  {
    SweptFrame(s, q, look, now);
    var t := Reserve(s, q, look, now).0;
    forall b | 0 <= b < |s.buckets|
      ensures SameCounts(s.buckets[b], t.buckets[b])
         <==> !(s.buckets[b].scope in TargetsOf(q, look) && CountsOver(s.buckets[b], now))
    {
      DeniedBucket(s, q, look, now, b);
    }
  }

  lemma {:induction false} NothingToSweep(s: State, targets: seq<Scope>, now: Instant, n: nat)
    requires n <= |s.reservations| && forall r: nat :: !Abandoned(s, targets, now, r)
    ensures SweepUpTo(s, targets, now, n) == s
  {
    if n > 0 {
      NothingToSweep(s, targets, now, n - 1);
    }
  }

  /** New buckets have no members, so they abandon nothing. */
  lemma SameAbandoned(s: State, q: Request, look: Lookups, now: Instant, r: nat)
    requires Valid(s) && EligibilityErrors(q, look).None?
    ensures var targets := TargetsOf(q, look);
      var s1 := EnsureBuckets(s, targets, look.defaultPolicy.value, look.databaseClock);
      Abandoned(s1, targets, now, r) <==> Abandoned(s, targets, now, r)
  {
    var targets := TargetsOf(q, look);
    EnsureBucketsProvides(s, targets, look.defaultPolicy.value, look.databaseClock);
    var s1 := EnsureBuckets(s, targets, look.defaultPolicy.value, look.databaseClock);
    forall b | 0 <= b < |s.buckets| ensures s1.buckets[b] == s.buckets[b] {
      assert s1.buckets[..|s.buckets|][b] == s1.buckets[b];
    }
    if Abandoned(s1, targets, now, r) {
      var b :| 0 <= b < |s1.buckets| && (r, b) in s1.memberships && s1.buckets[b].scope in targets;
      assert (r, b) in s.memberships;
      assert s.buckets[b].scope in targets;
    }
  }

  /** Sweeping an abandoned reservation takes a slot back from every bucket it was charged to. */
  lemma SweepFreesSlot(s: State, targets: seq<Scope>, now: Instant, r: nat, b: nat)
    requires Valid(s) && Abandoned(s, targets, now, r) && b < |s.buckets| && (r, b) in s.memberships
    ensures Sweep(s, targets, now).buckets[b].activeConcurrency < s.buckets[b].activeConcurrency
  {
    SweepKeepsValid(s, targets, now);
    SweepFrame(s, targets, now, |s.reservations|);
    var t := Sweep(s, targets, now);
    SweepExpiresAbandoned(s, targets, now, |s.reservations|, r);
    assert OpenOn(t, b) <= OpenOn(s, b) - {(r, b)} by {
      forall k | k in OpenOn(t, b) ensures k in OpenOn(s, b) - {(r, b)} {
        SweepExpiresAbandoned(s, targets, now, |s.reservations|, k.0);
      }
    }
    SubsetIsSmaller(OpenOn(t, b), OpenOn(s, b) - {(r, b)});
    CardinalityWithout(OpenOn(s, b), (r, b));
  }

  lemma SweptAwayFrees(s: State, q: Request, look: Lookups, now: Instant, r: nat, b: nat)
    requires Valid(s) && EligibilityErrors(q, look).None? && Abandoned(s, TargetsOf(q, look), now, r)
    requires b < |s.buckets| && (r, b) in s.memberships
    ensures var t := Swept(s, q, look, now); b < |t.buckets| && t.buckets[b].activeConcurrency < s.buckets[b].activeConcurrency
  {
    var targets := TargetsOf(q, look);
    SameAbandoned(s, q, look, now, r);
    EnsureBucketsProvides(s, targets, look.defaultPolicy.value, look.databaseClock);
    EnsureBucketsKeepsValid(s, targets, look.defaultPolicy.value, look.databaseClock);
    var s1 := EnsureBuckets(s, targets, look.defaultPolicy.value, look.databaseClock);
    assert s1.buckets[b] == s1.buckets[..|s.buckets|][b] == s.buckets[b];
    SweepFreesSlot(s1, targets, now, r, b);
  }

  /** Every bucket keeps its occupied slots if and only if the request finds no abandoned reservation on its targets. */
  lemma DenialKeepsSlotsIff(s: State, q: Request, look: Lookups, now: Instant)
    requires Valid(s)
    requires var d := Reserve(s, q, look, now).1; d.Success? && d.value.Delayed?
    ensures var t := Reserve(s, q, look, now).0;
      && |s.buckets| <= |t.buckets|
      && ((forall b | 0 <= b < |s.buckets| :: t.buckets[b].activeConcurrency == s.buckets[b].activeConcurrency)
          <==> forall r: nat :: !Abandoned(s, TargetsOf(q, look), now, r))
  {
    SweptFrame(s, q, look, now);
    var targets, swept, t := TargetsOf(q, look), Swept(s, q, look, now), Reserve(s, q, look, now).0;
    forall b | 0 <= b < |s.buckets| ensures t.buckets[b].activeConcurrency == swept.buckets[b].activeConcurrency {
      DeniedBucket(s, q, look, now, b);
    }
    if r: nat :| Abandoned(s, targets, now, r) {
      var b :| 0 <= b < |s.buckets| && (r, b) in s.memberships && s.buckets[b].scope in targets;
      SweptAwayFrees(s, q, look, now, r, b);
    } else {
      forall r: nat ensures !Abandoned(EnsureBuckets(s, targets, look.defaultPolicy.value, look.databaseClock), targets, now, r) {
        SameAbandoned(s, q, look, now, r);
      }
      var s1 := EnsureBuckets(s, targets, look.defaultPolicy.value, look.databaseClock);
      NothingToSweep(s1, targets, now, |s1.reservations|);
      EnsureBucketsProvides(s, targets, look.defaultPolicy.value, look.databaseClock);
      forall b | 0 <= b < |s.buckets| ensures swept.buckets[b] == s.buckets[b] {
        assert s1.buckets[..|s.buckets|][b] == s1.buckets[b];
      }
    }
  }

  /** One closed bucket among its targets denies a new request. */
  lemma ClosedBucketDenies(s: State, q: Request, look: Lookups, now: Instant, b: nat)
    requires q.ttl > 0 && NoMatch(s, q) && EligibilityErrors(q, look).None?
    requires b < |s.buckets| && s.buckets[b].scope in TargetsOf(q, look) && !Admits(s.buckets[b], now)
    ensures var d := Reserve(s, q, look, now).1; d.Success? && d.value.Delayed?
  {
    SweptFrame(s, q, look, now);
    var swept, ready := Swept(s, q, look, now), Prepared(s, q, look, now);
    EligibleIffAdmits(swept.buckets[b], now);
    assert ready.buckets[b] == Refreshed(swept.buckets[b], now);
    ControllingIsLatest(ready, TargetsOf(q, look), now);
  }

  /**
   An input on which the documented law fails: a hold denies the request two minutes after the installation's only
   grant, and the denial clears that grant's count.
   */
  lemma DenialCanClearCounts(policy: Policy, q: Request, look: Lookups)
    requires policy == PolicyRow(6, 60, 1, 1, 0, None)
    requires q.ttl > 0 && EligibilityErrors(q, look).None?
    ensures var used := NewBucket(Installation, policy, 0).(requestCount := 1, dailyCount := 1, lastRequestAt := Some(0),
                                                            blockedUntil := Some(300 * SECOND));
      var s := State(map[Installation := policy], [used], [], map[], []);
      var (t, d) := Reserve(s, q, look, 120 * SECOND);
      && Valid(s) && d.Success? && d.value.Delayed?
      && s.buckets[0].requestCount == 1 && t.buckets != [] && t.buckets[0].requestCount == 0
  {
    var used := NewBucket(Installation, policy, 0).(requestCount := 1, dailyCount := 1, lastRequestAt := Some(0),
                                                    blockedUntil := Some(300 * SECOND));
    var s := State(map[Installation := policy], [used], [], map[], []);
    var now := 120 * SECOND;
    assert OpenOn(s, 0) == {};
    assert TargetsOf(q, look)[0] == Installation;
    ClosedBucketDenies(s, q, look, now, 0);
    DeniedBucket(s, q, look, now, 0);
    SweptFrame(s, q, look, now);
  }
}
