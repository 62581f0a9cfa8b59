/** When a request is granted, read off the tables as they are before it. */
module RateLimitGrants {
  import opened Prelude
  import opened RateLimitModel
  import opened RateLimitInvariants
  import opened RateLimitEligibility
  import opened RateLimitRuns
  import opened RateLimitDenials

  /** The active reservations charged to bucket `b` whose time is not over. */
  function Unexpired(s: State, b: nat, now: Instant): set<nat> {
    set r: nat | r < |s.reservations| && (r, b) in s.memberships && s.reservations[r].status == Active
                 && now < s.reservations[r].expiresAt
  }

  /** After the sweep a targeted bucket counts exactly the unexpired reservations. */
  lemma SweptCountsUnexpired(s: State, targets: seq<Scope>, now: Instant, b: nat)
    requires Valid(s) && b < |s.buckets| && s.buckets[b].scope in targets
    ensures Sweep(s, targets, now).buckets[b].activeConcurrency == |Unexpired(s, b, now)|
  {
    var t := Sweep(s, targets, now);
    SweepKeepsValid(s, targets, now);
    SweepFrame(s, targets, now, |s.reservations|);
    var left := Unexpired(s, b, now);
    forall r: nat | r < |s.reservations| && (r, b) in s.memberships ensures r in left <==> (r, b) in OpenOn(t, b) {
      SweepExpiresAbandoned(s, targets, now, |s.reservations|, r);
    }
    forall k | k in OpenOn(t, b) ensures k.0 in left && k == (k.0, b) {
      assert k in s.memberships;
    }
    PairsWithSameSecond(OpenOn(t, b), left, b);
  }

  lemma {:induction false} CreatedBucketsAreNew(s: State, targets: seq<Scope>, inherited: Policy, clock: Instant)
    ensures var t := EnsureBuckets(s, targets, inherited, clock);
      && |s.buckets| <= |t.buckets|
      && forall b | |s.buckets| <= b < |t.buckets| :: t.buckets[b] == NewBucket(t.buckets[b].scope, t.buckets[b].policy, clock)
  {
    if targets != [] {
      CreatedBucketsAreNew(s, targets[..|targets| - 1], inherited, clock);
    }
  }

  /** A bucket that the request itself creates lets it through. */
  lemma CreatedBucketsAreOpen(s: State, q: Request, look: Lookups, now: Instant, b: nat)
    requires EligibilityErrors(q, look).None? && |s.buckets| <= b < |Swept(s, q, look, now).buckets|
    ensures var t := Swept(s, q, look, now).buckets[b]; Admits(t, now) && HasSlot(t)
  {
    var targets := TargetsOf(q, look);
    CreatedBucketsAreNew(s, targets, look.defaultPolicy.value, look.databaseClock);
    var s1 := EnsureBuckets(s, targets, look.defaultPolicy.value, look.databaseClock);
    SweepFrame(s1, targets, now, |s1.reservations|);
    assert s1.buckets[b] == NewBucket(s1.buckets[b].scope, s1.buckets[b].policy, look.databaseClock);
  }

  /** An existing targeted bucket is open after the sweep exactly when it admits and few enough reservations are unexpired. */
  lemma ExistingBucketOpenIff(s: State, q: Request, look: Lookups, now: Instant, b: nat)
    requires Valid(s) && EligibilityErrors(q, look).None? && b < |s.buckets| && s.buckets[b].scope in TargetsOf(q, look)
    ensures var t := Swept(s, q, look, now);
      && b < |t.buckets| && t.buckets[b].scope == s.buckets[b].scope
      && (Admits(t.buckets[b], now) && HasSlot(t.buckets[b])
          <==> Admits(s.buckets[b], now) && |Unexpired(s, b, now)| < s.buckets[b].policy.maxConcurrency)
  {
    var targets := TargetsOf(q, look);
    SweptFrame(s, q, look, now);
    EnsureBucketsProvides(s, targets, look.defaultPolicy.value, look.databaseClock);
    EnsureBucketsKeepsValid(s, targets, look.defaultPolicy.value, look.databaseClock);
    var s1 := EnsureBuckets(s, targets, look.defaultPolicy.value, look.databaseClock);
    assert s1.buckets[..|s.buckets|][b] == s1.buckets[b];
    SweptCountsUnexpired(s1, targets, now, b);
    assert Unexpired(s1, b, now) == Unexpired(s, b, now);
  }

  /** Bucket `b` lets a request through: holds, windows, budget and spacing do, and the unexpired reservations leave a slot. */
  predicate Free(s: State, b: nat, now: Instant) {
    b < |s.buckets| && Admits(s.buckets[b], now) && |Unexpired(s, b, now)| < s.buckets[b].policy.maxConcurrency
  }

  /**
   The exact condition under which a request is granted: it is new and eligible, its run belongs to the endpoint, and
   every targeted bucket that already exists is free; what counts against the cap is only what has not expired.
   */
  lemma GrantedIffFree(s: State, q: Request, look: Lookups, now: Instant)
    requires Valid(s)
    ensures var d := Reserve(s, q, look, now).1;
      (d.Success? && d.value.Reserved?)
      <==> && q.ttl > 0 && NoMatch(s, q) && EligibilityErrors(q, look).None? && look.runEndpoint == Some(q.endpointId)
           && forall b: nat | b < |s.buckets| && s.buckets[b].scope in TargetsOf(q, look) :: Free(s, b, now)
  {
    ReserveGrantsIff(s, q, look, now);
    if EligibilityErrors(q, look).None? {
      var t := Swept(s, q, look, now);
      SweptFrame(s, q, look, now);
      forall b: nat | b < |t.buckets| && t.buckets[b].scope in TargetsOf(q, look)
        ensures Admits(t.buckets[b], now) && HasSlot(t.buckets[b]) <==> (b < |s.buckets| ==> Free(s, b, now))
      {
        if b < |s.buckets| {
          ExistingBucketOpenIff(s, q, look, now, b);
        } else {
          CreatedBucketsAreOpen(s, q, look, now, b);
        }
      }
    }
  }
}
