/** Safety of the limiter over whole runs with a non-decreasing clock. */
module RateLimitRuns {
  import opened Prelude
  import opened RateLimitModel
  import opened RateLimitInvariants
  import opened RateLimitEligibility

  // ------------------------------------------------------------------ one fixed window

  ghost predicate Ascending(g: seq<Instant>) {
    forall i, j | 0 <= i < j < |g| :: g[i] <= g[j]
  }

  /**
   `g` are all grant times of a bucket, the last `count` of them fall in the window that began at
   `start`. Any grant is followed, `2 * limit` grants later, by one more than a period away.
   */
  ghost predicate Windowed(g: seq<Instant>, start: Instant, count: int, period: int, limit: int, clock: Instant) {
    && 0 <= count <= limit && count <= |g|
    && Ascending(g)
    && (forall i | 0 <= i < |g| :: g[i] <= clock)
    && (forall i | 0 <= i < |g| - 2 * limit :: g[i] + period < g[i + 2 * limit])
    && (forall i | |g| - count <= i < |g| :: g[i] < start + period)
    && (forall i | 0 <= i < |g| - count :: g[i] < start)
    && (forall i | 0 <= i < |g| - count - limit :: g[i] + period < start)
    && (count < |g| ==> start <= clock)
  }

  lemma WindowRolls(g: seq<Instant>, start: Instant, count: int, period: int, limit: int, clock: Instant, now: Instant)
    requires Windowed(g, start, count, period, limit, clock) && clock <= now
    requires 0 < period && start + period <= now
    ensures Windowed(g, now, 0, period, limit, now)
  {
  }

  lemma WindowAdmitsOne(g: seq<Instant>, start: Instant, count: int, period: int, limit: int, clock: Instant, now: Instant)
    requires Windowed(g, start, count, period, limit, clock) && clock <= now
    requires now < start + period && count < limit
    ensures Windowed(g + [now], start, count + 1, period, limit, now)
  {
  }

  /** Elements outside the interval at the front of an ascending sequence do not count. */
  lemma {:induction false} CountAtMost(g: seq<Instant>, from: nat, low: int, high: int)
    requires from <= |g| && forall i | 0 <= i < from :: g[i] < low
    ensures CountIn(g, low, high) <= |g| - from
  {
    if from < |g| {
      CountAtMost(g[..|g| - 1], from, low, high);
    } else if g != [] {
      CountAtMost(g[..|g| - 1], from - 1, low, high);
    }
  }

  lemma {:induction false} SlidingCount(g: seq<Instant>, period: int, limit: int, low: int)
    requires 0 < limit && Ascending(g)
    requires forall i | 0 <= i < |g| - 2 * limit :: g[i] + period < g[i + 2 * limit]
    ensures CountIn(g, low, low + period) <= 2 * limit
  {
    if |g| <= 2 * limit {
      CountAtMost(g, 0, low, low + period);
    } else if g[|g| - 1] > low + period {
      SlidingCount(g[..|g| - 1], period, limit, low);
    } else {
      assert g[|g| - 1 - 2 * limit] < low;
      CountAtMost(g, |g| - 2 * limit, low, low + period);
    }
  }

  // ------------------------------------------------------------------ grants read off the tables

  /** The times of the grants on bucket `b` among the first `n` reservations. */
  function GrantTimes(s: State, b: nat, n: nat): seq<Instant>
    requires n <= |s.reservations|
  {
    if n == 0 then []
    else GrantTimes(s, b, n - 1) + if (n - 1, b) in s.memberships then [s.reservations[n - 1].reservedAt] else []
  }

  function Grants(s: State, b: nat): seq<Instant> {
    GrantTimes(s, b, |s.reservations|)
  }

  /** The reservations on bucket `b` granted inside a closed interval, among the first `n`. */
  function GrantedAmong(s: State, b: nat, n: nat, low: Instant, high: Instant): set<nat>
    requires n <= |s.reservations|
  {
    set r: nat | r < n && (r, b) in s.memberships && low <= s.reservations[r].reservedAt <= high
  }

  function GrantedIn(s: State, b: nat, low: Instant, high: Instant): set<nat> {
    GrantedAmong(s, b, |s.reservations|, low, high)
  }

  lemma {:induction false} GrantTimesAgree(s: State, t: State, b: nat, n: nat)
    requires n <= |s.reservations| && n <= |t.reservations|
    requires forall r | 0 <= r < n :: (r, b) in s.memberships <==> (r, b) in t.memberships
    requires forall r | 0 <= r < n :: s.reservations[r].reservedAt == t.reservations[r].reservedAt
    ensures GrantTimes(s, b, n) == GrantTimes(t, b, n)
  {
    if n > 0 {
      GrantTimesAgree(s, t, b, n - 1);
    }
  }

  lemma {:induction false} NoGrantsYet(s: State, b: nat, n: nat)
    requires n <= |s.reservations| && forall r: nat | r < n :: (r, b) !in s.memberships
    ensures GrantTimes(s, b, n) == []
  {
    if n > 0 {
      NoGrantsYet(s, b, n - 1);
    }
  }

  lemma {:induction false} GrantedInIsCount(s: State, b: nat, n: nat, low: Instant, high: Instant)
    requires n <= |s.reservations|
    ensures CountIn(GrantTimes(s, b, n), low, high) == |GrantedAmong(s, b, n, low, high)|
  {
    if n == 0 {
      assert GrantedAmong(s, b, n, low, high) == {};
    } else {
      GrantedInIsCount(s, b, n - 1, low, high);
      OneMoreGranted(s, b, n, low, high);
      var g := GrantTimes(s, b, n - 1);
      if (n - 1, b) in s.memberships {
        OneMoreCounted(g, s.reservations[n - 1].reservedAt, low, high);
      } else {
        assert g + [] == g;
      }
    }
  }

  lemma OneMoreCounted(g: seq<Instant>, last: Instant, low: int, high: int)
    ensures CountIn(g + [last], low, high) == CountIn(g, low, high) + if low <= last <= high then 1 else 0
  {
    assert (g + [last])[..|g|] == g;
  }

  lemma OneMoreGranted(s: State, b: nat, n: nat, low: Instant, high: Instant)
    requires 0 < n <= |s.reservations|
    ensures |GrantedAmong(s, b, n, low, high)| == |GrantedAmong(s, b, n - 1, low, high)|
      + if (n - 1, b) in s.memberships && low <= s.reservations[n - 1].reservedAt <= high then 1 else 0
  {
    var at, before := GrantedAmong(s, b, n, low, high), GrantedAmong(s, b, n - 1, low, high);
    assert at == before + if (n - 1, b) in s.memberships && low <= s.reservations[n - 1].reservedAt <= high then {n - 1} else {};
  }

  // ------------------------------------------------------------------ the timed invariant

  ghost predicate Spaced(g: seq<Instant>, spacing: int, last: Option<Instant>) {
    && (forall i | 0 <= i < |g| - 1 :: g[i] + spacing <= g[i + 1])
    && last == if g == [] then None else Some(g[|g| - 1])
  }

  /** The usage of bucket `b` agrees with its grant times `g`. */
  ghost predicate UsageAgrees(b: Bucket, g: seq<Instant>, clock: Instant) {
    && Windowed(g, b.windowStartedAt, b.requestCount, b.policy.Period(), b.policy.Limit(), clock)
    && (b.policy.dailyBudget.Some? ==>
          Windowed(g, b.dailyStartedAt, b.dailyCount, DAY, b.policy.dailyBudget.value, clock))
    && Spaced(g, b.policy.Spacing(), b.lastRequestAt)
  }

  predicate Covers(hold: Option<Instant>, observed: Option<Instant>) {
    observed.Some? ==> hold.Some? && observed.value <= hold.value
  }

  /** `blocked_until` is at least every hold ever observed on the bucket. */
  ghost predicate HoldsKept(s: State) {
    forall o | o in s.observations ::
      && o.bucket < |s.buckets|
      && Covers(s.buckets[o.bucket].blockedUntil, o.retryAfterAt)
      && Covers(s.buckets[o.bucket].blockedUntil, o.providerResetAt)
  }

  ghost predicate Timely(s: State, clock: Instant) {
    && Valid(s)
    && HoldsKept(s)
    && forall b | 0 <= b < |s.buckets| :: UsageAgrees(s.buckets[b], Grants(s, b), clock)
  }

  lemma UsageLater(b: Bucket, g: seq<Instant>, clock: Instant, now: Instant)
    requires UsageAgrees(b, g, clock) && clock <= now
    ensures UsageAgrees(b, g, now)
  {
  }

  lemma UsageRefreshed(b: Bucket, g: seq<Instant>, clock: Instant, now: Instant)
    requires UsageAgrees(b, g, clock) && clock <= now
    ensures UsageAgrees(Refreshed(b, now), g, now)
  {
    if b.windowStartedAt + b.policy.Period() <= now {
      WindowRolls(g, b.windowStartedAt, b.requestCount, b.policy.Period(), b.policy.Limit(), clock, now);
    }
    if b.policy.dailyBudget.Some? && b.dailyStartedAt + DAY <= now {
      WindowRolls(g, b.dailyStartedAt, b.dailyCount, DAY, b.policy.dailyBudget.value, clock, now);
    }
  }

  /** After rolling its windows at `now` the bucket can take one more request at `now`. */
  predicate HasRoom(r: Bucket, now: Instant) {
    && r.requestCount < r.policy.Limit() && now < r.windowStartedAt + r.policy.Period()
    && (r.policy.dailyBudget.Some? ==> r.dailyCount < r.policy.dailyBudget.value && now < r.dailyStartedAt + DAY)
    && (r.lastRequestAt.Some? ==> r.lastRequestAt.value + r.policy.Spacing() <= now)
    && HasSlot(r)
  }

  lemma AdmittedHasRoom(b: Bucket, now: Instant)
    requires Admits(b, now) && HasSlot(b)
    ensures HasRoom(Refreshed(b, now), now)
  {
  }

  lemma SpacingAdmitsOne(g: seq<Instant>, spacing: int, last: Option<Instant>, now: Instant)
    requires Spaced(g, spacing, last) && (last.Some? ==> last.value + spacing <= now)
    ensures Spaced(g + [now], spacing, Some(now))
  {
  }

  lemma UsageCharged(r: Bucket, g: seq<Instant>, now: Instant)
    requires UsageAgrees(r, g, now) && HasRoom(r, now)
    ensures UsageAgrees(Charged(r, now), g + [now], now)
  {
    WindowAdmitsOne(g, r.windowStartedAt, r.requestCount, r.policy.Period(), r.policy.Limit(), now, now);
    if r.policy.dailyBudget.Some? {
      WindowAdmitsOne(g, r.dailyStartedAt, r.dailyCount, DAY, r.policy.dailyBudget.value, now, now);
    }
    SpacingAdmitsOne(g, r.policy.Spacing(), r.lastRequestAt, now);
  }

  // ------------------------------------------------------------------ transactions keep it

  /** A transaction that leaves usage fields, membership keys and reservation times alone. */
  ghost predicate SameUsage(s: State, t: State) {
    && |s.buckets| == |t.buckets| && |s.reservations| == |t.reservations|
    && s.memberships.Keys == t.memberships.Keys
    && s.observations == t.observations
    && (forall r | 0 <= r < |s.reservations| :: s.reservations[r].reservedAt == t.reservations[r].reservedAt)
    && (forall b | 0 <= b < |s.buckets| ::
          t.buckets[b] == s.buckets[b].(activeConcurrency := t.buckets[b].activeConcurrency,
                                        nextEligibleAt := t.buckets[b].nextEligibleAt))
  }

  lemma SameUsageKeepsTimely(s: State, t: State, clock: Instant, now: Instant)
    requires Timely(s, clock) && clock <= now && SameUsage(s, t) && Valid(t)
    ensures Timely(t, now)
  {
    forall b | 0 <= b < |t.buckets| ensures UsageAgrees(t.buckets[b], Grants(t, b), now) {
      GrantTimesAgree(s, t, b, |s.reservations|);
      UsageLater(s.buckets[b], Grants(s, b), clock, now);
    }
  }

  lemma EnsureBucketKeepsTimely(s: State, scope: Scope, inherited: Policy, clock: Instant, now: Instant)
    requires Timely(s, now)
    ensures Timely(EnsureBucket(s, scope, inherited, clock), now)
  {
    var t := EnsureBucket(s, scope, inherited, clock);
    EnsureBucketKeepsValid(s, scope, inherited, clock);
    forall b | 0 <= b < |t.buckets| ensures UsageAgrees(t.buckets[b], Grants(t, b), now) {
      GrantTimesAgree(s, t, b, |s.reservations|);
      if b == |s.buckets| {
        NoGrantsYet(s, b, |s.reservations|);
      }
    }
  }

  lemma {:induction false} EnsureBucketsKeepsTimely(s: State, targets: seq<Scope>, inherited: Policy, clock: Instant, now: Instant)
    requires Timely(s, now)
    ensures Timely(EnsureBuckets(s, targets, inherited, clock), now)
  {
    if targets != [] {
      var most := targets[..|targets| - 1];
      EnsureBucketsKeepsTimely(s, most, inherited, clock, now);
      EnsureBucketKeepsTimely(EnsureBuckets(s, most, inherited, clock), targets[|targets| - 1], inherited, clock, now);
    }
  }

  lemma RefreshKeepsUsage(s: State, targets: seq<Scope>, clock: Instant, now: Instant, b: nat)
    requires b < |s.buckets| && clock <= now && UsageAgrees(s.buckets[b], Grants(s, b), clock)
    ensures var t := RefreshAll(s, targets, now); UsageAgrees(t.buckets[b], Grants(t, b), now)
  {
    GrantTimesAgree(s, RefreshAll(s, targets, now), b, |s.reservations|);
    if s.buckets[b].scope in targets {
      UsageRefreshed(s.buckets[b], Grants(s, b), clock, now);
    } else {
      UsageLater(s.buckets[b], Grants(s, b), clock, now);
    }
  }

  lemma RefreshAllKeepsTimely(s: State, targets: seq<Scope>, clock: Instant, now: Instant)
    requires Timely(s, clock) && clock <= now
    ensures Timely(RefreshAll(s, targets, now), now)
  {
    var t := RefreshAll(s, targets, now);
    RefreshAllKeepsValid(s, targets, now);
    forall b | 0 <= b < |t.buckets| ensures UsageAgrees(t.buckets[b], Grants(t, b), now) {
      RefreshKeepsUsage(s, targets, clock, now, b);
    }
  }

  lemma PreparedKeepsTimely(s: State, q: Request, look: Lookups, clock: Instant, now: Instant)
    requires Timely(s, clock) && clock <= now && EligibilityErrors(q, look).None?
    ensures Timely(Prepared(s, q, look, now), now)
  {
    var targets := TargetsOf(q, look);
    EnsureBucketsKeepsTimely(s, targets, look.defaultPolicy.value, look.databaseClock, clock);
    var s1 := EnsureBuckets(s, targets, look.defaultPolicy.value, look.databaseClock);
    SweepFrame(s1, targets, now, |s1.reservations|);
    SweepKeepsValid(s1, targets, now);
    SameUsageKeepsTimely(s1, Sweep(s1, targets, now), clock, now);
    RefreshAllKeepsTimely(Sweep(s1, targets, now), targets, now, now);
  }

  lemma {:induction false} JoinedRows(s: State, targets: seq<Scope>, r: nat, n: nat)
    requires n <= |s.buckets| && forall k | k in s.memberships :: k.0 != r
    ensures var m := Joined(s, targets, r, n);
      && (forall k | k in s.memberships :: k in m && m[k] == s.memberships[k])
      && (forall k | k in m && k !in s.memberships ::
            k.0 == r && k.1 < n && s.buckets[k.1].scope in targets && m[k].None?)
      && (forall b: nat | b < n && s.buckets[b].scope in targets :: (r, b) in m)
  {
    if n > 0 {
      JoinedRows(s, targets, r, n - 1);
    }
  }

  lemma GrantMemberships(s: State, targets: seq<Scope>, q: Request, now: Instant)
    requires MembershipsWellFormed(s)
    ensures var t := Grant(s, targets, q, now);
      && (forall k | k in s.memberships :: k in t.memberships && t.memberships[k] == s.memberships[k])
      && (forall k | k in t.memberships && k !in s.memberships ::
            k.0 == |s.reservations| && k.1 < |s.buckets| && s.buckets[k.1].scope in targets && t.memberships[k].None?)
      && (forall b: nat | b < |s.buckets| && s.buckets[b].scope in targets :: (|s.reservations|, b) in t.memberships)
  {
    JoinedRows(s, targets, |s.reservations|, |s.buckets|);
  }

  lemma OpenOnGains(s: State, t: State, r: nat, b: nat)
    requires forall k | k in s.memberships :: k in t.memberships && t.memberships[k] == s.memberships[k]
    requires forall k | k in t.memberships && k !in s.memberships :: k.0 == r && t.memberships[k].None?
    requires (r, b) !in s.memberships
    ensures |OpenOn(t, b)| == |OpenOn(s, b)| + if (r, b) in t.memberships then 1 else 0
  {
    if (r, b) in t.memberships {
      assert OpenOn(t, b) == OpenOn(s, b) + {(r, b)};
    } else {
      assert OpenOn(t, b) == OpenOn(s, b);
    }
  }

  lemma GrantKeepsAccounts(s: State, targets: seq<Scope>, q: Request, now: Instant)
    requires MembershipsWellFormed(s) && ConcurrencyAccounted(s)
    ensures ConcurrencyAccounted(Grant(s, targets, q, now))
  {
    var t := Grant(s, targets, q, now);
    GrantMemberships(s, targets, q, now);
    forall b | 0 <= b < |t.buckets| ensures t.buckets[b].activeConcurrency == |OpenOn(t, b)| {
      OpenOnGains(s, t, |s.reservations|, b);
    }
  }

  lemma GrantKeepsMemberships(s: State, targets: seq<Scope>, q: Request, now: Instant)
    requires MembershipsWellFormed(s)
    ensures MembershipsWellFormed(Grant(s, targets, q, now))
  {
    GrantMemberships(s, targets, q, now);
    var t := Grant(s, targets, q, now);
    forall k | k in t.memberships
      ensures k.0 < |t.reservations| && k.1 < |t.buckets|
      ensures t.memberships[k].None? <==> t.reservations[k.0].status == Active
    {
      if k in s.memberships {
        assert t.reservations[k.0] == s.reservations[k.0];
      }
    }
  }

  lemma GrantKeepsValid(s: State, targets: seq<Scope>, q: Request, now: Instant)
    requires Valid(s) && NoMatch(s, q) && q.ttl > 0
    requires forall b | 0 <= b < |s.buckets| && s.buckets[b].scope in targets :: CountersInRange(Charged(s.buckets[b], now))
    ensures Valid(Grant(s, targets, q, now))
  {
    GrantKeepsAccounts(s, targets, q, now);
    GrantKeepsMemberships(s, targets, q, now);
    assert BucketsWellFormed(Grant(s, targets, q, now));
    assert ReservationsWellFormed(Grant(s, targets, q, now));
  }

  /** The buckets a granted `reserve` charges had room, so the charged tables are still valid. */
  lemma ReserveGrantKeepsValid(s: State, q: Request, look: Lookups, now: Instant)
    requires Valid(s) && q.ttl > 0 && NoMatch(s, q) && EligibilityErrors(q, look).None?
    requires var ready := Prepared(s, q, look, now); Controlling(ready, TargetsOf(q, look), now).None?
    ensures Valid(Grant(Prepared(s, q, look, now), TargetsOf(q, look), q, now))
  {
    var targets := TargetsOf(q, look);
    var ready := Prepared(s, q, look, now);
    PreparedKeepsValid(s, q, look, now);
    PreparedIsReady(s, q, look, now);
    FreeTargetsHaveRoom(Swept(s, q, look, now), targets, now);
    forall b | 0 <= b < |ready.buckets| && ready.buckets[b].scope in targets
      ensures CountersInRange(Charged(ready.buckets[b], now))
    {
      assert CountersInRange(ready.buckets[b]);
    }
    GrantKeepsValid(ready, targets, q, now);
  }

  lemma GrantTimesAfterGrant(s: State, targets: seq<Scope>, q: Request, now: Instant, b: nat)
    requires MembershipsWellFormed(s) && b < |s.buckets|
    ensures Grants(Grant(s, targets, q, now), b) == Grants(s, b) + if s.buckets[b].scope in targets then [now] else []
  {
    var t := Grant(s, targets, q, now);
    GrantMemberships(s, targets, q, now);
    GrantTimesAgree(s, t, b, |s.reservations|);
    if s.buckets[b].scope !in targets {
      assert (|s.reservations|, b) !in t.memberships;
    }
  }

  lemma GrantKeepsUsage(s: State, targets: seq<Scope>, q: Request, now: Instant, b: nat)
    requires MembershipsWellFormed(s) && b < |s.buckets| && UsageAgrees(s.buckets[b], Grants(s, b), now)
    requires s.buckets[b].scope in targets ==> HasRoom(s.buckets[b], now)
    ensures var t := Grant(s, targets, q, now); UsageAgrees(t.buckets[b], Grants(t, b), now)
  {
    GrantTimesAfterGrant(s, targets, q, now, b);
    if s.buckets[b].scope in targets {
      UsageCharged(s.buckets[b], Grants(s, b), now);
    } else {
      assert Grants(s, b) + [] == Grants(s, b);
    }
  }

  lemma GrantKeepsTimely(s: State, targets: seq<Scope>, q: Request, now: Instant)
    requires Timely(s, now) && NoMatch(s, q) && q.ttl > 0
    requires forall b | 0 <= b < |s.buckets| && s.buckets[b].scope in targets ::
               HasRoom(s.buckets[b], now)
    ensures Timely(Grant(s, targets, q, now), now)
  {
    var t := Grant(s, targets, q, now);
    forall b | 0 <= b < |t.buckets| ensures UsageAgrees(t.buckets[b], Grants(t, b), now) {
      GrantKeepsUsage(s, targets, q, now, b);
    }
    forall b | 0 <= b < |s.buckets| && s.buckets[b].scope in targets ensures CountersInRange(Charged(s.buckets[b], now)) {
      assert CountersInRange(s.buckets[b]);
    }
    GrantKeepsValid(s, targets, q, now);
    assert HoldsKept(t);
  }

  lemma TimelyLater(s: State, clock: Instant, now: Instant)
    requires Timely(s, clock) && clock <= now
    ensures Timely(s, now)
  {
    forall b | 0 <= b < |s.buckets| ensures UsageAgrees(s.buckets[b], Grants(s, b), now) {
      UsageLater(s.buckets[b], Grants(s, b), clock, now);
    }
  }

  lemma ReserveKeepsTimely(s: State, q: Request, look: Lookups, clock: Instant, now: Instant)
    requires Timely(s, clock) && clock <= now
    ensures Timely(Reserve(s, q, look, now).0, now)
  {
    TimelyLater(s, clock, now);
    if q.ttl > 0 && FindReservation(s.reservations, q).None? && EligibilityErrors(q, look).None? {
      var targets := TargetsOf(q, look);
      var ready := Prepared(s, q, look, now);
      PreparedKeepsTimely(s, q, look, clock, now);
      var controlling := Controlling(ready, targets, now);
      if controlling.Some? {
        MarkingKeepsTimely(ready, controlling.value.0, controlling.value.1, now);
        assert Reserve(s, q, look, now).0 == Marked(ready, controlling.value.0, controlling.value.1);
      } else {
        PreparedIsReady(s, q, look, now);
        FreeTargetsHaveRoom(Swept(s, q, look, now), targets, now);
        GrantKeepsTimely(ready, targets, q, now);
      }
    }
  }

  lemma MarkingKeepsTimely(s: State, k: nat, e: Instant, now: Instant)
    requires Timely(s, now) && k < |s.buckets|
    ensures Timely(Marked(s, k, e), now)
  {
    MarkingKeepsValid(s, k, e);
    SameUsageKeepsTimely(s, Marked(s, k, e), now, now);
  }

  lemma MarkingKeepsValid(s: State, k: nat, e: Instant)
    requires Valid(s) && k < |s.buckets|
    ensures Valid(Marked(s, k, e))
  {
    var t := Marked(s, k, e);
    forall b | 0 <= b < |s.buckets| ensures CountersInRange(t.buckets[b]) {
      assert CountersInRange(s.buckets[b]);
    }
    SameBooks(s, t);
  }

  lemma FreeTargetsHaveRoom(s: State, targets: seq<Scope>, now: Instant)
    requires Controlling(RefreshAll(s, targets, now), targets, now).None?
    ensures var t := RefreshAll(s, targets, now);
      forall b | 0 <= b < |t.buckets| && t.buckets[b].scope in targets :: HasRoom(t.buckets[b], now)
  {
    var t := RefreshAll(s, targets, now);
    ControllingIsLatest(t, targets, now);
    forall b | 0 <= b < |t.buckets| && t.buckets[b].scope in targets ensures HasRoom(t.buckets[b], now) {
      assert t.buckets[b] == Refreshed(s.buckets[b], now);
      EligibleIffAdmits(s.buckets[b], now);
      AdmittedHasRoom(s.buckets[b], now);
    }
  }

  lemma FinalizeKeepsTimely(s: State, r: nat, outcome: Status, clock: Instant, now: Instant)
    requires Timely(s, clock) && clock <= now
    ensures Timely(Finalize(s, r, outcome, now).0, now)
  {
    var t := Finalize(s, r, outcome, now).0;
    if t != s {
      ReleaseKeepsValid(s, r, outcome, now);
    }
    SameUsageKeepsTimely(s, t, clock, now);
  }

  lemma {:induction false} HoldRowsAre(s: State, r: nat, retryAfter: Option<Instant>, reset: Option<Instant>, n: nat)
    ensures forall o | o in HoldRows(s, r, retryAfter, reset, n) ::
      o.bucket < n && (r, o.bucket) in s.memberships && o.retryAfterAt == retryAfter && o.providerResetAt == reset
  {
    if n > 0 {
      HoldRowsAre(s, r, retryAfter, reset, n - 1);
    }
  }

  lemma ObserveHoldKeepsValid(s: State, r: nat, retryAfter: Option<Instant>, reset: Option<Instant>)
    requires Valid(s)
    ensures Valid(ObserveHold(s, r, retryAfter, reset))
  {
    var t := ObserveHold(s, r, retryAfter, reset);
    forall b | 0 <= b < |s.buckets| ensures CountersInRange(t.buckets[b]) {
      assert CountersInRange(s.buckets[b]);
    }
    SameBooks(s, t);
  }

  lemma ObserveHoldKeepsHolds(s: State, r: nat, retryAfter: Option<Instant>, reset: Option<Instant>)
    requires HoldsKept(s)
    ensures HoldsKept(ObserveHold(s, r, retryAfter, reset))
  {
    HoldRowsAre(s, r, retryAfter, reset, |s.buckets|);
  }

  lemma ObserveHoldKeepsTimely(s: State, r: nat, retryAfter: Option<Instant>, reset: Option<Instant>, clock: Instant, now: Instant)
    requires Timely(s, clock) && clock <= now
    ensures Timely(ObserveHold(s, r, retryAfter, reset), now)
  {
    var t := ObserveHold(s, r, retryAfter, reset);
    ObserveHoldKeepsValid(s, r, retryAfter, reset);
    ObserveHoldKeepsHolds(s, r, retryAfter, reset);
    forall b | 0 <= b < |t.buckets| ensures UsageAgrees(t.buckets[b], Grants(t, b), now) {
      GrantTimesAgree(s, t, b, |s.reservations|);
      UsageLater(s.buckets[b], Grants(s, b), clock, now);
    }
  }

  // ------------------------------------------------------------------ runs

  datatype Event =
    | ReserveEvent(q: Request, look: Lookups, at: Instant)
    | FinalizeEvent(r: nat, outcome: Status, at: Instant)
    | HoldEvent(r: nat, retryAfter: Option<Instant>, reset: Option<Instant>, at: Instant)

  function Apply(s: State, e: Event): State {
    match e
    case ReserveEvent(q, look, at) => Reserve(s, q, look, at).0
    case FinalizeEvent(r, outcome, at) => Finalize(s, r, outcome, at).0
    case HoldEvent(r, retryAfter, reset, _) => ObserveHold(s, r, retryAfter, reset)
  }

  function Run(s: State, events: seq<Event>): State {
    if events == [] then s else Apply(Run(s, events[..|events| - 1]), events[|events| - 1])
  }

  /** A run takes its steps one after the other, each the transaction it names. */
  lemma {:induction false} RunsCompose(s: State, a: seq<Event>, b: seq<Event>, e: Event)
    ensures Run(s, a + b) == Run(Run(s, a), b) && Run(s, []) == s
    ensures Run(s, [e])
         == match e
            case ReserveEvent(q, look, at) => Reserve(s, q, look, at).0
            case FinalizeEvent(r, outcome, at) => Finalize(s, r, outcome, at).0
            case HoldEvent(r, retryAfter, reset, _) => ObserveHold(s, r, retryAfter, reset)
    decreases |b|
  {
    assert [e][..0] == [];
    if b == [] {
      assert a + b == a;
    } else {
      assert (a + b)[..|a + b| - 1] == a + b[..|b| - 1];
      RunsCompose(s, a, b[..|b| - 1], e);
    }
  }

  ghost predicate ClockOrdered(events: seq<Event>) {
    forall i, j | 0 <= i < j < |events| :: events[i].at <= events[j].at
  }

  /** The tables before the first request: some policies are bound, nothing has been used. */
  function Initial(bindings: map<Scope, Policy>): State {
    State(bindings, [], [], map[], [])
  }

  function LastClock(events: seq<Event>): Instant {
    if events == [] then 0 else events[|events| - 1].at
  }

  lemma {:induction false} RunsAreTimely(bindings: map<Scope, Policy>, events: seq<Event>)
    requires ClockOrdered(events)
    ensures Timely(Run(Initial(bindings), events), LastClock(events))
  {
    if events != [] {
      var most := events[..|events| - 1];
      RunsAreTimely(bindings, most);
      var s := Run(Initial(bindings), most);
      var e := events[|events| - 1];
      var clock := if most == [] then e.at else LastClock(most);
      assert Timely(s, clock);
      StepKeepsTimely(s, e, clock);
    }
  }

  lemma StepKeepsTimely(s: State, e: Event, clock: Instant)
    requires Timely(s, clock) && clock <= e.at
    ensures Timely(Apply(s, e), e.at)
  {
    match e
    case ReserveEvent(q, look, at) => ReserveKeepsTimely(s, q, look, clock, at);
    case FinalizeEvent(r, outcome, at) => FinalizeKeepsTimely(s, r, outcome, clock, at);
    case HoldEvent(r, retryAfter, reset, at) => ObserveHoldKeepsTimely(s, r, retryAfter, reset, clock, at);
  }

  /** Grants on one bucket inside a closed interval, bounded by a window's invariant. */
  lemma WindowBoundsGrants(s: State, b: nat, start: Instant, count: int, period: int, limit: int, clock: Instant, from: Instant)
    requires Windowed(Grants(s, b), start, count, period, limit, clock) && 0 < limit
    ensures |GrantedIn(s, b, from, from + period)| <= 2 * limit
  {
    SlidingCount(Grants(s, b), period, limit, from);
    GrantedInIsCount(s, b, |s.reservations|, from, from + period);
  }

  /** Bucket `b` takes no more than `most` grants in the closed interval of length `span` from `from`. */
  ghost predicate AtMost(s: State, b: nat, from: Instant, span: int, most: int) {
    |GrantedIn(s, b, from, from + span)| <= most
  }

  lemma TimelyBounds(s: State, clock: Instant, b: nat, from: Instant)
    requires Timely(s, clock) && b < |s.buckets|
    ensures var p := s.buckets[b].policy;
      && AtMost(s, b, from, p.Period(), 2 * p.Limit())
      && (p.dailyBudget.Some? ==> AtMost(s, b, from, DAY, 2 * p.dailyBudget.value))
  {
    var bucket := s.buckets[b];
    assert UsageAgrees(bucket, Grants(s, b), clock);
    WindowBoundsGrants(s, b, bucket.windowStartedAt, bucket.requestCount, bucket.policy.Period(), bucket.policy.Limit(), clock, from);
    if bucket.policy.dailyBudget.Some? {
      WindowBoundsGrants(s, b, bucket.dailyStartedAt, bucket.dailyCount, DAY, bucket.policy.dailyBudget.value, clock, from);
    }
  }

  lemma {:induction false} RunBounds(bindings: map<Scope, Policy>, events: seq<Event>, b: nat, from: Instant)
    requires ClockOrdered(events) && b < |Run(Initial(bindings), events).buckets|
    ensures var s := Run(Initial(bindings), events); var p := s.buckets[b].policy;
      && AtMost(s, b, from, p.Period(), 2 * p.Limit())
      && (p.dailyBudget.Some? ==> AtMost(s, b, from, DAY, 2 * p.dailyBudget.value))
  {
    RunsAreTimely(bindings, events);
    TimelyBounds(Run(Initial(bindings), events), LastClock(events), b, from);
  }

  /** Every closed interval of one period holds at most twice the window limit of grants on a bucket. */
  lemma {:induction false} SlidingWindowBound(bindings: map<Scope, Policy>, events: seq<Event>, b: nat, from: Instant)
    requires ClockOrdered(events) && b < |Run(Initial(bindings), events).buckets|
    ensures var s := Run(Initial(bindings), events);
      var p := s.buckets[b].policy;
      |GrantedIn(s, b, from, from + p.Period())| <= 2 * (p.requestsPerPeriod + p.burstSize - 1)
  {
    RunBounds(bindings, events, b, from);
  }

  /** Every closed interval of one day holds at most twice the daily budget. */
  lemma {:induction false} DailyBudgetBound(bindings: map<Scope, Policy>, events: seq<Event>, b: nat, from: Instant)
    requires ClockOrdered(events) && b < |Run(Initial(bindings), events).buckets|
    requires Run(Initial(bindings), events).buckets[b].policy.dailyBudget.Some?
    ensures var s := Run(Initial(bindings), events);
      |GrantedIn(s, b, from, from + DAY)| <= 2 * s.buckets[b].policy.dailyBudget.value
  {
    RunBounds(bindings, events, b, from);
  }

  // ------------------------------------------------------------------ spacing between grants

  lemma {:induction false} GrantTimesGrow(s: State, b: nat, m: nat, n: nat)
    requires m <= n <= |s.reservations|
    ensures GrantTimes(s, b, m) <= GrantTimes(s, b, n)
    decreases n
  {
    if m < n {
      GrantTimesGrow(s, b, m, n - 1);
    }
  }

  lemma GrantPosition(s: State, b: nat, r: nat)
    requires r < |s.reservations| && (r, b) in s.memberships
    ensures var i := |GrantTimes(s, b, r)|;
      && i < |Grants(s, b)| && Grants(s, b)[i] == s.reservations[r].reservedAt
  {
    GrantTimesGrow(s, b, r + 1, |s.reservations|);
  }

  lemma SpacedApart(g: seq<Instant>, spacing: int, last: Option<Instant>, i: nat, j: nat)
    requires Ascending(g) && Spaced(g, spacing, last) && i < j < |g|
    ensures g[i] + spacing <= g[j]
  {
    assert g[i] + spacing <= g[i + 1];
  }

  lemma TimelyGrantsAreSpaced(s: State, clock: Instant, b: nat, r1: nat, r2: nat)
    requires Timely(s, clock) && b < |s.buckets|
    requires r1 < r2 < |s.reservations| && (r1, b) in s.memberships && (r2, b) in s.memberships
    ensures s.reservations[r1].reservedAt + s.buckets[b].policy.Spacing() <= s.reservations[r2].reservedAt
  {
    GrantPosition(s, b, r1);
    GrantPosition(s, b, r2);
    GrantTimesGrow(s, b, r1 + 1, r2);
    assert UsageAgrees(s.buckets[b], Grants(s, b), clock);
    SpacedApart(Grants(s, b), s.buckets[b].policy.Spacing(), s.buckets[b].lastRequestAt,
                |GrantTimes(s, b, r1)|, |GrantTimes(s, b, r2)|);
  }

  /** Two grants on one bucket are at least the policy's minimum spacing apart. */
  lemma {:induction false} GrantsAreSpaced(bindings: map<Scope, Policy>, events: seq<Event>, b: nat, r1: nat, r2: nat)
    requires ClockOrdered(events)
    requires var s := Run(Initial(bindings), events);
      b < |s.buckets| && r1 < r2 < |s.reservations| && (r1, b) in s.memberships && (r2, b) in s.memberships
    ensures var s := Run(Initial(bindings), events);
      s.reservations[r1].reservedAt + s.buckets[b].policy.Spacing() <= s.reservations[r2].reservedAt
  {
    RunsAreTimely(bindings, events);
    TimelyGrantsAreSpaced(Run(Initial(bindings), events), LastClock(events), b, r1, r2);
  }

  // ------------------------------------------------------------------ concurrency and holds

  /** At every moment the open memberships of a bucket number its counter and never exceed the cap. */
  lemma {:induction false} ConcurrencyBound(bindings: map<Scope, Policy>, events: seq<Event>, b: nat)
    requires ClockOrdered(events) && b < |Run(Initial(bindings), events).buckets|
    ensures var s := Run(Initial(bindings), events);
      && s.buckets[b].activeConcurrency
         == |set r: nat | r < |s.reservations| && (r, b) in s.memberships && s.reservations[r].status == Active|
      && s.buckets[b].activeConcurrency <= s.buckets[b].policy.maxConcurrency
  {
    RunsAreTimely(bindings, events);
    var s := Run(Initial(bindings), events);
    var active := set r: nat | r < |s.reservations| && (r, b) in s.memberships && s.reservations[r].status == Active;
    var open := OpenOn(s, b);
    assert forall k | k in open :: k.0 in active && k == (k.0, b);
    assert forall r | r in active :: (r, b) in open;
    PairsWithSameSecond(open, active, b);
    assert CountersInRange(s.buckets[b]);
  }

  lemma {:induction false} PairsWithSameSecond(pairs: set<(nat, nat)>, firsts: set<nat>, b: nat)
    requires forall k | k in pairs :: k.0 in firsts && k == (k.0, b)
    requires forall r | r in firsts :: (r, b) in pairs
    ensures |pairs| == |firsts|
    decreases |firsts|
  {
    if firsts != {} {
      var r :| r in firsts;
      PairsWithSameSecond(pairs - {(r, b)}, firsts - {r}, b);
    } else {
      assert pairs == {};
    }
  }

  /** A hold observed for a reservation is written down for every bucket the reservation used. */
  lemma {:induction false} HoldReachesEveryBucket(s: State, r: nat, retryAfter: Option<Instant>, reset: Option<Instant>, b: nat, n: nat)
    requires b < n && (r, b) in s.memberships
    ensures Observation(b, retryAfter, reset) in HoldRows(s, r, retryAfter, reset, n)
    decreases n
  {
    if b < n - 1 {
      HoldReachesEveryBucket(s, r, retryAfter, reset, b, n - 1);
    }
  }

  /** Getting the targets ready leaves the observations and every existing bucket's holds alone. */
  lemma PreparedKeepsHolds(s: State, q: Request, look: Lookups, now: Instant)
    requires EligibilityErrors(q, look).None?
    ensures var t := Swept(s, q, look, now);
      && Prepared(s, q, look, now).observations == s.observations
      && |s.buckets| <= |t.buckets|
      && forall b | 0 <= b < |s.buckets| ::
           && t.buckets[b].scope == s.buckets[b].scope
           && t.buckets[b].blockedUntil == s.buckets[b].blockedUntil
  {
    var targets := TargetsOf(q, look);
    EnsureBucketsProvides(s, targets, look.defaultPolicy.value, look.databaseClock);
    var s1 := EnsureBuckets(s, targets, look.defaultPolicy.value, look.databaseClock);
    SweepFrame(s1, targets, now, |s1.reservations|);
    var t := Swept(s, q, look, now);
    forall b | 0 <= b < |s.buckets|
      ensures t.buckets[b].scope == s.buckets[b].scope && t.buckets[b].blockedUntil == s.buckets[b].blockedUntil
    {
      assert s1.buckets[..|s.buckets|][b] == s1.buckets[b];
    }
  }

  lemma ObservationsPersist(s: State, e: Event)
    ensures s.observations <= Apply(s, e).observations
  {
    if e.ReserveEvent? && EligibilityErrors(e.q, e.look).None? {
      PreparedKeepsHolds(s, e.q, e.look, e.at);
    }
  }

  /** The buckets a granted request joins are the targeted ones. */
  lemma GrantJoinsTargets(s: State, targets: seq<Scope>, q: Request, now: Instant, b: nat)
    requires MembershipsWellFormed(s) && (|s.reservations|, b) in Grant(s, targets, q, now).memberships
    ensures b < |s.buckets| && s.buckets[b].scope in targets
  {
    GrantMemberships(s, targets, q, now);
    assert (|s.reservations|, b) !in s.memberships;
  }

  lemma GrantWaitsForHolds(s: State, q: Request, look: Lookups, now: Instant, o: Observation)
    requires Valid(s) && HoldsKept(s) && o in s.observations
    requires var (t, d) := Reserve(s, q, look, now);
      d.Success? && d.value.Reserved? && (d.value.reservation, o.bucket) in t.memberships
    ensures o.retryAfterAt.Some? ==> o.retryAfterAt.value <= now
    ensures o.providerResetAt.Some? ==> o.providerResetAt.value <= now
  {
    var targets := TargetsOf(q, look);
    var ready := Prepared(s, q, look, now);
    PreparedKeepsValid(s, q, look, now);
    GrantJoinsTargets(ready, targets, q, now, o.bucket);
    ReserveGrantsIff(s, q, look, now);
    PreparedKeepsHolds(s, q, look, now);
    var swept := Swept(s, q, look, now);
    assert swept.buckets[o.bucket].scope == ready.buckets[o.bucket].scope;
    assert Admits(swept.buckets[o.bucket], now);
  }

  /**
   Once a hold has been observed on a bucket, no later grant touches that bucket before the hold is over:
   whatever happened before and after the observation, a granted request finds every retry-after and
   provider-reset time recorded for its buckets in the past.
   */
  lemma {:induction false} HoldsAreRespected(bindings: map<Scope, Policy>, events: seq<Event>, q: Request, look: Lookups, now: Instant, o: Observation)
    requires ClockOrdered(events)
    requires o in Run(Initial(bindings), events).observations
    requires var (t, d) := Reserve(Run(Initial(bindings), events), q, look, now);
      d.Success? && d.value.Reserved? && (d.value.reservation, o.bucket) in t.memberships
    ensures o.retryAfterAt.Some? ==> o.retryAfterAt.value <= now
    ensures o.providerResetAt.Some? ==> o.providerResetAt.value <= now
  {
    RunsAreTimely(bindings, events);
    GrantWaitsForHolds(Run(Initial(bindings), events), q, look, now, o);
  }

  /** The sweep leaves no abandoned reservation on the targeted buckets. */
  lemma {:induction false} SweepClears(s: State, targets: seq<Scope>, now: Instant, n: nat, r: nat)
    requires r < n <= |s.reservations|
    ensures !Abandoned(SweepUpTo(s, targets, now, n), targets, now, r)
    decreases n
  {
    if r < n - 1 {
      SweepClears(s, targets, now, n - 1, r);
    }
  }

  /** The sweep expires exactly the abandoned reservations. */
  lemma {:induction false} SweepExpiresAbandoned(s: State, targets: seq<Scope>, now: Instant, n: nat, r: nat)
    requires r < |s.reservations| && n <= |s.reservations|
    ensures SweepUpTo(s, targets, now, n).reservations[r]
      == if r < n && Abandoned(s, targets, now, r)
         then s.reservations[r].(status := Expired, finalizedAt := Some(now)) else s.reservations[r]
    decreases n
  {
    if n > 0 {
      SweepExpiresAbandoned(s, targets, now, n - 1, r);
      SweepFrame(s, targets, now, n - 1);
      var before := SweepUpTo(s, targets, now, n - 1);
      if r == n - 1 {
        assert Abandoned(before, targets, now, r) <==> Abandoned(s, targets, now, r) by {
          assert forall b | 0 <= b < |s.buckets| :: before.buckets[b].scope == s.buckets[b].scope;
          assert before.reservations[r] == s.reservations[r];
        }
      }
    }
  }
}
