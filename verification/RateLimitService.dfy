/** The rate limiter as the service runs it: loops over the locked rows, updating the tables in place. */
module RateLimitService {
  import opened Prelude
  import opened RateLimitModel
  import Inv = RateLimitInvariants
  import Elig = RateLimitEligibility
  import Runs = RateLimitRuns

  class RateLimiter {
    var bindings: map<Scope, Policy>
    var buckets: seq<Bucket>
    var reservations: seq<Reservation>
    var memberships: map<(nat, nat), Option<Instant>>
    var observations: seq<Observation>

    function Tables(): State
      reads this
    {
      State(bindings, buckets, reservations, memberships, observations)
    }

    ghost predicate Valid()
      reads this
    {
      Inv.Valid(Tables())
    }

    constructor (policies: map<Scope, Policy>)
      ensures Tables() == Runs.Initial(policies) && Valid()
    {
      bindings, buckets, reservations, memberships, observations := policies, [], [], map[], [];
    }

    method EnsureTarget(scope: Scope, inherited: Policy, databaseClock: Instant)
      requires Valid()
      modifies this
      ensures Valid() && Tables() == EnsureBucket(old(Tables()), scope, inherited, databaseClock)
    {
      Inv.EnsureBucketKeepsValid(Tables(), scope, inherited, databaseClock);
      if scope !in bindings {
        bindings := bindings[scope := inherited];
      }
      if !HasBucket(Tables(), scope) {
        buckets := buckets + [NewBucket(scope, bindings[scope], databaseClock)];
      }
    }

    method EnsureDefaultBuckets(targets: seq<Scope>, inherited: Policy, databaseClock: Instant)
      requires Valid()
      modifies this
      ensures Valid() && Tables() == EnsureBuckets(old(Tables()), targets, inherited, databaseClock)
    {
      for i := 0 to |targets|
        invariant Valid() && Tables() == EnsureBuckets(old(Tables()), targets[..i], inherited, databaseClock)
      {
        assert targets[..i + 1][..i] == targets[..i];
        EnsureTarget(targets[i], inherited, databaseClock);
      }
      assert targets[..|targets|] == targets;
    }

    /** Give back the slots of every unreleased membership, then stamp the rows. */
    method ReleaseReservation(r: nat, status: Status, now: Instant)
      requires Valid() && r < |reservations| && reservations[r].status == Active && status != Active
      modifies this`buckets, this`reservations, this`memberships
      ensures Valid() && Tables() == Release(old(Tables()), r, status, now)
    {
      Inv.ReleaseKeepsValid(Tables(), r, status, now);
      ghost var goal := Release(Tables(), r, status, now);
      for b := 0 to |buckets|
        invariant |buckets| == |old(buckets)| && Tables() == old(Tables()).(buckets := buckets)
        invariant forall i | 0 <= i < b :: buckets[i] == goal.buckets[i]
        invariant forall i | b <= i < |buckets| :: buckets[i] == old(buckets[i])
      {
        if (r, b) in memberships && memberships[(r, b)].None? {
          buckets := buckets[b := buckets[b].(activeConcurrency := Max(0, buckets[b].activeConcurrency - 1))];
        }
      }
      memberships := map k | k in memberships :: if k.0 == r && memberships[k].None? then Some(now) else memberships[k];
      reservations := reservations[r := reservations[r].(status := status, finalizedAt := Some(now))];
      assert buckets == goal.buckets;
    }

    method ExpireAbandoned(targets: seq<Scope>, now: Instant)
      requires Valid()
      modifies this`buckets, this`reservations, this`memberships
      ensures Valid() && Tables() == Sweep(old(Tables()), targets, now)
    {
      for r := 0 to |reservations|
        invariant Valid() && |reservations| == |old(reservations)|
        invariant Tables() == SweepUpTo(old(Tables()), targets, now, r)
      {
        if Abandoned(Tables(), targets, now, r) {
          ReleaseReservation(r, Expired, now);
        }
      }
    }

    /** Start the windows that are over anew; a caller sees current windows and the same moments of admission. */
    static method RefreshWindows(row: Bucket, now: Instant) returns (bucket: Bucket)
      ensures bucket == Refreshed(row, now)
      ensures Elig.Current(bucket, now) && (Elig.Current(row, now) ==> bucket == row)
      ensures bucket.requestCount != row.requestCount ==> bucket.requestCount == 0 && row.windowStartedAt + row.policy.Period() <= now
      ensures bucket.dailyCount != row.dailyCount ==> bucket.dailyCount == 0 && row.dailyStartedAt + DAY <= now
      ensures forall t | now <= t :: Elig.Admits(bucket, t) <==> Elig.Admits(row, t)
    {
      Elig.RollingOnlyForgets(row, now);
      bucket := row;
      if bucket.windowStartedAt + bucket.policy.Period() <= now {
        bucket := bucket.(windowStartedAt := now, requestCount := 0);
      }
      if bucket.dailyStartedAt + DAY <= now {
        bucket := bucket.(dailyStartedAt := now, dailyCount := 0);
      }
    }

    /**
     The latest of the bucket's waiting times, if it has any. With current windows that is the first moment at which
     everything but concurrency lets a request through, unless all slots are taken.
     */
    static method NextEligibleAt(bucket: Bucket, now: Instant) returns (eligible: Option<Instant>)
      ensures eligible == NextEligible(bucket, now)
      ensures Elig.Current(bucket, now) ==> (eligible.None? <==> Elig.Admits(bucket, now) && Elig.HasSlot(bucket))
      ensures Elig.Current(bucket, now) && eligible.Some? ==> now < eligible.value
      ensures Elig.Current(bucket, now) && eligible.Some? ==> forall t | eligible.value <= t :: Elig.Admits(bucket, t)
      ensures Elig.Current(bucket, now) && eligible.Some? && Elig.HasSlot(bucket) ==>
        forall t | now <= t < eligible.value :: !Elig.Admits(bucket, t)
    {
      if Elig.Current(bucket, now) {
        Elig.ReportedTimeIsExact(bucket, now);
      }
      var candidates := StillAhead(bucket.blockedUntil, now);
      candidates := candidates + StillAhead(bucket.providerResetAt, now);
      candidates := candidates + When(bucket.activeConcurrency >= bucket.policy.maxConcurrency, now + SECOND);
      candidates := candidates
        + When(bucket.requestCount >= bucket.policy.Limit(), bucket.windowStartedAt + bucket.policy.Period());
      if bucket.policy.dailyBudget.Some? {
        candidates := candidates
          + When(bucket.dailyCount >= bucket.policy.dailyBudget.value, bucket.dailyStartedAt + DAY);
      }
      if bucket.lastRequestAt.Some? {
        candidates := candidates + StillAhead(Some(bucket.lastRequestAt.value + bucket.policy.Spacing()), now);
      }
      assert candidates == Candidates(bucket, now);
      eligible := if candidates == [] then None else Some(MaxOf(candidates));
    }

    static method Consider(row: Bucket, b: nat, best: Option<(nat, Instant)>, now: Instant)
      returns (bucket: Bucket, controlling: Option<(nat, Instant)>)
      ensures bucket == Refreshed(row, now) && controlling == Better(best, b, NextEligible(bucket, now))
    {
      bucket := RefreshWindows(row, now);
      var eligible := NextEligibleAt(bucket, now);
      controlling := best;
      if eligible.Some? && (best.None? || eligible.value > best.value.1) {
        controlling := Some((b, eligible.value));
      }
    }

    /** Roll every targeted bucket's windows and remember the one that keeps the request waiting longest. */
    static method RollRows(s: State, targets: seq<Scope>, now: Instant)
      returns (rows: seq<Bucket>, controlling: Option<(nat, Instant)>)
      ensures rows == RefreshAll(s, targets, now).buckets
      ensures controlling == Controlling(RefreshAll(s, targets, now), targets, now)
    {
      ghost var goal := RefreshAll(s, targets, now);
      rows, controlling := s.buckets, None;
      for b := 0 to |s.buckets|
        invariant Rolled(rows, s.buckets, goal.buckets, b)
        invariant controlling == Latest(Waits(goal, targets, now), b)
      {
        OneMoreWait(s, targets, now, b);
        OneMoreRolled(rows, s.buckets, goal.buckets, b);
        if rows[b].scope in targets {
          var bucket;
          bucket, controlling := Consider(rows[b], b, controlling, now);
          rows := rows[b := bucket];
        }
      }
      assert rows == goal.buckets;
    }

    method SelectControlling(targets: seq<Scope>, now: Instant) returns (controlling: Option<(nat, Instant)>)
      modifies this`buckets
      ensures Tables() == RefreshAll(old(Tables()), targets, now)
      ensures controlling == Controlling(Tables(), targets, now)
    {
      buckets, controlling := RollRows(Tables(), targets, now);
    }

    method ChargeTargets(targets: seq<Scope>, q: Request, now: Instant) returns (r: nat)
      modifies this`buckets, this`reservations, this`memberships
      ensures Tables() == Grant(old(Tables()), targets, q, now) && r == |old(reservations)|
    {
      ghost var goal := Grant(Tables(), targets, q, now);
      r := |reservations|;
      reservations := reservations + [Reservation(q.runId, q.identity, Active, now, now + q.ttl, None)];
      for b := 0 to |buckets|
        invariant |buckets| == |old(buckets)| && reservations == goal.reservations
        invariant forall i | 0 <= i < b :: buckets[i] == goal.buckets[i]
        invariant forall i | b <= i < |buckets| :: buckets[i] == old(buckets[i])
        invariant memberships == Joined(old(Tables()), targets, r, b)
      {
        if buckets[b].scope in targets {
          buckets := buckets[b := Charged(buckets[b], now)];
          memberships := memberships[(r, b) := None];
        }
      }
      assert buckets == goal.buckets;
    }

    method FindExisting(q: Request) returns (found: Option<nat>)
      ensures found == FindReservation(reservations, q)
    {
      var n := |reservations|;
      assert reservations[..n] == reservations;
      while n > 0
        invariant 0 <= n <= |reservations| && FindReservation(reservations, q) == FindReservation(reservations[..n], q)
      {
        assert reservations[..n][..n - 1] == reservations[..n - 1];
        if Matches(reservations[n - 1], q) {
          return Some(n - 1);
        }
        n := n - 1;
      }
      found := None;
    }

    /** Create what is missing, sweep what is abandoned, roll the windows and pick the controlling bucket. */
    method PrepareTargets(q: Request, look: Lookups, now: Instant) returns (controlling: Option<(nat, Instant)>)
      requires Valid() && EligibilityErrors(q, look).None?
      modifies this
      ensures Valid() && Tables() == Prepared(old(Tables()), q, look, now)
      ensures controlling == Controlling(Tables(), TargetsOf(q, look), now)
    {
      var targets := TargetsOf(q, look);
      EnsureDefaultBuckets(targets, look.defaultPolicy.value, look.databaseClock);
      ExpireAbandoned(targets, now);
      Inv.RefreshAllKeepsValid(Tables(), targets, now);
      controlling := SelectControlling(targets, now);
    }

    method Restore(saved: State)
      modifies this
      ensures Tables() == saved
    {
      bindings, buckets, reservations := saved.bindings, saved.buckets, saved.reservations;
      memberships, observations := saved.memberships, saved.observations;
    }

    /** One transaction: all targeted buckets authorise the request together or nothing is reserved. */
    method Reserve(q: Request, look: Lookups, now: Instant) returns (d: Result<Decision, Error>)
      requires Valid()
      modifies this
      ensures Valid() && (Tables(), d) == RateLimitModel.Reserve(old(Tables()), q, look, now)
    {
      if q.ttl <= 0 {
        return Failure(InvalidTtl);
      }
      var found := FindExisting(q);
      if found.Some? {
        return Success(Replayed(found.value, reservations[found.value].status == Active));
      }
      var error := EligibilityErrors(q, look);
      if error.Some? {
        return Failure(error.value);
      }
      var saved := Tables();
      var controlling := PrepareTargets(q, look, now);
      if controlling.Some? {
        var (b, eligible) := controlling.value;
        Runs.MarkingKeepsValid(Tables(), b, eligible);
        buckets := buckets[b := buckets[b].(nextEligibleAt := Some(eligible))];
        return Success(Delayed(buckets[b].scope, eligible));
      }
      if look.runEndpoint != Some(q.endpointId) {
        // The raised error aborts the transaction.
        Restore(saved);
        return Failure(ForeignRun);
      }
      Runs.ReserveGrantKeepsValid(saved, q, look, now);
      var r := ChargeTargets(TargetsOf(q, look), q, now);
      d := Success(Reserved(r));
    }

    method Finalize(r: nat, outcome: Status, now: Instant) returns (d: Result<Reservation, Error>)
      requires Valid()
      modifies this
      ensures Valid() && (Tables(), d) == RateLimitModel.Finalize(old(Tables()), r, outcome, now)
    {
      if outcome != Completed && outcome != Failed {
        return Failure(InvalidOutcome);
      }
      if r >= |reservations| {
        return Failure(NoSuchReservation);
      }
      if reservations[r].status == Active {
        ReleaseReservation(r, outcome, now);
      }
      d := Success(reservations[r]);
    }

    /** The latest of the bucket's hold and the two observed ones; a provider reset is also recorded as such. */
    method ExtendHold(bucket: Bucket, retryAfter: Option<Instant>, reset: Option<Instant>) returns (held: Bucket)
      ensures held == Held(bucket, retryAfter, reset)
    {
      var hold := bucket.blockedUntil;
      if retryAfter.Some? && (hold.None? || hold.value < retryAfter.value) {
        hold := retryAfter;
      }
      if reset.Some? && (hold.None? || hold.value < reset.value) {
        hold := reset;
      }
      held := bucket.(blockedUntil := hold);
      if reset.Some? {
        held := held.(providerResetAt := reset);
      }
    }

    method ObserveHold(r: nat, retryAfter: Option<Instant>, reset: Option<Instant>)
      requires Valid()
      modifies this`buckets, this`observations
      ensures Valid() && Tables() == RateLimitModel.ObserveHold(old(Tables()), r, retryAfter, reset)
    {
      ghost var before := Tables();
      RecordHolds(r, retryAfter, reset);
      Runs.ObserveHoldKeepsValid(before, r, retryAfter, reset);
    }

    method RecordHolds(r: nat, retryAfter: Option<Instant>, reset: Option<Instant>)
      modifies this`buckets, this`observations
      ensures Tables() == RateLimitModel.ObserveHold(old(Tables()), r, retryAfter, reset)
    {
      ghost var before := Tables();
      ghost var goal := RateLimitModel.ObserveHold(before, r, retryAfter, reset);
      for b := 0 to |buckets|
        invariant |buckets| == |old(buckets)|
        invariant forall i | 0 <= i < b :: buckets[i] == goal.buckets[i]
        invariant forall i | b <= i < |buckets| :: buckets[i] == old(buckets[i])
        invariant observations == old(observations) + HoldRows(before, r, retryAfter, reset, b)
      {
        if (r, b) in memberships {
          var held := ExtendHold(buckets[b], retryAfter, reset);
          buckets := buckets[b := held];
          observations := observations + [Observation(b, retryAfter, reset)];
        }
      }
      assert buckets == goal.buckets;
    }
  }

  /** The first `n` rows are as they will be, the others as they were. */
  ghost predicate Rolled(rows: seq<Bucket>, before: seq<Bucket>, after: seq<Bucket>, n: nat) {
    && |rows| == |before| == |after|
    && (forall i | 0 <= i < n && i < |rows| :: rows[i] == after[i])
    && (forall i | n <= i < |rows| :: rows[i] == before[i])
  }

  lemma OneMoreRolled(rows: seq<Bucket>, before: seq<Bucket>, after: seq<Bucket>, n: nat)
    requires Rolled(rows, before, after, n) && n < |rows|
    ensures rows[n] == before[n] && Rolled(rows[n := after[n]], before, after, n + 1)
    ensures before[n] == after[n] ==> Rolled(rows, before, after, n + 1)
  {
  }

  /** How the search for the controlling bucket goes on with bucket `b`. */
  lemma OneMoreWait(s: State, targets: seq<Scope>, now: Instant, b: nat)
    requires b < |s.buckets|
    ensures var goal := RefreshAll(s, targets, now); var waits := Waits(goal, targets, now); var row := s.buckets[b];
      && |goal.buckets| == |waits| == |s.buckets|
      && goal.buckets[b] == (if row.scope in targets then Refreshed(row, now) else row)
      && Latest(waits, b + 1)
         == if row.scope in targets then Better(Latest(waits, b), b, NextEligible(Refreshed(row, now), now)) else Latest(waits, b)
  {
  }
}
