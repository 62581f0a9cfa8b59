/** The delivery row and its attempt log as the workers update them in place. */
module AlertDeliveryService {
  import opened Prelude
  import opened AlertDelivery

  class DeliveryRow {
    const settings: Settings
    var status: Status
    var attemptCount: int
    var cycleAttemptCount: int
    var nextAttemptAt: Option<Instant>
    var claimedAt: Option<Instant>
    var claimExpiresAt: Option<Instant>
    var claimToken: Option<Token>
    var lastAttemptAt: Option<Instant>
    var deliveredAt: Option<Instant>
    var attempts: seq<Attempt>

    ghost function Row(): Delivery
      reads this
    {
      Delivery(settings, status, attemptCount, cycleAttemptCount, nextAttemptAt, claimedAt, claimExpiresAt,
               claimToken, lastAttemptAt, deliveredAt, attempts)
    }

    constructor (settings: Settings, now: Instant)
      ensures Row() == Created(settings, now) && Valid(Row(), now)
    {
      this.settings := settings;
      status, attemptCount, cycleAttemptCount, nextAttemptAt := Pending, 0, 0, Some(now);
      claimedAt, claimExpiresAt, claimToken := None, None, None;
      lastAttemptAt, deliveredAt, attempts := None, None, [];
    }

    method FindRunning(token: Token) returns (found: Option<nat>)
      ensures found == RunningAttempt(attempts, token)
    {
      var n := |attempts|;
      assert attempts[..n] == attempts;
      while n > 0
        invariant 0 <= n <= |attempts|
        invariant RunningAttempt(attempts, token) == RunningAttempt(attempts[..n], token)
      {
        assert attempts[..n][..n - 1] == attempts[..n - 1];
        if attempts[n - 1].token == token && attempts[n - 1].status == Running {
          return Some(n - 1);
        }
        n := n - 1;
      }
      found := None;
    }

    method ReleaseClaim(newStatus: Status)
      modifies this`status, this`nextAttemptAt, this`claimedAt, this`claimExpiresAt, this`claimToken
      ensures Row() == Unclaimed(old(Row()), newStatus)
    {
      status, nextAttemptAt := newStatus, None;
      claimedAt, claimExpiresAt, claimToken := None, None, None;
    }

    /** Recover the attempt of a claim that ran out. */
    method CloseStaleClaim(now: Instant)
      modifies this`attempts
      ensures Row() == CloseStale(old(Row()), now)
    {
      if status == Processing && claimToken.Some? {
        var stale := FindRunning(claimToken.value);
        if stale.Some? {
          attempts := attempts[stale.value := attempts[stale.value].(status := RetryableFailed, completedAt := Some(now))];
        }
      }
    }

    method TakeClaim(token: Token, now: Instant) returns (number: int)
      modifies this
      ensures Row() == Claim(old(Row()), token, now) && number == old(attemptCount) + 1
    {
      number := attemptCount + 1;
      status := Processing;
      attemptCount := number;
      cycleAttemptCount := cycleAttemptCount + 1;
      nextAttemptAt := None;
      claimedAt := Some(now);
      claimExpiresAt := Some(now + Max(CLAIM_LEASE_SECONDS, settings.timeoutSeconds + 30) * SECOND);
      claimToken := Some(token);
      lastAttemptAt := Some(now);
      attempts := attempts + [Attempt(number, token, Running, now, None, None)];
    }

    method PrepareDelivery(active: bool, token: Token, now: Instant) returns (p: Prepared)
      modifies this
      ensures (Row(), p) == Prepare(old(Row()), active, token, now)
    {
      if status in {Delivered, PermanentFailure, Cancelled} {
        return Terminal(status);
      }
      if status in {Pending, RetryScheduled} && nextAttemptAt.Some? && nextAttemptAt.value > now {
        return NotDue;
      }
      if status == Processing && (claimExpiresAt.None? || claimExpiresAt.value > now) {
        return AlreadyProcessing;
      }
      var unmodified := attempts;
      CloseStaleClaim(now);
      if !active {
        ReleaseClaim(Cancelled);
        return CancelledInactive;
      }
      if cycleAttemptCount >= settings.maxAttempts {
        ReleaseClaim(PermanentFailure);
        return BudgetExhausted;
      }
      if exists i | 0 <= i < |attempts| :: attempts[i].token == token {
        // The unique index on (delivery, claim token) aborts the transaction.
        attempts := unmodified;
        return DuplicateToken;
      }
      var number := TakeClaim(token, now);
      p := Claimed(token, number);
    }

    method RetryDelaySeconds(header: RetryAfter, now: Instant) returns (delay: int)
      requires 0 <= cycleAttemptCount
      ensures delay == RetryDelay(Row(), header, now)
      ensures settings.retryBaseSeconds <= delay <= settings.retryMaxSeconds
    {
      RetryDelayExact(Row(), header, now);
      var factor, n := 1, 0;
      while n < cycleAttemptCount - 1
        invariant 0 <= n <= Max(cycleAttemptCount - 1, 0) && factor == Pow2(n)
      {
        factor, n := 2 * factor, n + 1;
      }
      delay := Min(settings.retryBaseSeconds * factor, settings.retryMaxSeconds);
      match header {
        case Seconds(asked) => delay := Max(delay, asked);
        case HttpDate(at) => delay := Max(delay, TruncatedSeconds(at - now));
        case NoHeader =>
        case Malformed =>
      }
      delay := Min(delay, settings.retryMaxSeconds);
    }

    method CompleteAttempt(i: nat, outcome: Outcome, http: Option<int>, now: Instant)
      requires i < |attempts|
      modifies this`attempts, this`nextAttemptAt, this`claimedAt, this`claimExpiresAt, this`claimToken
      ensures Row() == Completed(old(Row()), i, outcome, http, now)
    {
      attempts := attempts[i := attempts[i].(status := AttemptVerdict(outcome), completedAt := Some(now), httpStatus := http)];
      nextAttemptAt := None;
      claimedAt, claimExpiresAt, claimToken := None, None, None;
    }

    method Decide(outcome: Outcome, header: RetryAfter, now: Instant)
      requires 0 <= cycleAttemptCount
      modifies this`status, this`nextAttemptAt, this`deliveredAt
      ensures Row() == Decided(old(Row()), outcome, header, now)
    {
      if outcome == Accepted {
        status := Delivered;
        deliveredAt := Some(now);
      } else if outcome == Retryable && cycleAttemptCount < settings.maxAttempts {
        var delay := RetryDelaySeconds(header, now);
        status := RetryScheduled;
        nextAttemptAt := Some(now + delay * SECOND);
      } else {
        status := PermanentFailure;
      }
    }

    method FinalizeDelivery(token: Token, outcome: Outcome, http: Option<int>, header: RetryAfter, now: Instant)
      returns (f: Finalized)
      requires 0 <= cycleAttemptCount
      modifies this
      ensures (Row(), f) == Finalize(old(Row()), token, outcome, http, header, now)
    {
      if status != Processing || claimToken != Some(token) {
        return ClaimSuperseded;
      }
      var running := FindRunning(token);
      if running.None? {
        return AttemptMissing;
      }
      var number := attempts[running.value].number;
      CompleteAttempt(running.value, outcome, http, now);
      Decide(outcome, header, now);
      f := Recorded(status, number);
    }

    method RetryDelivery(active: bool, now: Instant) returns (accepted: bool)
      modifies this
      ensures (Row(), accepted) == Retry(old(Row()), active, now)
    {
      if status == Processing || status == Delivered || !active {
        return false;
      }
      status := Pending;
      cycleAttemptCount := 0;
      nextAttemptAt := Some(now);
      claimedAt, claimExpiresAt, claimToken := None, None, None;
      deliveredAt := None;
      accepted := true;
    }
  }
}
