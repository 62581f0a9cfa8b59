/** What each delivery transaction leaves behind, field by field, and how the retry delays grow. */
module AlertDeliveryOutcomes {
  import opened Prelude
  import opened AlertDelivery

  // ------------------------------------------------------------------ delays

  /** Without a header the first delay is the base and each further attempt of the cycle doubles it, up to the maximum. */
  lemma DelayDoubles(d: Delivery, now: Instant)
    ensures d.cycleAttemptCount <= 1 ==> RetryDelay(d, NoHeader, now) == d.settings.retryBaseSeconds
    ensures d.cycleAttemptCount >= 1 ==>
      RetryDelay(d.(cycleAttemptCount := d.cycleAttemptCount + 1), NoHeader, now)
      == Min(2 * RetryDelay(d, NoHeader, now), d.settings.retryMaxSeconds)
  {
    var next := d.(cycleAttemptCount := d.cycleAttemptCount + 1);
    if d.cycleAttemptCount <= 1 {
      assert Pow2(0) == 1;
    }
    if d.cycleAttemptCount >= 1 {
      assert Pow2(d.cycleAttemptCount) == 2 * Pow2(d.cycleAttemptCount - 1);
      BackoffAtLeastBase(d);
      TwiceOver(d.settings.retryBaseSeconds, Pow2(d.cycleAttemptCount - 1));
      assert Backoff(next) == 2 * Backoff(d);
    }
  }

  lemma TwiceOver(base: int, factor: int)
    ensures base * (2 * factor) == 2 * (base * factor)
  {
  }

  /** The whole seconds of a span, counted toward zero. */
  predicate WholeSeconds(span: int, n: int) {
    if span >= 0 then n * 1_000_000 <= span < (n + 1) * 1_000_000 else (n - 1) * 1_000_000 < span <= n * 1_000_000
  }

  /** A header can only raise the delay, to the seconds it names or the whole seconds up to its date, and never past the maximum. */
  lemma HeaderRaisesDelay(d: Delivery, header: RetryAfter, now: Instant, n: int)
    ensures var plain := RetryDelay(d, NoHeader, now); var limit := d.settings.retryMaxSeconds;
      match header
      case NoHeader => true
      case Malformed => RetryDelay(d, header, now) == plain
      case Seconds(asked) => RetryDelay(d, header, now) == Min(Max(plain, asked), limit)
      case HttpDate(at) => WholeSeconds(at - now, n) ==> RetryDelay(d, header, now) == Min(Max(plain, n), limit)
  {
    if header.HttpDate? && WholeSeconds(header.at - now, n) {
      assert TruncatedSeconds(header.at - now) == n;
    }
  }

  // ------------------------------------------------------------------ finalizing

  /** The row that ran, as the outcome leaves it. */
  function Ran(a: Attempt, outcome: Outcome, http: Option<int>, now: Instant): Attempt {
    Attempt(a.number, a.token,
            match outcome case Accepted => Succeeded case Retryable => RetryableFailed case Permanent => PermanentlyFailed,
            a.startedAt, Some(now), http)
  }

  /**
   Finalizing under the current token: an accepted request delivers, a retryable one with budget left is scheduled after
   its delay, everything else gives up for good; the attempt that ran carries its outcome, HTTP status and time, the claim
   is given back, and nothing else moves.
   */
  lemma FinalizeExactly(d: Delivery, token: Token, outcome: Outcome, http: Option<int>, header: RetryAfter, clock: Instant, now: Instant)
    requires Valid(d, clock) && d.claimToken == Some(token)
    ensures var (t, f) := Finalize(d, token, outcome, http, header, now);
      var last := |d.attempts| - 1; var again := outcome == Retryable && d.cycleAttemptCount < d.settings.maxAttempts;
      && last >= 0 && d.attempts[last].token == token
      && t.status == (if outcome == Accepted then Delivered else if again then RetryScheduled else PermanentFailure)
      && t.nextAttemptAt == (if again then Some(now + RetryDelay(d, header, now) * 1_000_000) else None)
      && t.deliveredAt == (if outcome == Accepted then Some(now) else d.deliveredAt)
      && t.claimedAt.None? && t.claimExpiresAt.None? && t.claimToken.None?
      && t.attempts == d.attempts[last := Ran(d.attempts[last], outcome, http, now)]
      && t.settings == d.settings && t.attemptCount == d.attemptCount && t.cycleAttemptCount == d.cycleAttemptCount
      && t.lastAttemptAt == d.lastAttemptAt
      && f == Recorded(t.status, d.attempts[last].number)
  {
    RunningIsNewest(d, clock);
  }

  /** Any other token is superseded and changes nothing. */
  lemma FinalizeRefused(d: Delivery, token: Token, outcome: Outcome, http: Option<int>, header: RetryAfter, clock: Instant, now: Instant)
    requires Valid(d, clock) && d.claimToken != Some(token)
    ensures Finalize(d, token, outcome, http, header, now) == (d, ClaimSuperseded)
  {
  }

  /** No operator's retry of an active destination among the events. */
  predicate Unattended(events: seq<Event>) {
    forall k | 0 <= k < |events| :: events[k].RetryEvent? ==> !events[k].active
  }

  /** A delivery that is delivered, given up or cancelled stays so until an operator retries it: nothing claims or sends it. */
  lemma {:induction false} TerminalUntilRetried(d: Delivery, events: seq<Event>, active: bool, token: Token, now: Instant)
    requires d.status in {Delivered, PermanentFailure, Cancelled} && Unattended(events)
    ensures Run(d, events) == d && Prepare(Run(d, events), active, token, now) == (d, Terminal(d.status))
  {
    if events != [] {
      TerminalUntilRetried(d, events[..|events| - 1], active, token, now);
    }
  }

  /** After a permanent outcome no preparation claims the delivery until a manual retry is accepted. */
  lemma {:induction false} PermanentIsFinal(d: Delivery, token: Token, http: Option<int>, header: RetryAfter, clock: Instant, now: Instant,
                                            events: seq<Event>, active: bool, unused: Token, later: Instant)
    requires Valid(d, clock) && d.claimToken == Some(token) && Unattended(events)
    ensures var t := Finalize(d, token, Permanent, http, header, now).0;
      && t.status == PermanentFailure && Run(t, events) == t
      && Prepare(Run(t, events), active, unused, later) == (t, Terminal(PermanentFailure))
  {
    FinalizeExactly(d, token, Permanent, http, header, clock, now);
    TerminalUntilRetried(Finalize(d, token, Permanent, http, header, now).0, events, active, unused, later);
  }

  // ------------------------------------------------------------------ preparing

  /** The attempts once the claim that ran out has been closed. */
  function Recovered(d: Delivery, now: Instant): seq<Attempt> {
    if d.status != Processing || d.attempts == [] then d.attempts
    else
      var last := |d.attempts| - 1;
      d.attempts[last := d.attempts[last].(status := RetryableFailed, completedAt := Some(now))]
  }

  /** The delivery is due: its schedule or its claim has run out. */
  predicate Ripe(d: Delivery, now: Instant) {
    match d.status
    case Processing => d.claimExpiresAt.Some? && d.claimExpiresAt.value <= now
    case Delivered => false
    case PermanentFailure => false
    case Cancelled => false
    case _ => d.nextAttemptAt.None? || d.nextAttemptAt.value <= now
  }

  /** Nothing is prepared unless it is ripe, and then the answer says why. */
  lemma UnripeIsLeft(d: Delivery, active: bool, token: Token, clock: Instant, now: Instant)
    requires Valid(d, clock) && !Ripe(d, now)
    ensures Prepare(d, active, token, now)
         == (d, match d.status
                case Processing => AlreadyProcessing
                case Pending => NotDue
                case RetryScheduled => NotDue
                case _ => Terminal(d.status))
  {
  }

  lemma RecoveredIsClosed(d: Delivery, clock: Instant, now: Instant)
    requires Valid(d, clock)
    ensures CloseStale(d, now) == d.(attempts := Recovered(d, now))
  {
    if d.status == Processing {
      RunningIsNewest(d, clock);
    }
  }

  /**
   A ripe delivery is cancelled with an inactive destination, given up when its cycle's budget is spent, and claimed
   otherwise, each time after the claim that ran out was closed; a token used before aborts the transaction.
   */
  lemma PrepareExactly(d: Delivery, active: bool, token: Token, clock: Instant, now: Instant)
    requires Valid(d, clock) && Ripe(d, now)
    ensures var (t, p) := Prepare(d, active, token, now);
      var spent := d.cycleAttemptCount >= d.settings.maxAttempts;
      if !active || spent then
        && p == (if !active then CancelledInactive else BudgetExhausted)
        && t == d.(status := if !active then Cancelled else PermanentFailure, nextAttemptAt := None, claimedAt := None,
                   claimExpiresAt := None, claimToken := None, attempts := Recovered(d, now))
      else if exists i | 0 <= i < |d.attempts| :: d.attempts[i].token == token then (t, p) == (d, DuplicateToken)
      else
        && p == Claimed(token, d.attemptCount + 1)
        && t == d.(status := Processing, attemptCount := d.attemptCount + 1, cycleAttemptCount := d.cycleAttemptCount + 1,
                   nextAttemptAt := None, claimedAt := Some(now),
                   claimExpiresAt := Some(now + Max(120, d.settings.timeoutSeconds + 30) * 1_000_000), claimToken := Some(token),
                   lastAttemptAt := Some(now),
                   attempts := Recovered(d, now) + [Attempt(d.attemptCount + 1, token, Running, now, None, None)])
  {
    RecoveredIsClosed(d, clock, now);
    var current := d.(attempts := Recovered(d, now));
    assert TokenUsed(current, token) <==> exists i | 0 <= i < |d.attempts| :: d.attempts[i].token == token by {
      CloseStaleKeepsRest(d, now);
    }
  }

  /** An accepted manual retry starts a new cycle at once and keeps the history. */
  lemma RetryExactly(d: Delivery, active: bool, now: Instant)
    ensures var (t, accepted) := Retry(d, active, now);
      && (accepted <==> active && d.status != Processing && d.status != Delivered)
      && t == if accepted then
                d.(status := Pending, cycleAttemptCount := 0, nextAttemptAt := Some(now), claimedAt := None, claimExpiresAt := None,
                   claimToken := None, deliveredAt := None)
              else d
  {
  }
}
