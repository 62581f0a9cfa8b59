/**
 One alert delivery: a row with a claim, a schedule and counters, and the append-only log of its
 HTTP attempts. Workers prepare and finalize it; an operator may retry it by hand.
 */
module AlertDelivery {
  import opened Prelude

  const CLAIM_LEASE_SECONDS: int := 120

  datatype Status = Pending | Processing | RetryScheduled | Delivered | PermanentFailure | Cancelled

  datatype AttemptStatus = Running | Succeeded | RetryableFailed | PermanentlyFailed

  type Token = int

  datatype Attempt = Attempt(
    number: int,
    token: Token,
    status: AttemptStatus,
    startedAt: Instant,
    completedAt: Option<Instant>,
    httpStatus: Option<int>
  )

  /** The routing snapshot and retry policy of the delivery. */
  datatype SettingsRow = SettingsRow(
    maxAttempts: int,
    retryBaseSeconds: int,
    retryMaxSeconds: int,
    timeoutSeconds: int
  )

  /** Settings that satisfy the table's CHECK constraints. */
  type Settings = s: SettingsRow |
      && 1 <= s.maxAttempts <= 20
      && 1 <= s.retryBaseSeconds <= 86_400
      && s.retryBaseSeconds <= s.retryMaxSeconds <= 604_800
      && 1 <= s.timeoutSeconds <= 60
    witness SettingsRow(1, 1, 1, 1)

  datatype Delivery = Delivery(
    settings: Settings,
    status: Status,
    attemptCount: int,
    cycleAttemptCount: int,
    nextAttemptAt: Option<Instant>,
    claimedAt: Option<Instant>,
    claimExpiresAt: Option<Instant>,
    claimToken: Option<Token>,
    lastAttemptAt: Option<Instant>,
    deliveredAt: Option<Instant>,
    attempts: seq<Attempt>
  )

  /** What `_prepare_delivery` reports. */
  datatype Prepared =
    | Terminal(status: Status)
    | NotDue
    | AlreadyProcessing
    | CancelledInactive
    | BudgetExhausted
    | Claimed(token: Token, number: int)
    | DuplicateToken

  datatype Outcome = Accepted | Retryable | Permanent

  datatype Finalized =
    | ClaimSuperseded
    | AttemptMissing
    | Recorded(status: Status, number: int)

  /** A parsed Retry-After header: seconds, an HTTP date, or neither. */
  datatype RetryAfter = NoHeader | Seconds(seconds: int) | HttpDate(at: Instant) | Malformed

  // ------------------------------------------------------------------ delays

  function Pow2(n: nat): int {
    if n == 0 then 1 else 2 * Pow2(n - 1)
  }

  /** `int(x)` of a quotient truncates toward zero. */
  function TruncatedSeconds(span: int): int {
    if span >= 0 then span / SECOND else -((-span) / SECOND)
  }

  function RequestedSeconds(header: RetryAfter, now: Instant): Option<int> {
    match header
    case NoHeader => None
    case Seconds(n) => Some(n)
    case HttpDate(at) => Some(TruncatedSeconds(at - now))
    case Malformed => None
  }

  function Backoff(d: Delivery): int {
    d.settings.retryBaseSeconds * Pow2(Max(d.cycleAttemptCount - 1, 0))
  }

  /** The delay in seconds, as computed: capped, raised to the requested time, capped again. */
  function RetryDelay(d: Delivery, header: RetryAfter, now: Instant): int {
    var capped := Min(Backoff(d), d.settings.retryMaxSeconds);
    var asked := RequestedSeconds(header, now);
    Min(if asked.Some? then Max(capped, asked.value) else capped, d.settings.retryMaxSeconds)
  }

  // ------------------------------------------------------------------ transactions

  predicate IsRunning(a: Attempt, token: Token) {
    a.token == token && a.status == Running
  }

  /** The position of the running attempt that carries `token`. */
  function RunningAttempt(attempts: seq<Attempt>, token: Token): (found: Option<nat>)
    ensures found.Some? ==> found.value < |attempts| && IsRunning(attempts[found.value], token)
    ensures found.None? ==> forall a | a in attempts :: !IsRunning(a, token)
  {
    if attempts == [] then None
    else if IsRunning(attempts[|attempts| - 1], token) then Some(|attempts| - 1)
    else
      assert attempts == attempts[..|attempts| - 1] + [attempts[|attempts| - 1]];
      RunningAttempt(attempts[..|attempts| - 1], token)
  }

  predicate TokenUsed(d: Delivery, token: Token) {
    exists i | 0 <= i < |d.attempts| :: d.attempts[i].token == token
  }

  /** Close the unfinished attempt of a claim that ran out. */
  function CloseStale(d: Delivery, now: Instant): Delivery {
    if d.status != Processing || d.claimToken.None? then d
    else
      var stale := RunningAttempt(d.attempts, d.claimToken.value);
      if stale.None? then d
      else d.(attempts := d.attempts[stale.value :=
        d.attempts[stale.value].(status := RetryableFailed, completedAt := Some(now))])
  }

  function Unclaimed(d: Delivery, status: Status): Delivery {
    d.(status := status, nextAttemptAt := None, claimedAt := None, claimExpiresAt := None, claimToken := None)
  }

  function ClaimSeconds(d: Delivery): int {
    Max(CLAIM_LEASE_SECONDS, d.settings.timeoutSeconds + 30)
  }

  function Claim(d: Delivery, token: Token, now: Instant): Delivery {
    d.(status := Processing,
       attemptCount := d.attemptCount + 1,
       cycleAttemptCount := d.cycleAttemptCount + 1,
       nextAttemptAt := None,
       claimedAt := Some(now),
       claimExpiresAt := Some(now + ClaimSeconds(d) * SECOND),
       claimToken := Some(token),
       lastAttemptAt := Some(now),
       attempts := d.attempts + [Attempt(d.attemptCount + 1, token, Running, now, None, None)])
  }

  /** One `_prepare_delivery` transaction; a token that repeats violates a unique index and aborts it. */
  function Prepare(d: Delivery, active: bool, token: Token, now: Instant): (Delivery, Prepared) {
    if d.status in {Delivered, PermanentFailure, Cancelled} then (d, Terminal(d.status))
    else if d.status in {Pending, RetryScheduled} && d.nextAttemptAt.Some? && d.nextAttemptAt.value > now then (d, NotDue)
    else if d.status == Processing && (d.claimExpiresAt.None? || d.claimExpiresAt.value > now) then (d, AlreadyProcessing)
    else
      var current := CloseStale(d, now);
      if !active then (Unclaimed(current, Cancelled), CancelledInactive)
      else if current.cycleAttemptCount >= current.settings.maxAttempts then (Unclaimed(current, PermanentFailure), BudgetExhausted)
      else if TokenUsed(current, token) then (d, DuplicateToken)
      else (Claim(current, token, now), Claimed(token, current.attemptCount + 1))
  }

  function AttemptVerdict(outcome: Outcome): AttemptStatus {
    match outcome
    case Accepted => Succeeded
    case Retryable => RetryableFailed
    case Permanent => PermanentlyFailed
  }

  /** Write the outcome into attempt `i` and give the claim back. */
  function Completed(d: Delivery, i: nat, outcome: Outcome, http: Option<int>, now: Instant): Delivery
    requires i < |d.attempts|
  {
    var row := d.attempts[i].(status := AttemptVerdict(outcome), completedAt := Some(now), httpStatus := http);
    Unclaimed(d, d.status).(attempts := d.attempts[i := row])
  }

  /** Delivered, scheduled again or given up. */
  function Decided(d: Delivery, outcome: Outcome, header: RetryAfter, now: Instant): Delivery {
    if outcome == Accepted then d.(status := Delivered, deliveredAt := Some(now))
    else if outcome == Retryable && d.cycleAttemptCount < d.settings.maxAttempts then
      d.(status := RetryScheduled, nextAttemptAt := Some(now + RetryDelay(d, header, now) * SECOND))
    else d.(status := PermanentFailure)
  }

  /** One `_finalize_delivery` transaction. */
  function Finalize(d: Delivery, token: Token, outcome: Outcome, http: Option<int>, header: RetryAfter, now: Instant): (Delivery, Finalized) {
    if d.status != Processing || d.claimToken != Some(token) then (d, ClaimSuperseded)
    else
      var running := RunningAttempt(d.attempts, token);
      if running.None? then (d, AttemptMissing)
      else
        var next := Decided(Completed(d, running.value, outcome, http, now), outcome, header, now);
        (next, Recorded(next.status, d.attempts[running.value].number))
  }

  /** One manual `retry_delivery`; it is refused while processing, once delivered, or for an inactive destination. */
  function Retry(d: Delivery, active: bool, now: Instant): (Delivery, bool) {
    if d.status == Processing || d.status == Delivered || !active then (d, false)
    else (Unclaimed(d, Pending).(cycleAttemptCount := 0, nextAttemptAt := Some(now), deliveredAt := None), true)
  }

  /** The due query's row condition, apart from the destination being active. */
  predicate Due(d: Delivery, now: Instant) {
    || (d.status in {Pending, RetryScheduled} && d.nextAttemptAt.Some? && d.nextAttemptAt.value <= now)
    || (d.status == Processing && d.claimExpiresAt.Some? && d.claimExpiresAt.value <= now)
  }

  // ------------------------------------------------------------------ invariants

  /** The table's CHECK constraints on claim, schedule, counters and delivery time. */
  ghost predicate Checks(d: Delivery) {
    && 0 <= d.attemptCount && 0 <= d.cycleAttemptCount <= d.attemptCount
    && (d.status == Processing <==> d.claimToken.Some?)
    && (d.status == Processing <==> d.claimedAt.Some?)
    && (d.status == Processing <==> d.claimExpiresAt.Some?)
    && (d.status in {Pending, RetryScheduled} <==> d.nextAttemptAt.Some?)
    && (d.status == Delivered ==> d.deliveredAt.Some?)
  }

  /** Attempts are numbered 1, 2, …, carry distinct tokens, and are complete unless running. */
  ghost predicate LogWellFormed(d: Delivery, clock: Instant) {
    && |d.attempts| == d.attemptCount
    && (forall i | 0 <= i < |d.attempts| ::
          && d.attempts[i].number == i + 1
          && d.attempts[i].startedAt <= clock
          && (d.attempts[i].status == Running <==> d.attempts[i].completedAt.None?)
          && (d.attempts[i].completedAt.Some? ==> d.attempts[i].startedAt <= d.attempts[i].completedAt.value))
    && (forall i, j | 0 <= i < j < |d.attempts| :: d.attempts[i].token != d.attempts[j].token)
  }

  /** Only the newest attempt can run, and it runs exactly while the delivery is claimed under its token. */
  ghost predicate ClaimMatchesLog(d: Delivery) {
    && (forall i | 0 <= i < |d.attempts| ::
          d.attempts[i].status == Running <==> d.status == Processing && i == |d.attempts| - 1)
    && (d.status == Processing ==> |d.attempts| > 0 && d.claimToken == Some(d.attempts[|d.attempts| - 1].token))
  }

  /** Only a delivered delivery has a successful attempt, and that is its newest. */
  ghost predicate SuccessMatchesLog(d: Delivery) {
    && (forall i | 0 <= i < |d.attempts| ::
          d.attempts[i].status == Succeeded <==> d.status == Delivered && i == |d.attempts| - 1)
    && (d.status == Delivered ==> |d.attempts| > 0)
  }

  ghost predicate Valid(d: Delivery, clock: Instant) {
    && Checks(d) && LogWellFormed(d, clock) && ClaimMatchesLog(d) && SuccessMatchesLog(d)
    && d.cycleAttemptCount <= d.settings.maxAttempts
  }

  /** A delivery as alert creation writes it. */
  function Created(settings: Settings, now: Instant): Delivery {
    Delivery(settings, Pending, 0, 0, Some(now), None, None, None, None, None, [])
  }

  lemma RunningIsNewest(d: Delivery, clock: Instant)
    requires Valid(d, clock) && d.status == Processing
    ensures RunningAttempt(d.attempts, d.claimToken.value) == Some(|d.attempts| - 1)
  {
    var newest := d.attempts[|d.attempts| - 1];
    assert newest.status == Running;
  }

  /** A delivery row whose claim is being given up: no attempt runs any more. */
  ghost predicate Settled(d: Delivery, clock: Instant) {
    && LogWellFormed(d, clock)
    && (forall i | 0 <= i < |d.attempts| :: d.attempts[i].status != Running && d.attempts[i].status != Succeeded)
    && 0 <= d.cycleAttemptCount <= d.attemptCount
    && d.cycleAttemptCount <= d.settings.maxAttempts
  }

  lemma CloseStaleSettles(d: Delivery, clock: Instant, now: Instant)
    requires Valid(d, clock) && clock <= now && d.status != Delivered
    ensures Settled(CloseStale(d, now), now)
  {
    if d.status == Processing {
      RunningIsNewest(d, clock);
    }
  }

  lemma UnclaimedKeepsValid(d: Delivery, status: Status, clock: Instant)
    requires Settled(d, clock) && (status == Cancelled || status == PermanentFailure)
    ensures Valid(Unclaimed(d, status), clock)
  {
  }

  lemma ClaimKeepsValid(d: Delivery, token: Token, now: Instant)
    requires Settled(d, now) && d.cycleAttemptCount < d.settings.maxAttempts && !TokenUsed(d, token)
    ensures Valid(Claim(d, token, now), now)
  {
  }

  lemma CloseStaleKeepsRest(d: Delivery, now: Instant)
    ensures var c := CloseStale(d, now);
      && c.settings == d.settings && c.cycleAttemptCount == d.cycleAttemptCount && c.attemptCount == d.attemptCount
      && |c.attempts| == |d.attempts|
      && forall i | 0 <= i < |d.attempts| :: c.attempts[i].token == d.attempts[i].token
  {
  }

  lemma PrepareKeepsValid(d: Delivery, active: bool, token: Token, clock: Instant, now: Instant)
    requires Valid(d, clock) && clock <= now
    ensures Valid(Prepare(d, active, token, now).0, now)
  {
    var (t, p) := Prepare(d, active, token, now);
    if p.CancelledInactive? || p.BudgetExhausted? || p.Claimed? {
      CloseStaleSettles(d, clock, now);
      var current := CloseStale(d, now);
      if p.Claimed? {
        ClaimKeepsValid(current, token, now);
      } else {
        UnclaimedKeepsValid(current, t.status, now);
      }
    } else {
      assert t == d;
    }
  }

  lemma FinalizeKeepsValid(d: Delivery, token: Token, outcome: Outcome, http: Option<int>, header: RetryAfter, clock: Instant, now: Instant)
    requires Valid(d, clock) && clock <= now
    ensures Valid(Finalize(d, token, outcome, http, header, now).0, now)
  {
    if d.status == Processing && d.claimToken == Some(token) {
      RunningIsNewest(d, clock);
      var c := Completed(d, |d.attempts| - 1, outcome, http, now);
      CompletedIsClosed(d, outcome, http, clock, now);
      DecidedKeepsValid(c, outcome, header, now, Decided(c, outcome, header, now));
    } else {
      assert Finalize(d, token, outcome, http, header, now).0 == d;
    }
  }

  /** No claim, nothing running, and the newest attempt succeeded exactly if the request was accepted. */
  ghost predicate Closed(d: Delivery, outcome: Outcome, now: Instant) {
    && LogWellFormed(d, now) && |d.attempts| > 0
    && d.claimToken.None? && d.claimedAt.None? && d.claimExpiresAt.None? && d.nextAttemptAt.None?
    && 0 <= d.cycleAttemptCount <= d.attemptCount && d.cycleAttemptCount <= d.settings.maxAttempts
    && forall i | 0 <= i < |d.attempts| ::
         && d.attempts[i].status != Running
         && (d.attempts[i].status == Succeeded <==> outcome == Accepted && i == |d.attempts| - 1)
  }

  lemma CompletedIsClosed(d: Delivery, outcome: Outcome, http: Option<int>, clock: Instant, now: Instant)
    requires Valid(d, clock) && clock <= now && d.status == Processing
    ensures Closed(Completed(d, |d.attempts| - 1, outcome, http, now), outcome, now)
  {
  }

  lemma DecidedKeepsValid(d: Delivery, outcome: Outcome, header: RetryAfter, now: Instant, t: Delivery)
    requires Closed(d, outcome, now) && t == Decided(d, outcome, header, now)
    ensures Valid(t, now)
  {
  }

  lemma RetryKeepsValid(d: Delivery, active: bool, clock: Instant, now: Instant)
    requires Valid(d, clock) && clock <= now
    ensures Valid(Retry(d, active, now).0, now)
  {
  }

  // ------------------------------------------------------------------ what the steps mean

  /** The due query lists a delivery with an active destination exactly when preparing it now would claim or exhaust it. */
  lemma DueExactly(d: Delivery, token: Token, clock: Instant, now: Instant)
    requires Valid(d, clock) && !TokenUsed(d, token)
    ensures Due(d, now) <==> var p := Prepare(d, true, token, now).1; p.Claimed? || p.BudgetExhausted?
  {
    if d.status == Processing {
      RunningIsNewest(d, clock);
    }
    CloseStaleKeepsRest(d, now);
  }

  /** An accepted manual retry reopens the delivery: the next preparation claims it at once, budget exhausted or not. */
  lemma RetryReopens(d: Delivery, active: bool, token: Token, clock: Instant, now: Instant)
    requires Valid(d, clock) && !TokenUsed(d, token)
    ensures var (t, accepted) := Retry(d, active, now);
      && (accepted <==> active && d.status != Processing && d.status != Delivered)
      && (accepted ==> Due(t, now) && Prepare(t, true, token, now).1 == Claimed(token, d.attemptCount + 1))
  {
    var (t, accepted) := Retry(d, active, now);
    if accepted {
      assert CloseStale(t, now) == t && !TokenUsed(t, token);
    }
  }

  /** So a delivery that has never failed can be retried by hand: one still pending, and one cancelled with its destination. */
  lemma RetryTakesPendingAndCancelled(settings: Settings, created: Instant, token: Token, later: Instant)
    ensures var pending := Created(settings, created); var cancelled := Prepare(pending, false, token, created).0;
      && pending.status == Pending && Retry(pending, true, later).1
      && cancelled.status == Cancelled && Retry(cancelled, true, later).1
  {
    var pending := Created(settings, created);
    assert CloseStale(pending, created) == pending;
  }

  lemma {:induction false} Pow2Positive(n: nat)
    ensures Pow2(n) >= 1
  {
    if n > 0 {
      Pow2Positive(n - 1);
    }
  }

  lemma BackoffAtLeastBase(d: Delivery)
    ensures d.settings.retryBaseSeconds <= Backoff(d)
  {
    Pow2Positive(Max(d.cycleAttemptCount - 1, 0));
    AtLeastOnce(d.settings.retryBaseSeconds, Pow2(Max(d.cycleAttemptCount - 1, 0)));
  }

  lemma AtLeastOnce(base: int, factor: int)
    requires 0 <= base && 1 <= factor
    ensures base <= base * factor
  {
    assert base * factor == base + base * (factor - 1);
  }

  /** The two caps collapse: the delay is the larger of backoff and requested time, capped once, never below the base. */
  lemma RetryDelayExact(d: Delivery, header: RetryAfter, now: Instant)
    ensures var asked := RequestedSeconds(header, now);
      RetryDelay(d, header, now)
        == Min(if asked.Some? then Max(Backoff(d), asked.value) else Backoff(d), d.settings.retryMaxSeconds)
    ensures d.settings.retryBaseSeconds <= RetryDelay(d, header, now) <= d.settings.retryMaxSeconds
  {
    BackoffAtLeastBase(d);
  }

  /** A retryable failure with budget left is scheduled between one base delay and one maximum delay ahead. */
  lemma RetryIsScheduledAhead(d: Delivery, token: Token, http: Option<int>, header: RetryAfter, clock: Instant, now: Instant)
    requires Valid(d, clock) && d.claimToken == Some(token) && d.cycleAttemptCount < d.settings.maxAttempts
    ensures var (t, r) := Finalize(d, token, Retryable, http, header, now);
      && t.status == RetryScheduled && t.nextAttemptAt.Some?
      && now + d.settings.retryBaseSeconds * SECOND <= t.nextAttemptAt.value <= now + d.settings.retryMaxSeconds * SECOND
  {
    RunningIsNewest(d, clock);
    RetryDelayExact(d, header, now);
  }

  /** The claim of a live worker outlasts its HTTP timeout by at least thirty seconds. */
  lemma ClaimOutlastsRequest(d: Delivery, active: bool, token: Token, now: Instant)
    requires Prepare(d, active, token, now).1.Claimed?
    ensures var t := Prepare(d, active, token, now).0;
      t.claimExpiresAt.Some? && now + (d.settings.timeoutSeconds + 30) * SECOND <= t.claimExpiresAt.value
  {
  }

  // ------------------------------------------------------------------ runs

  datatype Event =
    | PrepareEvent(active: bool, token: Token, at: Instant)
    | FinalizeEvent(token: Token, outcome: Outcome, http: Option<int>, header: RetryAfter, at: Instant)
    | RetryEvent(active: bool, at: Instant)

  function Apply(d: Delivery, e: Event): Delivery {
    match e
    case PrepareEvent(active, token, at) => Prepare(d, active, token, at).0
    case FinalizeEvent(token, outcome, http, header, at) => Finalize(d, token, outcome, http, header, at).0
    case RetryEvent(active, at) => Retry(d, active, at).0
  }

  function Run(d: Delivery, events: seq<Event>): Delivery {
    if events == [] then d else Apply(Run(d, events[..|events| - 1]), events[|events| - 1])
  }

  /** A run takes its steps one after the other, each the transaction it names. */
  lemma {:induction false} RunsCompose(d: Delivery, a: seq<Event>, b: seq<Event>, e: Event)
    ensures Run(d, a + b) == Run(Run(d, a), b) && Run(d, []) == d
    ensures Run(d, [e])
         == match e
            case PrepareEvent(active, token, at) => Prepare(d, active, token, at).0
            case FinalizeEvent(token, outcome, http, header, at) => Finalize(d, token, outcome, http, header, at).0
            case RetryEvent(active, at) => Retry(d, active, at).0
    decreases |b|
  {
    assert [e][..0] == [];
    if b == [] {
      assert a + b == a;
    } else {
      assert (a + b)[..|a + b| - 1] == a + b[..|b| - 1];
      RunsCompose(d, a, b[..|b| - 1], e);
    }
  }

  ghost predicate ClockOrdered(events: seq<Event>, from: Instant) {
    && (forall i | 0 <= i < |events| :: from <= events[i].at)
    && (forall i, j | 0 <= i < j < |events| :: events[i].at <= events[j].at)
  }

  function LastClock(events: seq<Event>, from: Instant): Instant {
    if events == [] then from else events[|events| - 1].at
  }

  lemma ApplyKeepsValid(d: Delivery, e: Event, clock: Instant)
    requires Valid(d, clock) && clock <= e.at
    ensures Valid(Apply(d, e), e.at)
  {
    match e
    case PrepareEvent(active, token, at) => PrepareKeepsValid(d, active, token, clock, at);
    case FinalizeEvent(token, outcome, http, header, at) => FinalizeKeepsValid(d, token, outcome, http, header, clock, at);
    case RetryEvent(active, at) => RetryKeepsValid(d, active, clock, at);
  }

  /** Every reachable delivery satisfies the CHECK constraints and agrees with its attempt log. */
  lemma {:induction false} RunsAreValid(settings: Settings, created: Instant, events: seq<Event>)
    requires ClockOrdered(events, created)
    ensures Valid(Run(Created(settings, created), events), LastClock(events, created))
  {
    if events != [] {
      var most := events[..|events| - 1];
      RunsAreValid(settings, created, most);
      ApplyKeepsValid(Run(Created(settings, created), most), events[|events| - 1], LastClock(most, created));
    }
  }

  /** `delivered` absorbs every later step of every worker and operator. */
  lemma {:induction false} DeliveredAbsorbs(d: Delivery, events: seq<Event>)
    requires d.status == Delivered
    ensures Run(d, events) == d
  {
    if events != [] {
      DeliveredAbsorbs(d, events[..|events| - 1]);
    }
  }

  function Successes(attempts: seq<Attempt>): set<int> {
    set i | 0 <= i < |attempts| && attempts[i].status == Succeeded
  }

  /** Over any run at most one attempt succeeds, and one does exactly when the delivery is delivered. */
  lemma {:induction false} AtMostOneSuccess(settings: Settings, created: Instant, events: seq<Event>)
    requires ClockOrdered(events, created)
    ensures var d := Run(Created(settings, created), events);
      |Successes(d.attempts)| == if d.status == Delivered then 1 else 0
  {
    RunsAreValid(settings, created, events);
    var d := Run(Created(settings, created), events);
    if d.status == Delivered {
      assert Successes(d.attempts) == {|d.attempts| - 1};
    } else {
      assert Successes(d.attempts) == {};
    }
  }

  /** The manual retries of a run that were accepted. */
  function ManualRetries(d: Delivery, events: seq<Event>): nat {
    if events == [] then 0
    else
      var last := events[|events| - 1];
      ManualRetries(d, events[..|events| - 1])
      + if last.RetryEvent? && Retry(Run(d, events[..|events| - 1]), last.active, last.at).1 then 1 else 0
  }

  /** Step `k` of the run is a manual retry of a delivery that is neither processing nor delivered, with an active destination. */
  predicate RetriedAt(d: Delivery, events: seq<Event>, k: nat) {
    k < |events| && events[k].RetryEvent? && events[k].active
    && var before := Run(d, events[..k]).status; before != Processing && before != Delivered
  }

  ghost function AcceptedRetries(d: Delivery, events: seq<Event>): nat -> bool {
    (k: nat) => RetriedAt(d, events, k)
  }

  lemma {:induction false} ManualRetriesAreCounted(d: Delivery, events: seq<Event>, n: nat)
    requires n <= |events|
    ensures ManualRetries(d, events[..n]) == |Satisfying(AcceptedRetries(d, events), n)|
  {
    if n > 0 {
      ManualRetriesAreCounted(d, events, n - 1);
      assert events[..n][..n - 1] == events[..n - 1];
      OneMoreSatisfying(AcceptedRetries(d, events), n - 1);
    }
  }

  lemma ApplyCountsAttempts(d: Delivery, e: Event, clock: Instant)
    requires Valid(d, clock) && clock <= e.at
    ensures var t := Apply(d, e);
      && t.settings == d.settings
      && if e.RetryEvent? && Retry(d, e.active, e.at).1 then t.attemptCount == d.attemptCount && t.cycleAttemptCount == 0
         else t.attemptCount - d.attemptCount == t.cycleAttemptCount - d.cycleAttemptCount
  {
  }

  lemma OneMoreCycle(budget: int, cycles: nat)
    ensures budget * (cycles + 1) == budget * cycles + budget
  {
  }

  /** Every attempt fits into one of the budgets that `retries` manual retries have renewed. */
  predicate WithinCycles(d: Delivery, retries: nat) {
    d.attemptCount <= d.settings.maxAttempts * retries + d.cycleAttemptCount
  }

  lemma {:induction false} CyclesBoundAttempts(settings: Settings, created: Instant, events: seq<Event>)
    requires ClockOrdered(events, created)
    ensures var start := Created(settings, created);
      var d := Run(start, events);
      d.settings == settings && WithinCycles(d, ManualRetries(start, events))
  {
    var start := Created(settings, created);
    if events != [] {
      var most, last := events[..|events| - 1], events[|events| - 1];
      CyclesBoundAttempts(settings, created, most);
      RunsAreValid(settings, created, most);
      var d := Run(start, most);
      ApplyCountsAttempts(d, last, LastClock(most, created));
      CycleGrows(d, Apply(d, last), ManualRetries(start, most), last.RetryEvent? && Retry(d, last.active, last.at).1);
    }
  }

  lemma CycleGrows(d: Delivery, t: Delivery, retries: nat, retried: bool)
    requires WithinCycles(d, retries)
    requires d.cycleAttemptCount <= d.settings.maxAttempts && t.settings == d.settings
    requires if retried then t.attemptCount == d.attemptCount && t.cycleAttemptCount == 0
             else t.attemptCount - d.attemptCount == t.cycleAttemptCount - d.cycleAttemptCount
    ensures WithinCycles(t, retries + if retried then 1 else 0)
  {
    OneMoreCycle(d.settings.maxAttempts, retries);
  }

  /** Automatic processing terminates: each accepted manual retry buys at most `maxAttempts` further attempts. */
  lemma {:induction false} AttemptsAreBounded(settings: Settings, created: Instant, events: seq<Event>)
    requires ClockOrdered(events, created)
    ensures var start := Created(settings, created);
      |Run(start, events).attempts| <= settings.maxAttempts * (1 + |Satisfying(AcceptedRetries(start, events), |events|)|)
  {
    ManualRetriesAreCounted(Created(settings, created), events, |events|);
    assert events[..|events|] == events;
    RunsAreValid(settings, created, events);
    CyclesBoundAttempts(settings, created, events);
    OneMoreCycle(settings.maxAttempts, ManualRetries(Created(settings, created), events));
  }

  // ------------------------------------------------------------------ fencing

  /** The token was handed out once and its claim is over. */
  predicate Fenced(d: Delivery, token: Token) {
    TokenUsed(d, token) && d.claimToken != Some(token)
  }

  /** No step changes the token, the number or the start of an attempt, and none reopens a finished attempt. */
  lemma LogIsAppendOnly(d: Delivery, e: Event, clock: Instant, i: nat)
    requires Valid(d, clock) && clock <= e.at && i < |d.attempts|
    ensures var t := Apply(d, e);
      && i < |t.attempts| && t.attempts[i].token == d.attempts[i].token
      && t.attempts[i].number == d.attempts[i].number && t.attempts[i].startedAt == d.attempts[i].startedAt
      && (d.attempts[i].completedAt.Some? ==> t.attempts[i] == d.attempts[i])
  {
    if d.status == Processing {
      RunningIsNewest(d, clock);
    }
  }

  lemma FencedStaysFenced(d: Delivery, e: Event, token: Token, clock: Instant)
    requires Valid(d, clock) && clock <= e.at && Fenced(d, token)
    ensures Fenced(Apply(d, e), token)
  {
    var t := Apply(d, e);
    var i :| 0 <= i < |d.attempts| && d.attempts[i].token == token;
    LogIsAppendOnly(d, e, clock, i);
    assert t.attempts[i].token == token;
    if e.PrepareEvent? {
      var current := CloseStale(d, e.at);
      assert current.attempts[i].token == token;
    }
  }

  /** Claiming an expired claim over fences the worker that held it. */
  lemma TakeoverFences(d: Delivery, active: bool, token: Token, clock: Instant, now: Instant)
    requires Valid(d, clock) && clock <= now && d.status == Processing
    requires Prepare(d, active, token, now).1.Claimed?
    ensures var t := Prepare(d, active, token, now).0;
      && Fenced(t, d.claimToken.value) && t.claimToken == Some(token) && token != d.claimToken.value
      && t.attempts[|d.attempts| - 1].status == RetryableFailed
  {
    RunningIsNewest(d, clock);
    var t := Prepare(d, active, token, now).0;
    assert t.attempts[|d.attempts| - 1].token == d.claimToken.value;
  }

  /** A superseded worker can never change the delivery again, however long the run goes on. */
  lemma {:induction false} SupersededForever(d: Delivery, token: Token, events: seq<Event>, clock: Instant,
                            outcome: Outcome, http: Option<int>, header: RetryAfter, now: Instant)
    requires Valid(d, clock) && ClockOrdered(events, clock) && Fenced(d, token)
    ensures Valid(Run(d, events), LastClock(events, clock)) && Fenced(Run(d, events), token)
    ensures Finalize(Run(d, events), token, outcome, http, header, now) == (Run(d, events), ClaimSuperseded)
  {
    if events != [] {
      var most, last := events[..|events| - 1], events[|events| - 1];
      SupersededForever(d, token, most, clock, outcome, http, header, now);
      ApplyKeepsValid(Run(d, most), last, LastClock(most, clock));
      FencedStaysFenced(Run(d, most), last, token, LastClock(most, clock));
    }
  }
}
