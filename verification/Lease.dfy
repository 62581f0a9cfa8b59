/**
 Durable endpoint leases and their append-only event log. A lease is identified by its position,
 which also stands for its secret token.
 */
module Lease {
  import opened Prelude

  datatype Status = Active | Released | Failed | Expired

  datatype EventKind =
    | AcquiredEvent | TakenOverEvent | HeartbeatEvent | ReleasedEvent | FailedEvent | ExpiredEvent | ReplayedEvent

  datatype LeaseRow = LeaseRow(
    endpoint: int,
    executionIdentity: string,
    owner: string,
    status: Status,
    acquiredAt: Instant,
    heartbeatAt: Instant,
    expiresAt: Instant,
    finalizedAt: Option<Instant>,
    takeoverCount: nat
  )

  datatype LogRow = LogRow(lease: nat, kind: EventKind, owner: string)

  datatype State = State(leases: seq<LeaseRow>, log: seq<LogRow>)

  datatype Error =
    | NoActiveConfiguration
    | ConstraintViolated
    | InvalidTtl
    | InvalidOutcome
    | NoSuchLease
    | NoAuthority

  datatype Decision = Replayed(lease: nat) | Busy(lease: nat) | Acquired(lease: nat) | TakenOver(lease: nat)

  predicate Granted(d: Result<Decision, Error>) {
    d.Success? && (d.value.Acquired? || d.value.TakenOver?)
  }

  // ------------------------------------------------------------------ lookups

  predicate IsExecution(row: LeaseRow, endpoint: int, identity: string) {
    row.endpoint == endpoint && row.executionIdentity == identity
  }

  predicate IsActiveOn(row: LeaseRow, endpoint: int) {
    row.endpoint == endpoint && row.status == Active
  }

  /** The lease of this endpoint with this execution identity; the pair is unique. */
  function FindExecution(leases: seq<LeaseRow>, endpoint: int, identity: string): (found: Option<nat>)
    ensures found.Some? ==> found.value < |leases| && IsExecution(leases[found.value], endpoint, identity)
    ensures found.None? ==> forall i | 0 <= i < |leases| :: !IsExecution(leases[i], endpoint, identity)
  {
    if leases == [] then None
    else
      var last := leases[|leases| - 1];
      if IsExecution(last, endpoint, identity) then Some(|leases| - 1)
      else FindExecution(leases[..|leases| - 1], endpoint, identity)
  }

  /** The active lease of the endpoint. */
  function FindActive(leases: seq<LeaseRow>, endpoint: int): (found: Option<nat>)
    ensures found.Some? ==> found.value < |leases| && IsActiveOn(leases[found.value], endpoint)
    ensures found.None? ==> forall i | 0 <= i < |leases| :: !IsActiveOn(leases[i], endpoint)
  {
    if leases == [] then None
    else
      var last := leases[|leases| - 1];
      if IsActiveOn(last, endpoint) then Some(|leases| - 1)
      else FindActive(leases[..|leases| - 1], endpoint)
  }

  // ------------------------------------------------------------------ transactions

  function Ended(s: State, i: nat, status: Status, kind: EventKind, actor: string, now: Instant): State
    requires i < |s.leases|
  {
    State(s.leases[i := s.leases[i].(status := status, finalizedAt := Some(now))], s.log + [LogRow(i, kind, actor)])
  }

  function Opened(s: State, endpoint: int, identity: string, owner: string, ttl: int, now: Instant, takeovers: nat): State {
    var kind := if takeovers > 0 then TakenOverEvent else AcquiredEvent;
    State(s.leases + [LeaseRow(endpoint, identity, owner, Active, now, now, now + ttl, None, takeovers)],
          s.log + [LogRow(|s.leases|, kind, owner)])
  }

  /** The lease at `a` expires and its endpoint is leased anew, one step further down the takeover chain. */
  function Takeover(s: State, a: nat, identity: string, owner: string, ttl: int, now: Instant): State
    requires a < |s.leases|
  {
    Opened(Ended(s, a, Expired, ExpiredEvent, owner, now), s.leases[a].endpoint, identity, owner, ttl, now,
           s.leases[a].takeoverCount + 1)
  }

  /** One `acquire` transaction; a non-positive TTL passes until the row's time-order CHECK aborts it. */
  function Acquire(s: State, endpoint: int, identity: string, owner: string, ttl: int, configured: bool, now: Instant)
    : (State, Result<Decision, Error>)
  {
    var replay := FindExecution(s.leases, endpoint, identity);
    if replay.Some? then
      (s.(log := s.log + [LogRow(replay.value, ReplayedEvent, owner)]), Success(Replayed(replay.value)))
    else if !configured then (s, Failure(NoActiveConfiguration))
    else
      var active := FindActive(s.leases, endpoint);
      if active.Some? && s.leases[active.value].expiresAt > now then (s, Success(Busy(active.value)))
      else if ttl <= 0 then (s, Failure(ConstraintViolated))
      else if active.Some? then
        (Takeover(s, active.value, identity, owner, ttl, now), Success(TakenOver(|s.leases|)))
      else (Opened(s, endpoint, identity, owner, ttl, now, 0), Success(Acquired(|s.leases|)))
  }

  function Heartbeat(s: State, token: nat, owner: string, ttl: int, now: Instant): (State, Result<nat, Error>) {
    if ttl <= 0 then (s, Failure(InvalidTtl))
    else if token >= |s.leases| then (s, Failure(NoSuchLease))
    else
      var row := s.leases[token];
      if row.status != Active || row.owner != owner || row.expiresAt <= now then (s, Failure(NoAuthority))
      else (State(s.leases[token := row.(heartbeatAt := now, expiresAt := now + ttl)],
                  s.log + [LogRow(token, HeartbeatEvent, owner)]), Success(token))
  }

  function OutcomeEvent(outcome: Status): EventKind {
    if outcome == Released then ReleasedEvent else FailedEvent
  }

  function Finalize(s: State, token: nat, owner: string, outcome: Status, now: Instant): (State, Result<nat, Error>) {
    if outcome != Released && outcome != Failed then (s, Failure(InvalidOutcome))
    else if token >= |s.leases| then (s, Failure(NoSuchLease))
    else if s.leases[token].status != Active || s.leases[token].owner != owner then (s, Failure(NoAuthority))
    else (Ended(s, token, outcome, OutcomeEvent(outcome), owner, now), Success(token))
  }

  // ------------------------------------------------------------------ the event log as an automaton

  datatype LogState = Unborn | Live | Over(status: Status) | Broken

  function Next(at: LogState, kind: EventKind): LogState {
    match kind
    case ReplayedEvent => if at.Unborn? then Broken else at
    case AcquiredEvent => if at.Unborn? then Live else Broken
    case TakenOverEvent => if at.Unborn? then Live else Broken
    case HeartbeatEvent => if at.Live? then Live else Broken
    case ReleasedEvent => if at.Live? then Over(Released) else Broken
    case FailedEvent => if at.Live? then Over(Failed) else Broken
    case ExpiredEvent => if at.Live? then Over(Expired) else Broken
  }

  /** The state of one lease read off the log alone; `replayed` rows do not move it. */
  function Fold(log: seq<LogRow>, lease: nat): LogState {
    if log == [] then Unborn
    else
      var last := log[|log| - 1];
      var before := Fold(log[..|log| - 1], lease);
      if last.lease == lease then Next(before, last.kind) else before
  }

  function Reading(status: Status): LogState {
    if status == Active then Live else Over(status)
  }

  // ------------------------------------------------------------------ invariants

  /** The number of expired leases of the endpoint immediately before position `n`. */
  function ExpiredRunBefore(leases: seq<LeaseRow>, endpoint: int, n: nat): nat
    requires n <= |leases|
  {
    if n == 0 then 0
    else if leases[n - 1].endpoint != endpoint then ExpiredRunBefore(leases, endpoint, n - 1)
    else if leases[n - 1].status == Expired then 1 + ExpiredRunBefore(leases, endpoint, n - 1)
    else 0
  }

  ghost predicate RowTimes(row: LeaseRow, clock: Instant) {
    && row.acquiredAt <= row.heartbeatAt <= clock && row.acquiredAt < row.expiresAt
    && (row.status == Active <==> row.finalizedAt.None?)
    && (row.finalizedAt.Some? ==> row.acquiredAt <= row.finalizedAt.value <= clock)
    && (row.status == Expired ==> row.expiresAt <= row.finalizedAt.value)
  }

  ghost predicate AllRowTimes(leases: seq<LeaseRow>, clock: Instant) {
    forall i | 0 <= i < |leases| :: RowTimes(leases[i], clock)
  }

  /** Two leases of one endpoint belong to different executions, and the first ended before the second began. */
  ghost predicate Precedes(a: LeaseRow, b: LeaseRow) {
    a.endpoint == b.endpoint ==>
      && a.executionIdentity != b.executionIdentity
      && a.finalizedAt.Some? && a.finalizedAt.value <= b.acquiredAt
  }

  ghost predicate TenuresInOrder(leases: seq<LeaseRow>) {
    forall i, j | 0 <= i < j < |leases| :: Precedes(leases[i], leases[j])
  }

  /** Some later lease holds the same endpoint. */
  ghost predicate HasSuccessor(leases: seq<LeaseRow>, i: nat) {
    i < |leases| && exists j | i < j < |leases| :: leases[j].endpoint == leases[i].endpoint
  }

  /** A lease only expires by being taken over. */
  ghost predicate ExpiredWereTakenOver(leases: seq<LeaseRow>) {
    forall i: nat {:trigger HasSuccessor(leases, i)} | i < |leases| && leases[i].status == Expired :: HasSuccessor(leases, i)
  }

  ghost predicate TakeoversCounted(leases: seq<LeaseRow>) {
    forall i {:trigger leases[i].takeoverCount} | 0 <= i < |leases| :: leases[i].takeoverCount == ExpiredRunBefore(leases, leases[i].endpoint, i)
  }

  ghost predicate LogAgrees(s: State) {
    && (forall i: nat | i < |s.leases| :: Fold(s.log, i) == Reading(s.leases[i].status))
    && (forall i: nat | i >= |s.leases| :: Fold(s.log, i) == Unborn)
  }

  ghost predicate Valid(s: State, clock: Instant) {
    && AllRowTimes(s.leases, clock)
    && TenuresInOrder(s.leases)
    && ExpiredWereTakenOver(s.leases)
    && TakeoversCounted(s.leases)
    && LogAgrees(s)
  }

  // ------------------------------------------------------------------ preservation

  ghost predicate IsNewest(leases: seq<LeaseRow>, i: nat) {
    i < |leases| && forall j | i < j < |leases| :: leases[j].endpoint != leases[i].endpoint
  }

  /** An active lease is the newest of its endpoint, so an endpoint has at most one. */
  lemma ActiveIsNewest(leases: seq<LeaseRow>, i: nat, clock: Instant)
    requires AllRowTimes(leases, clock) && TenuresInOrder(leases) && i < |leases| && leases[i].status == Active
    ensures IsNewest(leases, i)
  {
    assert RowTimes(leases[i], clock);
    forall j | i < j < |leases| ensures leases[j].endpoint != leases[i].endpoint {
      assert Precedes(leases[i], leases[j]);
    }
  }

  lemma {:induction false} ExpiredRunAgrees(a: seq<LeaseRow>, b: seq<LeaseRow>, endpoint: int, n: nat)
    requires n <= |a| && n <= |b|
    requires forall i | 0 <= i < n :: a[i].endpoint == b[i].endpoint && a[i].status == b[i].status
    ensures ExpiredRunBefore(a, endpoint, n) == ExpiredRunBefore(b, endpoint, n)
  {
    if n > 0 {
      ExpiredRunAgrees(a, b, endpoint, n - 1);
    }
  }

  /** Only the leases of the endpoint matter to its run of expiries. */
  lemma {:induction false} ExpiredRunIgnoresOthers(leases: seq<LeaseRow>, i: nat, row: LeaseRow, endpoint: int, n: nat)
    requires i < |leases| && n <= |leases| && row.endpoint == leases[i].endpoint && (endpoint != row.endpoint || n <= i)
    ensures ExpiredRunBefore(leases[i := row], endpoint, n) == ExpiredRunBefore(leases, endpoint, n)
  {
    if n > 0 {
      ExpiredRunIgnoresOthers(leases, i, row, endpoint, n - 1);
    }
  }

  lemma FoldAppend(log: seq<LogRow>, row: LogRow, lease: nat)
    ensures Fold(log + [row], lease) == if row.lease == lease then Next(Fold(log, lease), row.kind) else Fold(log, lease)
  {
    assert (log + [row])[..|log|] == log;
  }

  // Updating the newest lease of its endpoint.

  lemma UpdateKeepsTimes(leases: seq<LeaseRow>, i: nat, row: LeaseRow, clock: Instant, now: Instant)
    requires AllRowTimes(leases, clock) && clock <= now && i < |leases| && RowTimes(row, now)
    ensures AllRowTimes(leases[i := row], now)
  {
    var t := leases[i := row];
    forall k | 0 <= k < |t| ensures RowTimes(t[k], now) {
      assert RowTimes(leases[k], clock);
    }
  }

  lemma UpdateKeepsOrder(leases: seq<LeaseRow>, i: nat, row: LeaseRow)
    requires TenuresInOrder(leases) && IsNewest(leases, i)
    requires row.endpoint == leases[i].endpoint && row.executionIdentity == leases[i].executionIdentity
    requires row.acquiredAt == leases[i].acquiredAt
    ensures TenuresInOrder(leases[i := row])
  {
    var t := leases[i := row];
    forall j, k | 0 <= j < k < |t| ensures Precedes(t[j], t[k]) {
      assert Precedes(leases[j], leases[k]);
    }
  }

  lemma UpdateKeepsSuccessors(leases: seq<LeaseRow>, i: nat, row: LeaseRow)
    requires ExpiredWereTakenOver(leases) && i < |leases| && row.endpoint == leases[i].endpoint && row.status != Expired
    ensures ExpiredWereTakenOver(leases[i := row])
  {
    var t := leases[i := row];
    forall k: nat | k < |t| && t[k].status == Expired ensures HasSuccessor(t, k) {
      assert HasSuccessor(leases, k);
      var j :| k < j < |leases| && leases[j].endpoint == leases[k].endpoint;
      assert t[j].endpoint == t[k].endpoint;
    }
  }

  lemma UpdateKeepsCounts(leases: seq<LeaseRow>, i: nat, row: LeaseRow)
    requires TakeoversCounted(leases) && IsNewest(leases, i)
    requires row.endpoint == leases[i].endpoint && row.takeoverCount == leases[i].takeoverCount
    ensures TakeoversCounted(leases[i := row])
  {
    var t := leases[i := row];
    forall k | 0 <= k < |t| ensures t[k].takeoverCount == ExpiredRunBefore(t, t[k].endpoint, k) {
      ExpiredRunIgnoresOthers(leases, i, row, t[k].endpoint, k);
    }
  }

  lemma UpdateKeepsLog(s: State, i: nat, row: LeaseRow, kind: EventKind, actor: string)
    requires LogAgrees(s) && i < |s.leases| && Next(Reading(s.leases[i].status), kind) == Reading(row.status)
    ensures LogAgrees(State(s.leases[i := row], s.log + [LogRow(i, kind, actor)]))
  {
    forall k: nat ensures Fold(s.log + [LogRow(i, kind, actor)], k) == if k == i then Next(Fold(s.log, k), kind) else Fold(s.log, k) {
      FoldAppend(s.log, LogRow(i, kind, actor), k);
    }
  }

  // Appending a lease.

  /** The endpoint has no active lease, and its newest one is not expired unless its takeover is under way. */
  lemma OpeningKeepsTimes(s: State, endpoint: int, identity: string, owner: string, ttl: int, now: Instant, takeovers: nat)
    requires AllRowTimes(s.leases, now) && TenuresInOrder(s.leases) && ttl > 0
    requires FindExecution(s.leases, endpoint, identity).None? && FindActive(s.leases, endpoint).None?
    ensures var t := Opened(s, endpoint, identity, owner, ttl, now, takeovers);
      AllRowTimes(t.leases, now) && TenuresInOrder(t.leases)
  {
    var t := Opened(s, endpoint, identity, owner, ttl, now, takeovers);
    var n := |s.leases|;
    forall k | 0 <= k < |t.leases| ensures RowTimes(t.leases[k], now) {
      assert k < n ==> RowTimes(s.leases[k], now);
    }
    forall j, k | 0 <= j < k < |t.leases| ensures Precedes(t.leases[j], t.leases[k]) {
      if k < n {
        assert Precedes(s.leases[j], s.leases[k]);
      } else {
        assert RowTimes(s.leases[j], now) && !IsActiveOn(s.leases[j], endpoint) && !IsExecution(s.leases[j], endpoint, identity);
      }
    }
  }

  lemma OpeningKeepsCounts(s: State, endpoint: int, identity: string, owner: string, ttl: int, now: Instant, takeovers: nat)
    requires TakeoversCounted(s.leases) && takeovers == ExpiredRunBefore(s.leases, endpoint, |s.leases|)
    ensures TakeoversCounted(Opened(s, endpoint, identity, owner, ttl, now, takeovers).leases)
  {
    var t := Opened(s, endpoint, identity, owner, ttl, now, takeovers);
    forall k | 0 <= k < |t.leases| ensures t.leases[k].takeoverCount == ExpiredRunBefore(t.leases, t.leases[k].endpoint, k) {
      ExpiredRunAgrees(s.leases, t.leases, t.leases[k].endpoint, k);
    }
  }

  lemma OpeningKeepsSuccessors(s: State, endpoint: int, identity: string, owner: string, ttl: int, now: Instant, takeovers: nat)
    requires OthersWereTakenOver(s.leases, endpoint)
    ensures ExpiredWereTakenOver(Opened(s, endpoint, identity, owner, ttl, now, takeovers).leases)
  {
    var t := Opened(s, endpoint, identity, owner, ttl, now, takeovers);
    var n := |s.leases|;
    forall k: nat | k < |t.leases| && t.leases[k].status == Expired ensures HasSuccessor(t.leases, k) {
      if s.leases[k].endpoint == endpoint {
        assert t.leases[n].endpoint == t.leases[k].endpoint;
      } else {
        assert HasSuccessor(s.leases, k);
        var j :| k < j < |s.leases| && s.leases[j].endpoint == s.leases[k].endpoint;
        assert t.leases[j].endpoint == t.leases[k].endpoint;
      }
    }
  }

  lemma OpeningKeepsLog(s: State, endpoint: int, identity: string, owner: string, ttl: int, now: Instant, takeovers: nat)
    requires LogAgrees(s)
    ensures LogAgrees(Opened(s, endpoint, identity, owner, ttl, now, takeovers))
  {
    var t := Opened(s, endpoint, identity, owner, ttl, now, takeovers);
    forall k: nat ensures Fold(t.log, k) == if k == |s.leases| then Live else Fold(s.log, k) {
      FoldAppend(s.log, t.log[|s.log|], k);
    }
  }

  /** Without an active lease the newest one of the endpoint was not expired, so no takeover chain is open. */
  lemma {:induction false} NoOpenChain(leases: seq<LeaseRow>, endpoint: int, n: nat)
    requires n <= |leases| && ExpiredWereTakenOver(leases)
    requires forall j | n <= j < |leases| :: leases[j].endpoint != endpoint
    ensures ExpiredRunBefore(leases, endpoint, n) == 0
  {
    if n > 0 {
      if leases[n - 1].endpoint != endpoint {
        NoOpenChain(leases, endpoint, n - 1);
      } else {
        assert !HasSuccessor(leases, n - 1);
      }
    }
  }

  lemma {:induction false} SkipOthers(leases: seq<LeaseRow>, endpoint: int, m: nat, n: nat)
    requires m <= n <= |leases| && forall j | m <= j < n :: leases[j].endpoint != endpoint
    ensures ExpiredRunBefore(leases, endpoint, n) == ExpiredRunBefore(leases, endpoint, m)
    decreases n
  {
    if m < n {
      SkipOthers(leases, endpoint, m, n - 1);
    }
  }

  lemma ValidLater(s: State, clock: Instant, now: Instant)
    requires Valid(s, clock) && clock <= now
    ensures Valid(s, now)
  {
    forall i | 0 <= i < |s.leases| ensures RowTimes(s.leases[i], now) {
      assert RowTimes(s.leases[i], clock);
    }
  }

  lemma EndingKeepsValid(s: State, i: nat, status: Status, kind: EventKind, actor: string, clock: Instant, now: Instant)
    requires Valid(s, clock) && clock <= now && i < |s.leases| && s.leases[i].status == Active
    requires (status == Released && kind == ReleasedEvent) || (status == Failed && kind == FailedEvent)
    ensures Valid(Ended(s, i, status, kind, actor, now), now)
  {
    ActiveIsNewest(s.leases, i, clock);
    var row := s.leases[i].(status := status, finalizedAt := Some(now));
    assert RowTimes(s.leases[i], clock);
    UpdateKeepsTimes(s.leases, i, row, clock, now);
    UpdateKeepsOrder(s.leases, i, row);
    UpdateKeepsSuccessors(s.leases, i, row);
    UpdateKeepsCounts(s.leases, i, row);
    UpdateKeepsLog(s, i, row, kind, actor);
  }

  /** What `Opened` needs to find: everything in order, and only the opened endpoint may have an expired newest lease. */
  ghost predicate ReadyToOpen(s: State, endpoint: int, identity: string, takeovers: nat, now: Instant) {
    && AllRowTimes(s.leases, now) && TenuresInOrder(s.leases) && TakeoversCounted(s.leases) && LogAgrees(s)
    && FindExecution(s.leases, endpoint, identity).None? && FindActive(s.leases, endpoint).None?
    && takeovers == ExpiredRunBefore(s.leases, endpoint, |s.leases|)
    && OthersWereTakenOver(s.leases, endpoint)
  }

  /** Only the endpoint itself may have an expired lease without a successor. */
  ghost predicate OthersWereTakenOver(leases: seq<LeaseRow>, endpoint: int) {
    forall i: nat {:trigger HasSuccessor(leases, i)} | i < |leases| && leases[i].status == Expired && leases[i].endpoint != endpoint ::
      HasSuccessor(leases, i)
  }

  lemma OpeningKeepsValid(s: State, endpoint: int, identity: string, owner: string, ttl: int, now: Instant, takeovers: nat)
    requires ReadyToOpen(s, endpoint, identity, takeovers, now) && ttl > 0
    ensures Valid(Opened(s, endpoint, identity, owner, ttl, now, takeovers), now)
  {
    OpeningKeepsTimes(s, endpoint, identity, owner, ttl, now, takeovers);
    OpeningKeepsCounts(s, endpoint, identity, owner, ttl, now, takeovers);
    OpeningKeepsSuccessors(s, endpoint, identity, owner, ttl, now, takeovers);
    OpeningKeepsLog(s, endpoint, identity, owner, ttl, now, takeovers);
  }

  lemma OlderAreNotActive(leases: seq<LeaseRow>, a: nat, clock: Instant)
    requires AllRowTimes(leases, clock) && TenuresInOrder(leases) && a < |leases|
    ensures forall i | 0 <= i < a && leases[i].endpoint == leases[a].endpoint :: leases[i].status != Active
  {
    forall i | 0 <= i < a && leases[i].endpoint == leases[a].endpoint ensures leases[i].status != Active {
      assert Precedes(leases[i], leases[a]);
      assert RowTimes(leases[i], clock);
    }
  }

  /** Expiring the active lease joins it to the chain of expiries before it. */
  lemma ExpiringExtendsChain(leases: seq<LeaseRow>, a: nat, row: LeaseRow)
    requires IsNewest(leases, a) && TakeoversCounted(leases)
    requires row == leases[a].(status := Expired, finalizedAt := row.finalizedAt)
    ensures ExpiredRunBefore(leases[a := row], row.endpoint, |leases|) == leases[a].takeoverCount + 1
  {
    var t := leases[a := row];
    SkipOthers(t, row.endpoint, a + 1, |t|);
    ExpiredRunIgnoresOthers(leases, a, row, row.endpoint, a);
  }

  lemma ExpiringKeepsOtherSuccessors(leases: seq<LeaseRow>, a: nat, row: LeaseRow)
    requires ExpiredWereTakenOver(leases) && a < |leases| && row.endpoint == leases[a].endpoint
    ensures OthersWereTakenOver(leases[a := row], row.endpoint)
  {
    var t := leases[a := row];
    forall i: nat | i < |t| && t[i].status == Expired && t[i].endpoint != row.endpoint ensures HasSuccessor(t, i) {
      assert HasSuccessor(leases, i);
      var j :| i < j < |leases| && leases[j].endpoint == leases[i].endpoint;
      assert t[j].endpoint == t[i].endpoint;
    }
  }

  /** The invariants of the state with the lease at `a` expired, apart from its missing successor. */
  lemma ExpiringKeepsRows(s: State, a: nat, row: LeaseRow, owner: string, clock: Instant, now: Instant)
    requires Valid(s, clock) && clock <= now && a < |s.leases|
    requires s.leases[a].status == Active && s.leases[a].expiresAt <= now
    requires row == s.leases[a].(status := Expired, finalizedAt := Some(now))
    ensures AllRowTimes(s.leases[a := row], now) && TenuresInOrder(s.leases[a := row])
    ensures TakeoversCounted(s.leases[a := row])
    ensures LogAgrees(State(s.leases[a := row], s.log + [LogRow(a, ExpiredEvent, owner)]))
  {
    ActiveIsNewest(s.leases, a, clock);
    assert RowTimes(s.leases[a], clock);
    UpdateKeepsTimes(s.leases, a, row, clock, now);
    UpdateKeepsOrder(s.leases, a, row);
    UpdateKeepsCounts(s.leases, a, row);
    UpdateKeepsLog(s, a, row, ExpiredEvent, owner);
  }

  lemma ExpiringClearsTheWay(leases: seq<LeaseRow>, a: nat, row: LeaseRow, identity: string, clock: Instant)
    requires AllRowTimes(leases, clock) && TenuresInOrder(leases) && ExpiredWereTakenOver(leases) && TakeoversCounted(leases)
    requires a < |leases| && leases[a].status == Active
    requires row == leases[a].(status := Expired, finalizedAt := row.finalizedAt)
    requires FindExecution(leases, row.endpoint, identity).None?
    ensures var t := leases[a := row];
      && FindExecution(t, row.endpoint, identity).None? && FindActive(t, row.endpoint).None?
      && ExpiredRunBefore(t, row.endpoint, |t|) == leases[a].takeoverCount + 1
      && OthersWereTakenOver(t, row.endpoint)
  {
    ActiveIsNewest(leases, a, clock);
    OlderAreNotActive(leases, a, clock);
    TakeoverFindsNothing(leases, a, row, identity);
    ExpiringExtendsChain(leases, a, row);
    ExpiringKeepsOtherSuccessors(leases, a, row);
  }

  lemma ExpiringReadies(s: State, a: nat, identity: string, owner: string, clock: Instant, now: Instant)
    requires Valid(s, clock) && clock <= now && a < |s.leases|
    requires s.leases[a].status == Active && s.leases[a].expiresAt <= now
    requires FindExecution(s.leases, s.leases[a].endpoint, identity).None?
    ensures ReadyToOpen(Ended(s, a, Expired, ExpiredEvent, owner, now), s.leases[a].endpoint, identity,
                        s.leases[a].takeoverCount + 1, now)
  {
    var row := s.leases[a].(status := Expired, finalizedAt := Some(now));
    ExpiringKeepsRows(s, a, row, owner, clock, now);
    ExpiringClearsTheWay(s.leases, a, row, identity, clock);
  }

  lemma TakeoverFindsNothing(leases: seq<LeaseRow>, a: nat, row: LeaseRow, identity: string)
    requires IsNewest(leases, a) && row == leases[a].(status := Expired, finalizedAt := row.finalizedAt)
    requires FindExecution(leases, row.endpoint, identity).None?
    requires forall i | 0 <= i < a && leases[i].endpoint == row.endpoint :: leases[i].status != Active
    ensures FindExecution(leases[a := row], row.endpoint, identity).None? && FindActive(leases[a := row], row.endpoint).None?
  {
    var t := leases[a := row];
    assert forall i | 0 <= i < |t| :: IsExecution(t[i], row.endpoint, identity) ==> IsExecution(leases[i], row.endpoint, identity);
  }

  lemma ReplayKeepsValid(s: State, i: nat, owner: string, clock: Instant)
    requires Valid(s, clock) && i < |s.leases|
    ensures Valid(s.(log := s.log + [LogRow(i, ReplayedEvent, owner)]), clock)
  {
    UpdateKeepsLog(s, i, s.leases[i], ReplayedEvent, owner);
    assert s.leases[i := s.leases[i]] == s.leases;
  }

  lemma FreeIsReady(s: State, endpoint: int, identity: string, now: Instant)
    requires Valid(s, now) && FindExecution(s.leases, endpoint, identity).None? && FindActive(s.leases, endpoint).None?
    ensures ReadyToOpen(s, endpoint, identity, 0, now)
  {
    NoOpenChain(s.leases, endpoint, |s.leases|);
  }

  lemma TakeoverOpens(s: State, a: nat, identity: string, owner: string, ttl: int, now: Instant)
    requires a < |s.leases|
    ensures Takeover(s, a, identity, owner, ttl, now)
         == Opened(Ended(s, a, Expired, ExpiredEvent, owner, now), s.leases[a].endpoint, identity, owner, ttl, now,
                   s.leases[a].takeoverCount + 1)
  {
  }

  lemma TakeoverKeepsValid(s: State, a: nat, identity: string, owner: string, ttl: int, clock: Instant, now: Instant)
    requires Valid(s, clock) && clock <= now && a < |s.leases| && ttl > 0
    requires s.leases[a].status == Active && s.leases[a].expiresAt <= now
    requires FindExecution(s.leases, s.leases[a].endpoint, identity).None?
    ensures Valid(Takeover(s, a, identity, owner, ttl, now), now)
  {
    var row := s.leases[a];
    var expired := Ended(s, a, Expired, ExpiredEvent, owner, now);
    ExpiringReadies(s, a, identity, owner, clock, now);
    assert ReadyToOpen(expired, row.endpoint, identity, row.takeoverCount + 1, now);
    OpeningKeepsValid(expired, row.endpoint, identity, owner, ttl, now, row.takeoverCount + 1);
    TakeoverOpens(s, a, identity, owner, ttl, now);
  }

  // `Acquire`, branch by branch.

  lemma ReplayingKeepsValid(s: State, endpoint: int, identity: string, owner: string, ttl: int, configured: bool, now: Instant)
    requires Valid(s, now) && FindExecution(s.leases, endpoint, identity).Some?
    ensures Valid(Acquire(s, endpoint, identity, owner, ttl, configured, now).0, now)
  {
    ReplayKeepsValid(s, FindExecution(s.leases, endpoint, identity).value, owner, now);
  }

  lemma FreshGrantKeepsValid(s: State, endpoint: int, identity: string, owner: string, ttl: int, now: Instant)
    requires Valid(s, now) && ttl > 0
    requires FindExecution(s.leases, endpoint, identity).None? && FindActive(s.leases, endpoint).None?
    ensures Valid(Acquire(s, endpoint, identity, owner, ttl, true, now).0, now)
  {
    FreeIsReady(s, endpoint, identity, now);
    OpeningKeepsValid(s, endpoint, identity, owner, ttl, now, 0);
  }

  lemma TakeoverGrantKeepsValid(s: State, endpoint: int, identity: string, owner: string, ttl: int, clock: Instant, now: Instant)
    requires Valid(s, clock) && clock <= now && ttl > 0 && FindExecution(s.leases, endpoint, identity).None?
    requires FindActive(s.leases, endpoint).Some? && s.leases[FindActive(s.leases, endpoint).value].expiresAt <= now
    ensures Valid(Acquire(s, endpoint, identity, owner, ttl, true, now).0, now)
  {
    TakeoverKeepsValid(s, FindActive(s.leases, endpoint).value, identity, owner, ttl, clock, now);
  }

  /** Neither a grant nor a replay, so nothing changes. */
  predicate Refused(s: State, endpoint: int, identity: string, ttl: int, configured: bool, now: Instant) {
    var active := FindActive(s.leases, endpoint);
    && FindExecution(s.leases, endpoint, identity).None?
    && (!configured || ttl <= 0 || (active.Some? && s.leases[active.value].expiresAt > now))
  }

  lemma RefusalChangesNothing(s: State, endpoint: int, identity: string, owner: string, ttl: int, configured: bool, now: Instant)
    requires Refused(s, endpoint, identity, ttl, configured, now)
    ensures Acquire(s, endpoint, identity, owner, ttl, configured, now).0 == s
  {
  }

  lemma AcquireKeepsValid(s: State, endpoint: int, identity: string, owner: string, ttl: int, configured: bool,
                          clock: Instant, now: Instant)
    requires Valid(s, clock) && clock <= now
    ensures Valid(Acquire(s, endpoint, identity, owner, ttl, configured, now).0, now)
  {
    ValidLater(s, clock, now);
    if FindExecution(s.leases, endpoint, identity).Some? {
      ReplayingKeepsValid(s, endpoint, identity, owner, ttl, configured, now);
    } else if Refused(s, endpoint, identity, ttl, configured, now) {
      RefusalChangesNothing(s, endpoint, identity, owner, ttl, configured, now);
    } else if FindActive(s.leases, endpoint).None? {
      FreshGrantKeepsValid(s, endpoint, identity, owner, ttl, now);
    } else {
      TakeoverGrantKeepsValid(s, endpoint, identity, owner, ttl, clock, now);
    }
  }

  lemma HeartbeatKeepsValid(s: State, token: nat, owner: string, ttl: int, clock: Instant, now: Instant)
    requires Valid(s, clock) && clock <= now
    ensures Valid(Heartbeat(s, token, owner, ttl, now).0, now)
  {
    ValidLater(s, clock, now);
    if Heartbeat(s, token, owner, ttl, now).1.Success? {
      ActiveIsNewest(s.leases, token, clock);
      var row := s.leases[token].(heartbeatAt := now, expiresAt := now + ttl);
      assert RowTimes(s.leases[token], clock);
      UpdateKeepsTimes(s.leases, token, row, clock, now);
      UpdateKeepsOrder(s.leases, token, row);
      UpdateKeepsSuccessors(s.leases, token, row);
      UpdateKeepsCounts(s.leases, token, row);
      UpdateKeepsLog(s, token, row, HeartbeatEvent, owner);
    }
  }

  lemma FinalizeKeepsValid(s: State, token: nat, owner: string, outcome: Status, clock: Instant, now: Instant)
    requires Valid(s, clock) && clock <= now
    ensures Valid(Finalize(s, token, owner, outcome, now).0, now)
  {
    ValidLater(s, clock, now);
    if Finalize(s, token, owner, outcome, now).1.Success? {
      EndingKeepsValid(s, token, outcome, OutcomeEvent(outcome), owner, clock, now);
    }
  }
}
