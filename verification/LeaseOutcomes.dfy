/** What each lease transaction leaves behind, and what renewing is worth. */
module LeaseOutcomes {
  import opened Prelude
  import opened Lease
  import opened LeaseRuns

  /** The only lease that stands in the way of an acquisition. */
  predicate Holds(s: State, i: nat, endpoint: int) {
    i < |s.leases| && s.leases[i].endpoint == endpoint && s.leases[i].status == Active
  }

  predicate HasExecution(s: State, endpoint: int, identity: string) {
    exists i | 0 <= i < |s.leases| :: s.leases[i].endpoint == endpoint && s.leases[i].executionIdentity == identity
  }

  predicate Held(s: State, endpoint: int) {
    exists i | 0 <= i < |s.leases| :: Holds(s, i, endpoint)
  }

  /** The row of a lease granted at `now`. */
  function Granting(endpoint: int, identity: string, owner: string, ttl: int, now: Instant, takeovers: nat): LeaseRow {
    LeaseRow(endpoint, identity, owner, Active, now, now, now + ttl, None, takeovers)
  }

  /** An execution that has a lease gets it again, only noted in the log; a new one needs an active configuration. */
  lemma AcquireAnswersFirst(s: State, endpoint: int, identity: string, owner: string, ttl: int, configured: bool, now: Instant)
    ensures var (t, d) := Acquire(s, endpoint, identity, owner, ttl, configured, now);
      if HasExecution(s, endpoint, identity) then
        && d.Success? && d.value.Replayed? && d.value.lease < |s.leases|
        && s.leases[d.value.lease].endpoint == endpoint && s.leases[d.value.lease].executionIdentity == identity
        && t == State(s.leases, s.log + [LogRow(d.value.lease, ReplayedEvent, owner)])
      else !configured ==> (t, d) == (s, Failure(NoActiveConfiguration))
  {
  }

  lemma ActiveIsFound(s: State, a: nat, endpoint: int, clock: Instant)
    requires Valid(s, clock) && Holds(s, a, endpoint)
    ensures FindActive(s.leases, endpoint) == Some(a)
  {
    ActiveIsUnique(s, clock, endpoint, a, FindActive(s.leases, endpoint).value);
  }

  /**
   While somebody holds the endpoint past `now` a new execution is busy and changes nothing; a holder whose time is over is
   expired by whoever takes over, who continues its count of takeovers by one.
   */
  lemma AcquireHeldExactly(s: State, a: nat, endpoint: int, identity: string, owner: string, ttl: int, clock: Instant, now: Instant)
    requires Valid(s, clock) && Holds(s, a, endpoint) && !HasExecution(s, endpoint, identity)
    ensures var (t, d) := Acquire(s, endpoint, identity, owner, ttl, true, now); var n := |s.leases|;
      if s.leases[a].expiresAt > now then (t, d) == (s, Success(Busy(a)))
      else if ttl <= 0 then (t, d) == (s, Failure(ConstraintViolated))
      else
        && d == Success(TakenOver(n))
        && t.leases == s.leases[a := s.leases[a].(status := Expired, finalizedAt := Some(now))]
                       + [Granting(endpoint, identity, owner, ttl, now, s.leases[a].takeoverCount + 1)]
        && t.log == s.log + [LogRow(a, ExpiredEvent, owner), LogRow(n, TakenOverEvent, owner)]
  {
    ActiveIsFound(s, a, endpoint, clock);
    var (t, d) := Acquire(s, endpoint, identity, owner, ttl, true, now);
    assert d.Success? && d.value.TakenOver? ==>
      t.log == s.log + [LogRow(a, ExpiredEvent, owner)] + [LogRow(|s.leases|, TakenOverEvent, owner)];
  }

  /** A free endpoint goes to the first new execution with a positive lifetime. */
  lemma AcquireFreeExactly(s: State, endpoint: int, identity: string, owner: string, ttl: int, now: Instant)
    requires !Held(s, endpoint) && !HasExecution(s, endpoint, identity)
    ensures var (t, d) := Acquire(s, endpoint, identity, owner, ttl, true, now); var n := |s.leases|;
      if ttl <= 0 then (t, d) == (s, Failure(ConstraintViolated))
      else
        && d == Success(Acquired(n))
        && t == State(s.leases + [Granting(endpoint, identity, owner, ttl, now, 0)], s.log + [LogRow(n, AcquiredEvent, owner)])
  {
    var active := FindActive(s.leases, endpoint);
    assert active.Some? ==> Holds(s, active.value, endpoint);
  }

  /**
   A heartbeat with a positive lifetime renews exactly the active, unexpired lease of its own owner, until `now` plus that
   lifetime, and is refused without a change in every other case.
   */
  lemma HeartbeatExactly(s: State, token: nat, owner: string, ttl: int, now: Instant)
    ensures var (t, d) := Heartbeat(s, token, owner, ttl, now);
      if ttl <= 0 then (t, d) == (s, Failure(InvalidTtl))
      else if token >= |s.leases| then (t, d) == (s, Failure(NoSuchLease))
      else
        var row := s.leases[token];
        if row.status == Active && row.owner == owner && now < row.expiresAt then
          && d == Success(token) && t.leases == s.leases[token := row.(heartbeatAt := now, expiresAt := now + ttl)]
          && t.log == s.log + [LogRow(token, HeartbeatEvent, owner)]
        else (t, d) == (s, Failure(NoAuthority))
  {
  }

  /** Finalizing ends exactly the active lease of its own owner, expired or not, and is refused without a change otherwise. */
  lemma FinalizeExactly(s: State, token: nat, owner: string, outcome: Status, now: Instant)
    ensures var (t, d) := Lease.Finalize(s, token, owner, outcome, now);
      if outcome != Released && outcome != Failed then (t, d) == (s, Failure(InvalidOutcome))
      else if token >= |s.leases| then (t, d) == (s, Failure(NoSuchLease))
      else
        var row := s.leases[token];
        if row.status == Active && row.owner == owner then
          && d == Success(token) && t.leases == s.leases[token := row.(status := outcome, finalizedAt := Some(now))]
          && t.log == s.log + [LogRow(token, if outcome == Released then ReleasedEvent else FailedEvent, owner)]
        else (t, d) == (s, Failure(NoAuthority))
  {
  }

  /** A renewal in time keeps everybody else out until its own end, whatever they try. */
  lemma {:induction false} RenewalProtects(s: State, token: nat, ttl: int, now: Instant, events: seq<Event>)
    requires token < |s.leases| && s.leases[token].status == Active && now < s.leases[token].expiresAt && ttl > 0
    requires forall i | 0 <= i < |events| :: events[i].now < now + ttl && Foreign(events[i], token, s.leases[token].owner)
    ensures var (t, d) := Heartbeat(s, token, s.leases[token].owner, ttl, now); var u := Run(t, events);
      && d.Success? && token < |u.leases| && u.leases[token].status == Active && u.leases[token].expiresAt == now + ttl
  {
    var t := Heartbeat(s, token, s.leases[token].owner, ttl, now).0;
    LeaseProtects(t, events, token);
  }

  // ------------------------------------------------------------------ the event log

  predicate Opens(kind: EventKind) {
    kind == AcquiredEvent || kind == TakenOverEvent
  }

  predicate Ends(kind: EventKind) {
    kind == ReleasedEvent || kind == FailedEvent || kind == ExpiredEvent
  }

  /** Of two rows of one lease the later never opens it, and only notes a replay once the earlier has ended it. */
  predicate InSequence(earlier: LogRow, later: LogRow) {
    earlier.lease == later.lease ==> !Opens(later.kind) && (Ends(earlier.kind) ==> later.kind == ReplayedEvent)
  }

  /** No row of the log is about the lease. */
  ghost predicate Absent(log: seq<LogRow>, lease: nat) {
    forall j | 0 <= j < |log| :: log[j].lease != lease
  }

  ghost predicate Ended(log: seq<LogRow>, lease: nat) {
    exists j | 0 <= j < |log| :: log[j].lease == lease && Ends(log[j].kind)
  }

  /** Some row before `j` is about the lease. */
  ghost predicate Preceded(log: seq<LogRow>, lease: nat, j: nat) {
    exists i | 0 <= i < j && i < |log| :: log[i].lease == lease
  }

  /** The first row about the lease opens it. */
  ghost predicate Begun(log: seq<LogRow>, lease: nat) {
    forall j: nat | j < |log| && log[j].lease == lease && !Opens(log[j].kind) :: Preceded(log, lease, j)
  }

  ghost predicate InOrder(log: seq<LogRow>, lease: nat) {
    forall i, j | 0 <= i < j < |log| && log[j].lease == lease :: InSequence(log[i], log[j])
  }

  lemma OneMoreRow(most: seq<LogRow>, last: LogRow, lease: nat)
    ensures var log := most + [last];
      && (Absent(log, lease) <==> Absent(most, lease) && last.lease != lease)
      && (Ended(log, lease) <==> Ended(most, lease) || (last.lease == lease && Ends(last.kind)))
      && Fold(log, lease) == (if last.lease == lease then Next(Fold(most, lease), last.kind) else Fold(most, lease))
  {
    var log := most + [last];
    assert log[..|log| - 1] == most && log[|most|] == last;
    assert forall j | 0 <= j < |most| :: log[j] == most[j];
  }

  lemma OneMoreInOrder(most: seq<LogRow>, last: LogRow, lease: nat)
    requires InOrder(most, lease)
    requires last.lease == lease && Opens(last.kind) ==> Absent(most, lease)
    requires last.lease == lease && Ended(most, lease) ==> last.kind == ReplayedEvent
    ensures InOrder(most + [last], lease)
  {
    var log := most + [last];
    forall i, j | 0 <= i < j < |log| && log[j].lease == lease ensures InSequence(log[i], log[j]) {
      assert log[i] == most[i];
      if j < |most| {
        assert InSequence(most[i], most[j]);
      }
    }
  }

  lemma OneMoreBegun(most: seq<LogRow>, last: LogRow, lease: nat)
    requires Begun(most, lease)
    requires last.lease == lease && !Opens(last.kind) ==> !Absent(most, lease)
    ensures Begun(most + [last], lease)
  {
    var log := most + [last];
    forall j: nat | j < |log| && log[j].lease == lease && !Opens(log[j].kind) ensures Preceded(log, lease, j) {
      assert j < |most| ==> most[j] == log[j] && Preceded(most, lease, j);
      var i :| 0 <= i < j && i < |most| && most[i].lease == lease;
      assert log[i] == most[i];
    }
  }

  /** An unbroken log is not begun exactly without rows, and over exactly with an end. */
  lemma {:induction false} FoldMarks(log: seq<LogRow>, lease: nat)
    requires Fold(log, lease) != Broken
    ensures Fold(log, lease).Unborn? <==> Absent(log, lease)
    ensures Fold(log, lease).Over? <==> Ended(log, lease)
    decreases |log|
  {
    if log != [] {
      var most, last := log[..|log| - 1], log[|log| - 1];
      OneMoreRow(most, last, lease);
      assert log == most + [last];
      FoldMarks(most, lease);
    }
  }

  lemma {:induction false} UnbrokenIsInOrder(log: seq<LogRow>, lease: nat)
    requires Fold(log, lease) != Broken
    ensures InOrder(log, lease)
    decreases |log|
  {
    if log != [] {
      var most, last := log[..|log| - 1], log[|log| - 1];
      FoldMarks(most, lease);
      UnbrokenIsInOrder(most, lease);
      OneMoreInOrder(most, last, lease);
      assert log == most + [last];
    }
  }

  lemma {:induction false} UnbrokenIsBegun(log: seq<LogRow>, lease: nat)
    requires Fold(log, lease) != Broken
    ensures Begun(log, lease)
    decreases |log|
  {
    if log != [] {
      var most, last := log[..|log| - 1], log[|log| - 1];
      FoldMarks(most, lease);
      UnbrokenIsBegun(most, lease);
      OneMoreBegun(most, last, lease);
      assert log == most + [last];
    }
  }

  /**
   On every run the log tells of every lease in order: its opening first and only once, renewals while it lasts, then at
   most one end, and from the opening on replays at any time.
   */
  lemma {:induction false} LogIsSequenced(events: seq<Event>, i: nat)
    requires ClockOrdered(events) && i < |Run(EMPTY, events).leases|
    ensures InOrder(Run(EMPTY, events).log, i) && Begun(Run(EMPTY, events).log, i)
  {
    LogTellsStatus(events, i);
    UnbrokenIsInOrder(Run(EMPTY, events).log, i);
    UnbrokenIsBegun(Run(EMPTY, events).log, i);
  }
}
