/** The lease transactions as the service runs them: the locked row is updated in place and the log appended to. */
module LeaseService {
  import opened Prelude
  import opened Lease

  class LeaseTable {
    var leases: seq<LeaseRow>
    var log: seq<LogRow>

    function Tables(): State
      reads this
    {
      State(leases, log)
    }

    constructor ()
      ensures Tables() == State([], [])
    {
      leases, log := [], [];
    }

    /** The transaction around this one rolls back. */
    method Restore(saved: State)
      modifies this
      ensures Tables() == saved
    {
      leases, log := saved.leases, saved.log;
    }

    method FindReplay(endpoint: int, identity: string) returns (found: Option<nat>)
      ensures found == FindExecution(leases, endpoint, identity)
    {
      var n := |leases|;
      assert leases[..n] == leases;
      while n > 0
        invariant 0 <= n <= |leases|
        invariant FindExecution(leases, endpoint, identity) == FindExecution(leases[..n], endpoint, identity)
      {
        assert leases[..n][..n - 1] == leases[..n - 1];
        if IsExecution(leases[n - 1], endpoint, identity) {
          return Some(n - 1);
        }
        n := n - 1;
      }
      found := None;
    }

    method LockActive(endpoint: int) returns (found: Option<nat>)
      ensures found == FindActive(leases, endpoint)
    {
      var n := |leases|;
      assert leases[..n] == leases;
      while n > 0
        invariant 0 <= n <= |leases| && FindActive(leases, endpoint) == FindActive(leases[..n], endpoint)
      {
        assert leases[..n][..n - 1] == leases[..n - 1];
        if IsActiveOn(leases[n - 1], endpoint) {
          return Some(n - 1);
        }
        n := n - 1;
      }
      found := None;
    }

    method Record(lease: nat, kind: EventKind, actor: string)
      modifies this`log
      ensures log == old(log) + [LogRow(lease, kind, actor)]
    {
      log := log + [LogRow(lease, kind, actor)];
    }

    method Close(i: nat, status: Status, kind: EventKind, actor: string, now: Instant)
      requires i < |leases|
      modifies this
      ensures Tables() == Ended(old(Tables()), i, status, kind, actor, now)
    {
      leases := leases[i := leases[i].(status := status, finalizedAt := Some(now))];
      Record(i, kind, actor);
    }

    method Open(endpoint: int, identity: string, owner: string, ttl: int, now: Instant, takeovers: nat)
      modifies this
      ensures Tables() == Opened(old(Tables()), endpoint, identity, owner, ttl, now, takeovers)
    {
      var token := |leases|;
      leases := leases + [LeaseRow(endpoint, identity, owner, Active, now, now, now + ttl, None, takeovers)];
      Record(token, if takeovers > 0 then TakenOverEvent else AcquiredEvent, owner);
    }

    method ExpireAndOpen(a: nat, identity: string, owner: string, ttl: int, now: Instant)
      requires a < |leases|
      modifies this
      ensures Tables() == Takeover(old(Tables()), a, identity, owner, ttl, now)
    {
      TakeoverOpens(Tables(), a, identity, owner, ttl, now);
      var row := leases[a];
      Close(a, Expired, ExpiredEvent, owner, now);
      Open(row.endpoint, identity, owner, ttl, now, row.takeoverCount + 1);
    }

    method Acquire(endpoint: int, identity: string, owner: string, ttl: int, configured: bool, now: Instant,
                   ghost clock: Instant)
      returns (d: Result<Decision, Error>)
      requires Valid(Tables(), clock) && clock <= now
      modifies this
      ensures Valid(Tables(), now)
      ensures (Tables(), d) == Lease.Acquire(old(Tables()), endpoint, identity, owner, ttl, configured, now)
    {
      AcquireKeepsValid(Tables(), endpoint, identity, owner, ttl, configured, clock, now);
      var replay := FindReplay(endpoint, identity);
      if replay.Some? {
        Record(replay.value, ReplayedEvent, owner);
        return Success(Replayed(replay.value));
      }
      if !configured {
        return Failure(NoActiveConfiguration);
      }
      var active := LockActive(endpoint);
      if active.Some? && leases[active.value].expiresAt > now {
        return Success(Busy(active.value));
      }
      if ttl <= 0 {
        // The insert violates the row's time-order CHECK, which aborts the transaction.
        return Failure(ConstraintViolated);
      }
      var token := |leases|;
      if active.Some? {
        ExpireAndOpen(active.value, identity, owner, ttl, now);
        return Success(TakenOver(token));
      }
      Open(endpoint, identity, owner, ttl, now, 0);
      d := Success(Acquired(token));
    }

    method Heartbeat(token: nat, owner: string, ttl: int, now: Instant, ghost clock: Instant) returns (d: Result<nat, Error>)
      requires Valid(Tables(), clock) && clock <= now
      modifies this
      ensures Valid(Tables(), now) && (Tables(), d) == Lease.Heartbeat(old(Tables()), token, owner, ttl, now)
    {
      HeartbeatKeepsValid(Tables(), token, owner, ttl, clock, now);
      if ttl <= 0 {
        return Failure(InvalidTtl);
      }
      if token >= |leases| {
        return Failure(NoSuchLease);
      }
      var row := leases[token];
      if row.status != Active || row.owner != owner || row.expiresAt <= now {
        return Failure(NoAuthority);
      }
      leases := leases[token := row.(heartbeatAt := now, expiresAt := now + ttl)];
      Record(token, HeartbeatEvent, owner);
      d := Success(token);
    }

    method Finalize(token: nat, owner: string, outcome: Status, now: Instant, ghost clock: Instant) returns (d: Result<nat, Error>)
      requires Valid(Tables(), clock) && clock <= now
      modifies this
      ensures Valid(Tables(), now) && (Tables(), d) == Lease.Finalize(old(Tables()), token, owner, outcome, now)
    {
      FinalizeKeepsValid(Tables(), token, owner, outcome, clock, now);
      if outcome != Released && outcome != Failed {
        return Failure(InvalidOutcome);
      }
      if token >= |leases| {
        return Failure(NoSuchLease);
      }
      if leases[token].status != Active || leases[token].owner != owner {
        return Failure(NoAuthority);
      }
      Close(token, outcome, OutcomeEvent(outcome), owner, now);
      d := Success(token);
    }
  }
}
