/** Whole runs of the lease protocol: mutual exclusion, fencing, replay and the event log. */
module LeaseRuns {
  import opened Prelude
  import opened Lease

  datatype Event =
    | Acquires(now: Instant, endpoint: int, identity: string, owner: string, ttl: int, configured: bool)
    | Heartbeats(now: Instant, token: nat, owner: string, ttl: int)
    | Finalizes(now: Instant, token: nat, owner: string, outcome: Status)

  function Apply(s: State, e: Event): State {
    match e
    case Acquires(now, endpoint, identity, owner, ttl, configured) =>
      Acquire(s, endpoint, identity, owner, ttl, configured, now).0
    case Heartbeats(now, token, owner, ttl) => Heartbeat(s, token, owner, ttl, now).0
    case Finalizes(now, token, owner, outcome) => Finalize(s, token, owner, outcome, now).0
  }

  function Run(s: State, events: seq<Event>): State {
    if events == [] then s else Apply(Run(s, events[..|events| - 1]), events[|events| - 1])
  }

  /** A run takes its steps one after the other, each the transaction it names. */
  lemma {:induction false} RunsCompose(s: State, a: seq<Event>, b: seq<Event>, e: Event)
    ensures Run(s, a + b) == Run(Run(s, a), b) && Run(s, []) == s
    ensures Run(s, [e])
         == match e
            case Acquires(now, endpoint, identity, owner, ttl, configured) =>
              Acquire(s, endpoint, identity, owner, ttl, configured, now).0
            case Heartbeats(now, token, owner, ttl) => Heartbeat(s, token, owner, ttl, now).0
            case Finalizes(now, token, owner, outcome) => Finalize(s, token, owner, outcome, now).0
    decreases |b|
  {
    assert [e][..0] == [];
    if b == [] {
      assert a + b == a;
    } else {
      assert (a + b)[..|a + b| - 1] == a + b[..|b| - 1];
      RunsCompose(s, a, b[..|b| - 1], e);
    }
  }

  ghost predicate ClockOrdered(events: seq<Event>) {
    forall i, j | 0 <= i < j < |events| :: events[i].now <= events[j].now
  }

  const EMPTY: State := State([], [])

  function LastClock(events: seq<Event>): Instant {
    if events == [] then 0 else events[|events| - 1].now
  }

  lemma {:induction false} RunsAreValid(events: seq<Event>)
    requires ClockOrdered(events)
    ensures Valid(Run(EMPTY, events), LastClock(events))
  {
    if events != [] {
      var prefix := events[..|events| - 1];
      var e := events[|events| - 1];
      var s := Run(EMPTY, prefix);
      RunsAreValid(prefix);
      if prefix == [] {
        ValidAtStart(e.now);
        StepKeepsValid(s, e, e.now);
      } else {
        assert prefix[|prefix| - 1] == events[|prefix| - 1];
        StepKeepsValid(s, e, LastClock(prefix));
      }
    }
  }

  lemma ValidAtStart(clock: Instant)
    ensures Valid(EMPTY, clock)
  {
  }

  lemma StepKeepsValid(s: State, e: Event, clock: Instant)
    requires Valid(s, clock) && clock <= e.now
    ensures Valid(Apply(s, e), e.now)
  {
    match e
    case Acquires(now, endpoint, identity, owner, ttl, configured) =>
      AcquireKeepsValid(s, endpoint, identity, owner, ttl, configured, clock, now);
    case Heartbeats(now, token, owner, ttl) => HeartbeatKeepsValid(s, token, owner, ttl, clock, now);
    case Finalizes(now, token, owner, outcome) => FinalizeKeepsValid(s, token, owner, outcome, clock, now);
  }

  // ------------------------------------------------------------------ mutual exclusion

  /** Of two leases of one endpoint, the earlier one ended, by its owner or by expiry, before the later one began. */
  lemma {:induction false} TenuresAreDisjoint(events: seq<Event>, i: nat, j: nat)
    requires ClockOrdered(events)
    requires var s := Run(EMPTY, events); i < j < |s.leases| && s.leases[i].endpoint == s.leases[j].endpoint
    ensures var s := Run(EMPTY, events); var a, b := s.leases[i], s.leases[j];
      && a.status != Active && a.finalizedAt.Some? && a.finalizedAt.value <= b.acquiredAt
      && (a.status == Expired ==> a.expiresAt <= b.acquiredAt)
      && a.executionIdentity != b.executionIdentity
  {
    RunsAreValid(events);
    var s := Run(EMPTY, events);
    assert Precedes(s.leases[i], s.leases[j]);
    assert RowTimes(s.leases[i], LastClock(events));
  }

  lemma ActiveIsUnique(s: State, clock: Instant, endpoint: int, i: nat, j: nat)
    requires Valid(s, clock) && i < |s.leases| && j < |s.leases|
    requires IsActiveOn(s.leases[i], endpoint) && IsActiveOn(s.leases[j], endpoint)
    ensures i == j
  {
    ActiveIsNewest(s.leases, i, clock);
    ActiveIsNewest(s.leases, j, clock);
  }

  lemma {:induction false} AtMostOneActive(events: seq<Event>, endpoint: int, i: nat, j: nat)
    requires ClockOrdered(events)
    requires var s := Run(EMPTY, events);
      i < |s.leases| && j < |s.leases| && IsActiveOn(s.leases[i], endpoint) && IsActiveOn(s.leases[j], endpoint)
    ensures i == j
  {
    RunsAreValid(events);
    ActiveIsUnique(Run(EMPTY, events), LastClock(events), endpoint, i, j);
  }

  /** A lease is granted exactly when the execution is new and nobody holds the endpoint past this moment. */
  lemma GrantedIff(s: State, endpoint: int, identity: string, owner: string, ttl: int, configured: bool,
                   clock: Instant, now: Instant)
    requires Valid(s, clock)
    ensures Granted(Acquire(s, endpoint, identity, owner, ttl, configured, now).1)
       <==> && configured && ttl > 0
            && (forall i | 0 <= i < |s.leases| :: !IsExecution(s.leases[i], endpoint, identity))
            && (forall i | 0 <= i < |s.leases| && IsActiveOn(s.leases[i], endpoint) :: s.leases[i].expiresAt <= now)
  {
    var active := FindActive(s.leases, endpoint);
    if active.Some? {
      var a := active.value;
      ActiveIsNewest(s.leases, a, clock);
      OlderAreNotActive(s.leases, a, clock);
      assert forall i | 0 <= i < |s.leases| && i != a :: !IsActiveOn(s.leases[i], endpoint);
    }
  }

  /** Whoever is granted the endpoint then holds it alone, until `now + ttl`; the tenures of others are untouched or over. */
  lemma GrantIsExclusive(s: State, endpoint: int, identity: string, owner: string, ttl: int, configured: bool,
                         clock: Instant, now: Instant)
    requires Valid(s, clock) && clock <= now
    requires Granted(Acquire(s, endpoint, identity, owner, ttl, configured, now).1)
    ensures var (t, d) := Acquire(s, endpoint, identity, owner, ttl, configured, now); var n := |s.leases|;
      && d.value.lease == n && |t.leases| == n + 1
      && IsActiveOn(t.leases[n], endpoint) && t.leases[n].owner == owner && t.leases[n].executionIdentity == identity
      && t.leases[n].expiresAt == now + ttl
      && (forall i | 0 <= i < n && s.leases[i].endpoint != endpoint :: t.leases[i] == s.leases[i])
      && (forall i | 0 <= i < n && s.leases[i].endpoint == endpoint :: t.leases[i].status != Active)
  {
    var t := Acquire(s, endpoint, identity, owner, ttl, configured, now).0;
    AcquireKeepsValid(s, endpoint, identity, owner, ttl, configured, clock, now);
    OlderAreNotActive(t.leases, |s.leases|, now);
  }

  /** An event that neither renews nor ends the lease `token` on behalf of its owner. */
  predicate Foreign(e: Event, token: nat, owner: string) {
    !(e.Heartbeats? && e.token == token && e.owner == owner) && !(e.Finalizes? && e.token == token && e.owner == owner)
  }

  /** Until it expires an active lease is nobody else's to end: only its own owner's calls move it. */
  lemma {:induction false} LeaseProtects(s: State, events: seq<Event>, token: nat)
    requires token < |s.leases| && s.leases[token].status == Active
    requires forall i | 0 <= i < |events| :: events[i].now < s.leases[token].expiresAt && Foreign(events[i], token, s.leases[token].owner)
    ensures var t := Run(s, events); token < |t.leases| && t.leases[token] == s.leases[token]
  {
    if events != [] {
      LeaseProtects(s, events[..|events| - 1], token);
    }
  }

  // ------------------------------------------------------------------ fencing

  /** A lease that is no longer active never changes again. */
  lemma {:induction false} EndedStaysEnded(s: State, events: seq<Event>, token: nat)
    requires token < |s.leases| && s.leases[token].status != Active
    ensures var t := Run(s, events); token < |t.leases| && t.leases[token] == s.leases[token]
  {
    if events != [] {
      EndedStaysEnded(s, events[..|events| - 1], token);
    }
  }

  /** After a takeover, and whatever happens next, the old token can neither renew nor finalize: both fail and change nothing. */
  lemma {:induction false} TakeoverFencesOldToken(s: State, endpoint: int, identity: string, owner: string, ttl: int, configured: bool, now: Instant,
                               events: seq<Event>, who: string, later: Instant, newTtl: int, outcome: Status)
    requires Acquire(s, endpoint, identity, owner, ttl, configured, now).1.Success?
    requires Acquire(s, endpoint, identity, owner, ttl, configured, now).1.value.TakenOver?
    ensures var (t, _) := Acquire(s, endpoint, identity, owner, ttl, configured, now);
      var u := Run(t, events);
      var stale := FindActive(s.leases, endpoint).value;
      && stale < |u.leases| && u.leases[stale].status == Expired
      && Heartbeat(u, stale, who, newTtl, later).0 == u && Heartbeat(u, stale, who, newTtl, later).1.Failure?
      && Lease.Finalize(u, stale, who, outcome, later).0 == u && Lease.Finalize(u, stale, who, outcome, later).1.Failure?
  {
    var t := Acquire(s, endpoint, identity, owner, ttl, configured, now).0;
    var a := FindActive(s.leases, endpoint).value;
    assert t.leases[a].status == Expired;
    EndedStaysEnded(t, events, a);
  }

  // ------------------------------------------------------------------ replay

  lemma ExecutionFound(s: State, clock: Instant, endpoint: int, identity: string, i: nat)
    requires Valid(s, clock) && i < |s.leases| && IsExecution(s.leases[i], endpoint, identity)
    ensures FindExecution(s.leases, endpoint, identity) == Some(i)
  {
    forall k | 0 <= k < |s.leases| && k != i ensures !IsExecution(s.leases[k], endpoint, identity) {
      assert if k < i then Precedes(s.leases[k], s.leases[i]) else Precedes(s.leases[i], s.leases[k]);
    }
  }

  lemma {:induction false} IdentityKept(s: State, events: seq<Event>, i: nat)
    requires i < |s.leases|
    ensures var t := Run(s, events);
      && |s.leases| <= |t.leases| && t.leases[i].endpoint == s.leases[i].endpoint
      && t.leases[i].executionIdentity == s.leases[i].executionIdentity && t.leases[i].owner == s.leases[i].owner
  {
    if events != [] {
      IdentityKept(s, events[..|events| - 1], i);
    }
  }

  lemma {:induction false} RunsContinue(a: seq<Event>, b: seq<Event>)
    ensures Run(EMPTY, a + b) == Run(Run(EMPTY, a), b)
  {
    if b == [] {
      assert a + b == a;
    } else {
      assert (a + b)[..|a + b| - 1] == a + b[..|b| - 1];
      RunsContinue(a, b[..|b| - 1]);
    }
  }

  /** Once an execution has a lease, acquiring for it again at any later time returns that lease and changes no lease. */
  lemma {:induction false} ReplayReturnsSameLease(before: seq<Event>, after: seq<Event>, i: nat, owner: string, ttl: int, configured: bool, now: Instant)
    requires ClockOrdered(before + after) && i < |Run(EMPTY, before).leases|
    ensures var row := Run(EMPTY, before).leases[i];
      var s := Run(EMPTY, before + after);
      var (t, d) := Acquire(s, row.endpoint, row.executionIdentity, owner, ttl, configured, now);
      && d == Success(Decision.Replayed(i)) && t.leases == s.leases && t.log == s.log + [LogRow(i, ReplayedEvent, owner)]
  {
    var row := Run(EMPTY, before).leases[i];
    var s := Run(EMPTY, before + after);
    RunsContinue(before, after);
    IdentityKept(Run(EMPTY, before), after, i);
    RunsAreValid(before + after);
    ExecutionFound(s, LastClock(before + after), row.endpoint, row.executionIdentity, i);
  }

  // ------------------------------------------------------------------ the event log

  /** Reading a lease's own rows off the log, replays ignored, gives its status. */
  lemma {:induction false} LogTellsStatus(events: seq<Event>, i: nat)
    requires ClockOrdered(events) && i < |Run(EMPTY, events).leases|
    ensures Fold(Run(EMPTY, events).log, i) == Reading(Run(EMPTY, events).leases[i].status)
  {
    RunsAreValid(events);
  }

  lemma {:induction false} LogOnlyGrows(s: State, events: seq<Event>)
    ensures s.log <= Run(s, events).log
  {
    if events != [] {
      LogOnlyGrows(s, events[..|events| - 1]);
      StepGrowsLog(Run(s, events[..|events| - 1]), events[|events| - 1]);
    }
  }

  lemma StepGrowsLog(s: State, e: Event)
    ensures s.log <= Apply(s, e).log
  {
  }

  /** `takeover_count` is the length of the chain of expired leases the lease directly continues. */
  lemma {:induction false} TakeoverCountIsChainLength(events: seq<Event>, i: nat)
    requires ClockOrdered(events) && i < |Run(EMPTY, events).leases|
    ensures var leases := Run(EMPTY, events).leases;
      leases[i].takeoverCount == ExpiredRunBefore(leases, leases[i].endpoint, i)
  {
    RunsAreValid(events);
  }
}
