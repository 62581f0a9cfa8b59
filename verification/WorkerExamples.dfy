/** Two runs of the workers on which something documented does not hold. */
module WorkerExamples {
  import opened Prelude
  import opened Worker
  import opened WorkerRuns
  import opened WorkerRecovery
  import opened WorkerTenures
  import L = Lease
  import R = RateLimitModel
  import RInv = RateLimitInvariants
  import RElig = RateLimitEligibility
  import RRuns = RateLimitRuns
  import RDenials = RateLimitDenials
  import RGrants = RateLimitGrants

  /** Six requests a minute, one at a time. */
  const ONE_AT_A_TIME: R.Policy := R.PolicyRow(6, 60, 1, 1, 0, None)
  const LOOK: R.Lookups :=
    R.Lookups(Some(R.EndpointConfiguration(1, None, Some("https://example.org"), 1)), Some(ONE_AT_A_TIME), None, 0)
  const PLANS: seq<Plan> := [Plan(1, "a", "worker", 300 * SECOND), Plan(2, "b", "worker", 300 * SECOND)]

  /** Every bucket has the policy, carries no hold and counts at most one request, made at time zero or before. */
  ghost predicate LightlyUsed(s: R.State) {
    forall b | 0 <= b < |s.buckets| ::
      var k := s.buckets[b];
      && k.policy == ONE_AT_A_TIME && k.blockedUntil.None? && k.providerResetAt.None? && k.requestCount <= 1
      && (k.lastRequestAt.Some? ==> k.lastRequestAt.value <= 0)
  }

  ghost predicate AllNew(s: R.State) {
    && (forall x | x in s.bindings :: s.bindings[x] == ONE_AT_A_TIME)
    && (forall b | 0 <= b < |s.buckets| :: s.buckets[b] == R.NewBucket(s.buckets[b].scope, ONE_AT_A_TIME, 0))
  }

  lemma EnsureStaysNew(s: R.State, scope: R.Scope)
    requires AllNew(s)
    ensures AllNew(R.EnsureBucket(s, scope, ONE_AT_A_TIME, 0))
  {
  }

  lemma {:induction false} CreatedAreNew(s: R.State, targets: seq<R.Scope>)
    requires AllNew(s)
    ensures AllNew(R.EnsureBuckets(s, targets, ONE_AT_A_TIME, 0))
  {
    if targets != [] {
      CreatedAreNew(s, targets[..|targets| - 1]);
      EnsureStaysNew(R.EnsureBuckets(s, targets[..|targets| - 1], ONE_AT_A_TIME, 0), targets[|targets| - 1]);
    }
  }

  lemma RefreshedStayNew(s: R.State, targets: seq<R.Scope>)
    requires AllNew(s)
    ensures AllNew(R.RefreshAll(s, targets, 0))
  {
    var t := R.RefreshAll(s, targets, 0);
    forall b | 0 <= b < |t.buckets| ensures t.buckets[b] == s.buckets[b] {
      assert s.buckets[b] == R.NewBucket(s.buckets[b].scope, ONE_AT_A_TIME, 0);
    }
  }

  lemma GrantUsesLightly(s: R.State, targets: seq<R.Scope>, q: R.Request)
    requires AllNew(s)
    ensures LightlyUsed(R.Grant(s, targets, q, 0))
  {
    var t := R.Grant(s, targets, q, 0);
    forall b | 0 <= b < |t.buckets| ensures t.buckets[b] == (if s.buckets[b].scope in targets then R.Charged(s.buckets[b], 0) else s.buckets[b]) {
      assert s.buckets[b] == R.NewBucket(s.buckets[b].scope, ONE_AT_A_TIME, 0);
    }
  }

  /** At the first request nothing is there to be swept, and the windows of the new buckets have only begun. */
  lemma FirstIsPrepared(targets: seq<R.Scope>)
    ensures var s1 := R.EnsureBuckets(RRuns.Initial(map[]), targets, ONE_AT_A_TIME, 0);
      var t := R.RefreshAll(R.Sweep(s1, targets, 0), targets, 0);
      AllNew(t) && t.reservations == []
  {
    var s := RRuns.Initial(map[]);
    CreatedAreNew(s, targets);
    var s1 := R.EnsureBuckets(s, targets, ONE_AT_A_TIME, 0);
    RElig.EnsureBucketsProvides(s, targets, ONE_AT_A_TIME, 0);
    assert R.Sweep(s1, targets, 0) == s1;
    RefreshedStayNew(s1, targets);
  }

  lemma FirstRequestUsesLightly(q: R.Request, look: R.Lookups)
    requires look == LOOK.(runEndpoint := look.runEndpoint)
    requires var d := R.Reserve(RRuns.Initial(map[]), q, look, 0).1; d.Success? && d.value.Reserved?
    ensures var t := R.Reserve(RRuns.Initial(map[]), q, look, 0).0;
      LightlyUsed(t) && |t.reservations| == 1 && t.reservations[0].expiresAt == q.ttl
  {
    var targets := R.TargetsOf(q, look);
    var ready := R.Prepared(RRuns.Initial(map[]), q, look, 0);
    FirstIsPrepared(targets);
    GrantUsesLightly(ready, targets, q);
  }

  /** Preparing, marking and charging leave the policy of a bucket alone. */
  lemma UnchangedPolicy(s: R.State, q: R.Request, look: R.Lookups, now: Instant, b: nat, t: R.State)
    requires b < |s.buckets| && t == R.Reserve(s, q, look, now).0
    ensures b < |t.buckets| && t.buckets[b].policy == s.buckets[b].policy
  {
    if R.EligibilityErrors(q, look).None? {
      RDenials.SweptFrame(s, q, look, now);
      var ready := R.Prepared(s, q, look, now);
      assert b < |ready.buckets| && ready.buckets[b].policy == s.buckets[b].policy;
      assert |t.buckets| == |ready.buckets| || t == s;
    }
  }

  /** The workers after the first `n` events. */
  function After(events: seq<Event>, n: nat): World
    requires n <= |events|
  {
    Run(Start(map[], PLANS), events[..n])
  }

  lemma {:induction false} AfterOneMore(events: seq<Event>, n: nat)
    requires n < |events|
    ensures After(events, n + 1) == Apply(After(events, n), events[n])
  {
    assert events[..n + 1][..n] == events[..n];
  }

  // ------------------------------------------------------------------ two at work where one is allowed

  /** Each call opens and is authorized, the second one two minutes after the first. */
  const TWO_CALLS: seq<Event> := [
    CallEvent(0, OpenStep(true), 0),
    CallEvent(0, AuthorizeStep(true, LOOK, true), 0),
    CallEvent(1, OpenStep(true), 120 * SECOND),
    CallEvent(1, AuthorizeStep(true, LOOK, true), 120 * SECOND)
  ]

  /** The first call is open, nothing else has happened. */
  ghost predicate OneOpen(w: World) {
    && w.rate == RRuns.Initial(map[]) && w.openers == [0] && |w.lease.leases| == 1
    && w.lease.leases[0].endpoint == 1 && w.lease.leases[0].executionIdentity == "a"
    && w.lease.leases[0].owner == "worker" && w.lease.leases[0].status == L.Active
    && w.calls == [Call(PLANS[0], Opened(0)), Call(PLANS[1], Waiting)]
  }

  /** The first call is at work, under a reservation that expires after two minutes. */
  ghost predicate OneWorks(w: World) {
    && |w.calls| == 2 && w.calls[0].stage.Working? && LightlyUsed(w.rate)
    && |w.rate.reservations| == 1 && w.rate.reservations[0].expiresAt == 120 * SECOND
  }

  lemma {:induction false} FirstOpens(events: seq<Event>)
    requires |events| >= 1 && events[0] == TWO_CALLS[0]
    ensures OneOpen(After(events, 1)) && Linked(After(events, 1)) && RInv.Valid(After(events, 1).rate)
  {
    AfterOneMore(events, 0);
    assert events[..0] == [];
    assert events[..1] == [events[0]];
    RunsAreValid(map[], PLANS, events[..1]);
  }

  lemma FirstIsGranted(w: World)
    requires OneOpen(w) && Linked(w) && RInv.Valid(w.rate)
    ensures var d := Reservation(w, 0, LOOK, 0).1; d.Success? && d.value.Reserved?
  {
    AuthorizedIff(w, 0, LOOK, 0);
    FreshRunNeverReplays(w, 0, LOOK, 0);
  }

  /** A granted authorization puts the call to work if it commits, and leaves it with a rolled-back id if it does not. */
  lemma GrantedThenCommitted(w: World, j: nat, look: R.Lookups, commits: bool, now: Instant, t: World)
    requires j < |w.calls| && w.calls[j].stage.Opened?
    requires var d := Reservation(w, j, look, now).1; d.Success? && d.value.Reserved?
    requires t == Apply(w, CallEvent(j, AuthorizeStep(true, look, commits), now))
    ensures var (rate, d) := Reservation(w, j, look, now); var token := w.calls[j].stage.token;
      && t.rate == (if commits then rate else w.rate) && t.lease == w.lease && t.openers == w.openers
      && t.calls == w.calls[j := w.calls[j].(stage := if commits then Working(token, d.value.reservation) else Failing(token, RolledBack))]
  {
  }

  lemma FirstWorks(w: World, t: World)
    requires OneOpen(w) && Linked(w) && RInv.Valid(w.rate) && t == Apply(w, TWO_CALLS[1])
    ensures OneWorks(t) && t.calls[1] == Call(PLANS[1], Waiting) && t.lease == w.lease && t.openers == [0]
  {
    FirstIsGranted(w);
    FirstRequestUsesLightly(RequestOf(w, 0), Seen(w, LOOK, 0));
    GrantedThenCommitted(w, 0, LOOK, true, 0, t);
  }

  lemma SecondOpens(w: World)
    requires OneWorks(w) && w.calls[1] == Call(PLANS[1], Waiting) && |w.lease.leases| == 1 && w.lease.leases[0].endpoint == 1
    ensures var t := Apply(w, TWO_CALLS[2]); OneWorks(t) && t.calls[1].stage.Opened?
  {
  }

  lemma NothingUnexpired(s: R.State, b: nat)
    requires |s.reservations| == 1 && s.reservations[0].expiresAt == 120 * SECOND
    ensures RGrants.Unexpired(s, b, 120 * SECOND) == {}
  {
  }

  lemma SecondWorks(w: World, t: World)
    requires OneWorks(w) && w.calls[1].stage.Opened? && Linked(w) && RInv.Valid(w.rate) && t == Apply(w, TWO_CALLS[3])
    ensures |t.calls| == 2 && t.calls[0] == w.calls[0] && t.calls[1].stage.Working?
  {
    AuthorizedIff(w, 1, LOOK, 120 * SECOND);
    var q := RequestOf(w, 1);
    forall b: nat | b < |w.rate.buckets| && w.rate.buckets[b].scope in R.TargetsOf(q, LOOK)
      ensures RGrants.Free(w.rate, b, 120 * SECOND)
    {
      NothingUnexpired(w.rate, b);
      assert w.rate.buckets[b].policy == ONE_AT_A_TIME;
    }
  }

  lemma {:induction false} AfterTwo()
    ensures var w := After(TWO_CALLS, 2);
      && OneWorks(w) && w.calls[1] == Call(PLANS[1], Waiting) && |w.lease.leases| == 1 && w.lease.leases[0].endpoint == 1
  {
    FirstOpens(TWO_CALLS);
    AfterOneMore(TWO_CALLS, 1);
    FirstWorks(After(TWO_CALLS, 1), After(TWO_CALLS, 2));
  }

  lemma {:induction false} AfterThree()
    ensures var w := After(TWO_CALLS, 3);
      OneWorks(w) && w.calls[1].stage.Opened?
  {
    AfterTwo();
    SecondOpens(After(TWO_CALLS, 2));
    AfterOneMore(TWO_CALLS, 2);
  }

  lemma {:induction false} KeptInvariants(events: seq<Event>, n: nat)
    requires n <= |events| && ClockOrdered(events[..n])
    ensures var w := After(events, n); Linked(w) && RInv.Valid(w.rate) && InstallationFirst(w.rate)
  {
    RunsAreValid(map[], PLANS, events[..n]);
    InstallationStaysFirst(map[], PLANS, events[..n]);
  }

  lemma CapStaysOne(w: World, t: World)
    requires OneWorks(w) && w.calls[1].stage.Opened? && RInv.Valid(w.rate) && InstallationFirst(w.rate)
    requires t == Apply(w, TWO_CALLS[3])
    ensures t.rate.buckets != [] && t.rate.buckets[0].policy == ONE_AT_A_TIME
  {
    assert (0, 0) in w.rate.memberships;
    UnchangedPolicy(w.rate, RequestOf(w, 1), Seen(w, LOOK, w.calls[1].stage.token), 120 * SECOND, 0, t.rate);
  }

  lemma FirstIsReclaimed(w: World, t: World)
    requires OneWorks(w) && w.calls[1].stage.Opened? && Linked(w) && RInv.Valid(w.rate) && InstallationFirst(w.rate)
    requires t == Apply(w, TWO_CALLS[3])
    ensures t.rate.reservations != [] && t.rate.reservations[0].status != R.Active
  {
    StepEndsIff(w, TWO_CALLS[3], 0);
    assert Reclaims(w, TWO_CALLS[3], 0);
  }

  lemma BothAtWork(w: World)
    requires Linked(w) && InstallationFirst(w.rate) && |w.calls| == 2 && w.calls[0].stage.Working? && w.calls[1].stage.Working?
    ensures AtWork(w, 0) == {0, 1}
  {
    forall i: nat | i < 2 ensures WorksAt(w, i, 0) {
      assert ReservationIsOwn(w, i);
    }
  }

  lemma {:induction false} AfterFour()
    ensures var w := After(TWO_CALLS, 4);
      && |w.calls| == 2 && w.calls[0].stage.Working? && w.calls[1].stage.Working?
      && w.rate.buckets != [] && w.rate.buckets[0].policy == ONE_AT_A_TIME
      && w.rate.reservations != [] && w.rate.reservations[0].status != R.Active
  {
    AfterThree();
    KeptInvariants(TWO_CALLS, 3);
    AfterOneMore(TWO_CALLS, 3);
    SecondWorks(After(TWO_CALLS, 3), After(TWO_CALLS, 4));
    CapStaysOne(After(TWO_CALLS, 3), After(TWO_CALLS, 4));
    FirstIsReclaimed(After(TWO_CALLS, 3), After(TWO_CALLS, 4));
  }

  /**
   A cap of one does not keep two calls from working at once: the authorization of the second, two minutes after the
   first, reclaims the first one's reservation and is granted, while the lease of the first has three minutes to go.
   */
  lemma {:induction false} TwoAtWork()
    ensures var w := Run(Start(map[], PLANS), TWO_CALLS);
      && w.rate.buckets != [] && w.rate.buckets[0].scope == R.Installation && w.rate.buckets[0].policy.maxConcurrency == 1
      && AtWork(w, 0) == {0, 1}
      && w.rate.reservations != [] && w.rate.reservations[0].status != R.Active
  {
    AfterFour();
    KeptInvariants(TWO_CALLS, 4);
    BothAtWork(After(TWO_CALLS, 4));
    assert TWO_CALLS[..4] == TWO_CALLS;
  }

  // ------------------------------------------------------------------ a lease left behind

  /** A call opens, its authorization fails to commit, and it closes. */
  const LOST_COMMIT: seq<Event> := [
    CallEvent(0, OpenStep(true), 0),
    CallEvent(0, AuthorizeStep(true, LOOK, false), 0),
    CallEvent(0, CloseStep(true), 0)
  ]

  lemma LosesReservation(w: World, t: World)
    requires OneOpen(w) && Linked(w) && RInv.Valid(w.rate) && t == Apply(w, LOST_COMMIT[1])
    ensures t.calls == [Call(PLANS[0], Failing(0, RolledBack)), w.calls[1]] && t.rate == w.rate && t.lease == w.lease
  {
    FirstIsGranted(w);
    GrantedThenCommitted(w, 0, LOOK, false, 0, t);
  }

  lemma ClosesInVain(w: World, t: World)
    requires t == Apply(w, LOST_COMMIT[2]) && |w.calls| == 2 && w.calls[0] == Call(PLANS[0], Failing(0, RolledBack))
    requires |w.lease.leases| == 1 && w.lease.leases[0].status == L.Active
    ensures Stranded(t, 0)
  {
  }

  /**
   The commit of the authorization fails after the worker has noted the new reservation's id: the exception branch tries
   to finalize a reservation that was rolled back, raises, and the lease stays active behind a call that is over.
   */
  lemma {:induction false} LostCommitStrandsLease()
    ensures Stranded(Run(Start(map[], PLANS), LOST_COMMIT), 0)
  {
    FirstOpens(LOST_COMMIT);
    AfterOneMore(LOST_COMMIT, 1);
    LosesReservation(After(LOST_COMMIT, 1), After(LOST_COMMIT, 2));
    AfterOneMore(LOST_COMMIT, 2);
    ClosesInVain(After(LOST_COMMIT, 2), After(LOST_COMMIT, 3));
    assert LOST_COMMIT[..3] == LOST_COMMIT;
  }
}
