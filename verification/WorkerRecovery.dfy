/** What happens to a reservation whose call never gave it back. */
module WorkerRecovery {
  import opened Prelude
  import opened Worker
  import opened WorkerRuns
  import R = RateLimitModel
  import RInv = RateLimitInvariants
  import RElig = RateLimitEligibility
  import RRuns = RateLimitRuns

  /** The installation-wide bucket is the first one, and every reservation is charged to it. */
  ghost predicate InstallationFirst(s: R.State) {
    && (s.buckets != [] ==> s.buckets[0].scope == R.Installation)
    && (forall r: nat | r < |s.reservations| :: (r, 0) in s.memberships)
  }

  lemma {:induction false} EnsureStartsWith(s: R.State, targets: seq<R.Scope>, inherited: R.Policy, clock: Instant)
    requires targets != []
    ensures var t := R.EnsureBuckets(s, targets, inherited, clock);
      t.buckets != [] && t.buckets[0].scope == if s.buckets != [] then s.buckets[0].scope else targets[0]
  {
    var most := targets[..|targets| - 1];
    if most != [] {
      EnsureStartsWith(s, most, inherited, clock);
      assert most[0] == targets[0];
    } else {
      assert R.EnsureBuckets(s, most, inherited, clock) == s;
    }
  }

  lemma PreparedStaysFirst(s: R.State, q: R.Request, look: R.Lookups, now: Instant)
    requires RInv.Valid(s) && InstallationFirst(s) && R.EligibilityErrors(q, look).None?
    ensures var t := R.Prepared(s, q, look, now);
      InstallationFirst(t) && t.buckets != [] && t.memberships.Keys == s.memberships.Keys
  {
    var targets := R.TargetsOf(q, look);
    assert targets[0] == R.Installation;
    EnsureStartsWith(s, targets, look.defaultPolicy.value, look.databaseClock);
    var s1 := R.EnsureBuckets(s, targets, look.defaultPolicy.value, look.databaseClock);
    RElig.SweepFrame(s1, targets, now, |s1.reservations|);
    RElig.PreparationTakesNothing(s, q, look, now);
    assert R.Sweep(s1, targets, now).buckets[0].scope == s1.buckets[0].scope;
  }

  lemma GrantStaysFirst(s: R.State, targets: seq<R.Scope>, q: R.Request, now: Instant)
    requires RInv.Valid(s) && InstallationFirst(s) && s.buckets != [] && R.Installation in targets
    ensures InstallationFirst(R.Grant(s, targets, q, now))
  {
    RRuns.GrantMemberships(s, targets, q, now);
  }

  lemma ReserveStaysFirst(s: R.State, q: R.Request, look: R.Lookups, now: Instant)
    requires RInv.Valid(s) && InstallationFirst(s)
    ensures InstallationFirst(R.Reserve(s, q, look, now).0)
  {
    if q.ttl > 0 && R.FindReservation(s.reservations, q).None? && R.EligibilityErrors(q, look).None? {
      PreparedStaysFirst(s, q, look, now);
      RInv.PreparedKeepsValid(s, q, look, now);
      var targets := R.TargetsOf(q, look);
      assert targets[0] == R.Installation;
      GrantStaysFirst(R.Prepared(s, q, look, now), targets, q, now);
    }
  }

  lemma StepStaysFirst(w: World, e: Event)
    requires RInv.Valid(w.rate) && InstallationFirst(w.rate)
    ensures InstallationFirst(Apply(w, e).rate)
  {
    match e
    case HoldEvent(_, _, _, _) =>
    case RenewEvent(_, _, _, _) =>
    case CallEvent(i, step, at) =>
      if i < |w.calls| {
        if step.AuthorizeStep? && w.calls[i].stage.Opened? {
          ReserveStaysFirst(w.rate, RequestOf(w, i), Seen(w, step.look, w.calls[i].stage.token), at);
        }
      }
  }

  lemma {:induction false} InstallationStaysFirst(bindings: map<R.Scope, R.Policy>, plans: seq<Plan>, events: seq<Event>)
    requires ClockOrdered(events)
    ensures InstallationFirst(Run(Start(bindings, plans), events).rate)
  {
    if events != [] {
      var most := events[..|events| - 1];
      InstallationStaysFirst(bindings, plans, most);
      RunsAreValid(bindings, plans, most);
      StepStaysFirst(Run(Start(bindings, plans), most), events[|events| - 1]);
    }
  }

  /** Preparing the buckets of any request expires exactly the active reservations whose time is over. */
  lemma PreparedSweeps(s: R.State, q: R.Request, look: R.Lookups, now: Instant, r: nat)
    requires RInv.Valid(s) && InstallationFirst(s) && r < |s.reservations| && s.reservations[r].status == R.Active
    requires R.EligibilityErrors(q, look).None?
    ensures var t := R.Prepared(s, q, look, now);
      r < |t.reservations| && t.reservations[r].status == if s.reservations[r].expiresAt <= now then R.Expired else R.Active
  {
    var targets := R.TargetsOf(q, look);
    assert targets[0] == R.Installation;
    var s1 := R.EnsureBuckets(s, targets, look.defaultPolicy.value, look.databaseClock);
    RElig.EnsureBucketsProvides(s, targets, look.defaultPolicy.value, look.databaseClock);
    EnsureStartsWith(s, targets, look.defaultPolicy.value, look.databaseClock);
    assert (r, 0) in s1.memberships && s1.buckets[0].scope in targets;
    RRuns.SweepExpiresAbandoned(s1, targets, now, |s1.reservations|, r);
  }

  /** A request that reaches the buckets and does not raise leaves the reservations as its preparation did, but for its own. */
  lemma ReservePrepares(s: R.State, q: R.Request, look: R.Lookups, now: Instant)
    requires var d := R.Reserve(s, q, look, now).1; d.Success? && !d.value.Replayed?
    ensures R.EligibilityErrors(q, look).None?
    ensures R.Prepared(s, q, look, now).reservations <= R.Reserve(s, q, look, now).0.reservations
  {
  }

  /**
   A reservation that its call never gave back, because of a crash or because its lease was taken over, is
   freed by the next authorisation attempt of any call on any endpoint once its TTL is over, and by none before.
   */
  lemma {:induction false} NextAuthorizationFrees(bindings: map<R.Scope, R.Policy>, plans: seq<Plan>, events: seq<Event>,
                               r: nat, j: nat, look: R.Lookups, now: Instant)
    requires ClockOrdered(events) && LastClock(events) <= now
    requires var w := Run(Start(bindings, plans), events);
      && r < |w.rate.reservations| && w.rate.reservations[r].status == R.Active
      && j < |w.calls| && w.calls[j].stage.Opened?
      && R.EligibilityErrors(RequestOf(w, j), look).None?
    ensures var w := Run(Start(bindings, plans), events);
      var t := Authorize(w, j, true, look, true, now);
      && r < |t.rate.reservations|
      && (t.rate.reservations[r].status == R.Expired <==> w.rate.reservations[r].expiresAt <= now)
      && (w.rate.reservations[r].expiresAt <= now ==> forall b: nat | b < |t.rate.buckets| :: !R.Open(t.rate, r, b))
  {
    RunsAreValid(bindings, plans, events);
    InstallationStaysFirst(bindings, plans, events);
    var w := Run(Start(bindings, plans), events);
    var q := RequestOf(w, j);
    var seen := Seen(w, look, w.calls[j].stage.token);
    FreshRunNeverReplays(w, j, look, now);
    ReserveDrifts(w.rate, q, seen, now);
    assert R.EligibilityErrors(q, seen).None?;
    ReservePrepares(w.rate, q, seen, now);
    PreparedSweeps(w.rate, q, seen, now, r);
    RRuns.ReserveKeepsTimely(w.rate, q, seen, LastClock(events), now);
  }
}
