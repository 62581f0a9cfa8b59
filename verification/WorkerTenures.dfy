/**
 The worker leaves its reservations the default lifetime of two minutes, while its lease lasts five: how long a working
 call keeps its slots, and what a concurrency cap is worth for calls at work.
 */
module WorkerTenures {
  import opened Prelude
  import opened Worker
  import opened WorkerRuns
  import opened WorkerRecovery
  import opened WorkerRefinement
  import R = RateLimitModel
  import RInv = RateLimitInvariants
  import RTen = RateLimitTenures
  import RGrants = RateLimitGrants

  // ------------------------------------------------------------------ what ends a reservation

  /** The event is a committed authorization that reaches the buckets, at or after the expiry of reservation `r`. */
  predicate Reclaims(w: World, e: Event, r: nat) {
    && r < |w.rate.reservations| && w.rate.reservations[r].expiresAt <= e.at
    && e.CallEvent? && e.call < |w.calls| && e.step.AuthorizeStep? && w.calls[e.call].stage.Opened?
    && e.step.credentials && e.step.commits && R.EligibilityErrors(RequestOf(w, e.call), e.step.look).None?
  }

  /** The event is a committed close by the call that holds reservation `r`. */
  predicate GivesBack(w: World, e: Event, r: nat) {
    && e.CallEvent? && e.call < |w.calls| && e.step.CloseStep?
    && Closing(w.calls[e.call].stage) && Held(w.calls[e.call].stage) == Row(r)
    && Closure(w, e.call, e.step.commits, e.at).2 == Closed
  }

  /** Every request targets the installation's bucket and every reservation is charged to it. */
  lemma AllShare(s: R.State, q: R.Request, look: R.Lookups, r: nat)
    requires RInv.Valid(s) && InstallationFirst(s) && r < |s.reservations| && R.EligibilityErrors(q, look).None?
    ensures RTen.Shares(s, R.TargetsOf(q, look), r)
  {
    assert R.TargetsOf(q, look)[0] == R.Installation;
    assert (r, 0) in s.memberships;
  }

  /** The authorization of a call that has just opened is kept exactly when it reaches the buckets. */
  lemma KeptIffEligible(w: World, i: nat, look: R.Lookups, now: Instant)
    requires Linked(w) && i < |w.calls| && w.calls[i].stage.Opened?
    ensures RTen.Kept(w.rate, RequestOf(w, i), Seen(w, look, w.calls[i].stage.token), now)
       <==> R.EligibilityErrors(RequestOf(w, i), look).None?
  {
    FreshRunNeverReplays(w, i, look, now);
  }

  /** One event of the workers ends an active reservation exactly by giving it back or by reclaiming it. */
  lemma StepEndsIff(w: World, e: Event, r: nat)
    requires Linked(w) && RInv.Valid(w.rate) && InstallationFirst(w.rate) && r < |w.rate.reservations|
    ensures var t := Apply(w, e).rate;
      && r < |t.reservations| && t.reservations[r].expiresAt == w.rate.reservations[r].expiresAt
      && (t.reservations[r].status == R.Active
          <==> w.rate.reservations[r].status == R.Active && !Reclaims(w, e, r) && !GivesBack(w, e, r))
  {
    StepRefinesRate(w, e);
    if RateEvents(w, e) != [] {
      var x := RateEvents(w, e)[0];
      RTen.StepEndsIff(w.rate, x, r);
      if x.ReserveEvent? {
        KeptIffEligible(w, e.call, e.step.look, e.at);
        if R.EligibilityErrors(x.q, x.look).None? {
          AllShare(w.rate, x.q, x.look, r);
        }
      }
    }
  }

  ghost predicate ReclaimedAt(start: World, events: seq<Event>, k: nat, r: nat) {
    k < |events| && Reclaims(Run(start, events[..k]), events[k], r)
  }

  ghost predicate NeverReclaimed(start: World, events: seq<Event>, r: nat) {
    forall k: nat | k < |events| :: !ReclaimedAt(start, events, k, r)
  }

  lemma NeverReclaimedSplits(start: World, events: seq<Event>, r: nat)
    requires events != []
    ensures var most := events[..|events| - 1];
      NeverReclaimed(start, events, r) <==> NeverReclaimed(start, most, r) && !Reclaims(Run(start, most), events[|events| - 1], r)
  {
    var most := events[..|events| - 1];
    forall k: nat | k < |most| ensures ReclaimedAt(start, most, k, r) <==> ReclaimedAt(start, events, k, r) {
      assert most[..k] == events[..k];
    }
    assert ReclaimedAt(start, events, |most|, r) <==> Reclaims(Run(start, most), events[|most|], r);
  }

  /** One reservation is held by one call. */
  lemma OneHolder(w: World, i: nat, j: nat)
    requires Linked(w) && i < |w.calls| && j < |w.calls| && Held(w.calls[i].stage).Row? && Held(w.calls[i].stage) == Held(w.calls[j].stage)
    ensures i == j
  {
    assert ReservationIsOwn(w, i) && LeaseIsOwn(w, i) && ReservationIsOwn(w, j) && LeaseIsOwn(w, j);
  }

  ghost predicate WorksOn(w: World, i: nat, r: nat) {
    i < |w.calls| && w.calls[i].stage.Working? && w.calls[i].stage.reservation == r
  }

  /** A call that works after an event worked before it, or was granted a new, active reservation by it. */
  lemma WorkBegins(w: World, e: Event, i: nat, r: nat)
    requires Linked(w) && WorksOn(Apply(w, e), i, r)
    ensures WorksOn(w, i, r)
         || (r == |w.rate.reservations| < |Apply(w, e).rate.reservations| && Apply(w, e).rate.reservations[r].status == R.Active)
  {
    if e.CallEvent? && e.call == i && e.step.AuthorizeStep? && w.calls[i].stage.Opened? && e.step.credentials {
      FreshRunNeverReplays(w, i, e.step.look, e.at);
      ReserveDrifts(w.rate, RequestOf(w, i), Seen(w, e.step.look, w.calls[i].stage.token), e.at);
    }
  }

  /** Nothing reclaims a reservation that does not exist yet. */
  lemma {:induction false} NotYetReclaimed(bindings: map<R.Scope, R.Policy>, plans: seq<Plan>, events: seq<Event>, r: nat)
    requires ClockOrdered(events) && |Run(Start(bindings, plans), events).rate.reservations| <= r
    ensures NeverReclaimed(Start(bindings, plans), events, r)
  {
    if events != [] {
      var most, e := events[..|events| - 1], events[|events| - 1];
      var w := Run(Start(bindings, plans), most);
      RunsAreValid(bindings, plans, most);
      InstallationStaysFirst(bindings, plans, most);
      if r < |w.rate.reservations| {
        StepEndsIff(w, e, r);
      }
      NotYetReclaimed(bindings, plans, most, r);
      NeverReclaimedSplits(Start(bindings, plans), events, r);
    }
  }

  /**
   On every run a call at work still has its reservation if and only if no authorization of any call that reached the
   buckets was committed at or after the reservation's expiry.
   */
  lemma {:induction false} WorkingUntilReclaimed(bindings: map<R.Scope, R.Policy>, plans: seq<Plan>, events: seq<Event>, i: nat, r: nat)
    requires ClockOrdered(events) && WorksOn(Run(Start(bindings, plans), events), i, r)
    ensures var w := Run(Start(bindings, plans), events);
      && r < |w.rate.reservations|
      && (w.rate.reservations[r].status == R.Active <==> NeverReclaimed(Start(bindings, plans), events, r))
  {
    if events == [] {
      assert false;
    } else {
      var most, e := events[..|events| - 1], events[|events| - 1];
      var w := Run(Start(bindings, plans), most);
      RunsAreValid(bindings, plans, most);
      InstallationStaysFirst(bindings, plans, most);
      WorkBegins(w, e, i, r);
      NeverReclaimedSplits(Start(bindings, plans), events, r);
      if WorksOn(w, i, r) {
        WorkingUntilReclaimed(bindings, plans, most, i, r);
        StepEndsIff(w, e, r);
        WorkingGivesNothingBack(w, e, i, r);
      } else {
        NotYetReclaimed(bindings, plans, most, r);
      }
    }
  }

  lemma WorkingGivesNothingBack(w: World, e: Event, i: nat, r: nat)
    requires Linked(w) && WorksOn(w, i, r)
    ensures !GivesBack(w, e, r)
  {
    if e.CallEvent? && e.call < |w.calls| && Held(w.calls[e.call].stage) == Row(r) {
      OneHolder(w, e.call, i);
    }
  }

  // ------------------------------------------------------------------ the cap and the calls at work

  /** Call `i` works on bucket `b`. */
  predicate WorksAt(w: World, i: nat, b: nat) {
    i < |w.calls| && w.calls[i].stage.Working? && (w.calls[i].stage.reservation, b) in w.rate.memberships
  }

  /** And its reservation is still active there. */
  predicate Occupies(w: World, i: nat, b: nat) {
    WorksAt(w, i, b) && R.Open(w.rate, w.calls[i].stage.reservation, b)
  }

  function AtWork(w: World, b: nat): set<nat> {
    set i: nat | i < |w.calls| && WorksAt(w, i, b)
  }

  function Occupying(w: World, b: nat): set<nat> {
    set i: nat | i < |w.calls| && Occupies(w, i, b)
  }

  lemma {:induction false} OccupyingIsFewer(w: World, b: nat, calls: set<nat>, open: set<(nat, nat)>)
    requires Linked(w) && forall i | i in calls :: Occupies(w, i, b) && (w.calls[i].stage.reservation, b) in open
    ensures |calls| <= |open|
    decreases calls
  {
    if calls != {} {
      var i :| i in calls;
      var slot := (w.calls[i].stage.reservation, b);
      forall j | j in calls - {i} ensures (w.calls[j].stage.reservation, b) in open - {slot} {
        if w.calls[j].stage.reservation == w.calls[i].stage.reservation {
          OneHolder(w, i, j);
        }
      }
      OccupyingIsFewer(w, b, calls - {i}, open - {slot});
      CardinalityWithout(calls, i);
      CardinalityWithout(open, slot);
    }
  }

  ghost predicate CapHolds(w: World, b: nat) {
    b < |w.rate.buckets|
    && |Occupying(w, b)| <= w.rate.buckets[b].policy.maxConcurrency
    && |AtWork(w, b)| <= w.rate.buckets[b].policy.maxConcurrency + |AtWork(w, b) - Occupying(w, b)|
  }

  lemma CapHoldsHere(w: World, b: nat)
    requires Linked(w) && RInv.Valid(w.rate) && b < |w.rate.buckets|
    ensures CapHolds(w, b)
  {
    OccupyingIsFewer(w, b, Occupying(w, b), RInv.OpenOn(w.rate, b));
    assert RInv.CountersInRange(w.rate.buckets[b]);
    assert AtWork(w, b) == Occupying(w, b) + (AtWork(w, b) - Occupying(w, b));
  }

  /**
   On every run the calls at work on a bucket whose reservations are still active never number more than its cap; the
   calls at work altogether exceed it by no more than those whose reservation was reclaimed under them.
   */
  lemma {:induction false} CapBoundsWork(bindings: map<R.Scope, R.Policy>, plans: seq<Plan>, events: seq<Event>, b: nat)
    requires ClockOrdered(events) && b < |Run(Start(bindings, plans), events).rate.buckets|
    ensures CapHolds(Run(Start(bindings, plans), events), b)
  {
    RunsAreValid(bindings, plans, events);
    CapHoldsHere(Run(Start(bindings, plans), events), b);
  }

  /**
   The exact condition under which an authorization puts a call to work: it reaches the buckets and every existing one it
   targets is free. What counts against a cap is only what has not expired; calls at work are not asked.
   */
  lemma AuthorizedIff(w: World, j: nat, look: R.Lookups, now: Instant)
    requires Linked(w) && RInv.Valid(w.rate) && j < |w.calls| && w.calls[j].stage.Opened?
    ensures var q := RequestOf(w, j);
      Authorize(w, j, true, look, true, now).calls[j].stage.Working?
      <==> && R.EligibilityErrors(q, look).None?
           && forall b: nat | b < |w.rate.buckets| && w.rate.buckets[b].scope in R.TargetsOf(q, look) :: RGrants.Free(w.rate, b, now)
  {
    var q, seen := RequestOf(w, j), Seen(w, look, w.calls[j].stage.token);
    assert LeaseIsOwn(w, j) && seen.runEndpoint == Some(q.endpointId);
    forall r | 0 <= r < |w.rate.reservations| ensures !R.Matches(w.rate.reservations[r], q) {
      assert ReservationIsHeld(w, r);
    }
    FreshRunNeverReplays(w, j, look, now);
    RGrants.GrantedIffFree(w.rate, q, seen, now);
    assert R.EligibilityErrors(q, seen) == R.EligibilityErrors(q, look);
    assert R.EligibilityErrors(q, look).None? ==> R.TargetsOf(q, seen) == R.TargetsOf(q, look);
  }
}
