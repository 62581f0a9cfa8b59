/** How long a reservation keeps its slots, and what ending it gives back, over whole runs. */
module RateLimitTenures {
  import opened Prelude
  import opened RateLimitModel
  import opened RateLimitInvariants
  import opened RateLimitEligibility
  import opened RateLimitRuns
  import opened RateLimitDenials

  /** The request reached its buckets and its transaction was kept. */
  predicate Kept(s: State, q: Request, look: Lookups, now: Instant) {
    var d := Reserve(s, q, look, now).1; d.Success? && !d.value.Replayed?
  }

  /** Reservation `r` was charged to a bucket the request targets. */
  predicate Shares(s: State, targets: seq<Scope>, r: nat) {
    exists b | 0 <= b < |s.buckets| :: (r, b) in s.memberships && s.buckets[b].scope in targets
  }

  /** The event ends reservation `r`: its finalization, or a kept request that shares a bucket with it once its time is over. */
  predicate Ends(s: State, e: Event, r: nat) {
    r < |s.reservations| &&
    match e
    case FinalizeEvent(x, outcome, _) => x == r && (outcome == Completed || outcome == Failed)
    case ReserveEvent(q, look, at) =>
      Kept(s, q, look, at) && s.reservations[r].expiresAt <= at && Shares(s, TargetsOf(q, look), r)
    case HoldEvent(_, _, _, _) => false
  }

  lemma KeptPrepares(s: State, q: Request, look: Lookups, now: Instant)
    requires Kept(s, q, look, now)
    ensures q.ttl > 0 && NoMatch(s, q) && EligibilityErrors(q, look).None?
    ensures Prepared(s, q, look, now).reservations <= Reserve(s, q, look, now).0.reservations
  {
  }

  /** A kept request grants on the prepared tables or notes the waiting time there. */
  lemma KeptCases(s: State, q: Request, look: Lookups, now: Instant, t: State)
    requires Kept(s, q, look, now) && t == Reserve(s, q, look, now).0
    ensures EligibilityErrors(q, look).None?
    ensures var ready := Prepared(s, q, look, now); var d := Reserve(s, q, look, now).1.value;
      if d.Reserved? then d.reservation == |ready.reservations| && t == Grant(ready, TargetsOf(q, look), q, now)
      else t.memberships == ready.memberships
  {
  }

  /** A request ends an active reservation exactly when it is kept, comes at or after the expiry and shares a bucket. */
  lemma RequestEndsIff(s: State, q: Request, look: Lookups, now: Instant, r: nat)
    requires Valid(s) && r < |s.reservations| && s.reservations[r].status == Active
    ensures var t := Reserve(s, q, look, now).0;
      && r < |t.reservations|
      && t.reservations[r] == (if Ends(s, ReserveEvent(q, look, now), r)
                               then s.reservations[r].(status := Expired, finalizedAt := Some(now)) else s.reservations[r])
  {
    if Kept(s, q, look, now) {
      KeptPrepares(s, q, look, now);
      var targets := TargetsOf(q, look);
      EnsureBucketsProvides(s, targets, look.defaultPolicy.value, look.databaseClock);
      var s1 := EnsureBuckets(s, targets, look.defaultPolicy.value, look.databaseClock);
      SameAbandoned(s, q, look, now, r);
      SweepExpiresAbandoned(s1, targets, now, |s1.reservations|, r);
      var ready := Prepared(s, q, look, now);
      assert ready.reservations[r] == Reserve(s, q, look, now).0.reservations[r];
    }
  }

  lemma {:induction false} EndedRowsStay(s: State, q: Request, look: Lookups, now: Instant, r: nat)
    requires r < |s.reservations| && s.reservations[r].status != Active
    ensures var t := Reserve(s, q, look, now).0; r < |t.reservations| && t.reservations[r] == s.reservations[r]
  {
    if Kept(s, q, look, now) {
      KeptPrepares(s, q, look, now);
      var targets := TargetsOf(q, look);
      EnsureBucketsProvides(s, targets, look.defaultPolicy.value, look.databaseClock);
      var s1 := EnsureBuckets(s, targets, look.defaultPolicy.value, look.databaseClock);
      SweepExpiresAbandoned(s1, targets, now, |s1.reservations|, r);
      var ready := Prepared(s, q, look, now);
      assert ready.reservations[r] == Reserve(s, q, look, now).0.reservations[r];
    }
  }

  lemma FinalizationEndsIff(s: State, x: nat, outcome: Status, now: Instant, r: nat)
    requires r < |s.reservations|
    ensures var t := Finalize(s, x, outcome, now).0;
      && r < |t.reservations| && t.reservations[r].expiresAt == s.reservations[r].expiresAt
      && (t.reservations[r].status == Active
          <==> s.reservations[r].status == Active && !(x == r && (outcome == Completed || outcome == Failed)))
  {
  }

  /** One event ends an active reservation exactly when `Ends` says so; an ended one stays as it is, and no expiry moves. */
  lemma StepEndsIff(s: State, e: Event, r: nat)
    requires Valid(s) && r < |s.reservations|
    ensures var t := Apply(s, e);
      && r < |t.reservations| && t.reservations[r].expiresAt == s.reservations[r].expiresAt
      && (t.reservations[r].status == Active <==> s.reservations[r].status == Active && !Ends(s, e, r))
  {
    match e
    case ReserveEvent(q, look, at) =>
      if s.reservations[r].status == Active {
        RequestEndsIff(s, q, look, at, r);
      } else {
        EndedRowsStay(s, q, look, at, r);
      }
    case FinalizeEvent(x, outcome, at) => FinalizationEndsIff(s, x, outcome, at, r);
    case HoldEvent(_, _, _, _) =>
  }

  /** A new row is the one the request was granted, active. */
  lemma NewRowIsActive(s: State, e: Event, r: nat)
    requires |s.reservations| <= r < |Apply(s, e).reservations|
    ensures r == |s.reservations| && Apply(s, e).reservations[r].status == Active
  {
    if e.ReserveEvent? && Kept(s, e.q, e.look, e.at) {
      KeptPrepares(s, e.q, e.look, e.at);
      var targets := TargetsOf(e.q, e.look);
      EnsureBucketsProvides(s, targets, e.look.defaultPolicy.value, e.look.databaseClock);
    }
  }

  /** Event `k` of the run ends reservation `r`. */
  ghost predicate EndedAt(bindings: map<Scope, Policy>, events: seq<Event>, k: nat, r: nat) {
    k < |events| && Ends(Run(Initial(bindings), events[..k]), events[k], r)
  }

  ghost predicate NeverEnded(bindings: map<Scope, Policy>, events: seq<Event>, r: nat) {
    forall k: nat | k < |events| :: !EndedAt(bindings, events, k, r)
  }

  lemma NeverEndedSplits(bindings: map<Scope, Policy>, events: seq<Event>, r: nat)
    requires events != []
    ensures var most := events[..|events| - 1];
      NeverEnded(bindings, events, r)
      <==> NeverEnded(bindings, most, r) && !Ends(Run(Initial(bindings), most), events[|events| - 1], r)
  {
    var most := events[..|events| - 1];
    forall k: nat | k < |most| ensures EndedAt(bindings, most, k, r) <==> EndedAt(bindings, events, k, r) {
      assert most[..k] == events[..k];
    }
    assert EndedAt(bindings, events, |most|, r) <==> Ends(Run(Initial(bindings), most), events[|most|], r);
  }

  /**
   Over any run a reservation holds its slots exactly as long as nobody finalized it and no kept request that shares a
   bucket with it came at or after its expiry; an abandoned one is freed by the first such request, and never before.
   */
  lemma {:induction false} ActiveUntilEnded(bindings: map<Scope, Policy>, events: seq<Event>, r: nat)
    requires ClockOrdered(events) && r < |Run(Initial(bindings), events).reservations|
    ensures Run(Initial(bindings), events).reservations[r].status == Active <==> NeverEnded(bindings, events, r)
  {
    if events != [] {
      var most, e := events[..|events| - 1], events[|events| - 1];
      var s := Run(Initial(bindings), most);
      RunsAreTimely(bindings, most);
      NeverEndedSplits(bindings, events, r);
      if r < |s.reservations| {
        ActiveUntilEnded(bindings, most, r);
        StepEndsIff(s, e, r);
      } else {
        NewRowIsActive(s, e, r);
        NotYetThere(bindings, most, r);
      }
    }
  }

  /** Nothing ends a reservation that does not exist yet. */
  lemma {:induction false} NotYetThere(bindings: map<Scope, Policy>, events: seq<Event>, r: nat)
    requires ClockOrdered(events) && |Run(Initial(bindings), events).reservations| <= r
    ensures NeverEnded(bindings, events, r)
  {
    if events != [] {
      var most, e := events[..|events| - 1], events[|events| - 1];
      RunsAreTimely(bindings, most);
      if r < |Run(Initial(bindings), most).reservations| {
        StepEndsIff(Run(Initial(bindings), most), e, r);
      }
      NotYetThere(bindings, most, r);
      NeverEndedSplits(bindings, events, r);
    }
  }

  // ------------------------------------------------------------------ what finalizing gives back

  lemma RequestKeepsCharges(s: State, q: Request, look: Lookups, now: Instant, r: nat, b: nat)
    requires Valid(s) && r < |s.reservations| && Kept(s, q, look, now)
    ensures (r, b) in Reserve(s, q, look, now).0.memberships <==> (r, b) in s.memberships
  {
    KeptCases(s, q, look, now, Reserve(s, q, look, now).0);
    PreparationTakesNothing(s, q, look, now);
    var ready := Prepared(s, q, look, now);
    assert (r, b) in ready.memberships <==> (r, b) in s.memberships;
    if Reserve(s, q, look, now).1.value.Reserved? {
      PreparedKeepsValid(s, q, look, now);
      GrantMemberships(ready, TargetsOf(q, look), q, now);
    }
  }

  /** An event adds memberships to new reservations only and never takes one away. */
  lemma StepKeepsCharges(s: State, e: Event, r: nat, b: nat)
    requires Valid(s) && r < |s.reservations|
    ensures (r, b) in Apply(s, e).memberships <==> (r, b) in s.memberships
  {
    if e.ReserveEvent? && Kept(s, e.q, e.look, e.at) {
      RequestKeepsCharges(s, e.q, e.look, e.at, r, b);
    }
  }

  lemma {:induction false} ChargesKept(bindings: map<Scope, Policy>, events: seq<Event>, m: nat, r: nat, b: nat)
    requires ClockOrdered(events) && m <= |events| && r < |Run(Initial(bindings), events[..m]).reservations|
    ensures var t := Run(Initial(bindings), events);
      r < |t.reservations| && ((r, b) in t.memberships <==> (r, b) in Run(Initial(bindings), events[..m]).memberships)
    decreases |events|
  {
    if m == |events| {
      assert events[..m] == events;
    } else {
      var most, e := events[..|events| - 1], events[|events| - 1];
      assert most[..m] == events[..m];
      ChargesKept(bindings, most, m, r, b);
      RunsAreTimely(bindings, most);
      StepKeepsCharges(Run(Initial(bindings), most), e, r, b);
      StepEndsIff(Run(Initial(bindings), most), e, r);
    }
  }

  /** Finalizing an active reservation gives one slot back to each bucket it was charged to and to no other. */
  lemma FinalizeGivesBack(s: State, r: nat, outcome: Status, now: Instant, b: nat)
    requires Valid(s) && r < |s.reservations| && s.reservations[r].status == Active && b < |s.buckets|
    requires outcome == Completed || outcome == Failed
    ensures var (t, d) := Finalize(s, r, outcome, now);
      && d.Success? && d.value.status == outcome && |t.buckets| == |s.buckets| && !Open(t, r, b)
      && t.buckets[b].activeConcurrency == s.buckets[b].activeConcurrency - if (r, b) in s.memberships then 1 else 0
  {
    if (r, b) in s.memberships {
      ClampNeverBites(s, r, b);
    }
  }

  /** A granted request is charged to exactly the buckets it targets, counted when it was granted. */
  lemma GrantCharges(s: State, q: Request, look: Lookups, now: Instant, b: nat)
    requires Valid(s) && Kept(s, q, look, now) && Reserve(s, q, look, now).1.value.Reserved?
    ensures var (g, d) := Reserve(s, q, look, now);
      && d.value.reservation < |g.reservations|
      && ((d.value.reservation, b) in g.memberships <==> b < |g.buckets| && g.buckets[b].scope in TargetsOf(q, look))
  {
    KeptCases(s, q, look, now, Reserve(s, q, look, now).0);
    PreparedKeepsValid(s, q, look, now);
    GrantMemberships(Prepared(s, q, look, now), TargetsOf(q, look), q, now);
  }

  /**
   A reservation that is finalized while active gives back exactly the slots it took, one in each bucket its request
   targeted, whatever happened between the grant, event `m` of the run, and the finalization.
   */
  lemma {:induction false} FinalizeUndoesGrant(bindings: map<Scope, Policy>, events: seq<Event>, m: nat, outcome: Status, now: Instant, b: nat)
    requires ClockOrdered(events) && m < |events| && events[m].ReserveEvent? && (outcome == Completed || outcome == Failed)
    requires var s, u := Run(Initial(bindings), events[..m]), Run(Initial(bindings), events);
      var d := Reserve(s, events[m].q, events[m].look, events[m].at).1;
      && d.Success? && d.value.Reserved? && b < |u.buckets|
      && d.value.reservation < |u.reservations| && u.reservations[d.value.reservation].status == Active
    ensures var s, u := Run(Initial(bindings), events[..m]), Run(Initial(bindings), events);
      var (g, d) := Reserve(s, events[m].q, events[m].look, events[m].at);
      var (t, f) := Finalize(u, d.value.reservation, outcome, now);
      && f.Success? && |t.buckets| == |u.buckets| && !Open(t, d.value.reservation, b)
      && t.buckets[b].activeConcurrency == u.buckets[b].activeConcurrency
         - if b < |g.buckets| && g.buckets[b].scope in TargetsOf(events[m].q, events[m].look) then 1 else 0
  {
    var s, e := Run(Initial(bindings), events[..m]), events[m];
    RunsAreTimely(bindings, events[..m]);
    RunsAreTimely(bindings, events);
    GrantCharges(s, e.q, e.look, e.at, b);
    var r := Reserve(s, e.q, e.look, e.at).1.value.reservation;
    assert events[..m + 1][..m] == events[..m];
    assert Run(Initial(bindings), events[..m + 1]) == Apply(s, e);
    ChargesKept(bindings, events, m + 1, r, b);
    FinalizeGivesBack(Run(Initial(bindings), events), r, outcome, now, b);
  }
}
