/** What every interleaving of the workers keeps. */
module WorkerRuns {
  import opened Prelude
  import opened Worker
  import opened WorkerRefinement
  import L = Lease
  import LRuns = LeaseRuns
  import R = RateLimitModel
  import RInv = RateLimitInvariants
  import RElig = RateLimitEligibility
  import RRuns = RateLimitRuns

  // ------------------------------------------------------------------ what one transaction leaves of other rows

  ghost predicate SameHolder(a: L.LeaseRow, b: L.LeaseRow) {
    a.endpoint == b.endpoint && a.executionIdentity == b.executionIdentity && a.owner == b.owner
  }

  /** The row as a transaction of somebody else may leave it: an active lease may have expired. */
  ghost predicate LeaseDrift(a: L.LeaseRow, b: L.LeaseRow) {
    SameHolder(a, b) && (b.status == a.status || (a.status == L.Active && b.status == L.Expired))
  }

  ghost predicate ReservationDrift(a: R.Reservation, b: R.Reservation) {
    && a.runId == b.runId && a.requestIdentity == b.requestIdentity
    && (b.status == a.status || (a.status == R.Active && b.status == R.Expired))
  }

  lemma AcquireDrifts(s: L.State, endpoint: int, identity: string, owner: string, ttl: int, now: Instant)
    ensures var (t, d) := L.Acquire(s, endpoint, identity, owner, ttl, true, now);
      && |t.leases| == |s.leases| + (if L.Granted(d) then 1 else 0)
      && (forall k | 0 <= k < |s.leases| :: LeaseDrift(s.leases[k], t.leases[k]))
      && (L.Granted(d) ==>
            && d.value.lease == |s.leases| && L.IsActiveOn(t.leases[|s.leases|], endpoint)
            && t.leases[|s.leases|].executionIdentity == identity && t.leases[|s.leases|].owner == owner)
  {
  }

  lemma ReserveDrifts(s: R.State, q: R.Request, look: R.Lookups, now: Instant)
    ensures var (t, d) := R.Reserve(s, q, look, now);
      && |t.reservations| == |s.reservations| + (if d.Success? && d.value.Reserved? then 1 else 0)
      && (forall r | 0 <= r < |s.reservations| :: ReservationDrift(s.reservations[r], t.reservations[r]))
      && (d.Success? && d.value.Reserved? ==>
            && d.value.reservation == |s.reservations|
            && t.reservations[|s.reservations|] == R.Reservation(q.runId, q.identity, R.Active, now, now + q.ttl, None))
  {
    if q.ttl > 0 && R.FindReservation(s.reservations, q).None? && R.EligibilityErrors(q, look).None? {
      PreparedDrifts(s, q, look, now);
    }
  }

  lemma PreparedDrifts(s: R.State, q: R.Request, look: R.Lookups, now: Instant)
    requires R.EligibilityErrors(q, look).None?
    ensures var t := R.Prepared(s, q, look, now);
      && |t.reservations| == |s.reservations|
      && (forall r | 0 <= r < |s.reservations| :: ReservationDrift(s.reservations[r], t.reservations[r]))
  {
    var targets := R.TargetsOf(q, look);
    var s1 := R.EnsureBuckets(s, targets, look.defaultPolicy.value, look.databaseClock);
    RElig.EnsureBucketsProvides(s, targets, look.defaultPolicy.value, look.databaseClock);
    forall r | 0 <= r < |s.reservations|
      ensures ReservationDrift(s.reservations[r], R.Sweep(s1, targets, now).reservations[r])
    {
      RRuns.SweepExpiresAbandoned(s1, targets, now, |s1.reservations|, r);
    }
  }

  // ------------------------------------------------------------------ the invariant

  /** The call's lease is its own, under the identity it asked for. */
  ghost predicate LeaseIsOwn(w: World, i: nat) {
    i < |w.calls| &&
    (HasLease(w.calls[i].stage) ==>
       var p, token := w.calls[i].plan, w.calls[i].stage.token;
       && token < |w.openers| && w.openers[token] == i && token < |w.lease.leases|
       && w.lease.leases[token].endpoint == p.endpoint && w.lease.leases[token].executionIdentity == p.identity
       && w.lease.leases[token].owner == p.owner)
  }

  /** What the call holds was reserved for its own run. */
  ghost predicate ReservationIsOwn(w: World, i: nat) {
    i < |w.calls| &&
    (Held(w.calls[i].stage).Row? ==>
       var r := Held(w.calls[i].stage).id;
       r < |w.rate.reservations| && w.rate.reservations[r].runId == w.calls[i].stage.token)
  }

  /** Execution `k` belongs to the call that opened it. */
  ghost predicate ExecutionIsOpened(w: World, k: nat) {
    k < |w.openers| && w.openers[k] < |w.calls|
    && HasLease(w.calls[w.openers[k]].stage) && w.calls[w.openers[k]].stage.token == k
  }

  /** Reservation `r` is held by the call whose run it was made for. */
  ghost predicate ReservationIsHeld(w: World, r: nat) {
    r < |w.rate.reservations| &&
    var run := w.rate.reservations[r].runId;
    0 <= run < |w.openers| && w.openers[run] < |w.calls| && Held(w.calls[w.openers[run]].stage) == Row(r)
  }

  ghost predicate Linked(w: World) {
    && |w.openers| == |w.lease.leases|
    && (forall i: nat | i < |w.calls| :: LeaseIsOwn(w, i) && ReservationIsOwn(w, i))
    && (forall k: nat | k < |w.openers| :: ExecutionIsOpened(w, k))
    && (forall r: nat | r < |w.rate.reservations| :: ReservationIsHeld(w, r))
  }

  /** The call holds no reservation, or one that has ended. */
  predicate Settled(w: World, held: Holding) {
    held.Nothing? || (held.Row? && held.id < |w.rate.reservations| && w.rate.reservations[held.id].status != R.Active)
  }

  predicate Unended(status: L.Status) {
    status == L.Active || status == L.Expired
  }

  /** What the way a call ended says about its lease and its reservation. */
  ghost predicate OutcomeAgrees(w: World, stage: Stage, status: L.Status)
    requires stage.Finished?
  {
    match stage.outcome
    case Completed => status == L.Released && stage.held.Row? && Settled(w, stage.held)
    case Delayed => status == L.Failed && stage.held.Nothing?
    case Raised(ending) =>
      match ending
      case Closed => status == L.Failed && Settled(w, stage.held)
      case LostLease => status == L.Expired
      case NoSuchReservation => Unended(status) && stage.held.RolledBack?
      case CommitFailed => Unended(status) && !stage.held.RolledBack?
  }

  ghost predicate StageAgrees(w: World, i: nat) {
    i < |w.calls| &&
    var stage := w.calls[i].stage;
    (HasLease(stage) ==>
      stage.token < |w.lease.leases| &&
      var status := w.lease.leases[stage.token].status;
      if stage.Finished? then OutcomeAgrees(w, stage, status) else Unended(status))
  }

  ghost predicate Agreed(w: World) {
    forall i: nat | i < |w.calls| :: StageAgrees(w, i)
  }

  ghost predicate Valid(w: World, clock: Instant) {
    && RRuns.Timely(w.rate, clock)
    && L.Valid(w.lease, clock)
    && Linked(w)
    && Agreed(w)
  }

  // ------------------------------------------------------------------ one transaction of one call

  /** Nothing but drift happens to rows that are not call `i`'s own. */
  ghost predicate OthersDrift(w: World, t: World, i: nat) {
    && i < |w.calls| == |t.calls| && t.calls[i].plan == w.calls[i].plan
    && (forall j | 0 <= j < |w.calls| && j != i :: t.calls[j] == w.calls[j])
    && w.openers <= t.openers
    && |w.lease.leases| <= |t.lease.leases|
    && (forall k | 0 <= k < |w.lease.leases| ::
          if HasLease(w.calls[i].stage) && w.calls[i].stage.token == k then SameHolder(w.lease.leases[k], t.lease.leases[k])
          else LeaseDrift(w.lease.leases[k], t.lease.leases[k]))
    && |w.rate.reservations| <= |t.rate.reservations|
    && (forall r | 0 <= r < |w.rate.reservations| ::
          if Held(w.calls[i].stage) == Row(r) then w.rate.reservations[r].runId == t.rate.reservations[r].runId
          else ReservationDrift(w.rate.reservations[r], t.rate.reservations[r]))
  }

  /** Call `i` keeps its execution and its reservation, and every new row is its own. */
  ghost predicate KeepsItsRows(w: World, t: World, i: nat) {
    && i < |w.calls| == |t.calls|
    && var stage, later := w.calls[i].stage, t.calls[i].stage;
    && (if HasLease(stage) then HasLease(later) && later.token == stage.token && t.openers == w.openers
        else t.openers == w.openers + if HasLease(later) then [i] else [])
    && (!HasLease(stage) && HasLease(later) ==> later.token == |w.openers|)
    && |t.openers| == |t.lease.leases|
    && (if |t.rate.reservations| == |w.rate.reservations| then Held(stage).Row? ==> Held(later) == Held(stage)
        else |t.rate.reservations| == |w.rate.reservations| + 1 && HasLease(stage) && Held(stage).Nothing?
             && Held(later) == Row(|w.rate.reservations|)
             && t.rate.reservations[|w.rate.reservations|].runId == stage.token)
  }

  lemma OthersStayOwn(w: World, t: World, i: nat, j: nat)
    requires OthersDrift(w, t, i) && j < |w.calls| && j != i && LeaseIsOwn(w, j) && ReservationIsOwn(w, j)
    ensures LeaseIsOwn(t, j) && ReservationIsOwn(t, j)
  {
    if HasLease(w.calls[j].stage) {
      var token := w.calls[j].stage.token;
      assert t.openers[token] == w.openers[token];
      assert SameHolder(w.lease.leases[token], t.lease.leases[token]);
    }
  }

  lemma OthersStayAgreed(w: World, t: World, i: nat, j: nat)
    requires OthersDrift(w, t, i) && j < |w.calls| && j != i && StageAgrees(w, j)
    requires LeaseIsOwn(w, i) && LeaseIsOwn(w, j) && ReservationIsOwn(w, i) && ReservationIsOwn(w, j)
    ensures StageAgrees(t, j)
  {
    var stage := w.calls[j].stage;
    if HasLease(stage) {
      assert LeaseDrift(w.lease.leases[stage.token], t.lease.leases[stage.token]);
      if Held(stage).Row? {
        assert Held(w.calls[i].stage) != Held(stage);
        assert ReservationDrift(w.rate.reservations[Held(stage).id], t.rate.reservations[Held(stage).id]);
      }
    }
  }

  lemma ExecutionsStayOpened(w: World, t: World, i: nat, k: nat)
    requires OthersDrift(w, t, i) && KeepsItsRows(w, t, i) && k < |t.openers|
    requires k < |w.openers| ==> ExecutionIsOpened(w, k)
    ensures ExecutionIsOpened(t, k)
  {
    if k < |w.openers| {
      assert t.openers[k] == w.openers[k];
    }
  }

  lemma ReservationsStayHeld(w: World, t: World, i: nat, r: nat)
    requires OthersDrift(w, t, i) && KeepsItsRows(w, t, i) && r < |t.rate.reservations| && LeaseIsOwn(w, i)
    requires r < |w.rate.reservations| ==> ReservationIsHeld(w, r)
    ensures ReservationIsHeld(t, r)
  {
    if r < |w.rate.reservations| {
      var run := w.rate.reservations[r].runId;
      assert t.rate.reservations[r].runId == run;
      assert t.openers[run] == w.openers[run];
    }
  }

  /** A transaction that only touches call `i`'s own rows keeps everything linked and in agreement. */
  lemma CallKeepsBooks(w: World, t: World, i: nat)
    requires Linked(w) && Agreed(w) && OthersDrift(w, t, i) && KeepsItsRows(w, t, i)
    requires LeaseIsOwn(t, i) && ReservationIsOwn(t, i) && StageAgrees(t, i)
    ensures Linked(t) && Agreed(t)
  {
    assert LeaseIsOwn(w, i) && ReservationIsOwn(w, i);
    forall j: nat | j < |t.calls| ensures LeaseIsOwn(t, j) && ReservationIsOwn(t, j) && StageAgrees(t, j) {
      if j != i {
        assert LeaseIsOwn(w, j) && ReservationIsOwn(w, j) && StageAgrees(w, j);
        OthersStayOwn(w, t, i, j);
        OthersStayAgreed(w, t, i, j);
      }
    }
    forall k: nat | k < |t.openers| ensures ExecutionIsOpened(t, k) {
      assert k < |w.openers| ==> ExecutionIsOpened(w, k);
      ExecutionsStayOpened(w, t, i, k);
    }
    forall r: nat | r < |t.rate.reservations| ensures ReservationIsHeld(t, r) {
      assert r < |w.rate.reservations| ==> ReservationIsHeld(w, r);
      ReservationsStayHeld(w, t, i, r);
    }
  }

  // ------------------------------------------------------------------ step by step

  lemma OpenKeepsBooks(w: World, i: nat, ready: bool, now: Instant)
    requires Linked(w) && Agreed(w) && i < |w.calls|
    ensures var t := Open(w, i, ready, now); Linked(t) && Agreed(t)
  {
    var t := Open(w, i, ready, now);
    if w.calls[i].stage.Waiting? {
      var p := w.calls[i].plan;
      AcquireDrifts(w.lease, p.endpoint, p.identity, p.owner, p.leaseTtl, now);
      CallKeepsBooks(w, t, i);
    }
  }

  /** Only reservations drift, and call `i`, still on its way, holds the new one if there is one. */
  ghost predicate ReservesOwn(w: World, t: World, i: nat) {
    && i < |w.calls| == |t.calls| && t.calls == w.calls[i := w.calls[i].(stage := t.calls[i].stage)]
    && t.lease == w.lease && t.openers == w.openers && w.calls[i].stage.Opened?
    && var later := t.calls[i].stage;
    && (later.Working? || later.Delaying? || later.Failing?) && later.token == w.calls[i].stage.token
    && |w.rate.reservations| <= |t.rate.reservations|
    && (forall r | 0 <= r < |w.rate.reservations| :: ReservationDrift(w.rate.reservations[r], t.rate.reservations[r]))
    && (if Held(later).Row? then
          && Held(later).id == |w.rate.reservations| == |t.rate.reservations| - 1
          && t.rate.reservations[|w.rate.reservations|].runId == later.token
        else |t.rate.reservations| == |w.rate.reservations|)
  }

  lemma AuthorizeReservesOwn(w: World, i: nat, credentials: bool, look: R.Lookups, commits: bool, now: Instant, t: World)
    requires Linked(w) && i < |w.calls| && w.calls[i].stage.Opened?
    requires t == Authorize(w, i, credentials, look, commits, now)
    ensures ReservesOwn(w, t, i)
  {
    if credentials && commits {
      ReserveDrifts(w.rate, RequestOf(w, i), Seen(w, look, w.calls[i].stage.token), now);
      FreshRunNeverReplays(w, i, look, now);
    } else if credentials {
      FreshRunNeverReplays(w, i, look, now);
      assert t.rate == w.rate;
    }
  }

  lemma ReservingKeepsBooks(w: World, t: World, i: nat)
    requires Linked(w) && Agreed(w) && ReservesOwn(w, t, i)
    ensures Linked(t) && Agreed(t)
  {
    assert LeaseIsOwn(w, i) && StageAgrees(w, i);
    CallKeepsBooks(w, t, i);
  }

  lemma AuthorizeKeepsBooks(w: World, i: nat, credentials: bool, look: R.Lookups, commits: bool, now: Instant)
    requires Linked(w) && Agreed(w) && i < |w.calls|
    ensures var t := Authorize(w, i, credentials, look, commits, now); Linked(t) && Agreed(t)
  {
    if w.calls[i].stage.Opened? {
      var t := Authorize(w, i, credentials, look, commits, now);
      AuthorizeReservesOwn(w, i, credentials, look, commits, now, t);
      ReservingKeepsBooks(w, t, i);
    }
  }

  /** The run of a call that has just opened is new to the limiter, so `reserve` neither replays nor finds a foreign run. */
  lemma FreshRunNeverReplays(w: World, i: nat, look: R.Lookups, now: Instant)
    requires Linked(w) && i < |w.calls| && w.calls[i].stage.Opened?
    ensures var d := Reservation(w, i, look, now).1;
      && (d.Success? ==> !d.value.Replayed?)
      && (d.Failure? ==> d.error != R.ForeignRun && d.error != R.InvalidTtl)
  {
    assert LeaseIsOwn(w, i);
    var q := RequestOf(w, i);
    forall r | 0 <= r < |w.rate.reservations| ensures !R.Matches(w.rate.reservations[r], q) {
      assert ReservationIsHeld(w, r);
    }
  }

  lemma WorkKeepsBooks(w: World, i: nat, succeeds: bool)
    requires Linked(w) && Agreed(w) && i < |w.calls|
    ensures var t := Work(w, i, succeeds); Linked(t) && Agreed(t)
  {
    var t := Work(w, i, succeeds);
    if w.calls[i].stage.Working? {
      assert LeaseIsOwn(w, i) && ReservationIsOwn(w, i) && StageAgrees(w, i);
      CallKeepsBooks(w, t, i);
    }
  }

  lemma CrashKeepsBooks(w: World, i: nat)
    requires Linked(w) && Agreed(w) && i < |w.calls|
    ensures var t := Crash(w, i); Linked(t) && Agreed(t)
  {
    var t := Crash(w, i);
    if t != w {
      assert LeaseIsOwn(w, i) && ReservationIsOwn(w, i) && StageAgrees(w, i);
      CallKeepsBooks(w, t, i);
    }
  }

  // ------------------------------------------------------------------ closing

  predicate LeaseAnswers(lease: L.State, token: nat, owner: string) {
    token < |lease.leases| && lease.leases[token].status == L.Active && lease.leases[token].owner == owner
  }

  predicate IsHeld(rate: R.State, held: Holding) {
    held.Nothing? || (held.Row? && held.id < |rate.reservations|)
  }

  /**
   Reservation and lease close together or not at all: they close exactly when the reservation exists, the lease is
   still the owner's and the commit goes through, and then the reservation holds no slot any more. A missing
   reservation is noticed first, then a lost lease, then a failed commit.
   */
  lemma FinalizeAuthorityIsAtomic(rate: R.State, lease: L.State, held: Holding, token: nat, owner: string, succeeded: bool,
                                  commits: bool, now: Instant)
    requires RInv.Valid(rate)
    ensures var (rate1, lease1, ending) := FinalizeAuthority(rate, lease, held, token, owner, succeeded, commits, now);
      && (ending == Closed <==> IsHeld(rate, held) && LeaseAnswers(lease, token, owner) && commits)
      && (ending == NoSuchReservation <==> !IsHeld(rate, held))
      && (ending == LostLease <==> IsHeld(rate, held) && !LeaseAnswers(lease, token, owner))
      && (ending != Closed ==> rate1 == rate && lease1 == lease)
      && (ending == Closed ==>
            && lease1.leases == lease.leases[token := lease.leases[token].(
                 status := if succeeded then L.Released else L.Failed, finalizedAt := Some(now))]
            && (held.Nothing? ==> rate1 == rate)
            && (held.Row? ==> FreesReservation(rate, rate1, held.id, if succeeded then R.Completed else R.Failed, now)))
  {
    if held.Row? && held.id < |rate.reservations| && rate.reservations[held.id].status == R.Active {
      var rate1 := R.Release(rate, held.id, if succeeded then R.Completed else R.Failed, now);
      assert forall b: nat | b < |rate.buckets| :: !R.Open(rate1, held.id, b);
    }
  }

  /** Reservation `r` ends with `outcome`, unless it had ended before, and no bucket counts it any more; the others stay. */
  ghost predicate FreesReservation(s: R.State, t: R.State, r: nat, outcome: R.Status, now: Instant) {
    && r < |s.reservations| == |t.reservations|
    && t.reservations == s.reservations[r := if s.reservations[r].status == R.Active
                                             then s.reservations[r].(status := outcome, finalizedAt := Some(now))
                                             else s.reservations[r]]
    && (forall b: nat | b < |s.buckets| :: !R.Open(t, r, b))
  }

  lemma ClosureIsAtomic(w: World, i: nat, commits: bool, now: Instant)
    requires Linked(w) && i < |w.calls| && Closing(w.calls[i].stage) && RInv.Valid(w.rate)
    ensures var (rate1, lease1, ending) := Closure(w, i, commits, now);
      var stage, succeeded := w.calls[i].stage, w.calls[i].stage.Succeeding?;
      && LeaseIsOwn(w, i) && ReservationIsOwn(w, i)
      && (ending == Closed <==> !Held(stage).RolledBack? && w.lease.leases[stage.token].status == L.Active && commits)
      && (ending == NoSuchReservation <==> Held(stage).RolledBack?)
      && (ending == LostLease <==> !Held(stage).RolledBack? && w.lease.leases[stage.token].status != L.Active)
      && (ending != Closed ==> rate1 == w.rate && lease1 == w.lease)
      && (ending == Closed ==>
            && lease1.leases == w.lease.leases[stage.token := w.lease.leases[stage.token].(
                 status := if succeeded then L.Released else L.Failed, finalizedAt := Some(now))]
            && (Held(stage).Nothing? ==> rate1 == w.rate)
            && (Held(stage).Row? ==>
                  FreesReservation(w.rate, rate1, Held(stage).id, if succeeded then R.Completed else R.Failed, now)))
  {
    var call := w.calls[i];
    assert LeaseIsOwn(w, i) && ReservationIsOwn(w, i);
    FinalizeAuthorityIsAtomic(w.rate, w.lease, Held(call.stage), call.stage.token, call.plan.owner, call.stage.Succeeding?, commits, now);
  }

  lemma CloseDrifts(w: World, i: nat, commits: bool, now: Instant)
    requires Linked(w) && i < |w.calls| && Closing(w.calls[i].stage) && RInv.Valid(w.rate)
    ensures OthersDrift(w, Close(w, i, commits, now), i)
  {
    ClosureIsAtomic(w, i, commits, now);
  }

  lemma CloseKeepsOwn(w: World, i: nat, commits: bool, now: Instant)
    requires Linked(w) && i < |w.calls| && Closing(w.calls[i].stage) && RInv.Valid(w.rate)
    ensures var t := Close(w, i, commits, now); KeepsItsRows(w, t, i) && LeaseIsOwn(t, i) && ReservationIsOwn(t, i)
  {
    ClosureIsAtomic(w, i, commits, now);
  }

  lemma CloseAgrees(w: World, i: nat, commits: bool, now: Instant)
    requires Linked(w) && i < |w.calls| && StageAgrees(w, i) && Closing(w.calls[i].stage) && RInv.Valid(w.rate)
    ensures StageAgrees(Close(w, i, commits, now), i)
  {
    ClosureIsAtomic(w, i, commits, now);
  }

  lemma CloseKeepsBooks(w: World, i: nat, commits: bool, now: Instant)
    requires Linked(w) && Agreed(w) && i < |w.calls| && RInv.Valid(w.rate)
    ensures var t := Close(w, i, commits, now); Linked(t) && Agreed(t)
  {
    if Closing(w.calls[i].stage) {
      assert StageAgrees(w, i);
      CloseDrifts(w, i, commits, now);
      CloseKeepsOwn(w, i, commits, now);
      CloseAgrees(w, i, commits, now);
      CallKeepsBooks(w, Close(w, i, commits, now), i);
    }
  }

  /** A call closes its books exactly while its lease is active, what it holds exists, and the commit goes through. */
  lemma CloseSucceedsIff(w: World, i: nat, commits: bool, now: Instant)
    requires Linked(w) && i < |w.calls| && RInv.Valid(w.rate) && Closing(w.calls[i].stage)
    ensures var stage := w.calls[i].stage;
      && stage.token < |w.lease.leases|
      && (Closure(w, i, commits, now).2 == Closed
          <==> w.lease.leases[stage.token].status == L.Active && IsHeld(w.rate, Held(stage)) && commits)
      && (Closure(w, i, commits, now).2 != Closed ==>
            Close(w, i, commits, now).rate == w.rate && Close(w, i, commits, now).lease == w.lease)
  {
    ClosureIsAtomic(w, i, commits, now);
  }

  // ------------------------------------------------------------------ runs

  /** A renewal or an observed hold touches nobody's rows beyond drift. */
  lemma DriftKeepsBooks(w: World, t: World)
    requires Linked(w) && Agreed(w) && t.calls == w.calls && t.openers == w.openers
    requires |t.lease.leases| == |w.lease.leases| && |t.rate.reservations| == |w.rate.reservations|
    requires forall k | 0 <= k < |w.lease.leases| :: LeaseDrift(w.lease.leases[k], t.lease.leases[k])
    requires t.rate.reservations == w.rate.reservations
    ensures Linked(t) && Agreed(t)
  {
    forall j: nat | j < |t.calls| ensures LeaseIsOwn(t, j) && ReservationIsOwn(t, j) && StageAgrees(t, j) {
      assert LeaseIsOwn(w, j) && ReservationIsOwn(w, j) && StageAgrees(w, j);
      if HasLease(w.calls[j].stage) {
        assert LeaseDrift(w.lease.leases[w.calls[j].stage.token], t.lease.leases[w.calls[j].stage.token]);
      }
    }
    forall k: nat | k < |t.openers| ensures ExecutionIsOpened(t, k) {
      assert ExecutionIsOpened(w, k);
    }
    forall r: nat | r < |t.rate.reservations| ensures ReservationIsHeld(t, r) {
      assert ReservationIsHeld(w, r);
    }
  }

  lemma StepKeepsBooks(w: World, e: Event)
    requires Linked(w) && Agreed(w) && RInv.Valid(w.rate)
    ensures Linked(Apply(w, e)) && Agreed(Apply(w, e))
  {
    match e
    case CallEvent(i, step, at) =>
      if i < |w.calls| {
        match step
        case OpenStep(ready) => OpenKeepsBooks(w, i, ready, at);
        case AuthorizeStep(credentials, look, commits) => AuthorizeKeepsBooks(w, i, credentials, look, commits, at);
        case WorkStep(succeeds) => WorkKeepsBooks(w, i, succeeds);
        case CloseStep(commits) => CloseKeepsBooks(w, i, commits, at);
        case CrashStep => CrashKeepsBooks(w, i);
      }
    case HoldEvent(_, _, _, _) => DriftKeepsBooks(w, Apply(w, e));
    case RenewEvent(_, _, _, _) => DriftKeepsBooks(w, Apply(w, e));
  }

  lemma StepKeepsRate(w: World, e: Event, clock: Instant)
    requires RRuns.Timely(w.rate, clock) && clock <= e.at
    ensures RRuns.Timely(Apply(w, e).rate, e.at)
  {
    RRuns.TimelyLater(w.rate, clock, e.at);
    StepRefinesRate(w, e);
    if RateEvents(w, e) != [] {
      assert RateEvents(w, e)[0] in RateEvents(w, e);
      RRuns.StepKeepsTimely(w.rate, RateEvents(w, e)[0], clock);
    }
  }

  lemma StepKeepsLease(w: World, e: Event, clock: Instant)
    requires L.Valid(w.lease, clock) && clock <= e.at
    ensures L.Valid(Apply(w, e).lease, e.at)
  {
    L.ValidLater(w.lease, clock, e.at);
    StepRefinesLease(w, e);
    if LeaseEvents(w, e) != [] {
      assert LeaseEvents(w, e)[0] in LeaseEvents(w, e);
      LRuns.StepKeepsValid(w.lease, LeaseEvents(w, e)[0], clock);
    }
  }

  lemma StepKeepsValid(w: World, e: Event, clock: Instant)
    requires Valid(w, clock) && clock <= e.at
    ensures Valid(Apply(w, e), e.at)
  {
    StepKeepsBooks(w, e);
    StepKeepsRate(w, e, clock);
    StepKeepsLease(w, e, clock);
  }

  lemma ValidLater(w: World, clock: Instant, now: Instant)
    requires Valid(w, clock) && clock <= now
    ensures Valid(w, now)
  {
    RRuns.TimelyLater(w.rate, clock, now);
    L.ValidLater(w.lease, clock, now);
  }

  lemma {:induction false} RunConcat(w: World, a: seq<Event>, b: seq<Event>)
    ensures Run(w, a + b) == Run(Run(w, a), b)
  {
    if b == [] {
      assert a + b == a;
    } else {
      assert (a + b)[..|a + b| - 1] == a + b[..|b| - 1];
      RunConcat(w, a, b[..|b| - 1]);
    }
  }

  lemma RunOne(w: World, a: seq<Event>, e: Event)
    ensures Run(w, a + [e]) == Apply(Run(w, a), e)
  {
    assert (a + [e])[..|a|] == a;
  }

  /** One more event of a run. */
  lemma RunNext(w: World, events: seq<Event>, k: nat)
    requires k < |events|
    ensures Run(w, events[..k + 1]) == Apply(Run(w, events[..k]), events[k])
  {
    assert events[..k + 1] == events[..k] + [events[k]];
    RunOne(w, events[..k], events[k]);
  }

  /** The event belongs to somebody else than call `i`. */
  predicate Elsewhere(e: Event, i: nat) {
    e.CallEvent? ==> e.call != i
  }

  lemma StepLeavesCall(w: World, e: Event, i: nat)
    requires i < |w.calls| && Elsewhere(e, i)
    ensures |Apply(w, e).calls| == |w.calls| && Apply(w, e).calls[i] == w.calls[i]
  {
  }

  lemma {:induction false} OthersLeaveCall(w: World, events: seq<Event>, i: nat)
    requires i < |w.calls| && forall k | 0 <= k < |events| :: Elsewhere(events[k], i)
    ensures |Run(w, events).calls| == |w.calls| && Run(w, events).calls[i] == w.calls[i]
  {
    if events != [] {
      OthersLeaveCall(w, events[..|events| - 1], i);
      StepLeavesCall(Run(w, events[..|events| - 1]), events[|events| - 1], i);
    }
  }

  lemma ValidAtStart(bindings: map<R.Scope, R.Policy>, plans: seq<Plan>, clock: Instant)
    ensures Valid(Start(bindings, plans), clock)
  {
    LRuns.ValidAtStart(clock);
    RRuns.RunsAreTimely(bindings, []);
    assert RRuns.Run(RRuns.Initial(bindings), []) == Start(bindings, plans).rate;
    assert |Start(bindings, plans).rate.buckets| == 0;
  }

  lemma {:induction false} RunsAreValid(bindings: map<R.Scope, R.Policy>, plans: seq<Plan>, events: seq<Event>)
    requires ClockOrdered(events)
    ensures Valid(Run(Start(bindings, plans), events), LastClock(events))
  {
    if events == [] {
      ValidAtStart(bindings, plans, 0);
    } else {
      var most := events[..|events| - 1];
      var e := events[|events| - 1];
      var w := Run(Start(bindings, plans), most);
      RunsAreValid(bindings, plans, most);
      var clock := if most == [] then e.at else LastClock(most);
      ValidAtStart(bindings, plans, e.at);
      assert Valid(w, clock);
      StepKeepsValid(w, e, clock);
    }
  }

  // ------------------------------------------------------------------ what a caller may rely on

  /** A `completed` call released its own lease, and its reservation holds no slot any more. */
  lemma {:induction false} CompletedMeansClosed(bindings: map<R.Scope, R.Policy>, plans: seq<Plan>, events: seq<Event>, i: nat)
    requires ClockOrdered(events)
    requires var w := Run(Start(bindings, plans), events);
      i < |w.calls| && w.calls[i].stage.Finished? && w.calls[i].stage.outcome == Completed
    ensures var w := Run(Start(bindings, plans), events); var stage := w.calls[i].stage;
      && stage.token < |w.lease.leases| && w.lease.leases[stage.token].status == L.Released
      && w.lease.leases[stage.token].owner == w.calls[i].plan.owner
      && stage.held.Row? && stage.held.id < |w.rate.reservations|
      && w.rate.reservations[stage.held.id].runId == stage.token
      && (forall b: nat | b < |w.rate.buckets| :: !R.Open(w.rate, stage.held.id, b))
  {
    RunsAreValid(bindings, plans, events);
    var w := Run(Start(bindings, plans), events);
    assert LeaseIsOwn(w, i) && ReservationIsOwn(w, i) && StageAgrees(w, i);
  }

  /** The call for which reservation `r` was made, and what is left of it. */
  ghost predicate LeakExplained(w: World, r: nat) {
    r < |w.rate.reservations| &&
    var k := w.rate.reservations[r].runId;
    && 0 <= k < |w.openers| && w.openers[k] < |w.calls| && k < |w.lease.leases|
    && var stage := w.calls[w.openers[k]].stage;
    && Held(stage) == Row(r)
    && (stage.Finished? ==>
          || (stage.outcome == Raised(LostLease) && w.lease.leases[k].status == L.Expired)
          || stage.outcome == Raised(CommitFailed))
  }

  lemma LeakIsExplained(w: World, r: nat)
    requires Linked(w) && Agreed(w) && r < |w.rate.reservations| && w.rate.reservations[r].status == R.Active
    ensures LeakExplained(w, r)
  {
    assert ReservationIsHeld(w, r);
    var i := w.openers[w.rate.reservations[r].runId];
    assert LeaseIsOwn(w, i) && StageAgrees(w, i);
  }

  /**
   A reservation left active by a call that is over means that the call raised, and either its lease was taken over or
   the commit of its last transaction failed.
   */
  lemma {:induction false} LeakMeansRaised(bindings: map<R.Scope, R.Policy>, plans: seq<Plan>, events: seq<Event>, r: nat)
    requires ClockOrdered(events)
    requires var w := Run(Start(bindings, plans), events);
      r < |w.rate.reservations| && w.rate.reservations[r].status == R.Active
    ensures LeakExplained(Run(Start(bindings, plans), events), r)
  {
    RunsAreValid(bindings, plans, events);
    LeakIsExplained(Run(Start(bindings, plans), events), r);
  }

  /** Call `i` is over and its lease is still active, so nobody else gets the endpoint before that lease expires. */
  ghost predicate Stranded(w: World, i: nat) {
    && i < |w.calls| && w.calls[i].stage.Finished? && w.calls[i].stage.token < |w.lease.leases|
    && w.lease.leases[w.calls[i].stage.token].status == L.Active
  }

  ghost predicate CommitFailedOn(w: World, i: nat) {
    i < |w.calls| && w.calls[i].stage.Finished? &&
    var stage := w.calls[i].stage;
    stage.outcome == Raised(CommitFailed) || (stage.outcome == Raised(NoSuchReservation) && stage.held.RolledBack?)
  }

  lemma StrandedIsExplained(w: World, i: nat)
    requires Agreed(w) && Stranded(w, i)
    ensures CommitFailedOn(w, i)
  {
    assert StageAgrees(w, i);
  }

  /** A lease outlives its call only through a failed commit: of the closing transaction, or of the reservation before it. */
  lemma {:induction false} StrandedMeansFailedCommit(bindings: map<R.Scope, R.Policy>, plans: seq<Plan>, events: seq<Event>, i: nat)
    requires ClockOrdered(events) && Stranded(Run(Start(bindings, plans), events), i)
    ensures CommitFailedOn(Run(Start(bindings, plans), events), i)
  {
    RunsAreValid(bindings, plans, events);
    StrandedIsExplained(Run(Start(bindings, plans), events), i);
  }

  /** While a lease is stranded and has not expired, no call on its endpoint gets past its opening. */
  lemma StrandedBlocks(w: World, clock: Instant, i: nat, j: nat, ready: bool, now: Instant)
    requires Valid(w, clock) && Stranded(w, i) && j < |w.calls| && w.calls[j].stage.Waiting?
    requires w.calls[j].plan.endpoint == w.calls[i].plan.endpoint && now < w.lease.leases[w.calls[i].stage.token].expiresAt
    ensures Open(w, j, ready, now).calls[j].stage.Declined? && Open(w, j, ready, now).rate == w.rate
  {
    assert LeaseIsOwn(w, i);
    var p := w.calls[j].plan;
    LRuns.GrantedIff(w.lease, p.endpoint, p.identity, p.owner, p.leaseTtl, true, clock, now);
    assert L.IsActiveOn(w.lease.leases[w.calls[i].stage.token], p.endpoint);
  }

  /** Two calls never hold live leases on one endpoint at a time. */
  lemma {:induction false} CallsExclude(bindings: map<R.Scope, R.Policy>, plans: seq<Plan>, events: seq<Event>, i: nat, j: nat)
    requires ClockOrdered(events)
    requires var w := Run(Start(bindings, plans), events);
      && i < |w.calls| && j < |w.calls| && HasLease(w.calls[i].stage) && HasLease(w.calls[j].stage)
      && w.calls[i].plan.endpoint == w.calls[j].plan.endpoint
      && w.calls[i].stage.token < |w.lease.leases| && w.calls[j].stage.token < |w.lease.leases|
      && w.lease.leases[w.calls[i].stage.token].status == L.Active
      && w.lease.leases[w.calls[j].stage.token].status == L.Active
    ensures i == j
  {
    RunsAreValid(bindings, plans, events);
    var w := Run(Start(bindings, plans), events);
    assert LeaseIsOwn(w, i) && LeaseIsOwn(w, j);
    LRuns.ActiveIsUnique(w.lease, LastClock(events), w.calls[i].plan.endpoint, w.calls[i].stage.token, w.calls[j].stage.token);
  }

  /** One execution identity of one endpoint is opened by one call only. */
  lemma {:induction false} OneCallPerExecution(bindings: map<R.Scope, R.Policy>, plans: seq<Plan>, events: seq<Event>, i: nat, j: nat)
    requires ClockOrdered(events)
    requires var w := Run(Start(bindings, plans), events);
      && i < |w.calls| && j < |w.calls| && HasLease(w.calls[i].stage) && HasLease(w.calls[j].stage)
      && w.calls[i].plan.endpoint == w.calls[j].plan.endpoint && w.calls[i].plan.identity == w.calls[j].plan.identity
    ensures i == j
  {
    RunsAreValid(bindings, plans, events);
    var w := Run(Start(bindings, plans), events);
    assert LeaseIsOwn(w, i) && LeaseIsOwn(w, j);
    var a, b := w.calls[i].stage.token, w.calls[j].stage.token;
    LRuns.ExecutionFound(w.lease, LastClock(events), w.calls[i].plan.endpoint, w.calls[i].plan.identity, a);
    LRuns.ExecutionFound(w.lease, LastClock(events), w.calls[i].plan.endpoint, w.calls[i].plan.identity, b);
  }

  // ------------------------------------------------------------------ fencing

  /** The call has lost its lease to a successor and has not reported success. */
  ghost predicate Fenced(w: World, i: nat) {
    && i < |w.calls| && HasLease(w.calls[i].stage) && w.calls[i].stage.token < |w.lease.leases|
    && w.lease.leases[w.calls[i].stage.token].status == L.Expired
    && (w.calls[i].stage.Finished? ==> w.calls[i].stage.outcome.Raised?)
  }

  lemma StepKeepsFenced(w: World, e: Event, i: nat)
    requires Fenced(w, i)
    ensures Fenced(Apply(w, e), i) && Apply(w, e).calls[i].stage.token == w.calls[i].stage.token
  {
    match e
    case HoldEvent(_, _, _, _) =>
    case RenewEvent(_, _, _, _) =>
    case CallEvent(j, step, at) =>
      if j < |w.calls| {
        match step
        case OpenStep(ready) => OpenKeepsFenced(w, j, ready, at, i);
        case AuthorizeStep(credentials, look, commits) => AuthorizeKeepsFenced(w, j, credentials, look, commits, at, i, Apply(w, e));
        case WorkStep(_) =>
        case CloseStep(commits) => CloseKeepsFenced(w, j, commits, at, i);
        case CrashStep =>
      }
  }

  lemma AuthorizeKeepsFenced(w: World, j: nat, credentials: bool, look: R.Lookups, commits: bool, now: Instant, i: nat, t: World)
    requires Fenced(w, i) && j < |w.calls| && t == Authorize(w, j, credentials, look, commits, now)
    ensures Fenced(t, i) && t.calls[i].stage.token == w.calls[i].stage.token
  {
    assert t.lease == w.lease && (w.calls[j].stage.Opened? ==> HasLease(t.calls[j].stage) && !t.calls[j].stage.Finished?);
  }

  lemma OpenKeepsFenced(w: World, j: nat, ready: bool, now: Instant, i: nat)
    requires Fenced(w, i) && j < |w.calls|
    ensures Fenced(Open(w, j, ready, now), i) && Open(w, j, ready, now).calls[i].stage.token == w.calls[i].stage.token
  {
    var p := w.calls[j].plan;
    AcquireDrifts(w.lease, p.endpoint, p.identity, p.owner, p.leaseTtl, now);
    assert LeaseDrift(w.lease.leases[w.calls[i].stage.token],
                      L.Acquire(w.lease, p.endpoint, p.identity, p.owner, p.leaseTtl, true, now).0.leases[w.calls[i].stage.token]);
  }

  /** Closing ends active leases only. */
  lemma FinalizeKeepsEnded(lease: L.State, token: nat, owner: string, outcome: L.Status, now: Instant, k: nat)
    requires k < |lease.leases| && lease.leases[k].status != L.Active
    ensures var (t, d) := L.Finalize(lease, token, owner, outcome, now);
      |t.leases| == |lease.leases| && t.leases[k] == lease.leases[k] && (token == k ==> d.Failure?)
  {
  }

  lemma CloseKeepsFenced(w: World, j: nat, commits: bool, now: Instant, i: nat)
    requires Fenced(w, i) && j < |w.calls|
    ensures Fenced(Close(w, j, commits, now), i) && Close(w, j, commits, now).calls[i].stage.token == w.calls[i].stage.token
  {
    var call := w.calls[j];
    if Closing(call.stage) {
      FinalizeKeepsEnded(w.lease, call.stage.token, call.plan.owner, if call.stage.Succeeding? then L.Released else L.Failed, now,
                         w.calls[i].stage.token);
    }
  }

  /** Once fenced, a call can only fail, whatever the interleaving: it never reports `completed` or `delayed`. */
  lemma {:induction false} FencedNeverCompletes(w: World, events: seq<Event>, i: nat)
    requires Fenced(w, i)
    ensures Fenced(Run(w, events), i)
  {
    if events != [] {
      FencedNeverCompletes(w, events[..|events| - 1], i);
      StepKeepsFenced(Run(w, events[..|events| - 1]), events[|events| - 1], i);
    }
  }

  /**
   When the close of a delayed call fails because its lease was lost, the second close, made by the exception branch,
   fails as well, whatever happened in between, and changes nothing.
   */
  lemma {:induction false} SecondCloseFailsToo(w: World, i: nat, commits: bool, now: Instant, events: seq<Event>,
                                               again: bool, later: Instant)
    requires Linked(w) && Agreed(w) && RInv.Valid(w.rate) && i < |w.calls| && w.calls[i].stage.Delaying?
    requires Closure(w, i, commits, now).2 == LostLease
    ensures var t := Run(Close(w, i, commits, now), events);
      && i < |t.calls|
      && (t.calls[i].stage.Failing? ==>
            && Close(t, i, again, later).calls[i].stage.Finished?
            && Close(t, i, again, later).calls[i].stage.outcome.Raised?
            && Close(t, i, again, later).rate == t.rate && Close(t, i, again, later).lease == t.lease)
  {
    assert LeaseIsOwn(w, i) && StageAgrees(w, i);
    ClosureIsAtomic(w, i, commits, now);
    var u := Close(w, i, commits, now);
    assert Fenced(u, i);
    FencedNeverCompletes(u, events, i);
  }
}
