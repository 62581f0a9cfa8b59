/** Where each transaction of a call leads and which rows it leaves, stated on the tables and the call's plan. */
module WorkerOutcomes {
  import opened Prelude
  import L = Lease
  import LOut = LeaseOutcomes
  import R = RateLimitModel
  import RInv = RateLimitInvariants
  import RScopes = RateLimitScopes
  import RGrants = RateLimitGrants
  import opened Worker
  import opened WorkerRuns

  /** Only the stage of call `i` differs in the calls. */
  ghost predicate OnlyMoves(w: World, t: World, i: nat, stage: Stage) {
    && i < |w.calls| == |t.calls| && t.calls[i] == Call(w.calls[i].plan, stage)
    && forall j | 0 <= j < |w.calls| && j != i :: t.calls[j] == w.calls[j]
  }

  // ------------------------------------------------------------------ opening

  /** Why an endpoint has no lease for this execution. */
  ghost predicate Refuses(s: L.State, p: Plan, now: Instant) {
    || p.leaseTtl <= 0 || LOut.HasExecution(s, p.endpoint, p.identity)
    || exists a: nat :: LOut.Holds(s, a, p.endpoint) && s.leases[a].expiresAt > now
  }

  lemma RefusalChangesNoLease(s: L.State, p: Plan, clock: Instant, now: Instant)
    requires L.Valid(s, clock) && Refuses(s, p, now)
    ensures var (t, d) := L.Acquire(s, p.endpoint, p.identity, p.owner, p.leaseTtl, true, now);
      !L.Granted(d) && t.leases == s.leases
  {
    LOut.AcquireAnswersFirst(s, p.endpoint, p.identity, p.owner, p.leaseTtl, true, now);
    if !LOut.HasExecution(s, p.endpoint, p.identity) {
      if a: nat :| LOut.Holds(s, a, p.endpoint) {
        if later: nat :| LOut.Holds(s, later, p.endpoint) && s.leases[later].expiresAt > now {
          LOut.AcquireHeldExactly(s, later, p.endpoint, p.identity, p.owner, p.leaseTtl, clock, now);
        } else {
          LOut.AcquireHeldExactly(s, a, p.endpoint, p.identity, p.owner, p.leaseTtl, clock, now);
        }
      } else {
        LOut.AcquireFreeExactly(s, p.endpoint, p.identity, p.owner, p.leaseTtl, now);
      }
    }
  }

  /** A call that is not ready, whose identity was used before or whose endpoint is busy declines and opens nothing. */
  lemma OpenDeclines(w: World, i: nat, ready: bool, clock: Instant, now: Instant)
    requires L.Valid(w.lease, clock) && i < |w.calls| && w.calls[i].stage == Waiting
    requires !ready || Refuses(w.lease, w.calls[i].plan, now)
    ensures var t := Open(w, i, ready, now);
      OnlyMoves(w, t, i, Declined) && t.rate == w.rate && t.openers == w.openers && t.lease.leases == w.lease.leases
  {
    if ready {
      RefusalChangesNoLease(w.lease, w.calls[i].plan, clock, now);
    }
  }

  /**
   Any other waiting call opens the next execution: its lease is the next row, active until `now` plus the call's own
   lifetime, in the call's own name; a holder whose time was over is expired. The limiter is not asked yet.
   */
  lemma OpenOpens(w: World, i: nat, clock: Instant, now: Instant)
    requires L.Valid(w.lease, clock) && |w.openers| == |w.lease.leases|
    requires i < |w.calls| && w.calls[i].stage == Waiting && !Refuses(w.lease, w.calls[i].plan, now)
    ensures var t, p, n := Open(w, i, true, now), w.calls[i].plan, |w.openers|;
      && OnlyMoves(w, t, i, Opened(n)) && t.rate == w.rate && t.openers == w.openers + [i]
      && |t.lease.leases| == n + 1
      && t.lease.leases[n] == LOut.Granting(p.endpoint, p.identity, p.owner, p.leaseTtl, now, t.lease.leases[n].takeoverCount)
      && forall a | 0 <= a < n ::
           t.lease.leases[a] == if LOut.Holds(w.lease, a, p.endpoint)
                                then w.lease.leases[a].(status := L.Expired, finalizedAt := Some(now)) else w.lease.leases[a]
  {
    var p := w.calls[i].plan;
    if held: nat :| LOut.Holds(w.lease, held, p.endpoint) {
      LOut.AcquireHeldExactly(w.lease, held, p.endpoint, p.identity, p.owner, p.leaseTtl, clock, now);
      forall a: nat | LOut.Holds(w.lease, a, p.endpoint) ensures a == held {
        LOut.ActiveIsFound(w.lease, a, p.endpoint, clock);
        LOut.ActiveIsFound(w.lease, held, p.endpoint, clock);
      }
    } else {
      LOut.AcquireFreeExactly(w.lease, p.endpoint, p.identity, p.owner, p.leaseTtl, now);
    }
  }

  // ------------------------------------------------------------------ authorizing

  /** The request of an opened call: its own run and identity on its own endpoint, for two minutes, without credentials. */
  function Asks(w: World, i: nat): R.Request
    requires i < |w.calls| && HasLease(w.calls[i].stage)
  {
    R.Request(w.calls[i].stage.token, w.calls[i].plan.endpoint, w.calls[i].plan.identity, [], 120_000_000)
  }

  /** The run row of an opened call names the call's own endpoint. */
  function OnItsOwn(w: World, i: nat, look: R.Lookups): R.Lookups
    requires i < |w.calls|
  {
    look.(runEndpoint := Some(w.calls[i].plan.endpoint))
  }

  /**
   The authorization asks the limiter for the call's own request. Its tables are kept when the commit goes through, and a
   grant then puts the call to work on the granted row; a delay sends it to the delayed close, an error to the failing one.
   Without the commit, or without its credentials, the call fails and the limiter's tables stay as they were.
   */
  lemma AuthorizeExactly(w: World, i: nat, credentials: bool, look: R.Lookups, commits: bool, now: Instant)
    requires Linked(w) && i < |w.calls| && w.calls[i].stage.Opened?
    ensures var t, token := Authorize(w, i, credentials, look, commits, now), w.calls[i].stage.token;
      var (rate, d) := R.Reserve(w.rate, Asks(w, i), OnItsOwn(w, i, look), now);
      && t.lease == w.lease && t.openers == w.openers
      && (d.Success? ==> d.value.Reserved? || d.value.Delayed?)
      && t.rate == (if credentials && commits then rate else w.rate)
      && OnlyMoves(w, t, i,
           if !credentials || d.Failure? then Failing(token, Nothing)
           else if d.value.Reserved? then if commits then Working(token, d.value.reservation) else Failing(token, RolledBack)
           else if commits then Delaying(token) else Failing(token, Nothing))
  {
    assert LeaseIsOwn(w, i);
    FreshRunNeverReplays(w, i, look, now);
  }

  /** A replayed answer, which a new run never gets, would put the call to work on the old row exactly while that is active. */
  lemma ReplayIsTakenUp(w: World, i: nat, look: R.Lookups, commits: bool, now: Instant)
    requires i < |w.calls| && w.calls[i].stage.Opened?
    requires var d := Reservation(w, i, look, now).1; d.Success? && d.value.Replayed?
    ensures var t, token := Authorize(w, i, true, look, commits, now), w.calls[i].stage.token;
      var r, permitted := Reservation(w, i, look, now).1.value.existing, Reservation(w, i, look, now).1.value.permitted;
      && t == w.(calls := t.calls)
      && OnlyMoves(w, t, i, if commits then if permitted then Working(token, r) else Delaying(token)
                            else Failing(token, if permitted then Row(r) else Nothing))
  {
    RScopes.RefusedExactly(w.rate, RequestOf(w, i), Seen(w, look, w.calls[i].stage.token), now);
  }

  /**
   An opened call is put to work exactly when its endpoint is configured with a canonical origin, the installation has a
   policy, and every existing bucket of a scope its request concerns lets it through beside what has not expired there.
   */
  lemma WorksIff(w: World, i: nat, look: R.Lookups, now: Instant)
    requires Linked(w) && RInv.Valid(w.rate) && i < |w.calls| && w.calls[i].stage.Opened?
    ensures Authorize(w, i, true, look, true, now).calls[i].stage.Working?
      <==> && look.configuration.Some? && look.configuration.value.origin.Some? && look.defaultPolicy.Some?
           && forall b: nat | b < |w.rate.buckets| && RScopes.Concerns(w.rate.buckets[b].scope, Asks(w, i), look.configuration.value) ::
                RScopes.LetsThrough(w.rate.buckets[b], |RGrants.Unexpired(w.rate, b, now)|, now)
  {
    AuthorizeExactly(w, i, true, look, true, now);
    var q := Asks(w, i);
    RScopes.GrantedExactly(w.rate, q, OnItsOwn(w, i, look), now);
    assert LeaseIsOwn(w, i);
    forall r | 0 <= r < |w.rate.reservations|
      ensures w.rate.reservations[r].runId != q.runId || w.rate.reservations[r].requestIdentity != q.identity
    {
      assert ReservationIsHeld(w, r);
    }
  }

  // ------------------------------------------------------------------ working, closing and dying

  /** Work ends in success or failure, with the reservation still in the call's hands and no table touched. */
  lemma WorkExactly(w: World, i: nat, succeeds: bool)
    requires i < |w.calls| && w.calls[i].stage.Working?
    ensures var t, token, r := Work(w, i, succeeds), w.calls[i].stage.token, w.calls[i].stage.reservation;
      && t == w.(calls := t.calls)
      && OnlyMoves(w, t, i, if succeeds then Succeeding(token, r) else Failing(token, Row(r)))
  {
  }

  /** A dying process leaves its lease and whatever reservation it held behind, and touches no table. */
  lemma CrashExactly(w: World, i: nat)
    requires i < |w.calls|
    ensures var t, stage := Crash(w, i), w.calls[i].stage;
      && t == w.(calls := t.calls)
      && match stage
         case Waiting => t == w
         case Declined => t == w
         case Finished(_, _, _) => t == w
         case Opened(token) => OnlyMoves(w, t, i, Crashed(token, Nothing))
         case Delaying(token) => OnlyMoves(w, t, i, Crashed(token, Nothing))
         case Working(token, r) => OnlyMoves(w, t, i, Crashed(token, Row(r)))
         case Succeeding(token, r) => OnlyMoves(w, t, i, Crashed(token, Row(r)))
         case Failing(token, held) => OnlyMoves(w, t, i, Crashed(token, held))
         case Crashed(token, held) => OnlyMoves(w, t, i, Crashed(token, held))
  {
  }

  /** What a call that is about to close has in its hands. */
  function Brings(stage: Stage): Holding {
    match stage
    case Succeeding(_, r) => Row(r)
    case Failing(_, held) => held
    case _ => Nothing
  }

  /** Why a close fails, if it does. */
  function Obstacle(w: World, token: nat, held: Holding, commits: bool): Option<Ending>
    requires token < |w.lease.leases|
  {
    if held == RolledBack then Some(NoSuchReservation)
    else if w.lease.leases[token].status != L.Active then Some(LostLease)
    else if !commits then Some(CommitFailed)
    else None
  }

  /**
   A close that nothing stands in the way of ends the lease, as released after success and as failed otherwise, ends the
   reservation the call holds in the same way, and finishes the call: delayed after a delay, completed after success and
   raised after a failure. A failed close changes no table; after a delay it leads to the failing close, and else the call
   is finished as raised.
   */
  lemma CloseExactly(w: World, i: nat, commits: bool, now: Instant)
    requires Linked(w) && RInv.Valid(w.rate) && i < |w.calls|
    requires w.calls[i].stage.Delaying? || w.calls[i].stage.Succeeding? || w.calls[i].stage.Failing?
    ensures var t, stage := Close(w, i, commits, now), w.calls[i].stage;
      && stage.token < |w.lease.leases|
      && var obstacle, held := Obstacle(w, stage.token, Brings(stage), commits), Brings(stage);
      && t.openers == w.openers
      && (obstacle.Some? ==>
            && t.rate == w.rate && t.lease == w.lease
            && OnlyMoves(w, t, i, if stage.Delaying? then Failing(stage.token, Nothing)
                                  else Finished(Raised(obstacle.value), stage.token, held)))
      && (obstacle.None? ==>
            && t.lease.leases == w.lease.leases[stage.token := w.lease.leases[stage.token].(
                 status := if stage.Succeeding? then L.Released else L.Failed, finalizedAt := Some(now))]
            && (held.Nothing? ==> t.rate == w.rate)
            && (held.Row? ==> FreesReservation(w.rate, t.rate, held.id, if stage.Succeeding? then R.Completed else R.Failed, now))
            && OnlyMoves(w, t, i, Finished(if stage.Delaying? then Delayed else if stage.Succeeding? then Completed
                                           else Raised(Closed), stage.token, held)))
  {
    ClosureIsAtomic(w, i, commits, now);
  }

  /** A transaction that is not this call's turn does nothing. */
  lemma OutOfTurn(w: World, i: nat, ready: bool, credentials: bool, look: R.Lookups, succeeds: bool, commits: bool, now: Instant)
    requires i < |w.calls|
    ensures w.calls[i].stage != Waiting ==> Open(w, i, ready, now) == w
    ensures !w.calls[i].stage.Opened? ==> Authorize(w, i, credentials, look, commits, now) == w
    ensures !w.calls[i].stage.Working? ==> Work(w, i, succeeds) == w
    ensures !(w.calls[i].stage.Delaying? || w.calls[i].stage.Succeeding? || w.calls[i].stage.Failing?) ==> Close(w, i, commits, now) == w
  {
  }

  /** A run takes its steps one after the other: a call's next transaction, an observed hold or a renewal. */
  lemma {:induction false} RunsCompose(w: World, a: seq<Event>, b: seq<Event>, e: Event)
    ensures Run(w, a + b) == Run(Run(w, a), b) && Run(w, []) == w
    ensures Run(w, [e])
         == match e
            case HoldEvent(r, retryAfter, reset, _) => w.(rate := R.ObserveHold(w.rate, r, retryAfter, reset))
            case RenewEvent(token, owner, ttl, at) => w.(lease := L.Heartbeat(w.lease, token, owner, ttl, at).0)
            case CallEvent(i, step, at) =>
              if i >= |w.calls| then w
              else match step
                case OpenStep(ready) => Open(w, i, ready, at)
                case AuthorizeStep(credentials, look, commits) => Authorize(w, i, credentials, look, commits, at)
                case WorkStep(succeeds) => Work(w, i, succeeds)
                case CloseStep(commits) => Close(w, i, commits, at)
                case CrashStep => Crash(w, i)
  {
    RunConcat(w, a, b);
    assert [e][..0] == [];
    var nothing: seq<Event> := [];
    RunOne(w, nothing, e);
    assert nothing + [e] == [e];
  }
}
