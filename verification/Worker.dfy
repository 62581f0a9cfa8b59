/**
 The acquisition worker as a composition of the lease and rate-limit transactions. Any number of workers
 interleave transaction by transaction. Opening an execution writes one lease row and one run row, so the
 k-th opened execution has lease `k` and run `k`.
 */
module Worker {
  import opened Prelude
  import L = Lease
  import R = RateLimitModel

  const RESERVATION_TTL: int := 120 * SECOND

  datatype Plan = Plan(endpoint: int, identity: string, owner: string, leaseTtl: int)

  /** How the transaction that closes a call's books ended. */
  datatype Ending = Closed | LostLease | NoSuchReservation | CommitFailed

  datatype Outcome = Completed | Delayed | Raised(lastClose: Ending)

  /** The reservation id in a call's hands; after a failed commit it may name a row that was rolled back. */
  datatype Holding = Nothing | Row(id: nat) | RolledBack

  /** Where one call of `run` stands between two transactions. */
  datatype Stage =
    | Waiting
    | Declined
    | Opened(token: nat)
    | Delaying(token: nat)
    | Working(token: nat, reservation: nat)
    | Succeeding(token: nat, reservation: nat)
    | Failing(token: nat, held: Holding)
    | Finished(outcome: Outcome, token: nat, held: Holding)
    | Crashed(token: nat, held: Holding)

  datatype Call = Call(plan: Plan, stage: Stage)

  /** `openers[k]` is the call that opened execution `k`. */
  datatype World = World(rate: R.State, lease: L.State, openers: seq<nat>, calls: seq<Call>)

  predicate HasLease(stage: Stage) {
    !stage.Waiting? && !stage.Declined?
  }

  /** The reservation the call believes it holds. */
  function Held(stage: Stage): Holding {
    match stage
    case Working(_, r) => Row(r)
    case Succeeding(_, r) => Row(r)
    case Failing(_, held) => held
    case Finished(_, _, held) => held
    case Crashed(_, held) => held
    case _ => Nothing
  }

  function Moved(w: World, i: nat, stage: Stage): World
    requires i < |w.calls|
  {
    w.(calls := w.calls[i := w.calls[i].(stage := stage)])
  }

  // ------------------------------------------------------------------ transactions

  /** Checks, lease and run row in one transaction; `ready` says whether the checks before the lease pass. */
  function Open(w: World, i: nat, ready: bool, now: Instant): World
    requires i < |w.calls|
  {
    if !w.calls[i].stage.Waiting? then w
    else if !ready then Moved(w, i, Declined)
    else
      var p := w.calls[i].plan;
      var (lease, d) := L.Acquire(w.lease, p.endpoint, p.identity, p.owner, p.leaseTtl, true, now);
      if L.Granted(d) then
        Moved(w.(lease := lease, openers := w.openers + [i]), i, Opened(d.value.lease))
      else Moved(w.(lease := lease), i, Declined)
  }

  function RequestOf(w: World, i: nat): R.Request
    requires i < |w.calls| && HasLease(w.calls[i].stage)
  {
    var p := w.calls[i].plan;
    R.Request(w.calls[i].stage.token, p.endpoint, p.identity, [], RESERVATION_TTL)
  }

  /** What the limiter reads: the run row of the execution names the endpoint of its opener. */
  function Seen(w: World, look: R.Lookups, run: nat): R.Lookups {
    look.(runEndpoint := if run < |w.openers| && w.openers[run] < |w.calls|
                         then Some(w.calls[w.openers[run]].plan.endpoint) else None)
  }

  function Reservation(w: World, i: nat, look: R.Lookups, now: Instant): (R.State, Result<R.Decision, R.Error>)
    requires i < |w.calls| && HasLease(w.calls[i].stage)
  {
    R.Reserve(w.rate, RequestOf(w, i), Seen(w, look, w.calls[i].stage.token), now)
  }

  /** Where the reservation decision sends the call once its transaction has committed. */
  function Directed(token: nat, d: Result<R.Decision, R.Error>): Stage {
    if d.Failure? then Failing(token, Nothing)
    else match d.value
      case Reserved(r) => Working(token, r)
      case Replayed(r, permitted) => if permitted then Working(token, r) else Delaying(token)
      case Delayed(_, _) => Delaying(token)
  }

  /** Where it sends the call when the commit fails: the id was taken before the commit, and a new row is rolled back. */
  function Misled(token: nat, d: Result<R.Decision, R.Error>): Stage {
    if d.Failure? then Failing(token, Nothing)
    else match d.value
      case Reserved(_) => Failing(token, RolledBack)
      case Replayed(r, permitted) => Failing(token, if permitted then Row(r) else Nothing)
      case Delayed(_, _) => Failing(token, Nothing)
  }

  /** Resolve the credentials and reserve in one transaction; a raised error or a failed commit rolls it back. */
  function Authorize(w: World, i: nat, credentials: bool, look: R.Lookups, commits: bool, now: Instant): World
    requires i < |w.calls|
  {
    if !w.calls[i].stage.Opened? then w
    else
      var token := w.calls[i].stage.token;
      if !credentials then Moved(w, i, Failing(token, Nothing))
      else
        var (rate, d) := Reservation(w, i, look, now);
        if commits then Moved(w.(rate := rate), i, Directed(token, d)) else Moved(w, i, Misled(token, d))
  }

  /** Everything between the reservation and the finalization either returns or raises. */
  function Work(w: World, i: nat, succeeds: bool): World
    requires i < |w.calls|
  {
    var stage := w.calls[i].stage;
    if !stage.Working? then w
    else if succeeds then Moved(w, i, Succeeding(stage.token, stage.reservation))
    else Moved(w, i, Failing(stage.token, Row(stage.reservation)))
  }

  /** The id the call passes on; a rolled-back one is carried by no row. */
  function IdOf(rate: R.State, held: Holding): nat
    requires !held.Nothing?
  {
    if held.Row? then held.id else |rate.reservations|
  }

  /** Close the reservation and the lease in one transaction; any error rolls both back. */
  function FinalizeAuthority(rate: R.State, lease: L.State, held: Holding, token: nat, owner: string, succeeded: bool,
                             commits: bool, now: Instant)
    : (R.State, L.State, Ending)
  {
    var (rate1, found) := if held.Nothing? then (rate, true)
                          else
                            var (t, d) := R.Finalize(rate, IdOf(rate, held), if succeeded then R.Completed else R.Failed, now);
                            (t, d.Success?);
    if !found then (rate, lease, NoSuchReservation)
    else
      var (lease1, e) := L.Finalize(lease, token, owner, if succeeded then L.Released else L.Failed, now);
      if e.Failure? then (rate, lease, LostLease)
      else if !commits then (rate, lease, CommitFailed)
      else (rate1, lease1, Closed)
  }

  predicate Closing(stage: Stage) {
    stage.Delaying? || stage.Succeeding? || stage.Failing?
  }

  /** After a delay a failed close falls into the exception branch, which closes again. */
  function AfterClose(stage: Stage, ending: Ending): Stage
    requires Closing(stage)
  {
    if stage.Delaying? then
      if ending == Closed then Finished(Delayed, stage.token, Nothing) else Failing(stage.token, Nothing)
    else if stage.Succeeding? && ending == Closed then Finished(Completed, stage.token, Held(stage))
    else Finished(Raised(ending), stage.token, Held(stage))
  }

  /** The closing transaction of call `i`. */
  function Closure(w: World, i: nat, commits: bool, now: Instant): (R.State, L.State, Ending)
    requires i < |w.calls| && Closing(w.calls[i].stage)
  {
    var call := w.calls[i];
    FinalizeAuthority(w.rate, w.lease, Held(call.stage), call.stage.token, call.plan.owner, call.stage.Succeeding?, commits, now)
  }

  function Close(w: World, i: nat, commits: bool, now: Instant): World
    requires i < |w.calls|
  {
    if !Closing(w.calls[i].stage) then w
    else
      var (rate, lease, ending) := Closure(w, i, commits, now);
      Moved(w.(rate := rate, lease := lease), i, AfterClose(w.calls[i].stage, ending))
  }

  /** The process dies; its transaction, if any, rolls back. */
  function Crash(w: World, i: nat): World
    requires i < |w.calls|
  {
    var stage := w.calls[i].stage;
    if !HasLease(stage) || stage.Finished? then w else Moved(w, i, Crashed(stage.token, Held(stage)))
  }

  // ------------------------------------------------------------------ events

  datatype Step =
    | OpenStep(ready: bool)
    | AuthorizeStep(credentials: bool, look: R.Lookups, commits: bool)
    | WorkStep(succeeds: bool)
    | CloseStep(commits: bool)
    | CrashStep

  datatype Event =
    | CallEvent(call: nat, step: Step, at: Instant)
    | HoldEvent(reservation: nat, retryAfter: Option<Instant>, reset: Option<Instant>, at: Instant)
    | RenewEvent(token: nat, owner: string, ttl: int, at: Instant)

  function Advance(w: World, i: nat, step: Step, now: Instant): World
    requires i < |w.calls|
  {
    match step
    case OpenStep(ready) => Open(w, i, ready, now)
    case AuthorizeStep(credentials, look, commits) => Authorize(w, i, credentials, look, commits, now)
    case WorkStep(succeeds) => Work(w, i, succeeds)
    case CloseStep(commits) => Close(w, i, commits, now)
    case CrashStep => Crash(w, i)
  }

  function Apply(w: World, e: Event): World {
    match e
    case CallEvent(i, step, at) => if i < |w.calls| then Advance(w, i, step, at) else w
    case HoldEvent(r, retryAfter, reset, _) => w.(rate := R.ObserveHold(w.rate, r, retryAfter, reset))
    case RenewEvent(token, owner, ttl, at) => w.(lease := L.Heartbeat(w.lease, token, owner, ttl, at).0)
  }

  function Run(w: World, events: seq<Event>): World {
    if events == [] then w else Apply(Run(w, events[..|events| - 1]), events[|events| - 1])
  }

  function Start(bindings: map<R.Scope, R.Policy>, plans: seq<Plan>): World {
    World(R.State(bindings, [], [], map[], []), L.State([], []), [],
          seq(|plans|, i requires 0 <= i < |plans| => Call(plans[i], Waiting)))
  }

  ghost predicate ClockOrdered(events: seq<Event>) {
    forall i, j | 0 <= i < j < |events| :: events[i].at <= events[j].at
  }

  function LastClock(events: seq<Event>): Instant {
    if events == [] then 0 else events[|events| - 1].at
  }
}
