/** The worker as it runs: one call after another transaction on the shared limiter and lease tables. */
module WorkerService {
  import opened Prelude
  import opened Worker
  import Runs = WorkerRuns
  import L = Lease
  import R = RateLimitModel
  import opened LeaseService
  import opened RateLimitService

  /** How one `run` goes on the outside: which checks pass, what the clock reads, what happens elsewhere meanwhile. */
  datatype Script = Script(
    ready: bool,
    openedAt: Instant,
    afterOpening: seq<Event>,
    credentials: bool,
    look: R.Lookups,
    authorizationCommits: bool,
    authorizedAt: Instant,
    afterReserving: seq<Event>,
    workSucceeds: bool,
    workedAt: Instant,
    afterWorking: seq<Event>,
    closeCommits: bool,
    closedAt: Instant,
    afterClosing: seq<Event>,
    closeAgainCommits: bool,
    closedAgainAt: Instant
  )

  /** Events elsewhere between two moments of call `i`. */
  ghost predicate Between(earlier: Instant, events: seq<Event>, later: Instant, i: nat) {
    && earlier <= later && ClockOrdered(events)
    && forall k | 0 <= k < |events| :: earlier <= events[k].at <= later && Runs.Elsewhere(events[k], i)
  }

  ghost predicate Plausible(s: Script, clock: Instant, i: nat) {
    && clock <= s.openedAt
    && Between(s.openedAt, s.afterOpening, s.authorizedAt, i)
    && Between(s.authorizedAt, s.afterReserving, s.workedAt, i)
    && Between(s.workedAt, s.afterWorking, s.closedAt, i)
    && Between(s.closedAt, s.afterClosing, s.closedAgainAt, i)
  }

  function OpeningStory(s: Script, i: nat): seq<Event> {
    [CallEvent(i, OpenStep(s.ready), s.openedAt)] + s.afterOpening
  }

  function AttemptStory(s: Script, i: nat): seq<Event> {
    [CallEvent(i, AuthorizeStep(s.credentials, s.look, s.authorizationCommits), s.authorizedAt)] + s.afterReserving
    + [CallEvent(i, WorkStep(s.workSucceeds), s.workedAt)] + s.afterWorking
  }

  function ClosingStory(s: Script, i: nat): seq<Event> {
    [CallEvent(i, CloseStep(s.closeCommits), s.closedAt)] + s.afterClosing + [CallEvent(i, CloseStep(s.closeAgainCommits), s.closedAgainAt)]
  }

  datatype Report = NotOpened | Done | RateDelayed | RaisedError

  /** The report of a call agrees with the stage it ended in. */
  predicate Reports(stage: Stage, report: Report) {
    match report
    case NotOpened => stage.Declined?
    case Done => stage.Finished? && stage.outcome == Completed
    case RateDelayed => stage.Finished? && stage.outcome == Delayed
    case RaisedError => stage.Finished? && stage.outcome.Raised?
  }

  class AcquisitionWorkers {
    const limiter: RateLimiter
    const leases: LeaseTable
    var openers: seq<nat>
    var calls: seq<Call>

    function Tables(): World
      reads this, limiter, leases
    {
      World(limiter.Tables(), leases.Tables(), openers, calls)
    }

    ghost predicate Valid(clock: Instant)
      reads this, limiter, leases
    {
      Runs.Valid(Tables(), clock)
    }

    constructor (policies: map<R.Scope, R.Policy>, plans: seq<Plan>, ghost clock: Instant)
      ensures Tables() == Start(policies, plans) && Valid(clock)
      ensures fresh(limiter) && fresh(leases)
    {
      limiter := new RateLimiter(policies);
      leases := new LeaseTable();
      openers, calls := [], seq(|plans|, i requires 0 <= i < |plans| => Call(plans[i], Waiting));
      new;
      Runs.ValidAtStart(policies, plans, clock);
    }

    method Move(i: nat, stage: Stage)
      requires i < |calls|
      modifies this`calls
      ensures Tables() == Moved(old(Tables()), i, stage)
    {
      calls := calls[i := calls[i].(stage := stage)];
    }

    /** Checks, lease and run row: one transaction. */
    method OpenExecution(i: nat, ready: bool, now: Instant, ghost clock: Instant)
      requires Valid(clock) && clock <= now && i < |calls| && calls[i].stage.Waiting?
      modifies this, leases
      ensures Valid(now) && Tables() == Apply(old(Tables()), CallEvent(i, OpenStep(ready), now))
      ensures i < |calls| && (calls[i].stage.Opened? || calls[i].stage.Declined?)
    {
      Runs.StepKeepsValid(Tables(), CallEvent(i, OpenStep(ready), now), clock);
      if !ready {
        Move(i, Declined);
        return;
      }
      var p := calls[i].plan;
      var d := leases.Acquire(p.endpoint, p.identity, p.owner, p.leaseTtl, true, now, clock);
      if d.Success? && (d.value.Acquired? || d.value.TakenOver?) {
        openers := openers + [i];
        Move(i, Opened(d.value.lease));
      } else {
        Move(i, Declined);
      }
    }

    /** The limiter decides; a failed commit undoes what it wrote. */
    method Decide(q: R.Request, look: R.Lookups, commits: bool, now: Instant) returns (d: Result<R.Decision, R.Error>)
      requires limiter.Valid()
      modifies limiter
      ensures d == R.Reserve(old(limiter.Tables()), q, look, now).1
      ensures limiter.Tables() == if commits then R.Reserve(old(limiter.Tables()), q, look, now).0 else old(limiter.Tables())
    {
      var saved := limiter.Tables();
      d := limiter.Reserve(q, look, now);
      if !commits {
        limiter.Restore(saved);
      }
    }

    /** Credentials and reservation: one transaction. */
    method Reserve(i: nat, credentials: bool, look: R.Lookups, commits: bool, now: Instant, ghost clock: Instant)
      requires Valid(clock) && clock <= now && i < |calls| && calls[i].stage.Opened?
      modifies this, limiter
      ensures Valid(now) && Tables() == Apply(old(Tables()), CallEvent(i, AuthorizeStep(credentials, look, commits), now))
      ensures i < |calls| && (calls[i].stage.Working? || calls[i].stage.Delaying? || calls[i].stage.Failing?)
    {
      Runs.StepKeepsValid(Tables(), CallEvent(i, AuthorizeStep(credentials, look, commits), now), clock);
      if credentials {
        ReserveResolved(i, look, commits, now);
      } else {
        Move(i, Failing(calls[i].stage.token, Nothing));
      }
    }

    /** The credentials are there: let the limiter decide and send the call where the decision says. */
    method ReserveResolved(i: nat, look: R.Lookups, commits: bool, now: Instant)
      requires limiter.Valid() && i < |calls| && calls[i].stage.Opened?
      modifies this`calls, limiter
      ensures Tables() == Authorize(old(Tables()), i, true, look, commits, now)
      ensures i < |calls| && (calls[i].stage.Working? || calls[i].stage.Delaying? || calls[i].stage.Failing?)
    {
      var token := calls[i].stage.token;
      var d := Decide(RequestOf(Tables(), i), Seen(Tables(), look, token), commits, now);
      Move(i, if commits then Directed(token, d) else Misled(token, d));
    }

    /** Retrieval, ingestion and normalisation under the reservation; without one there is nothing to do. */
    method Perform(i: nat, succeeds: bool, now: Instant, ghost clock: Instant)
      requires Valid(clock) && clock <= now && i < |calls| && HasLease(calls[i].stage)
      modifies this`calls
      ensures Valid(now) && Tables() == Apply(old(Tables()), CallEvent(i, WorkStep(succeeds), now))
      ensures i < |calls| && (if old(calls[i].stage).Working? then Closing(calls[i].stage) else calls[i] == old(calls[i]))
    {
      Runs.StepKeepsValid(Tables(), CallEvent(i, WorkStep(succeeds), now), clock);
      var stage := calls[i].stage;
      if stage.Working? {
        Move(i, if succeeds then Succeeding(stage.token, stage.reservation) else Failing(stage.token, Row(stage.reservation)));
      }
    }

    /** Reservation and lease in one transaction; a lost lease or a failed commit rolls the reservation back too. */
    method CloseAuthority(held: Holding, token: nat, owner: string, succeeded: bool, commits: bool, now: Instant, ghost clock: Instant)
      returns (ending: Ending)
      requires Valid(clock) && clock <= now
      modifies limiter, leases
      ensures (limiter.Tables(), leases.Tables(), ending)
           == FinalizeAuthority(old(limiter.Tables()), old(leases.Tables()), held, token, owner, succeeded, commits, now)
    {
      var rate, lease := limiter.Tables(), leases.Tables();
      if !held.Nothing? {
        var d := limiter.Finalize(IdOf(rate, held), if succeeded then R.Completed else R.Failed, now);
        if d.Failure? {
          return NoSuchReservation;
        }
      }
      var e := leases.Finalize(token, owner, if succeeded then L.Released else L.Failed, now, clock);
      if e.Failure? {
        limiter.Restore(rate);
        return LostLease;
      }
      if !commits {
        limiter.Restore(rate);
        leases.Restore(lease);
        return CommitFailed;
      }
      ending := Closed;
    }

    method CloseCall(i: nat, commits: bool, now: Instant, ghost clock: Instant) returns (ending: Ending)
      requires Valid(clock) && clock <= now && i < |calls| && Closing(calls[i].stage)
      modifies this, limiter, leases
      ensures Valid(now) && Tables() == Apply(old(Tables()), CallEvent(i, CloseStep(commits), now))
      ensures i < |calls| && calls[i].stage == AfterClose(old(calls[i].stage), ending)
    {
      Runs.StepKeepsValid(Tables(), CallEvent(i, CloseStep(commits), now), clock);
      var call := calls[i];
      ending := CloseAuthority(Held(call.stage), call.stage.token, call.plan.owner, call.stage.Succeeding?, commits, now, clock);
      Move(i, AfterClose(call.stage, ending));
    }

    method TakeStep(i: nat, step: Step, at: Instant, ghost clock: Instant)
      requires Valid(clock) && clock <= at && i < |calls|
      modifies this, limiter, leases
      ensures Valid(at) && Tables() == Apply(old(Tables()), CallEvent(i, step, at))
    {
      Runs.StepKeepsValid(Tables(), CallEvent(i, step, at), clock);
      match step
      case OpenStep(ready) => if calls[i].stage.Waiting? { OpenExecution(i, ready, at, clock); }
      case AuthorizeStep(credentials, look, commits) =>
        if calls[i].stage.Opened? { Reserve(i, credentials, look, commits, at, clock); }
      case WorkStep(succeeds) => if HasLease(calls[i].stage) { Perform(i, succeeds, at, clock); }
      case CloseStep(commits) => if Closing(calls[i].stage) { var _ := CloseCall(i, commits, at, clock); }
      case CrashStep =>
        if HasLease(calls[i].stage) && !calls[i].stage.Finished? {
          Move(i, Crashed(calls[i].stage.token, Held(calls[i].stage)));
        }
    }

    method Take(e: Event, ghost clock: Instant)
      requires Valid(clock) && clock <= e.at
      modifies this, limiter, leases
      ensures Valid(e.at) && Tables() == Apply(old(Tables()), e)
    {
      Runs.StepKeepsValid(Tables(), e, clock);
      match e
      case HoldEvent(r, retryAfter, reset, _) => limiter.ObserveHold(r, retryAfter, reset);
      case RenewEvent(token, owner, ttl, at) => var _ := leases.Heartbeat(token, owner, ttl, at, clock);
      case CallEvent(i, step, at) => if i < |calls| { TakeStep(i, step, at, clock); }
    }

    /** What happens elsewhere while call `i` is between two transactions. */
    method Elapse(i: nat, events: seq<Event>, ghost earlier: Instant, ghost later: Instant)
      requires Valid(earlier) && Between(earlier, events, later, i) && i < |calls|
      modifies this, limiter, leases
      ensures Valid(later) && Tables() == Worker.Run(old(Tables()), events)
      ensures i < |calls| && calls[i] == old(calls[i])
    {
      ghost var clock := earlier;
      ghost var start := Tables();
      for k := 0 to |events|
        invariant Valid(clock) && earlier <= clock <= later && (k < |events| ==> clock <= events[k].at)
        invariant Tables() == Worker.Run(start, events[..k])
      {
        Take(events[k], clock);
        clock := events[k].at;
        Runs.RunNext(start, events, k);
      }
      assert events[..|events|] == events;
      Runs.ValidLater(Tables(), clock, later);
      Runs.OthersLeaveCall(start, events, i);
    }

    /** Authorise and work; whatever raises, the call comes out ready to close. */
    method Attempt(i: nat, s: Script, ghost clock: Instant)
      requires Valid(s.authorizedAt) && Plausible(s, clock, i) && i < |calls| && calls[i].stage.Opened?
      modifies this, limiter, leases
      ensures Valid(s.closedAt) && Tables() == Worker.Run(old(Tables()), AttemptStory(s, i))
      ensures i < |calls| && Closing(calls[i].stage)
    {
      ghost var w0 := Tables();
      Reserve(i, s.credentials, s.look, s.authorizationCommits, s.authorizedAt, s.authorizedAt);
      Elapse(i, s.afterReserving, s.authorizedAt, s.workedAt);
      Perform(i, s.workSucceeds, s.workedAt, s.workedAt);
      Elapse(i, s.afterWorking, s.workedAt, s.closedAt);
      StoryUnfolds(w0, CallEvent(i, AuthorizeStep(s.credentials, s.look, s.authorizationCommits), s.authorizedAt), s.afterReserving,
                   CallEvent(i, WorkStep(s.workSucceeds), s.workedAt), s.afterWorking);
    }

    /** The close of a delayed call, inside the `try`: when it fails, the exception branch closes a second time. */
    method ConcludeDelay(i: nat, s: Script, ghost clock: Instant) returns (report: Report, ghost trace: seq<Event>)
      requires Valid(s.closedAt) && Plausible(s, clock, i) && i < |calls| && calls[i].stage.Delaying?
      modifies this, limiter, leases
      ensures Tables() == Worker.Run(old(Tables()), trace) && trace <= ClosingStory(s, i)
      ensures i < |calls| && Reports(calls[i].stage, report)
    {
      ghost var w0 := Tables();
      ghost var e := CallEvent(i, CloseStep(s.closeCommits), s.closedAt);
      var ending := CloseCall(i, s.closeCommits, s.closedAt, s.closedAt);
      if ending == Closed {
        RunsOnce(w0, e);
        return RateDelayed, [e];
      }
      Elapse(i, s.afterClosing, s.closedAt, s.closedAgainAt);
      var _ := CloseCall(i, s.closeAgainCommits, s.closedAgainAt, s.closedAgainAt);
      RunsAround(w0, e, s.afterClosing, CallEvent(i, CloseStep(s.closeAgainCommits), s.closedAgainAt));
      return RaisedError, ClosingStory(s, i);
    }

    /** The last transaction, after the work succeeded or in the exception branch. */
    method Conclude(i: nat, s: Script, ghost clock: Instant) returns (report: Report, ghost trace: seq<Event>)
      requires Valid(s.closedAt) && Plausible(s, clock, i) && i < |calls| && Closing(calls[i].stage)
      modifies this, limiter, leases
      ensures Tables() == Worker.Run(old(Tables()), trace) && trace <= ClosingStory(s, i)
      ensures i < |calls| && Reports(calls[i].stage, report)
    {
      if calls[i].stage.Delaying? {
        report, trace := ConcludeDelay(i, s, clock);
        return;
      }
      var worked := calls[i].stage.Succeeding?;
      RunsOnce(Tables(), CallEvent(i, CloseStep(s.closeCommits), s.closedAt));
      var ending := CloseCall(i, s.closeCommits, s.closedAt, s.closedAt);
      return if worked && ending == Closed then Done else RaisedError, [CallEvent(i, CloseStep(s.closeCommits), s.closedAt)];
    }

    /** One whole `run`, interleaved with anything: a refinement of the interleaving machine. */
    method Run(i: nat, s: Script, ghost clock: Instant) returns (report: Report, ghost trace: seq<Event>)
      requires Valid(clock) && Plausible(s, clock, i) && i < |calls| && calls[i].stage.Waiting?
      modifies this, limiter, leases
      ensures Tables() == Worker.Run(old(Tables()), trace)
      ensures trace <= OpeningStory(s, i) + AttemptStory(s, i) + ClosingStory(s, i)
      ensures i < |calls| && Reports(calls[i].stage, report)
    {
      ghost var w0 := Tables();
      ghost var e := CallEvent(i, OpenStep(s.ready), s.openedAt);
      OpenExecution(i, s.ready, s.openedAt, clock);
      trace := [e];
      RunsOnce(w0, e);
      if calls[i].stage.Declined? {
        return NotOpened, trace;
      }
      Elapse(i, s.afterOpening, s.openedAt, s.authorizedAt);
      Runs.RunConcat(w0, [e], s.afterOpening);
      Attempt(i, s, clock);
      ghost var tail;
      report, tail := Conclude(i, s, clock);
      RunsThrough(w0, OpeningStory(s, i), AttemptStory(s, i), tail);
      trace := OpeningStory(s, i) + AttemptStory(s, i) + tail;
    }
  }

  lemma RunsOnce(w: World, e: Event)
    ensures Worker.Run(w, [e]) == Apply(w, e)
  {
    Runs.RunOne(w, [], e);
    assert [] + [e] == [e];
  }

  lemma RunsThrough(w: World, a: seq<Event>, b: seq<Event>, c: seq<Event>)
    ensures Worker.Run(w, a + b + c) == Worker.Run(Worker.Run(Worker.Run(w, a), b), c)
  {
    Runs.RunConcat(w, a, b);
    Runs.RunConcat(w, a + b, c);
  }

  lemma RunsAround(w: World, e0: Event, a: seq<Event>, e1: Event)
    ensures Worker.Run(w, [e0] + a + [e1]) == Apply(Worker.Run(Apply(w, e0), a), e1)
  {
    RunsOnce(w, e0);
    Runs.RunConcat(w, [e0], a);
    Runs.RunOne(w, [e0] + a, e1);
  }

  lemma StoryUnfolds(w: World, e0: Event, a: seq<Event>, e1: Event, b: seq<Event>)
    ensures Worker.Run(w, [e0] + a + [e1] + b) == Worker.Run(Apply(Worker.Run(Apply(w, e0), a), e1), b)
  {
    RunsAround(w, e0, a, e1);
    Runs.RunConcat(w, [e0] + a + [e1], b);
  }
}
