/** A run of the workers is a run of the limiter on its tables and a run of the lease protocol on its own. */
module WorkerRefinement {
  import opened Prelude
  import opened Worker
  import L = Lease
  import LRuns = LeaseRuns
  import R = RateLimitModel
  import RRuns = RateLimitRuns

  // ------------------------------------------------------------------ the limiter

  /** The limiter transaction that an event of the workers commits, if it does. */
  function RateEvents(w: World, e: Event): seq<RRuns.Event> {
    match e
    case HoldEvent(r, retryAfter, reset, at) => [RRuns.HoldEvent(r, retryAfter, reset, at)]
    case RenewEvent(_, _, _, _) => []
    case CallEvent(i, step, at) =>
      if i >= |w.calls| then []
      else
        var stage := w.calls[i].stage;
        match step
        case AuthorizeStep(credentials, look, commits) =>
          if stage.Opened? && credentials && commits then [RRuns.ReserveEvent(RequestOf(w, i), Seen(w, look, stage.token), at)]
          else []
        case CloseStep(commits) =>
          if Closing(stage) && Held(stage).Row? && Closure(w, i, commits, at).2 == Closed then
            [RRuns.FinalizeEvent(Held(stage).id, if stage.Succeeding? then R.Completed else R.Failed, at)]
          else []
        case _ => []
  }

  function RateTrace(w: World, events: seq<Event>): seq<RRuns.Event> {
    if events == [] then []
    else
      var most := events[..|events| - 1];
      RateTrace(w, most) + RateEvents(Run(w, most), events[|events| - 1])
  }

  lemma StepRefinesRate(w: World, e: Event)
    ensures |RateEvents(w, e)| <= 1 && (forall x | x in RateEvents(w, e) :: x.at == e.at)
    ensures Apply(w, e).rate == if RateEvents(w, e) == [] then w.rate else RRuns.Apply(w.rate, RateEvents(w, e)[0])
  {
  }

  /** At most one more event, not before the others, extends a trace in order. */
  lemma {:induction false} OneMoreRateEvent(s: R.State, before: seq<RRuns.Event>, now: seq<RRuns.Event>, clock: Instant, at: Instant)
    requires RRuns.ClockOrdered(before) && (forall x | x in before :: x.at <= clock <= at)
    requires |now| <= 1 && forall x | x in now :: x.at == at
    ensures RRuns.ClockOrdered(before + now) && forall x | x in before + now :: x.at <= at
    ensures RRuns.Run(s, before + now) == if now == [] then RRuns.Run(s, before) else RRuns.Apply(RRuns.Run(s, before), now[0])
  {
    if now == [] {
      assert before + now == before;
    } else {
      assert now[0] in now;
      assert (before + now)[..|before|] == before;
    }
  }

  /** Whatever the workers do, the limiter's tables go through a run of the limiter, in the order of the clock. */
  lemma {:induction false} RunsRefineLimiter(w: World, events: seq<Event>)
    requires ClockOrdered(events)
    ensures Run(w, events).rate == RRuns.Run(w.rate, RateTrace(w, events))
    ensures RRuns.ClockOrdered(RateTrace(w, events))
    ensures forall x | x in RateTrace(w, events) :: events != [] && x.at <= LastClock(events)
  {
    if events != [] {
      var most, e := events[..|events| - 1], events[|events| - 1];
      RunsRefineLimiter(w, most);
      StepRefinesRate(Run(w, most), e);
      OneMoreRateEvent(w.rate, RateTrace(w, most), RateEvents(Run(w, most), e), if most == [] then e.at else LastClock(most), e.at);
    }
  }

  ghost predicate WithinWindow(s: R.State, b: nat, from: Instant) {
    b < |s.buckets|
    && |RRuns.GrantedIn(s, b, from, from + s.buckets[b].policy.Period())| <= 2 * s.buckets[b].policy.Limit()
  }

  lemma {:induction false} TraceStaysWithin(bindings: map<R.Scope, R.Policy>, trace: seq<RRuns.Event>, b: nat, from: Instant, s: R.State)
    requires RRuns.ClockOrdered(trace) && s == RRuns.Run(RRuns.Initial(bindings), trace) && b < |s.buckets|
    ensures WithinWindow(s, b, from)
  {
    RRuns.SlidingWindowBound(bindings, trace, b, from);
  }

  /** So all workers together stay within a bucket's window: in any closed interval of one period at most twice its limit. */
  lemma {:induction false} WorkersStayInWindow(bindings: map<R.Scope, R.Policy>, plans: seq<Plan>, events: seq<Event>, b: nat, from: Instant)
    requires ClockOrdered(events) && b < |Run(Start(bindings, plans), events).rate.buckets|
    ensures WithinWindow(Run(Start(bindings, plans), events).rate, b, from)
  {
    var w := Start(bindings, plans);
    RunsRefineLimiter(w, events);
    TraceStaysWithin(bindings, RateTrace(w, events), b, from, Run(w, events).rate);
  }

  // ------------------------------------------------------------------ the leases

  /** The lease transaction that an event of the workers commits, if it does. */
  function LeaseEvents(w: World, e: Event): seq<LRuns.Event> {
    match e
    case HoldEvent(_, _, _, _) => []
    case RenewEvent(token, owner, ttl, at) => [LRuns.Heartbeats(at, token, owner, ttl)]
    case CallEvent(i, step, at) =>
      if i >= |w.calls| then []
      else
        var p, stage := w.calls[i].plan, w.calls[i].stage;
        match step
        case OpenStep(ready) =>
          if stage.Waiting? && ready then [LRuns.Acquires(at, p.endpoint, p.identity, p.owner, p.leaseTtl, true)] else []
        case CloseStep(commits) =>
          if Closing(stage) && Closure(w, i, commits, at).2 == Closed then
            [LRuns.Finalizes(at, stage.token, p.owner, if stage.Succeeding? then L.Released else L.Failed)]
          else []
        case _ => []
  }

  function LeaseTrace(w: World, events: seq<Event>): seq<LRuns.Event> {
    if events == [] then []
    else
      var most := events[..|events| - 1];
      LeaseTrace(w, most) + LeaseEvents(Run(w, most), events[|events| - 1])
  }

  lemma StepRefinesLease(w: World, e: Event)
    ensures |LeaseEvents(w, e)| <= 1 && (forall x | x in LeaseEvents(w, e) :: x.now == e.at)
    ensures Apply(w, e).lease == if LeaseEvents(w, e) == [] then w.lease else LRuns.Apply(w.lease, LeaseEvents(w, e)[0])
  {
  }

  lemma {:induction false} OneMoreLeaseEvent(s: L.State, before: seq<LRuns.Event>, now: seq<LRuns.Event>, clock: Instant, at: Instant)
    requires LRuns.ClockOrdered(before) && (forall x | x in before :: x.now <= clock <= at)
    requires |now| <= 1 && forall x | x in now :: x.now == at
    ensures LRuns.ClockOrdered(before + now) && forall x | x in before + now :: x.now <= at
    ensures LRuns.Run(s, before + now) == if now == [] then LRuns.Run(s, before) else LRuns.Apply(LRuns.Run(s, before), now[0])
  {
    if now == [] {
      assert before + now == before;
    } else {
      assert now[0] in now;
      assert (before + now)[..|before|] == before;
    }
  }

  /** The lease table goes through a run of the lease protocol, in the order of the clock. */
  lemma {:induction false} RunsRefineLeases(w: World, events: seq<Event>)
    requires ClockOrdered(events)
    ensures Run(w, events).lease == LRuns.Run(w.lease, LeaseTrace(w, events))
    ensures LRuns.ClockOrdered(LeaseTrace(w, events))
    ensures forall x | x in LeaseTrace(w, events) :: events != [] && x.now <= LastClock(events)
  {
    if events != [] {
      var most, e := events[..|events| - 1], events[|events| - 1];
      RunsRefineLeases(w, most);
      StepRefinesLease(Run(w, most), e);
      OneMoreLeaseEvent(w.lease, LeaseTrace(w, most), LeaseEvents(Run(w, most), e), if most == [] then e.at else LastClock(most), e.at);
    }
  }
}
