/** What a run of the machine concludes: which rows it leaves and what it publishes, replays and failures included. */
module CalendarConclusions {
  import opened Prelude
  import opened CalendarPath
  import opened CalendarVerdict
  import opened CalendarScope
  import opened CalendarRuns
  import opened CalendarOutcomes

  // ------------------------------------------------------------------ the rows a run looks up

  /** What the operator's newest override of the scope asks for, unless it denies or withdraws. */
  ghost predicate DemandIs(s: State, scope: Scope, demand: Option<Validation>) {
    exists newest: Option<nat> :: NewestIs(s.overrides, scope, newest) && DemandOf(s, newest, demand)
  }

  ghost predicate DemandOf(s: State, newest: Option<nat>, demand: Option<Validation>) {
    if newest.Some? && newest.value < |s.overrides|
       && (s.overrides[newest.value].kind == Asserts || s.overrides[newest.value].kind == Selects)
    then s.overrides[newest.value].assertion < |s.assertions|
         && demand == Some(s.assertions[s.overrides[newest.value].assertion].validation)
    else demand == None
  }

  lemma DemandFound(s: State, scope: Scope, demand: Option<Validation>)
    requires Ledger(s) && DemandIs(s, scope, demand)
    ensures demand == Demanded(s, scope)
  {
    NewestFound(s.overrides, scope);
  }

  /** The newest run on these facts that did not fail, if there is one. */
  ghost predicate RunIs(rows: seq<Run>, scope: Scope, snapshot: string, prior: Option<nat>) {
    && (prior.Some? ==>
          prior.value < |rows| && rows[prior.value].scope == scope && rows[prior.value].snapshot == snapshot
          && rows[prior.value].status != Failed)
    && (forall k | 0 <= k < |rows| && rows[k].scope == scope && rows[k].snapshot == snapshot && rows[k].status != Failed ::
          prior.Some? && k <= prior.value)
  }

  lemma {:induction false} PriorRunCovers(rows: seq<Run>, scope: Scope, snapshot: string, n: nat, k: nat)
    requires k < n <= |rows| && Covers(rows[k], scope, snapshot)
    ensures PriorRun(rows, scope, snapshot, n).Some? && k <= PriorRun(rows, scope, snapshot, n).value
    decreases n
  {
    if k < n - 1 {
      PriorRunCovers(rows, scope, snapshot, n - 1, k);
    }
  }

  lemma RunFound(rows: seq<Run>, scope: Scope, snapshot: string)
    ensures RunIs(rows, scope, snapshot, PriorRun(rows, scope, snapshot, |rows|))
  {
    forall k | 0 <= k < |rows| && rows[k].scope == scope && rows[k].snapshot == snapshot && rows[k].status != Failed
      ensures PriorRun(rows, scope, snapshot, |rows|).Some? && k <= PriorRun(rows, scope, snapshot, |rows|).value
    {
      PriorRunCovers(rows, scope, snapshot, |rows|, k);
    }
  }

  /** The newest conflict a run found, if there is one. */
  ghost predicate FoundBy(rows: seq<Conflict>, run: nat, conflict: Option<nat>) {
    && (conflict.Some? ==> conflict.value < |rows| && rows[conflict.value].run == run)
    && (forall k | 0 <= k < |rows| && rows[k].run == run :: conflict.Some? && k <= conflict.value)
  }

  lemma {:induction false} ConflictOfRunIs(rows: seq<Conflict>, run: nat, n: nat)
    requires n <= |rows|
    ensures FoundBy(rows[..n], run, ConflictOfRun(rows, run, n))
    decreases n
  {
    if n > 0 && rows[n - 1].run != run {
      ConflictOfRunIs(rows, run, n - 1);
      var conflict := ConflictOfRun(rows, run, n - 1);
      forall k | 0 <= k < n && rows[..n][k].run == run ensures conflict.Some? && k <= conflict.value {
        assert rows[..n - 1][k].run == run;
      }
    }
  }

  /** The scope's newest run that is still at work, if there is one. */
  ghost predicate AtWork(rows: seq<Run>, scope: Scope, running: Option<nat>) {
    && (running.Some? ==> running.value < |rows| && rows[running.value].scope == scope && rows[running.value].status == Running)
    && (forall k | 0 <= k < |rows| && rows[k].scope == scope && rows[k].status == Running :: running.Some? && k <= running.value)
  }

  lemma {:induction false} RunningRunIs(rows: seq<Run>, scope: Scope, n: nat)
    requires n <= |rows|
    ensures AtWork(rows[..n], scope, RunningRun(rows, scope, n))
    decreases n
  {
    if n > 0 && !(rows[n - 1].scope == scope && rows[n - 1].status == Running) {
      RunningRunIs(rows, scope, n - 1);
      var running := RunningRun(rows, scope, n - 1);
      forall k | 0 <= k < n && rows[..n][k].scope == scope && rows[..n][k].status == Running
        ensures running.Some? && k <= running.value
      {
        assert rows[..n - 1][k] == rows[k];
      }
    }
  }

  // ------------------------------------------------------------------ publishing

  /** The operator's demand shows, as the operator's act, and without one the machine's state. */
  ghost predicate ShowsUnless(s: State, t: State, scope: Scope, demand: Option<Validation>, machine: Validation, operator: bool) {
    if demand.Some? then Shows(s, t, scope, demand.value, true) else Shows(s, t, scope, machine, operator)
  }

  ghost function ShownUnless(demand: Option<Validation>, machine: Validation): Validation {
    if demand.Some? then demand.value else machine
  }

  // ------------------------------------------------------------------ inference

  /** Two opposed assertions of the machine, a conflict between them and the run that found it, still at work. */
  function Raised(s: State, scope: Scope, snapshot: string): State {
    var n := |s.assertions|;
    s.(runs := s.runs + [Run(scope, snapshot, Running)],
       assertions := s.assertions + [Assertion(scope, Probable, Affirm, false), Assertion(scope, Rejected, Affirm, false)],
       conflicts := s.conflicts + [Conflict(scope, n, n + 1, Contested, None, |s.runs|)])
  }

  /** A finished run and its one assertion. */
  function Asserted(s: State, scope: Scope, snapshot: string, verdict: Validation): State {
    s.(runs := s.runs + [Run(scope, snapshot, Succeeded)], assertions := s.assertions + [Assertion(scope, verdict, Affirm, false)])
  }

  /**
   An inference replays a finished run on the same facts, names the conflict of one still at work, and otherwise
   detects: both strengths from 0.40 on raise a conflict and publish nothing; else the finished run asserts the verdict of
   the table, which is shown unless the operator demands something.
   */
  lemma InferExactly(s: State, scope: Scope, snapshot: string, support: real, contradiction: real,
                     prior: Option<nat>, conflict: Option<nat>, demand: Option<Validation>)
    requires Ledger(s) && 0.0 <= support <= 1.0 && 0.0 <= contradiction <= 1.0
    requires RunIs(s.runs, scope, snapshot, prior) && DemandIs(s, scope, demand)
    requires prior.Some? ==> FoundBy(s.conflicts, prior.value, conflict)
    ensures var (t, r) := Infer(s, scope, snapshot, support, contradiction);
      if !Known(s, scope) then (t, r) == (s, Failure(NotFound))
      else if prior.Some? && s.runs[prior.value].status != Running then (t, r) == (s, Success(Replayed(prior.value)))
      else if prior.Some? && conflict.Some? then (t, r) == (s, Success(InConflict(conflict.value)))
      else if support >= 0.40 && contradiction >= 0.40 then
        (t, r) == (Raised(s, scope, snapshot), Success(InConflict(|s.conflicts|)))
      else
        var verdict := Table(support, contradiction);
        && r == Success(Published(ShownUnless(demand, verdict)))
        && ShowsUnless(Asserted(s, scope, snapshot, verdict), t, scope, demand, verdict, false)
  {
    if Known(s, scope) {
      RunFound(s.runs, scope, snapshot);
      assert prior == PriorRun(s.runs, scope, snapshot, |s.runs|);
      if prior.Some? {
        ConflictOfRunIs(s.conflicts, prior.value, |s.conflicts|);
        assert s.conflicts[..|s.conflicts|] == s.conflicts;
        assert conflict == ConflictOfRun(s.conflicts, prior.value, |s.conflicts|);
      }
      DemandFound(s, scope, demand);
      VerdictTable(support, contradiction);
      var verdict := Table(support, contradiction);
      var asserted := Asserted(s, scope, snapshot, verdict);
      DemandedElsewhere(s, asserted, scope);
      PublishShows(asserted, scope, |s.assertions|, false);
    }
  }

  // ------------------------------------------------------------------ the end of a conflict

  /** The run that found the conflict ends with this status. */
  function Ended(s: State, c: nat, status: RunStatus): State
    requires c < |s.conflicts|
  {
    var run := s.conflicts[c].run;
    if run < |s.runs| then s.(runs := s.runs[run := Run(s.runs[run].scope, s.runs[run].snapshot, status)]) else s
  }

  /**
   A decision for an assertion ends the run as succeeded and leaves the conflict agreed on that assertion, whose state is
   shown unless the operator demands something. It is refused for an assertion that does not exist or is another
   scope's, and for an unknown scope.
   */
  lemma FinalizeResolvedExactly(s: State, c: nat, selected: nat, eligible: bool, demand: Option<Validation>)
    requires Ledger(s)
    requires c < |s.conflicts| ==> DemandIs(s, s.conflicts[c].scope, demand)
    ensures var (t, r) := Finalize(s, c, Some(selected), eligible);
      if c >= |s.conflicts| then (t, r) == (s, Failure(NotFound))
      else if selected >= |s.assertions| then (t, r) == (s, Failure(Invalid))
      else
        var scope := s.conflicts[c].scope;
        var a := s.assertions[selected];
        if a.scope != scope then (t, r) == (s, Failure(Aborted))
        else if !Known(s, scope) then (t, r) == (s, Failure(NotFound))
        else
          var ended := Ended(s, c, Succeeded);
          var ready := ended.(conflicts := s.conflicts[c := s.conflicts[c].(state := Agreed, selected := Some(selected))]);
          && r == Success(Published(ShownUnless(demand, a.validation)))
          && ShowsUnless(ready, t, scope, demand, a.validation, a.operator)
  {
    if c < |s.conflicts| && selected < |s.assertions| && s.assertions[selected].scope == s.conflicts[c].scope
       && Known(s, s.conflicts[c].scope) {
      var scope := s.conflicts[c].scope;
      var ready := Ended(s, c, Succeeded).(
        conflicts := s.conflicts[c := s.conflicts[c].(state := Agreed, selected := Some(selected))]);
      DemandFound(s, scope, demand);
      DemandedElsewhere(s, ready, scope);
      PublishShows(ready, scope, selected, false);
    }
  }

  /** The rows of a conflict nothing decided: a partial run, the machine's `disputed`, an unsettled conflict and an open exception. */
  function Undecided(s: State, c: nat): State
    requires c < |s.conflicts|
  {
    Ended(s, c, Partial).(
      assertions := s.assertions + [Assertion(s.conflicts[c].scope, Disputed, Affirm, false)],
      conflicts := s.conflicts[c := s.conflicts[c].(state := Unsettled, selected := None)],
      exceptions := s.exceptions + [Exception(c, Open)])
  }

  /** Exceptions written after the publication do not show. */
  lemma ExceptionsDoNotShow(s: State, t: State, scope: Scope, shown: Validation, operator: bool, rows: seq<Exception>)
    requires Shows(s, t, scope, shown, operator)
    ensures Shows(s.(exceptions := rows), t.(exceptions := rows), scope, shown, operator)
  {
    var before, after := s.(exceptions := rows), t.(exceptions := rows);
    forall other: Scope | other != scope && Known(before, other) ensures Own(after, other) == Own(before, other) {
      assert Known(s, other);
    }
  }

  lemma ExhaustingShows(s: State, c: nat, demand: Option<Validation>)
    requires Ledger(s) && c < |s.conflicts| && Known(s, s.conflicts[c].scope) && demand == Demanded(s, s.conflicts[c].scope)
    ensures ShowsUnless(Undecided(s, c), Exhausting(s, c), s.conflicts[c].scope, demand, Disputed, false)
  {
    var scope := s.conflicts[c].scope;
    var rows := s.exceptions + [Exception(c, Open)];
    var ready := Undecided(s, c).(exceptions := s.exceptions);
    DemandedElsewhere(s, ready, scope);
    PublishShows(ready, scope, |s.assertions|, false);
    var t := Publish(ready, scope, |s.assertions|, false);
    assert Exhausting(s, c) == t.(exceptions := rows) && Undecided(s, c) == ready.(exceptions := rows);
    if demand.Some? {
      ExceptionsDoNotShow(ready, t, scope, demand.value, true, rows);
    } else {
      ExceptionsDoNotShow(ready, t, scope, Disputed, false, rows);
    }
  }

  /**
   Without a decision `disputed` is shown unless the operator demands something, over the rows of an undecided conflict.
   The transaction aborts when an assertion is selected, an exception exists already or the route was not exhausted.
   */
  lemma FinalizeExhaustedExactly(s: State, c: nat, eligible: bool, demand: Option<Validation>)
    requires Ledger(s)
    requires c < |s.conflicts| ==> DemandIs(s, s.conflicts[c].scope, demand)
    ensures var (t, r) := Finalize(s, c, None, eligible);
      if c >= |s.conflicts| then (t, r) == (s, Failure(NotFound))
      else
        var scope := s.conflicts[c].scope;
        if s.conflicts[c].selected.Some? || !eligible || exists x | 0 <= x < |s.exceptions| :: s.exceptions[x].conflict == c then
          (t, r) == (s, Failure(Aborted))
        else if !Known(s, scope) then (t, r) == (s, Failure(NotFound))
        else r == Success(Published(ShownUnless(demand, Disputed)))
             && ShowsUnless(Undecided(s, c), t, scope, demand, Disputed, false)
  {
    if c < |s.conflicts| && s.conflicts[c].selected.None? && eligible && !Excepted(s.exceptions, c) && Known(s, s.conflicts[c].scope) {
      DemandFound(s, s.conflicts[c].scope, demand);
      ExhaustingShows(s, c, demand);
    }
  }

  /** A failure is recorded on the scope's newest run that is still at work, and on nothing else. */
  lemma FailExactly(s: State, scope: Scope, running: Option<nat>)
    requires AtWork(s.runs, scope, running)
    ensures FailRun(s, scope)
         == if running.None? then s else s.(runs := s.runs[running.value := s.runs[running.value].(status := Failed)])
  {
    RunningRunIs(s.runs, scope, |s.runs|);
    assert s.runs[..|s.runs|] == s.runs;
    assert running == RunningRun(s.runs, scope, |s.runs|);
  }
}
