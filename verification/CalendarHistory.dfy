/** The transition log, the pinning of occurrences, the autonomous pipeline and what a withdrawal exposes. */
module CalendarHistory {
  import opened Prelude
  import opened CalendarPath
  import opened CalendarVerdict
  import opened CalendarScope
  import opened SupersessionChains
  import opened CalendarRuns

  // ------------------------------------------------------------------ every change is a logged projection

  /** The published states and their log. */
  ghost predicate SameView(s: State, t: State) {
    t.event == s.event && t.occurrences == s.occurrences && t.log == s.log
  }

  lemma PublishProjects(s: State, ready: State, scope: Scope, machine: nat, byOperator: bool) returns (target: Validation, operator: bool)
    requires SameView(s, ready) && Known(s, scope) && machine < |ready.assertions|
    ensures SameView(Projected(s, scope, target, operator), Publish(ready, scope, machine, byOperator))
  {
    var demanded := Demanded(ready, scope);
    target := if demanded.Some? then demanded.value else ready.assertions[machine].validation;
    operator := demanded.Some? || byOperator || ready.assertions[machine].operator;
  }

  lemma FinalizeProjects(s: State, c: nat, selected: Option<nat>, eligible: bool)
    returns (moved: bool, scope: Scope, target: Validation, operator: bool)
    ensures var t := Finalize(s, c, selected, eligible).0;
      if moved then Known(s, scope) && SameView(Projected(s, scope, target, operator), t) else SameView(s, t)
  {
    moved, scope, target, operator := false, None, Candidate, false;
    if c < |s.conflicts| && Finalize(s, c, selected, eligible).1.Success? {
      moved, scope := true, s.conflicts[c].scope;
      if selected.Some? {
        var ready := Marked(Finished(s, c, Succeeded), c, Agreed, selected);
        target, operator := PublishProjects(s, ready, scope, selected.value, false);
      } else {
        var ready := Marked(WithAssertion(Finished(s, c, Partial), Assertion(scope, Disputed, Affirm, false)), c, Unsettled, None);
        target, operator := PublishProjects(s, ready, scope, |s.assertions|, false);
      }
    }
  }

  lemma InferProjects(s: State, scope: Scope, snapshot: string, support: real, contradiction: real)
    returns (moved: bool, target: Validation, operator: bool)
    ensures var t := Infer(s, scope, snapshot, support, contradiction).0;
      if moved then Known(s, scope) && SameView(Projected(s, scope, target, operator), t) else SameView(s, t)
  {
    moved, target, operator := false, Candidate, false;
    var (t, r) := Infer(s, scope, snapshot, support, contradiction);
    if r.Success? && r.value.Published? {
      moved := true;
      var verdict := Detect(support, contradiction).state;
      var ready := WithAssertion(WithRun(s, Run(scope, snapshot, Succeeded)), Assertion(scope, verdict, Affirm, false));
      target, operator := PublishProjects(s, ready, scope, |s.assertions|, false);
    }
  }

  lemma SetProjects(s: State, scope: Scope, validation: Validation, conflict: Option<nat>, kind: OverrideKind)
    returns (moved: bool, target: Validation, operator: bool)
    ensures var t := SetOverride(s, scope, validation, conflict, kind).0;
      if moved then Known(s, scope) && SameView(Projected(s, scope, target, operator), t) else SameView(s, t)
  {
    moved, target, operator := false, Candidate, false;
    if SetOverride(s, scope, validation, conflict, kind).1.Success? {
      moved := true;
      var prior := NewestOverride(s.overrides, scope, |s.overrides|);
      target, operator := PublishProjects(s, WithOverride(s, Assertion(scope, validation, Affirm, true), conflict, kind, prior),
                                          scope, |s.assertions|, false);
    }
  }

  lemma WithdrawProjects(s: State, scope: Scope) returns (moved: bool, target: Validation, operator: bool)
    ensures var t := WithdrawOverride(s, scope).0;
      if moved then Known(s, scope) && SameView(Projected(s, scope, target, operator), t) else SameView(s, t)
  {
    moved, target, operator := false, Candidate, false;
    if WithdrawOverride(s, scope).1.Success? {
      moved := true;
      var prior := NewestOverride(s.overrides, scope, |s.overrides|).value;
      target, operator := WithdrawnProjects(s, s, scope, prior, LatestMachine(s.assertions, scope, |s.assertions|).value);
    }
  }

  lemma ResolveProjects(s: State, x: nat, choice: Choice) returns (moved: bool, scope: Scope, target: Validation, operator: bool)
    ensures var t := ResolveException(s, x, choice).0;
      if moved then Known(s, scope) && SameView(Projected(s, scope, target, operator), t) else SameView(s, t)
  {
    moved, scope, target, operator := false, None, Candidate, false;
    if ResolveException(s, x, choice).1.Success? {
      var c := s.exceptions[x].conflict;
      moved, scope := true, s.conflicts[c].scope;
      var prior := NewestOverride(s.overrides, scope, |s.overrides|);
      var chosen := if choice.Member? then s.assertions[choice.assertion].validation else choice.validation;
      var overridden := WithOverride(s, Assertion(scope, chosen, Affirm, true), Some(c),
                                     if choice.Member? then Selects else Asserts, prior);
      var ready := Excused(Marked(overridden, c, Agreed, Some(|s.assertions|)), x, Resolved);
      target, operator := PublishProjects(s, ready, scope, |s.assertions|, false);
    }
  }

  lemma WithdrawnProjects(s: State, reopened: State, scope: Scope, prior: nat, machine: nat) returns (target: Validation, operator: bool)
    requires SameView(s, reopened) && Known(s, scope) && prior < |reopened.overrides|
    requires reopened.overrides[prior].assertion < |reopened.assertions| && machine < |reopened.assertions|
    ensures SameView(Projected(s, scope, target, operator), Withdrawn(reopened, scope, prior, machine))
  {
    var row := reopened.overrides[prior];
    var a := Assertion(scope, reopened.assertions[row.assertion].validation, Withdraw, true);
    target, operator := PublishProjects(s, WithOverride(reopened, a, row.conflict, Withdraws, Some(prior)), scope, machine, true);
  }

  lemma AdministrativeProjects(s: State, x: nat) returns (moved: bool, scope: Scope, target: Validation, operator: bool)
    ensures var t := WithdrawAdministrative(s, x).0;
      if moved then Known(s, scope) && SameView(Projected(s, scope, target, operator), t) else SameView(s, t)
  {
    moved, scope, target, operator := false, None, Candidate, false;
    if WithdrawAdministrative(s, x).1.Success? {
      var c := s.exceptions[x].conflict;
      moved, scope := true, s.conflicts[c].scope;
      target, operator := WithdrawnProjects(s, Excused(Marked(s, c, Unsettled, None), x, Open), scope,
                                            NewestOnConflict(s.overrides, c, |s.overrides|).value,
                                            LatestMachine(s.assertions, scope, |s.assertions|).value);
    }
  }

  /** Every step either leaves the published states alone or is one projection of one scope. */
  lemma StepProjects(s: State, e: Event) returns (moved: bool, scope: Scope, target: Validation, operator: bool)
    ensures if moved then Known(s, scope) && SameView(Projected(s, scope, target, operator), Apply(s, e)) else SameView(s, Apply(s, e))
  {
    moved, scope, target, operator := false, None, Candidate, false;
    match e
    case InferEvent(place, snapshot, support, contradiction) =>
      scope := place;
      moved, target, operator := InferProjects(s, place, snapshot, support, contradiction);
    case FinalizeEvent(c, selected, eligible) => moved, scope, target, operator := FinalizeProjects(s, c, selected, eligible);
    case SetEvent(place, validation, conflict, kind) =>
      scope := place;
      moved, target, operator := SetProjects(s, place, validation, conflict, kind);
    case WithdrawEvent(place) =>
      scope := place;
      moved, target, operator := WithdrawProjects(s, place);
    case ResolveEvent(x, choice) => moved, scope, target, operator := ResolveProjects(s, x, choice);
    case WithdrawAdministrativeEvent(x) => moved, scope, target, operator := AdministrativeProjects(s, x);
    case _ =>
  }

  // ------------------------------------------------------------------ the log is a chain of legal steps

  function LastNext(log: seq<Transition>, scope: Scope, n: nat): Option<Validation>
    requires n <= |log|
  {
    if n == 0 then None
    else if log[n - 1].scope == scope then Some(log[n - 1].next)
    else LastNext(log, scope, n - 1)
  }

  /** The state of the scope after the first `n` rows, read off the log; before any row it is what it started with. */
  function Carried(log: seq<Transition>, scope: Scope, n: nat, initial: Option<Validation>): Option<Validation>
    requires n <= |log|
    ensures initial.Some? ==> Carried(log, scope, n, initial).Some?
  {
    if LastNext(log, scope, n).Some? then LastNext(log, scope, n) else initial
  }

  /** What the scope shows after the first `n` rows: its own state, or its event's while it has none. */
  function Shown(start: State, log: seq<Transition>, scope: Scope, n: nat): Validation
    requires n <= |log| && Known(start, scope)
  {
    var own := Carried(log, scope, n, Own(start, scope));
    if own.Some? then own.value else Carried(log, None, n, Some(start.event)).value
  }

  /** Row `k` follows an edge and starts from what its scope showed before it. */
  ghost predicate Legal(start: State, log: seq<Transition>, k: nat) {
    k < |log| && Known(start, log[k].scope) && Follows(log[k].previous, log[k].next)
    && log[k].previous == Shown(start, log, log[k].scope, k)
  }

  ghost predicate AllLegal(start: State, log: seq<Transition>) {
    forall k: nat | k < |log| :: Legal(start, log, k)
  }

  /** The log tells, for every scope, the state it is pinned to. */
  ghost predicate Told(start: State, s: State) {
    && s.occurrences.Keys == start.occurrences.Keys
    && AllLegal(start, s.log)
    && forall scope: Scope | Known(start, scope) ::
         Own(s, scope) == Carried(s.log, scope, |s.log|, Own(start, scope))
  }

  lemma {:induction false} LastNextAgrees(a: seq<Transition>, b: seq<Transition>, scope: Scope, n: nat)
    requires n <= |a| && n <= |b| && forall i | 0 <= i < n :: a[i] == b[i]
    ensures LastNext(a, scope, n) == LastNext(b, scope, n)
  {
    if n > 0 {
      LastNextAgrees(a, b, scope, n - 1);
    }
  }

  lemma {:induction false} OneMoreStep(start: State, log: seq<Transition>, row: Transition)
    requires AllLegal(start, log) && Known(start, row.scope) && Follows(row.previous, row.next)
    requires row.previous == Shown(start, log, row.scope, |log|)
    ensures AllLegal(start, log + [row])
    ensures forall scope: Scope :: LastNext(log + [row], scope, |log| + 1)
              == if scope == row.scope then Some(row.next) else LastNext(log, scope, |log|)
  {
    forall k: nat | k < |log| + 1 ensures Legal(start, log + [row], k) {
      LastNextAgrees(log, log + [row], (log + [row])[k].scope, k);
      LastNextAgrees(log, log + [row], None, k);
      assert k < |log| ==> Legal(start, log, k);
    }
    forall scope: Scope ensures LastNext(log + [row], scope, |log| + 1) == if scope == row.scope then Some(row.next) else LastNext(log, scope, |log|) {
      LastNextAgrees(log, log + [row], scope, |log|);
    }
  }

  lemma {:induction false} StepsStayLegal(start: State, log: seq<Transition>, scope: Scope, from: Validation, path: seq<Validation>, operator: bool)
    requires AllLegal(start, log) && Known(start, scope) && Walk(EDGES, from, path)
    requires from == Shown(start, log, scope, |log|)
    ensures var longer := log + LoggedSteps(scope, from, path, operator);
      && AllLegal(start, longer)
      && (forall other: Scope :: LastNext(longer, other, |longer|)
            == if other == scope && path != [] then Some(End(from, path)) else LastNext(log, other, |log|))
  {
    if path == [] {
      assert log + LoggedSteps(scope, from, path, operator) == log;
    } else {
      var most := path[..|path| - 1];
      StepsStayLegal(start, log, scope, from, most, operator);
      var row := Transition(scope, End(from, most), path[|path| - 1], operator);
      assert log + LoggedSteps(scope, from, path, operator) == (log + LoggedSteps(scope, from, most, operator)) + [row];
      OneMoreStep(start, log + LoggedSteps(scope, from, most, operator), row);
    }
  }

  lemma ProjectionStaysTold(start: State, s: State, scope: Scope, target: Validation, operator: bool)
    requires Told(start, s) && Known(s, scope)
    ensures Told(start, Projected(s, scope, target, operator))
  {
    var from := Effective(s, scope);
    var path := Route(from, target);
    assert Own(s, scope) == Carried(s.log, scope, |s.log|, Own(start, scope));
    assert Own(s, None) == Carried(s.log, None, |s.log|, Own(start, None));
    StepsStayLegal(start, s.log, scope, from, path, operator);
    ProjectionMoves(s, scope, target, operator);
    var t := Projected(s, scope, target, operator);
    forall other: Scope | Known(start, other) ensures Own(t, other) == Carried(t.log, other, |t.log|, Own(start, other)) {
      assert Own(s, other) == Carried(s.log, other, |s.log|, Own(start, other));
    }
  }

  /**
   Over any run every logged transition is legal and starts from what its scope showed at that moment, its event's state
   while it had none of its own, and the log ends at the state the scope is pinned to.
   */
  lemma {:induction false} RunsAreTold(event: Validation, occurrences: map<nat, Option<Validation>>, events: seq<Event>)
    ensures Told(Start(event, occurrences), RunEvents(Start(event, occurrences), events))
  {
    if events != [] {
      var start := Start(event, occurrences);
      var s := RunEvents(start, events[..|events| - 1]);
      RunsAreTold(event, occurrences, events[..|events| - 1]);
      var moved, scope, target, operator := StepProjects(s, events[|events| - 1]);
      if moved {
        ProjectionStaysTold(start, s, scope, target, operator);
      }
    }
  }

  // ------------------------------------------------------------------ occurrences without a state of their own

  /**
   For an occurrence the demand of its operator shows exactly while the occurrence is pinned or the event happens
   to be in the demanded state: publishing what is inherited already pins nothing.
   */
  lemma OccurrenceShowsDemandIff(s: State, o: nat)
    requires Ledger(s) && o in s.occurrences && Demanded(s, Some(o)).Some?
    ensures Effective(s, Some(o)) == Demanded(s, Some(o)).value
       <==> s.occurrences[o].Some? || s.event == Demanded(s, Some(o)).value
  {
    assert PrecedenceAt(s, Some(o));
  }

  /** A publication pins an occurrence exactly when it was pinned before or has to differ from its event. */
  lemma PublicationPinsIff(s: State, o: nat, machine: nat, byOperator: bool)
    requires o in s.occurrences && machine < |s.assertions|
    ensures var t := Publish(s, Some(o), machine, byOperator);
      && o in t.occurrences
      && (t.occurrences[o].Some? <==>
            s.occurrences[o].Some? || s.event != (if Demanded(s, Some(o)).Some? then Demanded(s, Some(o)).value else s.assertions[machine].validation))
  {
    var demanded := Demanded(s, Some(o));
    var target := if demanded.Some? then demanded.value else s.assertions[machine].validation;
    ProjectionMoves(s, Some(o), target, demanded.Some? || byOperator || s.assertions[machine].operator);
  }

  /** So an operator's word on an occurrence can be lost to a later change of the event. */
  lemma OccurrenceCanDrift()
    ensures var s := Start(Probable, map[0 := None]);
      var t := RunEvents(s, [SetEvent(Some(0), Probable, None, Asserts), SetEvent(None, Rejected, None, Asserts)]);
      && 0 in t.occurrences
      && Demanded(t, Some(0)) == Some(Probable) && Effective(t, Some(0)) == Rejected
  {
    var s := Start(Probable, map[0 := None]);
    var e0, e1 := SetEvent(Some(0), Probable, None, Asserts), SetEvent(None, Rejected, None, Asserts);
    RunsKeepLedger(Probable, map[0 := None], []);
    assert RunEvents(s, []) == s;
    assert [e0, e1][..1] == [e0] && [e0][..0] == [];
    var a := Apply(s, e0);
    assert RunEvents(s, [e0]) == a;
    DriftFirst(s, a);
    StepKeepsLedger(s, e0);
    DriftSecond(a, Apply(a, e1));
  }

  lemma DriftFirst(s: State, a: State)
    requires s == Start(Probable, map[0 := None]) && a == Apply(s, SetEvent(Some(0), Probable, None, Asserts))
    ensures a.occurrences == map[0 := None] && a.event == Probable && Demanded(a, Some(0)) == Some(Probable)
    ensures NewestOverride(a.overrides, None, |a.overrides|) == None
  {
    var row := Assertion(Some(0), Probable, Affirm, true);
    var overridden := WithOverride(s, row, None, Asserts, None);
    assert NewestOverride(overridden.overrides, None, 0) == None;
    assert Demanded(overridden, Some(0)) == Some(Probable);
    assert a == Publish(overridden, Some(0), 0, false);
    ProjectionMoves(overridden, Some(0), Probable, true);
  }

  lemma DriftSecond(a: State, t: State)
    requires a.occurrences == map[0 := None] && a.event == Probable && Demanded(a, Some(0)) == Some(Probable) && Ledger(a)
    requires NewestOverride(a.overrides, None, |a.overrides|) == None
    requires t == Apply(a, SetEvent(None, Rejected, None, Asserts))
    ensures 0 in t.occurrences && Demanded(t, Some(0)) == Some(Probable) && Effective(t, Some(0)) == Rejected
  {
    var row := Assertion(None, Rejected, Affirm, true);
    var overridden := WithOverride(a, row, None, Asserts, None);
    WithOverrideKeepsRows(a, row, None, Asserts, None);
    LastAgrees(a.overrides, overridden.overrides, ScopeOf(), Some(0), |a.overrides|);
    assert t == Publish(overridden, None, |a.assertions|, false);
    ProjectionMoves(overridden, None, Rejected, true);
  }
}
