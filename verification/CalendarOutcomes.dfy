/** What each calendar transaction publishes and which rows it leaves. */
module CalendarOutcomes {
  import opened Prelude
  import opened SupersessionChains
  import opened CalendarPath
  import opened CalendarVerdict
  import opened CalendarScope
  import opened CalendarRuns

  // ------------------------------------------------------------------ the rows a transaction looks up

  /** The newest override of the scope, if it has one. */
  ghost predicate NewestIs(rows: seq<Override>, scope: Scope, newest: Option<nat>) {
    && (newest.Some? ==> newest.value < |rows| && rows[newest.value].scope == scope)
    && (forall k | 0 <= k < |rows| && rows[k].scope == scope :: newest.Some? && k <= newest.value)
  }

  lemma NewestFound(rows: seq<Override>, scope: Scope)
    ensures NewestIs(rows, scope, NewestOverride(rows, scope, |rows|))
  {
    forall k | 0 <= k < |rows| && rows[k].scope == scope
      ensures NewestOverride(rows, scope, |rows|).Some? && k <= NewestOverride(rows, scope, |rows|).value
    {
      LastIsLast(rows, ScopeOf(), scope, |rows|, k);
    }
  }

  /** The machine's newest affirmation of the scope, if it has one. */
  ghost predicate MachineIs(rows: seq<Assertion>, scope: Scope, newest: Option<nat>) {
    && (newest.Some? ==>
          var m := newest.value;
          m < |rows| && rows[m].scope == scope && !rows[m].operator && rows[m].act == Affirm)
    && (forall k | 0 <= k < |rows| && rows[k].scope == scope && !rows[k].operator && rows[k].act == Affirm ::
          newest.Some? && k <= newest.value)
  }

  lemma {:induction false} LatestMachineCovers(rows: seq<Assertion>, scope: Scope, n: nat, k: nat)
    requires k < n <= |rows| && IsMachine(rows[k], scope)
    ensures LatestMachine(rows, scope, n).Some? && k <= LatestMachine(rows, scope, n).value
    decreases n
  {
    if k < n - 1 {
      LatestMachineCovers(rows, scope, n - 1, k);
    }
  }

  lemma MachineFound(rows: seq<Assertion>, scope: Scope)
    ensures MachineIs(rows, scope, LatestMachine(rows, scope, |rows|))
  {
    forall k | 0 <= k < |rows| && rows[k].scope == scope && !rows[k].operator && rows[k].act == Affirm
      ensures LatestMachine(rows, scope, |rows|).Some? && k <= LatestMachine(rows, scope, |rows|).value
    {
      LatestMachineCovers(rows, scope, |rows|, k);
    }
  }

  // ------------------------------------------------------------------ the legal steps

  /**
   A candidate rises to probable, verified and confirmed one step at a time. Anything else than a rejected event can be
   disputed, and a dispute ends in any other state. Only an undisputed event below confirmed is rejected, and a rejected
   one only becomes a candidate again.
   */
  lemma LegalSteps(a: Validation, b: Validation)
    ensures Follows(a, b) <==>
      || (a, b) == (Candidate, Probable) || (a, b) == (Probable, Verified) || (a, b) == (Verified, Confirmed)
      || (b == Disputed && a != Rejected && a != Disputed)
      || (a == Disputed && b != Disputed)
      || (b == Rejected && a != Confirmed && a != Rejected)
      || (a, b) == (Rejected, Candidate)
  {
    EdgesCoverStates(a);
  }

  // ------------------------------------------------------------------ publishing

  lemma {:induction false} LoggedStepIs(scope: Scope, from: Validation, path: seq<Validation>, operator: bool, k: nat)
    requires k < |path|
    ensures var rows := LoggedSteps(scope, from, path, operator);
      && |rows| == |path|
      && rows[k] == Transition(scope, if k == 0 then from else path[k - 1], path[k], operator)
    decreases |path|
  {
    var most := path[..|path| - 1];
    if k < |path| - 1 {
      LoggedStepIs(scope, from, most, operator, k);
      assert most[k] == path[k] && (k > 0 ==> most[k - 1] == path[k - 1]);
    } else if most != [] {
      LoggedStepIs(scope, from, most, operator, 0);
    }
  }

  /** The row is of this scope and actor, one legal step on from where the row before it ended. */
  ghost predicate LogsStep(rows: seq<Transition>, scope: Scope, from: Validation, operator: bool, k: nat) {
    && k < |rows|
    && rows[k].scope == scope && rows[k].operator == operator
    && rows[k].previous == (if k == 0 then from else rows[k - 1].next)
    && Follows(rows[k].previous, rows[k].next)
  }

  /** The rows logged on the way to a state: legal steps that start here and end there, none exactly if that is here. */
  ghost predicate LogsWay(rows: seq<Transition>, scope: Scope, from: Validation, to: Validation, operator: bool) {
    && (forall k: nat | k < |rows| :: LogsStep(rows, scope, from, operator, k))
    && to == (if rows == [] then from else rows[|rows| - 1].next)
    && (from == to <==> rows == [])
  }

  lemma {:induction false} WalkFollows(from: Validation, path: seq<Validation>, k: nat)
    requires Walk(EDGES, from, path) && k < |path|
    ensures Follows(if k == 0 then from else path[k - 1], path[k])
    decreases |path|
  {
    if k < |path| - 1 {
      WalkFollows(from, path[..|path| - 1], k);
    }
  }

  lemma LoggedStepsAreWay(scope: Scope, from: Validation, path: seq<Validation>, to: Validation, operator: bool)
    requires Walk(EDGES, from, path) && End(from, path) == to && (from == to <==> path == [])
    ensures LogsWay(LoggedSteps(scope, from, path, operator), scope, from, to, operator)
  {
    var rows := LoggedSteps(scope, from, path, operator);
    if path != [] {
      LoggedStepIs(scope, from, path, operator, |path| - 1);
    }
    forall k: nat | k < |rows| ensures LogsStep(rows, scope, from, operator, k) {
      LoggedStepIs(scope, from, path, operator, k);
      WalkFollows(from, path, k);
      if k > 0 {
        LoggedStepIs(scope, from, path, operator, k - 1);
      }
    }
  }

  /** The published state of the scope becomes `shown`, by logged legal steps of the actor; nothing else moves. */
  ghost predicate Shows(s: State, t: State, scope: Scope, shown: Validation, operator: bool) {
    && Known(s, scope) && Known(t, scope)
    && t == s.(event := t.event, occurrences := t.occurrences, log := t.log)
    && t.occurrences.Keys == s.occurrences.Keys
    && (forall other: Scope | other != scope && Known(s, other) :: Own(t, other) == Own(s, other))
    && Effective(t, scope) == shown
    && s.log <= t.log && LogsWay(t.log[|s.log|..], scope, Effective(s, scope), shown, operator)
  }

  lemma ProjectedShows(s: State, scope: Scope, target: Validation, operator: bool)
    requires Known(s, scope)
    ensures Shows(s, Projected(s, scope, target, operator), scope, target, operator)
  {
    var from := Effective(s, scope);
    var path := Route(from, target);
    var t := Projected(s, scope, target, operator);
    ProjectionMoves(s, scope, target, operator);
    assert from == target ==> ValidationPath(EDGES, target, target) == Some([]);
    LoggedStepsAreWay(scope, from, path, target, operator);
    assert t.log[|s.log|..] == LoggedSteps(scope, from, path, operator);
  }

  /** The operator's demand is published when there is one, by the operator, and the given machine assertion otherwise. */
  lemma PublishShows(s: State, scope: Scope, machine: nat, byOperator: bool)
    requires Known(s, scope) && machine < |s.assertions|
    ensures var t := Publish(s, scope, machine, byOperator);
      if Demanded(s, scope).Some? then Shows(s, t, scope, Demanded(s, scope).value, true)
      else Shows(s, t, scope, s.assertions[machine].validation, byOperator || s.assertions[machine].operator)
  {
    var demanded := Demanded(s, scope);
    if demanded.Some? {
      ProjectedShows(s, scope, demanded.value, true);
    } else {
      ProjectedShows(s, scope, s.assertions[machine].validation, byOperator || s.assertions[machine].operator);
    }
  }

  /** The rows of an operator's word: its assertion and the override that makes it count. */
  function Worded(s: State, a: Assertion, conflict: Option<nat>, kind: OverrideKind, prior: Option<nat>): State {
    s.(assertions := s.assertions + [a],
       overrides := s.overrides + [Override(a.scope, |s.assertions|, conflict, kind, prior)])
  }

  /** The demand of a new acting override is its own assertion. */
  lemma WordedDemands(s: State, a: Assertion, conflict: Option<nat>, kind: OverrideKind, prior: Option<nat>)
    requires kind == Asserts || kind == Selects
    ensures Demanded(Worded(s, a, conflict, kind, prior), a.scope) == Some(a.validation)
  {
  }

  /** A newest override that withdraws demands nothing. */
  lemma WordedWithdraws(s: State, a: Assertion, conflict: Option<nat>, prior: Option<nat>)
    ensures Demanded(Worded(s, a, conflict, Withdraws, prior), a.scope).None?
  {
  }

  // ------------------------------------------------------------------ an operator's override

  /** The looked-up override is the newest one and nothing supersedes it. */
  lemma NewestIsThere(s: State, scope: Scope, prior: Option<nat>)
    requires Ledger(s) && NewestIs(s.overrides, scope, prior)
    ensures prior == NewestOverride(s.overrides, scope, |s.overrides|)
    ensures prior.Some? ==> !Superseded(s.overrides, prior.value)
  {
    NewestFound(s.overrides, scope);
    if prior.Some? {
      OnlyNewestIsFree(s.overrides, prior.value);
    }
  }

  /**
   An override that is set is one new assertion of the operator's state and one new override of the asked kind,
   superseding the scope's newest one; the answer and the scope show that state. It is refused, without a change, for
   another kind, an unknown scope or an unknown conflict, and for nothing else.
   */
  lemma SetExactly(s: State, scope: Scope, validation: Validation, conflict: Option<nat>, kind: OverrideKind, prior: Option<nat>)
    requires Ledger(s) && NewestIs(s.overrides, scope, prior)
    ensures var (t, r) := SetOverride(s, scope, validation, conflict, kind);
      if kind != Asserts && kind != Selects then (t, r) == (s, Failure(Invalid))
      else if !Known(s, scope) then (t, r) == (s, Failure(NotFound))
      else if conflict.Some? && conflict.value >= |s.conflicts| then (t, r) == (s, Failure(Aborted))
      else
        && r == Success(Published(validation))
        && Shows(Worded(s, Assertion(scope, validation, Affirm, true), conflict, kind, prior), t, scope, validation, true)
  {
    NewestIsThere(s, scope, prior);
    if SettingRefused(s, scope, conflict, kind).None? {
      var worded := Worded(s, Assertion(scope, validation, Affirm, true), conflict, kind, prior);
      WordedDemands(s, Assertion(scope, validation, Affirm, true), conflict, kind, prior);
      PublishShows(worded, scope, |s.assertions|, false);
    }
  }

  /**
   A withdrawal undoes the scope's newest override, if that asserts or selects and there is a machine assertion to fall
   back on: it repeats the override's state as withdrawn and shows the machine's newest state, as the operator's act.
   */
  lemma WithdrawExactly(s: State, scope: Scope, prior: Option<nat>, machine: Option<nat>)
    requires Ledger(s) && NewestIs(s.overrides, scope, prior) && MachineIs(s.assertions, scope, machine)
    ensures var (t, r) := WithdrawOverride(s, scope);
      if prior.None? || (s.overrides[prior.value].kind != Asserts && s.overrides[prior.value].kind != Selects) || machine.None? then
        (t, r) == (s, Failure(Invalid))
      else if !Known(s, scope) then (t, r) == (s, Failure(NotFound))
      else
        var row, shown := s.overrides[prior.value], s.assertions[machine.value].validation;
        && r == Success(Published(shown))
        && Shows(Worded(s, Assertion(scope, s.assertions[row.assertion].validation, Withdraw, true), row.conflict, Withdraws, prior),
                 t, scope, shown, true)
  {
    NewestFound(s.overrides, scope);
    MachineFound(s.assertions, scope);
    assert prior == NewestOverride(s.overrides, scope, |s.overrides|) && machine == LatestMachine(s.assertions, scope, |s.assertions|);
    if prior.Some? {
      OnlyNewestIsFree(s.overrides, prior.value);
      if machine.Some? && Known(s, scope) {
        WithdrawnShows(s, scope, prior.value, machine.value);
      }
    }
  }

  lemma WithdrawnShows(s: State, scope: Scope, prior: nat, machine: nat)
    requires Known(s, scope) && prior < |s.overrides| && s.overrides[prior].assertion < |s.assertions| && machine < |s.assertions|
    ensures var row, shown := s.overrides[prior], s.assertions[machine].validation;
      Shows(Worded(s, Assertion(scope, s.assertions[row.assertion].validation, Withdraw, true), row.conflict, Withdraws, Some(prior)),
            Withdrawn(s, scope, prior, machine), scope, shown, true)
  {
    var row := s.overrides[prior];
    var a := Assertion(scope, s.assertions[row.assertion].validation, Withdraw, true);
    WordedWithdraws(s, a, row.conflict, Some(prior));
    PublishShows(Worded(s, a, row.conflict, Withdraws, Some(prior)), scope, machine, true);
  }

  // ------------------------------------------------------------------ an administrative exception

  /** The conflict and the exception of a ledger after an operator settled or reopened them. */
  function Decided(s: State, x: nat, conflict: ConflictState, selected: Option<nat>, exception: ExceptionState): State
    requires x < |s.exceptions| && s.exceptions[x].conflict < |s.conflicts|
  {
    var c := s.exceptions[x].conflict;
    s.(conflicts := s.conflicts[c := s.conflicts[c].(state := conflict, selected := selected)],
       exceptions := s.exceptions[x := Exception(c, exception)])
  }

  /** One of the conflict's two recorded assertions. */
  predicate Competes(s: State, c: nat, a: nat)
    requires c < |s.conflicts|
  {
    a < |s.assertions| && (a == s.conflicts[c].supporting || a == s.conflicts[c].rejecting)
  }

  function Chosen(s: State, choice: Choice): Validation
    requires choice.Member? ==> choice.assertion < |s.assertions|
  {
    match choice
    case Member(a) => s.assertions[a].validation
    case Explicit(validation) => validation
  }

  /**
   A resolution publishes the state of the member the operator selected, or the state the operator gave: as one new
   assertion and one new override on this conflict, which becomes agreed on that assertion while the exception is
   resolved. It is refused, without a change, for an exception that is not open, an agreed conflict, an assertion the
   conflict does not hold or an unknown scope, and for nothing else.
   */
  lemma ResolveExactly(s: State, x: nat, choice: Choice, prior: Option<nat>)
    requires Ledger(s)
    requires x < |s.exceptions| ==> NewestIs(s.overrides, s.conflicts[s.exceptions[x].conflict].scope, prior)
    ensures var (t, r) := ResolveException(s, x, choice);
      if x >= |s.exceptions| then (t, r) == (s, Failure(NotFound))
      else
        var c := s.exceptions[x].conflict;
        var scope := s.conflicts[c].scope;
        if s.exceptions[x].state != Open || s.conflicts[c].selected.Some? then (t, r) == (s, Failure(Invalid))
        else if choice.Member? && !Competes(s, c, choice.assertion) then (t, r) == (s, Failure(Invalid))
        else if !Known(s, scope) then (t, r) == (s, Failure(NotFound))
        else
          var a := Assertion(scope, Chosen(s, choice), Affirm, true);
          var worded := Worded(s, a, Some(c), if choice.Member? then Selects else Asserts, prior);
          && r == Success(Published(Chosen(s, choice)))
          && Shows(Decided(worded, x, Agreed, Some(|s.assertions|), Resolved), t, scope, Chosen(s, choice), true)
  {
    if x < |s.exceptions| {
      var c := s.exceptions[x].conflict;
      var scope := s.conflicts[c].scope;
      NewestIsThere(s, scope, prior);
      if s.exceptions[x].state == Open && s.conflicts[c].selected.None? && Known(s, scope)
         && (choice.Member? ==> Competes(s, c, choice.assertion)) {
        ResolvingShows(s, x, Chosen(s, choice), if choice.Member? then Selects else Asserts, prior);
      }
    }
  }

  lemma ResolvingShows(s: State, x: nat, chosen: Validation, kind: OverrideKind, prior: Option<nat>)
    requires Located(s, x) && Known(s, s.conflicts[s.exceptions[x].conflict].scope) && (kind == Asserts || kind == Selects)
    ensures var c := s.exceptions[x].conflict; var scope := s.conflicts[c].scope;
      var worded := Worded(s, Assertion(scope, chosen, Affirm, true), Some(c), kind, prior);
      Shows(Decided(worded, x, Agreed, Some(|s.assertions|), Resolved), Resolving(s, x, chosen, kind, prior), scope, chosen, true)
  {
    var c := s.exceptions[x].conflict;
    var a := Assertion(s.conflicts[c].scope, chosen, Affirm, true);
    var worded := Worded(s, a, Some(c), kind, prior);
    var ready := Decided(worded, x, Agreed, Some(|s.assertions|), Resolved);
    WordedDemands(s, a, Some(c), kind, prior);
    assert Demanded(ready, a.scope) == Demanded(worded, a.scope);
    PublishShows(ready, a.scope, |s.assertions|, false);
  }

  /**
   A denial records the denied member's state as denied, with an override that demands nothing, and publishes nothing;
   the exception and the conflict stay as they are. It is refused only for an exception that is not open and an
   assertion the conflict does not hold.
   */
  lemma DenyExactly(s: State, x: nat, a: nat, prior: Option<nat>)
    requires Ledger(s)
    requires x < |s.exceptions| ==> NewestIs(s.overrides, s.conflicts[s.exceptions[x].conflict].scope, prior)
    ensures var (t, r) := DenyProposal(s, x, a);
      if x >= |s.exceptions| then (t, r) == (s, Failure(NotFound))
      else
        var c := s.exceptions[x].conflict;
        var scope := s.conflicts[c].scope;
        if s.exceptions[x].state != Open || !Competes(s, c, a) then (t, r) == (s, Failure(Invalid))
        else
          && r == Success(Noted)
          && t == Worded(s, Assertion(scope, s.assertions[a].validation, Deny, true), Some(c), Denies, prior)
          && Demanded(t, scope).None?
  {
    if x < |s.exceptions| {
      NewestIsThere(s, s.conflicts[s.exceptions[x].conflict].scope, prior);
    }
  }

  /** Only an open exception is closed, only one that is not open is reopened, and a note changes nothing. */
  lemma ActionExactly(s: State, x: nat, act: AdminAct)
    requires Ledger(s)
    ensures var (t, r) := RecordAction(s, x, act);
      if x >= |s.exceptions| then (t, r) == (s, Failure(NotFound))
      else
        var c := s.exceptions[x].conflict;
        var now := if act == Close then Closed else if act == Reopen then Open else s.exceptions[x].state;
        if (act == Close && s.exceptions[x].state != Open) || (act == Reopen && s.exceptions[x].state == Open) then
          (t, r) == (s, Failure(Invalid))
        else (t, r) == (Decided(s, x, s.conflicts[c].state, s.conflicts[c].selected, now), Success(Noted))
  {
    if x < |s.exceptions| {
      var c := s.exceptions[x].conflict;
      assert s.conflicts == s.conflicts[c := s.conflicts[c]] && s.exceptions == s.exceptions[x := s.exceptions[x]];
    }
  }

  /** The newest override recorded on the conflict, if there is one. */
  ghost predicate NewestOn(rows: seq<Override>, c: nat, newest: Option<nat>) {
    && (newest.Some? ==> newest.value < |rows| && rows[newest.value].conflict == Some(c))
    && (forall k | 0 <= k < |rows| && rows[k].conflict == Some(c) :: newest.Some? && k <= newest.value)
  }

  lemma {:induction false} NewestOnConflictCovers(rows: seq<Override>, c: nat, n: nat, k: nat)
    requires k < n <= |rows| && rows[k].conflict == Some(c)
    ensures NewestOnConflict(rows, c, n).Some? && k <= NewestOnConflict(rows, c, n).value
    decreases n
  {
    if k < n - 1 {
      NewestOnConflictCovers(rows, c, n - 1, k);
    }
  }

  lemma NewestOnFound(rows: seq<Override>, c: nat)
    ensures NewestOn(rows, c, NewestOnConflict(rows, c, |rows|))
  {
    forall k | 0 <= k < |rows| && rows[k].conflict == Some(c)
      ensures NewestOnConflict(rows, c, |rows|).Some? && k <= NewestOnConflict(rows, c, |rows|).value
    {
      NewestOnConflictCovers(rows, c, |rows|, k);
    }
  }

  /**
   An administrative withdrawal undoes the newest override recorded on the exception's conflict. It goes through
   exactly when that asserts or selects, there is a machine assertion to fall back on and the override is also the
   scope's newest; then conflict and exception are open again and the scope shows the machine's newest state.
   */
  lemma WithdrawAdministrativeExactly(s: State, x: nat, prior: Option<nat>, machine: Option<nat>)
    requires Ledger(s)
    requires x < |s.exceptions| ==>
      && NewestOn(s.overrides, s.exceptions[x].conflict, prior)
      && MachineIs(s.assertions, s.conflicts[s.exceptions[x].conflict].scope, machine)
    ensures var (t, r) := WithdrawAdministrative(s, x);
      if x >= |s.exceptions| then (t, r) == (s, Failure(NotFound))
      else
        var scope := s.conflicts[s.exceptions[x].conflict].scope;
        if prior.None? || (s.overrides[prior.value].kind != Asserts && s.overrides[prior.value].kind != Selects) || machine.None? then
          (t, r) == (s, Failure(Invalid))
        else if !NewestIs(s.overrides, scope, prior) then (t, r) == (s, Failure(Aborted))
        else if !Known(s, scope) then (t, r) == (s, Failure(NotFound))
        else
          var row, shown := s.overrides[prior.value], s.assertions[machine.value].validation;
          var worded := Worded(s, Assertion(scope, s.assertions[row.assertion].validation, Withdraw, true), row.conflict, Withdraws, prior);
          && r == Success(Published(shown))
          && Shows(Decided(worded, x, Unsettled, None, Open), t, scope, shown, true)
  {
    if x < |s.exceptions| {
      var c := s.exceptions[x].conflict;
      var scope := s.conflicts[c].scope;
      NewestOnFound(s.overrides, c);
      MachineFound(s.assertions, scope);
      NewestFound(s.overrides, scope);
      assert prior == NewestOnConflict(s.overrides, c, |s.overrides|);
      assert machine == LatestMachine(s.assertions, scope, |s.assertions|);
      if prior.Some? {
        OnlyNewestIsFree(s.overrides, prior.value);
        if machine.Some? && Known(s, scope) && NewestIs(s.overrides, scope, prior) {
          ReopeningShows(s, x, prior.value, machine.value);
        }
      }
    }
  }

  lemma ReopeningShows(s: State, x: nat, prior: nat, machine: nat)
    requires Located(s, x) && Known(s, s.conflicts[s.exceptions[x].conflict].scope)
    requires prior < |s.overrides| && s.overrides[prior].assertion < |s.assertions| && machine < |s.assertions|
    ensures var c := s.exceptions[x].conflict; var scope := s.conflicts[c].scope;
      var row, shown := s.overrides[prior], s.assertions[machine].validation;
      var worded := Worded(s, Assertion(scope, s.assertions[row.assertion].validation, Withdraw, true), row.conflict, Withdraws, Some(prior));
      var reopened := Excused(Marked(s, c, Unsettled, None), x, Open);
      Shows(Decided(worded, x, Unsettled, None, Open), Withdrawn(reopened, scope, prior, machine), scope, shown, true)
  {
    var c := s.exceptions[x].conflict;
    WithdrawnShows(Excused(Marked(s, c, Unsettled, None), x, Open), s.conflicts[c].scope, prior, machine);
  }
}
