/** What every run of inference, overrides and administration keeps, and where the published state comes from. */
module CalendarRuns {
  import opened Prelude
  import opened CalendarPath
  import opened CalendarVerdict
  import opened CalendarScope
  import opened SupersessionChains

  // ------------------------------------------------------------------ the override chain

  function PriorOverride(): Override -> Option<nat> {
    (o: Override) => o.supersedes
  }

  /** The overrides of each scope form one chain. */
  ghost predicate OverridesChained(rows: seq<Override>) {
    Chained(rows, ScopeOf(), PriorOverride())
  }

  /** In a linear chain exactly the newest override of a scope is not superseded. */
  lemma OnlyNewestIsFree(rows: seq<Override>, o: nat)
    requires OverridesChained(rows) && o < |rows|
    ensures !Superseded(rows, o) <==> NewestOverride(rows, rows[o].scope, |rows|) == Some(o)
  {
    OnlyLastIsFree(rows, ScopeOf(), PriorOverride(), o);
    assert forall k | 0 <= k < |rows| :: PriorOverride()(rows[k]) == rows[k].supersedes;
  }

  /** An override's assertion is the operator's own, of the same scope. */
  ghost predicate OverridesSound(s: State) {
    forall k | 0 <= k < |s.overrides| ::
      && s.overrides[k].assertion < |s.assertions|
      && s.assertions[s.overrides[k].assertion].scope == s.overrides[k].scope
      && s.assertions[s.overrides[k].assertion].operator
  }

  // ------------------------------------------------------------------ operator precedence

  /** While the newest override of a scope demands a state, whatever the scope is pinned to is that state. */
  ghost predicate PrecedenceAt(s: State, scope: Scope) {
    Known(s, scope) && Demanded(s, scope).Some? && Own(s, scope).Some? ==> Own(s, scope) == Demanded(s, scope)
  }

  ghost predicate Precedence(s: State) {
    forall scope: Scope :: PrecedenceAt(s, scope)
  }

  /** A projection moves one scope, to the target; without a step the scope keeps what it had. */
  lemma ProjectionMoves(s: State, scope: Scope, target: Validation, operator: bool)
    requires Known(s, scope)
    ensures var t := Projected(s, scope, target, operator);
      && t == s.(event := t.event, occurrences := t.occurrences, log := t.log)
      && t.occurrences.Keys == s.occurrences.Keys
      && (forall other: Scope | other != scope && Known(s, other) :: Own(t, other) == Own(s, other))
      && Effective(t, scope) == target
      && Own(t, scope) == if Own(s, scope).None? && target == s.event then None else Some(target)
  {
    var path := Route(Effective(s, scope), target);
    if Effective(s, scope) == target {
      assert ValidationPath(EDGES, target, target) == Some([]);
      assert path == [];
    }
  }

  lemma DemandedElsewhere(s: State, t: State, scope: Scope)
    requires t.overrides == s.overrides && s.assertions <= t.assertions && OverridesSound(s)
    ensures Demanded(t, scope) == Demanded(s, scope)
  {
  }

  /** After a publication the operator's demand rules the scope, provided it ruled everywhere else. */
  lemma PublishRestoresPrecedence(s: State, scope: Scope, machine: nat, byOperator: bool)
    requires Known(s, scope) && machine < |s.assertions|
    requires forall other: Scope | other != scope :: PrecedenceAt(s, other)
    ensures var t := Publish(s, scope, machine, byOperator);
      && Precedence(t)
      && t == s.(event := t.event, occurrences := t.occurrences, log := t.log)
      && t.occurrences.Keys == s.occurrences.Keys
      && (forall other: Scope | other != scope && Known(s, other) :: Own(t, other) == Own(s, other))
      && Effective(t, scope) == if Demanded(s, scope).Some? then Demanded(s, scope).value else s.assertions[machine].validation
  {
    var demanded := Demanded(s, scope);
    var target := if demanded.Some? then demanded.value else s.assertions[machine].validation;
    var operator := demanded.Some? || byOperator || s.assertions[machine].operator;
    ProjectionMoves(s, scope, target, operator);
    var t := Publish(s, scope, machine, byOperator);
    forall other: Scope ensures PrecedenceAt(t, other) {
      assert Demanded(t, other) == Demanded(s, other);
      if other != scope {
        assert PrecedenceAt(s, other);
      }
    }
  }

  // ------------------------------------------------------------------ conflicts and exceptions

  /** A conflict is agreed exactly when an assertion is selected for it. */
  ghost predicate ConflictsSound(s: State) {
    forall c | 0 <= c < |s.conflicts| :: s.conflicts[c].state == Agreed <==> s.conflicts[c].selected.Some?
  }

  /** At most one exception a conflict, and a resolved exception has an agreed conflict. */
  ghost predicate ExceptionsSound(s: State) {
    && (forall x | 0 <= x < |s.exceptions| ::
          && s.exceptions[x].conflict < |s.conflicts|
          && (s.exceptions[x].state == Resolved ==> s.conflicts[s.exceptions[x].conflict].state == Agreed))
    && (forall x, y | 0 <= x < y < |s.exceptions| :: s.exceptions[x].conflict != s.exceptions[y].conflict)
  }

  ghost predicate Rows(s: State) {
    OverridesChained(s.overrides) && OverridesSound(s) && ConflictsSound(s) && ExceptionsSound(s)
  }

  ghost predicate Ledger(s: State) {
    Rows(s) && Precedence(s)
  }

  /** The two states agree on what is demanded and on what is published. */
  ghost predicate SameDemands(s: State, t: State) {
    && t.overrides == s.overrides && s.assertions <= t.assertions && t.event == s.event && t.occurrences == s.occurrences
  }

  lemma SameDemandsKeepPrecedence(s: State, t: State)
    requires OverridesSound(s) && Precedence(s) && SameDemands(s, t)
    ensures OverridesSound(t) && Precedence(t)
  {
    forall scope: Scope ensures PrecedenceAt(t, scope) {
      DemandedElsewhere(s, t, scope);
      assert PrecedenceAt(s, scope);
    }
  }

  lemma PublishKeepsLedger(s: State, scope: Scope, machine: nat, byOperator: bool)
    requires Rows(s) && Known(s, scope) && machine < |s.assertions|
    requires forall other: Scope | other != scope :: PrecedenceAt(s, other)
    ensures Ledger(Publish(s, scope, machine, byOperator))
  {
    PublishRestoresPrecedence(s, scope, machine, byOperator);
  }

  // ------------------------------------------------------------------ machine steps

  lemma InferKeepsLedger(s: State, scope: Scope, snapshot: string, support: real, contradiction: real)
    requires Ledger(s)
    ensures Ledger(Infer(s, scope, snapshot, support, contradiction).0)
  {
    var t := Infer(s, scope, snapshot, support, contradiction).0;
    if t != s {
      match Detect(support, contradiction)
      case Conflicting =>
        assert t == OpenConflict(s, scope, snapshot);
        SameDemandsKeepPrecedence(s, t);
      case Settled(verdict, _) =>
        var asserted := WithAssertion(WithRun(s, Run(scope, snapshot, Succeeded)), Assertion(scope, verdict, Affirm, false));
        SameDemandsKeepPrecedence(s, asserted);
        PublishKeepsLedger(asserted, scope, |s.assertions|, false);
    }
  }

  lemma FinalizeResolvedKeepsLedger(s: State, c: nat, selected: nat)
    requires Ledger(s) && c < |s.conflicts|
    ensures Ledger(FinalizeResolved(s, c, selected).0)
  {
    if FinalizeResolved(s, c, selected).1.Success? {
      var ready := Marked(Finished(s, c, Succeeded), c, Agreed, Some(selected));
      SameDemandsKeepPrecedence(s, ready);
      PublishKeepsLedger(ready, s.conflicts[c].scope, selected, false);
    }
  }

  lemma FinalizeExhaustedKeepsLedger(s: State, c: nat, eligible: bool)
    requires Ledger(s) && c < |s.conflicts|
    ensures Ledger(FinalizeExhausted(s, c, eligible).0)
  {
    if FinalizeExhausted(s, c, eligible).1.Success? {
      var scope := s.conflicts[c].scope;
      var ready := Marked(WithAssertion(Finished(s, c, Partial), Assertion(scope, Disputed, Affirm, false)), c, Unsettled, None);
      SameDemandsKeepPrecedence(s, ready);
      assert ExceptionsSound(ready);
      PublishKeepsLedger(ready, scope, |s.assertions|, false);
      PublishRestoresPrecedence(ready, scope, |s.assertions|, false);
      var t := Publish(ready, scope, |s.assertions|, false);
      SameDemandsKeepPrecedence(t, t.(exceptions := t.exceptions + [Exception(c, Open)]));
    }
  }

  // ------------------------------------------------------------------ operator steps

  lemma WithOverrideKeepsRows(s: State, a: Assertion, conflict: Option<nat>, kind: OverrideKind, supersedes: Option<nat>)
    requires Ledger(s) && a.operator && supersedes == NewestOverride(s.overrides, a.scope, |s.overrides|)
    ensures var t := WithOverride(s, a, conflict, kind, supersedes);
      && Rows(t)
      && NewestOverride(t.overrides, a.scope, |t.overrides|) == Some(|s.overrides|)
      && Demanded(t, a.scope) == (if Acting(kind) then Some(a.validation) else None)
      && (forall other: Scope | other != a.scope :: PrecedenceAt(t, other))
  {
    var t := WithOverride(s, a, conflict, kind, supersedes);
    AppendKeepsChain(s.overrides, ScopeOf(), PriorOverride(), t.overrides[|s.overrides|]);
    forall other: Scope | other != a.scope ensures PrecedenceAt(t, other) {
      LastAgrees(s.overrides, t.overrides, ScopeOf(), other, |s.overrides|);
      assert PrecedenceAt(s, other);
    }
  }

  lemma SetOverrideKeepsLedger(s: State, scope: Scope, validation: Validation, conflict: Option<nat>, kind: OverrideKind)
    requires Ledger(s)
    ensures Ledger(SetOverride(s, scope, validation, conflict, kind).0)
  {
    if SetOverride(s, scope, validation, conflict, kind).1.Success? {
      var prior := NewestOverride(s.overrides, scope, |s.overrides|);
      var a := Assertion(scope, validation, Affirm, true);
      WithOverrideKeepsRows(s, a, conflict, kind, prior);
      PublishKeepsLedger(WithOverride(s, a, conflict, kind, prior), scope, |s.assertions|, false);
    }
  }

  lemma WithdrawnKeepsLedger(s: State, scope: Scope, prior: nat, machine: nat)
    requires Ledger(s) && Known(s, scope) && prior < |s.overrides| && s.overrides[prior].assertion < |s.assertions|
    requires machine < |s.assertions| && NewestOverride(s.overrides, scope, |s.overrides|) == Some(prior)
    ensures Ledger(Withdrawn(s, scope, prior, machine))
    ensures Effective(Withdrawn(s, scope, prior, machine), scope) == s.assertions[machine].validation
  {
    var a := Assertion(scope, s.assertions[s.overrides[prior].assertion].validation, Withdraw, true);
    WithOverrideKeepsRows(s, a, s.overrides[prior].conflict, Withdraws, Some(prior));
    var t := WithOverride(s, a, s.overrides[prior].conflict, Withdraws, Some(prior));
    PublishKeepsLedger(t, scope, machine, true);
    PublishRestoresPrecedence(t, scope, machine, true);
  }

  lemma WithdrawOverrideKeepsLedger(s: State, scope: Scope)
    requires Ledger(s)
    ensures Ledger(WithdrawOverride(s, scope).0)
  {
    if WithdrawOverride(s, scope).1.Success? {
      WithdrawnKeepsLedger(s, scope, NewestOverride(s.overrides, scope, |s.overrides|).value,
                           LatestMachine(s.assertions, scope, |s.assertions|).value);
    }
  }

  lemma ResolveKeepsLedger(s: State, x: nat, choice: Choice)
    requires Ledger(s)
    ensures Ledger(ResolveException(s, x, choice).0)
  {
    if ResolveException(s, x, choice).1.Success? {
      var scope := s.conflicts[s.exceptions[x].conflict].scope;
      var chosen := if choice.Member? then s.assertions[choice.assertion].validation else choice.validation;
      ResolvingKeepsLedger(s, x, chosen, if choice.Member? then Selects else Asserts, NewestOverride(s.overrides, scope, |s.overrides|));
    }
  }

  lemma ResolvingKeepsLedger(s: State, x: nat, chosen: Validation, kind: OverrideKind, prior: Option<nat>)
    requires Ledger(s) && Located(s, x) && Known(s, s.conflicts[s.exceptions[x].conflict].scope)
    requires prior == NewestOverride(s.overrides, s.conflicts[s.exceptions[x].conflict].scope, |s.overrides|)
    ensures Ledger(Resolving(s, x, chosen, kind, prior))
  {
    var c := s.exceptions[x].conflict;
    var scope := s.conflicts[c].scope;
    var n := |s.assertions|;
    var a := Assertion(scope, chosen, Affirm, true);
    WithOverrideKeepsRows(s, a, Some(c), kind, prior);
    var overridden := WithOverride(s, a, Some(c), kind, prior);
    var ready := Excused(Marked(overridden, c, Agreed, Some(n)), x, Resolved);
    forall other: Scope | other != scope ensures PrecedenceAt(ready, other) {
      assert PrecedenceAt(overridden, other);
      assert Demanded(ready, other) == Demanded(overridden, other);
    }
    PublishKeepsLedger(ready, scope, n, false);
  }

  lemma DenyKeepsLedger(s: State, x: nat, a: nat)
    requires Ledger(s)
    ensures Ledger(DenyProposal(s, x, a).0)
  {
    if DenyProposal(s, x, a).1.Success? {
      var scope := s.conflicts[s.exceptions[x].conflict].scope;
      var t := DenyProposal(s, x, a).0;
      WithOverrideKeepsRows(s, Assertion(scope, s.assertions[a].validation, Deny, true), Some(s.exceptions[x].conflict), Denies,
                            NewestOverride(s.overrides, scope, |s.overrides|));
      forall other: Scope ensures PrecedenceAt(t, other) {
        assert other != scope ==> PrecedenceAt(t, other);
      }
    }
  }

  lemma RecordActionKeepsLedger(s: State, x: nat, act: AdminAct)
    requires Ledger(s)
    ensures Ledger(RecordAction(s, x, act).0)
  {
    SameDemandsKeepPrecedence(s, RecordAction(s, x, act).0);
  }

  /** Although it looks the override up by conflict, a withdrawal only gets through when that is the newest of the scope. */
  lemma AdministrativePriorIsNewest(s: State, x: nat)
    requires Ledger(s) && WithdrawAdministrative(s, x).1.Success?
    ensures var c := s.exceptions[x].conflict;
      NewestOverride(s.overrides, s.conflicts[c].scope, |s.overrides|) == NewestOnConflict(s.overrides, c, |s.overrides|)
  {
    OnlyNewestIsFree(s.overrides, NewestOnConflict(s.overrides, s.exceptions[x].conflict, |s.overrides|).value);
  }

  lemma WithdrawAdministrativeKeepsLedger(s: State, x: nat)
    requires Ledger(s)
    ensures Ledger(WithdrawAdministrative(s, x).0)
  {
    if WithdrawAdministrative(s, x).1.Success? {
      AdministrativePriorIsNewest(s, x);
      var c := s.exceptions[x].conflict;
      var scope := s.conflicts[c].scope;
      var reopened := Excused(Marked(s, c, Unsettled, None), x, Open);
      SameDemandsKeepPrecedence(s, reopened);
      assert ExceptionsSound(reopened);
      WithdrawnKeepsLedger(reopened, scope, NewestOnConflict(s.overrides, c, |s.overrides|).value,
                           LatestMachine(s.assertions, scope, |s.assertions|).value);
    }
  }

  // ------------------------------------------------------------------ runs

  lemma StepKeepsLedger(s: State, e: Event)
    requires Ledger(s)
    ensures Ledger(Apply(s, e))
  {
    match e
    case InferEvent(scope, snapshot, support, contradiction) => InferKeepsLedger(s, scope, snapshot, support, contradiction);
    case FinalizeEvent(c, selected, eligible) =>
      if c < |s.conflicts| {
        if selected.Some? {
          FinalizeResolvedKeepsLedger(s, c, selected.value);
        } else {
          FinalizeExhaustedKeepsLedger(s, c, eligible);
        }
      }
    case FailEvent(scope) => SameDemandsKeepPrecedence(s, FailRun(s, scope));
    case SetEvent(scope, validation, conflict, kind) => SetOverrideKeepsLedger(s, scope, validation, conflict, kind);
    case WithdrawEvent(scope) => WithdrawOverrideKeepsLedger(s, scope);
    case ResolveEvent(x, choice) => ResolveKeepsLedger(s, x, choice);
    case DenyEvent(x, a) => DenyKeepsLedger(s, x, a);
    case ActionEvent(x, act) => RecordActionKeepsLedger(s, x, act);
    case WithdrawAdministrativeEvent(x) => WithdrawAdministrativeKeepsLedger(s, x);
  }

  /** A run takes its steps one after the other, each the transaction it names. */
  lemma {:induction false} RunsCompose(s: State, a: seq<Event>, b: seq<Event>, e: Event)
    ensures RunEvents(s, a + b) == RunEvents(RunEvents(s, a), b) && RunEvents(s, []) == s
    ensures RunEvents(s, [e])
         == match e
            case InferEvent(scope, snapshot, support, contradiction) => Infer(s, scope, snapshot, support, contradiction).0
            case FinalizeEvent(c, selected, eligible) => Finalize(s, c, selected, eligible).0
            case FailEvent(scope) => FailRun(s, scope)
            case SetEvent(scope, validation, conflict, kind) => SetOverride(s, scope, validation, conflict, kind).0
            case WithdrawEvent(scope) => WithdrawOverride(s, scope).0
            case ResolveEvent(x, choice) => ResolveException(s, x, choice).0
            case DenyEvent(x, denied) => DenyProposal(s, x, denied).0
            case ActionEvent(x, act) => RecordAction(s, x, act).0
            case WithdrawAdministrativeEvent(x) => WithdrawAdministrative(s, x).0
    decreases |b|
  {
    assert [e][..0] == [];
    if b == [] {
      assert a + b == a;
    } else {
      assert (a + b)[..|a + b| - 1] == a + b[..|b| - 1];
      RunsCompose(s, a, b[..|b| - 1], e);
    }
  }

  lemma {:induction false} RunsKeepLedger(event: Validation, occurrences: map<nat, Option<Validation>>, events: seq<Event>)
    ensures Ledger(RunEvents(Start(event, occurrences), events))
  {
    if events != [] {
      RunsKeepLedger(event, occurrences, events[..|events| - 1]);
      StepKeepsLedger(RunEvents(Start(event, occurrences), events[..|events| - 1]), events[|events| - 1]);
    }
  }

  /** Whatever inference, override and administration steps a run takes, an event whose newest override asserts or selects shows it. */
  lemma {:induction false} OperatorPrecedence(event: Validation, occurrences: map<nat, Option<Validation>>, events: seq<Event>, o: nat)
    requires var s := RunEvents(Start(event, occurrences), events);
      NewestOverride(s.overrides, None, |s.overrides|) == Some(o) && Acting(s.overrides[o].kind)
    ensures var s := RunEvents(Start(event, occurrences), events);
      && s.overrides[o].assertion < |s.assertions|
      && s.event == s.assertions[s.overrides[o].assertion].validation
      && s.assertions[s.overrides[o].assertion].operator
  {
    RunsKeepLedger(event, occurrences, events);
    var s := RunEvents(Start(event, occurrences), events);
    assert PrecedenceAt(s, None);
  }

  /** The overrides of a scope form one linear chain: each supersedes the one before it, only the newest is free. */
  lemma {:induction false} OverridesAreLinear(event: Validation, occurrences: map<nat, Option<Validation>>, events: seq<Event>, o: nat)
    requires o < |RunEvents(Start(event, occurrences), events).overrides|
    ensures var rows := RunEvents(Start(event, occurrences), events).overrides;
      && rows[o].supersedes == NewestOverride(rows, rows[o].scope, o)
      && (!Superseded(rows, o) <==> NewestOverride(rows, rows[o].scope, |rows|) == Some(o))
  {
    RunsKeepLedger(event, occurrences, events);
    var rows := RunEvents(Start(event, occurrences), events).overrides;
    assert Links(rows, ScopeOf(), PriorOverride(), o);
    OnlyNewestIsFree(rows, o);
  }

  lemma {:induction false} ResolvedMeansAgreed(event: Validation, occurrences: map<nat, Option<Validation>>, events: seq<Event>, x: nat)
    requires x < |RunEvents(Start(event, occurrences), events).exceptions|
    requires RunEvents(Start(event, occurrences), events).exceptions[x].state == Resolved
    ensures var s := RunEvents(Start(event, occurrences), events); var c := s.exceptions[x].conflict;
      c < |s.conflicts| && s.conflicts[c].state == Agreed && s.conflicts[c].selected.Some?
  {
    RunsKeepLedger(event, occurrences, events);
  }
}
