/** The autonomous pipeline with the deterministic adapter and no external route, and what a withdrawal exposes after it. */
module CalendarPipeline {
  import opened Prelude
  import opened CalendarPath
  import opened CalendarVerdict
  import opened CalendarScope
  import opened CalendarRuns

  /** The assertion of the conflict that the decision picks, if it picks one. */
  function Picked(s: State, c: nat, decision: Decision): Option<nat>
    requires c < |s.conflicts|
  {
    match decision
    case Unresolved(_) => None
    case ForState(state, _) => Some(if state == Probable then s.conflicts[c].supporting else s.conflicts[c].rejecting)
  }

  /** Detection, adjudication and finalization for evidence of these strengths. */
  ghost function Judged(s: State, scope: Scope, snapshot: string, support: real, contradiction: real): State {
    var (t, r) := Infer(s, scope, snapshot, support, contradiction);
    if r.Success? && r.value.InConflict? && r.value.conflict < |t.conflicts| then
      Finalize(t, r.value.conflict, Picked(t, r.value.conflict, Adjudicate(support, contradiction)), true).0
    else t
  }

  predicate Contested(support: real, contradiction: real) {
    support >= 0.40 && contradiction >= 0.40
  }

  /** The scope was not yet examined with this evidence. */
  predicate FirstSight(s: State, scope: Scope, snapshot: string) {
    Known(s, scope) && PriorRun(s.runs, scope, snapshot, |s.runs|).None?
  }

  lemma SettledPublishes(s: State, scope: Scope, snapshot: string, support: real, contradiction: real)
    requires Ledger(s) && FirstSight(s, scope, snapshot) && !Contested(support, contradiction)
    ensures var t := Judged(s, scope, snapshot, support, contradiction);
      && Known(t, scope)
      && Effective(t, scope) == (if Demanded(s, scope).Some? then Demanded(s, scope).value else MachineVerdict(support, contradiction))
      && t.assertions == s.assertions + [Assertion(scope, MachineVerdict(support, contradiction), Affirm, false)]
      && t.exceptions == s.exceptions
  {
    var verdict := MachineVerdict(support, contradiction);
    var asserted := WithAssertion(WithRun(s, Run(scope, snapshot, Succeeded)), Assertion(scope, verdict, Affirm, false));
    SameDemandsKeepPrecedence(s, asserted);
    DemandedElsewhere(s, asserted, scope);
    PublishRestoresPrecedence(asserted, scope, |s.assertions|, false);
  }

  /** Conflict `c` awaits its decision: nothing is selected, nobody was asked, and its assertions are the machine's two. */
  predicate Pending(s: State, c: nat) {
    c < |s.conflicts| &&
    var row := s.conflicts[c];
    && Known(s, row.scope) && row.state == ConflictState.Contested && row.selected.None? && !Excepted(s.exceptions, c)
    && row.supporting < |s.assertions| && s.assertions[row.supporting] == Assertion(row.scope, Probable, Affirm, false)
    && row.rejecting < |s.assertions| && s.assertions[row.rejecting] == Assertion(row.scope, Rejected, Affirm, false)
  }

  lemma OpenIsPending(s: State, scope: Scope, snapshot: string)
    requires Ledger(s) && Known(s, scope)
    ensures var t := OpenConflict(s, scope, snapshot);
      Ledger(t) && Pending(t, |s.conflicts|) && t.conflicts[|s.conflicts|].scope == scope && Demanded(t, scope) == Demanded(s, scope)
  {
    var t := OpenConflict(s, scope, snapshot);
    SameDemandsKeepPrecedence(s, t);
    DemandedElsewhere(s, t, scope);
  }

  /** A conflict decided for one of its assertions. */
  lemma SelectionPublishes(s: State, c: nat, selected: nat)
    requires Ledger(s) && Pending(s, c) && IsMember(s.conflicts[c], selected)
    ensures var scope := s.conflicts[c].scope; var (t, r) := FinalizeResolved(s, c, selected);
      && Known(t, scope) && t.assertions == s.assertions && t.exceptions == s.exceptions
      && Effective(t, scope) == (if Demanded(s, scope).Some? then Demanded(s, scope).value else s.assertions[selected].validation)
  {
    var ready := Marked(Finished(s, c, Succeeded), c, Agreed, Some(selected));
    SameDemandsKeepPrecedence(s, ready);
    DemandedElsewhere(s, ready, s.conflicts[c].scope);
    PublishRestoresPrecedence(ready, s.conflicts[c].scope, selected, false);
  }

  /** A conflict left open: disputed, with one open exception. */
  lemma ExhaustionPublishes(s: State, c: nat)
    requires Ledger(s) && Pending(s, c)
    ensures var scope := s.conflicts[c].scope; var (t, r) := FinalizeExhausted(s, c, true);
      && Known(t, scope) && t.exceptions == s.exceptions + [Exception(c, Open)]
      && t.assertions == s.assertions + [Assertion(scope, Disputed, Affirm, false)]
      && Effective(t, scope) == (if Demanded(s, scope).Some? then Demanded(s, scope).value else Disputed)
  {
    var scope := s.conflicts[c].scope;
    var ready := Marked(WithAssertion(Finished(s, c, Partial), Assertion(scope, Disputed, Affirm, false)), c, Unsettled, None);
    SameDemandsKeepPrecedence(s, ready);
    DemandedElsewhere(s, ready, scope);
    PublishRestoresPrecedence(ready, scope, |s.assertions|, false);
  }

  /** A pending conflict ends with the verdict on its evidence, or with whatever the operator demands by then. */
  lemma PendingPublishes(s: State, c: nat, support: real, contradiction: real)
    requires Ledger(s) && Pending(s, c) && Contested(support, contradiction) && support <= 1.0 && contradiction <= 1.0
    ensures var t := Finalize(s, c, Picked(s, c, Adjudicate(support, contradiction)), true).0;
      var scope, verdict := s.conflicts[c].scope, MachineVerdict(support, contradiction);
      && Known(t, scope)
      && Effective(t, scope) == (if Demanded(s, scope).Some? then Demanded(s, scope).value else verdict)
      && t.exceptions == s.exceptions + (if verdict == Disputed then [Exception(c, Open)] else [])
      && t.assertions == s.assertions + (if verdict == Disputed then [Assertion(scope, Disputed, Affirm, false)] else [])
  {
    var picked := Picked(s, c, Adjudicate(support, contradiction));
    if picked.Some? {
      SelectionPublishes(s, c, picked.value);
    } else {
      ExhaustionPublishes(s, c);
    }
  }

  /**
   On evidence seen for the first time the machine publishes its verdict, or whatever the operator demands
   instead; exactly a disputed verdict opens an exception, and only one.
   */
  lemma JudgedPublishesVerdict(s: State, scope: Scope, snapshot: string, support: real, contradiction: real)
    requires Ledger(s) && FirstSight(s, scope, snapshot) && 0.0 <= support <= 1.0 && 0.0 <= contradiction <= 1.0
    ensures var t := Judged(s, scope, snapshot, support, contradiction); var verdict := MachineVerdict(support, contradiction);
      && Known(t, scope)
      && Effective(t, scope) == (if Demanded(s, scope).Some? then Demanded(s, scope).value else verdict)
      && t.exceptions == s.exceptions + (if verdict == Disputed then [Exception(|s.conflicts|, Open)] else [])
  {
    VerdictTable(support, contradiction);
    if Contested(support, contradiction) {
      OpenIsPending(s, scope, snapshot);
      PendingPublishes(OpenConflict(s, scope, snapshot), |s.conflicts|, support, contradiction);
    } else {
      SettledPublishes(s, scope, snapshot, support, contradiction);
    }
  }

  // ------------------------------------------------------------------ what a withdrawal exposes

  /** Steps of operators and administrators; none of them adds a machine assertion. */
  predicate Administers(e: Event) {
    !e.InferEvent? && !e.FinalizeEvent?
  }

  lemma {:induction false} LatestMachineAgrees(a: seq<Assertion>, b: seq<Assertion>, scope: Scope, n: nat)
    requires n <= |a| && n <= |b| && forall i | 0 <= i < n :: a[i] == b[i]
    ensures LatestMachine(a, scope, n) == LatestMachine(b, scope, n)
  {
    if n > 0 {
      LatestMachineAgrees(a, b, scope, n - 1);
    }
  }

  /** At most one assertion, an operator's, is appended. */
  ghost predicate OperatorAppends(s: State, t: State) {
    t.assertions == s.assertions
    || (|t.assertions| == |s.assertions| + 1 && s.assertions <= t.assertions && t.assertions[|s.assertions|].operator)
  }

  lemma AdministrationAppends(s: State, e: Event)
    requires Administers(e)
    ensures OperatorAppends(s, Apply(s, e))
  {
    match e
    case SetEvent(scope, validation, conflict, kind) => SettingAppends(s, scope, validation, conflict, kind);
    case WithdrawEvent(scope) => WithdrawalAppends(s, scope);
    case ResolveEvent(x, choice) => ResolutionAppends(s, x, choice);
    case WithdrawAdministrativeEvent(x) => AdministrativeWithdrawalAppends(s, x);
    case FailEvent(_) =>
    case DenyEvent(_, _) =>
    case ActionEvent(_, _) =>
  }

  lemma SettingAppends(s: State, scope: Scope, validation: Validation, conflict: Option<nat>, kind: OverrideKind)
    ensures OperatorAppends(s, SetOverride(s, scope, validation, conflict, kind).0)
  {
  }

  lemma WithdrawalAppends(s: State, scope: Scope)
    ensures OperatorAppends(s, WithdrawOverride(s, scope).0)
  {
  }

  lemma ResolutionAppends(s: State, x: nat, choice: Choice)
    ensures OperatorAppends(s, ResolveException(s, x, choice).0)
  {
  }

  lemma AdministrativeWithdrawalAppends(s: State, x: nat)
    ensures OperatorAppends(s, WithdrawAdministrative(s, x).0)
  {
  }

  lemma AppendKeepsLatest(s: State, t: State, scope: Scope)
    requires OperatorAppends(s, t)
    ensures LatestMachine(t.assertions, scope, |t.assertions|) == LatestMachine(s.assertions, scope, |s.assertions|)
    ensures s.assertions <= t.assertions
  {
    LatestMachineAgrees(s.assertions, t.assertions, scope, |s.assertions|);
  }

  lemma {:induction false} AdministrationKeepsLatest(s: State, events: seq<Event>, scope: Scope)
    requires forall k | 0 <= k < |events| :: Administers(events[k])
    ensures var t := RunEvents(s, events);
      && s.assertions <= t.assertions
      && LatestMachine(t.assertions, scope, |t.assertions|) == LatestMachine(s.assertions, scope, |s.assertions|)
  {
    if events != [] {
      var most := events[..|events| - 1];
      AdministrationKeepsLatest(s, most, scope);
      AdministrationAppends(RunEvents(s, most), events[|events| - 1]);
      AppendKeepsLatest(RunEvents(s, most), RunEvents(s, events), scope);
    }
  }

  lemma {:induction false} EventsKeepLedger(s: State, events: seq<Event>)
    requires Ledger(s)
    ensures Ledger(RunEvents(s, events))
  {
    if events != [] {
      EventsKeepLedger(s, events[..|events| - 1]);
      StepKeepsLedger(RunEvents(s, events[..|events| - 1]), events[|events| - 1]);
    }
  }

  /** The event withdraws the scope's override: by the operator, or by an administrator through an exception. */
  ghost predicate WithdrawsOn(s: State, e: Event, scope: Scope) {
    match e
    case WithdrawEvent(place) => place == scope && WithdrawOverride(s, place).1.Success?
    case WithdrawAdministrativeEvent(x) =>
      Located(s, x) && s.conflicts[s.exceptions[x].conflict].scope == scope && WithdrawAdministrative(s, x).1.Success?
    case _ => false
  }

  /** Either withdrawal publishes the newest machine assertion of the scope, whatever the machine decided. */
  lemma WithdrawalPublishesLatest(s: State, e: Event, scope: Scope)
    requires Ledger(s) && WithdrawsOn(s, e, scope)
    ensures var latest := LatestMachine(s.assertions, scope, |s.assertions|); var t := Apply(s, e);
      latest.Some? && Known(t, scope) && Effective(t, scope) == s.assertions[latest.value].validation
  {
    if e.WithdrawEvent? {
      OperatorWithdrawalPublishesLatest(s, scope);
    } else {
      AdministrativeWithdrawalPublishesLatest(s, e.exception);
    }
  }

  lemma OperatorWithdrawalPublishesLatest(s: State, scope: Scope)
    requires Ledger(s) && WithdrawOverride(s, scope).1.Success?
    ensures var latest := LatestMachine(s.assertions, scope, |s.assertions|); var t := WithdrawOverride(s, scope).0;
      latest.Some? && Known(t, scope) && Effective(t, scope) == s.assertions[latest.value].validation
  {
    var latest := LatestMachine(s.assertions, scope, |s.assertions|).value;
    var prior := NewestOverride(s.overrides, scope, |s.overrides|).value;
    WithdrawnPublishes(s, scope, prior, latest);
  }

  /** An administrator's withdrawal also reopens the exception and its conflict. */
  lemma AdministrativeWithdrawalPublishesLatest(s: State, x: nat)
    requires Ledger(s) && WithdrawAdministrative(s, x).1.Success?
    ensures var c := s.exceptions[x].conflict; var scope := s.conflicts[c].scope;
      var latest := LatestMachine(s.assertions, scope, |s.assertions|); var t := WithdrawAdministrative(s, x).0;
      && latest.Some? && Known(t, scope) && Effective(t, scope) == s.assertions[latest.value].validation
      && t.exceptions == s.exceptions[x := s.exceptions[x].(state := Open)]
      && t.conflicts == s.conflicts[c := s.conflicts[c].(state := Unsettled, selected := None)]
  {
    AdministrativePriorIsNewest(s, x);
    var c := s.exceptions[x].conflict;
    var scope := s.conflicts[c].scope;
    var reopened := Excused(Marked(s, c, Unsettled, None), x, Open);
    SameDemandsKeepPrecedence(s, reopened);
    assert ExceptionsSound(reopened);
    WithdrawnPublishes(reopened, scope, NewestOnConflict(s.overrides, c, |s.overrides|).value,
                       LatestMachine(s.assertions, scope, |s.assertions|).value);
  }

  lemma WithdrawnPublishes(s: State, scope: Scope, prior: nat, machine: nat)
    requires Ledger(s) && Known(s, scope) && prior < |s.overrides| && s.overrides[prior].assertion < |s.assertions|
    requires machine < |s.assertions| && NewestOverride(s.overrides, scope, |s.overrides|) == Some(prior)
    ensures var t := Withdrawn(s, scope, prior, machine);
      && Known(t, scope) && Effective(t, scope) == s.assertions[machine].validation
      && t.exceptions == s.exceptions && t.conflicts == s.conflicts
  {
    var row := s.overrides[prior];
    var a := Assertion(scope, s.assertions[row.assertion].validation, Withdraw, true);
    WithOverrideKeepsRows(s, a, row.conflict, Withdraws, Some(prior));
    PublishRestoresPrecedence(WithOverride(s, a, row.conflict, Withdraws, Some(prior)), scope, machine, true);
  }

  lemma JudgedKeepsLedger(s: State, scope: Scope, snapshot: string, support: real, contradiction: real)
    requires Ledger(s)
    ensures Ledger(Judged(s, scope, snapshot, support, contradiction))
  {
    var (t, r) := Infer(s, scope, snapshot, support, contradiction);
    InferKeepsLedger(s, scope, snapshot, support, contradiction);
    if r.Success? && r.value.InConflict? && r.value.conflict < |t.conflicts| {
      StepKeepsLedger(t, FinalizeEvent(r.value.conflict, Picked(t, r.value.conflict, Adjudicate(support, contradiction)), true));
    }
  }

  /** What the newest machine assertion of the scope says. */
  function LatestSays(s: State, scope: Scope): Option<Validation> {
    var latest := LatestMachine(s.assertions, scope, |s.assertions|);
    if latest.Some? then Some(s.assertions[latest.value].validation) else None
  }

  /** The newest machine assertion the pipeline leaves: after a conflict decided for support it is the rejecting one. */
  lemma JudgedLeaves(s: State, scope: Scope, snapshot: string, support: real, contradiction: real)
    requires Ledger(s) && FirstSight(s, scope, snapshot) && 0.0 <= support <= 1.0 && 0.0 <= contradiction <= 1.0
    ensures var verdict := MachineVerdict(support, contradiction);
      LatestSays(Judged(s, scope, snapshot, support, contradiction), scope)
      == Some(if Contested(support, contradiction) && verdict == Probable then Rejected else verdict)
  {
    VerdictTable(support, contradiction);
    if Contested(support, contradiction) {
      OpenIsPending(s, scope, snapshot);
      PendingPublishes(OpenConflict(s, scope, snapshot), |s.conflicts|, support, contradiction);
    } else {
      SettledPublishes(s, scope, snapshot, support, contradiction);
    }
  }

  /** Administration and a withdrawal later, what shows is what the newest machine assertion said before. */
  lemma {:induction false} WithdrawalAfter(p: State, scope: Scope, events: seq<Event>, e: Event, said: Validation)
    requires Ledger(p) && LatestSays(p, scope) == Some(said) && forall k | 0 <= k < |events| :: Administers(events[k])
    requires WithdrawsOn(RunEvents(p, events), e, scope)
    ensures var t := Apply(RunEvents(p, events), e); Known(t, scope) && Effective(t, scope) == said
  {
    EventsKeepLedger(p, events);
    AdministrationKeepsLatest(p, events, scope);
    WithdrawalPublishesLatest(RunEvents(p, events), e, scope);
  }

  /** A withdrawal after the verdict, and after any administration, exposes it unless a conflict was decided for support. */
  lemma {:induction false} JudgedIsExposedIff(s: State, scope: Scope, snapshot: string, support: real, contradiction: real,
                                                  events: seq<Event>, e: Event)
    requires Ledger(s) && FirstSight(s, scope, snapshot) && 0.0 <= support <= 1.0 && 0.0 <= contradiction <= 1.0
    requires forall k | 0 <= k < |events| :: Administers(events[k])
    requires WithdrawsOn(RunEvents(Judged(s, scope, snapshot, support, contradiction), events), e, scope)
    ensures var t := Apply(RunEvents(Judged(s, scope, snapshot, support, contradiction), events), e);
      && Known(t, scope)
      && (Effective(t, scope) == MachineVerdict(support, contradiction)
          <==> !(Contested(support, contradiction) && support - contradiction >= 0.35))
      && (Contested(support, contradiction) && support - contradiction >= 0.35 ==> Effective(t, scope) == Rejected)
  {
    var verdict := MachineVerdict(support, contradiction);
    JudgedLeaves(s, scope, snapshot, support, contradiction);
    JudgedKeepsLedger(s, scope, snapshot, support, contradiction);
    WithdrawalAfter(Judged(s, scope, snapshot, support, contradiction), scope, events, e,
                    if Contested(support, contradiction) && verdict == Probable then Rejected else verdict);
    VerdictTable(support, contradiction);
  }

  lemma OverrideThenWithdraw(machine: State, said: Validation)
    requires Ledger(machine) && machine.overrides == [] && LatestSays(machine, None) == Some(said)
    ensures var overridden := Apply(machine, SetEvent(None, Confirmed, None, Asserts));
      overridden.event == Confirmed && Apply(overridden, WithdrawEvent(None)).event == said
  {
    var row := Assertion(None, Confirmed, Affirm, true);
    WithOverrideKeepsRows(machine, row, None, Asserts, None);
    PublishRestoresPrecedence(WithOverride(machine, row, None, Asserts, None), None, |machine.assertions|, false);
    var overridden := Apply(machine, SetEvent(None, Confirmed, None, Asserts));
    SetOverrideKeepsLedger(machine, None, Confirmed, None, Asserts);
    AppendKeepsLatest(machine, overridden, None);
    OnlyNewestIsFree(overridden.overrides, 0);
    WithdrawalPublishesLatest(overridden, WithdrawEvent(None), None);
  }

  lemma NoOverridesYet(s: State, snapshot: string, support: real, contradiction: real)
    requires s.overrides == [] && FirstSight(s, None, snapshot)
    ensures Judged(s, None, snapshot, support, contradiction).overrides == []
  {
  }
}
