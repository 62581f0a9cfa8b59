/** The calendar transactions as the services run them, on rows updated in place. */
module CalendarService {
  import opened Prelude
  import opened CalendarPath
  import opened CalendarVerdict
  import opened CalendarScope
  import Runs = CalendarRuns

  class EventLedger {
    var event: Validation
    var occurrences: map<nat, Option<Validation>>
    var assertions: seq<Assertion>
    var overrides: seq<Override>
    var conflicts: seq<Conflict>
    var exceptions: seq<Exception>
    var runs: seq<Run>
    var log: seq<Transition>

    function Rows(): State
      reads this
    {
      State(event, occurrences, assertions, overrides, conflicts, exceptions, runs, log)
    }

    ghost predicate Valid()
      reads this
    {
      Runs.Ledger(Rows())
    }

    constructor (event: Validation, occurrences: map<nat, Option<Validation>>)
      ensures Rows() == Start(event, occurrences) && Valid()
    {
      this.event, this.occurrences := event, occurrences;
      assertions, overrides, conflicts, exceptions, runs, log := [], [], [], [], [], [];
      new;
      Runs.RunsKeepLedger(event, occurrences, []);
    }

    // ---------------------------------------------------------------- lookups

    method FindNewestOverride(scope: Scope) returns (found: Option<nat>)
      ensures found == NewestOverride(overrides, scope, |overrides|)
    {
      var n := |overrides|;
      while n > 0
        invariant 0 <= n <= |overrides|
        invariant NewestOverride(overrides, scope, |overrides|) == NewestOverride(overrides, scope, n)
      {
        if overrides[n - 1].scope == scope {
          return Some(n - 1);
        }
        n := n - 1;
      }
      found := None;
    }

    method FindNewestOnConflict(c: nat) returns (found: Option<nat>)
      ensures found == NewestOnConflict(overrides, c, |overrides|)
    {
      var n := |overrides|;
      while n > 0
        invariant 0 <= n <= |overrides| && NewestOnConflict(overrides, c, |overrides|) == NewestOnConflict(overrides, c, n)
      {
        if overrides[n - 1].conflict == Some(c) {
          return Some(n - 1);
        }
        n := n - 1;
      }
      found := None;
    }

    method FindLatestMachine(scope: Scope) returns (found: Option<nat>)
      ensures found == LatestMachine(assertions, scope, |assertions|)
    {
      var n := |assertions|;
      while n > 0
        invariant 0 <= n <= |assertions|
        invariant LatestMachine(assertions, scope, |assertions|) == LatestMachine(assertions, scope, n)
      {
        if IsMachine(assertions[n - 1], scope) {
          return Some(n - 1);
        }
        n := n - 1;
      }
      found := None;
    }

    method FindPriorRun(scope: Scope, snapshot: string) returns (found: Option<nat>)
      ensures found == PriorRun(runs, scope, snapshot, |runs|)
    {
      var n := |runs|;
      while n > 0
        invariant 0 <= n <= |runs| && PriorRun(runs, scope, snapshot, |runs|) == PriorRun(runs, scope, snapshot, n)
      {
        if Covers(runs[n - 1], scope, snapshot) {
          return Some(n - 1);
        }
        n := n - 1;
      }
      found := None;
    }

    method FindConflictOfRun(run: nat) returns (found: Option<nat>)
      ensures found == ConflictOfRun(conflicts, run, |conflicts|)
    {
      var n := |conflicts|;
      while n > 0
        invariant 0 <= n <= |conflicts| && ConflictOfRun(conflicts, run, |conflicts|) == ConflictOfRun(conflicts, run, n)
      {
        if conflicts[n - 1].run == run {
          return Some(n - 1);
        }
        n := n - 1;
      }
      found := None;
    }

    // ---------------------------------------------------------------- publishing

    /** One logged transition of the scope's state. */
    method Step(scope: Scope, current: Validation, next: Validation, operator: bool)
      modifies this`event, this`occurrences, this`log
      ensures var s := old(Rows()); Rows() == Pinned(s.(log := s.log + [Transition(scope, current, next, operator)]), scope, next)
    {
      log := log + [Transition(scope, current, next, operator)];
      if scope.None? {
        event := next;
      } else {
        occurrences := occurrences[scope.value := Some(next)];
      }
    }

    static method PlanRoute(current: Validation, target: Validation) returns (path: seq<Validation>)
      ensures path == Route(current, target)
    {
      StatesConnect(current, target);
      var found := FindPath(EDGES, current, target);
      path := found.value;
    }

    /** Step the scope's state along the legal path, one logged transition at a time. */
    method Project(scope: Scope, target: Validation, operator: bool)
      requires Known(Rows(), scope)
      modifies this`event, this`occurrences, this`log
      ensures Rows() == Projected(old(Rows()), scope, target, operator)
    {
      var current := Effective(Rows(), scope);
      ghost var from, before := current, Rows();
      var path := PlanRoute(current, target);
      assert before == Walked(before, scope, from, [], operator) by {
        assert before.log + [] == before.log;
      }
      for k := 0 to |path|
        invariant current == End(from, path[..k])
        invariant Rows() == Walked(before, scope, from, path[..k], operator)
      {
        WalkOneMore(before, scope, from, path[..k], path[k], operator);
        assert path[..k + 1] == path[..k] + [path[k]];
        Step(scope, current, path[k], operator);
        current := path[k];
      }
      assert path[..|path|] == path;
    }

    method PublishEffective(scope: Scope, machine: nat, byOperator: bool)
      requires Known(Rows(), scope) && machine < |assertions|
      modifies this`event, this`occurrences, this`log
      ensures Rows() == Publish(old(Rows()), scope, machine, byOperator)
    {
      var newest := FindNewestOverride(scope);
      if newest.Some? && Acting(overrides[newest.value].kind) && overrides[newest.value].assertion < |assertions| {
        Project(scope, assertions[overrides[newest.value].assertion].validation, true);
      } else {
        Project(scope, assertions[machine].validation, byOperator || assertions[machine].operator);
      }
    }

    method AppendAssertion(a: Assertion) returns (n: nat)
      modifies this`assertions
      ensures Rows() == WithAssertion(old(Rows()), a) && n == |old(assertions)|
    {
      n := |assertions|;
      assertions := assertions + [a];
    }

    method AppendOverride(a: Assertion, conflict: Option<nat>, kind: OverrideKind, supersedes: Option<nat>) returns (n: nat)
      modifies this`assertions, this`overrides
      ensures Rows() == WithOverride(old(Rows()), a, conflict, kind, supersedes) && n == |old(assertions)|
    {
      n := AppendAssertion(a);
      overrides := overrides + [Override(a.scope, n, conflict, kind, supersedes)];
    }

    // ---------------------------------------------------------------- inference

    method PrepareInference(scope: Scope, snapshot: string, support: real, contradiction: real) returns (r: Result<Answer, Error>)
      requires Valid()
      modifies this
      ensures Valid() && (Rows(), r) == Infer(old(Rows()), scope, snapshot, support, contradiction)
    {
      Runs.InferKeepsLedger(Rows(), scope, snapshot, support, contradiction);
      if !Known(Rows(), scope) {
        return Failure(NotFound);
      }
      var prior := FindPriorRun(scope, snapshot);
      if prior.Some? {
        if runs[prior.value].status != Running {
          return Success(Replayed(prior.value));
        }
        var conflict := FindConflictOfRun(prior.value);
        if conflict.Some? {
          return Success(InConflict(conflict.value));
        }
      }
      match Detect(support, contradiction)
      case Conflicting =>
        RaiseConflict(scope, snapshot);
        r := Success(InConflict(|conflicts| - 1));
      case Settled(verdict, _) =>
        Conclude(scope, snapshot, verdict);
        r := Success(Published(Effective(Rows(), scope)));
    }

    method RaiseConflict(scope: Scope, snapshot: string)
      modifies this`runs, this`assertions, this`conflicts
      ensures Rows() == OpenConflict(old(Rows()), scope, snapshot)
    {
      var supporting, run := |assertions|, |runs|;
      runs := runs + [Run(scope, snapshot, Running)];
      assertions := assertions + [Assertion(scope, Probable, Affirm, false), Assertion(scope, Rejected, Affirm, false)];
      conflicts := conflicts + [Conflict(scope, supporting, supporting + 1, Contested, None, run)];
    }

    method Conclude(scope: Scope, snapshot: string, verdict: Validation)
      requires Known(Rows(), scope)
      modifies this
      ensures Rows() == Concluded(old(Rows()), scope, snapshot, verdict)
    {
      runs := runs + [Run(scope, snapshot, Succeeded)];
      var n := AppendAssertion(Assertion(scope, verdict, Affirm, false));
      PublishEffective(scope, n, false);
    }

    method FinishRun(c: nat, status: RunStatus)
      requires c < |conflicts|
      modifies this`runs
      ensures Rows() == Finished(old(Rows()), c, status)
    {
      var run := conflicts[c].run;
      if run < |runs| {
        runs := runs[run := runs[run].(status := status)];
      }
    }

    method MarkConflict(c: nat, state: ConflictState, selected: Option<nat>)
      requires c < |conflicts|
      modifies this`conflicts
      ensures Rows() == Marked(old(Rows()), c, state, selected)
    {
      conflicts := conflicts[c := conflicts[c].(state := state, selected := selected)];
    }

    method SelectAssertion(c: nat, selected: nat)
      requires c < |conflicts| && Known(Rows(), conflicts[c].scope) && selected < |assertions|
      modifies this
      ensures Rows() == Selecting(old(Rows()), c, selected)
    {
      var scope := conflicts[c].scope;
      FinishRun(c, Succeeded);
      MarkConflict(c, Agreed, Some(selected));
      PublishEffective(scope, selected, false);
    }

    method Exhaust(c: nat)
      requires c < |conflicts| && Known(Rows(), conflicts[c].scope)
      modifies this
      ensures Rows() == Exhausting(old(Rows()), c)
    {
      var scope := conflicts[c].scope;
      FinishRun(c, Partial);
      var n := AppendAssertion(Assertion(scope, Disputed, Affirm, false));
      MarkConflict(c, Unsettled, None);
      PublishEffective(scope, n, false);
      exceptions := exceptions + [Exception(c, Open)];
    }

    method FinalizeResolution(c: nat, selected: Option<nat>, eligible: bool) returns (r: Result<Answer, Error>)
      requires Valid()
      modifies this
      ensures Valid() && (Rows(), r) == Finalize(old(Rows()), c, selected, eligible)
    {
      Runs.StepKeepsLedger(Rows(), FinalizeEvent(c, selected, eligible));
      if c >= |conflicts| {
        return Failure(NotFound);
      }
      var scope := conflicts[c].scope;
      if selected.Some? {
        if selected.value >= |assertions| {
          return Failure(Invalid);
        }
        if assertions[selected.value].scope != scope {
          return Failure(Aborted);
        }
        if !Known(Rows(), scope) {
          return Failure(NotFound);
        }
        SelectAssertion(c, selected.value);
      } else {
        if conflicts[c].selected.Some? || Excepted(exceptions, c) || !eligible {
          return Failure(Aborted);
        }
        if !Known(Rows(), scope) {
          return Failure(NotFound);
        }
        Exhaust(c);
      }
      r := Success(Published(Effective(Rows(), scope)));
    }

    // ---------------------------------------------------------------- overrides

    method PutOverride(a: Assertion, conflict: Option<nat>, kind: OverrideKind, prior: Option<nat>)
      requires Known(Rows(), a.scope)
      modifies this
      ensures Rows() == Overridden(old(Rows()), a, conflict, kind, prior)
    {
      var n := AppendOverride(a, conflict, kind, prior);
      PublishEffective(a.scope, n, false);
    }

    method SetOperatorOverride(scope: Scope, validation: Validation, conflict: Option<nat>, kind: OverrideKind)
      returns (r: Result<Answer, Error>)
      requires Valid()
      modifies this
      ensures Valid() && (Rows(), r) == SetOverride(old(Rows()), scope, validation, conflict, kind)
    {
      Runs.SetOverrideKeepsLedger(Rows(), scope, validation, conflict, kind);
      var prior := FindNewestOverride(scope);
      var refused := CheckSetting(scope, conflict, kind, prior);
      if refused.Some? {
        return Failure(refused.value);
      }
      PutOverride(Assertion(scope, validation, Affirm, true), conflict, kind, prior);
      r := Success(Published(Effective(Rows(), scope)));
    }

    method CheckSetting(scope: Scope, conflict: Option<nat>, kind: OverrideKind, prior: Option<nat>) returns (refused: Option<Error>)
      requires prior == NewestOverride(overrides, scope, |overrides|)
      ensures refused == SettingRefused(Rows(), scope, conflict, kind)
    {
      if !Acting(kind) {
        return Some(Invalid);
      }
      if !Known(Rows(), scope) {
        return Some(NotFound);
      }
      if (conflict.Some? && conflict.value >= |conflicts|) || (prior.Some? && Superseded(overrides, prior.value)) {
        return Some(Aborted);
      }
      refused := None;
    }

    /** The withdrawal row, then the newest machine assertion of the scope. */
    method WithdrawRow(scope: Scope, prior: nat, machine: nat)
      requires Known(Rows(), scope) && prior < |overrides| && overrides[prior].assertion < |assertions| && machine < |assertions|
      modifies this
      ensures Rows() == Withdrawn(old(Rows()), scope, prior, machine)
    {
      var before := assertions[overrides[prior].assertion];
      var _ := AppendOverride(Assertion(scope, before.validation, Withdraw, true), overrides[prior].conflict, Withdraws, Some(prior));
      PublishEffective(scope, machine, true);
    }

    method WithdrawOperatorOverride(scope: Scope) returns (r: Result<Answer, Error>)
      requires Valid()
      modifies this
      ensures Valid() && (Rows(), r) == WithdrawOverride(old(Rows()), scope)
    {
      Runs.WithdrawOverrideKeepsLedger(Rows(), scope);
      var prior := FindNewestOverride(scope);
      if prior.None? || !Acting(overrides[prior.value].kind) {
        return Failure(Invalid);
      }
      var machine := FindLatestMachine(scope);
      if machine.None? || overrides[prior.value].assertion >= |assertions| {
        return Failure(Invalid);
      }
      if !Known(Rows(), scope) {
        return Failure(NotFound);
      }
      if Superseded(overrides, prior.value) {
        return Failure(Aborted);
      }
      WithdrawRow(scope, prior.value, machine.value);
      r := Success(Published(Effective(Rows(), scope)));
    }

    // ---------------------------------------------------------------- administration

    method MoveException(x: nat, state: ExceptionState)
      requires x < |exceptions|
      modifies this`exceptions
      ensures Rows() == Excused(old(Rows()), x, state)
    {
      exceptions := exceptions[x := exceptions[x].(state := state)];
    }

    method Resolve(x: nat, chosen: Validation, kind: OverrideKind, prior: Option<nat>)
      requires Located(Rows(), x) && Known(Rows(), conflicts[exceptions[x].conflict].scope)
      modifies this
      ensures Rows() == Resolving(old(Rows()), x, chosen, kind, prior)
    {
      var c := exceptions[x].conflict;
      var scope := conflicts[c].scope;
      var n := AppendOverride(Assertion(scope, chosen, Affirm, true), Some(c), kind, prior);
      MarkConflict(c, Agreed, Some(n));
      MoveException(x, Resolved);
      PublishEffective(scope, n, false);
    }

    method ResolveAdministrativeException(x: nat, choice: Choice) returns (r: Result<Answer, Error>)
      requires Valid()
      modifies this
      ensures Valid() && (Rows(), r) == ResolveException(old(Rows()), x, choice)
    {
      Runs.ResolveKeepsLedger(Rows(), x, choice);
      if !Located(Rows(), x) {
        return Failure(NotFound);
      }
      var c := exceptions[x].conflict;
      var scope := conflicts[c].scope;
      if exceptions[x].state != Open || conflicts[c].state == Agreed {
        return Failure(Invalid);
      }
      if choice.Member? && !(IsMember(conflicts[c], choice.assertion) && choice.assertion < |assertions|) {
        return Failure(Invalid);
      }
      var prior := FindNewestOverride(scope);
      if !Known(Rows(), scope) {
        return Failure(NotFound);
      }
      if prior.Some? && Superseded(overrides, prior.value) {
        return Failure(Aborted);
      }
      var chosen := if choice.Member? then assertions[choice.assertion].validation else choice.validation;
      Resolve(x, chosen, if choice.Member? then Selects else Asserts, prior);
      r := Success(Published(Effective(Rows(), scope)));
    }

    method DenyAdministrativeProposal(x: nat, a: nat) returns (r: Result<Answer, Error>)
      requires Valid()
      modifies this
      ensures Valid() && (Rows(), r) == DenyProposal(old(Rows()), x, a)
    {
      Runs.DenyKeepsLedger(Rows(), x, a);
      if !Located(Rows(), x) {
        return Failure(NotFound);
      }
      var c := exceptions[x].conflict;
      if exceptions[x].state != Open || !(IsMember(conflicts[c], a) && a < |assertions|) {
        return Failure(Invalid);
      }
      var prior := FindNewestOverride(conflicts[c].scope);
      if prior.Some? && Superseded(overrides, prior.value) {
        return Failure(Aborted);
      }
      var _ := AppendOverride(Assertion(conflicts[c].scope, assertions[a].validation, Deny, true), Some(c), Denies, prior);
      r := Success(Noted);
    }

    method RecordAdministrativeAction(x: nat, act: AdminAct) returns (r: Result<Answer, Error>)
      requires Valid()
      modifies this
      ensures Valid() && (Rows(), r) == RecordAction(old(Rows()), x, act)
    {
      Runs.RecordActionKeepsLedger(Rows(), x, act);
      if !Located(Rows(), x) {
        return Failure(NotFound);
      }
      match act {
        case Close =>
          if exceptions[x].state != Open {
            return Failure(Invalid);
          }
          MoveException(x, Closed);
        case Reopen =>
          if exceptions[x].state == Open {
            return Failure(Invalid);
          }
          MoveException(x, Open);
        case Note =>
      }
      r := Success(Noted);
    }

    method WithdrawAdministrativeOverride(x: nat) returns (r: Result<Answer, Error>)
      requires Valid()
      modifies this
      ensures Valid() && (Rows(), r) == WithdrawAdministrative(old(Rows()), x)
    {
      Runs.WithdrawAdministrativeKeepsLedger(Rows(), x);
      if !Located(Rows(), x) {
        return Failure(NotFound);
      }
      var c := exceptions[x].conflict;
      var scope := conflicts[c].scope;
      var prior := FindNewestOnConflict(c);
      if prior.None? || !Acting(overrides[prior.value].kind) {
        return Failure(Invalid);
      }
      var machine := FindLatestMachine(scope);
      if machine.None? || overrides[prior.value].assertion >= |assertions| {
        return Failure(Invalid);
      }
      if overrides[prior.value].scope != scope || Superseded(overrides, prior.value) {
        return Failure(Aborted);
      }
      if !Known(Rows(), scope) {
        return Failure(NotFound);
      }
      MarkConflict(c, Unsettled, None);
      MoveException(x, Open);
      WithdrawRow(scope, prior.value, machine.value);
      r := Success(Published(Effective(Rows(), scope)));
    }
  }

  lemma WalkOneMore(s: State, scope: Scope, from: Validation, path: seq<Validation>, next: Validation, operator: bool)
    ensures var w := Walked(s, scope, from, path, operator);
      Walked(s, scope, from, path + [next], operator)
      == Pinned(w.(log := w.log + [Transition(scope, End(from, path), next, operator)]), scope, next)
  {
    assert (path + [next])[..|path|] == path;
    assert s.log + LoggedSteps(scope, from, path + [next], operator)
        == (s.log + LoggedSteps(scope, from, path, operator)) + [Transition(scope, End(from, path), next, operator)];
  }
}
