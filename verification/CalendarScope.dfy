/**
 Validation of one calendar event and its occurrences: the assertion ledger, operator overrides, inference
 conflicts, administrative exceptions and the published state. Rows are positions and transactions commit in
 the order of their timestamps, so the newest row is the last one.
 */
module CalendarScope {
  import opened Prelude
  import opened CalendarPath
  import opened CalendarVerdict
  import opened SupersessionChains

  /** None is the event itself, Some(o) its occurrence `o`. */
  type Scope = Option<nat>

  datatype Act = Affirm | Deny | Withdraw

  datatype Assertion = Assertion(scope: Scope, validation: Validation, act: Act, operator: bool)

  datatype OverrideKind = Asserts | Selects | Denies | Withdraws

  datatype Override = Override(scope: Scope, assertion: nat, conflict: Option<nat>, kind: OverrideKind, supersedes: Option<nat>)

  datatype ConflictState = Contested | Agreed | Unsettled

  datatype Conflict = Conflict(scope: Scope, supporting: nat, rejecting: nat, state: ConflictState, selected: Option<nat>, run: nat)

  datatype ExceptionState = Open | Resolved | Closed

  datatype Exception = Exception(conflict: nat, state: ExceptionState)

  datatype RunStatus = Running | Succeeded | Partial | Failed

  datatype Run = Run(scope: Scope, snapshot: string, status: RunStatus)

  datatype Transition = Transition(scope: Scope, previous: Validation, next: Validation, operator: bool)

  datatype State = State(
    event: Validation,
    occurrences: map<nat, Option<Validation>>,
    assertions: seq<Assertion>,
    overrides: seq<Override>,
    conflicts: seq<Conflict>,
    exceptions: seq<Exception>,
    runs: seq<Run>,
    log: seq<Transition>
  )

  datatype Error = NotFound | Invalid | Aborted

  datatype Answer = Published(effective: Validation) | Replayed(run: nat) | InConflict(conflict: nat) | Noted

  // ------------------------------------------------------------------ lookups

  predicate Known(s: State, scope: Scope) {
    scope.Some? ==> scope.value in s.occurrences
  }

  /** The state the scope itself is pinned to. */
  function Own(s: State, scope: Scope): Option<Validation>
    requires Known(s, scope)
  {
    if scope.None? then Some(s.event) else s.occurrences[scope.value]
  }

  /** An occurrence without a state of its own inherits the event's. */
  function Effective(s: State, scope: Scope): Validation
    requires Known(s, scope)
  {
    var own := Own(s, scope);
    if own.Some? then own.value else s.event
  }

  /** The overrides of one scope form one chain. */
  function ScopeOf(): Override -> Scope {
    (o: Override) => o.scope
  }

  function NewestOverride(rows: seq<Override>, scope: Scope, n: nat): (newest: Option<nat>)
    requires n <= |rows|
    ensures newest.Some? ==> newest.value < n && rows[newest.value].scope == scope
  {
    Last(rows, ScopeOf(), scope, n)
  }

  function NewestOnConflict(rows: seq<Override>, c: nat, n: nat): (newest: Option<nat>)
    requires n <= |rows|
    ensures newest.Some? ==> newest.value < n && rows[newest.value].conflict == Some(c)
  {
    if n == 0 then None
    else if rows[n - 1].conflict == Some(c) then Some(n - 1)
    else NewestOnConflict(rows, c, n - 1)
  }

  predicate IsMachine(a: Assertion, scope: Scope) {
    a.scope == scope && !a.operator && a.act == Affirm
  }

  /** The machine assertion with the highest position. */
  function LatestMachine(rows: seq<Assertion>, scope: Scope, n: nat): (latest: Option<nat>)
    requires n <= |rows|
    ensures latest.Some? ==> latest.value < n && IsMachine(rows[latest.value], scope)
  {
    if n == 0 then None
    else if IsMachine(rows[n - 1], scope) then Some(n - 1)
    else LatestMachine(rows, scope, n - 1)
  }

  predicate Covers(r: Run, scope: Scope, snapshot: string) {
    r.scope == scope && r.snapshot == snapshot && r.status != Failed
  }

  function PriorRun(rows: seq<Run>, scope: Scope, snapshot: string, n: nat): (prior: Option<nat>)
    requires n <= |rows|
    ensures prior.Some? ==> prior.value < n && Covers(rows[prior.value], scope, snapshot)
  {
    if n == 0 then None
    else if Covers(rows[n - 1], scope, snapshot) then Some(n - 1)
    else PriorRun(rows, scope, snapshot, n - 1)
  }

  function RunningRun(rows: seq<Run>, scope: Scope, n: nat): (running: Option<nat>)
    requires n <= |rows|
    ensures running.Some? ==> running.value < n
  {
    if n == 0 then None
    else if rows[n - 1].scope == scope && rows[n - 1].status == Running then Some(n - 1)
    else RunningRun(rows, scope, n - 1)
  }

  function ConflictOfRun(rows: seq<Conflict>, run: nat, n: nat): (found: Option<nat>)
    requires n <= |rows|
    ensures found.Some? ==> found.value < n
  {
    if n == 0 then None
    else if rows[n - 1].run == run then Some(n - 1)
    else ConflictOfRun(rows, run, n - 1)
  }

  predicate Excepted(rows: seq<Exception>, c: nat) {
    exists x | 0 <= x < |rows| :: rows[x].conflict == c
  }

  predicate Superseded(rows: seq<Override>, o: nat) {
    exists k | 0 <= k < |rows| :: rows[k].supersedes == Some(o)
  }

  predicate Acting(kind: OverrideKind) {
    kind.Asserts? || kind.Selects?
  }

  /** What the operator's newest override of the scope demands, when it is in force. */
  function Demanded(s: State, scope: Scope): Option<Validation> {
    var newest := NewestOverride(s.overrides, scope, |s.overrides|);
    if newest.Some? && Acting(s.overrides[newest.value].kind) && s.overrides[newest.value].assertion < |s.assertions|
    then Some(s.assertions[s.overrides[newest.value].assertion].validation) else None
  }

  // ------------------------------------------------------------------ publishing

  function LoggedSteps(scope: Scope, from: Validation, path: seq<Validation>, operator: bool): seq<Transition> {
    if path == [] then []
    else LoggedSteps(scope, from, path[..|path| - 1], operator)
         + [Transition(scope, End(from, path[..|path| - 1]), path[|path| - 1], operator)]
  }

  ghost function Route(from: Validation, to: Validation): (path: seq<Validation>)
    ensures Walk(EDGES, from, path) && End(from, path) == to
  {
    StatesConnect(from, to);
    ValidationPath(EDGES, from, to).value
  }

  function Pinned(s: State, scope: Scope, state: Validation): State {
    if scope.None? then s.(event := state) else s.(occurrences := s.occurrences[scope.value := Some(state)])
  }

  /** Take the steps of the path one by one, logging each; no step, no pin. */
  function Walked(s: State, scope: Scope, from: Validation, path: seq<Validation>, operator: bool): State {
    var logged := s.(log := s.log + LoggedSteps(scope, from, path, operator));
    if path == [] then logged else Pinned(logged, scope, End(from, path))
  }

  /** Walk the scope's state to the target. */
  ghost function Projected(s: State, scope: Scope, target: Validation, operator: bool): State
    requires Known(s, scope)
  {
    Walked(s, scope, Effective(s, scope), Route(Effective(s, scope), target), operator)
  }

  /** Publish the machine's assertion, or what the operator demands instead. */
  ghost function Publish(s: State, scope: Scope, machine: nat, byOperator: bool): State
    requires Known(s, scope) && machine < |s.assertions|
  {
    var demanded := Demanded(s, scope);
    if demanded.Some? then Projected(s, scope, demanded.value, true)
    else Projected(s, scope, s.assertions[machine].validation, byOperator || s.assertions[machine].operator)
  }

  function PublishedState(s: State, scope: Scope): Result<Answer, Error>
    requires Known(s, scope)
  {
    Success(Published(Effective(s, scope)))
  }

  // ------------------------------------------------------------------ inference

  function WithAssertion(s: State, a: Assertion): State {
    s.(assertions := s.assertions + [a])
  }

  function WithRun(s: State, r: Run): State {
    s.(runs := s.runs + [r])
  }

  function OpenConflict(s: State, scope: Scope, snapshot: string): State {
    var n := |s.assertions|;
    s.(assertions := s.assertions + [Assertion(scope, Probable, Affirm, false), Assertion(scope, Rejected, Affirm, false)],
       conflicts := s.conflicts + [Conflict(scope, n, n + 1, Contested, None, |s.runs|)],
       runs := s.runs + [Run(scope, snapshot, Running)])
  }

  /** A run that ends at once with the machine's verdict. */
  ghost function Concluded(s: State, scope: Scope, snapshot: string, verdict: Validation): State
    requires Known(s, scope)
  {
    Publish(WithAssertion(WithRun(s, Run(scope, snapshot, Succeeded)), Assertion(scope, verdict, Affirm, false)),
            scope, |s.assertions|, false)
  }

  ghost function Infer(s: State, scope: Scope, snapshot: string, support: real, contradiction: real): (State, Result<Answer, Error>) {
    if !Known(s, scope) then (s, Failure(NotFound))
    else
      var prior := PriorRun(s.runs, scope, snapshot, |s.runs|);
      if prior.Some? && s.runs[prior.value].status != Running then (s, Success(Replayed(prior.value)))
      else
        var open := if prior.Some? then ConflictOfRun(s.conflicts, prior.value, |s.conflicts|) else None;
        if open.Some? then (s, Success(InConflict(open.value)))
        else
          match Detect(support, contradiction)
          case Conflicting => (OpenConflict(s, scope, snapshot), Success(InConflict(|s.conflicts|)))
          case Settled(verdict, _) =>
            var t := Concluded(s, scope, snapshot, verdict);
            (t, PublishedState(t, scope))
  }

  function Finished(s: State, c: nat, status: RunStatus): State
    requires c < |s.conflicts|
  {
    var run := s.conflicts[c].run;
    if run < |s.runs| then s.(runs := s.runs[run := s.runs[run].(status := status)]) else s
  }

  function Marked(s: State, c: nat, state: ConflictState, selected: Option<nat>): State
    requires c < |s.conflicts|
  {
    s.(conflicts := s.conflicts[c := s.conflicts[c].(state := state, selected := selected)])
  }

  ghost function Selecting(s: State, c: nat, selected: nat): State
    requires c < |s.conflicts| && Known(s, s.conflicts[c].scope) && selected < |s.assertions|
  {
    Publish(Marked(Finished(s, c, Succeeded), c, Agreed, Some(selected)), s.conflicts[c].scope, selected, false)
  }

  ghost function Exhausting(s: State, c: nat): State
    requires c < |s.conflicts| && Known(s, s.conflicts[c].scope)
  {
    var scope := s.conflicts[c].scope;
    var disputed := WithAssertion(Finished(s, c, Partial), Assertion(scope, Disputed, Affirm, false));
    var t := Publish(Marked(disputed, c, Unsettled, None), scope, |s.assertions|, false);
    t.(exceptions := t.exceptions + [Exception(c, Open)])
  }

  /** A resolution selects an assertion of the same scope, which then counts as the machine's. */
  ghost function FinalizeResolved(s: State, c: nat, selected: nat): (State, Result<Answer, Error>)
    requires c < |s.conflicts|
  {
    var scope := s.conflicts[c].scope;
    if selected >= |s.assertions| then (s, Failure(Invalid))
    else if s.assertions[selected].scope != scope then (s, Failure(Aborted))
    else if !Known(s, scope) then (s, Failure(NotFound))
    else
      var t := Selecting(s, c, selected);
      (t, PublishedState(t, scope))
  }

  /** Exhaustion publishes `disputed` and opens an exception; a resolved or excepted conflict makes the row checks abort it. */
  ghost function FinalizeExhausted(s: State, c: nat, eligible: bool): (State, Result<Answer, Error>)
    requires c < |s.conflicts|
  {
    var scope := s.conflicts[c].scope;
    if s.conflicts[c].selected.Some? || Excepted(s.exceptions, c) || !eligible then (s, Failure(Aborted))
    else if !Known(s, scope) then (s, Failure(NotFound))
    else
      var t := Exhausting(s, c);
      (t, PublishedState(t, scope))
  }

  ghost function Finalize(s: State, c: nat, selected: Option<nat>, eligible: bool): (State, Result<Answer, Error>) {
    if c >= |s.conflicts| then (s, Failure(NotFound))
    else if selected.Some? then FinalizeResolved(s, c, selected.value)
    else FinalizeExhausted(s, c, eligible)
  }

  function FailRun(s: State, scope: Scope): State {
    var running := RunningRun(s.runs, scope, |s.runs|);
    if running.None? then s else s.(runs := s.runs[running.value := s.runs[running.value].(status := Failed)])
  }

  // ------------------------------------------------------------------ operator overrides

  function WithOverride(s: State, a: Assertion, conflict: Option<nat>, kind: OverrideKind, supersedes: Option<nat>): State {
    s.(assertions := s.assertions + [a],
       overrides := s.overrides + [Override(a.scope, |s.assertions|, conflict, kind, supersedes)])
  }

  ghost function Overridden(s: State, a: Assertion, conflict: Option<nat>, kind: OverrideKind, prior: Option<nat>): State
    requires Known(s, a.scope)
  {
    Publish(WithOverride(s, a, conflict, kind, prior), a.scope, |s.assertions|, false)
  }

  /** Why an override cannot be set: a bad action, an unknown scope, or a row check that aborts the insert. */
  function SettingRefused(s: State, scope: Scope, conflict: Option<nat>, kind: OverrideKind): Option<Error> {
    var prior := NewestOverride(s.overrides, scope, |s.overrides|);
    if !Acting(kind) then Some(Invalid)
    else if !Known(s, scope) then Some(NotFound)
    else if conflict.Some? && conflict.value >= |s.conflicts| then Some(Aborted)
    else if prior.Some? && Superseded(s.overrides, prior.value) then Some(Aborted)
    else None
  }

  ghost function SetOverride(s: State, scope: Scope, validation: Validation, conflict: Option<nat>, kind: OverrideKind)
    : (State, Result<Answer, Error>)
  {
    var refused := SettingRefused(s, scope, conflict, kind);
    if refused.Some? then (s, Failure(refused.value))
    else
      var t := Overridden(s, Assertion(scope, validation, Affirm, true), conflict, kind,
                          NewestOverride(s.overrides, scope, |s.overrides|));
      (t, PublishedState(t, scope))
  }

  /** Withdraw the override `prior` and publish what the newest machine assertion of the scope says. */
  ghost function Withdrawn(s: State, scope: Scope, prior: nat, machine: nat): State
    requires Known(s, scope) && prior < |s.overrides| && s.overrides[prior].assertion < |s.assertions| && machine < |s.assertions|
  {
    var before := s.assertions[s.overrides[prior].assertion];
    Publish(WithOverride(s, Assertion(scope, before.validation, Withdraw, true), s.overrides[prior].conflict, Withdraws, Some(prior)),
            scope, machine, true)
  }

  ghost function WithdrawOverride(s: State, scope: Scope): (State, Result<Answer, Error>) {
    var prior := NewestOverride(s.overrides, scope, |s.overrides|);
    var machine := LatestMachine(s.assertions, scope, |s.assertions|);
    if prior.None? || !Acting(s.overrides[prior.value].kind) then (s, Failure(Invalid))
    else if machine.None? || s.overrides[prior.value].assertion >= |s.assertions| then (s, Failure(Invalid))
    else if !Known(s, scope) then (s, Failure(NotFound))
    else if Superseded(s.overrides, prior.value) then (s, Failure(Aborted))
    else
      var t := Withdrawn(s, scope, prior.value, machine.value);
      (t, PublishedState(t, scope))
  }

  // ------------------------------------------------------------------ administrative exceptions

  datatype Choice = Member(assertion: nat) | Explicit(validation: Validation)

  predicate IsMember(c: Conflict, a: nat) {
    a == c.supporting || a == c.rejecting
  }

  predicate Located(s: State, x: nat) {
    x < |s.exceptions| && s.exceptions[x].conflict < |s.conflicts|
  }

  function Excused(s: State, x: nat, state: ExceptionState): State
    requires x < |s.exceptions|
  {
    s.(exceptions := s.exceptions[x := s.exceptions[x].(state := state)])
  }

  /** The operator's choice becomes an override, the conflict is agreed and the exception resolved. */
  ghost function Resolving(s: State, x: nat, chosen: Validation, kind: OverrideKind, prior: Option<nat>): State
    requires Located(s, x) && Known(s, s.conflicts[s.exceptions[x].conflict].scope)
  {
    var c := s.exceptions[x].conflict;
    var scope := s.conflicts[c].scope;
    var n := |s.assertions|;
    var overridden := WithOverride(s, Assertion(scope, chosen, Affirm, true), Some(c), kind, prior);
    Publish(Excused(Marked(overridden, c, Agreed, Some(n)), x, Resolved), scope, n, false)
  }

  ghost function ResolveException(s: State, x: nat, choice: Choice): (State, Result<Answer, Error>) {
    if !Located(s, x) then (s, Failure(NotFound))
    else
      var c := s.exceptions[x].conflict;
      var scope := s.conflicts[c].scope;
      var prior := NewestOverride(s.overrides, scope, |s.overrides|);
      if s.exceptions[x].state != Open || s.conflicts[c].state == Agreed then (s, Failure(Invalid))
      else if choice.Member? && !(IsMember(s.conflicts[c], choice.assertion) && choice.assertion < |s.assertions|) then
        (s, Failure(Invalid))
      else if !Known(s, scope) then (s, Failure(NotFound))
      else if prior.Some? && Superseded(s.overrides, prior.value) then (s, Failure(Aborted))
      else
        var chosen := if choice.Member? then s.assertions[choice.assertion].validation else choice.validation;
        var t := Resolving(s, x, chosen, if choice.Member? then Selects else Asserts, prior);
        (t, PublishedState(t, scope))
  }

  function DenyProposal(s: State, x: nat, a: nat): (State, Result<Answer, Error>) {
    if !Located(s, x) then (s, Failure(NotFound))
    else
      var c := s.exceptions[x].conflict;
      var scope := s.conflicts[c].scope;
      var prior := NewestOverride(s.overrides, scope, |s.overrides|);
      if s.exceptions[x].state != Open || !(IsMember(s.conflicts[c], a) && a < |s.assertions|) then (s, Failure(Invalid))
      else if prior.Some? && Superseded(s.overrides, prior.value) then (s, Failure(Aborted))
      else (WithOverride(s, Assertion(scope, s.assertions[a].validation, Deny, true), Some(c), Denies, prior), Success(Noted))
  }

  datatype AdminAct = Close | Reopen | Note

  function RecordAction(s: State, x: nat, act: AdminAct): (State, Result<Answer, Error>) {
    if !Located(s, x) then (s, Failure(NotFound))
    else
      var state := s.exceptions[x].state;
      match act
      case Close => if state == Open then (Excused(s, x, Closed), Success(Noted)) else (s, Failure(Invalid))
      case Reopen => if state != Open then (Excused(s, x, Open), Success(Noted)) else (s, Failure(Invalid))
      case Note => (s, Success(Noted))
  }

  /** Withdraw the newest override recorded for the exception's conflict, reopening both. */
  ghost function WithdrawAdministrative(s: State, x: nat): (State, Result<Answer, Error>) {
    if !Located(s, x) then (s, Failure(NotFound))
    else
      var c := s.exceptions[x].conflict;
      var scope := s.conflicts[c].scope;
      var prior := NewestOnConflict(s.overrides, c, |s.overrides|);
      var machine := LatestMachine(s.assertions, scope, |s.assertions|);
      if prior.None? || !Acting(s.overrides[prior.value].kind) then (s, Failure(Invalid))
      else if machine.None? || s.overrides[prior.value].assertion >= |s.assertions| then (s, Failure(Invalid))
      else if s.overrides[prior.value].scope != scope || Superseded(s.overrides, prior.value) then (s, Failure(Aborted))
      else if !Known(s, scope) then (s, Failure(NotFound))
      else
        var reopened := Excused(Marked(s, c, Unsettled, None), x, Open);
        var t := Withdrawn(reopened, scope, prior.value, machine.value);
        (t, PublishedState(t, scope))
  }

  // ------------------------------------------------------------------ events

  datatype Event =
    | InferEvent(scope: Scope, snapshot: string, support: real, contradiction: real)
    | FinalizeEvent(conflict: nat, selected: Option<nat>, eligible: bool)
    | FailEvent(scope: Scope)
    | SetEvent(scope: Scope, validation: Validation, onConflict: Option<nat>, kind: OverrideKind)
    | WithdrawEvent(scope: Scope)
    | ResolveEvent(exception: nat, choice: Choice)
    | DenyEvent(exception: nat, denied: nat)
    | ActionEvent(exception: nat, act: AdminAct)
    | WithdrawAdministrativeEvent(exception: nat)

  ghost function Apply(s: State, e: Event): State {
    match e
    case InferEvent(scope, snapshot, support, contradiction) => Infer(s, scope, snapshot, support, contradiction).0
    case FinalizeEvent(c, selected, eligible) => Finalize(s, c, selected, eligible).0
    case FailEvent(scope) => FailRun(s, scope)
    case SetEvent(scope, validation, conflict, kind) => SetOverride(s, scope, validation, conflict, kind).0
    case WithdrawEvent(scope) => WithdrawOverride(s, scope).0
    case ResolveEvent(x, choice) => ResolveException(s, x, choice).0
    case DenyEvent(x, a) => DenyProposal(s, x, a).0
    case ActionEvent(x, act) => RecordAction(s, x, act).0
    case WithdrawAdministrativeEvent(x) => WithdrawAdministrative(s, x).0
  }

  ghost function RunEvents(s: State, events: seq<Event>): State {
    if events == [] then s else Apply(RunEvents(s, events[..|events| - 1]), events[|events| - 1])
  }

  /** An event and its occurrences before anything was asserted. */
  function Start(event: Validation, occurrences: map<nat, Option<Validation>>): State {
    State(event, occurrences, [], [], [], [], [], [])
  }
}
