/**
 The pipeline from the evidence rows on: detection links the rows to its assertions, adjudication reads them back through
 the links, and a rerun finds what an earlier one has written.
 */
module CalendarEvidence {
  import opened Prelude
  import opened CalendarPath
  import opened CalendarFusion
  import opened CalendarVerdict
  import opened CalendarScope
  import opened CalendarRuns
  import opened CalendarPipeline

  /** The ledger, and for each assertion the evidence rows linked to it. */
  datatype Book = Book(ledger: State, links: map<nat, seq<Evidence>>)

  /** The digest that identifies a snapshot of the evidence. */
  type Digest = seq<Evidence> -> string

  /** The order in which the database returns rows that nobody asked it to sort. */
  type Order = seq<Evidence> -> seq<Evidence>

  ghost predicate Permutes(order: Order) {
    forall rows: seq<Evidence> :: multiset(order(rows)) == multiset(rows)
  }

  function LinksOf(b: Book, assertion: nat): seq<Evidence> {
    if assertion in b.links then b.links[assertion] else []
  }

  /** Link every assertion from position `first` up to `end` to the rows. */
  function Links(links: map<nat, seq<Evidence>>, first: nat, end: nat, rows: seq<Evidence>): map<nat, seq<Evidence>>
    decreases end
  {
    if end <= first then links else Links(links, first, end - 1, rows)[end - 1 := rows]
  }

  lemma {:induction false} LinksReach(links: map<nat, seq<Evidence>>, first: nat, end: nat, rows: seq<Evidence>, a: nat)
    ensures var t := Links(links, first, end, rows);
      if first <= a < end then a in t && t[a] == rows else (a in t <==> a in links) && (a in links ==> t[a] == links[a])
    decreases end
  {
    if first < end {
      LinksReach(links, first, end - 1, rows, a);
    }
  }

  /** The book after a transaction that left the ledger `t` and linked its new assertions to the rows. */
  function Linked(b: Book, t: State, rows: seq<Evidence>): Book {
    Book(t, Links(b.links, |b.ledger.assertions|, |t.assertions|, rows))
  }

  /** Fuse the rows, conclude or open a conflict, and link the rows to what was asserted: one transaction. */
  ghost function Detected(b: Book, scope: Scope, rows: seq<Evidence>, digest: Digest): (Book, Result<Answer, Error>) {
    var (t, r) := Infer(b.ledger, scope, digest(rows), Strength(rows, SUPPORTING), Strength(rows, CONTRADICTING));
    (Linked(b, t, rows), r)
  }

  /** The facts of a conflict: the rows linked to its two assertions, each once, by identifier. */
  function Context(b: Book, c: nat, order: Order): seq<Evidence>
    requires c < |b.ledger.conflicts|
  {
    Rebuilt(order(LinksOf(b, b.ledger.conflicts[c].supporting)) + order(LinksOf(b, b.ledger.conflicts[c].rejecting)))
  }

  function Judgement(facts: seq<Evidence>): Decision {
    Adjudicate(Strength(facts, SUPPORTING), Strength(facts, CONTRADICTING))
  }

  /** Publish the decision, or `disputed` linked to the rows as they are by now. */
  ghost function Finalized(b: Book, c: nat, decision: Decision, later: seq<Evidence>): Book
    requires c < |b.ledger.conflicts|
  {
    Linked(b, Finalize(b.ledger, c, Picked(b.ledger, c, decision), true).0, later)
  }

  /** Adjudicate the conflict that detection opened or found open, from its links alone. */
  ghost function Adjudicated(b: Book, r: Result<Answer, Error>, order: Order, later: seq<Evidence>): Book {
    if r.Success? && r.value.InConflict? && r.value.conflict < |b.ledger.conflicts| then
      Finalized(b, r.value.conflict, Judgement(Context(b, r.value.conflict, order)), later)
    else b
  }

  /** `run_calendar_validation` on the scope's rows, ordered by identifier. */
  ghost function Pipeline(b: Book, scope: Scope, rows: seq<Evidence>, later: seq<Evidence>, digest: Digest, order: Order): Book {
    var (t, r) := Detected(b, scope, rows, digest);
    Adjudicated(t, r, order, later)
  }

  // ------------------------------------------------------------------ both stages see the same rows

  function Support(rows: seq<Evidence>): real {
    Strength(rows, SUPPORTING)
  }

  function Contradiction(rows: seq<Evidence>): real {
    Strength(rows, CONTRADICTING)
  }

  /** Reading the links of a conflict in any order gives back the rows it was detected from. */
  lemma ContextIsRows(b: Book, c: nat, order: Order, rows: seq<Evidence>)
    requires c < |b.ledger.conflicts| && Permutes(order) && Ascending(rows)
    requires LinksOf(b, b.ledger.conflicts[c].supporting) == rows == LinksOf(b, b.ledger.conflicts[c].rejecting)
    ensures Context(b, c, order) == rows
  {
    var read := order(rows) + order(rows);
    forall x ensures x in read <==> x in rows {
      assert x in multiset(order(rows)) <==> x in multiset(rows);
    }
    SameEvidence(rows, read);
  }

  /** On evidence seen for the first time the ledger moves as detection's own strengths say. */
  lemma PipelineJudges(b: Book, scope: Scope, rows: seq<Evidence>, later: seq<Evidence>, digest: Digest, order: Order)
    requires FirstSight(b.ledger, scope, digest(rows)) && Permutes(order) && Ascending(rows)
    ensures Pipeline(b, scope, rows, later, digest, order).ledger
         == Judged(b.ledger, scope, digest(rows), Support(rows), Contradiction(rows))
  {
    var (t, r) := Detected(b, scope, rows, digest);
    if Detect(Support(rows), Contradiction(rows)).Conflicting? {
      assert t.ledger == OpenConflict(b.ledger, scope, digest(rows)) && r == Success(InConflict(|b.ledger.conflicts|));
      var n := |b.ledger.assertions|;
      LinksReach(b.links, n, n + 2, rows, n);
      LinksReach(b.links, n, n + 2, rows, n + 1);
      ContextIsRows(t, |b.ledger.conflicts|, order, rows);
    }
  }

  /**
   On evidence seen for the first time the machine publishes what the table of thresholds says of the rows' fused
   strengths, or whatever the operator demands instead; exactly a disputed verdict opens an exception, and only one.
   */
  lemma PipelinePublishesVerdict(b: Book, scope: Scope, rows: seq<Evidence>, later: seq<Evidence>, digest: Digest, order: Order)
    requires Ledger(b.ledger) && FirstSight(b.ledger, scope, digest(rows)) && Permutes(order) && Ascending(rows)
    ensures var s, t := b.ledger, Pipeline(b, scope, rows, later, digest, order).ledger;
      var verdict := Table(Strength(rows, SUPPORTING), Strength(rows, CONTRADICTING));
      && Known(t, scope)
      && Effective(t, scope) == (if Demanded(s, scope).Some? then Demanded(s, scope).value else verdict)
      && t.exceptions == s.exceptions + (if verdict == Disputed then [Exception(|s.conflicts|, Open)] else [])
  {
    PipelineJudges(b, scope, rows, later, digest, order);
    VerdictTable(Support(rows), Contradiction(rows));
    JudgedPublishesVerdict(b.ledger, scope, digest(rows), Support(rows), Contradiction(rows));
  }

  // ------------------------------------------------------------------ reruns

  lemma {:induction false} PriorRunAgrees(a: seq<Run>, b: seq<Run>, scope: Scope, snapshot: string, n: nat)
    requires n <= |a| && n <= |b| && forall i | 0 <= i < n :: Covers(a[i], scope, snapshot) == Covers(b[i], scope, snapshot)
    ensures PriorRun(a, scope, snapshot, n) == PriorRun(b, scope, snapshot, n)
  {
    if n > 0 {
      PriorRunAgrees(a, b, scope, snapshot, n - 1);
    }
  }

  lemma {:induction false} ConflictIsOfRun(rows: seq<Conflict>, run: nat, n: nat)
    requires n <= |rows|
    ensures ConflictOfRun(rows, run, n).Some? ==> rows[ConflictOfRun(rows, run, n).value].run == run
  {
    if n > 0 {
      ConflictIsOfRun(rows, run, n - 1);
    }
  }

  /** A covering run at the end of the table answers the next inference by itself. */
  lemma CoveredIsAnswered(t: State, scope: Scope, snapshot: string, support: real, contradiction: real)
    requires Known(t, scope) && t.runs != [] && Covers(t.runs[|t.runs| - 1], scope, snapshot)
    requires t.runs[|t.runs| - 1].status == Running ==> t.conflicts != [] && t.conflicts[|t.conflicts| - 1].run == |t.runs| - 1
    ensures Infer(t, scope, snapshot, support, contradiction)
         == (t, Success(if t.runs[|t.runs| - 1].status == Running then InConflict(|t.conflicts| - 1) else Answer.Replayed(|t.runs| - 1)))
  {
  }

  /** What detection leaves is found again by the next one, which writes nothing. */
  lemma InferFindsItself(s: State, scope: Scope, snapshot: string, support: real, contradiction: real)
    ensures var (t, r) := Infer(s, scope, snapshot, support, contradiction);
      var (u, again) := Infer(t, scope, snapshot, support, contradiction);
      u == t && (if r.Success? && r.value.InConflict? then again == r else again.Success? ==> !again.value.InConflict?)
  {
    var (t, r) := Infer(s, scope, snapshot, support, contradiction);
    if t != s {
      match Detect(support, contradiction)
      case Conflicting => CoveredIsAnswered(OpenConflict(s, scope, snapshot), scope, snapshot, support, contradiction);
      case Settled(verdict, _) =>
        var asserted := WithAssertion(WithRun(s, Run(scope, snapshot, Succeeded)), Assertion(scope, verdict, Affirm, false));
        PublishMovesView(asserted, scope, |s.assertions|, false);
        CoveredIsAnswered(t, scope, snapshot, support, contradiction);
    }
  }

  /** A publication touches the published states and their log, nothing else. */
  lemma PublishMovesView(s: State, scope: Scope, machine: nat, byOperator: bool)
    requires Known(s, scope) && machine < |s.assertions|
    ensures var t := Publish(s, scope, machine, byOperator);
      t == s.(event := t.event, occurrences := t.occurrences, log := t.log) && t.occurrences.Keys == s.occurrences.Keys
  {
    var demanded := Demanded(s, scope);
    ProjectionMoves(s, scope, if demanded.Some? then demanded.value else s.assertions[machine].validation,
                    demanded.Some? || byOperator || s.assertions[machine].operator);
  }

  /** A rerun after a crash between detection and finalization ends where the uninterrupted run would. */
  lemma RerunAfterCrash(b: Book, scope: Scope, rows: seq<Evidence>, later: seq<Evidence>, digest: Digest, order: Order)
    ensures Pipeline(Detected(b, scope, rows, digest).0, scope, rows, later, digest, order)
         == Pipeline(b, scope, rows, later, digest, order)
  {
    InferFindsItself(b.ledger, scope, digest(rows), Support(rows), Contradiction(rows));
    var t := Detected(b, scope, rows, digest).0;
    assert Detected(t, scope, rows, digest).0 == t;
  }

  /** Finalization either changes nothing or finishes the conflict's run for good. */
  lemma FinalizeFinishes(s: State, c: nat, selected: Option<nat>)
    requires c < |s.conflicts| && s.conflicts[c].run < |s.runs|
    ensures var (t, r) := Finalize(s, c, selected, true);
      && (r.Failure? ==> t == s)
      && (r.Success? ==>
            && t.occurrences.Keys == s.occurrences.Keys
            && t.runs == s.runs[s.conflicts[c].run := s.runs[s.conflicts[c].run].(status := if selected.Some? then Succeeded else Partial)])
  {
    if Finalize(s, c, selected, true).1.Success? {
      var scope := s.conflicts[c].scope;
      if selected.Some? {
        PublishMovesView(Marked(Finished(s, c, Succeeded), c, Agreed, selected), scope, selected.value, false);
      } else {
        PublishMovesView(Marked(WithAssertion(Finished(s, c, Partial), Assertion(scope, Disputed, Affirm, false)), c, Unsettled, None),
                         scope, |s.assertions|, false);
      }
    }
  }

  /** A conflict that detection answers with belongs to the scope's newest covering run, still running. */
  lemma ConflictIsRunning(s: State, scope: Scope, snapshot: string, support: real, contradiction: real)
    requires var r := Infer(s, scope, snapshot, support, contradiction).1; r.Success? && r.value.InConflict?
    ensures var (t, r) := Infer(s, scope, snapshot, support, contradiction); var c := r.value.conflict;
      && Known(t, scope) && c < |t.conflicts| && t.conflicts[c].run < |t.runs|
      && PriorRun(t.runs, scope, snapshot, |t.runs|) == Some(t.conflicts[c].run)
  {
    var (t, r) := Infer(s, scope, snapshot, support, contradiction);
    if t == s {
      var prior := PriorRun(s.runs, scope, snapshot, |s.runs|).value;
      ConflictIsOfRun(s.conflicts, prior, |s.conflicts|);
    } else {
      assert t == OpenConflict(s, scope, snapshot);
    }
  }

  /** Once the conflict's run is finished the same evidence is only replayed. */
  lemma FinishedIsReplayed(t: State, u: State, scope: Scope, snapshot: string, run: nat, status: RunStatus, support: real, contradiction: real)
    requires Known(t, scope) && u.occurrences.Keys == t.occurrences.Keys && (status == Succeeded || status == Partial)
    requires run < |t.runs| && PriorRun(t.runs, scope, snapshot, |t.runs|) == Some(run)
    requires u.runs == t.runs[run := t.runs[run].(status := status)]
    ensures Infer(u, scope, snapshot, support, contradiction) == (u, Success(Answer.Replayed(run)))
  {
    PriorRunAgrees(t.runs, u.runs, scope, snapshot, |t.runs|);
  }

  /** A second run of the pipeline on the same evidence changes nothing, whatever the ledger was and however the first one ended. */
  lemma SecondRunChangesNothing(b: Book, scope: Scope, rows: seq<Evidence>, later: seq<Evidence>, digest: Digest, order: Order)
    ensures var t := Pipeline(b, scope, rows, later, digest, order);
      Pipeline(t, scope, rows, later, digest, order) == t
  {
    var (t, r) := Detected(b, scope, rows, digest);
    var u := Pipeline(b, scope, rows, later, digest, order);
    var snapshot, support, contradiction := digest(rows), Support(rows), Contradiction(rows);
    RerunAfterCrash(b, scope, rows, later, digest, order);
    if r.Success? && r.value.InConflict? {
      var c := r.value.conflict;
      ConflictIsRunning(b.ledger, scope, snapshot, support, contradiction);
      var selected := Picked(t.ledger, c, Judgement(Context(t, c, order)));
      FinalizeFinishes(t.ledger, c, selected);
      if Finalize(t.ledger, c, selected, true).1.Success? {
        FinishedIsReplayed(t.ledger, u.ledger, scope, snapshot, t.ledger.conflicts[c].run,
                           if selected.Some? then Succeeded else Partial, support, contradiction);
      } else {
        assert u == t;
      }
    }
  }

  // ------------------------------------------------------------------ an inference interrupted by operators

  /** A step of an operator or an administrator. */
  predicate Interposes(e: Event) {
    Administers(e) && !e.FailEvent?
  }

  /** What such steps leave of a pending conflict and of the runs. */
  ghost predicate LeavesPending(s: State, t: State, c: nat) {
    && t.runs == s.runs && t.occurrences.Keys == s.occurrences.Keys && s.assertions <= t.assertions
    && |t.conflicts| == |s.conflicts| && (forall k | 0 <= k < |s.conflicts| :: t.conflicts[k].run == s.conflicts[k].run)
    && c < |s.conflicts| && t.conflicts[c] == s.conflicts[c] && !Excepted(t.exceptions, c)
  }

  lemma PublishLeavesPending(s: State, ready: State, scope: Scope, machine: nat, byOperator: bool, c: nat)
    requires LeavesPending(s, ready, c) && Known(ready, scope) && machine < |ready.assertions|
    ensures LeavesPending(s, Publish(ready, scope, machine, byOperator), c)
  {
    PublishMovesView(ready, scope, machine, byOperator);
  }

  lemma SettingLeavesPending(s: State, scope: Scope, validation: Validation, conflict: Option<nat>, kind: OverrideKind, c: nat)
    requires Pending(s, c)
    ensures LeavesPending(s, SetOverride(s, scope, validation, conflict, kind).0, c)
  {
    if SetOverride(s, scope, validation, conflict, kind).1.Success? {
      PublishLeavesPending(s, WithOverride(s, Assertion(scope, validation, Affirm, true), conflict, kind,
                                           NewestOverride(s.overrides, scope, |s.overrides|)), scope, |s.assertions|, false, c);
    }
  }

  lemma WithdrawnLeavesPending(s: State, ready: State, scope: Scope, prior: nat, machine: nat, c: nat)
    requires LeavesPending(s, ready, c) && Known(ready, scope) && prior < |ready.overrides|
    requires ready.overrides[prior].assertion < |ready.assertions| && machine < |ready.assertions|
    ensures LeavesPending(s, Withdrawn(ready, scope, prior, machine), c)
  {
    var row := ready.overrides[prior];
    var a := Assertion(scope, ready.assertions[row.assertion].validation, Withdraw, true);
    PublishLeavesPending(s, WithOverride(ready, a, row.conflict, Withdraws, Some(prior)), scope, machine, true, c);
  }

  lemma WithdrawalLeavesPending(s: State, scope: Scope, c: nat)
    requires Pending(s, c)
    ensures LeavesPending(s, WithdrawOverride(s, scope).0, c)
  {
    if WithdrawOverride(s, scope).1.Success? {
      WithdrawnLeavesPending(s, s, scope, NewestOverride(s.overrides, scope, |s.overrides|).value,
                             LatestMachine(s.assertions, scope, |s.assertions|).value, c);
    }
  }

  /** An exception belongs to another conflict than one that nobody was asked about. */
  lemma ExceptionIsElsewhere(s: State, x: nat, c: nat)
    requires Pending(s, c) && x < |s.exceptions|
    ensures s.exceptions[x].conflict != c
    ensures forall state: ExceptionState :: !Excepted(Excused(s, x, state).exceptions, c)
  {
  }

  lemma ResolutionLeavesPending(s: State, x: nat, choice: Choice, c: nat)
    requires Pending(s, c)
    ensures LeavesPending(s, ResolveException(s, x, choice).0, c)
  {
    if ResolveException(s, x, choice).1.Success? {
      ExceptionIsElsewhere(s, x, c);
      var d := s.exceptions[x].conflict;
      var scope := s.conflicts[d].scope;
      var chosen := if choice.Member? then s.assertions[choice.assertion].validation else choice.validation;
      var overridden := WithOverride(s, Assertion(scope, chosen, Affirm, true), Some(d), if choice.Member? then Selects else Asserts,
                                     NewestOverride(s.overrides, scope, |s.overrides|));
      PublishLeavesPending(s, Excused(Marked(overridden, d, Agreed, Some(|s.assertions|)), x, Resolved), scope, |s.assertions|, false, c);
    }
  }

  lemma AdministrativeLeavesPending(s: State, x: nat, c: nat)
    requires Pending(s, c)
    ensures LeavesPending(s, WithdrawAdministrative(s, x).0, c)
  {
    if WithdrawAdministrative(s, x).1.Success? {
      ExceptionIsElsewhere(s, x, c);
      var d := s.exceptions[x].conflict;
      WithdrawnLeavesPending(s, Excused(Marked(s, d, Unsettled, None), x, Open), s.conflicts[d].scope,
                             NewestOnConflict(s.overrides, d, |s.overrides|).value,
                             LatestMachine(s.assertions, s.conflicts[d].scope, |s.assertions|).value, c);
    }
  }

  lemma StepLeavesPending(s: State, e: Event, c: nat)
    requires Pending(s, c) && Interposes(e)
    ensures LeavesPending(s, Apply(s, e), c)
  {
    match e
    case SetEvent(scope, validation, conflict, kind) => SettingLeavesPending(s, scope, validation, conflict, kind, c);
    case WithdrawEvent(scope) => WithdrawalLeavesPending(s, scope, c);
    case ResolveEvent(x, choice) => ResolutionLeavesPending(s, x, choice, c);
    case WithdrawAdministrativeEvent(x) => AdministrativeLeavesPending(s, x, c);
    case DenyEvent(x, a) =>
    case ActionEvent(x, act) =>
      if Located(s, x) {
        ExceptionIsElsewhere(s, x, c);
      }
  }

  lemma {:induction false} OperatorsLeavePending(s: State, events: seq<Event>, c: nat)
    requires Pending(s, c) && forall k | 0 <= k < |events| :: Interposes(events[k])
    ensures Pending(RunEvents(s, events), c) && LeavesPending(s, RunEvents(s, events), c)
  {
    if events != [] {
      OperatorsLeavePending(s, events[..|events| - 1], c);
      StepLeavesPending(RunEvents(s, events[..|events| - 1]), events[|events| - 1], c);
    }
  }

  /** The conflict that detection opened is found again after such steps, with its rows. */
  lemma {:induction false} ResumedFindsConflict(b: Book, scope: Scope, rows: seq<Evidence>, digest: Digest, order: Order, events: seq<Event>)
    requires Ledger(b.ledger) && FirstSight(b.ledger, scope, digest(rows)) && Permutes(order) && Ascending(rows)
    requires CalendarPipeline.Contested(Support(rows), Contradiction(rows)) && forall k | 0 <= k < |events| :: Interposes(events[k])
    ensures var t, c := Detected(b, scope, rows, digest).0, |b.ledger.conflicts|;
      var u := Book(RunEvents(t.ledger, events), t.links);
      && Ledger(u.ledger) && Pending(u.ledger, c) && u.ledger.conflicts[c].scope == scope
      && Detected(u, scope, rows, digest) == (u, Success(InConflict(c))) && Context(u, c, order) == rows
  {
    var t, c, n := Detected(b, scope, rows, digest).0, |b.ledger.conflicts|, |b.ledger.assertions|;
    assert t.ledger == OpenConflict(b.ledger, scope, digest(rows));
    OpenIsPending(b.ledger, scope, digest(rows));
    OperatorsLeavePending(t.ledger, events, c);
    EventsKeepLedger(t.ledger, events);
    LinksReach(b.links, n, n + 2, rows, n);
    LinksReach(b.links, n, n + 2, rows, n + 1);
    var u := RunEvents(t.ledger, events);
    CoveredIsAnswered(u, scope, digest(rows), Support(rows), Contradiction(rows));
    ContextIsRows(Book(u, t.links), c, order, rows);
  }

  /**
   An inference that is interrupted after it found a conflict, and resumed after whatever operators and administrators
   did meanwhile, publishes the verdict of its evidence, or what the operator demands by then.
   */
  lemma {:induction false} ResumedPublishesVerdict(b: Book, scope: Scope, rows: seq<Evidence>, later: seq<Evidence>, digest: Digest,
                                                   order: Order, events: seq<Event>)
    requires Ledger(b.ledger) && FirstSight(b.ledger, scope, digest(rows)) && Permutes(order) && Ascending(rows)
    requires CalendarPipeline.Contested(Support(rows), Contradiction(rows)) && forall k | 0 <= k < |events| :: Interposes(events[k])
    ensures var t := Detected(b, scope, rows, digest).0; var u := RunEvents(t.ledger, events);
      var v := Pipeline(Book(u, t.links), scope, rows, later, digest, order).ledger;
      var verdict := Table(Strength(rows, SUPPORTING), Strength(rows, CONTRADICTING));
      && Known(v, scope)
      && Effective(v, scope) == (if Demanded(u, scope).Some? then Demanded(u, scope).value else verdict)
      && v.exceptions == u.exceptions + (if verdict == Disputed then [Exception(|b.ledger.conflicts|, Open)] else [])
  {
    ResumedFindsConflict(b, scope, rows, digest, order, events);
    var t := Detected(b, scope, rows, digest).0;
    VerdictTable(Support(rows), Contradiction(rows));
    PendingPublishes(RunEvents(t.ledger, events), |b.ledger.conflicts|, Support(rows), Contradiction(rows));
  }

  // ------------------------------------------------------------------ what a withdrawal exposes

  /**
   The documented law that a withdrawal exposes the newest machine-derived state, made exact. After the pipeline has
   reached its verdict on the rows, and whatever operators and administrators do meanwhile, a withdrawal by either publishes that
   verdict if and only if the evidence was not a conflict decided for support; then it publishes `rejected`.
   */
  lemma {:induction false} WithdrawalExposesVerdictIff(b: Book, scope: Scope, rows: seq<Evidence>, later: seq<Evidence>, digest: Digest,
                                                       order: Order, events: seq<Event>, e: Event)
    requires Ledger(b.ledger) && FirstSight(b.ledger, scope, digest(rows)) && Permutes(order) && Ascending(rows)
    requires forall k | 0 <= k < |events| :: Administers(events[k])
    requires WithdrawsOn(RunEvents(Pipeline(b, scope, rows, later, digest, order).ledger, events), e, scope)
    ensures var t := Apply(RunEvents(Pipeline(b, scope, rows, later, digest, order).ledger, events), e);
      var support, contradiction := Strength(rows, SUPPORTING), Strength(rows, CONTRADICTING);
      var forSupport := contradiction >= 0.40 && support >= contradiction + 0.35;
      && Known(t, scope)
      && (Effective(t, scope) == Table(support, contradiction) <==> !forSupport)
      && (forSupport ==> Effective(t, scope) == Rejected)
  {
    PipelineJudges(b, scope, rows, later, digest, order);
    VerdictTable(Support(rows), Contradiction(rows));
    JudgedIsExposedIff(b.ledger, scope, digest(rows), Support(rows), Contradiction(rows), events, e);
  }

  const STRONG := Evidence(1, "strong", Supports, 0.9, 1.0)
  const WEAK := Evidence(2, "weak", Contradicts, 0.4, 1.0)

  lemma {:induction false} OneMoreRow(rows: seq<Evidence>, e: Evidence, kinds: set<Kind>)
    ensures Remaining(rows + [e], kinds) == Remaining(rows, kinds) * Doubt(kinds)(e)
  {
    assert (rows + [e])[..|rows|] == rows;
  }

  lemma ExampleStrengths()
    ensures Ascending([STRONG, WEAK])
    ensures Support([STRONG, WEAK]) == 0.9 && Contradiction([STRONG, WEAK]) == 0.4
  {
    assert [] + [STRONG] == [STRONG] && [STRONG] + [WEAK] == [STRONG, WEAK];
    forall kinds: set<Kind> | kinds == SUPPORTING || kinds == CONTRADICTING
      ensures Remaining([STRONG, WEAK], kinds) == Doubt(kinds)(STRONG) * Doubt(kinds)(WEAK)
    {
      OneMoreRow([], STRONG, kinds);
      OneMoreRow([STRONG], WEAK, kinds);
    }
    assert Doubt(SUPPORTING)(STRONG) == 0.1 && Doubt(SUPPORTING)(WEAK) == 1.0;
    assert Doubt(CONTRADICTING)(STRONG) == 1.0 && Doubt(CONTRADICTING)(WEAK) == 0.6;
  }

  /** A run in which the law fails: the machine decides for `probable`, the operator overrides and withdraws, and `rejected` shows. */
  lemma WithdrawalCanExposeRejected(digest: Digest, order: Order)
    requires Permutes(order)
    ensures var rows := [STRONG, WEAK];
      var machine := Pipeline(Book(Start(Candidate, map[]), map[]), None, rows, rows, digest, order).ledger;
      var overridden := Apply(machine, SetEvent(None, Confirmed, None, Asserts));
      var withdrawn := Apply(overridden, WithdrawEvent(None));
      && machine.event == Probable && overridden.event == Confirmed && withdrawn.event == Rejected
  {
    var rows := [STRONG, WEAK];
    var s := Start(Candidate, map[]);
    RunsKeepLedger(Candidate, map[], []);
    ExampleStrengths();
    PipelineJudges(Book(s, map[]), None, rows, rows, digest, order);
    JudgedPublishesVerdict(s, None, digest(rows), 0.9, 0.4);
    JudgedLeaves(s, None, digest(rows), 0.9, 0.4);
    JudgedKeepsLedger(s, None, digest(rows), 0.9, 0.4);
    NoOverridesYet(s, digest(rows), 0.9, 0.4);
    OverrideThenWithdraw(Judged(s, None, digest(rows), 0.9, 0.4), Rejected);
  }
}
