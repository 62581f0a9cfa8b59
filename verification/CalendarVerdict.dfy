/** Detection, the two internal passes and the disabled external route: what the machine concludes from the evidence. */
module CalendarVerdict {
  import opened Prelude
  import opened CalendarPath
  import opened CalendarFusion

  // ------------------------------------------------------------------ the evidence both stages see

  ghost predicate Ascending(rows: seq<Evidence>) {
    forall i, j | 0 <= i < j < |rows| :: rows[i].id < rows[j].id
  }

  /** Put a row at its place by identifier, over a row with the same identifier. */
  function Inserted(rows: seq<Evidence>, e: Evidence): seq<Evidence> {
    if rows == [] then [e]
    else if e.id == rows[0].id then [e] + rows[1..]
    else if e.id < rows[0].id then [e] + rows
    else [rows[0]] + Inserted(rows[1..], e)
  }

  function Rebuilt(links: seq<Evidence>): seq<Evidence> {
    if links == [] then [] else Inserted(Rebuilt(links[..|links| - 1]), links[|links| - 1])
  }

  lemma {:induction false} InsertedMembers(rows: seq<Evidence>, e: Evidence, x: Evidence)
    requires Ascending(rows)
    ensures x in Inserted(rows, e) <==> x == e || (x in rows && x.id != e.id)
  {
    if rows != [] {
      assert rows == [rows[0]] + rows[1..];
      if e.id > rows[0].id {
        InsertedMembers(rows[1..], e, x);
      }
    }
  }

  lemma {:induction false} InsertedAscends(rows: seq<Evidence>, e: Evidence)
    requires Ascending(rows)
    ensures Ascending(Inserted(rows, e))
  {
    if rows != [] && e.id > rows[0].id {
      var rest := Inserted(rows[1..], e);
      InsertedAscends(rows[1..], e);
      forall j | 0 <= j < |rest| ensures rows[0].id < rest[j].id {
        InsertedMembers(rows[1..], e, rest[j]);
      }
    }
  }

  /** Rows are told apart by their identifiers. */
  ghost predicate Identified(rows: seq<Evidence>) {
    forall x, y | x in rows && y in rows && x.id == y.id :: x == y
  }

  lemma {:induction false} RebuiltHolds(links: seq<Evidence>)
    requires Identified(links)
    ensures Ascending(Rebuilt(links)) && forall x :: x in Rebuilt(links) <==> x in links
  {
    if links != [] {
      var most := links[..|links| - 1];
      assert links == most + [links[|links| - 1]];
      RebuiltHolds(most);
      InsertedAscends(Rebuilt(most), links[|links| - 1]);
      forall x ensures x in Rebuilt(links) <==> x in links {
        InsertedMembers(Rebuilt(most), links[|links| - 1], x);
      }
    }
  }

  /** The context of a resolution: the rows linked to the competing assertions, each once, by identifier. */
  method RebuildEvidence(links: seq<Evidence>) returns (rows: seq<Evidence>)
    ensures rows == Rebuilt(links)
    ensures Identified(links) ==> Ascending(rows) && forall x :: x in rows <==> x in links
  {
    rows := [];
    for i := 0 to |links|
      invariant rows == Rebuilt(links[..i])
    {
      assert links[..i + 1][..i] == links[..i];
      rows := Inserted(rows, links[i]);
    }
    assert links[..|links|] == links;
    if Identified(links) {
      RebuiltHolds(links);
    }
  }

  lemma HasMember(rows: seq<Evidence>)
    ensures rows != [] <==> exists x :: x in rows
  {
    if rows != [] {
      assert rows[0] in rows;
    }
  }

  lemma {:induction false} AscendingIsUnique(a: seq<Evidence>, b: seq<Evidence>)
    requires Ascending(a) && Ascending(b) && forall x :: x in a <==> x in b
    ensures a == b
    decreases |a|
  {
    HasMember(b);
    if a != [] {
      assert a[0] in b && b != [];
      assert b[0] in a;
      assert a[0] == b[0];
      assert a == [a[0]] + a[1..] && b == [b[0]] + b[1..];
      forall x ensures x in a[1..] <==> x in b[1..] {
        assert x in a[1..] ==> x in a && x != a[0];
        assert x in b[1..] ==> x in b && x != b[0];
      }
      AscendingIsUnique(a[1..], b[1..]);
    }
  }

  /** Adjudication sees exactly the rows detection saw, so both compute the same support and contradiction. */
  lemma SameEvidence(rows: seq<Evidence>, links: seq<Evidence>)
    requires Ascending(rows) && forall x :: x in links <==> x in rows
    ensures Rebuilt(links) == rows
    ensures Strength(Rebuilt(links), SUPPORTING) == Strength(rows, SUPPORTING)
    ensures Strength(Rebuilt(links), CONTRADICTING) == Strength(rows, CONTRADICTING)
  {
    RebuiltHolds(links);
    AscendingIsUnique(Rebuilt(links), rows);
  }

  // ------------------------------------------------------------------ detection

  datatype Finding = Conflicting | Settled(state: Validation, confidence: real)

  function Larger(a: real, b: real): real {
    if a >= b then a else b
  }

  function Smaller(a: real, b: real): real {
    if a <= b then a else b
  }

  function Detect(support: real, contradiction: real): Finding {
    if support >= 0.40 && contradiction >= 0.40 then Conflicting
    else if support >= 0.85 && contradiction < 0.25 then Settled(Verified, support)
    else if support >= 0.60 && contradiction < 0.35 then Settled(Probable, support)
    else if contradiction >= 0.75 && support < 0.35 then Settled(Rejected, contradiction)
    else Settled(Candidate, Larger(support, contradiction))
  }

  // ------------------------------------------------------------------ adjudication

  datatype Decision = ForState(state: Validation, confidence: real) | Unresolved(confidence: real)

  const EVIDENCE_RECONCILIATION := "evidence-reconciliation"
  const ADVERSARIAL_REVIEW := "adversarial-canonical-review"

  /** The deterministic adapter; None stands for the unavailable service of an unknown strategy or version. */
  function Resolve(support: real, contradiction: real, candidates: set<Validation>, strategy: string, version: string)
    : Option<Decision>
  {
    var selected := if support > contradiction then Probable else Rejected;
    var margin := Larger(support, contradiction) - Smaller(support, contradiction);
    if version != "1" then None
    else if strategy == EVIDENCE_RECONCILIATION then
      Some(if selected in candidates && margin >= 0.35 then ForState(selected, margin) else Unresolved(margin))
    else if strategy == ADVERSARIAL_REVIEW then
      Some(if selected in candidates && Smaller(support, contradiction) < 0.20 && margin >= 0.50
           then ForState(selected, margin) else Unresolved(margin))
    else None
  }

  /** A conflict through both passes and the disabled external route; the last decision stands. */
  function Adjudicate(support: real, contradiction: real): Decision {
    var candidates := {Probable, Rejected};
    var first := Resolve(support, contradiction, candidates, EVIDENCE_RECONCILIATION, "1").value;
    if first.ForState? then first
    else Resolve(support, contradiction, candidates, ADVERSARIAL_REVIEW, "1").value
  }

  /** What the machine publishes on its own, from detection to the end of adjudication. */
  function MachineVerdict(support: real, contradiction: real): Validation {
    match Detect(support, contradiction)
    case Settled(state, _) => state
    case Conflicting =>
      match Adjudicate(support, contradiction)
      case ForState(state, _) => state
      case Unresolved(_) => Disputed
  }

  // ------------------------------------------------------------------ what each step decides

  /** `m` is how far apart the two strengths are. */
  predicate Apart(support: real, contradiction: real, m: real) {
    m >= 0.0 && (support - contradiction == m || contradiction - support == m)
  }

  /**
   The adapter is unavailable for another version or strategy. It decides for `probable` when support is the stronger
   side and for `rejected` otherwise, if that is a candidate and the sides are 0.35 apart, or 0.50 with the weaker one
   below 0.20 in the adversarial review; how far apart they are is its confidence either way.
   */
  lemma ResolveExactly(support: real, contradiction: real, candidates: set<Validation>, strategy: string, version: string, m: real)
    requires Apart(support, contradiction, m)
    ensures var d := Resolve(support, contradiction, candidates, strategy, version);
      var stronger := if support > contradiction then Probable else Rejected;
      if version != "1" || (strategy != "evidence-reconciliation" && strategy != "adversarial-canonical-review") then d.None?
      else
        var decides := stronger in candidates
          && if strategy == "evidence-reconciliation" then m >= 0.35 else m >= 0.50 && (support < 0.20 || contradiction < 0.20);
        d == Some(if decides then ForState(stronger, m) else Unresolved(m))
  {
  }

  /** Detection is as confident as the side it decides for, and as the stronger one when it leaves a candidate. */
  lemma DetectionConfidence(support: real, contradiction: real)
    requires Detect(support, contradiction).Settled?
    ensures match Detect(support, contradiction).state
      case Rejected => Detect(support, contradiction).confidence == contradiction
      case Candidate =>
        var c := Detect(support, contradiction).confidence; (c == support || c == contradiction) && c >= support && c >= contradiction
      case _ => Detect(support, contradiction).confidence == support
  {
  }

  // ------------------------------------------------------------------ what the thresholds amount to

  /** Where detection finds a conflict the second pass never settles what the first left open. */
  lemma SecondPassNeverResolves(support: real, contradiction: real)
    requires 0.40 <= support <= 1.0 && 0.40 <= contradiction <= 1.0
    ensures Resolve(support, contradiction, {Probable, Rejected}, ADVERSARIAL_REVIEW, "1").value.Unresolved?
    ensures Adjudicate(support, contradiction).ForState? <==> support - contradiction >= 0.35 || contradiction - support >= 0.35
  {
  }

  /** The thresholds of both stages together. */
  function Table(support: real, contradiction: real): Validation {
    if support < 0.40 || contradiction < 0.40 then
      if support >= 0.85 && contradiction < 0.25 then Verified
      else if support >= 0.60 && contradiction < 0.35 then Probable
      else if contradiction >= 0.75 && support < 0.35 then Rejected
      else Candidate
    else if support >= contradiction + 0.35 then Probable
    else if contradiction >= support + 0.35 then Rejected
    else Disputed
  }

  /** The verdict as a table over all strengths, with the confidence of every decision between zero and one. */
  lemma VerdictTable(support: real, contradiction: real)
    requires 0.0 <= support <= 1.0 && 0.0 <= contradiction <= 1.0
    ensures MachineVerdict(support, contradiction) == Table(support, contradiction)
    ensures 0.0 <= Adjudicate(support, contradiction).confidence <= 1.0
  {
  }

  /**
   The verdict is not monotone: raising the contradiction alone turns an undecided candidate into a probable
   event exactly when it crosses the conflict threshold with a wide enough margin left.
   */
  lemma MoreContradictionCanPromote(support: real, less: real, more: real)
    requires 0.0 <= support <= 1.0 && 0.0 <= less < more <= 1.0
    ensures MachineVerdict(support, less) == Candidate && MachineVerdict(support, more) == Probable
       <==> 0.35 <= less < 0.40 <= more <= support - 0.35
  {
  }

  /** One more contradicting row can do it. */
  lemma PromotionExample()
    ensures MachineVerdict(0.75, 0.39) == Candidate && MachineVerdict(0.75, 0.40) == Probable
  {
    MoreContradictionCanPromote(0.75, 0.39, 0.40);
  }

  /** The machine's verdict depends on the evidence rows alone, not on the order they are read in. */
  lemma VerdictIgnoresOrder(a: seq<Evidence>, b: seq<Evidence>)
    requires multiset(a) == multiset(b)
    ensures MachineVerdict(Strength(a, SUPPORTING), Strength(a, CONTRADICTING))
         == MachineVerdict(Strength(b, SUPPORTING), Strength(b, CONTRADICTING))
  {
    OrderIsIrrelevant(a, b, SUPPORTING);
    OrderIsIrrelevant(a, b, CONTRADICTING);
  }
}
