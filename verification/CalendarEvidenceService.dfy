/** One validation of a scope, from its evidence rows to the published state, transaction by transaction. */
module CalendarEvidenceService {
  import opened Prelude
  import opened CalendarPath
  import opened CalendarFusion
  import opened CalendarVerdict
  import opened CalendarScope
  import opened CalendarPipeline
  import opened CalendarEvidence
  import opened CalendarService

  class ValidationRuntime {
    const ledger: EventLedger
    var links: map<nat, seq<Evidence>>

    function Pages(): Book
      reads this, ledger
    {
      Book(ledger.Rows(), links)
    }

    constructor (event: Validation, occurrences: map<nat, Option<Validation>>)
      ensures Pages() == Book(Start(event, occurrences), map[]) && ledger.Valid() && fresh(ledger)
    {
      ledger := new EventLedger(event, occurrences);
      links := map[];
    }

    /** Link the assertions appended since there were `first` of them to the rows. */
    method LinkEvidence(first: nat, rows: seq<Evidence>)
      modifies this`links
      ensures links == Links(old(links), first, |ledger.assertions|, rows)
    {
      var end := first;
      while end < |ledger.assertions|
        invariant first <= end && (end == first || end <= |ledger.assertions|)
        invariant links == Links(old(links), first, end, rows)
      {
        links := links[end := rows];
        end := end + 1;
      }
    }

    /** Fuse both sides, conclude or open a conflict, and link what was asserted: one transaction. */
    method PrepareInference(scope: Scope, rows: seq<Evidence>, digest: Digest) returns (r: Result<Answer, Error>)
      requires ledger.Valid()
      modifies this, ledger
      ensures ledger.Valid() && (Pages(), r) == Detected(old(Pages()), scope, rows, digest)
    {
      var first := |ledger.assertions|;
      var support := FuseStrength(rows, SUPPORTING);
      var contradiction := FuseStrength(rows, CONTRADICTING);
      r := ledger.PrepareInference(scope, digest(rows), support, contradiction);
      LinkEvidence(first, rows);
    }

    /** Read the facts of a conflict back through the links of its two assertions. */
    method ResolutionContext(c: nat, order: Order) returns (facts: seq<Evidence>)
      requires c < |ledger.conflicts|
      ensures facts == Context(Pages(), c, order)
    {
      var row := ledger.conflicts[c];
      facts := RebuildEvidence(order(LinksOf(Pages(), row.supporting)) + order(LinksOf(Pages(), row.rejecting)));
    }

    /** The two internal passes; the external route is disabled. */
    method Adjudicate(facts: seq<Evidence>) returns (decision: Decision)
      ensures decision == Judgement(facts)
    {
      var support := FuseStrength(facts, SUPPORTING);
      var contradiction := FuseStrength(facts, CONTRADICTING);
      decision := Resolve(support, contradiction, {Probable, Rejected}, EVIDENCE_RECONCILIATION, "1").value;
      if decision.Unresolved? {
        decision := Resolve(support, contradiction, {Probable, Rejected}, ADVERSARIAL_REVIEW, "1").value;
      }
    }

    method FinalizeResolution(c: nat, decision: Decision, later: seq<Evidence>)
      requires ledger.Valid() && c < |ledger.conflicts|
      modifies this, ledger
      ensures ledger.Valid() && Pages() == Finalized(old(Pages()), c, decision, later)
    {
      var first := |ledger.assertions|;
      var _ := ledger.FinalizeResolution(c, Picked(ledger.Rows(), c, decision), true);
      LinkEvidence(first, later);
    }

    /** The whole pipeline: detection, and, where it leaves a conflict, adjudication and finalization. */
    method Validate(scope: Scope, rows: seq<Evidence>, later: seq<Evidence>, digest: Digest, order: Order)
      requires ledger.Valid()
      modifies this, ledger
      ensures ledger.Valid() && Pages() == Pipeline(old(Pages()), scope, rows, later, digest, order)
    {
      var r := PrepareInference(scope, rows, digest);
      if r.Success? && r.value.InConflict? && r.value.conflict < |ledger.conflicts| {
        var c := r.value.conflict;
        var facts := ResolutionContext(c, order);
        var decision := Adjudicate(facts);
        FinalizeResolution(c, decision, later);
      }
    }
  }
}
