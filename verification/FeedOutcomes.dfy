/** The verdict of the feed scan on bytes and document, with every limit, name and reason spelled out. */
module FeedOutcomes {
  import opened Prelude
  import opened FeedDetector
  import opened FeedTrees

  // ------------------------------------------------------------------ the bytes

  /** The word stands in the payload at `i`, in any letter case; both spellings have its length. */
  predicate Spelled(payload: Bytes, i: nat, lower: string, upper: string)
    requires |lower| == |upper|
  {
    i + |lower| <= |payload|
    && forall k | 0 <= k < |lower| :: payload[i + k] as int == lower[k] as int || payload[i + k] as int == upper[k] as int
  }

  /** The pattern is this word in capitals. */
  predicate Encodes(pattern: Bytes, lower: string, upper: string) {
    && |pattern| == |lower| == |upper|
    && forall k | 0 <= k < |pattern| ::
         && pattern[k] as int == upper[k] as int
         && (if 'A' <= upper[k] <= 'Z' then lower[k] as int == upper[k] as int + 32 else lower[k] == upper[k])
         && upper[k] < 'a'
  }

  lemma SpelledIsMatch(payload: Bytes, i: nat, pattern: Bytes, lower: string, upper: string)
    requires Encodes(pattern, lower, upper)
    ensures MatchesAt(payload, pattern, i) <==> Spelled(payload, i, lower, upper)
  {
    if i + |pattern| <= |payload| {
      forall k | 0 <= k < |pattern|
        ensures Upper(payload[i + k]) == pattern[k]
           <==> payload[i + k] as int == lower[k] as int || payload[i + k] as int == upper[k] as int
      {
        assert pattern[k] as int == upper[k] as int;
      }
    }
  }

  /** The payload has a document type or entity declaration. */
  predicate Declares(payload: Bytes) {
    exists i: nat | i <= |payload| :: Spelled(payload, i, "<!doctype", "<!DOCTYPE") || Spelled(payload, i, "<!entity", "<!ENTITY")
  }

  lemma DeclaresIsMention(payload: Bytes)
    ensures Declares(payload) <==> Mentions(payload, DOCTYPE) || Mentions(payload, ENTITY)
  {
    assert Encodes(DOCTYPE, "<!doctype", "<!DOCTYPE");
    assert Encodes(ENTITY, "<!entity", "<!ENTITY");
    forall i: nat | i <= |payload|
      ensures MatchesAt(payload, DOCTYPE, i) <==> Spelled(payload, i, "<!doctype", "<!DOCTYPE")
      ensures MatchesAt(payload, ENTITY, i) <==> Spelled(payload, i, "<!entity", "<!ENTITY")
    {
      SpelledIsMatch(payload, i, DOCTYPE, "<!doctype", "<!DOCTYPE");
      SpelledIsMatch(payload, i, ENTITY, "<!entity", "<!ENTITY");
    }
  }

  /** The size comes first, then a NUL byte, then a declaration; the reader only sees bytes that pass all three. */
  lemma BytesRefusedExactly(payload: Bytes, stream: Stream)
    ensures var v := Detect(payload, stream);
      if |payload| == 0 || |payload| > 10_485_760 then v == Rejected("feed_size_invalid")
      else if 0 in payload then v == Rejected("feed_encoding_unsupported")
      else if Declares(payload) then v == Rejected("feed_unsafe_xml_declaration")
      else Precheck(payload).None?
  {
    DeclaresIsMention(payload);
  }

  // ------------------------------------------------------------------ the document

  predicate Keeps(root: Element) {
    Height(root) <= 64 && Size(root) <= 200_000 && WidestAttributes(root) <= 256
  }

  predicate Has(root: Element, tag: string) {
    exists k | 0 <= k < |root.children| :: root.children[k].tag == tag
  }

  /** RSS, or RDF with a channel, plain or of RSS 1.0. */
  predicate IsRss(root: Element) {
    && (root.tag == "rss" || root.tag == "{http://www.w3.org/1999/02/22-rdf-syntax-ns#}RDF")
    && (Has(root, "channel") || Has(root, "{http://purl.org/rss/1.0/}channel"))
  }

  /** An Atom feed with the elements section 4.1.1 of RFC 4287 demands. */
  predicate IsAtom(root: Element) {
    && root.tag == "{http://www.w3.org/2005/Atom}feed"
    && Has(root, "{http://www.w3.org/2005/Atom}title")
    && Has(root, "{http://www.w3.org/2005/Atom}id")
    && Has(root, "{http://www.w3.org/2005/Atom}updated")
  }

  lemma KindsApart(root: Element)
    ensures FeedKind(root) == if IsRss(root) then Some(Rss) else if IsAtom(root) then Some(Atom) else None
  {
    assert HasChild(root, "channel") == Has(root, "channel");
    assert HasChild(root, RSS_1 + "channel") == Has(root, "{http://purl.org/rss/1.0/}channel");
    assert HasChild(root, ATOM + "title") == Has(root, "{http://www.w3.org/2005/Atom}title");
    assert HasChild(root, ATOM + "id") == Has(root, "{http://www.w3.org/2005/Atom}id");
    assert HasChild(root, ATOM + "updated") == Has(root, "{http://www.w3.org/2005/Atom}updated");
    assert RDF + "RDF" == "{http://www.w3.org/1999/02/22-rdf-syntax-ns#}RDF";
    assert ATOM + "feed" == "{http://www.w3.org/2005/Atom}feed";
    TagsApart(root.tag);
  }

  lemma TagsApart(tag: string)
    ensures tag == "rss" || tag == "{http://www.w3.org/1999/02/22-rdf-syntax-ns#}RDF" ==> tag != "{http://www.w3.org/2005/Atom}feed"
  {
    assert |"{http://www.w3.org/1999/02/22-rdf-syntax-ns#}RDF"| != |"{http://www.w3.org/2005/Atom}feed"|;
  }

  /** A document that keeps the limits is accepted exactly as what it is, with its size and root reported. */
  lemma DocumentJudgedExactly(payload: Bytes, root: Element)
    requires Precheck(payload).None? && Keeps(root)
    ensures Detect(payload, Stream(Events(root), true))
         == if IsRss(root) then Accepted(Rss, Size(root), root.tag)
            else if IsAtom(root) then Accepted(Atom, Size(root), root.tag)
            else Rejected("feed_root_unrecognized")
  {
    DocumentAcceptedIff(payload, root);
    KindsApart(root);
  }

  // ------------------------------------------------------------------ the first violation

  predicate TooMuch(nodes: seq<Node>, k: nat)
    requires k < |nodes|
  {
    nodes[k].depth > 64 || k + 1 > 200_000
  }

  lemma {:induction false} FirstViolationIs(nodes: seq<Node>, before: nat, k: nat)
    requires k < |nodes| && Violation(nodes[k], before + k + 1).Some?
    requires forall j | 0 <= j < k :: Violation(nodes[j], before + j + 1).None?
    ensures FirstViolation(nodes, before) == Violation(nodes[k], before + k + 1)
    decreases k
  {
    if k > 0 {
      assert Violation(nodes[0], before + 1).None?;
      forall j | 0 <= j < k - 1 ensures Violation(nodes[1..][j], before + 1 + j + 1).None? {
        assert Violation(nodes[j + 1], before + (j + 1) + 1).None?;
      }
      FirstViolationIs(nodes[1..], before + 1, k - 1);
    }
  }

  /**
   A document that breaks a limit is rejected for the first node in document order that does: for the structure when it
   lies deeper than 64 or is beyond the 200000th, and else for its attributes.
   */
  lemma FirstOffenderDecides(payload: Bytes, root: Element, k: nat)
    requires Precheck(payload).None? && k < |Nodes(root, 1)|
    requires var nodes := Nodes(root, 1); TooMuch(nodes, k) || nodes[k].attributes > 256
    requires var nodes := Nodes(root, 1); forall j | 0 <= j < k :: !TooMuch(nodes, j) && nodes[j].attributes <= 256
    ensures Detect(payload, Stream(Events(root), true))
         == Rejected(if TooMuch(Nodes(root, 1), k) then "feed_structure_limit_exceeded" else "feed_attribute_limit_exceeded")
  {
    var nodes := Nodes(root, 1);
    assert Violation(nodes[k], 0 + k + 1)
        == Some(if TooMuch(nodes, k) then "feed_structure_limit_exceeded" else "feed_attribute_limit_exceeded");
    forall j | 0 <= j < k ensures Violation(nodes[j], 0 + j + 1).None? {
      assert !TooMuch(nodes, j);
    }
    FirstViolationIs(nodes, 0, k);
    ScanOfDocument(root);
  }
}
