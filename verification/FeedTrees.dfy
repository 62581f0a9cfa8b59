/** The feed scan in terms of the document tree alone. */
module FeedTrees {
  import opened Prelude
  import opened FeedDetector

  // ------------------------------------------------------------------ measuring the nodes

  ghost predicate NoDeeper(nodes: seq<Node>, limit: int) {
    forall k | 0 <= k < |nodes| :: nodes[k].depth <= limit
  }

  ghost predicate NoWider(nodes: seq<Node>, limit: int) {
    forall k | 0 <= k < |nodes| :: nodes[k].attributes <= limit
  }

  lemma {:induction false} NodesMeasure(e: Element, depth: int, deepest: int, widest: int)
    ensures |Nodes(e, depth)| == Size(e)
    ensures NoDeeper(Nodes(e, depth), deepest) <==> depth + Height(e) - 1 <= deepest
    ensures NoWider(Nodes(e, depth), widest) <==> WidestAttributes(e) <= widest
    decreases e
  {
    AllNodesMeasure(e.children, depth + 1, deepest, widest);
    var nodes, below := Nodes(e, depth), AllNodes(e.children, depth + 1);
    LimitsSplit([Node(depth, e.tag, e.attributes)], below, deepest, widest);
    LimitsOfOne(Node(depth, e.tag, e.attributes), deepest, widest);
    assert nodes == [Node(depth, e.tag, e.attributes)] + below;
  }

  lemma LimitsOfOne(n: Node, deepest: int, widest: int)
    ensures NoDeeper([n], deepest) <==> n.depth <= deepest
    ensures NoWider([n], widest) <==> n.attributes <= widest
  {
    assert [n][0] == n;
  }

  lemma {:induction false} AllNodesMeasure(es: seq<Element>, depth: int, deepest: int, widest: int)
    ensures |AllNodes(es, depth)| == Sizes(es)
    ensures NoDeeper(AllNodes(es, depth), deepest) <==> es == [] || depth + Heights(es) - 1 <= deepest
    ensures NoWider(AllNodes(es, depth), widest) <==> es == [] || WidestOf(es) <= widest
    ensures (es == [] <==> Heights(es) == 0) && (es == [] ==> WidestOf(es) == 0)
    decreases es
  {
    if es != [] {
      NodesMeasure(es[0], depth, deepest, widest);
      AllNodesMeasure(es[1..], depth, deepest, widest);
      LimitsSplit(Nodes(es[0], depth), AllNodes(es[1..], depth), deepest, widest);
    }
  }

  lemma LimitsSplit(a: seq<Node>, b: seq<Node>, deepest: int, widest: int)
    ensures NoDeeper(a + b, deepest) <==> NoDeeper(a, deepest) && NoDeeper(b, deepest)
    ensures NoWider(a + b, widest) <==> NoWider(a, widest) && NoWider(b, widest)
  {
    assert forall k | 0 <= k < |a| :: (a + b)[k] == a[k];
    assert forall k | 0 <= k < |b| :: (a + b)[|a| + k] == b[k];
  }

  /** Nothing violates a limit exactly when the node list is short, shallow and narrow enough. */
  lemma {:induction false} NoViolationIff(nodes: seq<Node>, before: nat)
    requires before <= MAX_ELEMENTS
    ensures FirstViolation(nodes, before).None?
       <==> before + |nodes| <= MAX_ELEMENTS && NoDeeper(nodes, MAX_DEPTH) && NoWider(nodes, MAX_ATTRIBUTES)
    decreases nodes
  {
    if nodes != [] {
      LimitsSplit([nodes[0]], nodes[1..], MAX_DEPTH, MAX_ATTRIBUTES);
      assert [nodes[0]] + nodes[1..] == nodes;
      if Violation(nodes[0], before + 1).None? {
        NoViolationIff(nodes[1..], before + 1);
      }
    }
  }

  // ------------------------------------------------------------------ the children of the root

  lemma AtConcat(a: seq<Node>, b: seq<Node>, depth: int, tag: string)
    ensures At(a + b, depth, tag) <==> At(a, depth, tag) || At(b, depth, tag)
  {
    if At(a + b, depth, tag) {
      var k :| 0 <= k < |a + b| && (a + b)[k].depth == depth && (a + b)[k].tag == tag;
      assert k < |a| ==> a[k] == (a + b)[k];
      assert k >= |a| ==> b[k - |a|] == (a + b)[k];
    }
    if At(a, depth, tag) {
      var k :| 0 <= k < |a| && a[k].depth == depth && a[k].tag == tag;
      assert (a + b)[k] == a[k];
    }
    if At(b, depth, tag) {
      var k :| 0 <= k < |b| && b[k].depth == depth && b[k].tag == tag;
      assert (a + b)[|a| + k] == b[k];
    }
  }

  lemma {:induction false} NothingAbove(es: seq<Element>, depth: int, above: int, tag: string)
    requires above < depth
    ensures !At(AllNodes(es, depth), above, tag)
    decreases es
  {
    if es != [] {
      var e := es[0];
      NothingAbove(e.children, depth + 1, above, tag);
      NothingAbove(es[1..], depth, above, tag);
      AtConcat([Node(depth, e.tag, e.attributes)], AllNodes(e.children, depth + 1), above, tag);
      AtConcat(Nodes(e, depth), AllNodes(es[1..], depth), above, tag);
    }
  }

  predicate Among(es: seq<Element>, tag: string) {
    exists k | 0 <= k < |es| :: es[k].tag == tag
  }

  /** At their own depth the nodes of a forest are exactly its roots. */
  lemma {:induction false} RootsAtDepth(es: seq<Element>, depth: int, tag: string)
    ensures At(AllNodes(es, depth), depth, tag) <==> Among(es, tag)
    decreases es
  {
    if es != [] {
      var e := es[0];
      RootsAtDepth(es[1..], depth, tag);
      NothingAbove(e.children, depth + 1, depth, tag);
      var head := [Node(depth, e.tag, e.attributes)];
      assert At(head, depth, tag) <==> e.tag == tag by {
        assert head[0].tag == e.tag;
      }
      AtConcat(head, AllNodes(e.children, depth + 1), depth, tag);
      AtConcat(Nodes(e, depth), AllNodes(es[1..], depth), depth, tag);
      assert Among(es, tag) <==> e.tag == tag || Among(es[1..], tag) by {
        if Among(es[1..], tag) {
          var k :| 0 <= k < |es[1..]| && es[1..][k].tag == tag;
          assert es[k + 1].tag == tag;
        }
        if Among(es, tag) && e.tag != tag {
          var k :| 0 <= k < |es| && es[k].tag == tag;
          assert es[1..][k - 1].tag == tag;
        }
      }
    }
  }

  // ------------------------------------------------------------------ the verdict on a document

  /** The document keeps every structural limit. */
  predicate WithinLimits(root: Element) {
    Height(root) <= MAX_DEPTH && Size(root) <= MAX_ELEMENTS && WidestAttributes(root) <= MAX_ATTRIBUTES
  }

  /** What a finished scan of a document has gathered, or the first violation in document order that stopped it. */
  lemma ScanOfDocument(root: Element)
    ensures var p := Scan(FRESH, Events(root)); var nodes := Nodes(root, 1);
      && (p.Stopped? <==> FirstViolation(nodes, 0).Some?)
      && (p.Stopped? ==> p.reason == FirstViolation(nodes, 0).value)
      && (p.Going? ==> p.scanner.count == Size(root) && Recognized(p.scanner) == FeedKind(root) && p.scanner.root == Some(root.tag))
  {
    var nodes, below := Nodes(root, 1), AllNodes(root.children, 2);
    ScanVisits(root, FRESH, []);
    assert Events(root) + [] == Events(root);
    NodesSplit(root, 1);
    VisitOne(FRESH, nodes, below);
    var p := Enter(FRESH, root.tag, root.attributes);
    NodesMeasure(root, 1, 0, 0);
    if p.Going? {
      VisitGathers(p.scanner, below);
      if Visit(p.scanner, below).Going? {
        RootIsRecognized(root, p.scanner);
      }
    }
  }

  lemma RootIsRecognized(root: Element, s: Scanner)
    requires s.root == Some(root.tag) && !s.channel && !s.title && !s.id && !s.updated
    requires Visit(s, AllNodes(root.children, 2)).Going?
    ensures var t := Visit(s, AllNodes(root.children, 2)).scanner;
      t.root == s.root ==> forall depth: int :: Recognized(t.(depth := depth)) == FeedKind(root)
  {
    VisitRaises(s, AllNodes(root.children, 2));
    RootsAtDepth(root.children, 2, "channel");
    RootsAtDepth(root.children, 2, RSS_1 + "channel");
    RootsAtDepth(root.children, 2, ATOM + "title");
    RootsAtDepth(root.children, 2, ATOM + "id");
    RootsAtDepth(root.children, 2, ATOM + "updated");
  }

  /**
   A well-formed document with acceptable bytes is accepted exactly when its tree keeps the three limits and its
   root is one of the known feeds; the report names the format and counts the whole tree.
   */
  lemma DocumentAcceptedIff(payload: Bytes, root: Element)
    requires Precheck(payload).None?
    ensures var v := Detect(payload, Stream(Events(root), true));
      && (v.Accepted? <==> WithinLimits(root) && FeedKind(root).Some?)
      && (v.Accepted? ==> v == Accepted(FeedKind(root).value, Size(root), root.tag))
      && (WithinLimits(root) && FeedKind(root).None? ==> v == Rejected("feed_root_unrecognized"))
      && (!WithinLimits(root) ==>
            FirstViolation(Nodes(root, 1), 0).Some? && v == Rejected(FirstViolation(Nodes(root, 1), 0).value))
  {
    ScanOfDocument(root);
    NodesMeasure(root, 1, MAX_DEPTH, MAX_ATTRIBUTES);
    NoViolationIff(Nodes(root, 1), 0);
  }

  /** A stream that breaks off is never accepted, whatever came before; without a violation it is malformed. */
  lemma {:induction false} BrokenStreamRejected(payload: Bytes, events: seq<Event>)
    ensures Detect(payload, Stream(events, false)).Rejected?
    ensures Precheck(payload).None? && Scan(FRESH, events).Going? ==>
      Detect(payload, Stream(events, false)) == Rejected("feed_xml_malformed")
  {
  }

  lemma {:induction false} ScanConcat(s: Scanner, a: seq<Event>, b: seq<Event>)
    ensures Scan(s, a + b) == (var p := Scan(s, a); if p.Stopped? then p else Scan(p.scanner, b))
    decreases a
  {
    if a == [] {
      assert a + b == b;
    } else {
      assert (a + b)[1..] == a[1..] + b;
      match a[0]
      case EndOf => ScanConcat(s.(depth := s.depth - 1), a[1..], b);
      case StartOf(tag, attributes) =>
        var p := Enter(s, tag, attributes);
        if p.Going? {
          ScanConcat(p.scanner, a[1..], b);
        }
    }
  }

  /** The scan stops at the first violation: what follows it, or whether the rest is well-formed at all, changes nothing. */
  lemma {:induction false} ViolationDecides(payload: Bytes, events: seq<Event>, rest: seq<Event>, complete: bool)
    requires Precheck(payload).None? && Scan(FRESH, events).Stopped?
    ensures Detect(payload, Stream(events + rest, complete)) == Rejected(Scan(FRESH, events).reason)
  {
    ScanConcat(FRESH, events, rest);
  }
}
