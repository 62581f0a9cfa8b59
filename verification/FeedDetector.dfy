/** The streaming feed scan, proved against the element tree whose start and end events it reads. */
module FeedDetector {
  import opened Prelude

  const MAX_FEED_BYTES: int := 10 * 1024 * 1024
  const MAX_ELEMENTS: int := 200_000
  const MAX_DEPTH: int := 64
  const MAX_ATTRIBUTES: int := 256

  const ATOM := "{http://www.w3.org/2005/Atom}"
  const RDF := "{http://www.w3.org/1999/02/22-rdf-syntax-ns#}"
  const RSS_1 := "{http://purl.org/rss/1.0/}"

  datatype Event = StartOf(tag: string, attributes: nat) | EndOf

  /** What the XML reader delivers: events, then the end of the document or a syntax error. */
  datatype Stream = Stream(events: seq<Event>, complete: bool)

  datatype Format = Rss | Atom

  datatype Verdict = Accepted(format: Format, elementCount: nat, root: string) | Rejected(reason: string)

  // ------------------------------------------------------------------ trees

  datatype Element = Element(tag: string, attributes: nat, children: seq<Element>)

  function Events(e: Element): seq<Event>
    decreases e
  {
    [StartOf(e.tag, e.attributes)] + AllEvents(e.children) + [EndOf]
  }

  function AllEvents(es: seq<Element>): seq<Event>
    decreases es
  {
    if es == [] then [] else Events(es[0]) + AllEvents(es[1..])
  }

  function Size(e: Element): nat
    decreases e
  {
    1 + Sizes(e.children)
  }

  function Sizes(es: seq<Element>): nat
    decreases es
  {
    if es == [] then 0 else Size(es[0]) + Sizes(es[1..])
  }

  function Height(e: Element): nat
    decreases e
  {
    1 + Heights(e.children)
  }

  function Heights(es: seq<Element>): nat
    decreases es
  {
    if es == [] then 0 else
      var h, rest := Height(es[0]), Heights(es[1..]);
      if h < rest then rest else h
  }

  function WidestAttributes(e: Element): nat
    decreases e
  {
    var inner := WidestOf(e.children);
    if e.attributes < inner then inner else e.attributes
  }

  function WidestOf(es: seq<Element>): nat
    decreases es
  {
    if es == [] then 0 else
      var a, rest := WidestAttributes(es[0]), WidestOf(es[1..]);
      if a < rest then rest else a
  }

  predicate HasChild(e: Element, tag: string) {
    exists k | 0 <= k < |e.children| :: e.children[k].tag == tag
  }

  /** The kind of feed a root element with these children is; Atom as in section 4.1.1 of RFC 4287. */
  function FeedKind(e: Element): Option<Format> {
    var channel := HasChild(e, "channel") || HasChild(e, RSS_1 + "channel");
    if e.tag == "rss" && channel then Some(Rss)
    else if e.tag == ATOM + "feed" && HasChild(e, ATOM + "title") && HasChild(e, ATOM + "id") && HasChild(e, ATOM + "updated")
    then Some(Atom)
    else if e.tag == RDF + "RDF" && channel then Some(Rss)
    else None
  }

  // ------------------------------------------------------------------ the scan

  datatype Scanner = Scanner(depth: int, count: nat, root: Option<string>, channel: bool, title: bool, id: bool, updated: bool)

  datatype Progress = Going(scanner: Scanner) | Stopped(reason: string)

  const FRESH := Scanner(0, 0, None, false, false, false, false)

  predicate IsChannel(tag: string) {
    tag == "channel" || tag == RSS_1 + "channel"
  }

  /** A start event one level further down. */
  function Enter(s: Scanner, tag: string, attributes: nat): Progress {
    var t := s.(depth := s.depth + 1, count := s.count + 1);
    if t.depth > MAX_DEPTH || t.count > MAX_ELEMENTS then Stopped("feed_structure_limit_exceeded")
    else if attributes > MAX_ATTRIBUTES then Stopped("feed_attribute_limit_exceeded")
    else if t.root.None? then Going(t.(root := Some(tag)))
    else if t.depth == 2 then
      Going(t.(channel := t.channel || IsChannel(tag), title := t.title || tag == ATOM + "title",
               id := t.id || tag == ATOM + "id", updated := t.updated || tag == ATOM + "updated"))
    else Going(t)
  }

  function Scan(s: Scanner, events: seq<Event>): Progress
    decreases events
  {
    if events == [] then Going(s)
    else match events[0]
      case EndOf => Scan(s.(depth := s.depth - 1), events[1..])
      case StartOf(tag, attributes) =>
        var p := Enter(s, tag, attributes);
        if p.Stopped? then p else Scan(p.scanner, events[1..])
  }

  function Recognized(s: Scanner): Option<Format> {
    if s.root == Some("rss") && s.channel then Some(Rss)
    else if s.root == Some(ATOM + "feed") && s.title && s.id && s.updated then Some(Atom)
    else if s.root == Some(RDF + "RDF") && s.channel then Some(Rss)
    else None
  }

  function Conclude(p: Progress, complete: bool): Verdict {
    if p.Stopped? then Rejected(p.reason)
    else if !complete then Rejected("feed_xml_malformed")
    else if Recognized(p.scanner).None? || p.scanner.root.None? then Rejected("feed_root_unrecognized")
    else Accepted(Recognized(p.scanner).value, p.scanner.count, p.scanner.root.value)
  }

  function Upper(b: Byte): Byte {
    if 97 <= b <= 122 then b - 32 else b
  }

  predicate MatchesAt(payload: Bytes, pattern: Bytes, i: nat) {
    i + |pattern| <= |payload| && forall k | 0 <= k < |pattern| :: Upper(payload[i + k]) == pattern[k]
  }

  /** The pattern, in capitals, occurs in the payload in any letter case. */
  predicate Mentions(payload: Bytes, pattern: Bytes) {
    exists i: nat | i <= |payload| :: MatchesAt(payload, pattern, i)
  }

  const DOCTYPE: Bytes := [60, 33, 68, 79, 67, 84, 89, 80, 69]
  const ENTITY: Bytes := [60, 33, 69, 78, 84, 73, 84, 89]

  function Precheck(payload: Bytes): Option<string> {
    if |payload| == 0 || |payload| > MAX_FEED_BYTES then Some("feed_size_invalid")
    else if 0 in payload then Some("feed_encoding_unsupported")
    else if Mentions(payload, DOCTYPE) || Mentions(payload, ENTITY) then Some("feed_unsafe_xml_declaration")
    else None
  }

  function Detect(payload: Bytes, stream: Stream): Verdict {
    if Precheck(payload).Some? then Rejected(Precheck(payload).value)
    else Conclude(Scan(FRESH, stream.events), stream.complete)
  }

  /** The event loop of `_detect_feed`. */
  method DetectFeed(payload: Bytes, stream: Stream) returns (v: Verdict)
    ensures v == Detect(payload, stream)
  {
    var refused := Precheck(payload);
    if refused.Some? {
      return Rejected(refused.value);
    }
    var depth, count, root: Option<string> := 0, 0, None;
    var channel, title, id, updated := false, false, false, false;
    var events := stream.events;
    for i := 0 to |events|
      invariant 0 <= count
      invariant Scan(FRESH, events) == Scan(Scanner(depth, count, root, channel, title, id, updated), events[i..])
    {
      assert events[i..][1..] == events[i + 1..];
      match events[i]
      case EndOf => depth := depth - 1;
      case StartOf(tag, attributes) =>
        depth, count := depth + 1, count + 1;
        if depth > MAX_DEPTH || count > MAX_ELEMENTS {
          return Rejected("feed_structure_limit_exceeded");
        }
        if attributes > MAX_ATTRIBUTES {
          return Rejected("feed_attribute_limit_exceeded");
        }
        if root.None? {
          root := Some(tag);
        } else if depth == 2 {
          channel := channel || IsChannel(tag);
          title := title || tag == ATOM + "title";
          id := id || tag == ATOM + "id";
          updated := updated || tag == ATOM + "updated";
        }
    }
    v := Conclude(Going(Scanner(depth, count, root, channel, title, id, updated)), stream.complete);
  }

  // ------------------------------------------------------------------ the scan of a tree visits its nodes in document order

  datatype Node = Node(depth: int, tag: string, attributes: nat)

  function Nodes(e: Element, depth: int): seq<Node>
    decreases e
  {
    [Node(depth, e.tag, e.attributes)] + AllNodes(e.children, depth + 1)
  }

  function AllNodes(es: seq<Element>, depth: int): seq<Node>
    decreases es
  {
    if es == [] then [] else Nodes(es[0], depth) + AllNodes(es[1..], depth)
  }

  /** Visit the nodes one after the other, each at its own depth. */
  function Visit(s: Scanner, nodes: seq<Node>): Progress
    decreases nodes
  {
    if nodes == [] then Going(s)
    else
      var p := Enter(s.(depth := nodes[0].depth - 1), nodes[0].tag, nodes[0].attributes);
      if p.Stopped? then p else Visit(p.scanner, nodes[1..])
  }

  lemma {:induction false} VisitConcat(s: Scanner, a: seq<Node>, b: seq<Node>)
    ensures Visit(s, a + b) == (var p := Visit(s, a); if p.Stopped? then p else Visit(p.scanner, b))
    decreases a
  {
    if a == [] {
      assert a + b == b;
    } else {
      assert (a + b)[1..] == a[1..] + b;
      var p := Enter(s.(depth := a[0].depth - 1), a[0].tag, a[0].attributes);
      if p.Going? {
        VisitConcat(p.scanner, a[1..], b);
      }
    }
  }

  /** Where a scan goes on after a subtree: what the visit gathered, back at the depth it started from. */
  function Resume(p: Progress, depth: int, rest: seq<Event>): Progress {
    if p.Stopped? then p else Scan(p.scanner.(depth := depth), rest)
  }

  lemma ScanOne(s: Scanner, events: seq<Event>, rest: seq<Event>)
    requires events != [] && events[1..] == rest
    ensures Scan(s, events)
         == match events[0]
            case EndOf => Scan(s.(depth := s.depth - 1), rest)
            case StartOf(tag, attributes) =>
              (var p := Enter(s, tag, attributes); if p.Stopped? then p else Scan(p.scanner, rest))
  {
  }

  /** The events of an element, what follows it included: its start, its children, its end. */
  lemma EventsSplit(e: Element, rest: seq<Event>)
    ensures var all := Events(e) + rest;
      all != [] && all[0] == StartOf(e.tag, e.attributes) && all[1..] == AllEvents(e.children) + ([EndOf] + rest)
  {
    assert Events(e) + rest == [StartOf(e.tag, e.attributes)] + (AllEvents(e.children) + ([EndOf] + rest));
  }

  lemma EndSplit(rest: seq<Event>)
    ensures var all := [EndOf] + rest; all[0] == EndOf && all[1..] == rest
  {
  }

  lemma VisitOne(s: Scanner, nodes: seq<Node>, rest: seq<Node>)
    requires nodes != [] && nodes[1..] == rest
    ensures Visit(s, nodes)
         == (var p := Enter(s.(depth := nodes[0].depth - 1), nodes[0].tag, nodes[0].attributes);
             if p.Stopped? then p else Visit(p.scanner, rest))
  {
  }

  lemma NodesSplit(e: Element, depth: int)
    ensures var all := Nodes(e, depth);
      all != [] && all[0] == Node(depth, e.tag, e.attributes) && all[1..] == AllNodes(e.children, depth + 1)
  {
  }

  lemma EnterDescends(s: Scanner, tag: string, attributes: nat)
    ensures Enter(s, tag, attributes).Going? ==> Enter(s, tag, attributes).scanner.depth == s.depth + 1
  {
  }

  lemma {:induction false} ScanVisits(e: Element, s: Scanner, rest: seq<Event>)
    ensures Scan(s, Events(e) + rest) == Resume(Visit(s, Nodes(e, s.depth + 1)), s.depth, rest)
    decreases e, 1
  {
    var p := Enter(s, e.tag, e.attributes);
    EventsSplit(e, rest);
    NodesSplit(e, s.depth + 1);
    ScanOne(s, Events(e) + rest, AllEvents(e.children) + ([EndOf] + rest));
    VisitOne(s, Nodes(e, s.depth + 1), AllNodes(e.children, s.depth + 2));
    assert s.(depth := s.depth + 1 - 1) == s;
    EnterDescends(s, e.tag, e.attributes);
    if p.Going? {
      ScanInside(e, p.scanner, s.depth, rest);
    }
  }

  /** The children, then the end of the element. */
  lemma {:induction false} ScanInside(e: Element, s: Scanner, depth: int, rest: seq<Event>)
    requires s.depth == depth + 1
    ensures Scan(s, AllEvents(e.children) + ([EndOf] + rest)) == Resume(Visit(s, AllNodes(e.children, depth + 2)), depth, rest)
    decreases e, 0
  {
    ScanVisitsAll(e.children, s, [EndOf] + rest);
    var q := Visit(s, AllNodes(e.children, depth + 2));
    if q.Going? {
      EndSplit(rest);
      ScanOne(q.scanner.(depth := depth + 1), [EndOf] + rest, rest);
    }
  }

  lemma {:induction false} ScanVisitsAll(es: seq<Element>, s: Scanner, rest: seq<Event>)
    ensures Scan(s, AllEvents(es) + rest) == Resume(Visit(s, AllNodes(es, s.depth + 1)), s.depth, rest)
    decreases es, 0
  {
    if es == [] {
      assert AllEvents(es) + rest == rest;
      assert s.(depth := s.depth) == s;
    } else {
      var later := AllEvents(es[1..]) + rest;
      assert AllEvents(es) + rest == Events(es[0]) + later;
      ScanVisits(es[0], s, later);
      var p := Visit(s, Nodes(es[0], s.depth + 1));
      VisitConcat(s, Nodes(es[0], s.depth + 1), AllNodes(es[1..], s.depth + 1));
      if p.Going? {
        ScanVisitsAll(es[1..], p.scanner.(depth := s.depth), rest);
        VisitIgnoresDepth(p.scanner, s.depth, AllNodes(es[1..], s.depth + 1));
      }
    }
  }

  /** Only the depth of the next node matters to a visit; without one the depth is carried along. */
  lemma VisitIgnoresDepth(s: Scanner, depth: int, nodes: seq<Node>)
    ensures var p, q := Visit(s, nodes), Visit(s.(depth := depth), nodes);
      if nodes == [] then p == Going(s) && q == Going(s.(depth := depth)) else p == q
  {
  }

  // ------------------------------------------------------------------ what the visit finds

  /** Why the `ordinal`-th node in document order stops the scan. */
  function Violation(node: Node, ordinal: nat): Option<string> {
    if node.depth > MAX_DEPTH || ordinal > MAX_ELEMENTS then Some("feed_structure_limit_exceeded")
    else if node.attributes > MAX_ATTRIBUTES then Some("feed_attribute_limit_exceeded")
    else None
  }

  /** The first violation in document order. */
  function FirstViolation(nodes: seq<Node>, before: nat): Option<string>
    decreases nodes
  {
    if nodes == [] then None
    else if Violation(nodes[0], before + 1).Some? then Violation(nodes[0], before + 1)
    else FirstViolation(nodes[1..], before + 1)
  }

  predicate At(nodes: seq<Node>, depth: int, tag: string) {
    exists k | 0 <= k < |nodes| :: nodes[k].depth == depth && nodes[k].tag == tag
  }

  lemma AtFirst(nodes: seq<Node>, depth: int, tag: string)
    requires nodes != []
    ensures At(nodes, depth, tag) <==> (nodes[0].depth == depth && nodes[0].tag == tag) || At(nodes[1..], depth, tag)
  {
    if At(nodes, depth, tag) {
      var k :| 0 <= k < |nodes| && nodes[k].depth == depth && nodes[k].tag == tag;
      assert k > 0 ==> nodes[1..][k - 1] == nodes[k];
    }
    if At(nodes[1..], depth, tag) {
      var k :| 0 <= k < |nodes[1..]| && nodes[1..][k].depth == depth && nodes[1..][k].tag == tag;
      assert nodes[k + 1] == nodes[1..][k];
    }
  }

  /** The flag is up if it was before or a node at depth two has the tag. */
  predicate Raised(before: bool, after: bool, nodes: seq<Node>, tag: string) {
    after <==> before || At(nodes, 2, tag)
  }

  lemma {:induction false} VisitGathers(s: Scanner, nodes: seq<Node>)
    requires s.root.Some?
    ensures var p := Visit(s, nodes);
      && (p.Stopped? <==> FirstViolation(nodes, s.count).Some?)
      && (p.Stopped? ==> p.reason == FirstViolation(nodes, s.count).value)
      && (p.Going? ==> p.scanner.root == s.root && p.scanner.count == s.count + |nodes|)
    decreases nodes
  {
    if nodes != [] {
      var p := Enter(s.(depth := nodes[0].depth - 1), nodes[0].tag, nodes[0].attributes);
      if p.Going? {
        VisitGathers(p.scanner, nodes[1..]);
      }
    }
  }

  lemma {:induction false} VisitRaises(s: Scanner, nodes: seq<Node>)
    requires s.root.Some? && Visit(s, nodes).Going?
    ensures var t := Visit(s, nodes).scanner;
      && Raised(s.title, t.title, nodes, ATOM + "title") && Raised(s.id, t.id, nodes, ATOM + "id")
      && Raised(s.updated, t.updated, nodes, ATOM + "updated")
      && (t.channel <==> s.channel || At(nodes, 2, "channel") || At(nodes, 2, RSS_1 + "channel"))
    decreases nodes
  {
    if nodes != [] {
      var p := Enter(s.(depth := nodes[0].depth - 1), nodes[0].tag, nodes[0].attributes);
      VisitRaises(p.scanner, nodes[1..]);
      AtFirst(nodes, 2, ATOM + "title");
      AtFirst(nodes, 2, ATOM + "id");
      AtFirst(nodes, 2, ATOM + "updated");
      AtFirst(nodes, 2, "channel");
      AtFirst(nodes, 2, RSS_1 + "channel");
    }
  }
}
