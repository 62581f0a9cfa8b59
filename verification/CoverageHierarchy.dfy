/** Expanding selected hierarchy nodes to the scope they cover, over any parent relation, cyclic ones included. */
module CoverageHierarchy {
  import opened Prelude

  datatype Selection = Selection(id: int, includeDescendants: bool)

  /** (node, parent) rows. */
  type Hierarchy = seq<(int, Option<int>)>

  function Selected(selections: seq<Selection>): set<int> {
    set k | 0 <= k < |selections| :: selections[k].id
  }

  function Expandable(selections: seq<Selection>): set<int> {
    set k | 0 <= k < |selections| && selections[k].includeDescendants :: selections[k].id
  }

  function ChildrenOf(h: Hierarchy, parent: int): set<int> {
    set k | 0 <= k < |h| && h[k].1 == Some(parent) :: h[k].0
  }

  function NodesOf(h: Hierarchy): set<int> {
    set k | 0 <= k < |h| :: h[k].0
  }

  // ------------------------------------------------------------------ what is covered

  function End(start: int, path: seq<int>): int {
    if path == [] then start else path[|path| - 1]
  }

  /** Descent goes on below a selected node only when its own descendants are included. */
  predicate Passable(selections: seq<Selection>, n: int) {
    n in Selected(selections) ==> n in Expandable(selections)
  }

  /** A path of child edges all of whose nodes but the last let the descent pass. */
  ghost predicate Descends(h: Hierarchy, selections: seq<Selection>, start: int, path: seq<int>) {
    path == [] ||
    (var before := path[..|path| - 1];
     Descends(h, selections, start, before) && Passable(selections, End(start, before))
     && path[|path| - 1] in ChildrenOf(h, End(start, before)))
  }

  /** The node is at the end of a descent from a selection that includes its descendants. */
  ghost predicate Reached(h: Hierarchy, selections: seq<Selection>, n: int) {
    exists start: int, path: seq<int> ::
      start in Expandable(selections) && Descends(h, selections, start, path) && End(start, path) == n
  }

  ghost predicate Covered(h: Hierarchy, selections: seq<Selection>, n: int) {
    n in Selected(selections) || Reached(h, selections, n)
  }

  lemma ChildIsReached(h: Hierarchy, selections: seq<Selection>, n: int, child: int)
    requires Reached(h, selections, n) && Passable(selections, n) && child in ChildrenOf(h, n)
    ensures Reached(h, selections, child)
  {
    var start: int, path: seq<int> :|
      start in Expandable(selections) && Descends(h, selections, start, path) && End(start, path) == n;
    var longer := path + [child];
    assert longer[..|longer| - 1] == path;
    assert Descends(h, selections, start, longer) && End(start, longer) == child;
  }

  lemma ExpandableIsReached(h: Hierarchy, selections: seq<Selection>, n: int)
    requires n in Expandable(selections)
    ensures Reached(h, selections, n)
  {
    var nowhere: seq<int> := [];
    assert Descends(h, selections, n, nowhere) && End(n, nowhere) == n;
  }

  // ------------------------------------------------------------------ the worklist

  /** What holds each time the worklist is inspected. */
  ghost predicate Working(h: Hierarchy, selections: seq<Selection>, pending: seq<int>, result: set<int>) {
    && Selected(selections) <= result <= Selected(selections) + NodesOf(h)
    && (forall n | n in result :: Covered(h, selections, n))
    && (forall p | p in pending :: p in result && Passable(selections, p) && Reached(h, selections, p))
    && (forall e | e in Expandable(selections) :: e in result)
    && (forall n | n in result && Passable(selections, n) && n !in pending :: ChildrenOf(h, n) <= result)
  }

  lemma RoundKeepsWorking(h: Hierarchy, selections: seq<Selection>, pending: seq<int>, result: set<int>, unseen: set<int>, added: seq<int>)
    requires Working(h, selections, pending, result) && pending != []
    requires unseen == ChildrenOf(h, pending[|pending| - 1]) - result
    requires forall n :: n in added <==> n in unseen
    ensures Working(h, selections, pending[..|pending| - 1] + added, result + unseen)
  {
    var last := pending[|pending| - 1];
    var rest := pending[..|pending| - 1];
    assert pending == rest + [last];
    forall n | n in unseen ensures Covered(h, selections, n) && Reached(h, selections, n) && n in NodesOf(h) {
      ChildIsReached(h, selections, last, n);
    }
    forall n | n in result + unseen && Passable(selections, n) && n !in rest + added
      ensures ChildrenOf(h, n) <= result + unseen
    {
      if n == last {
        assert ChildrenOf(h, n) <= result + unseen;
      } else {
        assert n !in unseen;
        assert n !in pending;
      }
    }
  }

  lemma StartIsWorking(h: Hierarchy, selections: seq<Selection>, pending: seq<int>)
    requires forall n :: n in pending <==> n in Expandable(selections)
    ensures Working(h, selections, pending, Selected(selections))
  {
    forall p | p in pending ensures p in Selected(selections) && Passable(selections, p) && Reached(h, selections, p) {
      ExpandableIsReached(h, selections, p);
    }
  }

  lemma {:induction false} DescentStaysInside(h: Hierarchy, selections: seq<Selection>, result: set<int>, start: int, path: seq<int>)
    requires Working(h, selections, [], result) && start in Expandable(selections) && Descends(h, selections, start, path)
    ensures End(start, path) in result
    decreases |path|
  {
    if path != [] {
      DescentStaysInside(h, selections, result, start, path[..|path| - 1]);
    }
  }

  /** With nothing left to do the result is exactly what is covered. */
  lemma WorkedOut(h: Hierarchy, selections: seq<Selection>, result: set<int>)
    requires Working(h, selections, [], result)
    ensures forall n :: n in result <==> Covered(h, selections, n)
  {
    forall n | Reached(h, selections, n) ensures n in result {
      var start: int, path: seq<int> :|
        start in Expandable(selections) && Descends(h, selections, start, path) && End(start, path) == n;
      DescentStaysInside(h, selections, result, start, path);
    }
  }

  /** Children by parent, as the loop over the hierarchy rows collects them. */
  method CollectChildren(h: Hierarchy) returns (children: map<int, set<int>>)
    ensures forall p :: (if p in children then children[p] else {}) == ChildrenOf(h, p)
  {
    children := map[];
    for i := 0 to |h|
      invariant forall p :: (if p in children then children[p] else {}) == ChildrenOf(h[..i], p)
    {
      ghost var before := children;
      forall p ensures ChildrenOf(h[..i + 1], p) == ChildrenOf(h[..i], p) + if h[i].1 == Some(p) then {h[i].0} else {} {
        OneMoreRow(h, i, p);
      }
      if h[i].1.Some? {
        var parent := h[i].1.value;
        var known := if parent in children then children[parent] else {};
        children := children[parent := known + {h[i].0}];
      }
    }
    assert h[..|h|] == h;
  }

  lemma OneMoreRow(h: Hierarchy, i: nat, p: int)
    requires i < |h|
    ensures ChildrenOf(h[..i + 1], p) == ChildrenOf(h[..i], p) + if h[i].1 == Some(p) then {h[i].0} else {}
  {
    var longer, shorter := h[..i + 1], h[..i];
    assert longer == shorter + [h[i]];
    forall n ensures n in ChildrenOf(longer, p) <==> n in ChildrenOf(shorter, p) + (if h[i].1 == Some(p) then {h[i].0} else {}) {
      if n in ChildrenOf(shorter, p) {
        var k :| 0 <= k < |shorter| && shorter[k].1 == Some(p) && shorter[k].0 == n;
        assert longer[k] == shorter[k];
      }
      assert longer[i] == h[i];
    }
  }

  /** `_expand_ids`: terminates on any parent relation and returns exactly what the selections cover; None without selections. */
  method ExpandIds(selections: seq<Selection>, h: Hierarchy) returns (scope: Option<set<int>>)
    ensures scope.None? <==> selections == []
    ensures scope.Some? ==> forall n :: n in scope.value <==> Covered(h, selections, n)
  {
    if selections == [] {
      return None;
    }
    var result := Selected(selections);
    var pending := InAnyOrder(Expandable(selections));
    var children := CollectChildren(h);
    StartIsWorking(h, selections, pending);
    ghost var all := Selected(selections) + NodesOf(h);
    while pending != []
      invariant Working(h, selections, pending, result)
      decreases |all - result|, |pending|
    {
      var last := pending[|pending| - 1];
      var childIds := if last in children then children[last] else {};
      assert childIds == ChildrenOf(h, last);
      var unseen := childIds - result;
      var added := InAnyOrder(unseen);
      RoundKeepsWorking(h, selections, pending, result, unseen, added);
      NoneMoreLeft(all, result, result + unseen);
      result := result + unseen;
      pending := pending[..|pending| - 1] + added;
    }
    WorkedOut(h, selections, result);
    scope := Some(result);
  }

  /** An unselected node is covered exactly through a parent that is reached and lets the descent pass. */
  lemma CoveredThroughParent(h: Hierarchy, selections: seq<Selection>, n: int)
    requires n !in Selected(selections)
    ensures Covered(h, selections, n)
       <==> exists p :: Reached(h, selections, p) && Passable(selections, p) && n in ChildrenOf(h, p)
  {
    if Reached(h, selections, n) {
      var start: int, path: seq<int> :|
        start in Expandable(selections) && Descends(h, selections, start, path) && End(start, path) == n;
      var before := path[..|path| - 1];
      assert Descends(h, selections, start, before) && End(start, before) == End(start, before);
      assert Reached(h, selections, End(start, before));
    }
    if p :| Reached(h, selections, p) && Passable(selections, p) && n in ChildrenOf(h, p) {
      ChildIsReached(h, selections, p, n);
    }
  }

  /** The scope is not the full closure: a selected node that keeps its descendants out stops the descent from above. */
  lemma SelectionStopsDescent()
    ensures var h: Hierarchy := [(1, None), (2, Some(1)), (3, Some(2))];
      !Covered(h, [Selection(1, true), Selection(2, false)], 3) && Covered(h, [Selection(1, true)], 3)
  {
    var h: Hierarchy := [(1, None), (2, Some(1)), (3, Some(2))];
    var both, one := [Selection(1, true), Selection(2, false)], [Selection(1, true)];
    CoveredThroughParent(h, both, 3);
    assert both[1].id in Selected(both) && 2 !in Expandable(both);
    assert forall p | 3 in ChildrenOf(h, p) :: p == 2;
    assert one[0].id in Expandable(one);
    ExpandableIsReached(h, one, 1);
    assert h[1].0 in ChildrenOf(h, 1) && h[2].0 in ChildrenOf(h, 2);
    ChildIsReached(h, one, 1, 2);
    ChildIsReached(h, one, 2, 3);
  }

  // ------------------------------------------------------------------ source types, selected by slug

  datatype SlugSelection = SlugSelection(slug: string, includeDescendants: bool)

  /** (slug, node, parent) rows. */
  type SlugHierarchy = seq<(string, int, Option<int>)>

  /** Slugs and node identifiers name the rows one to one. */
  ghost predicate OneToOne(h: SlugHierarchy) {
    forall i, j | 0 <= i < j < |h| :: h[i].0 != h[j].0 && h[i].1 != h[j].1
  }

  function ById(h: SlugHierarchy): Hierarchy {
    seq(|h|, k requires 0 <= k < |h| => (h[k].1, h[k].2))
  }

  predicate Chosen(selections: seq<SlugSelection>, slug: string) {
    exists k | 0 <= k < |selections| :: selections[k].slug == slug
  }

  function RowOf(h: SlugHierarchy, slug: string): (row: Option<nat>)
    ensures row.Some? ==> row.value < |h| && h[row.value].0 == slug
    ensures row.None? ==> forall k | 0 <= k < |h| :: h[k].0 != slug
  {
    if h == [] then None
    else if h[|h| - 1].0 == slug then Some(|h| - 1)
    else RowOf(h[..|h| - 1], slug)
  }

  /** The selections whose slug has a row, by node identifier. */
  function KnownSelections(selections: seq<SlugSelection>, h: SlugHierarchy): seq<Selection> {
    if selections == [] then []
    else
      var last := selections[|selections| - 1];
      var row := RowOf(h, last.slug);
      KnownSelections(selections[..|selections| - 1], h)
      + if row.Some? then [Selection(h[row.value].1, last.includeDescendants)] else []
  }

  /** The slug belongs to the scope: it was selected, or its node is covered. */
  ghost predicate SlugCovered(selections: seq<SlugSelection>, h: SlugHierarchy, slug: string) {
    Chosen(selections, slug)
    || exists k | 0 <= k < |h| :: h[k].0 == slug && Covered(ById(h), KnownSelections(selections, h), h[k].1)
  }

  lemma {:induction false} KnownAreChosen(selections: seq<SlugSelection>, h: SlugHierarchy, k: nat)
    requires k < |h| && OneToOne(h)
    ensures h[k].1 in Selected(KnownSelections(selections, h)) <==> Chosen(selections, h[k].0)
    ensures Selected(KnownSelections(selections, h)) <= NodesOf(ById(h))
  {
    if selections != [] {
      var most, last := selections[..|selections| - 1], selections[|selections| - 1];
      KnownAreChosen(most, h, k);
      var row := RowOf(h, last.slug);
      SelectedConcat(KnownSelections(most, h), if row.Some? then [Selection(h[row.value].1, last.includeDescendants)] else []);
      ChosenConcat(most, last, h[k].0);
      assert selections == most + [last];
      if row.Some? {
        assert ById(h)[row.value].0 == h[row.value].1;
      }
    }
  }

  lemma {:induction false} RowOfIs(h: SlugHierarchy, k: nat)
    requires OneToOne(h) && k < |h|
    ensures RowOf(h, h[k].0) == Some(k)
  {
    var row := RowOf(h, h[k].0);
    assert row.Some? && h[row.value].0 == h[k].0;
  }

  /** Through the identifiers a slug with a row is selected just as it was, and nothing else is. */
  lemma {:induction false} SelectionsCarryOver(selections: seq<SlugSelection>, h: SlugHierarchy, id: int, including: bool)
    requires OneToOne(h)
    ensures Selection(id, including) in KnownSelections(selections, h)
       <==> exists k | 0 <= k < |h| :: h[k].1 == id && SlugSelection(h[k].0, including) in selections
  {
    if selections != [] {
      var most, last := selections[..|selections| - 1], selections[|selections| - 1];
      assert selections == most + [last];
      SelectionsCarryOver(most, h, id, including);
      var row := RowOf(h, last.slug);
      forall k: nat | k < |h| && h[k].0 == last.slug ensures row == Some(k) {
        RowOfIs(h, k);
      }
    }
  }

  lemma SelectedConcat(a: seq<Selection>, b: seq<Selection>)
    ensures Selected(a + b) == Selected(a) + Selected(b)
    ensures Expandable(a + b) == Expandable(a) + Expandable(b)
  {
    assert forall k | 0 <= k < |a| :: (a + b)[k] == a[k];
    assert forall k | 0 <= k < |b| :: (a + b)[|a| + k] == b[k];
  }

  lemma OneSelection(s: Selection)
    ensures Selected([s]) == {s.id} && Expandable([s]) == if s.includeDescendants then {s.id} else {}
  {
    assert [s][0] == s;
  }

  lemma ChosenConcat(most: seq<SlugSelection>, last: SlugSelection, slug: string)
    ensures Chosen(most + [last], slug) <==> Chosen(most, slug) || last.slug == slug
  {
    var all := most + [last];
    assert all[|most|] == last;
    assert forall k | 0 <= k < |most| :: all[k] == most[k];
  }

  /** The slugs gathered so far are the chosen ones and those of the nodes gathered so far. */
  ghost predicate Mirrors(selections: seq<SlugSelection>, h: SlugHierarchy, result: set<string>, ids: set<int>) {
    forall slug :: slug in result <==> Chosen(selections, slug) || exists k | 0 <= k < |h| :: h[k].0 == slug && h[k].1 in ids
  }

  /** While the two agree a node's slug is new exactly when the node is. */
  lemma NewTogether(selections: seq<SlugSelection>, h: SlugHierarchy, result: set<string>, ids: set<int>, k: nat)
    requires OneToOne(h) && k < |h| && Mirrors(selections, h, result, ids)
    requires Selected(KnownSelections(selections, h)) <= ids
    ensures h[k].0 in result <==> h[k].1 in ids
  {
    KnownAreChosen(selections, h, k);
  }

  /** The nodes to start from: the known selections that include their descendants, in their order. */
  method StartingNodes(selections: seq<SlugSelection>, h: SlugHierarchy) returns (pending: seq<int>)
    ensures forall n :: n in pending <==> n in Expandable(KnownSelections(selections, h))
  {
    pending := [];
    for i := 0 to |selections|
      invariant forall n :: n in pending <==> n in Expandable(KnownSelections(selections[..i], h))
    {
      assert selections[..i + 1][..i] == selections[..i];
      var row := RowOf(h, selections[i].slug);
      ghost var known := KnownSelections(selections[..i], h);
      assert KnownSelections(selections[..i + 1], h)
          == known + if row.Some? then [Selection(h[row.value].1, selections[i].includeDescendants)] else [];
      if row.Some? {
        SelectedConcat(known, [Selection(h[row.value].1, selections[i].includeDescendants)]);
        OneSelection(Selection(h[row.value].1, selections[i].includeDescendants));
        if selections[i].includeDescendants {
          pending := pending + [h[row.value].1];
        }
      } else {
        assert known + [] == known;
      }
    }
    assert selections[..|selections|] == selections;
  }

  lemma StartMirrors(selections: seq<SlugSelection>, h: SlugHierarchy, result: set<string>)
    requires OneToOne(h) && forall slug :: slug in result <==> Chosen(selections, slug)
    ensures Mirrors(selections, h, result, Selected(KnownSelections(selections, h)))
  {
    forall k | 0 <= k < |h| ensures h[k].1 in Selected(KnownSelections(selections, h)) <==> Chosen(selections, h[k].0) {
      KnownAreChosen(selections, h, k);
    }
  }

  /** The children whose slug is new are the children that are new, and both results grow alike. */
  lemma RoundMirrors(selections: seq<SlugSelection>, h: SlugHierarchy, result: set<string>, ids: set<int>, children: set<int>,
                     unseen: set<int>, grown: set<string>)
    requires OneToOne(h) && Mirrors(selections, h, result, ids) && Selected(KnownSelections(selections, h)) <= ids
    requires children <= NodesOf(ById(h))
    requires unseen == set k | 0 <= k < |h| && h[k].1 in children && h[k].0 !in result :: h[k].1
    requires grown == result + set k | 0 <= k < |h| && h[k].1 in unseen :: h[k].0
    ensures unseen == children - ids && Mirrors(selections, h, grown, ids + unseen)
  {
    forall k: nat | k < |h| ensures h[k].0 in result <==> h[k].1 in ids {
      NewTogether(selections, h, result, ids, k);
    }
    forall n | n in children ensures exists k :: 0 <= k < |h| && h[k].1 == n {
      var k :| 0 <= k < |ById(h)| && ById(h)[k].0 == n;
      assert h[k].1 == n;
    }
  }

  lemma ChildrenAreNodes(h: Hierarchy, p: int)
    ensures ChildrenOf(h, p) <= NodesOf(h)
  {
  }

  lemma MirrorsWorkedOut(selections: seq<SlugSelection>, h: SlugHierarchy, result: set<string>, ids: set<int>)
    requires Mirrors(selections, h, result, ids) && Working(ById(h), KnownSelections(selections, h), [], ids)
    ensures forall slug :: slug in result <==> SlugCovered(selections, h, slug)
  {
    WorkedOut(ById(h), KnownSelections(selections, h), ids);
  }

  /** `_expand_source_types`: the expansion by identifier seen through the slugs, unknown slugs kept as they are. */
  method ExpandSourceTypes(selections: seq<SlugSelection>, h: SlugHierarchy) returns (scope: Option<set<string>>)
    requires OneToOne(h)
    ensures scope.None? <==> selections == []
    ensures scope.Some? ==> forall slug :: slug in scope.value <==> SlugCovered(selections, h, slug)
  {
    if selections == [] {
      return None;
    }
    var children := CollectChildren(ById(h));
    var result := set k | 0 <= k < |selections| :: selections[k].slug;
    var pending := StartingNodes(selections, h);
    ghost var known := KnownSelections(selections, h);
    ghost var ids := Selected(known);
    ghost var all := ids + NodesOf(ById(h));
    StartIsWorking(ById(h), known, pending);
    StartMirrors(selections, h, result);
    while pending != []
      invariant Working(ById(h), known, pending, ids) && Mirrors(selections, h, result, ids)
      decreases |all - ids|, |pending|
    {
      var last := pending[|pending| - 1];
      var childIds := if last in children then children[last] else {};
      assert childIds == ChildrenOf(ById(h), last);
      ChildrenAreNodes(ById(h), last);
      var unseen := set k | 0 <= k < |h| && h[k].1 in childIds && h[k].0 !in result :: h[k].1;
      var grown := result + set k | 0 <= k < |h| && h[k].1 in unseen :: h[k].0;
      RoundMirrors(selections, h, result, ids, childIds, unseen, grown);
      var added := InAnyOrder(unseen);
      RoundKeepsWorking(ById(h), known, pending, ids, unseen, added);
      NoneMoreLeft(all, ids, ids + unseen);
      result := grown;
      ids := ids + unseen;
      pending := pending[..|pending| - 1] + added;
    }
    MirrorsWorkedOut(selections, h, result, ids);
    scope := Some(result);
  }
}
