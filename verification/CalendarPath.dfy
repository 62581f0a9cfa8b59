/** Breadth-first search for a legal state path, over an arbitrary finite edge map and then over the validation states. */
module CalendarPath {
  import opened Prelude

  type Edges<!T> = map<T, seq<T>>

  /** Every state an edge leads to has its own entry. */
  predicate Closed<T>(edges: Edges<T>) {
    forall x | x in edges :: forall k | 0 <= k < |edges[x]| :: edges[x][k] in edges
  }

  function End<T>(start: T, path: seq<T>): T {
    if path == [] then start else path[|path| - 1]
  }

  /** Every step of the path follows an edge. */
  predicate Walk<T(==)>(edges: Edges<T>, start: T, path: seq<T>) {
    path == [] ||
    (var before := path[..|path| - 1];
     Walk(edges, start, before) && End(start, before) in edges && path[|path| - 1] in edges[End(start, before)])
  }

  // ------------------------------------------------------------------ the search

  datatype Outcome<T> = Found(path: seq<T>) | More(queue: seq<(T, seq<T>)>, visited: set<T>)

  /** Look at the successors of a state reached by `path`, in their order. */
  function Expand<T(==)>(successors: seq<T>, path: seq<T>, queue: seq<(T, seq<T>)>, visited: set<T>, target: T): (o: Outcome<T>)
    ensures o.More? ==> visited <= o.visited && (o.visited == visited ==> o.queue == queue)
  {
    if successors == [] then More(queue, visited)
    else
      var next := successors[0];
      if next in visited then Expand(successors[1..], path, queue, visited, target)
      else if next == target then Found(path + [next])
      else
        var o := Expand(successors[1..], path, queue + [(next, path + [next])], visited + {next}, target);
        assert o.More? ==> next in o.visited;
        o
  }

  lemma {:induction false} ExpandStaysInside<T>(edges: Edges<T>, successors: seq<T>, path: seq<T>, queue: seq<(T, seq<T>)>,
                                                visited: set<T>, target: T)
    requires visited <= edges.Keys && (forall k | 0 <= k < |queue| :: queue[k].0 in visited)
    requires forall k | 0 <= k < |successors| :: successors[k] in edges
    ensures var o := Expand(successors, path, queue, visited, target);
      o.More? ==> o.visited <= edges.Keys && forall k | 0 <= k < |o.queue| :: o.queue[k].0 in o.visited
  {
    if successors != [] {
      var next := successors[0];
      if next in visited {
        ExpandStaysInside(edges, successors[1..], path, queue, visited, target);
      } else if next != target {
        ExpandStaysInside(edges, successors[1..], path, queue + [(next, path + [next])], visited + {next}, target);
      }
    }
  }

  ghost predicate Inside<T>(edges: Edges<T>, queue: seq<(T, seq<T>)>, visited: set<T>) {
    Closed(edges) && visited <= edges.Keys && forall k | 0 <= k < |queue| :: queue[k].0 in visited
  }

  /** The search from here: take the first entry of the queue, expand it, go on until the target turns up. */
  ghost function Search<T>(edges: Edges<T>, queue: seq<(T, seq<T>)>, visited: set<T>, target: T): (found: Option<seq<T>>)
    requires Inside(edges, queue, visited)
    decreases |edges.Keys - visited|, |queue|
  {
    if queue == [] then None
    else
      ExpandStaysInside(edges, edges[queue[0].0], queue[0].1, queue[1..], visited, target);
      match Expand(edges[queue[0].0], queue[0].1, queue[1..], visited, target)
      case Found(path) => Some(path)
      case More(later, seen) =>
        NoneMoreLeft(edges.Keys, visited, seen);
        Search(edges, later, seen, target)
  }

  /** `_validation_path`: no steps to the start itself, otherwise the search; None stands for the raised error. */
  ghost function ValidationPath<T>(edges: Edges<T>, start: T, target: T): (found: Option<seq<T>>)
    requires Closed(edges) && start in edges
  {
    if start == target then Some([]) else Search(edges, [(start, [])], {start}, target)
  }

  // ------------------------------------------------------------------ shortest

  /** Every walk to `x` has at least `n` steps. */
  ghost predicate AtLeast<T(!new)>(edges: Edges<T>, start: T, x: T, n: nat) {
    forall w: seq<T> | Walk(edges, start, w) && End(start, w) == x :: n <= |w|
  }

  /** Every walk of at most `n` steps ends in a visited state. */
  ghost predicate Covered<T(!new)>(edges: Edges<T>, start: T, n: nat, visited: set<T>) {
    forall w: seq<T> | Walk(edges, start, w) && |w| <= n :: End(start, w) in visited
  }

  ghost predicate Queued<T>(queue: seq<(T, seq<T>)>, x: T) {
    exists k | 0 <= k < |queue| :: queue[k].0 == x
  }

  /** The successors of every visited state that no longer waits are visited. */
  ghost predicate Expanded<T>(edges: Edges<T>, queue: seq<(T, seq<T>)>, visited: set<T>) {
    forall x | x in visited && x in edges && !Queued(queue, x) :: forall y | y in edges[x] :: y in visited
  }

  ghost predicate Entry<T(!new)>(edges: Edges<T>, start: T, entry: (T, seq<T>)) {
    Walk(edges, start, entry.1) && End(start, entry.1) == entry.0 && AtLeast(edges, start, entry.0, |entry.1|)
  }

  ghost predicate Layered<T>(queue: seq<(T, seq<T>)>) {
    forall i, j | 0 <= i < j < |queue| :: |queue[i].1| <= |queue[j].1| <= |queue[0].1| + 1
  }

  /** What holds each time the queue is inspected. */
  ghost predicate Searching<T(!new)>(edges: Edges<T>, start: T, queue: seq<(T, seq<T>)>, visited: set<T>, target: T) {
    && Inside(edges, queue, visited) && start in visited && target !in visited
    && (forall k | 0 <= k < |queue| :: Entry(edges, start, queue[k]))
    && Layered(queue)
    && Expanded(edges, queue, visited)
    && (queue != [] ==> Covered(edges, start, |queue[0].1|, visited))
  }

  /** What one expansion yields when the target is not among the successors. */
  ghost predicate Fresh<T>(successors: seq<T>, path: seq<T>, entries: seq<(T, seq<T>)>, visited: set<T>, seen: set<T>) {
    && (forall k | 0 <= k < |entries| :: entries[k].1 == path + [entries[k].0] && entries[k].0 in successors
                                         && entries[k].0 !in visited)
    && (forall y | y in seen && y !in visited :: Queued(entries, y))
    && (forall y | y in successors :: y in seen)
  }

  /** The queue and visited set after an expansion that did not meet the target. */
  ghost predicate Yields<T>(successors: seq<T>, path: seq<T>, queue: seq<(T, seq<T>)>, visited: set<T>,
                            later: seq<(T, seq<T>)>, seen: set<T>)
  {
    |queue| <= |later| && later[..|queue|] == queue && Fresh(successors, path, later[|queue|..], visited, seen)
  }

  lemma FreshWithFirst<T>(successors: seq<T>, path: seq<T>, rest: seq<(T, seq<T>)>, visited: set<T>, seen: set<T>)
    requires successors != [] && successors[0] !in visited && visited + {successors[0]} <= seen
    requires Fresh(successors[1..], path, rest, visited + {successors[0]}, seen)
    ensures Fresh(successors, path, [(successors[0], path + [successors[0]])] + rest, visited, seen)
  {
    var next := successors[0];
    var entries := [(next, path + [next])] + rest;
    forall y | y in seen && y !in visited ensures Queued(entries, y) {
      if y == next {
        assert entries[0].0 == y;
      } else {
        assert Queued(rest, y);
        var k :| 0 <= k < |rest| && rest[k].0 == y;
        assert entries[k + 1].0 == y;
      }
    }
  }

  lemma YieldsWithFirst<T>(successors: seq<T>, path: seq<T>, queue: seq<(T, seq<T>)>, visited: set<T>,
                           later: seq<(T, seq<T>)>, seen: set<T>)
    requires successors != [] && successors[0] !in visited && visited + {successors[0]} <= seen
    requires Yields(successors[1..], path, queue + [(successors[0], path + [successors[0]])], visited + {successors[0]}, later, seen)
    ensures Yields(successors, path, queue, visited, later, seen)
  {
    var first := (successors[0], path + [successors[0]]);
    var longer := queue + [first];
    FreshWithFirst(successors, path, later[|longer|..], visited, seen);
    assert later[|queue|] == later[..|longer|][|queue|] == first;
    assert later[|queue|..] == [first] + later[|longer|..];
    assert later[..|queue|] == later[..|longer|][..|queue|] == queue;
  }

  lemma {:induction false} ExpandYields<T>(successors: seq<T>, path: seq<T>, queue: seq<(T, seq<T>)>, visited: set<T>, target: T)
    requires target !in visited
    ensures var o := Expand(successors, path, queue, visited, target);
      && (o.Found? ==> target in successors && o.path == path + [target])
      && (o.More? ==> target !in o.visited && Yields(successors, path, queue, visited, o.queue, o.visited))
  {
    if successors != [] {
      var next := successors[0];
      if next in visited {
        ExpandYields(successors[1..], path, queue, visited, target);
      } else if next != target {
        var longer := queue + [(next, path + [next])];
        ExpandYields(successors[1..], path, longer, visited + {next}, target);
        var o := Expand(successors[1..], path, longer, visited + {next}, target);
        if o.More? {
          YieldsWithFirst(successors, path, queue, visited, o.queue, o.visited);
        }
      }
    }
  }

  // ------------------------------------------------------------------ one round of the loop

  lemma WalkExtends<T(!new)>(edges: Edges<T>, start: T, path: seq<T>, next: T)
    requires Walk(edges, start, path) && End(start, path) in edges && next in edges[End(start, path)]
    ensures Walk(edges, start, path + [next]) && End(start, path + [next]) == next
  {
    assert (path + [next])[..|path|] == path;
  }

  /** A state not yet visited is further away than everything covered. */
  lemma UnvisitedIsFarther<T(!new)>(edges: Edges<T>, start: T, n: nat, visited: set<T>, y: T)
    requires Covered(edges, start, n, visited) && y !in visited
    ensures AtLeast(edges, start, y, n + 1)
  {
  }

  /** Once no waiting entry is as short as `n`, one more step is covered. */
  lemma CoverGrows<T(!new)>(edges: Edges<T>, start: T, n: nat, queue: seq<(T, seq<T>)>, visited: set<T>)
    requires Covered(edges, start, n, visited) && Expanded(edges, queue, visited) && start in visited
    requires forall k | 0 <= k < |queue| :: AtLeast(edges, start, queue[k].0, n + 1)
    ensures Covered(edges, start, n + 1, visited)
  {
    forall w: seq<T> | Walk(edges, start, w) && |w| <= n + 1 ensures End(start, w) in visited {
      if |w| == n + 1 {
        var before := w[..n];
        var z := End(start, before);
        assert Walk(edges, start, before) && z in visited;
        assert !Queued(queue, z);
      }
    }
  }

  /** The entries after an expansion: those waiting before, in their order, then the new ones. */
  lemma LaterAt<T>(successors: seq<T>, path: seq<T>, queue: seq<(T, seq<T>)>, visited: set<T>,
                   later: seq<(T, seq<T>)>, seen: set<T>, k: nat)
    requires Yields(successors, path, queue, visited, later, seen) && k < |later|
    ensures if k < |queue| then later[k] == queue[k]
            else later[k].1 == path + [later[k].0] && later[k].0 in successors && later[k].0 !in visited
  {
    if k < |queue| {
      assert later[..|queue|][k] == later[k];
    } else {
      assert later[|queue|..][k - |queue|] == later[k];
    }
  }

  lemma NewIsEntry<T(!new)>(edges: Edges<T>, start: T, first: (T, seq<T>), visited: set<T>, e: (T, seq<T>))
    requires Entry(edges, start, first) && Covered(edges, start, |first.1|, visited)
    requires first.0 in edges && e.0 in edges[first.0] && e.0 !in visited && e.1 == first.1 + [e.0]
    ensures Entry(edges, start, e)
  {
    WalkExtends(edges, start, first.1, e.0);
    UnvisitedIsFarther(edges, start, |first.1|, visited, e.0);
  }

  /** An entry a round leaves behind; it is one step longer than the first if the round added it. */
  lemma RoundKeepsEntry<T(!new)>(edges: Edges<T>, start: T, queue: seq<(T, seq<T>)>, visited: set<T>, target: T,
                                 later: seq<(T, seq<T>)>, seen: set<T>, k: nat)
    requires Searching(edges, start, queue, visited, target) && queue != [] && k < |later|
    requires Yields(edges[queue[0].0], queue[0].1, queue[1..], visited, later, seen)
    ensures Entry(edges, start, later[k])
    ensures if k < |queue| - 1 then later[k] == queue[k + 1] else |later[k].1| == |queue[0].1| + 1
  {
    LaterAt(edges[queue[0].0], queue[0].1, queue[1..], visited, later, seen, k);
    if k >= |queue| - 1 {
      NewIsEntry(edges, start, queue[0], visited, later[k]);
    }
  }

  lemma RoundKeepsLayers<T>(queue: seq<(T, seq<T>)>, later: seq<(T, seq<T>)>)
    requires Layered(queue) && queue != [] && |queue| - 1 <= |later|
    requires forall k | 0 <= k < |later| ::
               if k < |queue| - 1 then later[k] == queue[k + 1] else |later[k].1| == |queue[0].1| + 1
    ensures Layered(later) && forall k | 0 <= k < |later| :: |queue[0].1| <= |later[k].1| <= |queue[0].1| + 1
  {
    forall k | 0 <= k < |later| ensures |queue[0].1| <= |later[k].1| <= |queue[0].1| + 1 {
      if k < |queue| - 1 {
        assert later[k] == queue[k + 1];
      }
    }
    forall i, j | 0 <= i < j < |later| ensures |later[i].1| <= |later[j].1| <= |later[0].1| + 1 {
      if j < |queue| - 1 {
        assert later[i] == queue[i + 1] && later[j] == queue[j + 1];
      }
    }
  }

  lemma RoundKeepsEntries<T(!new)>(edges: Edges<T>, start: T, queue: seq<(T, seq<T>)>, visited: set<T>, target: T,
                                   later: seq<(T, seq<T>)>, seen: set<T>)
    requires Searching(edges, start, queue, visited, target) && queue != []
    requires Yields(edges[queue[0].0], queue[0].1, queue[1..], visited, later, seen)
    ensures forall k | 0 <= k < |later| :: Entry(edges, start, later[k]) && |queue[0].1| <= |later[k].1| <= |queue[0].1| + 1
    ensures Layered(later)
  {
    forall k | 0 <= k < |later|
      ensures Entry(edges, start, later[k])
      ensures if k < |queue| - 1 then later[k] == queue[k + 1] else |later[k].1| == |queue[0].1| + 1
    {
      RoundKeepsEntry(edges, start, queue, visited, target, later, seen, k);
    }
    RoundKeepsLayers(queue, later);
  }

  /** After a round a seen state waits, or it has been expanded: in this round or before. */
  lemma WaitsOrExpanded<T>(successors: seq<T>, queue: seq<(T, seq<T>)>, visited: set<T>, later: seq<(T, seq<T>)>, seen: set<T>, x: T)
    requires queue != [] && Yields(successors, queue[0].1, queue[1..], visited, later, seen) && x in seen
    ensures Queued(later, x) || (x in visited && (x == queue[0].0 || !Queued(queue, x)))
  {
    var n := |queue| - 1;
    if x !in visited {
      assert Queued(later[n..], x);
      var k :| 0 <= k < |later[n..]| && later[n..][k].0 == x;
      assert later[n + k].0 == x;
    } else if x != queue[0].0 && Queued(queue, x) {
      var k :| 0 <= k < |queue| && queue[k].0 == x;
      assert later[k - 1] == later[..n][k - 1] == queue[k];
    }
  }

  lemma RoundKeepsExpanded<T>(edges: Edges<T>, queue: seq<(T, seq<T>)>, visited: set<T>, later: seq<(T, seq<T>)>, seen: set<T>)
    requires Expanded(edges, queue, visited) && queue != [] && queue[0].0 in edges && visited <= seen
    requires Yields(edges[queue[0].0], queue[0].1, queue[1..], visited, later, seen)
    ensures Expanded(edges, later, seen)
  {
    forall x | x in seen && x in edges && !Queued(later, x) ensures forall y | y in edges[x] :: y in seen {
      WaitsOrExpanded(edges[queue[0].0], queue, visited, later, seen, x);
    }
  }

  lemma RoundKeepsSearching<T(!new)>(edges: Edges<T>, start: T, queue: seq<(T, seq<T>)>, visited: set<T>, target: T)
    requires Searching(edges, start, queue, visited, target) && queue != []
    ensures var o := Expand(edges[queue[0].0], queue[0].1, queue[1..], visited, target);
      o.More? ==> Searching(edges, start, o.queue, o.visited, target)
  {
    var o := Expand(edges[queue[0].0], queue[0].1, queue[1..], visited, target);
    ExpandYields(edges[queue[0].0], queue[0].1, queue[1..], visited, target);
    ExpandStaysInside(edges, edges[queue[0].0], queue[0].1, queue[1..], visited, target);
    if o.More? {
      RoundKeepsEntries(edges, start, queue, visited, target, o.queue, o.visited);
      RoundKeepsExpanded(edges, queue, visited, o.queue, o.visited);
      var n := |queue[0].1|;
      assert Covered(edges, start, n, o.visited);
      if o.queue != [] && |o.queue[0].1| == n + 1 {
        forall k | 0 <= k < |o.queue| ensures AtLeast(edges, start, o.queue[k].0, n + 1) {
          assert Entry(edges, start, o.queue[k]) && |o.queue[k].1| == n + 1 by {
            assert k > 0 ==> |o.queue[0].1| <= |o.queue[k].1|;
          }
        }
        CoverGrows(edges, start, n, o.queue, o.visited);
      }
    }
  }

  // ------------------------------------------------------------------ the theorem

  /** The path leads to the target over edges, and no walk there is shorter. */
  ghost predicate Shortest<T(!new)>(edges: Edges<T>, start: T, target: T, path: seq<T>) {
    Walk(edges, start, path) && End(start, path) == target && AtLeast(edges, start, target, |path|)
  }

  ghost predicate Reachable<T(!new)>(edges: Edges<T>, start: T, target: T) {
    exists w: seq<T> :: Walk(edges, start, w) && End(start, w) == target
  }

  lemma NothingBeyond<T(!new)>(edges: Edges<T>, start: T, visited: set<T>, w: seq<T>)
    requires Expanded(edges, [], visited) && start in visited && Walk(edges, start, w)
    ensures End(start, w) in visited
  {
    if w != [] {
      NothingBeyond(edges, start, visited, w[..|w| - 1]);
      var none: seq<(T, seq<T>)> := [];
      assert !Queued(none, End(start, w[..|w| - 1]));
    }
  }

  lemma {:induction false} SearchFindsShortest<T(!new)>(edges: Edges<T>, start: T, queue: seq<(T, seq<T>)>, visited: set<T>, target: T)
    requires Searching(edges, start, queue, visited, target)
    ensures var found := Search(edges, queue, visited, target);
      if found.Some? then Shortest(edges, start, target, found.value) else !Reachable(edges, start, target)
    decreases |edges.Keys - visited|, |queue|
  {
    if queue == [] {
      forall w: seq<T> | Walk(edges, start, w) ensures End(start, w) != target {
        NothingBeyond(edges, start, visited, w);
      }
    } else {
      ExpandYields(edges[queue[0].0], queue[0].1, queue[1..], visited, target);
      ExpandStaysInside(edges, edges[queue[0].0], queue[0].1, queue[1..], visited, target);
      match Expand(edges[queue[0].0], queue[0].1, queue[1..], visited, target)
      case Found(path) =>
        assert Entry(edges, start, queue[0]);
        WalkExtends(edges, start, queue[0].1, target);
        UnvisitedIsFarther(edges, start, |queue[0].1|, visited, target);
      case More(later, seen) =>
        RoundKeepsSearching(edges, start, queue, visited, target);
        NoneMoreLeft(edges.Keys, visited, seen);
        SearchFindsShortest(edges, start, later, seen, target);
    }
  }

  /** The search returns a legal path of minimum length whenever there is one, and fails only when there is none. */
  lemma PathIsShortest<T(!new)>(edges: Edges<T>, start: T, target: T)
    requires Closed(edges) && start in edges
    ensures var found := ValidationPath(edges, start, target);
      && (found.Some? <==> Reachable(edges, start, target))
      && (found.Some? ==> Shortest(edges, start, target, found.value))
  {
    var nowhere: seq<T> := [];
    if start == target {
      assert Walk(edges, start, nowhere) && End(start, nowhere) == target;
    } else {
      assert Covered(edges, start, 0, {start});
      var queue := [(start, nowhere)];
      assert queue[0].0 == start;
      assert Entry(edges, start, queue[0]);
      assert Queued(queue, start);
      SearchFindsShortest(edges, start, queue, {start}, target);
    }
  }

  // ------------------------------------------------------------------ the search as a loop

  /** Look at the successors in a loop, marking and queueing the new ones until the target turns up. */
  method ExpandState<T(==)>(successors: seq<T>, path: seq<T>, queue: seq<(T, seq<T>)>, visited: set<T>, target: T)
    returns (o: Outcome<T>)
    ensures o == Expand(successors, path, queue, visited, target)
  {
    var pending, seen := queue, visited;
    var i := 0;
    while i < |successors|
      invariant 0 <= i <= |successors|
      invariant Expand(successors, path, queue, visited, target) == Expand(successors[i..], path, pending, seen, target)
    {
      var next := successors[i];
      if next !in seen {
        var longer := path + [next];
        if next == target {
          return Found(longer);
        }
        seen := seen + {next};
        pending := pending + [(next, longer)];
      }
      assert successors[i..][1..] == successors[i + 1..];
      i := i + 1;
    }
    o := More(pending, seen);
  }

  /** `_validation_path`; None stands for the error raised when the queue runs empty. */
  method FindPath<T(==, !new)>(edges: Edges<T>, start: T, target: T) returns (found: Option<seq<T>>)
    requires Closed(edges) && start in edges
    ensures found == ValidationPath(edges, start, target)
    ensures found.Some? <==> Reachable(edges, start, target)
    ensures found.Some? ==> Shortest(edges, start, target, found.value)
  {
    PathIsShortest(edges, start, target);
    if start == target {
      return Some([]);
    }
    var queue: seq<(T, seq<T>)> := [(start, [])];
    var visited := {start};
    while queue != []
      invariant Inside(edges, queue, visited)
      invariant Search(edges, [(start, [])], {start}, target) == Search(edges, queue, visited, target)
      decreases |edges.Keys - visited|, |queue|
    {
      var (current, path) := queue[0];
      ExpandStaysInside(edges, edges[current], path, queue[1..], visited, target);
      var o := ExpandState(edges[current], path, queue[1..], visited, target);
      if o.Found? {
        return Some(o.path);
      }
      NoneMoreLeft(edges.Keys, visited, o.visited);
      queue, visited := o.queue, o.visited;
    }
    found := None;
  }

  // ------------------------------------------------------------------ the validation states

  datatype Validation = Candidate | Probable | Verified | Confirmed | Disputed | Rejected

  const EDGES: Edges<Validation> := map[
    Candidate := [Probable, Disputed, Rejected],
    Probable := [Verified, Disputed, Rejected],
    Verified := [Confirmed, Disputed, Rejected],
    Confirmed := [Disputed],
    Disputed := [Candidate, Probable, Verified, Confirmed, Rejected],
    Rejected := [Candidate]
  ]

  predicate Follows(a: Validation, b: Validation) {
    Steps(EDGES, a, b)
  }

  lemma EdgesCoverStates(a: Validation)
    ensures a in EDGES && Closed(EDGES)
  {
  }

  /** A walk from `a` to `b` of at most three steps. */
  function Detour(a: Validation, b: Validation): (w: seq<Validation>)
    ensures |w| <= 3 && End(a, w) == b
  {
    if a == b then []
    else if Follows(a, b) then [b]
    else if a == Rejected then if b == Disputed then [Candidate, Disputed] else [Candidate, Disputed, b]
    else [Disputed, b]
  }

  predicate Steps<T(==)>(edges: Edges<T>, a: T, b: T) {
    a in edges && b in edges[a]
  }

  lemma WalkOfThree<T(!new)>(edges: Edges<T>, a: T, w: seq<T>)
    requires 1 <= |w| <= 3 && Steps(edges, a, w[0])
    requires (|w| >= 2 ==> Steps(edges, w[0], w[1])) && (|w| == 3 ==> Steps(edges, w[1], w[2]))
    ensures Walk(edges, a, w)
  {
    var nowhere: seq<T> := [];
    WalkExtends(edges, a, nowhere, w[0]);
    assert nowhere + [w[0]] == w[..1];
    if |w| >= 2 {
      WalkExtends(edges, a, w[..1], w[1]);
      assert w[..1] + [w[1]] == w[..2];
    }
    if |w| == 3 {
      WalkExtends(edges, a, w[..2], w[2]);
      assert w[..2] + [w[2]] == w;
    } else {
      assert w[..|w|] == w;
    }
  }

  lemma DetourFollows(a: Validation, b: Validation)
    ensures var w := Detour(a, b);
      && (|w| >= 1 ==> Follows(a, w[0])) && (|w| >= 2 ==> Follows(w[0], w[1])) && (|w| == 3 ==> Follows(w[1], w[2]))
  {
    EdgesCoverStates(a);
  }

  lemma DetourIsWalk(a: Validation, b: Validation)
    ensures Walk(EDGES, a, Detour(a, b))
  {
    DetourFollows(a, b);
    if a != b {
      WalkOfThree(EDGES, a, Detour(a, b));
    }
  }

  /** Every validation state reaches every other in at most three legal steps, so the search never fails. */
  lemma StatesConnect(a: Validation, b: Validation)
    ensures Closed(EDGES) && a in EDGES
    ensures var found := ValidationPath(EDGES, a, b);
      found.Some? && |found.value| <= 3 && Shortest(EDGES, a, b, found.value)
  {
    EdgesCoverStates(a);
    DetourIsWalk(a, b);
    PathIsShortest(EDGES, a, b);
  }
}
