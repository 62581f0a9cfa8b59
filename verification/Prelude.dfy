/** Vocabulary shared by every part of the model. */
module Prelude {

  datatype Option<+T> = None | Some(value: T)

  datatype Result<+T, +E> = Success(value: T) | Failure(error: E)

  newtype Byte = x: int | 0 <= x < 256
  type Bytes = seq<Byte>

  /** Time is counted in microseconds, the resolution of the source's timestamps. */
  type Instant = int

  const SECOND: int := 1_000_000
  const DAY: int := 86_400 * SECOND

  function Max(a: int, b: int): int {
    if a < b then b else a
  }

  function Min(a: int, b: int): int {
    if b < a then b else a
  }

  /** The number of elements of a sequence inside a closed interval. */
  function CountIn(s: seq<int>, low: int, high: int): nat {
    if s == [] then 0
    else CountIn(s[..|s| - 1], low, high) + if low <= s[|s| - 1] <= high then 1 else 0
  }

  /** Removing one element of a finite set takes one off its size. */
  lemma CardinalityWithout<T>(s: set<T>, x: T)
    requires x in s
    ensures |s - {x}| == |s| - 1
  {
    assert s == (s - {x}) + {x};
  }

  lemma {:induction false} SubsetIsSmaller<T>(a: set<T>, b: set<T>)
    requires a <= b
    ensures |a| <= |b|
    decreases a
  {
    if a != {} {
      var x :| x in a;
      SubsetIsSmaller(a - {x}, b - {x});
      CardinalityWithout(a, x);
      CardinalityWithout(b, x);
    }
  }

  /** A larger part of a finite set leaves a smaller rest. */
  lemma NoneMoreLeft<T>(all: set<T>, a: set<T>, b: set<T>)
    requires a <= b <= all
    ensures if a == b then |all - b| == |all - a| else |all - b| < |all - a|
  {
    if a != b {
      var x :| x in b && x !in a;
      SubsetIsSmaller(all - b, (all - a) - {x});
      CardinalityWithout(all - a, x);
    }
  }

  /** The numbers below `n` that satisfy the choice. */
  ghost function Satisfying(choice: nat -> bool, n: nat): set<nat> {
    set k: nat | k < n && choice(k)
  }

  lemma OneMoreSatisfying(choice: nat -> bool, n: nat)
    ensures |Satisfying(choice, n + 1)| == |Satisfying(choice, n)| + if choice(n) then 1 else 0
  {
    if choice(n) {
      assert Satisfying(choice, n + 1) == Satisfying(choice, n) + {n};
    } else {
      assert Satisfying(choice, n + 1) == Satisfying(choice, n);
    }
  }

  /** Some order of the elements of a set. */
  method InAnyOrder<T(==)>(elements: set<T>) returns (order: seq<T>)
    ensures forall n :: n in order <==> n in elements
    ensures |order| == |elements|
  {
    order := [];
    var left := elements;
    while left != {}
      invariant left <= elements && (forall n :: n in order <==> n in elements - left)
      invariant |order| + |left| == |elements|
    {
      var x :| x in left;
      CardinalityWithout(left, x);
      order := order + [x];
      left := left - {x};
    }
  }
}
