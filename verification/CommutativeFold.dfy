/** Folding a sequence with an associative and commutative operation does not depend on its order. */
module CommutativeFold {

  function Fold<E, T>(op: (T, T) -> T, unit: T, weight: E -> T, xs: seq<E>): T {
    if xs == [] then unit else op(Fold(op, unit, weight, xs[..|xs| - 1]), weight(xs[|xs| - 1]))
  }

  ghost predicate Associates<T>(op: (T, T) -> T, x: T, y: T, z: T) {
    op(op(x, y), z) == op(x, op(y, z))
  }

  ghost predicate Commutes<T>(op: (T, T) -> T, x: T, y: T) {
    op(x, y) == op(y, x)
  }

  ghost predicate Unit<T>(op: (T, T) -> T, unit: T, x: T) {
    op(x, unit) == x
  }

  ghost predicate CommutativeMonoid<T(!new)>(op: (T, T) -> T, unit: T) {
    && (forall x, y, z :: Associates(op, x, y, z))
    && (forall x, y :: Commutes(op, x, y))
    && (forall x :: Unit(op, unit, x))
  }

  lemma {:induction false} FoldConcat<E, T(!new)>(op: (T, T) -> T, unit: T, weight: E -> T, a: seq<E>, b: seq<E>)
    requires CommutativeMonoid(op, unit)
    ensures Fold(op, unit, weight, a + b) == op(Fold(op, unit, weight, a), Fold(op, unit, weight, b))
  {
    if b == [] {
      assert a + b == a;
      assert Unit(op, unit, Fold(op, unit, weight, a));
    } else {
      assert (a + b)[..|a + b| - 1] == a + b[..|b| - 1];
      FoldConcat(op, unit, weight, a, b[..|b| - 1]);
      assert Associates(op, Fold(op, unit, weight, a), Fold(op, unit, weight, b[..|b| - 1]), weight(b[|b| - 1]));
    }
  }

  /** Two neighbouring stretches can be exchanged. */
  lemma FoldSwap<E, T(!new)>(op: (T, T) -> T, unit: T, weight: E -> T, a: seq<E>, b: seq<E>)
    requires CommutativeMonoid(op, unit)
    ensures Fold(op, unit, weight, a + b) == Fold(op, unit, weight, b + a)
  {
    FoldConcat(op, unit, weight, a, b);
    FoldConcat(op, unit, weight, b, a);
    assert Commutes(op, Fold(op, unit, weight, a), Fold(op, unit, weight, b));
  }

  lemma FoldExchange<E, T(!new)>(op: (T, T) -> T, unit: T, weight: E -> T, front: seq<E>, a: seq<E>, b: seq<E>)
    requires CommutativeMonoid(op, unit)
    ensures Fold(op, unit, weight, front + (a + b)) == Fold(op, unit, weight, front + (b + a))
  {
    FoldConcat(op, unit, weight, front, a + b);
    FoldSwap(op, unit, weight, a, b);
    FoldConcat(op, unit, weight, front, b + a);
  }

  lemma FoldSnoc<E, T>(op: (T, T) -> T, unit: T, weight: E -> T, xs: seq<E>, x: E)
    ensures Fold(op, unit, weight, xs + [x]) == op(Fold(op, unit, weight, xs), weight(x))
  {
    assert (xs + [x])[..|xs|] == xs;
  }

  /** An element can be moved to the end. */
  lemma FoldMovesLast<E, T(!new)>(op: (T, T) -> T, unit: T, weight: E -> T, front: seq<E>, x: E, back: seq<E>)
    requires CommutativeMonoid(op, unit)
    ensures Fold(op, unit, weight, front + ([x] + back)) == op(Fold(op, unit, weight, front + back), weight(x))
  {
    FoldExchange(op, unit, weight, front, [x], back);
    assert front + (back + [x]) == (front + back) + [x];
    FoldSnoc(op, unit, weight, front + back, x);
  }

  lemma Cancels<E>(a: multiset<E>, b: multiset<E>, x: E)
    requires a + multiset{x} == b + multiset{x}
    ensures a == b
  {
    assert a == (a + multiset{x}) - multiset{x} == (b + multiset{x}) - multiset{x} == b;
  }

  /** Find the last element of one sequence in a rearrangement of it. */
  lemma Pluck<E>(a: seq<E>, x: E, b: seq<E>) returns (front: seq<E>, back: seq<E>)
    requires multiset(a + [x]) == multiset(b)
    ensures b == front + ([x] + back) && multiset(a) == multiset(front + back)
  {
    assert x in multiset(a + [x]);
    var k :| 0 <= k < |b| && b[k] == x;
    front, back := b[..k], b[k + 1..];
    assert b == front + ([x] + back);
    Cancels(multiset(a), multiset(front + back), x);
  }

  lemma {:induction false} FoldPermutes<E, T(!new)>(op: (T, T) -> T, unit: T, weight: E -> T, a: seq<E>, b: seq<E>)
    requires CommutativeMonoid(op, unit) && multiset(a) == multiset(b)
    ensures Fold(op, unit, weight, a) == Fold(op, unit, weight, b)
    decreases |a|
  {
    if a == [] {
      assert |multiset(b)| == 0;
    } else {
      var most, x := a[..|a| - 1], a[|a| - 1];
      assert a == most + [x];
      var front, back := Pluck(most, x, b);
      FoldPermutes(op, unit, weight, most, front + back);
      FoldMovesLast(op, unit, weight, front, x, back);
    }
  }
}
