/**
 Append-only rows that supersede one another: artifact versions of a resource and operator overrides of a scope.
 `key` tells the chains apart, `prior` is the row a row supersedes.
 */
module SupersessionChains {
  import opened Prelude

  /** The last of the first `n` rows with this key. */
  function Last<R, K(==)>(rows: seq<R>, key: R -> K, k: K, n: nat): (last: Option<nat>)
    requires n <= |rows|
    ensures last.Some? ==> last.value < n && key(rows[last.value]) == k
  {
    if n == 0 then None
    else if key(rows[n - 1]) == k then Some(n - 1)
    else Last(rows, key, k, n - 1)
  }

  /** Row `j` supersedes the row of its chain just before it, if there is one. */
  predicate Links<R, K(==)>(rows: seq<R>, key: R -> K, prior: R -> Option<nat>, j: nat) {
    j < |rows| && prior(rows[j]) == Last(rows, key, key(rows[j]), j)
  }

  /** The rows of each key form one chain. */
  ghost predicate Chained<R, K>(rows: seq<R>, key: R -> K, prior: R -> Option<nat>) {
    forall j: nat | j < |rows| :: Links(rows, key, prior, j)
  }

  lemma {:induction false} LastIsLast<R, K>(rows: seq<R>, key: R -> K, k: K, n: nat, i: nat)
    requires i < n <= |rows| && key(rows[i]) == k
    ensures Last(rows, key, k, n).Some? && i <= Last(rows, key, k, n).value
    decreases n
  {
    if i < n - 1 {
      LastIsLast(rows, key, k, n - 1, i);
    }
  }

  lemma {:induction false} LastAgrees<R, K>(a: seq<R>, b: seq<R>, key: R -> K, k: K, n: nat)
    requires n <= |a| && n <= |b| && forall i | 0 <= i < n :: a[i] == b[i]
    ensures Last(a, key, k, n) == Last(b, key, k, n)
  {
    if n > 0 {
      LastAgrees(a, b, key, k, n - 1);
    }
  }

  /** Walking back from the last row of its chain, some row supersedes `i` before `i` itself is reached. */
  lemma {:induction false} Successor<R, K>(rows: seq<R>, key: R -> K, prior: R -> Option<nat>, n: nat, i: nat) returns (j: nat)
    requires Chained(rows, key, prior) && i < n <= |rows| && Last(rows, key, key(rows[i]), n) != Some(i)
    ensures i < j < n && prior(rows[j]) == Some(i)
    decreases n
  {
    LastIsLast(rows, key, key(rows[i]), n, i);
    var last := Last(rows, key, key(rows[i]), n).value;
    assert Links(rows, key, prior, last);
    if Last(rows, key, key(rows[i]), last) == Some(i) {
      j := last;
    } else {
      j := Successor(rows, key, prior, last, i);
    }
  }

  /** Exactly the last row of each chain is not superseded. */
  lemma OnlyLastIsFree<R, K>(rows: seq<R>, key: R -> K, prior: R -> Option<nat>, i: nat)
    requires Chained(rows, key, prior) && i < |rows|
    ensures (forall j | 0 <= j < |rows| :: prior(rows[j]) != Some(i)) <==> Last(rows, key, key(rows[i]), |rows|) == Some(i)
  {
    if Last(rows, key, key(rows[i]), |rows|) != Some(i) {
      var j := Successor(rows, key, prior, |rows|, i);
    } else {
      forall j | 0 <= j < |rows| ensures prior(rows[j]) != Some(i) {
        if prior(rows[j]) == Some(i) {
          assert Links(rows, key, prior, j);
          LastIsLast(rows, key, key(rows[i]), |rows|, j);
          assert false;
        }
      }
    }
  }

  lemma AppendKeepsChain<R, K>(rows: seq<R>, key: R -> K, prior: R -> Option<nat>, row: R)
    requires Chained(rows, key, prior) && prior(row) == Last(rows, key, key(row), |rows|)
    ensures Chained(rows + [row], key, prior)
  {
    var longer := rows + [row];
    forall j: nat | j < |longer| ensures Links(longer, key, prior, j) {
      LastAgrees(rows, longer, key, key(longer[j]), j);
      assert j < |rows| ==> Links(rows, key, prior, j);
    }
  }
}
