// Facts about Euclidean division by a positive divisor, kept apart so
// that proofs about them see only arithmetic.

module Arithmetic {
  lemma RowBound(j: nat, n: nat, rowCount: nat)
    requires 0 < n && j < rowCount * n
    ensures j / n < rowCount
  {
    MulMono(j / n, rowCount, n);
  }

  lemma MulSucc(x: nat, n: nat)
    ensures (x + 1) * n == x * n + n
  {
  }

  lemma {:induction false} MulMono(a: nat, b: nat, n: nat)
    ensures a >= b ==> a * n >= b * n
    decreases a
  {
    if a > b {
      MulMono(a - 1, b, n);
      MulSucc(a - 1, n);
    }
  }

  lemma {:induction false} MulStrict(a: nat, b: nat, n: nat)
    ensures a < b ==> a * n + n <= b * n
    decreases b - a
  {
    if a < b {
      MulSucc(a, n);
      if a + 1 < b {
        MulStrict(a + 1, b, n);
      }
    }
  }

  // Stepping from j - 1 to j: the column wraps to 0 exactly when the row
  // goes up by one.
  lemma DivModStep(j: nat, n: nat)
    requires 0 < j && 0 < n
    ensures j % n == 0 ==> j / n == (j - 1) / n + 1 && (j - 1) % n == n - 1
    ensures j % n != 0 ==> j / n == (j - 1) / n && j % n == (j - 1) % n + 1
  {
    var q, r := (j - 1) / n, (j - 1) % n;
    assert j - 1 == q * n + r && 0 <= r < n;
    assert (q + 1) * n == q * n + n;
    if r == n - 1 {
      DivUnique(j, n, q + 1, 0);
    } else {
      DivUnique(j, n, q, r + 1);
    }
  }

  lemma DivUnique(x: nat, n: nat, q: nat, r: nat)
    requires 0 < n && x == q * n + r && r < n
    ensures x / n == q && x % n == r
  {
    var q', r' := x / n, x % n;
    assert x == q' * n + r' && 0 <= r' < n;
    MulStrict(q', q, n);
    MulStrict(q, q', n);
  }
}
