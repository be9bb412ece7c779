/** Facts about division by a variable that the solver does not find on its own. */
module Arithmetic {

  lemma MulMonotone(a: nat, b: nat, n: nat)
    requires a <= b
    ensures a * n <= b * n
  {
  }

  /** Quotient and remainder are unique. */
  lemma DivModUnique(x: nat, n: nat, q: nat, r: nat)
    requires r < n && x == q * n + r
    ensures x / n == q && x % n == r
  {
    var q', r' := x / n, x % n;
    assert x == q' * n + r' by {
      assert x == n * q' + r';
    }
    if q < q' {
      MulMonotone(q + 1, q', n);
      assert false;
    } else if q' < q {
      MulMonotone(q' + 1, q, n);
      assert false;
    }
  }

  /** Advancing by at most one lap around n cells. */
  lemma ModAdvance(p: nat, k: nat, n: nat)
    requires 0 < n && k <= n
    ensures (p + k) % n == if p % n + k < n then p % n + k else p % n + k - n
  {
    var q, r := p / n, p % n;
    assert p == q * n + r by {
      assert p == n * q + r;
    }
    if r + k < n {
      DivModUnique(p + k, n, q, r + k);
    } else {
      assert (q + 1) * n == q * n + n;
      DivModUnique(p + k, n, q + 1, r + k - n);
    }
  }
}
