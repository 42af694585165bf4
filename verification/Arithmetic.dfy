/** Division facts the solver does not find on its own. */
module Arithmetic {
  lemma {:induction false} AtLeast(k: int, n: nat)
    requires k >= 1
    ensures k * n >= n
  {
    assert (k - 1) * n >= 0;
  }

  /** Quotient and remainder are unique. */
  lemma {:induction false} OneQuotient(q: nat, r: nat, q': nat, r': nat, n: nat)
    requires q * n + r == q' * n + r' && r < n && r' < n
    ensures q == q' && r == r'
  {
    assert (q' - q) * n == r - r';
    if q < q' { AtLeast(q' - q, n); }
    if q > q' { AtLeast(q - q', n); }
  }

  lemma {:induction false} QuotientIs(v: nat, n: nat, q: nat, r: nat)
    requires v == q * n + r && r < n
    ensures v / n == q && v % n == r
  {
    OneQuotient(q, r, v / n, v % n, n);
  }

  lemma {:induction false} NextRemainder(t: nat, n: nat)
    requires n > 0
    ensures (t + 1) % n == if t % n + 1 < n then t % n + 1 else 0
  {
    var q, r := t / n, t % n;
    if r + 1 < n {
      QuotientIs(t + 1, n, q, r + 1);
    } else {
      assert t + 1 == (q + 1) * n + 0;
      QuotientIs(t + 1, n, q + 1, 0);
    }
  }
}
