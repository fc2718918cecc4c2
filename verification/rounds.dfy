/** Counting in rounds: quotient and remainder of successive numbers. */
module Rounds {
  lemma NextRound(m: nat, n: nat)
    requires n >= 1
    ensures m % n == n - 1 ==> (m + 1) / n == m / n + 1 && (m + 1) % n == 0
    ensures m % n < n - 1 ==> (m + 1) / n == m / n && (m + 1) % n == m % n + 1
  {
    var q, r := m / n, m % n;
    assert m == n * q + r;
    if r == n - 1 {
      MulGrows(n, q, q + 1);
      assert n * (q + 1) == n * q + n;
      DivideExactly(m + 1, n, q + 1, 0);
    } else {
      DivideExactly(m + 1, n, q, r + 1);
    }
  }

  lemma {:induction false} MulGrows(n: nat, a: nat, b: nat)
    requires a <= b
    ensures n * a <= n * b
    ensures a < b ==> n * a + n <= n * b
  {
    if a < b {
      MulGrows(n, a, b - 1);
      assert n * b == n * (b - 1) + n;
    }
  }

  lemma DivideExactly(m: nat, n: nat, q: nat, r: nat)
    requires n >= 1 && m == n * q + r && r < n
    ensures m / n == q && m % n == r
  {
    var q', r' := m / n, m % n;
    assert m == n * q' + r';
    if q' < q {
      MulGrows(n, q', q);
    } else if q < q' {
      MulGrows(n, q, q');
    }
  }
}
