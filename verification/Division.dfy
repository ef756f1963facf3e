/** Division with remainder by a variable divisor. */
module Division {
  function Quotient(n: nat, m: nat): (q: nat)
    requires 0 < m
  {
    n / m
  }

  lemma DivisionUnique(n: nat, m: nat, q: nat, r: nat)
    requires 0 < m && r < m && n == q * m + r
    ensures n / m == q && n % m == r
  {
    var q', r' := n / m, n % m;
    assert n == m * q' + r';
    QuotientUnique(m, q, r, q', r');
  }

  lemma QuotientUnique(m: nat, q: nat, r: nat, q': nat, r': nat)
    requires r < m && r' < m && q * m + r == q' * m + r'
    ensures q == q' && r == r'
  {
    ProductGap(m, q, q');
    ProductGap(m, q', q);
  }

  lemma {:induction false} ProductGap(m: nat, q: nat, q': nat)
    ensures q < q' ==> q * m + m <= q' * m
  {
    if q < q' {
      ProductGap(m, q, q' - 1);
      assert q' * m == (q' - 1) * m + m;
    }
  }
}
