/** Quotient and remainder of a natural number. */
module Division {
  lemma MultiplesAreFar(d: int, m: nat)
    ensures d >= 1 ==> d * m >= m
    ensures d <= -1 ==> d * m + m <= 0
  {
    if d >= 1 {
      assert (d - 1) * m >= 0;
    } else if d <= -1 {
      assert (-d - 1) * m >= 0;
    }
  }

  lemma Remainder(a: nat, m: nat, q: nat, r: nat)
    requires r < m && a == q * m + r
    ensures a % m == r && a / m == q
  {
    assert (a / m - q) * m == r - a % m;
    MultiplesAreFar(a / m - q, m);
  }
}
