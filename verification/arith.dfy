/** Products, quotients and remainders of integers. */
module Arith {
  lemma MulMono(x: int, y: int, m: int)
    requires m >= 0
    ensures x <= y ==> x * m <= y * m
  {
    if x <= y {
      assert (y - x) * m >= 0;
    }
  }

  lemma MinusOne(p: int, m: int)
    ensures (p - 1) * m == p * m - m
  {
  }

  /** Only the zero multiple of m lies strictly between -m and m. */
  lemma NotBetween(m: int, k: int)
    requires m > 0 && -m < m * k < m
    ensures k == 0
  {
    MulMono(1, k, m);
    MulMono(k, -1, m);
  }

  lemma DivUnique(a: int, m: int, q: int, r: int)
    requires m > 0 && a == m * q + r && 0 <= r < m
    ensures a / m == q && a % m == r
  {
    var q', r' := a / m, a % m;
    assert m * (q' - q) == r - r';
    NotBetween(m, q' - q);
  }
}
