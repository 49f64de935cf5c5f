/** Division with remainder, for index arithmetic that wraps. */
module Arith {

  lemma MulAtLeast(a: int, m: int)
    requires a >= 1 && m > 0
    ensures a * m >= m
  {
  }

  lemma MulAssoc(a: int, b: int, c: int)
    ensures a * (b * c) == (a * b) * c
  {
  }

  lemma MulSplit(a: int, b: int, m: int)
    requires a >= b && m >= 0
    ensures a * m == b * m + (a - b) * m && (a - b) * m >= 0
  {
  }

  lemma QuotientOrder(q: int, r: int, q': int, r': int, m: int)
    requires 0 <= r < m && 0 <= r' < m && q * m + r == q' * m + r'
    ensures q <= q'
  {
    assert (q - q') * m == q * m - q' * m;
    if q > q' {
      MulAtLeast(q - q', m);
    }
  }

  lemma DivModUnique(y: int, q: int, r: int, m: int)
    requires m > 0 && 0 <= r < m && y == q * m + r
    ensures y / m == q && y % m == r
  {
    QuotientOrder(q, r, y / m, y % m, m);
    QuotientOrder(y / m, y % m, q, r, m);
  }

  /** Two numbers less than the modulus apart have different remainders. */
  lemma NearbyDiffer(a: int, b: int, m: int)
    requires m > 0 && a < b < a + m
    ensures a % m != b % m
  {
    var q, r, p, t := a / m, a % m, b / m, b % m;
    assert a == q * m + r && b == p * m + t;
    if r == t {
      if p <= q {
        MulSplit(q, p, m);
      } else {
        MulSplit(p, q, m);
        MulAtLeast(p - q, m);
      }
    }
  }

  /** A multiple of the modulus makes no difference. */
  lemma ModMultiple(y: int, q: int, m: int)
    requires m > 0
    ensures (y + q * m) % m == y % m
  {
    assert y + q * m == (y / m + q) * m + y % m;
    DivModUnique(y + q * m, y / m + q, y % m, m);
  }

  /** Reducing before adding makes no difference. */
  lemma ModAdd(x: int, k: int, m: int)
    requires m > 0
    ensures (x % m + k) % m == (x + k) % m
  {
    assert x + k == (x % m + k) + x / m * m;
    ModMultiple(x % m + k, x / m, m);
  }

  /** Reducing by a multiple of the modulus first makes no difference. */
  lemma ModMod(x: int, m: int, c: int)
    requires m > 0 && c > 0
    ensures (x % (c * m)) % m == x % m
  {
    var big := c * m;
    assert big > 0;
    var q := x / big;
    assert x == q * big + x % big;
    assert q * big == (q * c) * m;
    ModMultiple(x % big, q * c, m);
  }
}
