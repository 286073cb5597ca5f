// Facts about products, quotients and remainders that the solver does not find
// by itself.
module Arithmetic {

  lemma MulAtLeast(m: int, n: int)
    requires m >= 1 && n >= 0
    ensures m * n >= n
  {
  }

  lemma SmallMultiple(n: int, x: int, m: int)
    requires x == m * n && -n < x < n
    ensures x == 0
  {
    if m >= 1 {
      MulAtLeast(m, n);
    } else if m <= -1 {
      MulAtLeast(-m, n);
    }
  }

  lemma DivideExact(x: int, g: int)
    requires g > 0
    ensures x * g / g == x && x * g % g == 0
  {
    Residue(x, g, 0);
  }

  lemma Residue(x: int, g: int, i: int)
    requires 0 <= i < g
    ensures (x * g + i) % g == i && (x * g + i) / g == x
  {
    var z := x * g + i;
    var y := z / g;
    assert y * g + z % g == z;
    assert (x - y) * g == z % g - i;
    SmallMultiple(g, z % g - i, x - y);
    if x - y >= 1 {
      MulAtLeast(x - y, g);
    } else if x - y <= -1 {
      MulAtLeast(y - x, g);
    }
  }

  lemma QuotientRemainder(x: int, g: int) returns (q: int, r: nat)
    requires g > 0
    ensures x == q * g + r && r < g && r == x % g
  {
    q, r := x / g, x % g;
  }

  lemma Quotient(n: int, d: int, q: int, r: int)
    requires d > 0 && n == q * d + r && 0 <= r < d
    ensures n / d == q && n % d == r
  {
    Residue(q, d, r);
  }
}
