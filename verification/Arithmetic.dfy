/** Quotients and remainders. */
module Arithmetic {
  lemma Scaled(d: int, m: nat)
    ensures 1 <= d ==> m <= d * m
    ensures d == 0 ==> d * m == 0
    ensures (-d) * m == -(d * m)
  {
  }

  lemma DivModUnique(n: nat, w: nat, q: nat, r: nat)
    requires r < w && n == q * w + r
    ensures n / w == q && n % w == r
  {
    var d := n / w - q;
    assert d * w == r - n % w;
    Scaled(d, w);
    Scaled(-d, w);
  }

  lemma HalfTwice(x: nat, q: nat)
    requires 0 < q
    ensures x / 2 / q == x / (2 * q)
  {
    var (a, b) := (x / 2 / q, x / 2 % q);
    assert x / 2 == a * q + b;
    assert x == 2 * (a * q) + (2 * b + x % 2);
    assert a * (2 * q) == 2 * (a * q);
    DivModUnique(x, 2 * q, a, 2 * b + x % 2);
  }

  lemma HalfOfRemainder(h: nat, c: nat)
    requires 0 < c
    ensures h % (2 * c) / 2 == h / 2 % c && h % (2 * c) % 2 == h % 2
  {
    var (a, b) := (h / 2 / c, h / 2 % c);
    assert h / 2 == a * c + b;
    assert h == 2 * (a * c) + (2 * b + h % 2);
    assert a * (2 * c) == 2 * (a * c);
    DivModUnique(h, 2 * c, a, 2 * b + h % 2);
  }
}
