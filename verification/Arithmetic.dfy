/** The few facts about products and powers of ten that the number proofs lean on. */
module Arithmetic {

  lemma MulDistributes(a: int, b: int, c: int)
    ensures (a + b) * c == a * c + b * c
    ensures (a - b) * c == a * c - b * c
  {
  }

  lemma MulAssociates(a: int, b: int, c: int)
    ensures a * b * c == a * (b * c)
  {
  }

  lemma MulByTen(a: int, p: int)
    ensures a * (10 * p) == 10 * (a * p)
  {
  }

  lemma MulNegates(a: int, b: int)
    ensures (-a) * b == -(a * b)
  {
  }

  lemma MulIsMonotone(a: int, b: int, c: int)
    requires a <= b && 0 <= c
    ensures a * c <= b * c
  {
  }

  lemma MulIsStrict(a: int, b: int, c: int)
    requires 0 < c
    ensures a < b <==> a * c < b * c
    ensures a == b <==> a * c == b * c
  {
  }

  lemma DivModFacts(n: int, d: int)
    requires d > 0
    ensures n == n / d * d + n % d && 0 <= n % d < d
  {
  }

  lemma DivModUnique(n: int, d: int, q: int, r: int)
    requires d > 0 && n == q * d + r && 0 <= r < d
    ensures n / d == q && n % d == r
  {
    DivModFacts(n, d);
    var p, s := n / d, n % d;
    MulDistributes(p, q, d);
    assert (p - q) * d == r - s;
    if p > q {
      MulIsMonotone(1, p - q, d);
    }
    if p < q {
      MulIsMonotone(p - q, -1, d);
    }
  }

  function Magnitude(n: int): nat {
    if n < 0 then -n else n
  }

  lemma MagnitudeOfProduct(n: int, f: int)
    requires f >= 0
    ensures Magnitude(n * f) == Magnitude(n) * f
  {
  }

  function Pow10(n: nat): (p: int)
    ensures p >= 1
  {
    if n == 0 then 1 else 10 * Pow10(n - 1)
  }

  lemma {:induction false} Pow10Adds(a: nat, b: nat)
    ensures Pow10(a + b) == Pow10(a) * Pow10(b)
  {
    if a > 0 {
      Pow10Adds(a - 1, b);
      MulAssociates(10, Pow10(a - 1), Pow10(b));
    }
  }

  lemma {:induction false} Pow10Grows(a: nat, b: nat)
    requires a <= b
    ensures Pow10(a) <= Pow10(b)
    ensures a < b ==> 10 * Pow10(a) <= Pow10(b)
  {
    if a < b {
      Pow10Grows(a, b - 1);
    }
  }
}
