/** The few non-linear facts about products, quotients and remainders the proofs need. */
module Arith {

  function Quotient(n: nat, d: nat): (q: nat)
    requires d > 0
  {
    n / d
  }

  function Pow2(n: nat): (p: nat)
    ensures p >= 1
  {
    if n == 0 then 1 else 2 * Pow2(n - 1)
  }

  lemma MulMonotone(a: int, b: int, d: nat)
    requires a <= b
    ensures a * d <= b * d
  {
    assert (b - a) * d >= 0;
  }

  lemma MulAssoc(a: int, b: int, c: int)
    ensures a * (b * c) == (b * a) * c
  {
  }

  /** A quotient is determined by the interval the dividend lies in. */
  lemma DivUnique(n: int, d: nat, q: int)
    requires d > 0 && q * d <= n < q * d + d
    ensures n / d == q && n % d == n - q * d
  {
    var r, m := n / d, n % d;
    assert n == d * r + m;
    if r < q {
      MulMonotone(r + 1, q, d);
    } else if r > q {
      MulMonotone(q + 1, r, d);
    }
  }

  lemma DivBounds(n: int, d: nat)
    requires d > 0
    ensures n / d * d <= n < n / d * d + d
    ensures n == n / d * d + n % d
  {
    assert n == d * (n / d) + n % d;
  }

  /** Adding multiples of the divisor shifts the quotient and keeps the remainder. */
  lemma AddMultiple(s: int, d: nat, k: int)
    requires d > 0
    ensures (s + d * k) / d == s / d + k && (s + d * k) % d == s % d
  {
    DivBounds(s, d);
    assert (s / d + k) * d == s / d * d + d * k;
    DivUnique(s + d * k, d, s / d + k);
  }

  lemma SumOfMultiples(a: nat, b: nat, p: nat)
    requires p > 0 && a % p == 0 && b % p == 0
    ensures (a + b) % p == 0
  {
    DivBounds(a, p);
    DivBounds(b, p);
    assert (a / p + b / p) * p == a + b;
    DivUnique(a + b, p, a / p + b / p);
  }

  /** Dividing an exact product by its factors one after the other. */
  lemma DivDiv(n: int, s: nat, l: nat, q: int)
    requires s > 0 && l > 0
    requires n == (s * l) * q
    ensures n / s / l == q
  {
    assert n == (q * l) * s;
    DivUnique(n, s, q * l);
    DivUnique(q * l, l, q);
  }

  /** `k` times `b`, counted one `b` at a time: products without non-linear arithmetic. */
  function Span(b: nat, k: nat): nat
  {
    if k == 0 then 0 else Span(b, k - 1) + b
  }

  lemma SpanIsProduct(b: nat, k: nat)
    ensures Span(b, k) == k * b
  {
    if k > 0 {
      SpanIsProduct(b, k - 1);
      assert k * b == (k - 1) * b + b;
    }
  }
}
