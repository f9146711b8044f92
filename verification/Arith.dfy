/** Products, powers and division with remainder, where the solver needs the step spelled out. */
module Arith {

  lemma MulMono(a: int, b: int, d: nat)
    requires a <= b
    ensures a * d <= b * d
    decreases b - a
  {
    if a < b {
      MulMono(a, b - 1, d);
      assert b * d == (b - 1) * d + d;
    }
  }

  /** Quotient and remainder are the only way to write a number so. */
  lemma Divides(q: int, r: nat, d: nat)
    requires r < d
    ensures (q * d + r) / d == q && (q * d + r) % d == r
  {
    var n := q * d + r;
    var e := n / d;
    assert n == e * d + n % d;
    if e + 1 <= q {
      MulMono(e + 1, q, d);
    }
    if q + 1 <= e {
      MulMono(q + 1, e, d);
    }
  }

  lemma Remainder(n: nat, d: nat)
    requires d > 0
    ensures n % d + d * (n / d) == n && 0 <= n / d && 0 <= n % d < d
  {
  }

  lemma Distribute(a: int, x: int, y: int)
    ensures a * (x + y) == a * x + a * y
  {
  }

  lemma Exchange(a: int, b: int, x: int)
    ensures a * (b * x) == b * (a * x) == (a * b) * x
  {
  }

  lemma OneMoreDigit(x: nat, t: nat, p: nat, b: nat)
    requires x < b && t < p
    ensures x + b * t < b * p
  {
    MulMono(t + 1, p, b);
    Distribute(b, t, 1);
  }

  function Quotient(x: nat, d: nat): (q: nat)
    requires d > 0
  {
    x / d
  }

  lemma QuotientBelow(x: nat, d: nat, s: nat)
    requires d > 0
    ensures x / d < s <==> x < d * s
  {
    Remainder(x, d);
    if x / d < s {
      MulMono(x / d + 1, s, d);
      Distribute(d, x / d, 1);
    } else {
      MulMono(s, x / d, d);
    }
  }

  lemma QuotientMono(x: nat, y: nat, d: nat)
    requires d > 0 && x <= y
    ensures x / d <= y / d
  {
    Remainder(y, d);
    QuotientBelow(x, d, y / d + 1);
    Distribute(d, y / d, 1);
  }
}
