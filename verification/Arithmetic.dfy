/** Multiplication, division and remainder of natural numbers, by name. */
module Arithmetic {
  function Least(a: nat, b: nat): nat { if a < b then a else b }

  lemma Mono(a: nat, m: nat, n: nat)
    requires m <= n
    ensures a * m <= a * n
  {}

  lemma Euclid(x: nat, d: nat)
    requires d > 0
    ensures x == d * (x / d) + x % d && 0 <= x % d < d && 0 <= x / d
  {}

  /** Quotient and remainder are unique. */
  lemma Quotient(x: nat, d: nat, q: nat, r: nat)
    requires x == d * q + r && r < d
    ensures x / d == q && x % d == r
  {
    var q' := x / d;
    Euclid(x, d);
    if q' < q {
      Mono(d, q' + 1, q);
    } else if q' > q {
      Mono(d, q + 1, q');
    }
  }

  lemma DivBounds(v: nat, d: nat, lo: nat, hi: nat)
    requires d > 0 && d * lo <= v < d * hi
    ensures lo <= v / d < hi
  {
    Euclid(v, d);
    if v / d < lo {
      Mono(d, v / d + 1, lo);
    } else if v / d >= hi {
      Mono(d, hi, v / d);
    }
  }

  lemma DivDiv(v: nat, a: nat, b: nat)
    requires a > 0 && b > 0
    ensures a * b > 0 && v / a / b == v / (a * b)
  {
    Mono(a, 1, b);
    var q, r := v / (a * b), v % (a * b);
    Euclid(v, a * b);
    Euclid(r, a);
    DivBounds(r, a, 0, b);
    Regroup(a, b, q, r / a);
    Quotient(v, a, b * q + r / a, r % a);
    Quotient(b * q + r / a, b, q, r / a);
  }

  lemma Regroup(a: nat, b: nat, q: nat, s: nat)
    ensures a * b * q + a * s == a * (b * q + s)
  {}
}
