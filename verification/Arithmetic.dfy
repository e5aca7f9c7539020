/** Minimum, and division by page-sized units. */
module Arithmetic {

  function Min(a: nat, b: nat): nat { if a < b then a else b }

  lemma MulMonotone(m: nat, n: nat, d: nat)
    requires m <= n
    ensures m * d <= n * d
  {
    assert n * d == m * d + (n - m) * d;
  }

  function DivCeil(n: nat, d: nat): nat
    requires d > 0
  {
    (n + d - 1) / d
  }

  lemma DivStep(x: nat, d: nat)
    requires d > 0
    ensures (x + d) / d == x / d + 1
  {
    var q, r := x / d, x % d;
    assert x + d == (q + 1) * d + r;
    DivIs(x + d, d, q + 1, r);
  }

  lemma DivIs(x: nat, d: nat, q: nat, r: nat)
    requires d > 0 && r < d && x == q * d + r
    ensures x / d == q
  {
    var p, s := x / d, x % d;
    assert p * d + s == q * d + r;
    if p < q {
      MulMonotone(p + 1, q, d);
    } else if q < p {
      MulMonotone(q + 1, p, d);
    }
  }

  /** Dropping one byte and then `d` units is dropping `d` units of 256. */
  lemma DivTwice(v: nat, d: nat)
    requires d > 0
    ensures v / 256 / d == v / (256 * d)
  {
    var w := v / 256;
    var q, r := w / d, w % d;
    assert w == q * d + r;
    assert v == q * (256 * d) + (256 * r + v % 256);
    DivIs(v, 256 * d, q, 256 * r + v % 256);
  }

  /** Units needed when more than one unit is: one, and those for the rest. */
  lemma DivCeilStep(n: nat, d: nat)
    requires d > 0 && n > d
    ensures DivCeil(n, d) == 1 + DivCeil(n - d, d)
  {
    DivStep(n - d + d - 1, d);
  }

  lemma DivCeilOne(n: nat, d: nat)
    requires 0 < n <= d
    ensures DivCeil(n, d) == 1
  {
    DivIs(n + d - 1, d, 1, n - 1);
  }
}
