/** Facts about integer quotients. */
module Arithmetic {

  lemma QuotientBounds(x: nat, d: nat)
    requires d > 0
    ensures x / d * d <= x < x / d * d + d
  {
    assert x == x / d * d + x % d;
  }

  lemma CancelFactor(a: nat, b: nat, d: nat)
    requires a * d < b * d
    ensures a < b
  {
    assert a >= b ==> a * d >= b * d;
  }

  lemma QuotientIs(x: nat, d: nat, q: nat)
    requires d > 0 && q * d <= x < q * d + d
    ensures x / d == q
  {
    QuotientBounds(x, d);
    CancelFactor(q, x / d + 1, d);
    CancelFactor(x / d, q + 1, d);
  }

  lemma Scale(a: nat, b: nat, d: nat)
    requires a <= b
    ensures a * d <= b * d
  {
  }

  lemma ScaleBounds(w: nat, q: nat, k: nat, d: nat)
    requires q * k <= w < q * k + k
    ensures q * (k * d) <= w * d
    ensures w * d + d <= q * (k * d) + k * d
  {
    assert q * (k * d) == (q * k) * d;
    Scale(q * k, w, d);
    Scale(w + 1, q * k + k, d);
    assert (w + 1) * d == w * d + d && (q * k + k) * d == (q * k) * d + k * d;
  }

  /** Dividing by `k * d` is dividing by `d` and then by `k`. */
  lemma QuotientOfMultiple(x: nat, d: nat, k: nat)
    requires d > 0 && k > 0
    ensures k * d > 0
    ensures x / (k * d) == x / d / k
  {
    var w := x / d;
    QuotientBounds(x, d);
    QuotientBounds(w, k);
    ScaleBounds(w, w / k, k, d);
    QuotientIs(x, k * d, w / k);
  }

  lemma QuotientAtLeast(k: nat, d: nat, x: nat)
    requires d > 0 && k * d <= x
    ensures k <= x / d
  {
    QuotientBounds(x, d);
    CancelFactor(k, x / d + 1, d);
  }
}
