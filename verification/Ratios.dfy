/** Order and scaling of real ratios, which the verifier does not find on its own. */
module Ratios {

  lemma ScaleOrder(a: real, b: real, r: real)
    requires r > 0.0
    ensures a <= b <==> a * r <= b * r
  {
    if a < b {
      assert (b - a) * r > 0.0;
    } else if b < a {
      assert (a - b) * r > 0.0;
    }
  }

  /** `x / r` against a bound is `x` against the scaled bound. */
  lemma RatioOrder(x: real, r: real, bound: real)
    requires r > 0.0
    ensures x / r <= bound <==> x <= bound * r
    ensures bound <= x / r <==> bound * r <= x
  {
    assert x / r * r == x;
    ScaleOrder(x / r, bound, r);
    ScaleOrder(bound, x / r, r);
  }
}
