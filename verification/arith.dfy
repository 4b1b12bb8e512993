/** Facts about products and quotients that the solver is better told once. */
module Arith {

  lemma Distribute(a: int, b: int, w: int)
    ensures (a + b) * w == a * w + b * w
  {
  }

  lemma Associate(a: int, b: int, w: int)
    ensures a * (b * w) == (a * b) * w
  {
  }

  lemma StepUp(a: int, b: int, w: int)
    requires w >= 0 && a < b
    ensures a * w + w <= b * w
  {
    Distribute(b - a - 1, a + 1, w);
    Distribute(a, 1, w);
    assert (b - a - 1) * w >= 0;
  }

  /** Quotient and remainder are determined by their equation. */
  lemma Divides(d: int, w: int, q: int, r: int)
    requires w > 0 && d == q * w + r && 0 <= r < w
    ensures d / w == q && d % w == r
  {
    assert d == (d / w) * w + d % w;
    if d / w < q {
      StepUp(d / w, q, w);
    } else if q < d / w {
      StepUp(q, d / w, w);
    }
  }
}
