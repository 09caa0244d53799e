/**
  Small facts of real arithmetic used by the resize proofs.
 */
module Arith {

  lemma RatioNonneg(a: real, d: real)
    requires d > 0.0 && 0.0 <= a
    ensures 0.0 <= a / d
  {
  }

  lemma RatioInUnit(a: real, d: real)
    requires d > 0.0 && 0.0 <= a <= d
    ensures 0.0 <= a / d <= 1.0
  {
    assert (d - a) / d == d / d - a / d;
    assert d / d == 1.0;
    RatioNonneg(a, d);
    RatioNonneg(d - a, d);
  }

  lemma ScaleWithinUnit(t: real, w: real)
    requires 0.0 <= t <= 1.0
    ensures (w >= 0.0 ==> 0.0 <= t * w <= w) && (w < 0.0 ==> w <= t * w <= 0.0)
  {
    assert w - t * w == (1.0 - t) * w;
  }

  lemma MulDiv(a: real, b: real, c: real)
    requires c != 0.0
    ensures a * (b / c) == (a / c) * b
  {
    assert a * (b / c) == (a * b) / c;
    assert (a / c) * b == (a * b) / c;
  }

  lemma NegRatio(v: real, lo: real, hi: real)
    requires lo < hi
    ensures (v - hi) / (lo - hi) == (hi - v) / (hi - lo)
  {
  }

  /** The fraction of the way from `off` to `hc` at which v lies is between 0 and 1. */
  lemma FractionInUnit(v: real, lo: real, hi: real, off: real, hc: real)
    requires lo < hi && lo <= v <= hi
    requires (off == lo && hc == hi) || (off == hi && hc == lo)
    ensures 0.0 <= (v - off) / (hc - off) <= 1.0
  {
    if off == lo {
      RatioInUnit(v - lo, hi - lo);
    } else {
      NegRatio(v, lo, hi);
      RatioInUnit(hi - v, hi - lo);
    }
  }

  /** Scaling the point v of [lo, hi] about one end `off` so that the other end `hc` goes to p
      puts v between off and p. */
  lemma ScaleBetween(v: real, lo: real, hi: real, off: real, hc: real, p: real, r: real)
    requires lo < hi && lo <= v <= hi
    requires (off == lo && hc == hi) || (off == hi && hc == lo)
    requires r == off + (v - off) * ((p - off) / (hc - off))
    ensures p >= off ==> off <= r <= p
    ensures p < off ==> p <= r <= off
  {
    var t := (v - off) / (hc - off);
    FractionInUnit(v, lo, hi, off, hc);
    MulDiv(v - off, p - off, hc - off);
    ScaleWithinUnit(t, p - off);
  }
}
