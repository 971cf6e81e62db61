/**
 * Time bases, and timestamps rescaled from one to another and compared, as
 * av_rescale_q and av_compare_ts are documented to do it (libavutil/mathematics.h).
 */
module Timestamps {
  import opened Arithmetic

  /** A time base: num / den seconds for a tick. */
  datatype Rational = Rational(num: int, den: int) {
    predicate Positive() {
      num > 0 && den > 0
    }

    function Inverse(): (r: Rational) {
      Rational(den, num)
    }
  }

  /** n / c to the nearest integer, halves away from zero. */
  function RoundDiv(n: int, c: int): (r: int)
    requires c > 0
  {
    if n >= 0 then (n + c / 2) / c else -((-n + c / 2) / c)
  }

  /** av_rescale_q. */
  function Rescale(a: int, from: Rational, to: Rational): (r: int)
    requires from.Positive() && to.Positive()
  {
    RoundDiv(a * (from.num * to.den), to.num * from.den)
  }

  /** av_compare_ts: negative, zero or positive. */
  function CompareTs(a: int, ta: Rational, b: int, tb: Rational): (r: int) {
    var x, y := a * (ta.num * tb.den), b * (tb.num * ta.den);
    (if x > y then 1 else 0) - (if x < y then 1 else 0)
  }

  function Seconds(a: int, tb: Rational): (r: real)
    requires tb.Positive()
  {
    (a * tb.num) as real / tb.den as real
  }

  lemma RoundDivNearest(n: int, c: int)
    requires c > 0
    ensures var r := RoundDiv(n, c);
            && -c <= 2 * (r * c - n) <= c
            && (2 * (r * c - n) == -c ==> n < 0)
            && (2 * (r * c - n) == c ==> n > 0)
  {
    var m := if n >= 0 then n else -n;
    var q := (m + c / 2) / c;
    QuotientNearest(m, c, q);
    NegatedProduct(q, c);
    assert RoundDiv(n, c) == if n >= 0 then q else -q;
    hide RoundDiv;
  }

  lemma NegatedProduct(q: int, c: int)
    ensures (-q) * c == -(q * c)
  {
  }

  lemma QuotientNearest(m: int, c: int, q: int)
    requires m >= 0 && c > 0 && q == (m + c / 2) / c
    ensures -c < 2 * (q * c - m) <= c
  {
    assert q * c <= m + c / 2 < q * c + c;
  }

  lemma RoundDivAtLeast(n: int, c: int, d: int)
    requires c > 0 && n >= d * c
    ensures RoundDiv(n, c) >= d
  {
    RoundDivNearest(n, c);
    var r := RoundDiv(n, c);
    if r < d {
      ProductMono(r, d - 1, c);
    }
  }

  /** x / p against y / q, by their cross products. */
  lemma CrossProducts(x: int, p: int, y: int, q: int)
    requires p > 0 && q > 0
    ensures x as real / p as real < y as real / q as real <==> x * q < y * p
  {
    var rx, rp, ry, rq := x as real, p as real, y as real, q as real;
    assert rx / rp < ry / rq <==> rx * rq < ry * rp by {
      assert (rx / rp) * rp == rx && (ry / rq) * rq == ry;
      RealMono(rx / rp, ry / rq, rp * rq);
      assert (rx / rp) * (rp * rq) == rx * rq;
      assert (ry / rq) * (rp * rq) == ry * rp;
    }
    assert rx * rq == (x * q) as real && ry * rp == (y * p) as real;
  }

  lemma RealMono(a: real, b: real, c: real)
    requires c > 0.0
    ensures a < b <==> a * c < b * c
  {
  }

  lemma CompareIsExact(a: int, ta: Rational, b: int, tb: Rational)
    requires ta.Positive() && tb.Positive()
    ensures CompareTs(a, ta, b, tb) < 0 <==> Seconds(a, ta) < Seconds(b, tb)
    ensures CompareTs(a, ta, b, tb) > 0 <==> Seconds(a, ta) > Seconds(b, tb)
  {
    CrossProducts(a * ta.num, ta.den, b * tb.num, tb.den);
    CrossProducts(b * tb.num, tb.den, a * ta.num, ta.den);
    Regroup(a, ta.num, tb.den);
    Regroup(b, tb.num, ta.den);
  }

  lemma Regroup(a: int, n: int, d: int)
    ensures (a * n) * d == a * (n * d)
  {
  }

  /** r ticks are the time, give or take half a tick. */
  predicate WithinHalfTick(r: int, tb: Rational, seconds: real)
    requires tb.Positive()
  {
    -Seconds(1, tb) <= 2.0 * (Seconds(r, tb) - seconds) <= Seconds(1, tb)
  }

  /** Rescaling gives the nearest tick. */
  lemma RescaleNearest(a: int, from: Rational, to: Rational)
    requires from.Positive() && to.Positive()
    ensures WithinHalfTick(Rescale(a, from, to), to, Seconds(a, from))
  {
    var n, c, r := a * (from.num * to.den), to.num * from.den, Rescale(a, from, to);
    MulPositive(to.num, from.den);
    RoundDivNearest(n, c);
    hide RoundDiv, Rescale;
    Regroup(a, from.num, to.den);
    Regroup(r, to.num, from.den);
    FractionsNear(r * to.num, to.den, a * from.num, from.den, to.num);
  }

  /** x / p and y / q differ by at most half of u / p, by their cross products. */
  lemma FractionsNear(x: int, p: int, y: int, q: int, u: int)
    requires p > 0 && q > 0 && -(u * q) <= 2 * (x * q - y * p) <= u * q
    ensures var d := x as real / p as real - y as real / q as real;
            -(u as real / p as real) <= 2.0 * d <= u as real / p as real
  {
    var d, e := x as real / p as real - y as real / q as real, u as real / p as real;
    var pq := p as real * q as real;
    assert d * pq == (x * q - y * p) as real by {
      CrossTerm(x, p, q);
      CrossTerm(y, q, p);
      assert pq == q as real * p as real;
      assert d * pq == (x as real / p as real) * pq - (y as real / q as real) * pq;
    }
    assert e * pq == (u * q) as real by {
      CrossTerm(u, p, q);
    }
    assert pq > 0.0;
    Scaled(2.0 * d, e, pq);
    Scaled(-e, 2.0 * d, pq);
  }

  lemma CrossTerm(x: int, p: int, q: int)
    requires p > 0 && q > 0
    ensures (x as real / p as real) * (p as real * q as real) == (x * q) as real
  {
    var rx, rp, rq := x as real, p as real, q as real;
    assert (rx / rp) * rp == rx;
    assert (rx / rp) * (rp * rq) == ((rx / rp) * rp) * rq;
    assert rx * rq == (x * q) as real;
  }

  lemma Scaled(a: real, b: real, c: real)
    requires c > 0.0 && a * c <= b * c
    ensures a <= b
  {
  }

  /** A time that is at least d ticks is at least d ticks after rounding. */
  lemma RescaleAtLeast(a: int, from: Rational, d: int, to: Rational)
    requires from.Positive() && to.Positive()
    requires Seconds(a, from) >= Seconds(d, to)
    ensures Rescale(a, from, to) >= d
  {
    CompareIsExact(a, from, d, to);
    MulPositive(to.num, from.den);
    RoundDivAtLeast(a * (from.num * to.den), to.num * from.den, d);
  }

  lemma MulPositive(a: int, b: int)
    requires a > 0 && b > 0
    ensures a * b > 0
  {
  }
}
