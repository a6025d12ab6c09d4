/** Products of a real and a count as repeated addition, so that proofs about weighted sums
    stay linear. TimesIsProduct ties them back to multiplication. */
module Arithmetic {
  /** n copies of x added up. */
  function Times(x: real, n: nat): real
  {
    if n == 0 then 0.0 else Times(x, n - 1) + x
  }

  lemma {:induction false} TimesIsProduct(x: real, n: nat)
    ensures Times(x, n) == x * n as real
  {
    if n > 0 {
      TimesIsProduct(x, n - 1);
      OneMore(x, n - 1);
    }
  }

  lemma OneMore(x: real, n: int)
    ensures x * (n + 1) as real == x * n as real + x
  {
  }

  lemma {:induction false} TimesSplits(x: real, m: nat, n: nat)
    ensures Times(x, m + n) == Times(x, m) + Times(x, n)
  {
    if n > 0 {
      TimesSplits(x, m, n - 1);
    }
  }

  /** Replacing a by a value x at most h away moves n copies by at most n copies of h. */
  lemma {:induction false} TimesNear(x: real, a: real, h: real, n: nat)
    requires -h <= x - a <= h
    ensures -Times(h, n) <= Times(x, n) - Times(a, n) <= Times(h, n)
  {
    if n > 0 {
      TimesNear(x, a, h, n - 1);
    }
  }

  lemma {:induction false} TimesOfSum(x: real, y: real, n: nat)
    ensures Times(x + y, n) == Times(x, n) + Times(y, n)
  {
    if n > 0 {
      TimesOfSum(x, y, n - 1);
    }
  }

  /** Dividing by the count undoes Times. */
  lemma QuotientTimes(total: real, n: nat)
    requires n > 0
    ensures Times(total / n as real, n) == total
  {
    TimesIsProduct(total / n as real, n);
  }

  lemma QuotientBounds(total: real, n: nat, lo: real, hi: real)
    requires n > 0 && Times(lo, n) <= total <= Times(hi, n)
    ensures lo <= total / n as real <= hi
  {
    TimesIsProduct(lo, n);
    TimesIsProduct(hi, n);
    QuotientSign(total, n as real, lo, hi);
  }

  lemma NearQuotient(x: real, h: real, total: real, n: nat)
    requires n > 0 && -Times(h, n) <= Times(x, n) - total <= Times(h, n)
    ensures -h <= x - total / n as real <= h
  {
    TimesOfSum(x, h, n);
    TimesOfSum(x - h, h, n);
    assert x - h + h == x;
    QuotientBounds(total, n, x - h, x + h);
  }

  lemma QuotientSign(total: real, n: real, lo: real, hi: real)
    requires n > 0.0 && lo * n <= total <= hi * n
    ensures lo <= total / n <= hi
  {
    var avg := total / n;
    assert avg * n == total;
    assert (avg - lo) * n == total - lo * n;
    assert (hi - avg) * n == hi * n - total;
  }

  /** A sum divided by r is the sum of the quotients. */
  lemma QuotientOfSum(x: real, y: real, r: real)
    requires r != 0.0
    ensures (x + y) / r == x / r + y / r
  {
  }

  lemma ProductMonotone(x: real, y: real, r: real)
    requires r > 0.0 && x <= y
    ensures x * r <= y * r
  {
    assert (y - x) * r == y * r - x * r;
  }

  /** A quotient known to within h, multiplied back, gives the dividend to within h * r. */
  lemma UndoDivision(v: real, r: real, q: real, h: real)
    requires r > 0.0 && -h <= q - v / r <= h
    ensures -(h * r) <= q * r - v <= h * r
  {
    var exact := v / r;
    assert exact * r == v;
    assert (q - exact) * r == q * r - exact * r;
    ProductMonotone(q - exact, h, r);
    ProductMonotone(-h, q - exact, r);
  }

  lemma QuotientIsOdd(v: real, r: real)
    requires r != 0.0
    ensures -v / r == -(v / r)
  {
  }
}
