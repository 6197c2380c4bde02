/** Rounding of exact ratios: to the nearest integer, ties to the even one. */
module Rounding {

  /** `round(num / den)`. */
  function Round(num: int, den: int): int
    requires den > 0
  {
    var q, r := num / den, num % den;
    if 2 * r < den || (2 * r == den && q % 2 == 0) then q else q + 1
  }

  lemma ProductOrder(a: int, b: int, den: int)
    requires den > 0 && a <= b
    ensures a * den <= b * den
  {
  }

  lemma CancelOrder(a: int, b: int, den: int)
    requires den > 0 && a * den <= b * den
    ensures a <= b
  {
    if b < a {
      ProductOrder(b + 1, a, den);
    }
  }

  lemma CancelStrictOrder(a: int, b: int, den: int)
    requires den > 0 && a * den < b * den
    ensures a < b
  {
    if b <= a {
      ProductOrder(b, a, den);
    }
  }

  /** The ratio is at most `k` and a half, where the half itself rounds to the even side. */
  predicate IsWithin(num: int, den: int, k: int) {
    if k % 2 == 0 then 2 * num <= (2 * k + 1) * den else 2 * num < (2 * k + 1) * den
  }

  /** A rounded ratio is at most `k` exactly when the ratio is at most `k` and a half. */
  lemma RoundAtMost(num: int, den: int, k: int)
    requires den > 0
    ensures Round(num, den) <= k <==> IsWithin(num, den, k)
  {
    var q, r := num / den, num % den;
    assert num == q * den + r;
    assert (2 * k + 1) * den == 2 * (k * den) + den;
    if q < k {
      ProductOrder(q + 1, k, den);
      assert (q + 1) * den == q * den + den;
    } else if q > k {
      ProductOrder(k + 1, q, den);
      assert (k + 1) * den == k * den + den;
    }
  }

  /** The integer closest to the ratio; of two equally close ones the even one. */
  ghost predicate IsNearest(q: int, num: int, den: int) {
    && -den <= 2 * (num - q * den) <= den
    && (2 * (num - q * den) == den || 2 * (num - q * den) == -den ==> q % 2 == 0)
  }

  lemma RoundIsNearest(num: int, den: int, q: int)
    requires den > 0
    ensures Round(num, den) == q <==> IsNearest(q, num, den)
  {
    var k, r := num / den, num % den;
    assert num == k * den + r;
    var gap := q - k;
    assert q * den == k * den + gap * den;
    if gap >= 2 {
      ProductOrder(2, gap, den);
    } else if gap <= -1 {
      ProductOrder(gap, -1, den);
    }
  }

  lemma WithinIsDownward(a: int, b: int, c: int, d: int, k: int)
    requires b > 0 && d > 0 && a * d <= c * b && IsWithin(c, d, k)
    ensures IsWithin(a, b, k)
  {
    var h := 2 * k + 1;
    assert (2 * a) * d <= (2 * c) * b by {
      assert (2 * a) * d == 2 * (a * d) && (2 * c) * b == 2 * (c * b);
    }
    assert (h * d) * b == (h * b) * d;
    if k % 2 == 0 {
      ProductOrder(2 * c, h * d, b);
      CancelOrder(2 * a, h * b, d);
    } else {
      assert (2 * c) * b < (h * d) * b by {
        ProductOrder(2 * c + 1, h * d, b);
        assert (2 * c + 1) * b == (2 * c) * b + b;
      }
      CancelStrictOrder(2 * a, h * b, d);
    }
  }

  /** Rounding keeps the order of ratios. */
  lemma RoundIsMonotone(a: int, b: int, c: int, d: int)
    requires b > 0 && d > 0 && a * d <= c * b
    ensures Round(a, b) <= Round(c, d)
  {
    var k := Round(c, d);
    RoundAtMost(c, d, k);
    WithinIsDownward(a, b, c, d, k);
    RoundAtMost(a, b, k);
  }

  /** Two parts of a whole: the ratio of the sums lies between the ratios, also after rounding. */
  lemma MediantIsBetween(a: int, b: int, c: int, d: int)
    requires b > 0 && d > 0 && a * d <= c * b
    ensures Round(a, b) <= Round(a + c, b + d) <= Round(c, d)
  {
    assert a * (b + d) == a * b + a * d;
    assert (a + c) * b == a * b + c * b;
    RoundIsMonotone(a, b, a + c, b + d);
    assert (a + c) * d == a * d + c * d;
    assert c * (b + d) == c * b + c * d;
    RoundIsMonotone(a + c, b + d, c, d);
  }
}
