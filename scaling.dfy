/**
 * The downscaling decision shared by both scripts: `ratio = max_size /
 * max(size)`, a resize only when `ratio < 1`, and each new dimension
 * `int(dim * ratio)`. Division is exact here (`real`); `int()` truncates
 * toward zero.
 */
module Scaling {
  import opened Wrappers

  /** Pixel dimensions of an opened image. */
  datatype Size = Size(width: int, height: int)
  {
    predicate Positive() { width > 0 && height > 0 }
  }

  function Longest(s: Size): int
  {
    if s.width >= s.height then s.width else s.height
  }

  /** `max_size / max(original_size)`. */
  function Ratio(maxSize: int, s: Size): real
    requires s.Positive()
  {
    maxSize as real / Longest(s) as real
  }

  /** Python's `int(x)` on a number: truncation toward zero. */
  function TruncToInt(x: real): (r: int)
    ensures x >= 0.0 ==> r as real <= x < r as real + 1.0
    ensures x < 0.0 ==> r as real - 1.0 < x <= r as real
  {
    if x >= 0.0 then x.Floor else -((-x).Floor)
  }

  /** `int(dim * ratio)`. */
  function ScaleDim(dim: int, ratio: real): int
  {
    TruncToInt(dim as real * ratio)
  }

  /**
   * The size passed to `img.resize`, or none when the image is left as it is:
   * a resize happens exactly when the longest side exceeds `max_size`, and
   * then (for a `max_size` that is not negative) each new side is
   * `floor(dim * max_size / max(w, h))`.
   */
  function ResizeTarget(s: Size, maxSize: int): (r: Option<Size>)
    requires s.Positive()
    ensures r.Some? <==> maxSize < Longest(s)
    ensures r.Some? && maxSize >= 0 ==>
      r.value == Size(s.width * maxSize / Longest(s), s.height * maxSize / Longest(s))
  {
    var ratio := Ratio(maxSize, s);
    RatioBelowOne(maxSize, Longest(s));
    ScaledSides(s, maxSize);
    if ratio < 1.0 then
      Some(Size(ScaleDim(s.width, ratio), ScaleDim(s.height, ratio)))
    else
      None
  }

  /** `max_size / longest < 1` exactly when `max_size < longest`. */
  lemma RatioBelowOne(maxSize: int, longest: int)
    requires longest > 0
    ensures maxSize as real / longest as real < 1.0 <==> maxSize < longest
  {
    var m := longest as real;
    if maxSize < longest {
      assert maxSize as real / m < 1.0 by {
        assert maxSize as real < m;
      }
    } else {
      assert maxSize as real / m >= 1.0 by {
        assert maxSize as real >= m;
      }
    }
  }

  /** Both truncated sides are floor quotients when `max_size` is not negative. */
  lemma ScaledSides(s: Size, maxSize: int)
    requires s.Positive()
    ensures maxSize >= 0 ==>
      && ScaleDim(s.width, Ratio(maxSize, s)) == s.width * maxSize / Longest(s)
      && ScaleDim(s.height, Ratio(maxSize, s)) == s.height * maxSize / Longest(s)
  {
    if maxSize >= 0 {
      ScaledIsQuotient(s.width, maxSize, Longest(s), Ratio(maxSize, s));
      ScaledIsQuotient(s.height, maxSize, Longest(s), Ratio(maxSize, s));
    }
  }

  // Small facts of integer arithmetic, each kept separate so that the solver
  // never has to find the multiplication steps itself.

  lemma MulLe(a: int, b: int, c: int)
    requires a <= b && c >= 0
    ensures a * c <= b * c
  {
    assert b * c - a * c == (b - a) * c;
  }

  lemma CancelLt(a: int, b: int, c: int)
    requires c > 0 && a * c < b * c
    ensures a < b
  {
    if a >= b { MulLe(b, a, c); }
  }

  lemma DivBounds(a: int, b: int)
    requires b > 0
    ensures (a / b) * b <= a < (a / b) * b + b
  {
  }

  lemma RealMulLt(a: real, b: real, c: real)
    requires a < b && c > 0.0
    ensures a * c < b * c
  {
    assert b * c - a * c == (b - a) * c;
  }

  lemma FloorUnique(x: real, a: int, b: int)
    requires a as real <= x < a as real + 1.0
    requires b as real <= x < b as real + 1.0
    ensures a == b
  {
  }

  /** Exact division lies between the integer quotient and its successor. */
  lemma RealQuotient(n: int, d: int, q: int)
    requires d > 0 && q * d <= n < q * d + d
    ensures q as real <= n as real / d as real < q as real + 1.0
  {
    var x := n as real / d as real;
    assert n as real == x * d as real;
    assert (q * d) as real == q as real * d as real;
    assert (q * d + d) as real == (q as real + 1.0) * d as real;
    if x < q as real {
      RealMulLt(x, q as real, d as real);
    }
    if x >= q as real + 1.0 {
      if x > q as real + 1.0 {
        RealMulLt(q as real + 1.0, x, d as real);
      }
    }
  }

  /** The truncated product is the integer quotient (for non-negative operands). */
  lemma {:induction false} ScaledIsQuotient(dim: int, maxSize: int, longest: int, ratio: real)
    requires dim >= 0 && maxSize >= 0 && longest > 0
    requires ratio == maxSize as real / longest as real
    ensures ScaleDim(dim, ratio) == dim * maxSize / longest
  {
    var n := dim * maxSize;
    var q := n / longest;
    DivBounds(n, longest);
    var x := dim as real * ratio;
    assert x == n as real / longest as real by {
      assert n as real == dim as real * maxSize as real;
    }
    RealQuotient(n, longest, q);
    FloorUnique(x, TruncToInt(x), q);
  }

  lemma QuotientLe(n: int, q: int, d: int, bound: int)
    requires d > 0 && q == n / d && n <= bound * d
    ensures q <= bound
  {
    DivBounds(n, d);
    assert q * d < bound * d + d;
    assert bound * d + d == (bound + 1) * d;
    CancelLt(q, bound + 1, d);
  }

  lemma ExactQuotient(a: int, b: int)
    requires b > 0
    ensures a * b / b == a
  {
    var q := a * b / b;
    DivBounds(a * b, b);
    CancelLt(q, a + 1, b);
    assert (q + 1) * b == q * b + b;
    CancelLt(a, q + 1, b);
  }

  /** Scaling `x` by a factor `y / d` of at most one gives at most `x`. */
  lemma ScaledAtMost(x: int, y: int, d: int)
    requires x >= 0 && 0 <= y <= d && d > 0
    ensures 0 <= x * y / d <= x
  {
    MulLe(y, d, x);
    QuotientLe(x * y, x * y / d, d, x);
  }

  lemma {:induction false} QuotientBounds(dim: int, maxSize: int, longest: int)
    requires 0 < dim <= longest && 0 <= maxSize < longest
    ensures 0 <= dim * maxSize / longest <= dim
    ensures dim * maxSize / longest <= maxSize
    ensures dim == longest ==> dim * maxSize / longest == maxSize
  {
    ScaledAtMost(dim, maxSize, longest);
    ScaledAtMost(maxSize, dim, longest);
    assert maxSize * dim == dim * maxSize;
    if dim == longest {
      ExactQuotient(maxSize, longest);
    }
  }

  /** A thin image gets a side of zero even with a positive `max_size`. */
  lemma ThinImageGetsZeroSide()
    ensures ResizeTarget(Size(1, 2000), 1000) == Some(Size(0, 1000))
  {
    assert 1 * 1000 / 2000 == 0 && 2000 * 1000 / 2000 == 1000;
  }

  /**
   * No upscaling: a resized image is no larger in either direction, its longest
   * side is exactly `max_size`, and without a resize the longest side was
   * already within `max_size`.
   */
  lemma NeverUpscales(s: Size, maxSize: int)
    requires s.Positive() && maxSize >= 0
    ensures ResizeTarget(s, maxSize).Some? ==>
      var t := ResizeTarget(s, maxSize).value;
      && 0 <= t.width <= s.width && 0 <= t.height <= s.height
      && Longest(t) == maxSize
    ensures ResizeTarget(s, maxSize).None? ==> Longest(s) <= maxSize
  {
    if ResizeTarget(s, maxSize).Some? {
      QuotientBounds(s.width, maxSize, Longest(s));
      QuotientBounds(s.height, maxSize, Longest(s));
    }
  }

  lemma SwapMul(x: int, y: int, z: int)
    ensures (x * y) * z == (x * z) * y
  {
  }

  lemma AddOneMul(x: int, y: int)
    ensures (x + 1) * y == x * y + y
  {
  }

  lemma FactorMul(q: int, m: int, a: int)
    ensures (q * m + m) * a == (q * a + a) * m
  {
    assert (q * m + m) * a == (q + 1) * m * a;
    assert (q * a + a) * m == (q + 1) * a * m;
  }

  /** One half of the aspect bound: `floor(a*k/m) * b < floor(b*k/m) * a + a`. */
  lemma {:induction false} CrossBound(a: int, b: int, m: int, k: int)
    requires a > 0 && b > 0 && m > 0 && k >= 0
    ensures (a * k / m) * b < (b * k / m) * a + a
  {
    var qa, qb := a * k / m, b * k / m;
    DivBounds(a * k, m);
    DivBounds(b * k, m);
    // qa * m <= a * k, so qa * m * b <= a * k * b
    MulLe(qa * m, a * k, b);
    // b * k < (qb + 1) * m, so b * k * a < (qb + 1) * m * a
    MulLe(b * k + 1, qb * m + m, a);
    AddOneMul(b * k, a);
    FactorMul(qb, m, a);
    SwapMul(qa, m, b);
    SwapMul(a, k, b);
    SwapMul(b, k, a);
    CancelLt(qa * b, qb * a + a, m);
  }

  /**
   * The aspect ratio survives up to truncation: with new size (w', h'),
   * `-h < w' * h - h' * w < w`.
   */
  lemma AspectPreserved(s: Size, maxSize: int)
    requires s.Positive() && maxSize >= 0
    requires ResizeTarget(s, maxSize).Some?
    ensures var t := ResizeTarget(s, maxSize).value;
      -s.height < t.width * s.height - t.height * s.width < s.width
  {
    CrossBound(s.width, s.height, Longest(s), maxSize);
    CrossBound(s.height, s.width, Longest(s), maxSize);
  }
}
