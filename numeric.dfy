/** Arithmetic the display scripts share: Python's `int()` truncation, the
    float `%` operator, floor division by two for centring, degree/radian
    conversion and the aspect-preserving fit used before a resize.
    Python floats are modelled as exact reals. */
module Numeric {

  /** `math.pi` written out as a decimal literal. */
  const PI: real := 3.141592653589793

  /** `math.radians` */
  function Radians(deg: real): real
  {
    deg * PI / 180.0
  }

  /** `math.degrees` */
  function Degrees(rad: real): real
  {
    rad * 180.0 / PI
  }

  lemma RadiansOfDegrees(rad: real)
    ensures Radians(Degrees(rad)) == rad
  {
  }

  function Min(a: real, b: real): real
  {
    if a <= b then a else b
  }

  /** Python's `int(r)` on a float: truncation toward zero. */
  function Trunc(r: real): (i: int)
    ensures 0.0 <= r ==> 0 <= i && i as real <= r < i as real + 1.0
    ensures r <= 0.0 ==> i <= 0 && i as real - 1.0 < r <= i as real
  {
    if r >= 0.0 then r.Floor else -((-r).Floor)
  }

  /** Truncation never reverses the order of its arguments. */
  lemma TruncMonotone(a: real, b: real)
    requires a <= b
    ensures Trunc(a) <= Trunc(b)
  {
    if 0.0 <= a {
      assert a.Floor <= b.Floor;
    } else if b <= 0.0 {
      assert (-b).Floor <= (-a).Floor;
    }
  }

  /** A real that is a whole number. */
  predicate IsWhole(q: real)
  {
    q == q.Floor as real
  }

  /** Python's float `%` with a positive modulus: the result takes the sign
      of the modulus, and the argument minus the result is a whole multiple
      of the modulus. */
  function FMod(a: real, m: real): (r: real)
    requires 0.0 < m
    ensures 0.0 <= r < m
    ensures IsWhole((a - r) / m)
  {
    var f := (a / m).Floor as real;
    FloorBounds(a, m, f);
    a - m * f
  }

  /** The whole part f of a / m satisfies m * f <= a < m * f + m. */
  lemma FloorBounds(a: real, m: real, f: real)
    requires 0.0 < m && f == (a / m).Floor as real
    ensures m * f <= a < m * f + m
    ensures (a - (a - m * f)) / m == f
  {
    var q := a / m;
    assert a == m * q;
    MulLeftMonotone(m, f, q);
    MulLeftStrict(m, q, f + 1.0);
    assert a - (a - m * f) == m * f;
    assert (m * f) / m == f;
  }

  lemma MulLeftMonotone(m: real, a: real, b: real)
    requires 0.0 <= m && a <= b
    ensures m * a <= m * b
  {
  }

  lemma MulLeftStrict(m: real, a: real, b: real)
    requires 0.0 < m && a < b
    ensures m * a < m * b
  {
  }

  lemma MulNonneg(a: real, b: real)
    requires 0.0 <= a && 0.0 <= b
    ensures 0.0 <= a * b
  {
  }

  lemma SumNonneg(s: real, p: real, q: real)
    requires 0.0 <= p && 0.0 <= q && s == p + q
    ensures 0.0 <= s
  {
  }

  /** Python's `(outer - inner) // 2`: Dafny's `/` rounds toward minus
      infinity for a positive divisor, as Python's `//` does. */
  function CenterOffset(outer: int, inner: int): (o: int)
    ensures 2 * o <= outer - inner <= 2 * o + 1
  {
    (outer - inner) / 2
  }

  /** An image no larger than the screen, placed at the centring offset,
      starts on the screen, ends on it, and its two margins differ by at most
      one pixel (the larger one on the right or bottom). */
  lemma CenterOffsetFits(outer: int, inner: int)
    requires 0 <= inner <= outer
    ensures var o := CenterOffset(outer, inner);
      0 <= o && o + inner <= outer && o <= outer - inner - o <= o + 1
  {
  }

  /** `min(max_w / w, max_h / h)`: the factor that fits a w x h picture
      inside max_w x max_h without changing its shape. */
  function FitScale(maxW: int, maxH: int, w: int, h: int): real
    requires 0 < w && 0 < h
  {
    Min(maxW as real / w as real, maxH as real / h as real)
  }

  /** `(int(w * scale), int(h * scale))` with that one scale factor. */
  function FitSize(maxW: int, maxH: int, w: int, h: int): (int, int)
    requires 0 < w && 0 < h
  {
    var s := FitScale(maxW, maxH, w, h);
    (Trunc(w as real * s), Trunc(h as real * s))
  }

  /** The fitted size lies inside the box and fills it along at least one
      side. */
  lemma FitSizeFits(maxW: int, maxH: int, w: int, h: int)
    requires 0 < w && 0 < h && 0 <= maxW && 0 <= maxH
    ensures var (nw, nh) := FitSize(maxW, maxH, w, h);
      && 0 <= nw <= maxW && 0 <= nh <= maxH
      && (nw == maxW || nh == maxH)
  {
    if maxW as real / w as real <= maxH as real / h as real {
      FitAlong(maxW, maxH, w, h);
    } else {
      FitAlong(maxH, maxW, h, w);
      assert FitScale(maxW, maxH, w, h) == FitScale(maxH, maxW, h, w);
    }
  }

  /** When the width ratio is the smaller one, the width lands exactly on the
      box and the height stays inside it. */
  lemma FitAlong(maxW: int, maxH: int, w: int, h: int)
    requires 0 < w && 0 < h && 0 <= maxW && 0 <= maxH
    requires maxW as real / w as real <= maxH as real / h as real
    ensures var s := FitScale(maxW, maxH, w, h);
      && Trunc(w as real * s) == maxW
      && 0 <= Trunc(h as real * s) <= maxH
  {
    var s := maxW as real / w as real;
    assert FitScale(maxW, maxH, w, h) == s;
    MulLeftMonotone(h as real, 0.0, s);
    MulLeftMonotone(h as real, s, maxH as real / h as real);
    assert w as real * s == maxW as real;
  }

  /** The fitted picture, placed at the centring offsets of the box, lies
      entirely inside the box. */
  lemma FitCentred(maxW: int, maxH: int, w: int, h: int)
    requires 0 < w && 0 < h && 0 <= maxW && 0 <= maxH
    ensures var (nw, nh) := FitSize(maxW, maxH, w, h);
      && 0 <= CenterOffset(maxW, nw) && CenterOffset(maxW, nw) + nw <= maxW
      && 0 <= CenterOffset(maxH, nh) && CenterOffset(maxH, nh) + nh <= maxH
  {
    FitSizeFits(maxW, maxH, w, h);
    var (nw, nh) := FitSize(maxW, maxH, w, h);
    CenterOffsetFits(maxW, nw);
    CenterOffsetFits(maxH, nh);
  }

  /** Both sides are multiplied by the one factor, so truncation is the only
      distortion of the shape: the cross products nw * h and nh * w differ
      by less than one side of the original. */
  lemma FitKeepsShape(maxW: int, maxH: int, w: int, h: int)
    requires 0 < w && 0 < h && 0 <= maxW && 0 <= maxH
    ensures var (nw, nh) := FitSize(maxW, maxH, w, h);
      -(h as real) < h as real * nw as real - w as real * nh as real < w as real
  {
    var s := FitScale(maxW, maxH, w, h);
    assert 0.0 <= maxW as real / w as real && 0.0 <= maxH as real / h as real;
    MulNonneg(w as real, s);
    MulNonneg(h as real, s);
    var nw := Trunc(w as real * s);
    var nh := Trunc(h as real * s);
    assert FitSize(maxW, maxH, w, h).0 == nw;
    assert FitSize(maxW, maxH, w, h).1 == nh;
    TruncatedCross(w as real, h as real, s, nw as real, nh as real);
  }

  /** A fitted side truncates to zero exactly when the picture is more than
      `maxW` times wider than it is tall, or more than `maxH` times taller
      than it is wide; the side along which it fits never does. */
  lemma FitSizeZeroSide(maxW: int, maxH: int, w: int, h: int)
    requires 0 < w && 0 < h && 0 < maxW && 0 < maxH
    ensures var (nw, nh) := FitSize(maxW, maxH, w, h);
      (nw == 0 || nh == 0) <==>
        (maxW as real * h as real < w as real || maxH as real * w as real < h as real)
  {
    var s := FitScale(maxW, maxH, w, h);
    var nw, nh := Trunc(w as real * s), Trunc(h as real * s);
    assert FitSize(maxW, maxH, w, h).0 == nw;
    assert FitSize(maxW, maxH, w, h).1 == nh;
    if maxW as real / w as real <= maxH as real / h as real {
      FitAlongZero(maxW, maxH, w, h);
    } else {
      assert s == FitScale(maxH, maxW, h, w);
      FitAlongZero(maxH, maxW, h, w);
    }
  }

  /** When the width ratio is the smaller one, the width is `maxW` and the
      height truncates to zero iff `maxW * h < w`, while `maxH * w < h`
      cannot hold. */
  lemma FitAlongZero(maxW: int, maxH: int, w: int, h: int)
    requires 0 < w && 0 < h && 0 < maxW && 0 < maxH
    requires maxW as real / w as real <= maxH as real / h as real
    ensures var s := FitScale(maxW, maxH, w, h);
      && Trunc(w as real * s) == maxW
      && (Trunc(h as real * s) == 0 <==> maxW as real * h as real < w as real)
      && h as real <= maxH as real * w as real
  {
    FitAlong(maxW, maxH, w, h);
    var s := maxW as real / w as real;
    assert FitScale(maxW, maxH, w, h) == s;
    ScaledBelowOne(h as real, maxW as real, w as real);
    RatiosOrdered(maxW as real, maxH as real, w as real, h as real);
  }

  /** `b * (a / m)` is below one iff `a * b` is below `m`, and it truncates
      to zero exactly then. */
  lemma ScaledBelowOne(b: real, a: real, m: real)
    requires 0.0 < m && 0.0 <= a && 0.0 <= b
    ensures Trunc(b * (a / m)) == 0 <==> a * b < m
  {
    var t := b * (a / m);
    MulNonneg(b, a / m);
    assert t * m == a * b;
    if a * b < m {
      MulRightStrictInv(t, 1.0, m);
    } else {
      MulRightInv(1.0, t, m);
    }
  }

  /** From `W / w <= H / h` and `1 <= W`: `h <= H * w`. */
  lemma RatiosOrdered(W: real, H: real, w: real, h: real)
    requires 0.0 < w && 0.0 < h && 1.0 <= W
    requires W / w <= H / h
    ensures h <= H * w
  {
    MulLeftMonotone(w * h, W / w, H / h);
    assert w * h * (W / w) == W * h;
    assert w * h * (H / h) == H * w;
    MulLeftMonotone(h, 1.0, W);
  }

  /** Cancelling a positive factor on the right of a strict inequality. */
  lemma MulRightStrictInv(a: real, b: real, m: real)
    requires 0.0 < m && a * m < b * m
    ensures a < b
  {
  }

  /** Cancelling a positive factor on the right of an inequality. */
  lemma MulRightInv(a: real, b: real, m: real)
    requires 0.0 < m && a * m <= b * m
    ensures a <= b
  {
  }

  /** Truncating w * s and h * s moves each by less than one. */
  lemma TruncatedCross(w: real, h: real, s: real, nw: real, nh: real)
    requires 0.0 < w && 0.0 < h
    requires nw <= w * s < nw + 1.0 && nh <= h * s < nh + 1.0
    ensures -h < h * nw - w * nh < w
  {
    CrossHalf(w, h, s, nw, nh);
    CrossHalf(h, w, s, nh, nw);
  }

  /** Rounding w * s down and h * s by less than one up bounds the cross
      product from one side. */
  lemma CrossHalf(w: real, h: real, s: real, nw: real, nh: real)
    requires 0.0 < w && 0.0 < h
    requires nw <= w * s && h * s < nh + 1.0
    ensures h * nw - w * nh < w
  {
    var a, b := w * s, h * s;
    MulLeftMonotone(h, nw, a);
    MulLeftStrict(w, b - 1.0, nh);
    assert h * a == w * b by {
      assert h * (w * s) == (h * w) * s == (w * h) * s == w * (h * s);
    }
    assert w * (b - 1.0) == w * b - w;
  }
}
