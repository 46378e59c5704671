/** The curve of `generateCurveLUT` is described in its source as a
    monotonic cubic spline, but its interior tangent is the plain mean of the
    two neighbouring secants, with no limit. On rising control points the
    curve can then dip below a knot (`RisingPointsCanDip`).

    This module defines the curve with the tangents limited as the
    monotonicity constraint of Hyman requires: an interior tangent is at most
    three times the smaller neighbouring secant. It proves that rising
    control points then give a table that never decreases
    (`LimitedLutRises`). */
module MonotoneCurve {
  import opened Types
  import opened CurveAlgorithms

  // ---------------------------------------------------------------------
  // The curve as written dips on rising points
  // ---------------------------------------------------------------------

  /** The rising points used below: (0,100), (10,110), (20,255). */
  function DipPoints(): seq<CurvePoint> {
    [CurvePoint("a", 0, 100), CurvePoint("b", 10, 110), CurvePoint("c", 20, 255)]
  }

  lemma DipPointsStrict()
    ensures StrictlyIncreasingX(DipPoints())
  {
  }

  lemma DipPointsSorted()
    ensures SortByX(DipPoints()) == DipPoints() && Interpolable(DipPoints())
  {
    DipPointsStrict();
    SortedPermutationsEqual(DipPoints(), SortByX(DipPoints()));
  }

  lemma DipPointsKnots()
    ensures Xs(DipPoints()) == [0, 10, 20] && Ys(DipPoints()) == [100, 110, 255]
  {
  }

  /** The secants are 1 and 14.5, so the source's tangent at (10,110) is
      their mean 7.75. */
  lemma DipPointsTangents()
    ensures Knots([0, 10, 20], [100, 110, 255])
    ensures Tangents(Secants([0, 10, 20], [100, 110, 255])) == [1.0, 7.75, 14.5]
  {
    var ms := Secants([0, 10, 20], [100, 110, 255]);
    assert ms[0] * 10.0 == 10.0 && ms[1] * 10.0 == 145.0;
    assert ms == [1.0, 14.5];
    TangentsRule(ms);
  }

  /** Halfway along the first segment the curve is at 96.5625, rounded to 97. */
  lemma DipValue()
    ensures Knots([0, 10, 20], [100, 110, 255])
    ensures LevelValue([0, 10, 20], [100, 110, 255], [1.0, 7.75, 14.5], 5) == 97
  {
    var xs: seq<int> := [0, 10, 20];
    assert Segment(xs, 5, 0) == 0;
    assert Hermite(100.0, 110.0, 1.0, 7.75, 10.0, 0.5) == 96.5625;
    assert Round(96.5625) == 97;
  }

  /** The table of the rising points (0,100), (10,110), (20,255) starts at
      100 but gives 97 at level 5: the mean tangent 7.75 at (10,110) makes
      the first segment dip below its start. */
  lemma RisingPointsCanDip()
    ensures Interpolable(DipPoints())
    ensures CurveLut(DipPoints())[0] == 100 && CurveLut(DipPoints())[5] == 97
  {
    DipLut();
    DipPointsKnots();
    DipSamples();
  }

  /** The curve through the three knots at levels 0 and 5. */
  lemma DipSamples()
    ensures Knots([0, 10, 20], [100, 110, 255])
    ensures SampledCurve([0, 10, 20], [100, 110, 255])[0] == 100
    ensures SampledCurve([0, 10, 20], [100, 110, 255])[5] == 97
  {
    DipPointsTangents();
    DipValue();
  }

  /** The table of `DipPoints` is the curve through their three knots. */
  lemma DipLut()
    ensures Interpolable(DipPoints()) && Knots(Xs(DipPoints()), Ys(DipPoints()))
    ensures CurveLut(DipPoints()) == SampledCurve(Xs(DipPoints()), Ys(DipPoints()))
  {
    DipPointsSorted();
    DipPointsStrict();
    StrictXsIncrease(DipPoints());
  }

  // ---------------------------------------------------------------------
  // Limited tangents
  // ---------------------------------------------------------------------

  function Min(a: real, b: real): real { if a <= b then a else b }

  function Max(a: real, b: real): real { if a <= b then b else a }

  /** Two slopes that do not have the same strict sign: the curve turns or
      flattens between them (`mPrev * mNext <= 0` in the source). */
  predicate Opposed(mPrev: real, mNext: real) {
    (mPrev <= 0.0 && mNext >= 0.0) || (mPrev >= 0.0 && mNext <= 0.0)
  }

  lemma OpposedIsSignOfProduct(mPrev: real, mNext: real)
    ensures Opposed(mPrev, mNext) <==> mPrev * mNext <= 0.0
  {
    if mPrev > 0.0 && mNext > 0.0 {
      ProductNonNegative(mPrev, mNext);
      assert mPrev * mNext != 0.0;
    } else if mPrev < 0.0 && mNext < 0.0 {
      ProductNonNegative(-mPrev, -mNext);
      assert mPrev * mNext != 0.0;
    } else if mPrev <= 0.0 && mNext >= 0.0 {
      ProductNonNegative(-mPrev, mNext);
    } else {
      ProductNonNegative(mPrev, -mNext);
    }
  }

  /** The source's interior tangent, the mean of the two secants, cut back to
      three times the neighbouring secant of smaller size. */
  function LimitedTangent(mPrev: real, mNext: real): (c: real)
    ensures Opposed(mPrev, mNext) ==> c == 0.0
    ensures mPrev > 0.0 && mNext > 0.0 ==>
      0.0 < c <= (mPrev + mNext) / 2.0 && c <= 3.0 * mPrev && c <= 3.0 * mNext
    ensures mPrev < 0.0 && mNext < 0.0 ==>
      (mPrev + mNext) / 2.0 <= c < 0.0 && 3.0 * mPrev <= c && 3.0 * mNext <= c
  {
    if Opposed(mPrev, mNext) then 0.0
    else if mPrev > 0.0 then Min((mPrev + mNext) / 2.0, 3.0 * Min(mPrev, mNext))
    else Max((mPrev + mNext) / 2.0, 3.0 * Max(mPrev, mNext))
  }

  /** The limited tangent is the source's `InteriorTangent` wherever that
      already lies within three times both secants, and is never further
      from 0 than it. */
  lemma LimitedWithinInterior(mPrev: real, mNext: real)
    ensures var c, m := LimitedTangent(mPrev, mNext), InteriorTangent(mPrev, mNext);
      (m >= 0.0 ==> 0.0 <= c <= m) && (m <= 0.0 ==> m <= c <= 0.0)
    ensures var c, m := LimitedTangent(mPrev, mNext), InteriorTangent(mPrev, mNext);
      (mPrev > 0.0 && mNext > 0.0 && m <= 3.0 * Min(mPrev, mNext) ==> c == m)
      && (mPrev < 0.0 && mNext < 0.0 && m >= 3.0 * Max(mPrev, mNext) ==> c == m)
  {
    OpposedIsSignOfProduct(mPrev, mNext);
  }

  /** End points keep the slope of their only segment; interior points take
      the limited tangent. */
  function LimitedTangents(ms: seq<real>): (cs: seq<real>)
    requires |ms| >= 1
    ensures |cs| == |ms| + 1
    ensures cs[0] == ms[0] && cs[|ms|] == ms[|ms| - 1]
    ensures forall i :: 0 < i < |ms| ==> cs[i] == LimitedTangent(ms[i - 1], ms[i])
  {
    seq(|ms| + 1, i requires 0 <= i <= |ms| =>
      if i == 0 then ms[0]
      else if i == |ms| then ms[|ms| - 1]
      else LimitedTangent(ms[i - 1], ms[i]))
  }

  /** The samples of the curve through the knots, with limited tangents. */
  function LimitedSampledCurve(xs: seq<int>, ys: seq<int>): (lut: seq<int>)
    requires Knots(xs, ys)
    ensures |lut| == LEVELS
  {
    var cs := LimitedTangents(Secants(xs, ys));
    seq(LEVELS, level => LevelValue(xs, ys, cs, level))
  }

  /** The table built like `CurveLut`, with limited tangents. */
  function LimitedLut(points: seq<CurvePoint>): (lut: seq<int>)
    requires Interpolable(points)
    ensures |lut| == LEVELS
  {
    var sorted := SortByX(points);
    if |sorted| < 2 then seq(LEVELS, i => i)
    else LimitedSampledCurve(Xs(sorted), Ys(sorted))
  }

  // ---------------------------------------------------------------------
  // A Hermite segment with small enough tangents rises
  // ---------------------------------------------------------------------

  /** The factor left after taking `t2 - t1` out of the rise of a segment
      from `t1` to `t2`, with `s` standing for `t1 + t2` and `q` for
      `t1² + t1·t2 + t2²`; `d` is the segment's rise and `dm0`, `dm1` its
      tangents times its width. */
  function RiseFactor(d: real, dm0: real, dm1: real, s: real, q: real): real {
    d * (3.0 * s - 2.0 * q) + dm0 * (q - 2.0 * s + 1.0) + dm1 * (q - s)
  }

  /** The segment written as its start plus its rise and two tangent terms,
      with the square and the cube of the position as separate values. */
  function Expanded(p0: real, d: real, dm0: real, dm1: real, t: real, sq: real, cube: real): real {
    p0 + d * (3.0 * sq - 2.0 * cube) + dm0 * (cube - 2.0 * sq + t) + dm1 * (cube - sq)
  }

  /** `Expanded` at position `t`. */
  function ExpandedAt(p0: real, d: real, dm0: real, dm1: real, t: real): real {
    Expanded(p0, d, dm0, dm1, t, t * t, t * t * t)
  }

  /** The rise from `t1` to `t2`: their distance times `RiseFactor`. */
  function Rise(d: real, dm0: real, dm1: real, t1: real, t2: real): real {
    (t2 - t1) * RiseFactor(d, dm0, dm1, t1 + t2, t1 * t1 + t1 * t2 + t2 * t2)
  }

  lemma HermiteExpanded(p0: real, p1: real, m0: real, m1: real, h: real, t: real)
    ensures Hermite(p0, p1, m0, m1, h, t) == ExpandedAt(p0, p1 - p0, h * m0, h * m1, t)
  {
    var sq := t * t;
    var cube := sq * t;
    var h10, h11 := cube - 2.0 * sq + t, cube - sq;
    assert h10 * h * m0 == h10 * (h * m0);
    assert h11 * h * m1 == h11 * (h * m1);
  }

  lemma PowersOf(t1: real, t2: real, sq1: real, sq2: real, cube1: real, cube2: real)
    requires sq1 == t1 * t1 && sq2 == t2 * t2 && cube1 == sq1 * t1 && cube2 == sq2 * t2
    ensures sq2 - sq1 == (t2 - t1) * (t1 + t2)
    ensures cube2 - cube1 == (t2 - t1) * (t1 * t1 + t1 * t2 + t2 * t2)
  {
  }

  /** The rise of the expanded form once the differences of the squares and
      of the cubes are factored. */
  lemma RiseOfParts(p0: real, d: real, dm0: real, dm1: real, t1: real, t2: real,
                    sq1: real, sq2: real, cube1: real, cube2: real, s: real, q: real)
    requires sq2 - sq1 == (t2 - t1) * s && cube2 - cube1 == (t2 - t1) * q
    ensures Expanded(p0, d, dm0, dm1, t2, sq2, cube2)
         == Expanded(p0, d, dm0, dm1, t1, sq1, cube1) + (t2 - t1) * RiseFactor(d, dm0, dm1, s, q)
  {
    var e := t2 - t1;
    assert d * (3.0 * sq2 - 2.0 * cube2) - d * (3.0 * sq1 - 2.0 * cube1) == d * (3.0 * (e * s) - 2.0 * (e * q));
    assert dm0 * (cube2 - 2.0 * sq2 + t2) - dm0 * (cube1 - 2.0 * sq1 + t1) == dm0 * (e * q - 2.0 * (e * s) + e);
    assert dm1 * (cube2 - sq2) - dm1 * (cube1 - sq1) == dm1 * (e * q - e * s);
  }

  /** `RiseOfParts` with the squares and cubes as separate values tied to
      the positions. */
  lemma PowersRise(p0: real, d: real, dm0: real, dm1: real, t1: real, t2: real,
                   sq1: real, sq2: real, cube1: real, cube2: real)
    requires sq1 == t1 * t1 && sq2 == t2 * t2 && cube1 == sq1 * t1 && cube2 == sq2 * t2
    ensures Expanded(p0, d, dm0, dm1, t2, sq2, cube2) == Expanded(p0, d, dm0, dm1, t1, sq1, cube1) + Rise(d, dm0, dm1, t1, t2)
  {
    PowersOf(t1, t2, sq1, sq2, cube1, cube2);
    RiseOfParts(p0, d, dm0, dm1, t1, t2, sq1, sq2, cube1, cube2, t1 + t2, t1 * t1 + t1 * t2 + t2 * t2);
  }

  lemma ExpandedRise(p0: real, d: real, dm0: real, dm1: real, t1: real, t2: real)
    ensures ExpandedAt(p0, d, dm0, dm1, t2) == ExpandedAt(p0, d, dm0, dm1, t1) + Rise(d, dm0, dm1, t1, t2)
  {
    PowersRise(p0, d, dm0, dm1, t1, t2, t1 * t1, t2 * t2, t1 * t1 * t1, t2 * t2 * t2);
  }

  /** The value at `t2` is the value at `t1` plus the distance between them
      times `RiseFactor`. */
  lemma HermiteRise(p0: real, p1: real, m0: real, m1: real, h: real, t1: real, t2: real)
    ensures Hermite(p0, p1, m0, m1, h, t2) == Hermite(p0, p1, m0, m1, h, t1) + Rise(p1 - p0, h * m0, h * m1, t1, t2)
  {
    HermiteExpanded(p0, p1, m0, m1, h, t1);
    HermiteExpanded(p0, p1, m0, m1, h, t2);
    ExpandedRise(p0, p1 - p0, h * m0, h * m1, t1, t2);
  }

  lemma ProductNonNegative(a: real, b: real)
    requires a >= 0.0 && b >= 0.0
    ensures a * b >= 0.0
  {
  }

  // Four quadratic forms of two positions that are never negative.

  lemma SpreadForm(t1: real, t2: real)
    requires 0.0 <= t1 <= 1.0 && 0.0 <= t2 <= 1.0
    ensures 3.0 * (t1 + t2) - 2.0 * (t1 * t1 + t1 * t2 + t2 * t2) >= 0.0
  {
    ProductNonNegative(t1, 1.0 - t1);
    ProductNonNegative(t2, 1.0 - t2);
    ProductNonNegative(t1, 1.0 - t2);
    ProductNonNegative(t2, 1.0 - t1);
    assert 3.0 * (t1 + t2) - 2.0 * (t1 * t1 + t1 * t2 + t2 * t2)
      == 2.0 * (t1 * (1.0 - t1)) + 2.0 * (t2 * (1.0 - t2)) + t1 * (1.0 - t2) + t2 * (1.0 - t1);
  }

  lemma FarForm(t1: real, t2: real)
    requires 0.0 <= t1 <= 1.0 && 0.0 <= t2 <= 1.0
    ensures (t1 * t1 + t1 * t2 + t2 * t2) - 3.0 * (t1 + t2) + 3.0 >= 0.0
  {
    var x, y := 1.0 - t1, 1.0 - t2;
    ProductNonNegative(x, x);
    ProductNonNegative(x, y);
    ProductNonNegative(y, y);
    assert (t1 * t1 + t1 * t2 + t2 * t2) - 3.0 * (t1 + t2) + 3.0 == x * x + x * y + y * y;
  }

  lemma NearForm(t1: real, t2: real)
    requires 0.0 <= t1 && 0.0 <= t2
    ensures t1 * t1 + t1 * t2 + t2 * t2 >= 0.0
  {
    ProductNonNegative(t1, t1);
    ProductNonNegative(t1, t2);
    ProductNonNegative(t2, t2);
  }

  lemma MiddleForm(t1: real, t2: real)
    ensures 4.0 * (t1 * t1 + t1 * t2 + t2 * t2) - 6.0 * (t1 + t2) + 3.0 >= 0.0
  {
    var u, v := t1 - 0.5, t2 - 0.5;
    var w := u + v / 2.0;
    assert w * w >= 0.0;
    assert v * v >= 0.0;
    assert u * u + u * v + v * v == w * w + 0.75 * (v * v);
    assert 4.0 * (t1 * t1 + t1 * t2 + t2 * t2) - 6.0 * (t1 + t2) + 3.0 == 4.0 * (u * u + u * v + v * v);
  }

  /** The factor with `s` and `q` as plain values: each tangent term is at
      least its value at 0 or at 3d, whichever is smaller, and each of the
      four resulting corners is one of the forms above times `d`. */
  lemma FactorFromForms(d: real, dm0: real, dm1: real, s: real, q: real)
    requires 0.0 <= dm0 <= 3.0 * d && 0.0 <= dm1 <= 3.0 * d
    requires 3.0 * s - 2.0 * q >= 0.0 && q - 3.0 * s + 3.0 >= 0.0 && q >= 0.0
    requires 4.0 * q - 6.0 * s + 3.0 >= 0.0
    ensures RiseFactor(d, dm0, dm1, s, q) >= 0.0
  {
    var a, b := q - 2.0 * s + 1.0, q - s;
    var lowA := if a >= 0.0 then 0.0 else 3.0 * a;
    var lowB := if b >= 0.0 then 0.0 else 3.0 * b;
    if a >= 0.0 {
      ProductNonNegative(dm0, a);
    } else {
      ProductNonNegative(3.0 * d - dm0, -a);
    }
    if b >= 0.0 {
      ProductNonNegative(dm1, b);
    } else {
      ProductNonNegative(3.0 * d - dm1, -b);
    }
    assert dm0 * a >= d * lowA && dm1 * b >= d * lowB;
    ProductNonNegative(d, 3.0 * s - 2.0 * q + lowA + lowB);
  }

  /** With both tangents between 0 and three times the secant, the factor is
      never negative on [0,1]. */
  lemma RiseFactorNonNegative(d: real, dm0: real, dm1: real, t1: real, t2: real)
    requires 0.0 <= t1 <= 1.0 && 0.0 <= t2 <= 1.0
    requires 0.0 <= dm0 <= 3.0 * d && 0.0 <= dm1 <= 3.0 * d
    ensures RiseFactor(d, dm0, dm1, t1 + t2, t1 * t1 + t1 * t2 + t2 * t2) >= 0.0
  {
    SpreadForm(t1, t2);
    FarForm(t1, t2);
    NearForm(t1, t2);
    MiddleForm(t1, t2);
    FactorFromForms(d, dm0, dm1, t1 + t2, t1 * t1 + t1 * t2 + t2 * t2);
  }

  /** Forwards along the segment the rise is never negative. */
  lemma RiseNonNegative(d: real, dm0: real, dm1: real, t1: real, t2: real)
    requires 0.0 <= t1 <= t2 <= 1.0
    requires 0.0 <= dm0 <= 3.0 * d && 0.0 <= dm1 <= 3.0 * d
    ensures Rise(d, dm0, dm1, t1, t2) >= 0.0
  {
    RiseFactorNonNegative(d, dm0, dm1, t1, t2);
    ProductNonNegative(t2 - t1, RiseFactor(d, dm0, dm1, t1 + t2, t1 * t1 + t1 * t2 + t2 * t2));
  }

  /** A segment whose tangents lie between 0 and three times its secant never
      falls. */
  lemma HermiteRises(p0: real, p1: real, m0: real, m1: real, h: real, t1: real, t2: real)
    requires h > 0.0 && p0 <= p1
    requires 0.0 <= m0 && h * m0 <= 3.0 * (p1 - p0)
    requires 0.0 <= m1 && h * m1 <= 3.0 * (p1 - p0)
    requires 0.0 <= t1 <= t2 <= 1.0
    ensures Hermite(p0, p1, m0, m1, h, t1) <= Hermite(p0, p1, m0, m1, h, t2)
  {
    ProductNonNegative(h, m0);
    ProductNonNegative(h, m1);
    RiseNonNegative(p1 - p0, h * m0, h * m1, t1, t2);
    HermiteRise(p0, p1, m0, m1, h, t1, t2);
  }

  // ---------------------------------------------------------------------
  // Rising knots give a rising table
  // ---------------------------------------------------------------------

  predicate Rising(ys: seq<int>) {
    forall i, j :: 0 <= i <= j < |ys| ==> ys[i] <= ys[j]
  }

  predicate Bytes(ys: seq<int>) {
    forall i :: 0 <= i < |ys| ==> 0 <= ys[i] <= 255
  }

  /** Every secant of rising knots is at least 0. */
  lemma SecantsOfRising(xs: seq<int>, ys: seq<int>)
    requires Knots(xs, ys) && Rising(ys)
    ensures forall j :: 0 <= j < |xs| - 1 ==> Secants(xs, ys)[j] >= 0.0
  {
    forall j | 0 <= j < |xs| - 1 ensures Secants(xs, ys)[j] >= 0.0 {
      RisingSecant(xs, ys, j);
    }
  }

  /** With secants of at least 0, each tangent at either end of segment `i`
      lies between 0 and three times that segment's secant. */
  lemma TangentWithinThreeSecants(ms: seq<real>, i: nat, k: nat)
    requires i < |ms| && (k == i || k == i + 1)
    requires forall j :: 0 <= j < |ms| ==> ms[j] >= 0.0
    ensures 0.0 <= LimitedTangents(ms)[k] <= 3.0 * ms[i]
  {
    if 0 < k < |ms| {
      assert LimitedTangents(ms)[k] == LimitedTangent(ms[k - 1], ms[k]);
    }
  }

  /** The width of segment `i`. */
  function Width(xs: seq<int>, i: nat): real
    requires i < |xs| - 1
  {
    (xs[i + 1] - xs[i]) as real
  }

  /** Where `level` lies along segment `i`, from 0 at its start to 1 at its
      end. */
  function Position(xs: seq<int>, i: nat, level: int): real
    requires i < |xs| - 1 && xs[i] < xs[i + 1]
  {
    (level - xs[i]) as real / Width(xs, i)
  }

  /** The rise of slope `m` over width `h`. */
  function RiseOver(m: real, h: real): real {
    m * h
  }

  /** The secant of a segment times its width is its rise. */
  lemma SecantAcross(xs: seq<int>, ys: seq<int>, i: nat)
    requires Knots(xs, ys) && i < |xs| - 1
    ensures Width(xs, i) > 0.0
    ensures RiseOver(Secants(xs, ys)[i], Width(xs, i)) == ys[i + 1] as real - ys[i] as real
  {
  }

  /** A tangent of at most three times the secant, times the width, is at
      most three times the rise. */
  lemma ScaledTangent(h: real, c: real, m: real, d: real)
    requires h > 0.0 && c <= 3.0 * m && RiseOver(m, h) == d
    ensures h * c <= 3.0 * d
  {
    ProductNonNegative(h, 3.0 * m - c);
  }

  /** On rising knots, the limited tangents at both ends of a segment lie
      between 0 and three times the segment's secant. */
  lemma LimitedTangentsFit(xs: seq<int>, ys: seq<int>, i: nat)
    requires Knots(xs, ys) && Rising(ys) && i < |xs| - 1
    ensures 0.0 <= LimitedTangents(Secants(xs, ys))[i] <= 3.0 * Secants(xs, ys)[i]
    ensures 0.0 <= LimitedTangents(Secants(xs, ys))[i + 1] <= 3.0 * Secants(xs, ys)[i]
  {
    SecantsOfRising(xs, ys);
    TangentWithinThreeSecants(Secants(xs, ys), i, i);
    TangentWithinThreeSecants(Secants(xs, ys), i, i + 1);
  }

  /** A segment with such tangents stays between its end values. */
  lemma HermiteBetween(p0: real, p1: real, m0: real, m1: real, h: real, t: real)
    requires h > 0.0 && p0 <= p1
    requires 0.0 <= m0 && h * m0 <= 3.0 * (p1 - p0)
    requires 0.0 <= m1 && h * m1 <= 3.0 * (p1 - p0)
    requires 0.0 <= t <= 1.0
    ensures p0 <= Hermite(p0, p1, m0, m1, h, t) <= p1
  {
    HermiteEnds(p0, p1, m0, m1, h);
    HermiteRises(p0, p1, m0, m1, h, 0.0, t);
    HermiteRises(p0, p1, m0, m1, h, t, 1.0);
  }

  /** `HermiteRises` for tangents bounded by the secant `m` of the segment. */
  lemma SecantHermiteRises(p0: real, p1: real, m0: real, m1: real, h: real, m: real, t1: real, t2: real)
    requires h > 0.0 && p0 <= p1 && RiseOver(m, h) == p1 - p0
    requires 0.0 <= m0 <= 3.0 * m && 0.0 <= m1 <= 3.0 * m
    requires 0.0 <= t1 <= t2 <= 1.0
    ensures Hermite(p0, p1, m0, m1, h, t1) <= Hermite(p0, p1, m0, m1, h, t2)
  {
    ScaledTangent(h, m0, m, p1 - p0);
    ScaledTangent(h, m1, m, p1 - p0);
    HermiteRises(p0, p1, m0, m1, h, t1, t2);
  }

  /** `HermiteBetween` for tangents bounded by the secant `m` of the segment. */
  lemma SecantHermiteBetween(p0: real, p1: real, m0: real, m1: real, h: real, m: real, t: real)
    requires h > 0.0 && p0 <= p1 && RiseOver(m, h) == p1 - p0
    requires 0.0 <= m0 <= 3.0 * m && 0.0 <= m1 <= 3.0 * m
    requires 0.0 <= t <= 1.0
    ensures p0 <= Hermite(p0, p1, m0, m1, h, t) <= p1
  {
    ScaledTangent(h, m0, m, p1 - p0);
    ScaledTangent(h, m1, m, p1 - p0);
    HermiteBetween(p0, p1, m0, m1, h, t);
  }

  /** A value between two byte values stays between them once rounded and
      clamped. */
  lemma RoundedBetween(y0: int, y1: int, v: real)
    requires 0 <= y0 && y1 <= 255 && y0 as real <= v <= y1 as real
    ensures y0 <= ClampByte(Round(v)) <= y1
  {
  }

  /** Rounding and clamping keep the order of two values. */
  lemma RoundedRises(u: real, v: real)
    requires u <= v
    ensures ClampByte(Round(u)) <= ClampByte(Round(v))
  {
  }

  lemma DivisionRises(u: real, v: real, h: real)
    requires h > 0.0 && u <= v
    ensures u / h <= v / h
  {
    assert v / h - u / h == (v - u) / h;
  }

  /** Positions along a segment keep the order of their levels. */
  lemma PositionRises(xs: seq<int>, i: nat, a: int, b: int)
    requires i < |xs| - 1 && xs[i] < xs[i + 1] && a <= b
    ensures Position(xs, i, a) <= Position(xs, i, b)
  {
    DivisionRises((a - xs[i]) as real, (b - xs[i]) as real, Width(xs, i));
  }

  lemma PositionEnds(xs: seq<int>, i: nat)
    requires i < |xs| - 1 && xs[i] < xs[i + 1]
    ensures Position(xs, i, xs[i]) == 0.0 && Position(xs, i, xs[i + 1]) == 1.0
  {
  }

  /** The segment of a level inside the span holds it, so its position on
      that segment lies in [0,1]. */
  lemma SegmentPosition(xs: seq<int>, level: int)
    requires |xs| >= 2 && StrictlyIncreasing(xs) && xs[0] < level < xs[|xs| - 1]
    ensures var i := Segment(xs, level, 0);
      xs[i] <= level < xs[i + 1] && 0.0 <= Position(xs, i, level) <= 1.0
  {
    var i := Segment(xs, level, 0);
    SegmentContains(xs, level, 0);
    PositionRises(xs, i, xs[i], level);
    PositionRises(xs, i, level, xs[i + 1]);
    PositionEnds(xs, i);
  }

  /** A segment from byte `y0` to byte `y1` whose tangents lie between 0 and
      three times its secant `m` stays between them once rounded. */
  lemma RoundedSegmentBetween(y0: int, y1: int, m0: real, m1: real, h: real, m: real, t: real)
    requires 0 <= y0 <= y1 <= 255 && h > 0.0 && RiseOver(m, h) == y1 as real - y0 as real
    requires 0.0 <= m0 <= 3.0 * m && 0.0 <= m1 <= 3.0 * m && 0.0 <= t <= 1.0
    ensures y0 <= ClampByte(Round(Hermite(y0 as real, y1 as real, m0, m1, h, t))) <= y1
  {
    SecantHermiteBetween(y0 as real, y1 as real, m0, m1, h, m, t);
    RoundedBetween(y0, y1, Hermite(y0 as real, y1 as real, m0, m1, h, t));
  }

  /** Such a segment keeps the order of two positions once rounded. */
  lemma RoundedSegmentRises(y0: int, y1: int, m0: real, m1: real, h: real, m: real, ta: real, tb: real)
    requires y0 <= y1 && h > 0.0 && RiseOver(m, h) == y1 as real - y0 as real
    requires 0.0 <= m0 <= 3.0 * m && 0.0 <= m1 <= 3.0 * m && 0.0 <= ta <= tb <= 1.0
    ensures ClampByte(Round(Hermite(y0 as real, y1 as real, m0, m1, h, ta)))
         <= ClampByte(Round(Hermite(y0 as real, y1 as real, m0, m1, h, tb)))
  {
    SecantHermiteRises(y0 as real, y1 as real, m0, m1, h, m, ta, tb);
    RoundedRises(Hermite(y0 as real, y1 as real, m0, m1, h, ta), Hermite(y0 as real, y1 as real, m0, m1, h, tb));
  }

  /** A segment of rising byte-valued knots meets what
      `RoundedSegmentBetween` and `RoundedSegmentRises` ask of it. */
  lemma SegmentFits(xs: seq<int>, ys: seq<int>, i: nat)
    requires Knots(xs, ys) && Rising(ys) && Bytes(ys) && i < |xs| - 1
    ensures 0 <= ys[i] <= ys[i + 1] <= 255 && Width(xs, i) > 0.0
    ensures RiseOver(Secants(xs, ys)[i], Width(xs, i)) == ys[i + 1] as real - ys[i] as real
    ensures 0.0 <= LimitedTangents(Secants(xs, ys))[i] <= 3.0 * Secants(xs, ys)[i]
    ensures 0.0 <= LimitedTangents(Secants(xs, ys))[i + 1] <= 3.0 * Secants(xs, ys)[i]
  {
    SecantAcross(xs, ys, i);
    LimitedTangentsFit(xs, ys, i);
  }

  /** On a segment of rising byte-valued knots the rounded limited curve
      stays between the segment's end values. */
  lemma LimitedHermiteBetween(xs: seq<int>, ys: seq<int>, i: nat, t: real)
    requires Knots(xs, ys) && Rising(ys) && Bytes(ys) && i < |xs| - 1 && 0.0 <= t <= 1.0
    ensures ys[i] <= ClampByte(Round(Hermite(ys[i] as real, ys[i + 1] as real,
      LimitedTangents(Secants(xs, ys))[i], LimitedTangents(Secants(xs, ys))[i + 1], Width(xs, i), t))) <= ys[i + 1]
  {
    SegmentFits(xs, ys, i);
    RoundedSegmentBetween(ys[i], ys[i + 1], LimitedTangents(Secants(xs, ys))[i],
      LimitedTangents(Secants(xs, ys))[i + 1], Width(xs, i), Secants(xs, ys)[i], t);
  }

  /** On a segment of rising byte-valued knots the rounded limited curve
      keeps the order of two positions. */
  lemma LimitedHermiteRises(xs: seq<int>, ys: seq<int>, i: nat, ta: real, tb: real)
    requires Knots(xs, ys) && Rising(ys) && Bytes(ys) && i < |xs| - 1 && 0.0 <= ta <= tb <= 1.0
    ensures ClampByte(Round(Hermite(ys[i] as real, ys[i + 1] as real,
              LimitedTangents(Secants(xs, ys))[i], LimitedTangents(Secants(xs, ys))[i + 1], Width(xs, i), ta)))
         <= ClampByte(Round(Hermite(ys[i] as real, ys[i + 1] as real,
              LimitedTangents(Secants(xs, ys))[i], LimitedTangents(Secants(xs, ys))[i + 1], Width(xs, i), tb)))
  {
    SegmentFits(xs, ys, i);
    RoundedSegmentRises(ys[i], ys[i + 1], LimitedTangents(Secants(xs, ys))[i],
      LimitedTangents(Secants(xs, ys))[i + 1], Width(xs, i), Secants(xs, ys)[i], ta, tb);
  }

  /** Strictly inside the span a level takes the rounded value of the
      segment that holds it. */
  lemma LevelValueInside(xs: seq<int>, ys: seq<int>, cs: seq<real>, level: int)
    requires Knots(xs, ys) && |cs| == |xs| && xs[0] < level < xs[|xs| - 1]
    ensures var i := Segment(xs, level, 0);
      xs[i] < xs[i + 1]
      && LevelValue(xs, ys, cs, level)
           == ClampByte(Round(Hermite(ys[i] as real, ys[i + 1] as real, cs[i], cs[i + 1],
                                      Width(xs, i), Position(xs, i, level))))
  {
  }

  /** Inside the span the value lies between the y-values of the segment
      that holds the level. */
  lemma LimitedValueInSegment(xs: seq<int>, ys: seq<int>, level: int)
    requires Knots(xs, ys) && Rising(ys) && Bytes(ys)
    requires xs[0] < level < xs[|xs| - 1]
    ensures var i := Segment(xs, level, 0);
      var v := LevelValue(xs, ys, LimitedTangents(Secants(xs, ys)), level);
      xs[i] <= level < xs[i + 1] && ys[i] <= v <= ys[i + 1]
  {
    SegmentPosition(xs, level);
    LevelValueInside(xs, ys, LimitedTangents(Secants(xs, ys)), level);
    LimitedTangentsFit(xs, ys, Segment(xs, level, 0));
    LimitedHermiteBetween(xs, ys, Segment(xs, level, 0), Position(xs, Segment(xs, level, 0), level));
  }

  /** Two levels inside one segment keep their order. */
  lemma LimitedRisesInSegment(xs: seq<int>, ys: seq<int>, a: int, b: int)
    requires Knots(xs, ys) && Rising(ys) && Bytes(ys)
    requires xs[0] < a <= b < xs[|xs| - 1] && Segment(xs, a, 0) == Segment(xs, b, 0)
    ensures var cs := LimitedTangents(Secants(xs, ys));
      LevelValue(xs, ys, cs, a) <= LevelValue(xs, ys, cs, b)
  {
    SegmentPosition(xs, a);
    SegmentPosition(xs, b);
    LevelValueInside(xs, ys, LimitedTangents(Secants(xs, ys)), a);
    LevelValueInside(xs, ys, LimitedTangents(Secants(xs, ys)), b);
    PositionRises(xs, Segment(xs, a, 0), a, b);
    LimitedHermiteRises(xs, ys, Segment(xs, a, 0), Position(xs, Segment(xs, a, 0), a), Position(xs, Segment(xs, a, 0), b));
  }

  /** Every value lies between the first and the last y. */
  lemma LimitedValueBetweenEnds(xs: seq<int>, ys: seq<int>, level: int)
    requires Knots(xs, ys) && Rising(ys) && Bytes(ys)
    ensures var v := LevelValue(xs, ys, LimitedTangents(Secants(xs, ys)), level);
      ys[0] <= v <= ys[|ys| - 1]
  {
    if xs[0] < level < xs[|xs| - 1] {
      LimitedValueInSegment(xs, ys, level);
    }
  }

  /** Of two knots, the one with the smaller x comes first. */
  lemma IndexOrder(xs: seq<int>, p: nat, q: nat)
    requires StrictlyIncreasing(xs) && p < |xs| && q < |xs| && xs[p] < xs[q]
    ensures p < q
  {
  }

  /** Of two levels in different segments, the smaller one's segment ends
      no later than the other's begins. */
  lemma SegmentsInOrder(xs: seq<int>, a: int, b: int)
    requires |xs| >= 2 && StrictlyIncreasing(xs)
    requires xs[0] < a <= b < xs[|xs| - 1] && Segment(xs, a, 0) != Segment(xs, b, 0)
    ensures Segment(xs, a, 0) + 1 <= Segment(xs, b, 0)
  {
    SegmentContains(xs, a, 0);
    SegmentContains(xs, b, 0);
    IndexOrder(xs, Segment(xs, a, 0), Segment(xs, b, 0) + 1);
  }

  /** Two levels in different segments keep their order: the first
      segment ends no later than the second begins. */
  lemma LimitedRisesAcrossSegments(xs: seq<int>, ys: seq<int>, a: int, b: int)
    requires Knots(xs, ys) && Rising(ys) && Bytes(ys)
    requires xs[0] < a <= b < xs[|xs| - 1] && Segment(xs, a, 0) != Segment(xs, b, 0)
    ensures var cs := LimitedTangents(Secants(xs, ys));
      LevelValue(xs, ys, cs, a) <= LevelValue(xs, ys, cs, b)
  {
    var i, j := Segment(xs, a, 0), Segment(xs, b, 0);
    LimitedValueInSegment(xs, ys, a);
    LimitedValueInSegment(xs, ys, b);
    SegmentsInOrder(xs, a, b);
    assert ys[i + 1] <= ys[j];
  }

  /** On rising byte-valued knots the limited curve never falls from one
      level to a higher one. */
  lemma LimitedLevelsRise(xs: seq<int>, ys: seq<int>, a: int, b: int)
    requires Knots(xs, ys) && Rising(ys) && Bytes(ys) && a <= b
    ensures var cs := LimitedTangents(Secants(xs, ys));
      LevelValue(xs, ys, cs, a) <= LevelValue(xs, ys, cs, b)
  {
    if a <= xs[0] || b >= xs[|xs| - 1] {
      LimitedValueBetweenEnds(xs, ys, a);
      LimitedValueBetweenEnds(xs, ys, b);
    } else if Segment(xs, a, 0) == Segment(xs, b, 0) {
      LimitedRisesInSegment(xs, ys, a, b);
    } else {
      LimitedRisesAcrossSegments(xs, ys, a, b);
    }
  }

  /** Every point of the sorted list is one of the given points. */
  lemma SortedMembers(points: seq<CurvePoint>)
    ensures forall k :: 0 <= k < |SortByX(points)| ==> SortByX(points)[k] in points
  {
    forall k | 0 <= k < |SortByX(points)| ensures SortByX(points)[k] in points {
      assert SortByX(points)[k] in multiset(SortByX(points));
    }
  }

  /** Points in strictly increasing x taken from a rising, byte-valued
      point set have rising byte y-values. */
  lemma MembersRise(s: seq<CurvePoint>, points: seq<CurvePoint>)
    requires StrictlyIncreasingX(s) && forall k :: 0 <= k < |s| ==> s[k] in points
    requires forall p, q :: p in points && q in points && p.x <= q.x ==> p.y <= q.y
    requires forall q :: q in points ==> 0 <= q.y <= 255
    ensures Rising(Ys(s)) && Bytes(Ys(s))
  {
    forall i, j | 0 <= i <= j < |Ys(s)| ensures Ys(s)[i] <= Ys(s)[j] {
      assert s[i] in points && s[j] in points && s[i].x <= s[j].x;
    }
    forall i | 0 <= i < |Ys(s)| ensures 0 <= Ys(s)[i] <= 255 {
      assert s[i] in points;
    }
  }

  /** The limited samples of rising byte-valued knots never decrease. */
  lemma LimitedSamplesRise(xs: seq<int>, ys: seq<int>, a: nat, b: nat)
    requires Knots(xs, ys) && Rising(ys) && Bytes(ys) && a <= b < LEVELS
    ensures LimitedSampledCurve(xs, ys)[a] <= LimitedSampledCurve(xs, ys)[b]
  {
    LimitedLevelsRise(xs, ys, a, b);
  }

  /** The sorted points of a rising, byte-valued point set give rising,
      byte-valued knots. */
  lemma SortedKnotsRise(points: seq<CurvePoint>)
    requires |points| >= 2 && Interpolable(points)
    requires forall p, q :: p in points && q in points && p.x <= q.x ==> p.y <= q.y
    requires forall q :: q in points ==> 0 <= q.y <= 255
    ensures Knots(Xs(SortByX(points)), Ys(SortByX(points)))
    ensures Rising(Ys(SortByX(points))) && Bytes(Ys(SortByX(points)))
  {
    StrictXsIncrease(SortByX(points));
    SortedMembers(points);
    MembersRise(SortByX(points), points);
  }

  /** Rising control points with byte y-values give a table that never
      decreases, which is what the source's description promises. */
  lemma LimitedLutRises(points: seq<CurvePoint>, a: nat, b: nat)
    requires Interpolable(points)
    requires forall p, q :: p in points && q in points && p.x <= q.x ==> p.y <= q.y
    requires forall q :: q in points ==> 0 <= q.y <= 255
    requires a <= b < LEVELS
    ensures LimitedLut(points)[a] <= LimitedLut(points)[b]
  {
    if |SortByX(points)| >= 2 {
      SortedKnotsRise(points);
      LimitedSamplesRise(Xs(SortByX(points)), Ys(SortByX(points)), a, b);
    }
  }

  /** `DipPoints` rise and have byte y-values. */
  lemma DipPointsRise()
    ensures forall p, q :: p in DipPoints() && q in DipPoints() && p.x <= q.x ==> p.y <= q.y
    ensures forall q :: q in DipPoints() ==> 0 <= q.y <= 255
  {
    var ps := DipPoints();
    forall p, q | p in ps && q in ps && p.x <= q.x ensures p.y <= q.y {
      assert p == ps[0] || p == ps[1] || p == ps[2];
      assert q == ps[0] || q == ps[1] || q == ps[2];
    }
    forall q | q in ps ensures 0 <= q.y <= 255 {
      assert q == ps[0] || q == ps[1] || q == ps[2];
    }
  }

  /** On the points where the source's table dips, the limited table does
      not. */
  lemma LimitedLutKeepsDipPointsRising()
    ensures Interpolable(DipPoints()) && LimitedLut(DipPoints())[0] <= LimitedLut(DipPoints())[5]
  {
    DipPointsSorted();
    DipPointsRise();
    LimitedLutRises(DipPoints(), 0, 5);
  }
}
