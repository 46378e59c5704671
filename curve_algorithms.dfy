/** `generateCurveLUT`: the tone curve through the control points, sampled at
    the 256 input levels. The points are sorted by x (on a copy), secant
    slopes and tangents are computed, and every level is evaluated on a cubic
    Hermite segment, rounded as `Math.round` does and clamped to [0,255].

    The arithmetic is modelled over `real`; JavaScript's double rounding is
    not modelled. */
module CurveAlgorithms {
  import opened Types

  /** Number of input levels, and so of table entries. */
  const LEVELS: nat := 256

  // ---------------------------------------------------------------------
  // Sorting a copy of the points by x (`[...points].sort((a, b) => a.x - b.x)`)
  // ---------------------------------------------------------------------

  predicate SortedByX(ps: seq<CurvePoint>) {
    forall i, j :: 0 <= i < j < |ps| ==> ps[i].x <= ps[j].x
  }

  /** No two points of the list share an x (the list is a set of curve knots). */
  predicate DistinctX(ps: seq<CurvePoint>) {
    forall i, j :: 0 <= i < j < |ps| ==> ps[i].x != ps[j].x
  }

  /** Sorted with no repeated x: the x-values strictly increase. */
  predicate StrictlyIncreasingX(ps: seq<CurvePoint>) {
    forall i, j :: 0 <= i < j < |ps| ==> ps[i].x < ps[j].x
  }

  /** Inserts `p` before the first element whose x is not smaller, so that a
      point keeps its place ahead of later points with the same x. */
  function InsertByX(p: CurvePoint, s: seq<CurvePoint>): (r: seq<CurvePoint>)
    ensures |r| == |s| + 1
    ensures multiset(r) == multiset(s) + multiset{p}
  {
    if s == [] || p.x <= s[0].x then [p] + s
    else
      assert s == [s[0]] + s[1..];
      [s[0]] + InsertByX(p, s[1..])
  }

  /** Inserting adds exactly `p` to the members of the list. */
  lemma InsertMembers(p: CurvePoint, s: seq<CurvePoint>, q: CurvePoint)
    ensures q in InsertByX(p, s) <==> q == p || q in s
  {
    var r := InsertByX(p, s);
    assert q in r <==> q in multiset(r);
    assert q in s <==> q in multiset(s);
  }

  /** A member of a sorted list is at least as far right as its head. */
  lemma HeadIsLeftmost(s: seq<CurvePoint>, q: CurvePoint)
    requires SortedByX(s) && q in s
    ensures s[0].x <= q.x
  {
    var j :| 0 <= j < |s| && s[j] == q;
    if j > 0 {
      assert s[0].x <= s[j].x;
    }
  }

  lemma {:induction false} InsertKeepsSorted(p: CurvePoint, s: seq<CurvePoint>)
    requires SortedByX(s)
    ensures SortedByX(InsertByX(p, s))
  {
    if s == [] || p.x <= s[0].x {
      var r := [p] + s;
      assert InsertByX(p, s) == r;
      forall i, j | 0 <= i < j < |r| ensures r[i].x <= r[j].x {
        if i == 0 {
          assert r[j] == s[j - 1];
          HeadIsLeftmost(s, s[j - 1]);
        } else {
          assert r[i] == s[i - 1] && r[j] == s[j - 1];
        }
      }
    } else {
      var tail := s[1..];
      assert SortedByX(tail) by {
        forall i, j | 0 <= i < j < |tail| ensures tail[i].x <= tail[j].x {
          assert tail[i] == s[i + 1] && tail[j] == s[j + 1];
        }
      }
      InsertKeepsSorted(p, tail);
      var rest := InsertByX(p, tail);
      var r := [s[0]] + rest;
      assert InsertByX(p, s) == r;
      forall k | 0 <= k < |rest| ensures s[0].x <= rest[k].x {
        InsertMembers(p, tail, rest[k]);
        if rest[k] != p {
          var j :| 0 <= j < |tail| && tail[j] == rest[k];
          assert s[j + 1] == rest[k];
        }
      }
      forall i, j | 0 <= i < j < |r| ensures r[i].x <= r[j].x {
        if i == 0 {
          assert r[j] == rest[j - 1];
        } else {
          assert r[i] == rest[i - 1] && r[j] == rest[j - 1];
        }
      }
    }
  }

  /** A stable sort of the points by ascending x; the caller's list is a value
      and is left as it was. */
  function SortByX(ps: seq<CurvePoint>): (r: seq<CurvePoint>)
    ensures |r| == |ps|
    ensures multiset(r) == multiset(ps)
    ensures SortedByX(r)
  {
    if ps == [] then []
    else
      assert ps == [ps[0]] + ps[1..];
      var tail := SortByX(ps[1..]);
      InsertKeepsSorted(ps[0], tail);
      InsertByX(ps[0], tail)
  }

  /** A point left of every point of a strictly increasing list can head it. */
  lemma ConsStrict(p: CurvePoint, rest: seq<CurvePoint>)
    requires StrictlyIncreasingX(rest)
    requires forall q :: q in rest ==> p.x < q.x
    ensures StrictlyIncreasingX([p] + rest)
  {
    var r := [p] + rest;
    forall i, j | 0 <= i < j < |r| ensures r[i].x < r[j].x {
      assert r[j] == rest[j - 1];
      if i > 0 {
        assert r[i] == rest[i - 1];
      }
    }
  }

  lemma {:induction false} InsertKeepsStrict(p: CurvePoint, s: seq<CurvePoint>)
    requires StrictlyIncreasingX(s)
    requires forall q :: q in s ==> q.x != p.x
    ensures StrictlyIncreasingX(InsertByX(p, s))
  {
    if s == [] || p.x <= s[0].x {
      forall q | q in s ensures p.x < q.x {
        var j :| 0 <= j < |s| && s[j] == q;
        if j > 0 {
          assert s[0].x < s[j].x;
        }
      }
      ConsStrict(p, s);
    } else {
      var tail := s[1..];
      StrictTail(s);
      forall q | q in tail ensures q.x != p.x {
        assert q in s;
      }
      InsertKeepsStrict(p, tail);
      var rest := InsertByX(p, tail);
      forall q | q in rest ensures s[0].x < q.x {
        InsertMembers(p, tail, q);
        if q != p {
          var j :| 0 <= j < |tail| && tail[j] == q;
          assert s[j + 1] == q;
        }
      }
      ConsStrict(s[0], rest);
    }
  }

  /** Points with pairwise distinct x sort into strictly increasing x. */
  lemma {:induction false} DistinctSortsStrictly(ps: seq<CurvePoint>)
    requires DistinctX(ps)
    ensures StrictlyIncreasingX(SortByX(ps))
  {
    if ps != [] {
      DistinctSortsStrictly(ps[1..]);
      var tail := SortByX(ps[1..]);
      forall q | q in tail ensures q.x != ps[0].x {
        assert q in multiset(ps[1..]);
        assert q in ps[1..];
        var k :| 0 <= k < |ps[1..]| && ps[1..][k] == q;
        assert ps[k + 1] == q;
      }
      InsertKeepsStrict(ps[0], tail);
    }
  }

  lemma StrictHasUniqueX(s: seq<CurvePoint>, p: CurvePoint, q: CurvePoint)
    requires StrictlyIncreasingX(s) && p in s && q in s && p.x == q.x
    ensures p == q
  {
    var i :| 0 <= i < |s| && s[i] == p;
    var j :| 0 <= j < |s| && s[j] == q;
    assert i == j;
  }

  /** Dropping the head keeps a list strictly increasing. */
  lemma StrictTail(a: seq<CurvePoint>)
    requires StrictlyIncreasingX(a) && a != []
    ensures StrictlyIncreasingX(a[1..])
  {
    var t := a[1..];
    forall i, j | 0 <= i < j < |t| ensures t[i].x < t[j].x {
      assert t[i] == a[i + 1] && t[j] == a[j + 1];
    }
  }

  /** Dropping the head keeps a list sorted. */
  lemma SortedTail(b: seq<CurvePoint>)
    requires SortedByX(b) && b != []
    ensures SortedByX(b[1..])
  {
    var t := b[1..];
    forall i, j | 0 <= i < j < |t| ensures t[i].x <= t[j].x {
      assert t[i] == b[i + 1] && t[j] == b[j + 1];
    }
  }

  /** A list is its head and the multiset of its tail. */
  lemma MultisetOfTail(a: seq<CurvePoint>)
    requires a != []
    ensures multiset(a[1..]) == multiset(a) - multiset{a[0]}
  {
    assert a == [a[0]] + a[1..];
  }

  /** Two lists with the same points, one strictly sorted and one sorted,
      start with the same point. */
  lemma SameHead(a: seq<CurvePoint>, b: seq<CurvePoint>)
    requires StrictlyIncreasingX(a) && SortedByX(b) && a != [] && b != []
    requires multiset(a) == multiset(b)
    ensures a[0] == b[0]
  {
    assert a[0] in multiset(b) && a[0] in b;
    assert b[0] in multiset(a) && b[0] in a;
    HeadIsLeftmost(b, a[0]);
    var j :| 0 <= j < |a| && a[j] == b[0];
    StrictHasUniqueX(a, a[0], b[0]);
  }

  /** Two strictly x-sorted lists holding the same points are the same list. */
  lemma {:induction false} SortedPermutationsEqual(a: seq<CurvePoint>, b: seq<CurvePoint>)
    requires StrictlyIncreasingX(a) && SortedByX(b)
    requires multiset(a) == multiset(b)
    ensures a == b
  {
    assert |multiset(a)| == |a| && |multiset(b)| == |b|;
    if a != [] {
      SameHead(a, b);
      MultisetOfTail(a);
      MultisetOfTail(b);
      StrictTail(a);
      SortedTail(b);
      SortedPermutationsEqual(a[1..], b[1..]);
      assert a == [a[0]] + a[1..] && b == [b[0]] + b[1..];
    }
  }

  // ---------------------------------------------------------------------
  // Secants, tangents and the Hermite segment
  // ---------------------------------------------------------------------

  function Xs(ps: seq<CurvePoint>): (xs: seq<int>)
    ensures |xs| == |ps| && forall i :: 0 <= i < |ps| ==> xs[i] == ps[i].x
  {
    seq(|ps|, i requires 0 <= i < |ps| => ps[i].x)
  }

  function Ys(ps: seq<CurvePoint>): (ys: seq<int>)
    ensures |ys| == |ps| && forall i :: 0 <= i < |ps| ==> ys[i] == ps[i].y
  {
    seq(|ps|, i requires 0 <= i < |ps| => ps[i].y)
  }

  predicate StrictlyIncreasing(xs: seq<int>) {
    forall i, j :: 0 <= i < j < |xs| ==> xs[i] < xs[j]
  }

  /** The knots a table can be built from: at least two, in strictly
      increasing x, with as many y-values as x-values. */
  predicate Knots(xs: seq<int>, ys: seq<int>) {
    |xs| == |ys| >= 2 && StrictlyIncreasing(xs)
  }

  /** Slope of each segment: the secant times the run is the rise. */
  function Secants(xs: seq<int>, ys: seq<int>): (ms: seq<real>)
    requires Knots(xs, ys)
    ensures |ms| == |xs| - 1
    ensures forall i :: 0 <= i < |ms| ==>
      ms[i] * (xs[i + 1] - xs[i]) as real == (ys[i + 1] - ys[i]) as real
  {
    seq(|xs| - 1, i requires 0 <= i < |xs| - 1 =>
      (ys[i + 1] - ys[i]) as real / (xs[i + 1] - xs[i]) as real)
  }

  /** Tangent at a point between two segments with slopes `mPrev` and `mNext`:
      zero where the curve turns or flattens, otherwise their mean. */
  function InteriorTangent(mPrev: real, mNext: real): real {
    if mPrev * mNext <= 0.0 then 0.0 else (mPrev + mNext) / 2.0
  }

  /** Tangent at point `i`: the end points take the slope of their only
      segment, interior points the `InteriorTangent` of their two segments. */
  function TangentAt(ms: seq<real>, i: nat): real
    requires |ms| >= 1 && i <= |ms|
  {
    if i == 0 then ms[0]
    else if i == |ms| then ms[|ms| - 1]
    else InteriorTangent(ms[i - 1], ms[i])
  }

  /** The tangent of every point. */
  function Tangents(ms: seq<real>): (cs: seq<real>)
    requires |ms| >= 1
    ensures |cs| == |ms| + 1
  {
    seq(|ms| + 1, i requires 0 <= i <= |ms| => TangentAt(ms, i))
  }

  /** The tangent rule of the source: each end point takes its segment's
      secant; an interior tangent is 0 when the adjacent secants' product is
      at most 0 and their mean otherwise. */
  lemma TangentsRule(ms: seq<real>)
    requires |ms| >= 1
    ensures var cs := Tangents(ms);
      cs[0] == ms[0] && cs[|ms|] == ms[|ms| - 1]
      && forall i :: 1 <= i < |ms| ==>
           (ms[i - 1] * ms[i] <= 0.0 ==> cs[i] == 0.0)
           && (ms[i - 1] * ms[i] > 0.0 ==> cs[i] == (ms[i - 1] + ms[i]) / 2.0)
  {
  }

  /** The tangent never points against either neighbouring secant, and where
      both secants have the same sign it lies between them. */
  lemma InteriorTangentBetween(mPrev: real, mNext: real)
    ensures var c := InteriorTangent(mPrev, mNext);
      c * mPrev >= 0.0 && c * mNext >= 0.0
      && (mPrev * mNext <= 0.0 <==> c == 0.0)
      && (mPrev * mNext > 0.0 ==>
            (mPrev <= c <= mNext || mNext <= c <= mPrev))
  {
    var c := InteriorTangent(mPrev, mNext);
    if mPrev * mNext > 0.0 {
      if mPrev > 0.0 {
        assert mNext > 0.0;
      } else {
        assert mPrev < 0.0 && mNext < 0.0;
      }
    }
  }

  /** A rise of at least 0 over a positive run has a slope of at least 0. */
  lemma RisingSecant(xs: seq<int>, ys: seq<int>, i: nat)
    requires Knots(xs, ys) && i < |xs| - 1 && ys[i] <= ys[i + 1]
    ensures Secants(xs, ys)[i] >= 0.0
  {
    var rise := (ys[i + 1] - ys[i]) as real;
    var run := (xs[i + 1] - xs[i]) as real;
    assert xs[i] < xs[i + 1];
    assert Secants(xs, ys)[i] == rise / run;
  }

  lemma InteriorTangentOfRising(mPrev: real, mNext: real)
    requires mPrev >= 0.0 && mNext >= 0.0
    ensures InteriorTangent(mPrev, mNext) >= 0.0
  {
  }

  /** On non-decreasing data every tangent is non-negative. */
  lemma TangentsOfRisingData(xs: seq<int>, ys: seq<int>)
    requires Knots(xs, ys)
    requires forall i :: 0 <= i < |ys| - 1 ==> ys[i] <= ys[i + 1]
    ensures forall i :: 0 <= i < |xs| ==> Tangents(Secants(xs, ys))[i] >= 0.0
  {
    var ms := Secants(xs, ys);
    var cs := Tangents(ms);
    forall i | 0 <= i < |xs| ensures cs[i] >= 0.0 {
      assert cs[i] == TangentAt(ms, i);
      if i == 0 {
        RisingSecant(xs, ys, 0);
      } else if i == |ms| {
        RisingSecant(xs, ys, i - 1);
      } else {
        RisingSecant(xs, ys, i - 1);
        RisingSecant(xs, ys, i);
        InteriorTangentOfRising(ms[i - 1], ms[i]);
      }
    }
  }

  /** The cubic Hermite segment of width `h` from value `p0` with tangent
      `m0` to value `p1` with tangent `m1`, at normalised position `t`. */
  function Hermite(p0: real, p1: real, m0: real, m1: real, h: real, t: real): real {
    var t2 := t * t;
    var t3 := t2 * t;
    var h00 := 2.0 * t3 - 3.0 * t2 + 1.0;
    var h10 := t3 - 2.0 * t2 + t;
    var h01 := -2.0 * t3 + 3.0 * t2;
    var h11 := t3 - t2;
    h00 * p0 + h10 * h * m0 + h01 * p1 + h11 * h * m1
  }

  /** The segment starts at `p0` and ends at `p1`, whatever the tangents. */
  lemma HermiteEnds(p0: real, p1: real, m0: real, m1: real, h: real)
    ensures Hermite(p0, p1, m0, m1, h, 0.0) == p0
    ensures Hermite(p0, p1, m0, m1, h, 1.0) == p1
  {
  }

  /** With both tangents equal to the secant the segment is the straight line. */
  lemma HermiteStraight(p0: real, p1: real, h: real, t: real)
    requires h != 0.0
    ensures Hermite(p0, p1, (p1 - p0) / h, (p1 - p0) / h, h, t) == p0 + t * (p1 - p0)
  {
    var m := (p1 - p0) / h;
    assert h * m == p1 - p0;
    var t2 := t * t;
    var t3 := t2 * t;
    var h00 := 2.0 * t3 - 3.0 * t2 + 1.0;
    var h10 := t3 - 2.0 * t2 + t;
    var h01 := -2.0 * t3 + 3.0 * t2;
    var h11 := t3 - t2;
    calc {
      Hermite(p0, p1, m, m, h, t);
      h00 * p0 + h10 * (h * m) + h01 * p1 + h11 * (h * m);
      h00 * p0 + h01 * p1 + (h10 + h11) * (p1 - p0);
      (h00 - h10 - h11) * p0 + (h01 + h10 + h11) * p1;
      { assert h00 - h10 - h11 == 1.0 - t; assert h01 + h10 + h11 == t; }
      (1.0 - t) * p0 + t * p1;
    }
  }

  /** `Math.round`: the nearest integer, halves rounded up. */
  function Round(y: real): (r: int)
    ensures r as real - 0.5 <= y < r as real + 0.5
  {
    (y + 0.5).Floor
  }

  /** `Math.max(0, Math.min(255, v))`. */
  function ClampByte(v: int): (r: int)
    ensures 0 <= r <= 255
    ensures 0 <= v <= 255 ==> r == v
    ensures v < 0 ==> r == 0
    ensures v > 255 ==> r == 255
  {
    if v < 0 then 0 else if v > 255 then 255 else v
  }

  // ---------------------------------------------------------------------
  // Evaluating the curve at one level (`getY`)
  // ---------------------------------------------------------------------

  /** The first segment `j`, from `from` on, with `xs[j] <= x < xs[j + 1]`;
      0 when there is none (the search's initial value). */
  function Segment(xs: seq<int>, x: int, from: nat): (j: nat)
    requires |xs| >= 2 && from <= |xs| - 1
    ensures j < |xs| - 1
    decreases |xs| - 1 - from
  {
    if from == |xs| - 1 then 0
    else if xs[from] <= x < xs[from + 1] then from
    else Segment(xs, x, from + 1)
  }

  /** Inside the span of strictly increasing knots the search finds the
      segment that contains `x`. */
  lemma {:induction false} SegmentContains(xs: seq<int>, x: int, from: nat)
    requires |xs| >= 2 && from < |xs| - 1 && StrictlyIncreasing(xs)
    requires xs[from] <= x < xs[|xs| - 1]
    ensures xs[Segment(xs, x, from)] <= x < xs[Segment(xs, x, from) + 1]
    decreases |xs| - 1 - from
  {
    if !(x < xs[from + 1]) {
      SegmentContains(xs, x, from + 1);
    }
  }

  /** The table entry for one input level: the first knot's y at or below the
      first knot, the last knot's y at or above the last knot (neither
      rounded nor clamped), otherwise the Hermite value on the containing
      segment, rounded and clamped. */
  function LevelValue(xs: seq<int>, ys: seq<int>, cs: seq<real>, level: int): int
    requires Knots(xs, ys) && |cs| == |xs|
  {
    if level <= xs[0] then ys[0]
    else if level >= xs[|xs| - 1] then ys[|ys| - 1]
    else
      var i := Segment(xs, level, 0);
      var h := (xs[i + 1] - xs[i]) as real;
      var t := (level - xs[i]) as real / h;
      ClampByte(Round(Hermite(ys[i] as real, ys[i + 1] as real, cs[i], cs[i + 1], h, t)))
  }

  /** The 256 samples of the curve through the knots. */
  function SampledCurve(xs: seq<int>, ys: seq<int>): (lut: seq<int>)
    requires Knots(xs, ys)
    ensures |lut| == LEVELS
  {
    var cs := Tangents(Secants(xs, ys));
    seq(LEVELS, level => LevelValue(xs, ys, cs, level))
  }

  /** The lookup table the source computes from `points`. */
  function CurveLut(points: seq<CurvePoint>): (lut: seq<int>)
    requires Interpolable(points)
    ensures |lut| == LEVELS
  {
    var sorted := SortByX(points);
    if |sorted| < 2 then seq(LEVELS, i => i)
    else SampledCurve(Xs(sorted), Ys(sorted))
  }

  /** The points the table can be computed from: fewer than two, or x-values
      that become strictly increasing once sorted (no two points share an x,
      which would divide by zero in the secants). */
  predicate Interpolable(points: seq<CurvePoint>) {
    |points| < 2 || StrictlyIncreasingX(SortByX(points))
  }

  lemma DistinctIsInterpolable(points: seq<CurvePoint>)
    requires DistinctX(points)
    ensures Interpolable(points)
  {
    DistinctSortsStrictly(points);
  }

  lemma StrictXsIncrease(ps: seq<CurvePoint>)
    requires StrictlyIncreasingX(ps)
    ensures StrictlyIncreasing(Xs(ps))
  {
  }

  // ---------------------------------------------------------------------
  // The source's loops
  // ---------------------------------------------------------------------

  /** `getY`: the bounds checks, the linear search for the segment, then the
      Hermite expression. */
  method GetY(xs: seq<int>, ys: seq<int>, cs: seq<real>, targetX: int) returns (v: int)
    requires Knots(xs, ys) && |cs| == |xs|
    ensures v == LevelValue(xs, ys, cs, targetX)
  {
    var n := |xs|;
    var i := 0;
    if targetX <= xs[0] {
      return ys[0];
    }
    if targetX >= xs[n - 1] {
      return ys[n - 1];
    }
    var j := 0;
    while j < n - 1
      invariant 0 <= j <= n - 1
      invariant i == 0
      invariant Segment(xs, targetX, 0) == Segment(xs, targetX, j)
    {
      if targetX >= xs[j] && targetX < xs[j + 1] {
        i := j;
        break;
      }
      j := j + 1;
    }
    assert i == Segment(xs, targetX, 0);
    var h := (xs[i + 1] - xs[i]) as real;
    var t := (targetX - xs[i]) as real / h;
    var y := Hermite(ys[i] as real, ys[i + 1] as real, cs[i], cs[i + 1], h, t);
    v := ClampByte(Round(y));
  }

  /** The `dxs`/`dys` loop followed by the `ms` loop. */
  method ComputeSecants(xs: seq<int>, ys: seq<int>) returns (ms: seq<real>)
    requires Knots(xs, ys)
    ensures ms == Secants(xs, ys)
  {
    var n := |xs|;
    var dxs: seq<int> := [];
    var dys: seq<int> := [];
    for i := 0 to n - 1
      invariant |dxs| == i && |dys| == i
      invariant forall k :: 0 <= k < i ==> dxs[k] == xs[k + 1] - xs[k] && dys[k] == ys[k + 1] - ys[k]
    {
      dxs := dxs + [xs[i + 1] - xs[i]];
      dys := dys + [ys[i + 1] - ys[i]];
    }
    ms := [];
    for i := 0 to n - 1
      invariant |ms| == i
      invariant forall k :: 0 <= k < i ==> ms[k] == Secants(xs, ys)[k]
    {
      assert xs[i] < xs[i + 1];
      ms := ms + [dys[i] as real / dxs[i] as real];
    }
  }

  /** The `c1s` loop: the first secant, one tangent per interior point, the
      last secant. */
  method ComputeTangents(ms: seq<real>) returns (c1s: seq<real>)
    requires |ms| >= 1
    ensures c1s == Tangents(ms)
  {
    var n := |ms| + 1;
    c1s := [ms[0]];
    for i := 0 to n - 2
      invariant |c1s| == i + 1
      invariant forall k :: 0 <= k < i + 1 ==> c1s[k] == TangentAt(ms, k)
    {
      if ms[i] * ms[i + 1] <= 0.0 {
        c1s := c1s + [0.0];
      } else {
        c1s := c1s + [(ms[i] + ms[i + 1]) / 2.0];
      }
    }
    c1s := c1s + [ms[n - 2]];
  }

  /** The final loop: `lut[i] = getY(i)` for every level. */
  method SampleLevels(xs: seq<int>, ys: seq<int>, cs: seq<real>) returns (lut: seq<int>)
    requires Knots(xs, ys) && |cs| == |xs|
    ensures |lut| == LEVELS
    ensures forall level :: 0 <= level < LEVELS ==> lut[level] == LevelValue(xs, ys, cs, level)
  {
    lut := [];
    for i := 0 to LEVELS
      invariant |lut| == i
      invariant forall k :: 0 <= k < i ==> lut[k] == LevelValue(xs, ys, cs, k)
    {
      var y := GetY(xs, ys, cs, i);
      lut := lut + [y];
    }
  }

  /** `generateCurveLUT`: sort a copy, then either the identity table (fewer
      than two points) or secants, tangents and the sampled curve. */
  method GenerateCurveLut(points: seq<CurvePoint>) returns (lut: seq<int>)
    requires Interpolable(points)
    ensures lut == CurveLut(points)
  {
    var sorted := SortByX(points);
    var xs := Xs(sorted);
    var ys := Ys(sorted);
    var n := |sorted|;
    if n < 2 {
      lut := [];
      for i := 0 to LEVELS
        invariant |lut| == i
        invariant forall k :: 0 <= k < i ==> lut[k] == k
      {
        lut := lut + [i];
      }
      return;
    }
    StrictXsIncrease(sorted);
    var ms := ComputeSecants(xs, ys);
    var c1s := ComputeTangents(ms);
    lut := SampleLevels(xs, ys, c1s);
  }

  // ---------------------------------------------------------------------
  // What the table promises
  // ---------------------------------------------------------------------

  /** With fewer than two points the table is the identity. */
  lemma FewPointsGiveIdentity(points: seq<CurvePoint>, level: nat)
    requires |points| < 2 && level < LEVELS
    ensures CurveLut(points)[level] == level
  {
  }

  /** Sorting keeps the points of the list. */
  lemma SortedHasSamePoints(points: seq<CurvePoint>, q: CurvePoint)
    ensures q in SortByX(points) <==> q in points
  {
    var s := SortByX(points);
    assert q in s <==> q in multiset(s);
    assert q in points <==> q in multiset(points);
  }

  /** The lowest point of a usable point list is the first after sorting. */
  lemma LowestIsFirst(points: seq<CurvePoint>, p: CurvePoint)
    requires |points| >= 2 && Interpolable(points)
    requires p in points && forall q :: q in points ==> p.x <= q.x
    ensures SortByX(points)[0] == p
  {
    var s := SortByX(points);
    SortedHasSamePoints(points, p);
    SortedHasSamePoints(points, s[0]);
    HeadIsLeftmost(s, p);
    StrictHasUniqueX(s, p, s[0]);
  }

  /** In a strictly sorted list the point with the greatest x comes last. */
  lemma GreatestIsLast(s: seq<CurvePoint>, p: CurvePoint)
    requires StrictlyIncreasingX(s) && p in s
    requires forall q :: q in s ==> q.x <= p.x
    ensures s[|s| - 1] == p
  {
    var j :| 0 <= j < |s| && s[j] == p;
    assert s[|s| - 1] in s;
  }

  /** The highest point of a usable point list is the last after sorting. */
  lemma HighestIsLast(points: seq<CurvePoint>, p: CurvePoint)
    requires |points| >= 2 && Interpolable(points)
    requires p in points && forall q :: q in points ==> q.x <= p.x
    ensures SortByX(points)[|points| - 1] == p
  {
    var s := SortByX(points);
    SortedHasSamePoints(points, p);
    forall q | q in s ensures q.x <= p.x {
      SortedHasSamePoints(points, q);
    }
    GreatestIsLast(s, p);
  }

  /** Every level at or below the lowest point's x maps to that point's y,
      unclamped. */
  lemma BelowSpanIsFirstY(points: seq<CurvePoint>, p: CurvePoint, level: nat)
    requires |points| >= 2 && Interpolable(points)
    requires p in points && forall q :: q in points ==> p.x <= q.x
    requires level < LEVELS && level <= p.x
    ensures CurveLut(points)[level] == p.y
  {
    LowestIsFirst(points, p);
  }

  /** Every level at or above the highest point's x maps to that point's y,
      unclamped. */
  lemma AboveSpanIsLastY(points: seq<CurvePoint>, p: CurvePoint, level: nat)
    requires |points| >= 2 && Interpolable(points)
    requires p in points && forall q :: q in points ==> q.x <= p.x
    requires level < LEVELS && level >= p.x
    ensures CurveLut(points)[level] == p.y
  {
    HighestIsLast(points, p);
    var s := SortByX(points);
    SortedHasSamePoints(points, s[0]);
    forall q | q in points ensures s[0].x <= q.x {
      SortedHasSamePoints(points, q);
      HeadIsLeftmost(s, q);
    }
    LowestIsFirst(points, s[0]);
  }

  /** All entries are in [0,255] whenever every point's y is. */
  lemma LutInRange(points: seq<CurvePoint>)
    requires Interpolable(points)
    requires forall q :: q in points ==> 0 <= q.y <= 255
    ensures forall level :: 0 <= level < LEVELS ==> 0 <= CurveLut(points)[level] <= 255
  {
    var s := SortByX(points);
    forall k | 0 <= k < |s| ensures 0 <= s[k].y <= 255 {
      assert s[k] in multiset(points);
    }
  }

  /** At an interior knot the search picks that knot's segment at t = 0, so
      the value is the knot's own y, rounded and clamped. */
  lemma LevelValueAtKnot(xs: seq<int>, ys: seq<int>, cs: seq<real>, k: nat)
    requires Knots(xs, ys) && |cs| == |xs| && 0 < k < |xs| - 1
    ensures LevelValue(xs, ys, cs, xs[k]) == ClampByte(ys[k])
  {
    var level := xs[k];
    SegmentContains(xs, level, 0);
    var i := Segment(xs, level, 0);
    assert i == k;
    var h := (xs[i + 1] - xs[i]) as real;
    var t := (level - xs[i]) as real / h;
    assert t == 0.0;
    HermiteEnds(ys[i] as real, ys[i + 1] as real, cs[i], cs[i + 1], h);
    assert Round(ys[k] as real) == ys[k];
  }

  /** The sampled curve passes through every knot whose level is a table
      index and whose y is in range. */
  lemma SampledThroughKnot(xs: seq<int>, ys: seq<int>, k: nat)
    requires Knots(xs, ys) && k < |xs|
    requires 0 <= xs[k] < LEVELS && 0 <= ys[k] <= 255
    ensures SampledCurve(xs, ys)[xs[k]] == ys[k]
  {
    var cs := Tangents(Secants(xs, ys));
    assert SampledCurve(xs, ys)[xs[k]] == LevelValue(xs, ys, cs, xs[k]);
    if 0 < k < |xs| - 1 {
      LevelValueAtKnot(xs, ys, cs, k);
    }
  }

  /** The curve passes through every in-range control point: the entry at a
      point's x is that point's y. */
  lemma LutThroughPoint(points: seq<CurvePoint>, k: nat)
    requires |points| >= 2 && Interpolable(points)
    requires k < |points|
    requires 0 <= SortByX(points)[k].x < LEVELS && 0 <= SortByX(points)[k].y <= 255
    ensures CurveLut(points)[SortByX(points)[k].x] == SortByX(points)[k].y
  {
    var s := SortByX(points);
    var xs, ys := Xs(s), Ys(s);
    StrictXsIncrease(s);
    assert xs[k] == s[k].x && ys[k] == s[k].y;
    SampledThroughKnot(xs, ys, k);
    assert CurveLut(points) == SampledCurve(xs, ys);
  }

  /** On a single segment whose two tangents equal its secant, the value is
      the straight line through the two knots, rounded and clamped. */
  lemma LevelValueOnLine(xs: seq<int>, ys: seq<int>, cs: seq<real>, level: int)
    requires Knots(xs, ys) && |xs| == 2 && |cs| == 2
    requires cs[0] == cs[1] == (ys[1] - ys[0]) as real / (xs[1] - xs[0]) as real
    requires xs[0] < level < xs[1]
    ensures LevelValue(xs, ys, cs, level)
      == ClampByte(Round(ys[0] as real
           + (level - xs[0]) as real / (xs[1] - xs[0]) as real * (ys[1] - ys[0]) as real))
  {
    assert Segment(xs, level, 0) == 0;
    var h := (xs[1] - xs[0]) as real;
    var t := (level - xs[0]) as real / h;
    var p0, p1 := ys[0] as real, ys[1] as real;
    assert cs[0] == (p1 - p0) / h;
    assert LevelValue(xs, ys, cs, level) == ClampByte(Round(Hermite(p0, p1, cs[0], cs[1], h, t)));
    HermiteStraight(p0, p1, h, t);
    assert (ys[1] - ys[0]) as real == p1 - p0;
    assert Hermite(p0, p1, cs[0], cs[1], h, t) == p0 + t * (p1 - p0);
    assert p0 + t * (p1 - p0)
      == ys[0] as real + (level - xs[0]) as real / (xs[1] - xs[0]) as real * (ys[1] - ys[0]) as real;
  }

  /** The straight line through (x0, y0) and (x1, y1) at `level`, rounded and
      clamped as a table entry. */
  function LineValue(x0: int, y0: int, x1: int, y1: int, level: int): int
    requires x0 < x1
  {
    ClampByte(Round(y0 as real + (level - x0) as real / (x1 - x0) as real * (y1 - y0) as real))
  }

  /** Two knots: both tangents equal the one secant, so every level between
      them is on the straight line. */
  lemma SampledTwoKnotsLinear(xs: seq<int>, ys: seq<int>, level: int)
    requires Knots(xs, ys) && |xs| == 2
    requires xs[0] < level < xs[1] && 0 <= level < LEVELS
    ensures SampledCurve(xs, ys)[level] == LineValue(xs[0], ys[0], xs[1], ys[1], level)
  {
    var ms := Secants(xs, ys);
    var cs := Tangents(ms);
    assert ms[0] == (ys[1] - ys[0]) as real / (xs[1] - xs[0]) as real;
    assert cs[0] == TangentAt(ms, 0) == ms[0];
    assert cs[1] == TangentAt(ms, 1) == ms[0];
    LevelValueOnLine(xs, ys, cs, level);
  }

  /** Between two control points the table follows the straight line through
      them, rounded and clamped. */
  lemma TwoPointsAreLinear(points: seq<CurvePoint>, level: int)
    requires |points| == 2 && Interpolable(points)
    requires SortByX(points)[0].x < level < SortByX(points)[1].x && 0 <= level < LEVELS
    ensures var s := SortByX(points);
      CurveLut(points)[level] == LineValue(s[0].x, s[0].y, s[1].x, s[1].y, level)
  {
    var s := SortByX(points);
    var xs, ys := Xs(s), Ys(s);
    StrictXsIncrease(s);
    assert xs[0] == s[0].x && xs[1] == s[1].x && ys[0] == s[0].y && ys[1] == s[1].y;
    SampledTwoKnotsLinear(xs, ys, level);
    assert CurveLut(points) == SampledCurve(xs, ys);
  }

  /** With distinct x-values the order in which the points are listed does
      not matter. */
  lemma LutIgnoresOrder(a: seq<CurvePoint>, b: seq<CurvePoint>)
    requires Interpolable(a) && multiset(a) == multiset(b)
    ensures Interpolable(b) && CurveLut(a) == CurveLut(b)
  {
    assert |a| == |b| by {
      assert |multiset(a)| == |a| && |multiset(b)| == |b|;
    }
    if |a| >= 2 {
      SortedPermutationsEqual(SortByX(a), SortByX(b));
    }
  }
}
