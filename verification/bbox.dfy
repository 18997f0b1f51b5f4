/** The bounding box of one curve (`Bezier.bbox`): `getminmax` along each axis
    over that axis's extremum parameters.  For lines and quadratics the box
    holds the whole curve; from order 4 on the extremum list is always empty,
    so the box only spans the two end points, and the corrected box falls
    back to the box of the control polygon, which the curve never leaves. */
module CurveBox {
  import opened Wrappers
  import opened Points
  import opened Evaluate
  import opened Boxes
  import opened Roots
  import opened CurveExtrema
  import opened Derivatives
  import opened Parabola

  /** `p` lies in the closed box `b`. */
  predicate InBox(p: Point, b: BBox)
  {
    b.x.min <= p.x <= b.x.max && b.y.min <= p.y <= b.y.max
  }

  /** `Bezier.bbox` as the source computes it, for any order. */
  function BBoxAsWritten(pts: seq<Point>, solve: Solver): (b: BBox)
    requires |pts| >= 2
    ensures BoxConsistent(b)
    ensures InBox(pts[0], b) && InBox(pts[|pts| - 1], b)
    ensures forall t :: t in Extrema(pts, solve).x ==> b.x.min <= Compute(t, pts).x <= b.x.max
    ensures forall t :: t in Extrema(pts, solve).y ==> b.y.min <= Compute(t, pts).y <= b.y.max
  {
    var e := Extrema(pts, solve);
    BBox(GetMinMax(pts, X, e.x), GetMinMax(pts, Y, e.y))
  }

  /** The axis extent of the as-written box, with the parameters it checks. */
  lemma AxisExtent(pts: seq<Point>, solve: Solver, a: Axis)
    requires |pts| >= 2
    ensures ExtentOf(BBoxAsWritten(pts, solve), a)
         == GetMinMax(pts, a, ForAxis(Extrema(pts, solve), a))
  {
    match a
    case X =>
    case Y =>
  }

  /** A segment lies in every box that holds its two end points. */
  lemma SegmentInBox(t: real, pts: seq<Point>, b: BBox)
    requires |pts| == 2 && 0.0 <= t <= 1.0
    requires InBox(pts[0], b) && InBox(pts[1], b)
    ensures InBox(Compute(t, pts), b)
  {
    var p := Compute(t, pts);
    ComputeIsClosedForm(t, pts);
    assert p.x == Bernstein1(t, pts[0].x, pts[1].x) && p.y == Bernstein1(t, pts[0].y, pts[1].y);
    ConvexBetween(t, pts[0].x, pts[1].x, b.x.min, b.x.max);
    ConvexBetween(t, pts[0].y, pts[1].y, b.y.min, b.y.max);
  }

  /** The box of a line holds every point of the segment. */
  lemma LineInBox(pts: seq<Point>, solve: Solver, t: real)
    requires |pts| == 2 && 0.0 <= t <= 1.0
    ensures InBox(Compute(t, pts), BBoxAsWritten(pts, solve))
  {
    SegmentInBox(t, pts, BBoxAsWritten(pts, solve));
  }

  /** The derivative polygon of a quadratic, one coordinate at a time. */
  lemma QuadraticHodograph(pts: seq<Point>, a: Axis)
    requires |pts| == 3
    ensures Coord(Derive(pts)[0][0], a) == 2.0 * (Coord(pts[1], a) - Coord(pts[0], a))
    ensures Coord(Derive(pts)[0][1], a) == 2.0 * (Coord(pts[2], a) - Coord(pts[1], a))
  {
    match a
    case X =>
    case Y =>
  }

  /** The vertex of a quadratic coordinate is a zero of its derivative, so
      bounds that hold the curve wherever the derivative vanishes hold the
      vertex value. */
  lemma VertexBounded(pts: seq<Point>, a: Axis, lo: real, hi: real)
    requires |pts| == 3
    requires forall s :: 0.0 <= s <= 1.0 && Coord(Compute(s, Derive(pts)[0]), a) == 0.0 ==>
               lo <= Coord(Compute(s, pts), a) <= hi
    ensures var p0, p1, p2 := Coord(pts[0], a), Coord(pts[1], a), Coord(pts[2], a);
            var k := p0 - 2.0 * p1 + p2;
            k != 0.0 && 0.0 <= (p0 - p1) / k <= 1.0 ==> lo <= Bernstein2((p0 - p1) / k, p0, p1, p2) <= hi
  {
    var p0, p1, p2 := Coord(pts[0], a), Coord(pts[1], a), Coord(pts[2], a);
    var k := p0 - 2.0 * p1 + p2;
    if k != 0.0 {
      var s := (p0 - p1) / k;
      VertexParameter(p0, p1, p2);
      VertexIsStationary(s, p0, p1, p2);
      QuadraticHodograph(pts, a);
      LineCoord(s, Derive(pts)[0], a);
      QuadraticCoord(s, pts, a);
    }
  }

  /** Along one axis, a quadratic curve on [0,1] stays between any bounds that
      hold its two end values and its values where the derivative vanishes. */
  lemma QuadraticAxisBounded(pts: seq<Point>, a: Axis, t: real, lo: real, hi: real)
    requires |pts| == 3 && 0.0 <= t <= 1.0
    requires lo <= Coord(pts[0], a) <= hi && lo <= Coord(pts[2], a) <= hi
    requires forall s :: 0.0 <= s <= 1.0 && Coord(Compute(s, Derive(pts)[0]), a) == 0.0 ==>
               lo <= Coord(Compute(s, pts), a) <= hi
    ensures lo <= Coord(Compute(t, pts), a) <= hi
  {
    VertexBounded(pts, a, lo, hi);
    QuadraticBounded(t, Coord(pts[0], a), Coord(pts[1], a), Coord(pts[2], a), lo, hi);
    QuadraticCoord(t, pts, a);
  }

  /** A quadratic coordinate whose derivative is constant and vanishes
      somewhere is constant. */
  lemma FlatStationary(pts: seq<Point>, a: Axis, s: real)
    requires |pts| == 3
    requires Coord(Derive(pts)[0][0], a) == Coord(Derive(pts)[0][1], a)
    requires Coord(Compute(s, Derive(pts)[0]), a) == 0.0
    ensures Coord(Compute(s, pts), a) == Coord(pts[0], a)
  {
    var d := Derive(pts)[0];
    LineCoord(s, d, a);
    FlatLine(s, Coord(d[0], a));
    QuadraticHodograph(pts, a);
    QuadraticCoord(s, pts, a);
    FlatQuadratic(s, Coord(pts[0], a));
  }

  /** Wherever the derivative of a quadratic vanishes on [0,1], the curve lies
      in the as-written extent: either `extrema` lists the parameter, or the
      coordinate is constant. */
  lemma StationaryInBox(pts: seq<Point>, solve: Solver, a: Axis, s: real)
    requires |pts| == 3 && 0.0 <= s <= 1.0
    requires Coord(Compute(s, Derive(pts)[0]), a) == 0.0
    ensures var e := GetMinMax(pts, a, ForAxis(Extrema(pts, solve), a));
            e.min <= Coord(Compute(s, pts), a) <= e.max
  {
    var d := Derive(pts)[0];
    QuadraticExtrema(pts, solve, a, s);
    if Coord(d[0], a) == Coord(d[1], a) {
      FlatStationary(pts, a, s);
    }
  }

  /** Along one axis, the box of a quadratic holds every point of the curve:
      its interior extremum is where the derivative vanishes, and `extrema`
      lists that parameter. */
  lemma QuadraticAxisInBox(pts: seq<Point>, solve: Solver, a: Axis, t: real)
    requires |pts| == 3 && 0.0 <= t <= 1.0
    ensures var e := ExtentOf(BBoxAsWritten(pts, solve), a);
            e.min <= Coord(Compute(t, pts), a) <= e.max
  {
    var e := GetMinMax(pts, a, ForAxis(Extrema(pts, solve), a));
    AxisExtent(pts, solve, a);
    forall s | 0.0 <= s <= 1.0 && Coord(Compute(s, Derive(pts)[0]), a) == 0.0
      ensures e.min <= Coord(Compute(s, pts), a) <= e.max
    {
      StationaryInBox(pts, solve, a, s);
    }
    QuadraticAxisBounded(pts, a, t, e.min, e.max);
  }

  /** The box of a quadratic holds every point of the curve on [0,1]. */
  lemma QuadraticInBox(pts: seq<Point>, solve: Solver, t: real)
    requires |pts| == 3 && 0.0 <= t <= 1.0
    ensures InBox(Compute(t, pts), BBoxAsWritten(pts, solve))
  {
    QuadraticAxisInBox(pts, solve, X, t);
    QuadraticAxisInBox(pts, solve, Y, t);
  }

  /** From order 4 on `droots` gets four or more values and returns no root,
      so `extrema` is empty and each axis of the box spans only the two end
      points (and the initial bounds `getminmax` starts from). */
  lemma BBoxAsWrittenHighOrder(pts: seq<Point>, solve: Solver, a: Axis)
    requires |pts| >= 5
    ensures ForAxis(Extrema(pts, solve), a) == []
    ensures var e := ExtentOf(BBoxAsWritten(pts, solve), a);
            var u, v := Coord(pts[0], a), Coord(pts[|pts| - 1], a);
            e.min == Min(Min(SafeMax, u), v) && e.max == Max(Max(SafeMin, u), v)
  {
    HighOrderNoCandidates(pts, solve, a);
    assert Sort(InUnit([])) == [];
    assert ForAxis(Extrema(pts, solve), a) == Sort(InUnit(Candidates(pts, a, solve)));
    AxisExtent(pts, solve, a);
    EndsOnly(pts, a);
  }

  /** From order 4 on the first derivative level has four or more points, for
      which `droots` reports nothing. */
  lemma HighOrderNoCandidates(pts: seq<Point>, solve: Solver, a: Axis)
    requires |pts| >= 5
    ensures Candidates(pts, a, solve) == []
  {
    var p := Coords(Derive(pts)[0], a);
    assert |p| >= 4;
    assert DRoots(p) == Some([]);
  }

  /** With no parameters listed, `getminmax` checks only the two end points
      against its initial bounds. */
  lemma EndsOnly(pts: seq<Point>, a: Axis)
    requires |pts| >= 1
    ensures var e := GetMinMax(pts, a, []);
            var u, v := Coord(pts[0], a), Coord(pts[|pts| - 1], a);
            e.min == Min(Min(SafeMax, u), v) && e.max == Max(Max(SafeMin, u), v)
  {
    var e := GetMinMax(pts, a, []);
    if e.min != SafeMax {
      var t :| t in WithEnds([]) && e.min == Coord(Compute(t, pts), a);
      assert t == 0.0 || t == 1.0;
    }
    if e.max != SafeMin {
      var t :| t in WithEnds([]) && e.max == Coord(Compute(t, pts), a);
      assert t == 0.0 || t == 1.0;
    }
  }

  /** The smallest coordinate of a control polygon along an axis. */
  function AxisMin(pts: seq<Point>, a: Axis): (m: real)
    requires |pts| >= 1
    ensures forall i :: 0 <= i < |pts| ==> m <= Coord(pts[i], a)
    ensures exists i :: 0 <= i < |pts| && m == Coord(pts[i], a)
    decreases |pts|
  {
    if |pts| == 1 then Coord(pts[0], a)
    else
      var rest := AxisMin(pts[1..], a);
      assert forall i :: 1 <= i < |pts| ==> pts[i] == pts[1..][i - 1];
      Min(Coord(pts[0], a), rest)
  }

  /** The largest coordinate of a control polygon along an axis. */
  function AxisMax(pts: seq<Point>, a: Axis): (m: real)
    requires |pts| >= 1
    ensures forall i :: 0 <= i < |pts| ==> Coord(pts[i], a) <= m
    ensures exists i :: 0 <= i < |pts| && m == Coord(pts[i], a)
    decreases |pts|
  {
    if |pts| == 1 then Coord(pts[0], a)
    else
      var rest := AxisMax(pts[1..], a);
      assert forall i :: 1 <= i < |pts| ==> pts[i] == pts[1..][i - 1];
      Max(Coord(pts[0], a), rest)
  }

  /** The extent from `lo` to `hi`, with the mid and size `getminmax` derives. */
  function Span(lo: real, hi: real): (e: Extent)
    requires lo <= hi
    ensures Consistent(e) && e.min == lo && e.max == hi
  {
    Extent(lo, (lo + hi) / 2.0, hi, hi - lo)
  }

  /** The box of the control polygon. */
  function PolygonBox(pts: seq<Point>): (b: BBox)
    requires |pts| >= 1
    ensures BoxConsistent(b)
    ensures forall i :: 0 <= i < |pts| ==> InBox(pts[i], b)
  {
    BBox(Span(AxisMin(pts, X), AxisMax(pts, X)), Span(AxisMin(pts, Y), AxisMax(pts, Y)))
  }

  /** Every control point has its `a` coordinate between `lo` and `hi`. */
  predicate Within(pts: seq<Point>, a: Axis, lo: real, hi: real)
  {
    forall i :: 0 <= i < |pts| ==> lo <= Coord(pts[i], a) <= hi
  }

  /** An interpolation on [0,1] between two points of a slab stays in it. */
  lemma LerpWithin(t: real, p: Point, q: Point, a: Axis, lo: real, hi: real)
    requires 0.0 <= t <= 1.0
    requires lo <= Coord(p, a) <= hi && lo <= Coord(q, a) <= hi
    ensures lo <= Coord(Lerp(t, p, q), a) <= hi
  {
    LerpProperties(t, p, q);
    match a
    case X => ConvexBetween(t, p.x, q.x, lo, hi);
    case Y => ConvexBetween(t, p.y, q.y, lo, hi);
  }

  /** A de Casteljau pass never leaves the slab of its polygon. */
  lemma StepWithin(t: real, pts: seq<Point>, a: Axis, lo: real, hi: real)
    requires |pts| >= 1 && 0.0 <= t <= 1.0 && Within(pts, a, lo, hi)
    ensures Within(Step(t, pts), a, lo, hi)
  {
    var s := Step(t, pts);
    forall i | 0 <= i < |s|
      ensures lo <= Coord(s[i], a) <= hi
    {
      assert s[i] == Lerp(t, pts[i], pts[i + 1]);
      LerpWithin(t, pts[i], pts[i + 1], a, lo, hi);
    }
  }

  /** The convex-hull property along one axis: on [0,1] the curve stays
      between the smallest and largest coordinate of its control points. */
  lemma {:induction false} CollapseWithin(t: real, pts: seq<Point>, a: Axis, lo: real, hi: real)
    requires |pts| >= 1 && 0.0 <= t <= 1.0 && Within(pts, a, lo, hi)
    ensures lo <= Coord(Collapse(t, pts), a) <= hi
    decreases |pts|
  {
    if |pts| > 1 {
      StepWithin(t, pts, a, lo, hi);
      CollapseWithin(t, Step(t, pts), a, lo, hi);
    }
  }

  /** The curve on [0,1] lies in the box of its control polygon. */
  lemma PolygonBoxHoldsCurve(pts: seq<Point>, t: real)
    requires |pts| >= 1 && 0.0 <= t <= 1.0
    ensures InBox(Compute(t, pts), PolygonBox(pts))
  {
    ComputeIsCollapse(t, pts);
    CollapseWithin(t, pts, X, AxisMin(pts, X), AxisMax(pts, X));
    CollapseWithin(t, pts, Y, AxisMin(pts, Y), AxisMax(pts, Y));
  }

  /** The corrected `bbox`: the source's box up to the cubic, the control
      polygon's box from order 4 on, where no extremum is searched for. */
  function CurveBBox(pts: seq<Point>, solve: Solver): (b: BBox)
    requires |pts| >= 2
    ensures BoxConsistent(b)
    ensures InBox(pts[0], b) && InBox(pts[|pts| - 1], b)
    ensures |pts| <= 4 ==> b == BBoxAsWritten(pts, solve)
  {
    if |pts| <= 4 then BBoxAsWritten(pts, solve) else PolygonBox(pts)
  }

  /** The corrected box holds the whole curve on [0,1] for every order whose
      extrema need no square root: lines, quadratics and order 4 onwards. */
  lemma CurveBBoxHoldsCurve(pts: seq<Point>, solve: Solver, t: real)
    requires |pts| >= 2 && |pts| != 4 && 0.0 <= t <= 1.0
    ensures InBox(Compute(t, pts), CurveBBox(pts, solve))
  {
    if |pts| == 2 {
      LineInBox(pts, solve, t);
    } else if |pts| == 3 {
      QuadraticInBox(pts, solve, t);
    } else {
      PolygonBoxHoldsCurve(pts, t);
    }
  }

  /** The quartic with control points (0,0), (1,1), (2,1), (3,1), (4,0). */
  function Arch(): (pts: seq<Point>)
    ensures |pts| == 5
  {
    [Point(0.0, 0.0), Point(1.0, 1.0), Point(2.0, 1.0), Point(3.0, 1.0), Point(4.0, 0.0)]
  }

  /** Halfway along, the arch is at height 7/8. */
  lemma ArchMidpoint()
    ensures Compute(0.5, Arch()) == Point(2.0, 0.875)
  {
    var pts := Arch();
    var s1 := Step(0.5, pts);
    assert s1 == [Point(0.5, 0.5), Point(1.5, 1.0), Point(2.5, 1.0), Point(3.5, 0.5)];
    var s2 := Step(0.5, s1);
    assert s2 == [Point(1.0, 0.75), Point(2.0, 1.0), Point(3.0, 0.75)];
    var s3 := Step(0.5, s2);
    assert s3 == [Point(1.5, 0.875), Point(2.5, 0.875)];
    var s4 := Step(0.5, s3);
    assert s4 == [Point(2.0, 0.875)];
    assert Collapse(0.5, s3) == Point(2.0, 0.875);
    assert Collapse(0.5, s2) == Collapse(0.5, s3);
    assert Collapse(0.5, s1) == Collapse(0.5, s2);
    assert Collapse(0.5, pts) == Collapse(0.5, s1);
  }

  /** From order 4 on, a point of the curve above both end points falls
      outside the as-written box. */
  lemma HighOrderPointOutside(pts: seq<Point>, solve: Solver, t: real)
    requires |pts| >= 5
    requires Compute(t, pts).y > Max(Max(SafeMin, pts[0].y), pts[|pts| - 1].y)
    ensures !InBox(Compute(t, pts), BBoxAsWritten(pts, solve))
  {
    var b := BBoxAsWritten(pts, solve);
    BBoxAsWrittenHighOrder(pts, solve, Y);
    assert b.y == ExtentOf(b, Y);
  }

  /** The arch rises to 7/8 while both its ends are at height 0, so its
      as-written box misses the curve's point at `t = 1/2`; the corrected box
      holds it. */
  lemma BBoxAsWrittenMissesArch(solve: Solver)
    ensures !InBox(Compute(0.5, Arch()), BBoxAsWritten(Arch(), solve))
    ensures InBox(Compute(0.5, Arch()), CurveBBox(Arch(), solve))
  {
    ArchMidpoint();
    HighOrderPointOutside(Arch(), solve, 0.5);
    PolygonBoxHoldsCurve(Arch(), 0.5);
  }
}
