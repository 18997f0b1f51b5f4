/** The `Bezier` curve entity: construction from coordinates or points,
    degree elevation (`raise`), the de Casteljau hull and subdivision
    (`hull`, `split`) with their provenance intervals. */
module Curves {
  import opened Wrappers
  import opened Points
  import opened Evaluate
  import opened Triangle
  import opened Subdivision

  /** A curve: its control points (order = count - 1) and the interval
      `[t1, t2]` of the root curve it was cut from. */
  datatype Curve = Curve(points: seq<Point>, t1: real, t2: real)

  /** Why a curve operation fails. */
  datatype CurveError =
    | InvalidArguments        // more than one argument, in a form only a single point array may take
    | TooFewPoints            // fewer than two control points: the constructor dereferences the second
    | IncompleteCoordinates   // an odd number of planar coordinates
    | ThreeDimensional        // nine or twelve coordinates: a spatial curve, outside this planar model
    | UnsupportedOrder        // `hull`/`split` read triangle entries a line does not have
    | NonFinite               // a division by zero in `utils.map`

  /** The arguments the `Bezier` constructor can be called with: numbers or
      point objects, either spread as separate arguments or in one array. */
  datatype CtorArgs =
    | Coordinates(values: seq<real>, asArray: bool)
    | Points(pts: seq<Point>, asArray: bool)

  /** The coordinates of a list of points, `x` then `y` for each. */
  function FlattenCoords(pts: seq<Point>): (v: seq<real>)
    ensures |v| == 2 * |pts|
    ensures forall i :: 0 <= i < |pts| ==> v[2 * i] == pts[i].x && v[2 * i + 1] == pts[i].y
  {
    if |pts| == 0 then []
    else
      var rest := FlattenCoords(pts[1..]);
      assert forall i :: 1 <= i < |pts| ==> pts[i] == pts[1..][i - 1];
      [pts[0].x, pts[0].y] + rest
  }

  /** The constructor's grouping of planar coordinates into points, two at a time. */
  function PairUp(values: seq<real>): (pts: seq<Point>)
    requires |values| % 2 == 0
    ensures FlattenCoords(pts) == values
  {
    var pts := seq(|values| / 2, i requires 0 <= i < |values| / 2 => Point(values[2 * i], values[2 * i + 1]));
    assert forall i :: 0 <= i < |values| ==> FlattenCoords(pts)[i] == values[i] by {
      forall i | 0 <= i < |values|
        ensures FlattenCoords(pts)[i] == values[i]
      {
        if i % 2 == 0 {
          assert FlattenCoords(pts)[2 * (i / 2)] == pts[i / 2].x;
        } else {
          assert FlattenCoords(pts)[2 * (i / 2) + 1] == pts[i / 2].y;
        }
      }
    }
    pts
  }

  /** The coordinate counts the constructor accepts as separate arguments:
      quadratic and cubic curves in two and three dimensions. */
  predicate LowOrderCount(n: nat)
  {
    n == 6 || n == 8 || n == 9 || n == 12
  }

  /** `new Bezier(...)`: the argument checks and the grouping of coordinates
      into control points.  A fresh curve spans the whole interval `[0, 1]`. */
  function Construct(args: CtorArgs): (r: Result<Curve, CurveError>)
    ensures r == Err(InvalidArguments) <==>
      match args
      case Coordinates(values, asArray) => !asArray && !LowOrderCount(|values|)
      case Points(pts, asArray) => !asArray && (|pts| == 0 || |pts| > 4)
    ensures r.Ok? ==> |r.value.points| >= 2 && r.value.t1 == 0.0 && r.value.t2 == 1.0
    ensures r.Ok? && args.Coordinates? ==> FlattenCoords(r.value.points) == args.values
    ensures r.Ok? && args.Points? ==> r.value.points == args.pts
    ensures args.Points? ==> (r.Ok? <==> |args.pts| >= 2 && (args.asArray || |args.pts| <= 4))
    ensures args.Coordinates? ==>
              (r.Ok? <==> && (args.asArray || LowOrderCount(|args.values|))
                          && |args.values| % 2 == 0 && |args.values| >= 4
                          && |args.values| != 9 && |args.values| != 12)
  {
    match args
    case Coordinates(values, asArray) =>
      if !asArray && !LowOrderCount(|values|) then Err(InvalidArguments)
      else if |values| == 9 || |values| == 12 then Err(ThreeDimensional)
      else if |values| <= 2 then Err(TooFewPoints)
      else if |values| % 2 == 1 then Err(IncompleteCoordinates)
      else Ok(Curve(PairUp(values), 0.0, 1.0))
    case Points(pts, asArray) =>
      if |pts| == 0 then (if asArray then Err(TooFewPoints) else Err(InvalidArguments))
      else if |pts| > 4 && !asArray then Err(InvalidArguments)
      else if |pts| < 2 then Err(TooFewPoints)
      else Ok(Curve(pts, 0.0, 1.0))
  }

  /** `Bezier.raise`: degree elevation.  The new curve has one more control
      point: the old end points, and in between the blends
      `((k - i) / k) p[i] + (i / k) p[i - 1]` for `k = |p|`.  It is built by
      the constructor, so its interval is reset to `[0, 1]`. */
  function Raise(c: Curve): (r: Curve)
    requires |c.points| >= 2
    ensures |r.points| == |c.points| + 1
    ensures r.points[0] == c.points[0] && r.points[|r.points| - 1] == c.points[|c.points| - 1]
    ensures r.t1 == 0.0 && r.t2 == 1.0
  {
    var p := c.points;
    var k := |p|;
    var inner := seq(k - 1, j requires 0 <= j < k - 1 =>
      var i := j + 1;
      Point(((k - i) as real / k as real) * p[i].x + (i as real / k as real) * p[i - 1].x,
            ((k - i) as real / k as real) * p[i].y + (i as real / k as real) * p[i - 1].y));
    Curve([p[0]] + inner + [p[k - 1]], 0.0, 1.0)
  }

  lemma RaiseLineScalar(t: real, a: real, b: real)
    ensures Bernstein2(t, a, 0.5 * b + 0.5 * a, b) == Bernstein1(t, a, b)
  {
  }

  lemma RaiseQuadraticScalar(t: real, a: real, b: real, c: real)
    ensures Bernstein3(t, a, (2.0 / 3.0) * b + (1.0 / 3.0) * a, (1.0 / 3.0) * c + (2.0 / 3.0) * b, c)
         == Bernstein2(t, a, b, c)
  {
  }

  lemma RaiseCubicScalar(t: real, a: real, b: real, c: real, d: real)
    ensures var q1 := (3.0 / 4.0) * b + (1.0 / 4.0) * a;
            var q2 := (2.0 / 4.0) * c + (2.0 / 4.0) * b;
            var q3 := (1.0 / 4.0) * d + (3.0 / 4.0) * c;
            LerpR(t, Bernstein3(t, a, q1, q2, q3), Bernstein3(t, q1, q2, q3, d))
              == Bernstein3(t, a, b, c, d)
  {
  }

  /** Degree elevation does not change the curve: for lines, quadratics and
      cubics (the orders `raise` is used on), the raised curve passes through
      the same point at every parameter. */
  lemma RaisePreservesCurve(c: Curve, t: real)
    requires 2 <= |c.points| <= 4
    ensures Compute(t, Raise(c).points) == Compute(t, c.points)
  {
    var p := c.points;
    var q := Raise(c).points;
    ComputeIsCollapse(t, q);
    ComputeIsClosedForm(t, p);
    if |p| == 2 {
      ClosedFormsAgree(t, q);
      RaiseLineScalar(t, p[0].x, p[1].x);
      RaiseLineScalar(t, p[0].y, p[1].y);
    } else if |p| == 3 {
      ClosedFormsAgree(t, q);
      RaiseQuadraticScalar(t, p[0].x, p[1].x, p[2].x);
      RaiseQuadraticScalar(t, p[0].y, p[1].y, p[2].y);
    } else {
      CollapseRecurrence(t, q);
      ClosedFormsAgree(t, q[..4]);
      ClosedFormsAgree(t, q[1..]);
      RaiseCubicScalar(t, p[0].x, p[1].x, p[2].x, p[3].x);
      RaiseCubicScalar(t, p[0].y, p[1].y, p[2].y, p[3].y);
    }
  }

  /** `Bezier.hull(t)` as written: the first three control points (all four
      for a cubic) followed by every de Casteljau pass.  For quadratics and
      cubics this is the whole construction triangle, row after row; from
      order 4 on the control points past the third are missing, so the
      array is the triangle with those points taken out of its first row. */
  function HullAsWritten(t: real, pts: seq<Point>): (q: seq<Point>)
    requires |pts| >= 3
    ensures |pts| <= 4 ==> q == Flatten(Rows(t, pts))
    ensures |pts| == 3 ==> |q| == 6
    ensures |pts| >= 4 ==> |q| >= 10
    ensures |pts| >= 5 ==> q == pts[..3] + Flatten(Rows(t, pts)[1..])
    ensures |pts| >= 5 ==> |q| == 3 + (|pts| - 1) * |pts| / 2
  {
    var rows := Rows(t, pts);
    var head := if |pts| - 1 == 3 then pts[..4] else pts[..3];
    RowsSize(t, pts);
    RowsSize(t, Step(t, pts));
    assert |pts| <= 4 ==> Flatten(rows) == rows[0] + Flatten(rows[1..]);
    head + Flatten(rows[1..])
  }

  /** `Bezier.hull(t)` on a line: the two control points, the missing third
      one (`None`: the source reads `p[2]` past the end) and the single
      interpolated point, which is the point of the line at `t`.  The array
      ends there, so the entries 4, 7 and 9 that `split` reads are missing too. */
  function LineHullAsWritten(t: real, pts: seq<Point>): (q: seq<Option<Point>>)
    requires |pts| == 2
    ensures |q| == 4
    ensures q[0] == Some(pts[0]) && q[1] == Some(pts[1]) && q[2].None?
    ensures q[3] == Some(Compute(t, pts))
  {
    LerpIsLine(t, pts);
    [Some(pts[0]), Some(pts[1]), None, Some(Lerp(t, pts[0], pts[1]))]
  }

  /** The point a fraction `t` of the way along a line's control polygon is
      the line's point at `t`. */
  lemma LerpIsLine(t: real, pts: seq<Point>)
    requires |pts| == 2
    ensures Lerp(t, pts[0], pts[1]) == Compute(t, pts)
  {
    var l, p := Lerp(t, pts[0], pts[1]), Compute(t, pts);
    ComputeIsClosedForm(t, pts);
    LerpProperties(t, pts[0], pts[1]);
    assert p.x == Bernstein1(t, pts[0].x, pts[1].x) && p.y == Bernstein1(t, pts[0].y, pts[1].y);
    assert l.x == p.x && l.y == p.y;
  }

  /** A parameter of a curve carried onto the root curve's parameter: the
      affine map of the unit interval onto `[c.t1, c.t2]`. */
  function MapIntoParent(c: Curve, v: real): real
  {
    c.t1 + v * (c.t2 - c.t1)
  }

  /** The split pieces' intervals are computed by `utils.map` from the unit
      interval onto `[t1, t2]`, which is `MapIntoParent`. */
  lemma MapIntoParentIsMap(c: Curve, v: real)
    ensures Map(v, 0.0, 1.0, c.t1, c.t2) == Some(MapIntoParent(c, v))
  {
    var r := Map(v, 0.0, 1.0, c.t1, c.t2);
    assert r.Some?;
    assert r.value == c.t1 + (c.t2 - c.t1) * ((v - 0.0) / (1.0 - 0.0));
    assert (v - 0.0) / (1.0 - 0.0) == v;
    assert r.value == MapIntoParent(c, v);
    assert r == Some(r.value);
  }

  /** The two pieces of a one-argument `split`, and the construction triangle. */
  datatype Halves = Halves(left: Curve, right: Curve, span: seq<Point>)

  /** `Bezier.split(t)` as written: the pieces are read from fixed positions
      of the hull array, positions that are right for quadratics
      (`[q0,q3,q5]`, `[q5,q4,q2]`) and for cubics (`[q0,q4,q7,q9]`,
      `[q9,q8,q6,q3]`), and applied to every order other than 2.  A line's
      hull (`LineHullAsWritten`) ends at entry 3, so the points the
      constructor then dereferences are missing. */
  function SplitAsWritten(c: Curve, t: real): (r: Result<Halves, CurveError>)
    requires |c.points| >= 2
    ensures r.Err? <==> |c.points| == 2
  {
    if |c.points| == 2 then Err(UnsupportedOrder)
    else
      var q := HullAsWritten(t, c.points);
      var lo, mid, hi := MapIntoParent(c, 0.0), MapIntoParent(c, t), MapIntoParent(c, 1.0);
      if |c.points| - 1 == 2 then
        Ok(Halves(Curve([q[0], q[3], q[5]], lo, mid), Curve([q[5], q[4], q[2]], mid, hi), q))
      else
        Ok(Halves(Curve([q[0], q[4], q[7], q[9]], lo, mid), Curve([q[9], q[8], q[6], q[3]], mid, hi), q))
  }

  /** `Bezier.split(t)`: de Casteljau subdivision of a curve of any order.  The
      left piece is the left side of the construction triangle, the right
      piece its right side; both meet at the apex, the point of the curve at
      `t`.  The left piece covers `[t1, map(t)]` of the root curve and the
      right piece `[map(t), t2]`. */
  function Split(c: Curve, t: real): (h: Halves)
    requires |c.points| >= 2
    ensures |h.left.points| == |c.points| && |h.right.points| == |c.points|
    ensures h.left.points[0] == c.points[0]
    ensures h.right.points[|c.points| - 1] == c.points[|c.points| - 1]
    ensures h.left.t1 == c.t1 && h.right.t2 == c.t2
    ensures h.left.t2 == c.t1 + t * (c.t2 - c.t1) && h.right.t1 == h.left.t2
  {
    var rows := Rows(t, c.points);
    var n := |c.points| - 1;
    var left := LeftSide(rows);
    var right := RightSide(rows);
    assert right[n] == rows[0][n];
    Halves(Curve(left, MapIntoParent(c, 0.0), MapIntoParent(c, t)),
           Curve(right, MapIntoParent(c, t), MapIntoParent(c, 1.0)),
           Flatten(rows))
  }

  /** Splitting subdivides the curve: at `s` the left piece passes through the
      point of the curve at `s t` and the right piece through the point at
      `t + s (1 - t)`, for curves of every order. */
  lemma SplitSubdivides(c: Curve, t: real, s: real)
    requires |c.points| >= 2
    ensures Compute(s, Split(c, t).left.points) == Compute(s * t, c.points)
    ensures Compute(s, Split(c, t).right.points) == Compute(t + s * (1.0 - t), c.points)
    ensures Split(c, t).left.points[|c.points| - 1] == Compute(t, c.points)
    ensures Split(c, t).right.points[0] == Compute(t, c.points)
  {
    var h := Split(c, t);
    var rows := Rows(t, c.points);
    var n := |c.points| - 1;
    ApexIsCollapse(t, c.points);
    ComputeIsCollapse(t, c.points);
    assert h.left.points[n] == rows[n][0];
    assert h.right.points[0] == rows[n][0];
    ComputeIsCollapse(s, h.left.points);
    ComputeIsCollapse(s, h.right.points);
    ComputeIsCollapse(s * t, c.points);
    ComputeIsCollapse(t + s * (1.0 - t), c.points);
    LeftSubdivides(t, s, c.points);
    RightSubdivides(t, s, c.points);
  }

  /** What a two-argument `split` returns: both halves, or one piece. */
  datatype SplitOutcome = Both(halves: Halves) | Piece(curve: Curve)

  /** `Bezier.split(t1, t2)`.  `t2` is optional (`None` when absent) and, as in
      the source, read as a truth value: an absent or zero `t2` returns both
      halves at `t1`.  With `t1 = 0` and a truthy `t2` the left half at `t2` is
      returned, with `t2 = 1` the right half at `t1`; otherwise `t2` is mapped
      from `[t1, 1]` onto the unit interval and the left half of the right
      half is returned, which divides by zero when `t1 = 1`. */
  function SplitRange(c: Curve, t1: real, t2: Option<real>): (r: Result<SplitOutcome, CurveError>)
    requires |c.points| >= 2
    ensures r.Err? <==> t1 == 1.0 && t2.Some? && t2.value != 0.0 && t2.value != 1.0
    ensures r.Err? ==> r.error == NonFinite
    ensures r.Ok? ==> (r.value.Piece? <==> t2.Some? && t2.value != 0.0)
    ensures r.Ok? && r.value.Both? ==> r.value.halves == Split(c, t1)
    ensures r.Ok? && r.value.Piece? ==> |r.value.curve.points| == |c.points|
  {
    if t1 == 0.0 && t2.Some? && t2.value != 0.0 then
      Ok(Piece(Split(c, t2.value).left))
    else if t2 == Some(1.0) then
      Ok(Piece(Split(c, t1).right))
    else
      var h := Split(c, t1);
      if t2.None? || t2.value == 0.0 then Ok(Both(h))
      else
        match Map(t2.value, t1, 1.0, 0.0, 1.0)
        case None => Err(NonFinite)
        case Some(u) =>
          Ok(Piece(Split(h.right, u).left))
  }

  /** `Bezier.split(t1, t2)` as written: the branches of `SplitRange` over the
      source's one-argument split.  Every call on a line fails, and from
      order 4 on the piece has the four points read from fixed hull positions. */
  function SplitRangeAsWritten(c: Curve, t1: real, t2: Option<real>): (r: Result<SplitOutcome, CurveError>)
    requires |c.points| >= 2
    ensures |c.points| == 2 ==> r == Err(UnsupportedOrder)
    ensures |c.points| > 2 ==>
              (r.Err? <==> t1 == 1.0 && t2.Some? && t2.value != 0.0 && t2.value != 1.0)
    ensures r.Ok? ==> (r.value.Piece? <==> t2.Some? && t2.value != 0.0)
    ensures r.Ok? && r.value.Piece? ==> |r.value.curve.points| == if |c.points| == 3 then 3 else 4
  {
    if t1 == 0.0 && t2.Some? && t2.value != 0.0 then
      match SplitAsWritten(c, t2.value)
      case Err(e) => Err(e)
      case Ok(h) => Ok(Piece(h.left))
    else if t2 == Some(1.0) then
      match SplitAsWritten(c, t1)
      case Err(e) => Err(e)
      case Ok(h) => Ok(Piece(h.right))
    else
      match SplitAsWritten(c, t1)
      case Err(e) => Err(e)
      case Ok(h) =>
        if t2.None? || t2.value == 0.0 then Ok(Both(h))
        else
          match Map(t2.value, t1, 1.0, 0.0, 1.0)
          case None => Err(NonFinite)
          case Some(u) =>
            match SplitAsWritten(h.right, u)
            case Err(e) => Err(e)
            case Ok(g) => Ok(Piece(g.left))
  }

  /** On quadratics and cubics the source's two-argument split is the
      subdivision-based one. */
  lemma SplitRangeAsWrittenAgrees(c: Curve, t1: real, t2: Option<real>)
    requires 3 <= |c.points| <= 4
    ensures SplitRangeAsWritten(c, t1, t2) == SplitRange(c, t1, t2)
  {
    if t1 == 0.0 && t2.Some? && t2.value != 0.0 {
      SplitAsWrittenAgrees(c, t2.value);
    } else {
      SplitAsWrittenAgrees(c, t1);
      var h := Split(c, t1);
      if t2.Some? && t2.value != 0.0 && t2 != Some(1.0) && t1 != 1.0 {
        MapOntoUnit(t2.value, t1);
        var u := Map(t2.value, t1, 1.0, 0.0, 1.0).value;
        SplitAsWrittenAgrees(h.right, u);
      }
    }
  }

  /** `utils.map` of `v` from `[t1, 1]` onto the unit interval: the fraction
      `u` with `u (1 - t1) = v - t1`. */
  lemma MapOntoUnit(v: real, t1: real)
    requires t1 != 1.0
    ensures Map(v, t1, 1.0, 0.0, 1.0).Some?
    ensures Map(v, t1, 1.0, 0.0, 1.0).value * (1.0 - t1) == v - t1
  {
    var u := Map(v, t1, 1.0, 0.0, 1.0).value;
    assert (u - 0.0) * (1.0 - t1) == (1.0 - 0.0) * (v - t1);
  }

  lemma RangeEndScalar(a: real, b: real, t1: real, v: real, u: real, a1: real, b1: real)
    requires a1 == a + t1 * (b - a) && b1 == b
    requires u * (1.0 - t1) == v - t1
    ensures a1 + u * (b1 - a1) == a + v * (b - a)
  {
    assert b1 - a1 == (1.0 - t1) * (b - a);
    assert u * ((1.0 - t1) * (b - a)) == (u * (1.0 - t1)) * (b - a);
  }

  lemma RangeParameterScalar(t1: real, t2: real, u: real, s: real, v: real)
    requires u * (1.0 - t1) == t2 - t1 && v == s * u
    ensures t1 + v * (1.0 - t1) == t1 + s * (t2 - t1)
  {
    assert v * (1.0 - t1) == s * (u * (1.0 - t1));
  }

  /** `SplitSubdivides` for the left half, with the parameter on the parent named. */
  lemma LeftTraceAt(c: Curve, t: real, s: real, x: real)
    requires |c.points| >= 2 && x == s * t
    ensures Compute(s, Split(c, t).left.points) == Compute(x, c.points)
  {
    SplitSubdivides(c, t, s);
  }

  /** `SplitSubdivides` for the right half, with the parameter on the parent named. */
  lemma RightTraceAt(c: Curve, t: real, s: real, x: real)
    requires |c.points| >= 2 && x == t + s * (1.0 - t)
    ensures Compute(s, Split(c, t).right.points) == Compute(x, c.points)
  {
    SplitSubdivides(c, t, s);
  }

  /** The general case of a two-argument split, the left half at the re-mapped
      `t2` of the right half at `t1`, covers `[map(t1), map(t2)]`. */
  lemma InnerPieceInterval(c: Curve, t1: real, t2: real, u: real)
    requires |c.points| >= 2
    requires u * (1.0 - t1) == t2 - t1
    ensures Split(Split(c, t1).right, u).left.t1 == MapIntoParent(c, t1)
    ensures Split(Split(c, t1).right, u).left.t2 == MapIntoParent(c, t2)
  {
    var r := Split(c, t1).right;
    var l := Split(r, u).left;
    assert r.t1 == c.t1 + t1 * (c.t2 - c.t1) && r.t2 == c.t2;
    assert l.t1 == r.t1 && l.t2 == r.t1 + u * (r.t2 - r.t1);
    RangeEndScalar(c.t1, c.t2, t1, t2, u, r.t1, r.t2);
    assert r.t1 + u * (r.t2 - r.t1) == c.t1 + t2 * (c.t2 - c.t1);
    assert MapIntoParent(c, t2) == c.t1 + t2 * (c.t2 - c.t1);
  }

  /** The general case of a two-argument split traces the curve from `t1` to `t2`. */
  lemma InnerPieceTraces(c: Curve, t1: real, t2: real, u: real, s: real)
    requires |c.points| >= 2
    requires u * (1.0 - t1) == t2 - t1
    ensures Compute(s, Split(Split(c, t1).right, u).left.points) == Compute(t1 + s * (t2 - t1), c.points)
  {
    var r := Split(c, t1).right;
    var l := Split(r, u).left;
    var v := s * u;
    LeftTraceAt(r, u, s, v);
    RangeParameterScalar(t1, t2, u, s, v);
    RightTraceAt(c, t1, v, t1 + s * (t2 - t1));
  }

  /** The piece a two-argument split returns covers `[map(t1), map(t2)]` of the
      root curve and traces the curve from `t1` to `t2`: at `s` it passes
      through the point of the curve at `t1 + s (t2 - t1)`. */
  lemma SplitRangePiece(c: Curve, t1: real, t2: real, s: real)
    requires |c.points| >= 2
    requires SplitRange(c, t1, Some(t2)).Ok? && SplitRange(c, t1, Some(t2)).value.Piece?
    ensures SplitRange(c, t1, Some(t2)).value.curve.t1 == MapIntoParent(c, t1)
    ensures SplitRange(c, t1, Some(t2)).value.curve.t2 == MapIntoParent(c, t2)
    ensures Compute(s, SplitRange(c, t1, Some(t2)).value.curve.points) == Compute(t1 + s * (t2 - t1), c.points)
  {
    var piece := SplitRange(c, t1, Some(t2)).value.curve;
    if t1 == 0.0 && t2 != 0.0 {
      assert piece == Split(c, t2).left;
      LeftPiece(c, t2, s);
    } else if t2 == 1.0 {
      assert piece == Split(c, t1).right;
      RightPiece(c, t1, s);
    } else {
      MapOntoUnit(t2, t1);
      var u := Map(t2, t1, 1.0, 0.0, 1.0).value;
      assert piece == Split(Split(c, t1).right, u).left;
      InnerPieceInterval(c, t1, t2, u);
      InnerPieceTraces(c, t1, t2, u, s);
    }
  }

  /** The case `t1 = 0` of a two-argument split: the left half at `t2`. */
  lemma LeftPiece(c: Curve, t2: real, s: real)
    requires |c.points| >= 2
    ensures Split(c, t2).left.t1 == MapIntoParent(c, 0.0)
    ensures Split(c, t2).left.t2 == MapIntoParent(c, t2)
    ensures Compute(s, Split(c, t2).left.points) == Compute(0.0 + s * (t2 - 0.0), c.points)
  {
    LeftTraceAt(c, t2, s, 0.0 + s * (t2 - 0.0));
  }

  /** The case `t2 = 1` of a two-argument split: the right half at `t1`. */
  lemma RightPiece(c: Curve, t1: real, s: real)
    requires |c.points| >= 2
    ensures Split(c, t1).right.t1 == MapIntoParent(c, t1)
    ensures Split(c, t1).right.t2 == MapIntoParent(c, 1.0)
    ensures Compute(s, Split(c, t1).right.points) == Compute(t1 + s * (1.0 - t1), c.points)
  {
    RightTraceAt(c, t1, s, t1 + s * (1.0 - t1));
  }

  /** On quadratics and cubics the fixed hull positions the source reads are
      exactly the two sides of the triangle: there the source's split is the
      de Casteljau subdivision. */
  lemma SplitAsWrittenAgrees(c: Curve, t: real)
    requires 3 <= |c.points| <= 4
    ensures SplitAsWritten(c, t) == Ok(Split(c, t))
  {
    var rows := Rows(t, c.points);
    var q := HullAsWritten(t, c.points);
    assert Flatten(rows[|rows|..]) == [];
    assert Flatten(rows[2..]) == rows[2] + Flatten(rows[3..]);
    assert Flatten(rows[1..]) == rows[1] + Flatten(rows[2..]);
    if |c.points| == 3 {
      assert Flatten(rows) == rows[0] + rows[1] + rows[2];
      assert q[3] == rows[1][0] && q[5] == rows[2][0] && q[4] == rows[1][1] && q[2] == rows[0][2];
      var h := Split(c, t);
      assert h.left.points == [q[0], q[3], q[5]];
      assert h.right.points == [q[5], q[4], q[2]];
    } else {
      assert Flatten(rows[3..]) == rows[3] + Flatten(rows[4..]);
      assert Flatten(rows) == rows[0] + rows[1] + rows[2] + rows[3];
      assert q[4] == rows[1][0] && q[7] == rows[2][0] && q[9] == rows[3][0];
      assert q[8] == rows[2][1] && q[6] == rows[1][2] && q[3] == rows[0][3];
      var h := Split(c, t);
      assert h.left.points == [q[0], q[4], q[7], q[9]];
      assert h.right.points == [q[9], q[8], q[6], q[3]];
    }
  }

  /** From order 4 on, the source's hull holds only the first three control
      points before the first de Casteljau row, so its entry 3, which the
      source's split reads as the parent's last control point, is the first
      interpolated point. */
  lemma HullAsWrittenEntryThree(t: real, pts: seq<Point>)
    requires |pts| >= 5
    ensures HullAsWritten(t, pts)[3] == Lerp(t, pts[0], pts[1])
  {
    var rows := Rows(t, pts);
    RowsSize(t, pts);
    RowsSize(t, Step(t, pts));
    assert rows[1..] == [rows[1]] + rows[2..];
    assert Flatten(rows[1..]) == rows[1] + Flatten(rows[2..]);
    RowsStep(t, pts, 1);
  }

  /** On every curve of order 4 or more the source's split returns a right
      piece of four control points that ends at `lerp(t, p0, p1)`. */
  lemma SplitAsWrittenRightEnd(c: Curve, t: real)
    requires |c.points| >= 5
    ensures |SplitAsWritten(c, t).value.right.points| == 4
    ensures SplitAsWritten(c, t).value.right.points[3] == Lerp(t, c.points[0], c.points[1])
  {
    HullAsWrittenEntryThree(t, c.points);
  }

  /** A concrete case: the straight quartic through (0,0), (1,0), ..., (4,0)
      split at 1/2 gets a right piece ending at (0.5, 0) instead of at the
      parent's last point (4, 0), while the de Casteljau split ends there. */
  lemma SplitAsWrittenBreaksQuartic()
    ensures var c := Curve([Point(0.0, 0.0), Point(1.0, 0.0), Point(2.0, 0.0), Point(3.0, 0.0), Point(4.0, 0.0)], 0.0, 1.0);
            var right := SplitAsWritten(c, 0.5).value.right.points;
            && right[|right| - 1] == Point(0.5, 0.0)
            && right[|right| - 1] != c.points[4]
            && Split(c, 0.5).right.points[4] == c.points[4]
  {
    var c := Curve([Point(0.0, 0.0), Point(1.0, 0.0), Point(2.0, 0.0), Point(3.0, 0.0), Point(4.0, 0.0)], 0.0, 1.0);
    SplitAsWrittenRightEnd(c, 0.5);
    assert Lerp(0.5, c.points[0], c.points[1]) == Point(0.5, 0.0);
  }
}
