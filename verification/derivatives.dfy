/** The derivative hierarchy of a curve (`utils.derive`): the control points
    of the first, second, ... derivative curves. */
module Derivatives {
  import opened Points
  import opened Evaluate

  /** `q` is the derivative control polygon of `p`: `c = |p| - 1` times each
      difference of neighbouring points. */
  ghost predicate IsHodographOf(q: seq<Point>, p: seq<Point>)
  {
    && |q| == |p| - 1
    && forall j :: 0 <= j < |q| ==> q[j] == Scale((|p| - 1) as real, Sub(p[j + 1], p[j]))
  }

  /** One level of the hierarchy. */
  function Hodograph(p: seq<Point>): (q: seq<Point>)
    requires |p| >= 1
    ensures IsHodographOf(q, p)
  {
    var c := (|p| - 1) as real;
    seq(|p| - 1, j requires 0 <= j < |p| - 1 => Scale(c, Sub(p[j + 1], p[j])))
  }

  /** `utils.derive`: for `n + 1` control points, `n` levels; level `i` has
      `n - i` points and is the derivative polygon of the level before it (of
      the control points themselves for level 0), so its multiplier is `n - i`. */
  function Derive(pts: seq<Point>): (levels: seq<seq<Point>>)
    ensures |levels| == if |pts| <= 1 then 0 else |pts| - 1
    ensures forall i :: 0 <= i < |levels| ==> |levels[i]| == |pts| - 1 - i
    ensures |levels| > 0 ==> IsHodographOf(levels[0], pts)
    ensures forall i :: 0 < i < |levels| ==> IsHodographOf(levels[i], levels[i - 1])
    decreases |pts|
  {
    if |pts| <= 1 then []
    else
      var h := Hodograph(pts);
      var rest := Derive(h);
      [h] + rest
  }

  // The first level of the hierarchy is the derivative of the curve: the exact
  // Taylor expansion of the curve around `t` has it as its linear term (and
  // the second level as its quadratic term), checked order by order.

  lemma LineScalar(t: real, h: real, a: real, b: real)
    ensures Bernstein1(t + h, a, b) - Bernstein1(t, a, b) == h * (b - a)
  {
  }

  lemma QuadraticTaylorScalar(t: real, h: real, a: real, b: real, c: real)
    ensures Bernstein2(t + h, a, b, c) - Bernstein2(t, a, b, c)
         == h * Bernstein1(t, 2.0 * (b - a), 2.0 * (c - b)) + h * h * (a - 2.0 * b + c)
  {
  }

  lemma CubicTaylorScalar(t: real, h: real, a: real, b: real, c: real, d: real,
                          p: real, q: real, r: real, u: real, v: real)
    requires p == 3.0 * (b - a) && q == 3.0 * (c - b) && r == 3.0 * (d - c)
    requires u == 2.0 * (q - p) && v == 2.0 * (r - q)
    ensures Bernstein3(t + h, a, b, c, d) - Bernstein3(t, a, b, c, d)
         == h * Bernstein2(t, p, q, r) + h * h / 2.0 * Bernstein1(t, u, v)
          + h * h * h * (d - 3.0 * c + 3.0 * b - a)
  {
  }

  /** A line moves by `h` times its derivative when the parameter moves by `h`. */
  lemma LineDerivative(pts: seq<Point>, t: real, h: real)
    requires |pts| == 2
    ensures Sub(Compute(t + h, pts), Compute(t, pts)) == Scale(h, Compute(t, Derive(pts)[0]))
  {
    var d := Derive(pts)[0];
    ComputeIsClosedForm(t + h, pts);
    ComputeIsClosedForm(t, pts);
    assert Compute(t, d) == d[0];
    LineScalar(t, h, pts[0].x, pts[1].x);
    LineScalar(t, h, pts[0].y, pts[1].y);
  }

  /** For a quadratic curve the first derivative level gives the linear term of
      the exact expansion `B(t+h) - B(t) = h B'(t) + h^2 (p0 - 2 p1 + p2)`. */
  lemma QuadraticDerivative(pts: seq<Point>, t: real, h: real)
    requires |pts| == 3
    ensures var diff := Sub(Compute(t + h, pts), Compute(t, pts));
            var d1 := Compute(t, Derive(pts)[0]);
            && diff.x == h * d1.x + h * h * (pts[0].x - 2.0 * pts[1].x + pts[2].x)
            && diff.y == h * d1.y + h * h * (pts[0].y - 2.0 * pts[1].y + pts[2].y)
  {
    var d := Derive(pts)[0];
    assert d[0] == Point(2.0 * (pts[1].x - pts[0].x), 2.0 * (pts[1].y - pts[0].y));
    assert d[1] == Point(2.0 * (pts[2].x - pts[1].x), 2.0 * (pts[2].y - pts[1].y));
    ComputeIsClosedForm(t + h, pts);
    ComputeIsClosedForm(t, pts);
    ComputeIsClosedForm(t, d);
    var bh, b0, d0 := Compute(t + h, pts), Compute(t, pts), Compute(t, d);
    assert bh.x == Bernstein2(t + h, pts[0].x, pts[1].x, pts[2].x);
    assert b0.x == Bernstein2(t, pts[0].x, pts[1].x, pts[2].x);
    assert d0.x == Bernstein1(t, 2.0 * (pts[1].x - pts[0].x), 2.0 * (pts[2].x - pts[1].x));
    assert bh.y == Bernstein2(t + h, pts[0].y, pts[1].y, pts[2].y);
    assert b0.y == Bernstein2(t, pts[0].y, pts[1].y, pts[2].y);
    assert d0.y == Bernstein1(t, 2.0 * (pts[1].y - pts[0].y), 2.0 * (pts[2].y - pts[1].y));
    QuadraticTaylorScalar(t, h, pts[0].x, pts[1].x, pts[2].x);
    QuadraticTaylorScalar(t, h, pts[0].y, pts[1].y, pts[2].y);
  }

  /** For a cubic curve the two derivative levels give, along each axis, the
      linear and quadratic terms of the exact expansion
      `B(t+h) - B(t) = h B'(t) + h^2/2 B''(t) + h^3 (p3 - 3 p2 + 3 p1 - p0)`. */
  lemma CubicDerivative(pts: seq<Point>, t: real, h: real, ax: Axis)
    requires |pts| == 4
    ensures CubicExpansion(h, Coord(Compute(t + h, pts), ax), Coord(Compute(t, pts), ax),
                           Coord(Compute(t, Derive(pts)[0]), ax), Coord(Compute(t, Derive(pts)[1]), ax),
                           Coord(pts[0], ax), Coord(pts[1], ax), Coord(pts[2], ax), Coord(pts[3], ax))
  {
    CubicLevels(pts, ax);
    CubicCoord(t + h, pts, ax);
    CubicCoord(t, pts, ax);
    QuadraticCoord(t, Derive(pts)[0], ax);
    LineCoord(t, Derive(pts)[1], ax);
    CubicTaylorStep(t, h, Coord(Compute(t + h, pts), ax), Coord(Compute(t, pts), ax),
                    Coord(Compute(t, Derive(pts)[0]), ax), Coord(Compute(t, Derive(pts)[1]), ax),
                    Coord(pts[0], ax), Coord(pts[1], ax), Coord(pts[2], ax), Coord(pts[3], ax),
                    Coord(Derive(pts)[0][0], ax), Coord(Derive(pts)[0][1], ax), Coord(Derive(pts)[0][2], ax),
                    Coord(Derive(pts)[1][0], ax), Coord(Derive(pts)[1][1], ax));
  }

  /** The two derivative levels of a cubic along one axis. */
  lemma CubicLevels(pts: seq<Point>, ax: Axis)
    requires |pts| == 4
    ensures var d1, d2 := Derive(pts)[0], Derive(pts)[1];
            && Coord(d1[0], ax) == 3.0 * (Coord(pts[1], ax) - Coord(pts[0], ax))
            && Coord(d1[1], ax) == 3.0 * (Coord(pts[2], ax) - Coord(pts[1], ax))
            && Coord(d1[2], ax) == 3.0 * (Coord(pts[3], ax) - Coord(pts[2], ax))
            && Coord(d2[0], ax) == 2.0 * (Coord(d1[1], ax) - Coord(d1[0], ax))
            && Coord(d2[1], ax) == 2.0 * (Coord(d1[2], ax) - Coord(d1[1], ax))
  {
    var d1, d2 := Derive(pts)[0], Derive(pts)[1];
    assert d1[0] == Point(3.0 * (pts[1].x - pts[0].x), 3.0 * (pts[1].y - pts[0].y));
    assert d1[1] == Point(3.0 * (pts[2].x - pts[1].x), 3.0 * (pts[2].y - pts[1].y));
    assert d1[2] == Point(3.0 * (pts[3].x - pts[2].x), 3.0 * (pts[3].y - pts[2].y));
    assert d2[0] == Point(2.0 * (d1[1].x - d1[0].x), 2.0 * (d1[1].y - d1[0].y));
    assert d2[1] == Point(2.0 * (d1[2].x - d1[1].x), 2.0 * (d1[2].y - d1[1].y));
  }

  /** The cubic Taylor expansion `bh - b0 = h e1 + h^2/2 e2 + h^3 (d - 3c + 3b - a)`
      of the values `bh` at `t + h` and `b0` at `t` of a cubic with coefficients
      `a, b, c, d`, whose first and second derivatives at `t` are `e1` and `e2`. */
  predicate CubicExpansion(h: real, bh: real, b0: real, e1: real, e2: real,
                           a: real, b: real, c: real, d: real)
  {
    bh - b0 == h * e1 + h * h / 2.0 * e2 + h * h * h * (d - 3.0 * c + 3.0 * b - a)
  }

  /** One coordinate of `CubicDerivative`, with the curve values named. */
  lemma CubicTaylorStep(t: real, h: real, bh: real, b0: real, e1: real, e2: real,
                        a: real, b: real, c: real, d: real,
                        p: real, q: real, r: real, u: real, v: real)
    requires bh == Bernstein3(t + h, a, b, c, d) && b0 == Bernstein3(t, a, b, c, d)
    requires e1 == Bernstein2(t, p, q, r) && e2 == Bernstein1(t, u, v)
    requires p == 3.0 * (b - a) && q == 3.0 * (c - b) && r == 3.0 * (d - c)
    requires u == 2.0 * (q - p) && v == 2.0 * (r - q)
    ensures CubicExpansion(h, bh, b0, e1, e2, a, b, c, d)
  {
    CubicTaylorScalar(t, h, a, b, c, d, p, q, r, u, v);
  }

  /** Along an axis, a line is the linear Bernstein form of its coordinates. */
  lemma LineCoord(s: real, pts: seq<Point>, ax: Axis)
    requires |pts| == 2
    ensures Coord(Compute(s, pts), ax) == Bernstein1(s, Coord(pts[0], ax), Coord(pts[1], ax))
  {
    ComputeIsClosedForm(s, pts);
  }

  /** Along an axis, a quadratic is the quadratic Bernstein form of its coordinates. */
  lemma QuadraticCoord(s: real, pts: seq<Point>, ax: Axis)
    requires |pts| == 3
    ensures Coord(Compute(s, pts), ax)
         == Bernstein2(s, Coord(pts[0], ax), Coord(pts[1], ax), Coord(pts[2], ax))
  {
    ComputeIsClosedForm(s, pts);
  }

  /** Along an axis, a cubic is the cubic Bernstein form of its coordinates. */
  lemma CubicCoord(s: real, pts: seq<Point>, ax: Axis)
    requires |pts| == 4
    ensures Coord(Compute(s, pts), ax)
         == Bernstein3(s, Coord(pts[0], ax), Coord(pts[1], ax), Coord(pts[2], ax), Coord(pts[3], ax))
  {
    ComputeIsClosedForm(s, pts);
  }

  /** At the ends of the curve the first derivative is `n` times the first and
      last legs of the control polygon. */
  lemma EndTangents(pts: seq<Point>)
    requires |pts| >= 2
    ensures Compute(0.0, Derive(pts)[0]) == Scale((|pts| - 1) as real, Sub(pts[1], pts[0]))
    ensures Compute(1.0, Derive(pts)[0])
         == Scale((|pts| - 1) as real, Sub(pts[|pts| - 1], pts[|pts| - 2]))
  {
  }
}
