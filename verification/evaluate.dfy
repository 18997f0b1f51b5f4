/** Evaluation of a Bezier curve at a parameter (`utils.compute`), together
    with the de Casteljau collapse that serves as its reference definition. */
module Evaluate {
  import opened Points

  /** One de Casteljau pass: every pair of neighbouring control points is
      replaced by the point a fraction `t` of the way between them. */
  function Step(t: real, pts: seq<Point>): (q: seq<Point>)
    requires |pts| >= 1
    ensures |q| == |pts| - 1
  {
    seq(|pts| - 1, i requires 0 <= i < |pts| - 1 => Lerp(t, pts[i], pts[i + 1]))
  }

  /** The de Casteljau collapse: repeat `Step` until one point remains. */
  function Collapse(t: real, pts: seq<Point>): Point
    requires |pts| >= 1
    decreases |pts|
  {
    if |pts| == 1 then pts[0] else Collapse(t, Step(t, pts))
  }

  // Closed Bernstein forms, coordinate by coordinate, with the weights the
  // source computes (`mt = 1 - t`).

  function Bernstein1(t: real, a: real, b: real): real
  {
    (1.0 - t) * a + t * b
  }

  function Bernstein2(t: real, a: real, b: real, c: real): real
  {
    var mt := 1.0 - t;
    mt * mt * a + mt * t * 2.0 * b + t * t * c
  }

  function Bernstein3(t: real, a: real, b: real, c: real, d: real): real
  {
    var mt := 1.0 - t;
    mt * mt * mt * a + mt * mt * t * 3.0 * b + mt * t * t * 3.0 * c + t * t * t * d
  }

  /** The closed Bernstein form of a curve of order 1, 2 or 3. */
  function ClosedForm(t: real, pts: seq<Point>): Point
    requires 2 <= |pts| <= 4
  {
    if |pts| == 2 then
      Point(Bernstein1(t, pts[0].x, pts[1].x), Bernstein1(t, pts[0].y, pts[1].y))
    else if |pts| == 3 then
      Point(Bernstein2(t, pts[0].x, pts[1].x, pts[2].x),
            Bernstein2(t, pts[0].y, pts[1].y, pts[2].y))
    else
      Point(Bernstein3(t, pts[0].x, pts[1].x, pts[2].x, pts[3].x),
            Bernstein3(t, pts[0].y, pts[1].y, pts[2].y, pts[3].y))
  }

  /** `utils.compute`: the point of the curve with control points `pts` at `t`.
      The parameters 0 and 1 return the end control points themselves; orders
      1 to 3 use the closed Bernstein forms, higher orders the de Casteljau
      collapse. */
  function Compute(t: real, pts: seq<Point>): (r: Point)
    requires |pts| >= 1
    ensures t == 0.0 ==> r == pts[0]
    ensures t == 1.0 ==> r == pts[|pts| - 1]
    ensures |pts| == 1 ==> r == pts[0]
  {
    var order := |pts| - 1;
    if t == 0.0 then pts[0]
    else if t == 1.0 then pts[order]
    else if order == 0 then pts[0]
    else if order < 4 then ClosedForm(t, pts)
    else Collapse(t, pts)
  }

  /** At `t = 0` the collapse keeps the first control point. */
  lemma {:induction false} CollapseAtZero(pts: seq<Point>)
    requires |pts| >= 1
    ensures Collapse(0.0, pts) == pts[0]
    decreases |pts|
  {
    if |pts| > 1 {
      CollapseAtZero(Step(0.0, pts));
    }
  }

  /** At `t = 1` the collapse keeps the last control point. */
  lemma {:induction false} CollapseAtOne(pts: seq<Point>)
    requires |pts| >= 1
    ensures Collapse(1.0, pts) == pts[|pts| - 1]
    decreases |pts|
  {
    if |pts| > 1 {
      CollapseAtOne(Step(1.0, pts));
    }
  }

  lemma QuadraticScalar(t: real, a: real, b: real, c: real)
    ensures LerpR(t, LerpR(t, a, b), LerpR(t, b, c)) == Bernstein2(t, a, b, c)
  {
  }

  lemma CubicScalar(t: real, a: real, b: real, c: real, d: real)
    ensures LerpR(t, Bernstein2(t, a, b, c), Bernstein2(t, b, c, d)) == Bernstein3(t, a, b, c, d)
  {
  }

  /** The closed forms the source uses for orders 1 to 3 give the same point as
      the de Casteljau collapse used for higher orders. */
  lemma ClosedFormsAgree(t: real, pts: seq<Point>)
    requires 2 <= |pts| <= 4
    ensures ClosedForm(t, pts) == Collapse(t, pts)
  {
    var s1 := Step(t, pts);
    if |pts| == 2 {
      assert Collapse(t, pts) == s1[0];
    } else if |pts| == 3 {
      var s2 := Step(t, s1);
      assert Collapse(t, pts) == Collapse(t, s1) == s2[0];
      QuadraticScalar(t, pts[0].x, pts[1].x, pts[2].x);
      QuadraticScalar(t, pts[0].y, pts[1].y, pts[2].y);
    } else {
      var s2 := Step(t, s1);
      var s3 := Step(t, s2);
      assert Collapse(t, pts) == Collapse(t, s1) == Collapse(t, s2) == s3[0];
      QuadraticScalar(t, pts[0].x, pts[1].x, pts[2].x);
      QuadraticScalar(t, pts[0].y, pts[1].y, pts[2].y);
      QuadraticScalar(t, pts[1].x, pts[2].x, pts[3].x);
      QuadraticScalar(t, pts[1].y, pts[2].y, pts[3].y);
      CubicScalar(t, pts[0].x, pts[1].x, pts[2].x, pts[3].x);
      CubicScalar(t, pts[0].y, pts[1].y, pts[2].y, pts[3].y);
    }
  }

  /** `compute` agrees with the de Casteljau collapse at every parameter and
      for every order: the endpoint shortcuts and the closed forms are exact. */
  lemma ComputeIsCollapse(t: real, pts: seq<Point>)
    requires |pts| >= 1
    ensures Compute(t, pts) == Collapse(t, pts)
  {
    if t == 0.0 {
      CollapseAtZero(pts);
    } else if t == 1.0 {
      CollapseAtOne(pts);
    } else if 2 <= |pts| <= 4 {
      ClosedFormsAgree(t, pts);
    }
  }

  /** The higher-order branch of `utils.compute` as the source runs it: a
      working copy of the control points is overwritten in place, left to
      right, with the interpolated points, and its last entry is dropped,
      until one point is left. */
  method CollapseInPlace(t: real, pts: seq<Point>) returns (p: Point)
    requires |pts| >= 1
    ensures p == Collapse(t, pts)
    ensures t == 0.0 ==> p == pts[0]
    ensures t == 1.0 ==> p == pts[|pts| - 1]
  {
    var d := pts;
    while |d| > 1
      invariant |d| >= 1
      invariant Collapse(t, d) == Collapse(t, pts)
      decreases |d|
    {
      var prev := d;
      var i := 0;
      while i < |d| - 1
        invariant |d| == |prev|
        invariant 0 <= i <= |d| - 1
        invariant forall j :: 0 <= j < i ==> d[j] == Lerp(t, prev[j], prev[j + 1])
        invariant forall j :: i <= j < |d| ==> d[j] == prev[j]
      {
        d := d[i := Lerp(t, d[i], d[i + 1])];
        i := i + 1;
      }
      d := d[..|d| - 1];
      assert d == Step(t, prev);
    }
    p := d[0];
    if t == 0.0 {
      CollapseAtZero(pts);
    } else if t == 1.0 {
      CollapseAtOne(pts);
    }
  }

  /** For orders 1 to 3, `compute` is the closed form at every parameter,
      including the shortcut parameters 0 and 1. */
  lemma ComputeIsClosedForm(t: real, pts: seq<Point>)
    requires 2 <= |pts| <= 4
    ensures Compute(t, pts) == ClosedForm(t, pts)
  {
    ComputeIsCollapse(t, pts);
    ClosedFormsAgree(t, pts);
  }

  /** The collapse of `n` points is the interpolation between the collapses
      of the first and of the last `n - 1` of them. */
  lemma {:induction false} CollapseRecurrence(t: real, pts: seq<Point>)
    requires |pts| >= 2
    ensures Collapse(t, pts) == Lerp(t, Collapse(t, pts[..|pts| - 1]), Collapse(t, pts[1..]))
    decreases |pts|
  {
    var n := |pts|;
    if n > 2 {
      var s := Step(t, pts);
      CollapseRecurrence(t, s);
      assert s[..|s| - 1] == Step(t, pts[..n - 1]);
      assert s[1..] == Step(t, pts[1..]);
    }
  }
}
