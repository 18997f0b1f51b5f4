/** De Casteljau subdivision, for curves of every order: the left side of the
    construction triangle at `t` is the curve restricted to `[0, t]`, and the
    right side, read from the apex, the curve restricted to `[t, 1]`. */
module Subdivision {
  import opened Points
  import opened Evaluate
  import opened Triangle

  /** A control polygon read backwards. */
  function Reverse(pts: seq<Point>): (r: seq<Point>)
    ensures |r| == |pts|
  {
    seq(|pts|, i requires 0 <= i < |pts| => pts[|pts| - 1 - i])
  }

  /** Pointwise interpolation between two control polygons of one length. */
  function Blend(t: real, p: seq<Point>, q: seq<Point>): (r: seq<Point>)
    requires |p| == |q|
    ensures |r| == |p|
  {
    seq(|p|, i requires 0 <= i < |p| => Lerp(t, p[i], q[i]))
  }

  lemma LerpReverseScalar(t: real, u: real, a: real, b: real)
    requires t + u == 1.0
    ensures LerpR(t, a, b) == LerpR(u, b, a)
  {
  }

  /** Interpolating from `a` to `b` by `t` is interpolating from `b` to `a` by `1 - t`. */
  lemma LerpReverse(t: real, u: real, a: Point, b: Point)
    requires t + u == 1.0
    ensures Lerp(t, a, b) == Lerp(u, b, a)
  {
    LerpReverseScalar(t, u, a.x, b.x);
    LerpReverseScalar(t, u, a.y, b.y);
  }

  lemma LerpCommutesScalar(v: real, t: real, a: real, b: real, c: real, d: real)
    ensures LerpR(v, LerpR(t, a, c), LerpR(t, b, d)) == LerpR(t, LerpR(v, a, b), LerpR(v, c, d))
  {
  }

  /** Interpolation is bilinear: the two interpolation orders agree. */
  lemma LerpCommutes(v: real, t: real, a: Point, b: Point, c: Point, d: Point)
    ensures Lerp(v, Lerp(t, a, c), Lerp(t, b, d)) == Lerp(t, Lerp(v, a, b), Lerp(v, c, d))
  {
    LerpCommutesScalar(v, t, a.x, b.x, c.x, d.x);
    LerpCommutesScalar(v, t, a.y, b.y, c.y, d.y);
  }

  lemma LerpNestedScalar(s: real, t: real, a: real, b: real)
    ensures LerpR(s, a, LerpR(t, a, b)) == LerpR(s * t, a, b)
  {
  }

  /** Going a fraction `s` of the way towards the point a fraction `t` of the
      way to `b` is going a fraction `s t` of the way to `b`. */
  lemma LerpNested(s: real, t: real, a: Point, b: Point)
    ensures Lerp(s, a, Lerp(t, a, b)) == Lerp(s * t, a, b)
  {
    LerpNestedScalar(s, t, a.x, b.x);
    LerpNestedScalar(s, t, a.y, b.y);
  }

  /** A de Casteljau pass of a reversed polygon at `1 - t` is the reversed pass at `t`. */
  lemma StepReverse(t: real, u: real, pts: seq<Point>)
    requires |pts| >= 1 && t + u == 1.0
    ensures Step(u, Reverse(pts)) == Reverse(Step(t, pts))
  {
    var n := |pts|;
    forall i | 0 <= i < n - 1
      ensures Step(u, Reverse(pts))[i] == Reverse(Step(t, pts))[i]
    {
      LerpReverse(t, u, pts[n - 2 - i], pts[n - 1 - i]);
    }
  }

  /** A curve traversed backwards: the reversed polygon at `1 - t` is the
      point of the curve at `t`. */
  lemma {:induction false} CollapseReverse(t: real, u: real, pts: seq<Point>)
    requires |pts| >= 1 && t + u == 1.0
    ensures Collapse(u, Reverse(pts)) == Collapse(t, pts)
    decreases |pts|
  {
    if |pts| > 1 {
      StepReverse(t, u, pts);
      CollapseReverse(t, u, Step(t, pts));
    }
  }

  /** The triangle of the reversed polygon at `1 - t` holds the rows of the
      triangle at `t`, each read backwards. */
  lemma {:induction false} RowsReverse(t: real, u: real, pts: seq<Point>)
    requires |pts| >= 1 && t + u == 1.0
    ensures forall k :: 0 <= k < |pts| ==> Rows(u, Reverse(pts))[k] == Reverse(Rows(t, pts)[k])
    decreases |pts|
  {
    if |pts| > 1 {
      var s := Step(t, pts);
      StepReverse(t, u, pts);
      RowsReverse(t, u, s);
      forall k | 0 < k < |pts|
        ensures Rows(u, Reverse(pts))[k] == Reverse(Rows(t, pts)[k])
      {
        assert Rows(u, Reverse(pts))[k] == Rows(u, Reverse(s))[k - 1];
        assert Rows(t, pts)[k] == Rows(t, s)[k - 1];
      }
    }
  }

  /** The right side of the triangle at `t` is the left side of the reversed
      polygon's triangle at `1 - t`, read backwards. */
  lemma RightSideIsReversedLeft(t: real, u: real, pts: seq<Point>)
    requires |pts| >= 1 && t + u == 1.0
    ensures RightSide(Rows(t, pts)) == Reverse(LeftSide(Rows(u, Reverse(pts))))
  {
    RowsReverse(t, u, pts);
  }

  /** A de Casteljau pass of a blend is the blend of the passes. */
  lemma StepBlend(v: real, t: real, p: seq<Point>, q: seq<Point>)
    requires |p| == |q| >= 1
    ensures Step(v, Blend(t, p, q)) == Blend(t, Step(v, p), Step(v, q))
  {
    forall i | 0 <= i < |p| - 1
      ensures Step(v, Blend(t, p, q))[i] == Blend(t, Step(v, p), Step(v, q))[i]
    {
      LerpCommutes(v, t, p[i], p[i + 1], q[i], q[i + 1]);
    }
  }

  /** The curve is affine in its control points: the curve of a blend of two
      polygons is the blend of their curves. */
  lemma {:induction false} CollapseBlend(v: real, t: real, p: seq<Point>, q: seq<Point>)
    requires |p| == |q| >= 1
    ensures Collapse(v, Blend(t, p, q)) == Lerp(t, Collapse(v, p), Collapse(v, q))
    decreases |p|
  {
    if |p| > 1 {
      StepBlend(v, t, p, q);
      CollapseBlend(v, t, Step(v, p), Step(v, q));
    }
  }

  /** The triangle of a prefix of the polygon is the matching corner of the
      triangle of the whole polygon. */
  lemma {:induction false} RowsPrefix(t: real, pts: seq<Point>, m: nat, k: nat)
    requires 1 <= m <= |pts| && k < m
    ensures Rows(t, pts[..m])[k] == Rows(t, pts)[k][..m - k]
    decreases k
  {
    if k > 0 {
      var s := Step(t, pts);
      assert Step(t, pts[..m]) == s[..m - 1];
      RowsPrefix(t, s, m - 1, k - 1);
      assert Rows(t, pts[..m])[k] == Rows(t, s[..m - 1])[k - 1];
      assert Rows(t, pts)[k] == Rows(t, s)[k - 1];
    }
  }

  /** Past its first corner point, the left side of a triangle is the left
      side of the triangle of the next pass. */
  lemma LeftSideTail(t: real, pts: seq<Point>)
    requires |pts| >= 2
    ensures LeftSide(Rows(t, pts))[1..] == LeftSide(Rows(t, Step(t, pts)))
  {
    var q := LeftSide(Rows(t, pts));
    var r := LeftSide(Rows(t, Step(t, pts)));
    forall k | 0 <= k < |r|
      ensures q[k + 1] == r[k]
    {
      assert Rows(t, pts)[k + 1] == Rows(t, Step(t, pts))[k];
    }
  }

  /** Without its last point, the left side of a triangle is the left side of
      the triangle of the first `n - 1` control points. */
  lemma LeftSidePrefix(t: real, pts: seq<Point>)
    requires |pts| >= 2
    ensures LeftSide(Rows(t, pts))[..|pts| - 1] == LeftSide(Rows(t, pts[..|pts| - 1]))
  {
    var n := |pts|;
    var q := LeftSide(Rows(t, pts));
    var r := LeftSide(Rows(t, pts[..n - 1]));
    forall k | 0 <= k < n - 1
      ensures q[k] == r[k]
    {
      RowsPrefix(t, pts, n - 1, k);
    }
  }

  /** One pass at `t` blends the polygon without its last point with the
      polygon without its first point, so the curve of the pass is the
      interpolation between those two curves. */
  lemma CollapseOfStep(v: real, t: real, pts: seq<Point>)
    requires |pts| >= 2
    ensures Collapse(v, Step(t, pts)) == Lerp(t, Collapse(v, pts[..|pts| - 1]), Collapse(v, pts[1..]))
  {
    var n := |pts|;
    assert Step(t, pts) == Blend(t, pts[..n - 1], pts[1..]);
    CollapseBlend(v, t, pts[..n - 1], pts[1..]);
  }

  /** Subdivision, left piece: the control polygon on the left side of the
      triangle at `t` traces, at `s`, the point of the whole curve at `s t`. */
  lemma {:induction false} LeftSubdivides(t: real, s: real, pts: seq<Point>)
    requires |pts| >= 1
    ensures Collapse(s, LeftSide(Rows(t, pts))) == Collapse(s * t, pts)
    decreases |pts|
  {
    var n := |pts|;
    var q := LeftSide(Rows(t, pts));
    if n == 1 {
      assert q == [pts[0]];
    } else {
      var a := Collapse(s * t, pts[..n - 1]);
      var b := Collapse(s * t, pts[1..]);
      CollapseRecurrence(s, q);
      LeftSideTail(t, pts);
      LeftSidePrefix(t, pts);
      LeftSubdivides(t, s, pts[..n - 1]);
      LeftSubdivides(t, s, Step(t, pts));
      CollapseOfStep(s * t, t, pts);
      CollapseRecurrence(s * t, pts);
      LerpNested(s, t, a, b);
    }
  }

  /** Subdivision, right piece: the control polygon on the right side of the
      triangle at `t`, read from the apex, traces at `s` the point of the whole
      curve at `t + s (1 - t)`. */
  lemma RightSubdivides(t: real, s: real, pts: seq<Point>)
    requires |pts| >= 1
    ensures Collapse(s, RightSide(Rows(t, pts))) == Collapse(t + s * (1.0 - t), pts)
  {
    var u := 1.0 - t;
    var v := 1.0 - s;
    var rp := Reverse(pts);
    var left := LeftSide(Rows(u, rp));
    RightSideIsReversedLeft(t, u, pts);
    CollapseReverse(v, s, left);
    LeftSubdivides(u, v, rp);
    assert Collapse(v, left) == Collapse(v * u, rp);
    assert (t + s * (1.0 - t)) + v * u == 1.0;
    CollapseReverse(t + s * (1.0 - t), v * u, pts);
  }
}
