/** The exact pieces of the root finders: the branches of `utils.droots` that
    need no square root, and the line-line intersection `utils.lli8`/`lli4`. */
module Roots {
  import opened Wrappers
  import opened Points
  import opened Evaluate

  /** `utils.droots` on the coefficients of a derivative polygon (2 or 3
      values).  The branch for a genuine quadratic (`a - 2b + c != 0`) takes a
      square root and is outside this model: it yields `None`. */
  function DRoots(p: seq<real>): (r: Option<seq<real>>)
    ensures r.None? <==> |p| == 3 && p[0] - 2.0 * p[1] + p[2] != 0.0
    ensures |p| != 2 && |p| != 3 ==> r == Some([])
  {
    if |p| == 3 then
      var a, b, c := p[0], p[1], p[2];
      var d := a - 2.0 * b + c;
      if d != 0.0 then None
      else if b != c then Some([(2.0 * b - c) / (2.0 * (b - c))])
      else Some([])
    else if |p| == 2 then
      var a, b := p[0], p[1];
      if a != b then Some([a / (a - b)]) else Some([])
    else Some([])
  }

  /** On two values the roots are exactly the zeros of the line through them:
      one root when the values differ, none when they are equal. */
  lemma LinearRoots(a: real, b: real, t: real)
    ensures DRoots([a, b]).Some?
    ensures a != b ==> (t in DRoots([a, b]).value <==> Bernstein1(t, a, b) == 0.0)
    ensures a == b ==> DRoots([a, b]).value == []
  {
    if a != b {
      var r := a / (a - b);
      assert r * (a - b) == a;
      assert Bernstein1(r, a, b) == a - r * (a - b);
      if Bernstein1(t, a, b) == 0.0 {
        assert t * (a - b) == a;
        assert (t - r) * (a - b) == 0.0;
        assert t == r;
      }
      assert DRoots([a, b]).value == [r];
    }
  }

  /** On three values whose quadratic term vanishes, the roots are exactly the
      zeros of the (then linear) Bernstein polynomial, unless it is constant. */
  lemma DegenerateQuadraticRoots(a: real, b: real, c: real, t: real)
    requires a - 2.0 * b + c == 0.0
    ensures DRoots([a, b, c]).Some?
    ensures b != c ==> (t in DRoots([a, b, c]).value <==> Bernstein2(t, a, b, c) == 0.0)
    ensures b == c ==> a == b && DRoots([a, b, c]).value == []
  {
    if b != c {
      var r := (2.0 * b - c) / (2.0 * (b - c));
      assert r * (2.0 * (b - c)) == 2.0 * b - c;
      assert Bernstein2(t, a, b, c) == a + 2.0 * (b - a) * t by {
        assert c == 2.0 * b - a;
      }
      assert Bernstein2(r, a, b, c) == a + 2.0 * (b - a) * r by {
        assert c == 2.0 * b - a;
      }
      if Bernstein2(t, a, b, c) == 0.0 {
        assert (t - r) * (2.0 * (b - c)) == 0.0;
        assert t == r;
      }
      assert DRoots([a, b, c]).value == [r];
    }
  }

  /** `utils.lli8`: the intersection of the line through `(x1,y1),(x2,y2)` with
      the line through `(x3,y3),(x4,y4)`; absent exactly when the determinant
      of the two directions is zero (parallel or degenerate lines). */
  function LineIntersection(x1: real, y1: real, x2: real, y2: real,
                            x3: real, y3: real, x4: real, y4: real): (r: Option<Point>)
    ensures r.None? <==> (x1 - x2) * (y3 - y4) - (y1 - y2) * (x3 - x4) == 0.0
    ensures r.Some? ==> (x2 - x1) * (r.value.y - y1) == (y2 - y1) * (r.value.x - x1)
    ensures r.Some? ==> (x4 - x3) * (r.value.y - y3) == (y4 - y3) * (r.value.x - x3)
  {
    var nx := (x1 * y2 - y1 * x2) * (x3 - x4) - (x1 - x2) * (x3 * y4 - y3 * x4);
    var ny := (x1 * y2 - y1 * x2) * (y3 - y4) - (y1 - y2) * (x3 * y4 - y3 * x4);
    var d := (x1 - x2) * (y3 - y4) - (y1 - y2) * (x3 - x4);
    if d == 0.0 then None
    else
      CrossingOnBothLines(x1, y1, x2, y2, x3, y3, x4, y4, nx, ny, d);
      Some(Point(nx / d, ny / d))
  }

  lemma CrossingOnBothLines(x1: real, y1: real, x2: real, y2: real,
                            x3: real, y3: real, x4: real, y4: real,
                            nx: real, ny: real, d: real)
    requires nx == (x1 * y2 - y1 * x2) * (x3 - x4) - (x1 - x2) * (x3 * y4 - y3 * x4)
    requires ny == (x1 * y2 - y1 * x2) * (y3 - y4) - (y1 - y2) * (x3 * y4 - y3 * x4)
    requires d == (x1 - x2) * (y3 - y4) - (y1 - y2) * (x3 - x4) && d != 0.0
    ensures (x2 - x1) * (ny / d - y1) == (y2 - y1) * (nx / d - x1)
    ensures (x4 - x3) * (ny / d - y3) == (y4 - y3) * (nx / d - x3)
  {
    var px, py := nx / d, ny / d;
    assert px * d == nx && py * d == ny;
    assert (x2 - x1) * (ny - y1 * d) == (y2 - y1) * (nx - x1 * d);
    assert (x4 - x3) * (ny - y3 * d) == (y4 - y3) * (nx - x3 * d);
    assert ((x2 - x1) * (py - y1) - (y2 - y1) * (px - x1)) * d == 0.0;
    assert ((x4 - x3) * (py - y3) - (y4 - y3) * (px - x3)) * d == 0.0;
  }

  /** `utils.lli4`: the same intersection, taking the four points. */
  function LineIntersection4(p1: Point, p2: Point, p3: Point, p4: Point): (r: Option<Point>)
    ensures r.None? <==> Cross(Sub(p1, p2), Sub(p3, p4)) == 0.0
    ensures r.Some? ==> OnLine(r.value, p1, p2) && OnLine(r.value, p3, p4)
  {
    LineIntersection(p1.x, p1.y, p2.x, p2.y, p3.x, p3.y, p4.x, p4.y)
  }

  function Cross(u: Point, v: Point): real
  {
    u.x * v.y - u.y * v.x
  }

  /** `q` lies on the line through `a` and `b` (anywhere, if `a == b`). */
  predicate OnLine(q: Point, a: Point, b: Point)
  {
    Cross(Sub(b, a), Sub(q, a)) == 0.0
  }

  /** The reported crossing is the only point the two lines share. */
  lemma IntersectionUnique(p1: Point, p2: Point, p3: Point, p4: Point, q: Point)
    requires LineIntersection4(p1, p2, p3, p4).Some?
    requires OnLine(q, p1, p2) && OnLine(q, p3, p4)
    ensures q == LineIntersection4(p1, p2, p3, p4).value
  {
    var r := LineIntersection4(p1, p2, p3, p4).value;
    var u, v := Sub(p2, p1), Sub(p4, p3);
    var w := Sub(q, r);
    assert Cross(u, w) == 0.0;
    assert Cross(v, w) == 0.0;
    var det := Cross(u, v);
    assert det != 0.0;
    assert w.x * det == 0.0 by {
      assert w.x * det == u.x * (v.y * w.x - v.x * w.y) - v.x * (u.y * w.x - u.x * w.y);
    }
    assert w.y * det == 0.0 by {
      assert w.y * det == u.y * (v.y * w.x - v.x * w.y) - v.y * (u.y * w.x - u.x * w.y);
    }
  }
}
