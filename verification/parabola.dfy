/** Bounds on one coordinate of a line or a quadratic Bezier curve over [0,1],
    in exact arithmetic: convex combinations, and the parabola written around
    its chord, its vertex and its two ends. */
module Parabola {
  import opened Evaluate

  lemma MulNonNegative(x: real, y: real)
    requires x >= 0.0 && y >= 0.0
    ensures x * y >= 0.0
  {
  }

  /** A convex combination of two values at least `lo` is at least `lo`. */
  lemma ConvexLower(t: real, u: real, v: real, lo: real)
    requires 0.0 <= t <= 1.0
    requires lo <= u && lo <= v
    ensures lo <= (1.0 - t) * u + t * v
  {
    var d := v - u;
    assert (1.0 - t) * u + t * v == u + t * d;
    if d >= 0.0 {
      MulNonNegative(t, d);
    } else {
      MulNonNegative(1.0 - t, -d);
      assert u + t * d == v + (1.0 - t) * -d;
    }
  }

  /** A convex combination of two values between `lo` and `hi` stays between them. */
  lemma ConvexBetween(t: real, u: real, v: real, lo: real, hi: real)
    requires 0.0 <= t <= 1.0
    requires lo <= u <= hi && lo <= v <= hi
    ensures lo <= (1.0 - t) * u + t * v <= hi
  {
    ConvexLower(t, u, v, lo);
    ConvexLower(t, -u, -v, -hi);
    assert (1.0 - t) * -u + t * -v == -((1.0 - t) * u + t * v);
  }

  /** A square is never negative. */
  lemma Square(x: real)
    ensures x * x >= 0.0
  {
    if x < 0.0 {
      MulNonNegative(-x, -x);
    } else {
      MulNonNegative(x, x);
    }
  }

  // The quadratic case, one coordinate at a time.  With `k = a - 2b + c`
  // the curve is its chord minus `k t (1 - t)`, and when `k != 0` it is a
  // parabola whose vertex sits at `s = (a - b) / k`, the zero of the
  // derivative `2 (b - a) (1 - t) + 2 (c - b) t`.

  /** A line whose two values agree is constant. */
  lemma FlatLine(t: real, p: real)
    ensures Bernstein1(t, p, p) == p
  {
  }

  /** A quadratic whose three values agree is constant. */
  lemma FlatQuadratic(t: real, p: real)
    ensures Bernstein2(t, p, p, p) == p
  {
    var mt := 1.0 - t;
    assert Bernstein2(t, p, p, p) == (mt * mt + mt * t * 2.0 + t * t) * p;
    assert mt * mt + mt * t * 2.0 + t * t == (mt + t) * (mt + t);
  }

  lemma ChordForm(t: real, a: real, b: real, c: real)
    ensures Bernstein2(t, a, b, c) == (1.0 - t) * a + t * c - (a - 2.0 * b + c) * (t * (1.0 - t))
  {
  }

  lemma VertexForm(t: real, s: real, a: real, b: real, c: real)
    requires s * (a - 2.0 * b + c) == a - b
    ensures Bernstein2(t, a, b, c) == Bernstein2(s, a, b, c) + (a - 2.0 * b + c) * ((t - s) * (t - s))
  {
    var k := a - 2.0 * b + c;
    assert Bernstein2(t, a, b, c) == a + 2.0 * (b - a) * t + k * (t * t);
    assert Bernstein2(s, a, b, c) == a + 2.0 * (b - a) * s + k * (s * s);
    assert 2.0 * (b - a) * t == -2.0 * (s * k) * t;
    assert 2.0 * (b - a) * s == -2.0 * (s * k) * s;
  }

  /** The vertex is where the derivative vanishes. */
  lemma VertexIsStationary(s: real, a: real, b: real, c: real)
    requires s * (a - 2.0 * b + c) == a - b
    ensures Bernstein1(s, 2.0 * (b - a), 2.0 * (c - b)) == 0.0
  {
    assert Bernstein1(s, 2.0 * (b - a), 2.0 * (c - b)) == 2.0 * (b - a) + 2.0 * (s * (a - 2.0 * b + c));
  }

  /** Seen from its first end, the curve rises by `t k (t - 2 s)`. */
  lemma FromStart(t: real, s: real, a: real, b: real, c: real)
    requires s * (a - 2.0 * b + c) == a - b
    ensures Bernstein2(t, a, b, c) - a == t * ((a - 2.0 * b + c) * (t - 2.0 * s))
  {
    var k := a - 2.0 * b + c;
    assert Bernstein2(t, a, b, c) - a == t * (2.0 * (b - a) + k * t);
    assert 2.0 * (b - a) == -2.0 * (s * k);
  }

  /** Seen from its last end, the curve rises by `(1 - t) k (2 s - 1 - t)`. */
  lemma FromEnd(t: real, s: real, a: real, b: real, c: real)
    requires s * (a - 2.0 * b + c) == a - b
    ensures Bernstein2(t, a, b, c) - c == (1.0 - t) * ((a - 2.0 * b + c) * (2.0 * s - 1.0 - t))
  {
    var k := a - 2.0 * b + c;
    var m := 1.0 - t;
    assert Bernstein2(t, a, b, c) - c == m * (2.0 * (b - c) + k * m);
    assert c - b == k - s * k;
  }

  /** An upward parabola (`k > 0`) on [0,1] stays below its chord. */
  lemma BelowChord(t: real, a: real, b: real, c: real, hi: real)
    requires 0.0 <= t <= 1.0 && a - 2.0 * b + c > 0.0
    requires a <= hi && c <= hi
    ensures Bernstein2(t, a, b, c) <= hi
  {
    ChordForm(t, a, b, c);
    ConvexBetween(t, a, c, if a < c then a else c, hi);
    MulNonNegative(t, 1.0 - t);
    MulNonNegative(a - 2.0 * b + c, t * (1.0 - t));
  }

  /** An upward parabola whose vertex lies left of 0 climbs from its first end. */
  lemma AboveStart(t: real, s: real, a: real, b: real, c: real)
    requires 0.0 <= t && s < 0.0 && a - 2.0 * b + c > 0.0
    requires s * (a - 2.0 * b + c) == a - b
    ensures Bernstein2(t, a, b, c) >= a
  {
    var k := a - 2.0 * b + c;
    FromStart(t, s, a, b, c);
    MulNonNegative(k, t - 2.0 * s);
    MulNonNegative(t, k * (t - 2.0 * s));
  }

  /** An upward parabola whose vertex lies right of 1 climbs from its last end. */
  lemma AboveEnd(t: real, s: real, a: real, b: real, c: real)
    requires t <= 1.0 && s > 1.0 && a - 2.0 * b + c > 0.0
    requires s * (a - 2.0 * b + c) == a - b
    ensures Bernstein2(t, a, b, c) >= c
  {
    var k := a - 2.0 * b + c;
    FromEnd(t, s, a, b, c);
    MulNonNegative(k, 2.0 * s - 1.0 - t);
    MulNonNegative(1.0 - t, k * (2.0 * s - 1.0 - t));
  }

  /** An upward parabola is lowest at its vertex. */
  lemma AboveVertex(t: real, s: real, a: real, b: real, c: real)
    requires a - 2.0 * b + c > 0.0
    requires s * (a - 2.0 * b + c) == a - b
    ensures Bernstein2(t, a, b, c) >= Bernstein2(s, a, b, c)
  {
    VertexForm(t, s, a, b, c);
    Square(t - s);
    MulNonNegative(a - 2.0 * b + c, (t - s) * (t - s));
  }

  /** The vertex parameter solves `s k = a - b`. */
  lemma VertexParameter(a: real, b: real, c: real)
    requires a - 2.0 * b + c != 0.0
    ensures (a - b) / (a - 2.0 * b + c) * (a - 2.0 * b + c) == a - b
  {
  }

  /** One side of the bound, for an upward parabola (`k > 0`): the curve stays
      below its chord, and above the lower of its vertex (when the vertex lies
      in [0,1]) and its end values. */
  lemma UpwardBounded(t: real, a: real, b: real, c: real, lo: real, hi: real)
    requires 0.0 <= t <= 1.0 && a - 2.0 * b + c > 0.0
    requires lo <= a <= hi && lo <= c <= hi
    requires var s := (a - b) / (a - 2.0 * b + c);
             0.0 <= s <= 1.0 ==> lo <= Bernstein2(s, a, b, c) <= hi
    ensures lo <= Bernstein2(t, a, b, c) <= hi
  {
    var s := (a - b) / (a - 2.0 * b + c);
    VertexParameter(a, b, c);
    BelowChord(t, a, b, c, hi);
    if s < 0.0 {
      AboveStart(t, s, a, b, c);
    } else if s > 1.0 {
      AboveEnd(t, s, a, b, c);
    } else {
      AboveVertex(t, s, a, b, c);
    }
  }

  /** Bernstein weights flip with the polygon: the quadratic on `-a, -b, -c`
      is the negated quadratic. */
  lemma NegatedQuadratic(t: real, a: real, b: real, c: real)
    ensures Bernstein2(t, -a, -b, -c) == -Bernstein2(t, a, b, c)
  {
  }

  /** A quadratic Bezier coordinate on [0,1] stays between any bounds that hold
      its two end values and, when the vertex lies in [0,1], its vertex value. */
  lemma QuadraticBounded(t: real, a: real, b: real, c: real, lo: real, hi: real)
    requires 0.0 <= t <= 1.0
    requires lo <= a <= hi && lo <= c <= hi
    requires var k := a - 2.0 * b + c;
             k != 0.0 && 0.0 <= (a - b) / k <= 1.0 ==> lo <= Bernstein2((a - b) / k, a, b, c) <= hi
    ensures lo <= Bernstein2(t, a, b, c) <= hi
  {
    var k := a - 2.0 * b + c;
    if k > 0.0 {
      UpwardBounded(t, a, b, c, lo, hi);
    } else if k < 0.0 {
      var s := (a - b) / k;
      assert (-a - -b) / (-a - 2.0 * -b + -c) == s;
      NegatedQuadratic(s, a, b, c);
      NegatedQuadratic(t, a, b, c);
      UpwardBounded(t, -a, -b, -c, -hi, -lo);
    } else {
      ChordForm(t, a, b, c);
      ConvexBetween(t, a, c, lo, hi);
    }
  }
}
