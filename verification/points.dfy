/** Points of the plane and the two linear helpers of the curve utilities:
    `lerp` (interpolation between two points) and `map` (affine remapping of
    a parameter from one interval onto another). */
module Points {
  import opened Wrappers

  /** A planar point with exact real coordinates. */
  datatype Point = Point(x: real, y: real)

  /** The two axes a curve is measured along. */
  datatype Axis = X | Y

  function Coord(p: Point, a: Axis): real
  {
    match a
    case X => p.x
    case Y => p.y
  }

  function Sub(a: Point, b: Point): Point
  {
    Point(a.x - b.x, a.y - b.y)
  }

  function Scale(k: real, p: Point): Point
  {
    Point(k * p.x, k * p.y)
  }

  /** Scalar linear interpolation `a + r * (b - a)`. */
  function LerpR(r: real, a: real, b: real): real
  {
    a + r * (b - a)
  }

  /** `utils.lerp` in the plane: the point a fraction `r` of the way from `v1` to `v2`. */
  function Lerp(r: real, v1: Point, v2: Point): Point
  {
    Point(LerpR(r, v1.x, v2.x), LerpR(r, v1.y, v2.y))
  }

  /** `lerp` keeps its end points at `r = 0` and `r = 1`, weighs them by
      `1 - r` and `r`, and stays on the line through them. */
  lemma LerpProperties(r: real, v1: Point, v2: Point)
    ensures r == 0.0 ==> Lerp(r, v1, v2) == v1
    ensures r == 1.0 ==> Lerp(r, v1, v2) == v2
    ensures Lerp(r, v1, v2).x == (1.0 - r) * v1.x + r * v2.x
    ensures Lerp(r, v1, v2).y == (1.0 - r) * v1.y + r * v2.y
    ensures (v2.x - v1.x) * (Lerp(r, v1, v2).y - v1.y) == (v2.y - v1.y) * (Lerp(r, v1, v2).x - v1.x)
  {
    var p := Lerp(r, v1, v2);
    assert p.y - v1.y == r * (v2.y - v1.y);
    assert p.x - v1.x == r * (v2.x - v1.x);
  }

  /** `utils.map`: sends `v` from the interval `[ds, de]` onto `[ts, te]` by the
      affine map fixing the endpoints.  A degenerate source interval makes the
      division by zero yield a non-finite number, modelled as `None`. */
  function Map(v: real, ds: real, de: real, ts: real, te: real): (r: Option<real>)
    ensures r.None? <==> ds == de
    ensures r.Some? && v == ds ==> r.value == ts
    ensures r.Some? && v == de ==> r.value == te
    ensures r.Some? ==> (r.value - ts) * (de - ds) == (te - ts) * (v - ds)
  {
    if de - ds == 0.0 then None
    else Some(ts + (te - ts) * ((v - ds) / (de - ds)))
  }

  /** Mapping onto a non-degenerate interval and back returns the original parameter. */
  lemma MapRoundTrip(v: real, ds: real, de: real, ts: real, te: real)
    requires ds != de && ts != te
    ensures Map(Map(v, ds, de, ts, te).value, ts, te, ds, de) == Some(v)
  {
    var r := (v - ds) / (de - ds);
    var w := Map(v, ds, de, ts, te).value;
    assert w == ts + (te - ts) * r;
    assert (w - ts) / (te - ts) == r;
    assert (de - ds) * r == v - ds;
    var u := Map(w, ts, te, ds, de).value;
    assert u == ds + (de - ds) * ((w - ts) / (te - ts));
    assert u == ds + (de - ds) * r;
  }

  /** Each coordinate of `lerp` is `map` of the fraction from the unit interval
      onto the interval spanned by that coordinate. */
  lemma LerpIsMap(r: real, v1: Point, v2: Point)
    ensures Map(r, 0.0, 1.0, v1.x, v2.x) == Some(Lerp(r, v1, v2).x)
    ensures Map(r, 0.0, 1.0, v1.y, v2.y) == Some(Lerp(r, v1, v2).y)
  {
    LerpProperties(r, v1, v2);
    assert (r - 0.0) / (1.0 - 0.0) == r;
    var mx := Map(r, 0.0, 1.0, v1.x, v2.x);
    assert mx.Some? && mx.value == v1.x + (v2.x - v1.x) * r;
    assert mx == Some(mx.value);
    var my := Map(r, 0.0, 1.0, v1.y, v2.y);
    assert my.Some? && my.value == v1.y + (v2.y - v1.y) * r;
    assert my == Some(my.value);
  }
}
