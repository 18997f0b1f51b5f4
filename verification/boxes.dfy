/** Axis-aligned bounding boxes: the per-axis extent of a curve
    (`utils.getminmax`), the overlap test (`utils.bboxoverlap`) and the union
    (`utils.expandbox`). */
module Boxes {
  import opened Points
  import opened Evaluate

  /** The bounds `getminmax` starts from: the largest and smallest safe
      integers of a double (`Number.MAX_SAFE_INTEGER` and its negation). */
  const SafeMax: real := 9007199254740991.0
  const SafeMin: real := -9007199254740991.0

  /** The extent of a box along one axis. */
  datatype Extent = Extent(min: real, mid: real, max: real, size: real)

  /** A planar bounding box. */
  datatype BBox = BBox(x: Extent, y: Extent)

  /** `mid` and `size` are the ones `min` and `max` determine, and `min <= max`. */
  predicate Consistent(e: Extent)
  {
    e.min <= e.max && e.mid == (e.min + e.max) / 2.0 && e.size == e.max - e.min
  }

  predicate BoxConsistent(b: BBox)
  {
    Consistent(b.x) && Consistent(b.y)
  }

  function ExtentOf(b: BBox, a: Axis): Extent
  {
    match a
    case X => b.x
    case Y => b.y
  }

  /** The parameters `getminmax` evaluates the curve at: the given list with 0
      put in front when absent and 1 appended when absent. */
  function WithEnds(list: seq<real>): (ts: seq<real>)
    ensures 0.0 in ts && 1.0 in ts
    ensures forall t :: t in ts <==> t in list || t == 0.0 || t == 1.0
  {
    var withZero := if 0.0 in list then list else [0.0] + list;
    if 1.0 in withZero then withZero else withZero + [1.0]
  }

  /** The running minimum and maximum of the `a` coordinate of the curve at
      the parameters `ts`, starting from `lo` and `hi`. */
  function Scan(pts: seq<Point>, a: Axis, ts: seq<real>, lo: real, hi: real): (r: (real, real))
    requires |pts| >= 1
    ensures r.0 <= lo && r.1 >= hi
    ensures forall t :: t in ts ==> r.0 <= Coord(Compute(t, pts), a) <= r.1
    ensures r.0 == lo || exists t :: t in ts && r.0 == Coord(Compute(t, pts), a)
    ensures r.1 == hi || exists t :: t in ts && r.1 == Coord(Compute(t, pts), a)
    decreases |ts|
  {
    if |ts| == 0 then (lo, hi)
    else
      var c := Coord(Compute(ts[0], pts), a);
      var rest := Scan(pts, a, ts[1..], if c < lo then c else lo, if c > hi then c else hi);
      assert forall t :: t in ts[1..] ==> t in ts;
      assert ts == [ts[0]] + ts[1..];
      rest
  }

  /** `utils.getminmax(curve, d, list)`: the extent along axis `a` of the
      curve sampled at its two ends and at the parameters `list`. */
  function GetMinMax(pts: seq<Point>, a: Axis, list: seq<real>): (e: Extent)
    requires |pts| >= 1
    ensures Consistent(e)
    ensures e.min <= Coord(pts[0], a) <= e.max
    ensures e.min <= Coord(pts[|pts| - 1], a) <= e.max
    ensures forall t :: t in list ==> e.min <= Coord(Compute(t, pts), a) <= e.max
    ensures e.min <= SafeMax && e.max >= SafeMin
    ensures e.min == SafeMax || exists t :: t in WithEnds(list) && e.min == Coord(Compute(t, pts), a)
    ensures e.max == SafeMin || exists t :: t in WithEnds(list) && e.max == Coord(Compute(t, pts), a)
  {
    var ts := WithEnds(list);
    var r := Scan(pts, a, ts, SafeMax, SafeMin);
    assert Compute(0.0, pts) == pts[0];
    assert Compute(1.0, pts) == pts[|pts| - 1];
    Extent(r.0, (r.0 + r.1) / 2.0, r.1, r.1 - r.0)
  }

  /** `utils.bboxoverlap`: per axis, the distance between the midpoints is
      compared against half the summed sizes. */
  function Overlap(b1: BBox, b2: BBox): bool
  {
    && AxisOverlap(b1.x, b2.x)
    && AxisOverlap(b1.y, b2.y)
  }

  function Abs(v: real): real
  {
    if v < 0.0 then -v else v
  }

  function AxisOverlap(e1: Extent, e2: Extent): bool
  {
    Abs(e1.mid - e2.mid) < (e1.size + e2.size) / 2.0
  }

  /** For consistent extents the midpoint test is the open-interval overlap. */
  lemma AxisOverlapIsIntervalOverlap(e1: Extent, e2: Extent)
    requires Consistent(e1) && Consistent(e2)
    ensures AxisOverlap(e1, e2) <==> e1.min < e2.max && e2.min < e1.max
  {
  }

  /** Two consistent boxes overlap exactly when their open extents intersect
      on both axes. */
  lemma OverlapIsIntersection(b1: BBox, b2: BBox)
    requires BoxConsistent(b1) && BoxConsistent(b2)
    ensures Overlap(b1, b2) <==>
      && b1.x.min < b2.x.max && b2.x.min < b1.x.max
      && b1.y.min < b2.y.max && b2.y.min < b1.y.max
  {
    AxisOverlapIsIntervalOverlap(b1.x, b2.x);
    AxisOverlapIsIntervalOverlap(b1.y, b2.y);
  }

  function ExpandExtent(e: Extent, e2: Extent): (r: Extent)
  {
    var lo := if e2.min < e.min then e2.min else e.min;
    var hi := if e2.max > e.max then e2.max else e.max;
    Extent(lo, (lo + hi) / 2.0, hi, hi - lo)
  }

  /** `utils.expandbox(bbox, _bbox)`: per axis the smaller minimum and the
      larger maximum, with `mid` and `size` recomputed from them. */
  function Expand(b: BBox, b2: BBox): (r: BBox)
    ensures forall a :: ExtentOf(r, a).min == Min(ExtentOf(b, a).min, ExtentOf(b2, a).min)
    ensures forall a :: ExtentOf(r, a).max == Max(ExtentOf(b, a).max, ExtentOf(b2, a).max)
    ensures forall a :: ExtentOf(r, a).mid == (ExtentOf(r, a).min + ExtentOf(r, a).max) / 2.0
    ensures forall a :: ExtentOf(r, a).size == ExtentOf(r, a).max - ExtentOf(r, a).min
    ensures BoxConsistent(b) ==> BoxConsistent(r) && Contains(r, b)
    ensures BoxConsistent(b2) ==> BoxConsistent(r) && Contains(r, b2)
  {
    BBox(ExpandExtent(b.x, b2.x), ExpandExtent(b.y, b2.y))
  }

  function Min(a: real, b: real): real
  {
    if a <= b then a else b
  }

  function Max(a: real, b: real): real
  {
    if a >= b then a else b
  }

  /** Box `outer` covers box `inner` on both axes. */
  predicate Contains(outer: BBox, inner: BBox)
  {
    && outer.x.min <= inner.x.min && inner.x.max <= outer.x.max
    && outer.y.min <= inner.y.min && inner.y.max <= outer.y.max
  }

  /** The union does not depend on the order of its arguments. */
  lemma ExpandCommutes(b1: BBox, b2: BBox)
    ensures Expand(b1, b2) == Expand(b2, b1)
  {
  }

  /** The union is associative, so folding it over a list of boxes gives the
      same box however the list is grouped. */
  lemma ExpandAssociates(b1: BBox, b2: BBox, b3: BBox)
    ensures Expand(Expand(b1, b2), b3) == Expand(b1, Expand(b2, b3))
  {
  }

  /** A consistent box is unchanged by taking its union with itself. */
  lemma ExpandIdempotent(b: BBox)
    requires BoxConsistent(b)
    ensures Expand(b, b) == b
  {
  }

  /** The union is the least box containing both arguments. */
  lemma ExpandIsLeast(b1: BBox, b2: BBox, c: BBox)
    requires Contains(c, b1) && Contains(c, b2)
    ensures Contains(c, Expand(b1, b2))
  {
  }
}
