# Bezier core of `P.js`, modelled in Dafny

`P.js` bundles a port of a Bezier curve library: `utils` helpers, a `Bezier`
class and a `PolyBezier` class. This project models the exact-arithmetic part
of that library over Dafny's `real`, in two dimensions. The modelled parts are:

- curve evaluation (`utils.compute`): end points returned exactly, closed
  Bernstein forms for orders 1 to 3, de Casteljau collapse from order 4 on;
- the derivative hierarchy (`utils.derive`);
- the linear helpers `utils.map` and `utils.lerp`;
- line–line intersection (`utils.lli8`, `utils.lli4`);
- the linear cases of `utils.droots`;
- the curve constructor's argument checks and point grouping;
- degree elevation (`raise`);
- the de Casteljau triangle (`hull`);
- subdivision (`split`) and its provenance interval `[_t1, _t2]`;
- the extremum post-processing of `extrema` (filter to [0,1], sort, dedupe);
- boxes: `getminmax`, `bboxoverlap`, `expandbox` and `Bezier.bbox`;
- `PolyBezier`'s constructor, `addCurve` and `bbox`.

Each operation is paired with an independent reference:

- Evaluation is compared with the plain de Casteljau recursion `Evaluate.Collapse`.
- Subdivision is compared with evaluating the parent curve at the re-mapped parameter.
- Where the source's `split` and `bbox` go wrong, an as-written model sits beside the corrected one; see Findings.
- `map` is checked against its inverse.
- Box union is characterised as the least containing box.
- Curve boxes are checked against the curve points they must hold.

Modules, one per file:

| file | module | contents |
|---|---|---|
| wrappers.dfy | `Wrappers` | `Option`, `Result` |
| points.dfy | `Points` | points, `lerp`, `map` |
| evaluate.dfy | `Evaluate` | `compute`, de Casteljau, Bernstein forms |
| triangle.dfy | `Triangle` | the de Casteljau triangle and its two sides |
| subdivision.dfy | `Subdivision` | subdivision for every order |
| curves.dfy | `Curves` | constructor, `raise`, `hull`, `split` |
| derivatives.dfy | `Derivatives` | `derive` |
| roots.dfy | `Roots` | `droots` (linear cases), `lli8`, `lli4` |
| extrema.dfy | `CurveExtrema` | `extrema` |
| boxes.dfy | `Boxes` | `getminmax`, `bboxoverlap`, `expandbox` |
| parabola.dfy | `Parabola` | scalar bounds on quadratic Bernstein polynomials |
| bbox.dfy | `CurveBox` | `Bezier.bbox` and the corrected box |
| poly.dfy | `Poly` | `PolyBezier` |

The square-root branch of `droots` is a parameter, `CurveExtrema.Solver`. It is
a caller-supplied function from the three derivative coordinates to the roots
it reports. Every statement about extrema and boxes holds for every solver.

## Model

| member | source | states |
|---|---|---|
| Points.LerpProperties | P.js:1576-1585 | `lerp` returns the first point at 0 and the second at 1; each coordinate is `(1-r) a + r b`; the result is collinear with the two points |
| Points.Map | P.js:1568-1574 | `map` is undefined exactly when the source interval is empty; it sends the ends of the source interval to the ends of the target; the result divides the target in the same ratio as `v` divides the source |
| Points.MapRoundTrip | P.js:1568-1574 | mapping back from the target interval to the source recovers the original value |
| Points.LerpIsMap | P.js:1568-1585 | each coordinate of `lerp(r, a, b)` is `map(r, 0, 1, a, b)` |
| Evaluate.Compute | P.js:1387-1464 | `compute` returns exactly the first control point at `t = 0` and exactly the last at `t = 1`, for every order; a single point is returned as is |
| Evaluate.CollapseAtZero | P.js:1449-1463 | the de Casteljau collapse at 0 is the first control point |
| Evaluate.CollapseAtOne | P.js:1449-1463 | the de Casteljau collapse at 1 is the last control point |
| Evaluate.ClosedFormsAgree | P.js:1408-1447 | the closed Bernstein forms of orders 1, 2 and 3 give the de Casteljau point |
| Evaluate.ComputeIsCollapse | P.js:1387-1464 | `compute` equals the de Casteljau collapse at every `t` and for every order |
| Evaluate.ComputeIsClosedForm | P.js:1408-1447 | for orders 1 to 3 `compute` is the closed Bernstein form |
| Evaluate.CollapseInPlace | P.js:1449-1463 | the loop that interpolates neighbours in place until one point is left computes the de Casteljau point |
| Evaluate.CollapseRecurrence | P.js:1449-1463 | the curve point is the interpolation of the points of the two sub-polygons without the last and without the first control point |
| Triangle.Rows | P.js:2613-2631 | the triangle has one row per control point; row 0 is the control polygon; row `k` has `n - k` points |
| Triangle.RowsStep | P.js:2622-2629 | each row is one interpolation pass over the row before it |
| Triangle.ApexIsCollapse | P.js:2622-2629 | the apex of the triangle is the curve point at `t` |
| Triangle.RowsSize | P.js:2613-2631 | the flattened triangle holds `n (n + 1) / 2` points |
| Subdivision.CollapseReverse | P.js:1449-1463 | the reversed polygon at `1 - t` traces the same point as the polygon at `t` |
| Subdivision.RowsReverse | P.js:2622-2629 | the triangle of the reversed polygon at `1 - t` holds the rows of the triangle at `t`, each reversed |
| Subdivision.CollapseBlend | P.js:1449-1463 | the curve is affine in its control polygon |
| Subdivision.RowsPrefix | P.js:2622-2629 | the triangle of a prefix of the polygon is the matching corner of the whole triangle |
| Subdivision.LeftSubdivides | P.js:2644-2655 | for every order, the left side of the triangle at `t` traces, at `s`, the parent's point at `s t` |
| Subdivision.RightSubdivides | P.js:2644-2655 | for every order, the right side of the triangle at `t`, read from the apex, traces at `s` the parent's point at `t + s (1 - t)` |
| Curves.PairUp | P.js:2284-2293 | grouping a flat coordinate list into points loses nothing: flattening the points gives the list back |
| Curves.Construct | P.js:2239-2308 | the constructor rejects separate arguments whose coordinate count is not 6, 8, 9 or 12, and separate point arguments of more than four points; points are accepted exactly when there are at least two and either they come as one array or there are at most four; coordinates are accepted exactly when they come as one array or number 6, 8, 9 or 12, and are an even count of at least 4 other than 9 and 12 (planar); every accepted curve keeps its points (or coordinates) and spans `[0, 1]` |
| Curves.Raise | P.js:2525-2539 | degree elevation adds one control point, keeps both end points and resets the interval |
| Curves.RaisePreservesCurve | P.js:2525-2539 | for lines, quadratics and cubics the elevated curve is the same curve |
| Curves.HullAsWritten | P.js:2613-2631 | for quadratics and cubics `hull` is the flattened de Casteljau triangle; from order 4 on it is the first three control points followed by every interpolation pass, `3 + n (n - 1) / 2` points for `n` control points |
| Curves.LineHullAsWritten | P.js:2613-2631 | on a line `hull` has four entries: the two control points, a missing third one, and the line's point at `t`; nothing past entry 3 exists |
| Curves.MapIntoParentIsMap | P.js:2657-2660 | the re-mapped interval end is `map(v, 0, 1, _t1, _t2)` |
| Curves.SplitAsWritten | P.js:2636-2663 | the source's `split(t)` fails exactly on a line |
| Curves.SplitAsWrittenAgrees | P.js:2644-2656 | on quadratics and cubics the hull entries `split` reads are the triangle's two sides |
| Curves.Split | P.js:2644-2663 | both pieces have the parent's number of points; the left piece starts at the parent's first point; the right ends at its last; `left._t1 = _t1`, `left._t2 = right._t1 = map(t)` and `right._t2 = _t2` |
| Curves.SplitSubdivides | P.js:2644-2655 | the left piece traces the parent on `[0, t]`, the right one on `[t, 1]`; the left's last point and the right's first point are both `compute(t)` of the parent |
| Curves.SplitRange | P.js:2636-2667 | the corrected two-argument split, built on the corrected `split(t)` (first Finding): it fails, by dividing by zero, exactly when `t1 = 1` and `t2` is neither 0 nor 1; it gives one piece exactly when `t2` is given and non-zero, with the parent's number of points; without `t2` it is `split(t1)` |
| Curves.SplitRangeAsWritten | P.js:2636-2667 | the source's two-argument split: every call on a line fails; otherwise it fails exactly when `t1 = 1` and `t2` is neither 0 nor 1; it gives one piece exactly when `t2` is given and non-zero, of three points for a quadratic and four otherwise |
| Curves.SplitRangeAsWrittenAgrees | P.js:2636-2667 | on quadratics and cubics the source's two-argument split is the corrected one |
| Curves.MapOntoUnit | P.js:2666 | re-mapping `t2` from `[t1, 1]` onto `[0, 1]` is defined when `t1 != 1` and satisfies `u (1 - t1) = t2 - t1` |
| Curves.InnerPieceInterval | P.js:2657-2667 | the piece of the general case covers `[map(t1), map(t2)]` of the parent's interval |
| Curves.InnerPieceTraces | P.js:2662-2667 | the piece of the general case traces the parent from `t1` to `t2` |
| Curves.SplitRangePiece | P.js:2636-2667 | for the corrected two-argument split, in all three cases, the piece of `split(t1, t2)` covers `[map(t1), map(t2)]` and passes at `s` through the parent's point at `t1 + s (t2 - t1)` |
| Curves.SplitAsWrittenRightEnd | P.js:2613-2655 | on order 4 and up, the source's right piece has four points and ends at `lerp(t, p0, p1)`, not at the parent's last point |
| Curves.SplitAsWrittenBreaksQuartic | P.js:2613-2655 | for the straight quartic (0,0)…(4,0), the right piece of `split(0.5)` ends at (0.5, 0), not at (4, 0) |
| Derivatives.Derive | P.js:1523-1541 | `n + 1` points give `n` levels; level `i` has `n - i` points, each `(n - i)` times the difference of neighbours of the level before it |
| Derivatives.LineDerivative | P.js:1523-1541 | the first level of a line is its exact rate of change |
| Derivatives.QuadraticDerivative | P.js:1523-1541 | the levels of a quadratic are the linear and quadratic terms of its exact Taylor expansion |
| Derivatives.CubicDerivative | P.js:1523-1541 | along each axis, the two levels of a cubic are the linear and quadratic terms of its exact Taylor expansion |
| Derivatives.EndTangents | P.js:1523-1541 | the derivative curve at 0 is `n (p1 - p0)` and at 1 is `n (pn - pn-1)` |
| Roots.DRoots | P.js:1908-1936 | `droots` leaves only the quadratic square-root branch undecided; any length other than 2 or 3 gives no roots |
| Roots.LinearRoots | P.js:1926-1933 | for two values the reported root is exactly the zero of the line, and there is none when the line is constant |
| Roots.DegenerateQuadraticRoots | P.js:1920-1923 | when `a - 2b + c = 0` the reported root is exactly the zero of the quadratic; none when it is constant |
| Roots.LineIntersection | P.js:1668-1677 | `lli8` fails exactly when the denominator `(x1-x2)(y3-y4) - (y1-y2)(x3-x4)` is 0; otherwise its point lies on both lines |
| Roots.CrossingOnBothLines | P.js:1668-1677 | the point `(nx / d, ny / d)` lies on both lines |
| Roots.LineIntersection4 | P.js:1679-1690 | `lli4` fails exactly for parallel lines; otherwise its point lies on both lines |
| Roots.IntersectionUnique | P.js:1668-1690 | any point on both lines is the point `lli4` returns |
| CurveExtrema.InUnit | P.js:2686-2688 | the filter keeps exactly the values in [0,1], each as often as it occurs |
| CurveExtrema.Insert | P.js:2163-2165 | inserting keeps the list sorted and adds the value once |
| CurveExtrema.Sort | P.js:2163-2165 | the sort with `numberSort` yields a sorted permutation of its input |
| CurveExtrema.FirstOccurrences | P.js:2692-2694 | the `indexOf` filter keeps every value once and removes no value; on a sorted list the result is strictly increasing |
| CurveExtrema.Merge | P.js:2685-2694 | each axis list is sorted and is a permutation of the in-range candidates; `values` is strictly increasing, lies in [0,1], and holds exactly the values of the two axis lists |
| CurveExtrema.Extrema | P.js:2670-2697 | each axis list holds exactly the candidate roots of that axis in [0,1], sorted; `values` is their union without repeats, in increasing order |
| CurveExtrema.QuadraticExtrema | P.js:2676-2688 | for a quadratic, the extrema of an axis are exactly the parameters in [0,1] where that derivative coordinate vanishes, and there are none when it is constant |
| Boxes.WithEnds | P.js:1790-1795 | the list evaluated always holds 0 and 1 and nothing else new |
| Boxes.Scan | P.js:1796-1805 | the running min and max bound every evaluated coordinate and are each the start value or an evaluated coordinate |
| Boxes.GetMinMax | P.js:1784-1807 | the extent is consistent and holds the end points and every listed parameter's coordinate; min and max are each attained at an evaluated parameter unless they stay at the safe-integer start values |
| Boxes.AxisOverlapIsIntervalOverlap | P.js:2010-2022 | the mid/size test of one axis is open-interval overlap |
| Boxes.OverlapIsIntersection | P.js:2010-2022 | `bboxoverlap` holds exactly when both axis intervals overlap |
| Boxes.Expand | P.js:2024-2053 | `expandbox` takes the smaller min and the larger max per axis and recomputes `mid` and `size`; the result contains both boxes |
| Boxes.ExpandCommutes | P.js:2024-2053 | the union does not depend on the order of the two boxes |
| Boxes.ExpandAssociates | P.js:2024-2053 | the union is associative |
| Boxes.ExpandIdempotent | P.js:2024-2053 | expanding a consistent box by itself changes nothing |
| Boxes.ExpandIsLeast | P.js:2024-2053 | every box containing both boxes contains their union |
| CurveBox.BBoxAsWritten | P.js:2699-2708 | the source's box is consistent; it holds both end points and the curve point at every extremum parameter of each axis |
| CurveBox.LineInBox | P.js:2699-2708 | for a line, the box holds every curve point on [0,1] |
| CurveBox.QuadraticInBox | P.js:2699-2708 | for a quadratic, the box holds every curve point on [0,1] |
| CurveBox.BBoxAsWrittenHighOrder | P.js:1908-1936 | from order 4 on, `droots` gets four or more values and returns nothing, so each axis extent is just the end points against the safe-integer start values |
| CurveBox.HighOrderPointOutside | P.js:2699-2708 | from order 4 on, any curve point above both end points lies outside the source's box |
| CurveBox.BBoxAsWrittenMissesArch | P.js:2699-2708 | the midpoint (2, 0.875) of the quartic arch (0,0),(1,1),(2,1),(3,1),(4,0) is outside the source's box and inside the corrected one |
| CurveBox.AxisMin | P.js:2699-2708 | a helper of the corrected box `CurveBBox`: the smallest control-point coordinate is a lower bound and attained |
| CurveBox.AxisMax | P.js:2699-2708 | a helper of the corrected box `CurveBBox`: the largest control-point coordinate is an upper bound and attained |
| CurveBox.PolygonBox | P.js:2699-2708 | the box of the control polygon is consistent and holds every control point |
| CurveBox.CollapseWithin | P.js:1449-1463 | a curve point on [0,1] stays within any bounds its control points keep |
| CurveBox.PolygonBoxHoldsCurve | P.js:2699-2708 | the box of the control polygon holds every curve point on [0,1] |
| CurveBox.CurveBBox | P.js:2699-2708 | the corrected box is consistent, holds the end points, and is the source's box up to order 3 |
| CurveBox.CurveBBoxHoldsCurve | P.js:2699-2708 | for lines, quadratics and order 4 and up, the corrected box holds every curve point on [0,1] |
| Poly.NewPoly | P.js:2172-2180 | the constructor fails exactly on a present but empty list; a missing list gives an empty poly-curve; a present list is kept |
| Poly.AddCurve | P.js:2198-2201 | `addCurve` appends the curve and keeps the curves already there |
| Poly.FoldBoxes | P.js:2217-2224 | the folded union contains every box and is consistent when they all are |
| Poly.FoldIsLeast | P.js:2217-2224 | every box containing all the boxes contains their folded union |
| Poly.PolyBBox | P.js:2217-2224 | `bbox` asks each member for its box and folds them with `expandbox`; with `Poly.Reported` as the per-curve rule it is the source's box, with `Poly.Corrected` the corrected one. It is absent exactly for an empty poly-curve; otherwise it contains every member's box and is consistent when they all are |
| Poly.AddCurveBBox | P.js:2198-2224 | after `addCurve` the box is the old box expanded by the new curve's box, or that box alone for an empty poly-curve |
| Poly.PolyBBoxIsLeast | P.js:2217-2224 | the poly-curve's box is the least box containing every member's box |
| Poly.PolyBBoxAgreesLowOrder | P.js:2217-2224 | while every member has order 3 or less, the source's poly-curve box is the corrected one |
| Poly.SingleCurveBBox | P.js:2217-2224 | a poly-curve of one curve has exactly that curve's box |
| Poly.PolyBBoxHoldsCurves | P.js:2217-2224 | every point on [0,1] of every line or quadratic member lies in the source's poly-curve box |
| Poly.CorrectedPolyBBoxHoldsCurves | P.js:2217-2224 | every point on [0,1] of every member that is not a cubic lies in the corrected poly-curve box |
| Poly.PolyBBoxMissesArch | P.js:2217-2224 | for the poly-curve holding only the quartic arch, the arch's midpoint is outside the source's box and inside the corrected one |

## Left out

- Three dimensions: the `z` coordinate, the `_3d` flag and the 3D branches of `compute`, `lerp`, `derive` and `expandbox` are not modelled. The constructor's 9- and 12-coordinate forms are rejected with `ThreeDimensional`.
- `computeWithRatios`, `setRatios` and rational curves: not modelled.
- The `.t` field `compute` writes into shared control points: mutation with no effect on any result.
- The square-root branch of `droots`, and with it the cubic roots: floating-point numerics. It is the `Solver` parameter.
- CurveBox.CurveBBoxHoldsCurve: cubics are excluded. Whether the box holds a cubic depends on the roots the solver reports for the square-root branch.
- Poly.PolyBBoxHoldsCurves: only lines and quadratics are covered. Cubic members depend on the solver. From order 4 on the source's box can miss the curve (second Finding, `Poly.PolyBBoxMissesArch`).
- Poly.CorrectedPolyBBoxHoldsCurves: cubic members are excluded, because their boxes depend on the solver.
- Boxes.GetMinMax: the `!list` guard that returns `{min: 0, max: 0}` is left out; `bbox` always passes a list.
- Curves.Construct: a coordinate list of odd length, which the source turns into a last point with an undefined `y`, is rejected with `IncompleteCoordinates`. Fewer than two points, where the source fails with a `TypeError` in `computedirection` or `align`, give `TooFewPoints`.
- The `_linear` flag, `align`, `angle`, `computedirection`, `clockwise` and the lookup table: they need trigonometry and square roots.
- `PolyBezier.length`, `offset` and `curve(idx)`: arc length and offsets are floating-point numerics; `curve(idx)` is plain indexing.
- Curves.SplitRange and Curves.SplitRangeAsWritten: for `t1 = 1` with `t2` neither 0 nor 1, the source does not throw. Its `map` divides by zero and the split goes on with a non-finite parameter, giving points of `NaN`. The model stops there with `NonFinite`.
- `scale`, which throws when `lli4` fails: not modelled.
- `convertStringToArrayBySpace`, `hex2rgb`/`rgb2hex`, `EventEmitter`, `getReasonRadius`, and the `Delay`/`Sequence`/`Repeat` counters: outside the Bezier core.
- Floating-point rounding: all arithmetic is exact. Equality tests such as `t === 0` and `d !== 0` are read as exact comparisons.

## Findings

| source | as written | input that shows it | evidently intended | confidence | as-written member | corrected member |
|---|---|---|---|---|---|---|
| P.js:2613-2655 | `hull` always copies `p[0..2]` (and `p[3]` for a cubic) to the front; `split` then reads fixed positions meant for quadratics and cubics. On a line `p[2]` is undefined, so building the pieces fails. On order 4 and up the pieces are built from unrelated triangle entries. | the quartic (0,0),(1,0),(2,0),(3,0),(4,0) split at 0.5: the right piece ends at (0.5, 0) instead of (4, 0) | the two sides of the de Casteljau triangle, for every order | high; not executed | Curves.LineHullAsWritten, Curves.SplitAsWritten, Curves.SplitRangeAsWritten, Curves.SplitAsWrittenRightEnd, Curves.SplitAsWrittenBreaksQuartic | Curves.Split, Curves.SplitSubdivides, Curves.SplitRange, Curves.SplitRangePiece |
| P.js:1908-1936, 2699-2708 | `droots` returns no roots for four or more values, so from order 4 on `bbox` bounds only the end points | the arch (0,0),(1,1),(2,1),(3,1),(4,0): its box has `y.max = 0`, but the curve passes through (2, 0.875) | a box that holds the whole curve on [0,1] | high; not executed | CurveBox.BBoxAsWritten, CurveBox.BBoxAsWrittenMissesArch, Poly.PolyBBoxMissesArch | CurveBox.CurveBBox, CurveBox.CurveBBoxHoldsCurve, Poly.CorrectedPolyBBoxHoldsCurves |
