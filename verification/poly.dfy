/** `PolyBezier`: a list of curves, extended one curve at a time
    (`addCurve`), whose bounding box is the union of its curves' boxes,
    folded from the first curve on (`bbox`). */
module Poly {
  import opened Wrappers
  import opened Points
  import opened Evaluate
  import opened Boxes
  import opened CurveExtrema
  import opened Curves
  import opened CurveBox

  datatype PolyBezier = PolyBezier(curves: seq<Curve>)

  datatype PolyError = MissingFirstCurve

  /** The constructor: a missing list gives an empty poly-curve; a present
      list is kept as is, but reading its first curve's flags fails when the
      list is empty. */
  function NewPoly(curves: Option<seq<Curve>>): (r: Result<PolyBezier, PolyError>)
    ensures r.Err? <==> curves == Some([])
    ensures curves.None? ==> r == Ok(PolyBezier([]))
    ensures r.Ok? && curves.Some? ==> r.value.curves == curves.value
  {
    match curves
    case None => Ok(PolyBezier([]))
    case Some(cs) => if |cs| == 0 then Err(MissingFirstCurve) else Ok(PolyBezier(cs))
  }

  /** `addCurve`: the curve goes at the end; the curves already there stay. */
  function AddCurve(p: PolyBezier, c: Curve): (r: PolyBezier)
    ensures |r.curves| == |p.curves| + 1
    ensures r.curves[..|p.curves|] == p.curves && r.curves[|p.curves|] == c
  {
    PolyBezier(p.curves + [c])
  }

  /** The union of a non-empty list of boxes, folded left: the first box
      itself, then each following box merged in by `expandbox`. */
  function FoldBoxes(bs: seq<BBox>): (r: BBox)
    requires |bs| >= 1
    ensures forall i :: 0 <= i < |bs| ==> Contains(r, bs[i])
    ensures (forall i :: 0 <= i < |bs| ==> BoxConsistent(bs[i])) ==> BoxConsistent(r)
    decreases |bs|
  {
    if |bs| == 1 then bs[0]
    else
      var front := bs[..|bs| - 1];
      var acc := FoldBoxes(front);
      assert forall i :: 0 <= i < |bs| - 1 ==> bs[i] == front[i];
      Expand(acc, bs[|bs| - 1])
  }

  /** The folded union is the least box containing every box of the list. */
  lemma {:induction false} FoldIsLeast(bs: seq<BBox>, c: BBox)
    requires |bs| >= 1
    requires forall i :: 0 <= i < |bs| ==> Contains(c, bs[i])
    ensures Contains(c, FoldBoxes(bs))
    decreases |bs|
  {
    if |bs| > 1 {
      var front := bs[..|bs| - 1];
      assert forall i :: 0 <= i < |front| ==> front[i] == bs[i];
      FoldIsLeast(front, c);
      ExpandIsLeast(FoldBoxes(front), bs[|bs| - 1], c);
    }
  }

  /** Every curve of a poly-curve has at least two control points, as the
      curve constructor guarantees. */
  predicate WellFormed(p: PolyBezier)
  {
    forall i :: 0 <= i < |p.curves| ==> |p.curves[i].points| >= 2
  }

  /** How one curve's box is obtained from its control points. */
  type BoxRule = seq<Point> --> BBox

  /** A box rule defined for every curve of at least two control points. */
  ghost predicate Total(box: BoxRule)
  {
    forall pts: seq<Point> :: |pts| >= 2 ==> box.requires(pts)
  }

  /** The box each curve reports through its own `bbox`, as the source computes it. */
  function Reported(solve: Solver): (box: BoxRule)
    ensures Total(box)
  {
    pts requires |pts| >= 2 => BBoxAsWritten(pts, solve)
  }

  /** The corrected box of a curve. */
  function Corrected(solve: Solver): (box: BoxRule)
    ensures Total(box)
  {
    pts requires |pts| >= 2 => CurveBBox(pts, solve)
  }

  /** Appending a box to the list widens the folded union by that box. */
  lemma FoldAppend(bs: seq<BBox>, b: BBox)
    requires |bs| >= 1
    ensures FoldBoxes(bs + [b]) == Expand(FoldBoxes(bs), b)
  {
    assert (bs + [b])[..|bs|] == bs;
  }

  /** The box of each curve of a list, in order. */
  function BoxesOf(cs: seq<Curve>, box: BoxRule): (bs: seq<BBox>)
    requires forall i :: 0 <= i < |cs| ==> box.requires(cs[i].points)
    ensures |bs| == |cs|
    ensures forall i :: 0 <= i < |cs| ==> bs[i] == box(cs[i].points)
  {
    seq(|cs|, i requires 0 <= i < |cs| => box(cs[i].points))
  }

  /** Appending a curve appends its box. */
  lemma BoxesOfAppend(cs: seq<Curve>, c: Curve, box: BoxRule)
    requires forall i :: 0 <= i < |cs| ==> box.requires(cs[i].points)
    requires box.requires(c.points)
    ensures BoxesOf(cs + [c], box) == BoxesOf(cs, box) + [box(c.points)]
  {
    var a, b := BoxesOf(cs + [c], box), BoxesOf(cs, box) + [box(c.points)];
    forall i | 0 <= i < |a|
      ensures a[i] == b[i]
    {
      if i < |cs| {
        assert (cs + [c])[i] == cs[i];
      }
    }
  }

  /** `PolyBezier.bbox`: absent for an empty poly-curve (the source reads the
      box of a missing first curve), otherwise the union of the boxes its
      curves report, folded from the first curve on.  The source asks each
      curve for its own box, so the rule is a parameter: `Reported(solve)`
      is the source's, `Corrected(solve)` the corrected one. */
  function PolyBBox(p: PolyBezier, box: BoxRule): (r: Option<BBox>)
    requires WellFormed(p) && Total(box)
    ensures r.None? <==> |p.curves| == 0
    ensures r.Some? ==>
              (forall i :: 0 <= i < |p.curves| ==> BoxConsistent(box(p.curves[i].points))) ==>
              BoxConsistent(r.value)
    ensures r.Some? ==> forall i :: 0 <= i < |p.curves| ==> Contains(r.value, box(p.curves[i].points))
  {
    if |p.curves| == 0 then None
    else Some(FoldBoxes(BoxesOf(p.curves, box)))
  }

  /** Adding a curve widens the box by exactly that curve's box. */
  lemma AddCurveBBox(p: PolyBezier, c: Curve, box: BoxRule)
    requires WellFormed(p) && |c.points| >= 2 && Total(box)
    ensures WellFormed(AddCurve(p, c))
    ensures |p.curves| == 0 ==> PolyBBox(AddCurve(p, c), box) == Some(box(c.points))
    ensures |p.curves| > 0 ==>
              PolyBBox(AddCurve(p, c), box) == Some(Expand(PolyBBox(p, box).value, box(c.points)))
  {
    BoxesOfAppend(p.curves, c, box);
    if |p.curves| > 0 {
      FoldAppend(BoxesOf(p.curves, box), box(c.points));
    } else {
      assert p.curves + [c] == [c];
    }
  }

  /** The box of a poly-curve is the least box holding every curve's box. */
  lemma PolyBBoxIsLeast(p: PolyBezier, box: BoxRule, c: BBox)
    requires WellFormed(p) && |p.curves| > 0 && Total(box)
    requires forall i :: 0 <= i < |p.curves| ==> Contains(c, box(p.curves[i].points))
    ensures Contains(c, PolyBBox(p, box).value)
  {
    FoldIsLeast(BoxesOf(p.curves, box), c);
  }

  /** While every member has order 3 or less, the source's box is the corrected one. */
  lemma PolyBBoxAgreesLowOrder(p: PolyBezier, solve: Solver)
    requires WellFormed(p)
    requires forall i :: 0 <= i < |p.curves| ==> |p.curves[i].points| <= 4
    ensures PolyBBox(p, Reported(solve)) == PolyBBox(p, Corrected(solve))
  {
    assert BoxesOf(p.curves, Reported(solve)) == BoxesOf(p.curves, Corrected(solve));
  }

  /** A point in a box lies in every box containing it. */
  lemma InBoxGrows(q: Point, inner: BBox, outer: BBox)
    requires InBox(q, inner) && Contains(outer, inner) && BoxConsistent(inner)
    ensures InBox(q, outer)
  {
  }

  /** Every point on [0,1] of every line or quadratic member lies in the box
      the source computes for the poly-curve. */
  lemma PolyBBoxHoldsCurves(p: PolyBezier, solve: Solver, i: nat, t: real)
    requires WellFormed(p) && i < |p.curves| && |p.curves[i].points| <= 3 && 0.0 <= t <= 1.0
    ensures InBox(Compute(t, p.curves[i].points), PolyBBox(p, Reported(solve)).value)
  {
    var pts := p.curves[i].points;
    var b := BBoxAsWritten(pts, solve);
    if |pts| == 2 {
      LineInBox(pts, solve, t);
    } else {
      QuadraticInBox(pts, solve, t);
    }
    assert Reported(solve)(pts) == b;
    InBoxGrows(Compute(t, pts), b, PolyBBox(p, Reported(solve)).value);
  }

  /** Every point on [0,1] of every line, quadratic or order-4-and-up member
      lies in the corrected box of the poly-curve. */
  lemma CorrectedPolyBBoxHoldsCurves(p: PolyBezier, solve: Solver, i: nat, t: real)
    requires WellFormed(p) && i < |p.curves| && |p.curves[i].points| != 4 && 0.0 <= t <= 1.0
    ensures InBox(Compute(t, p.curves[i].points), PolyBBox(p, Corrected(solve)).value)
  {
    var pts := p.curves[i].points;
    var b := CurveBBox(pts, solve);
    CurveBBoxHoldsCurve(pts, solve, t);
    assert Corrected(solve)(pts) == b;
    InBoxGrows(Compute(t, pts), b, PolyBBox(p, Corrected(solve)).value);
  }

  /** A poly-curve made of one curve has that curve's box. */
  lemma SingleCurveBBox(c: Curve, box: BoxRule)
    requires |c.points| >= 2 && Total(box)
    ensures WellFormed(PolyBezier([c]))
    ensures PolyBBox(PolyBezier([c]), box) == Some(box(c.points))
  {
    assert BoxesOf([c], box) == [box(c.points)];
  }

  /** The source's poly-curve box inherits the miss of its members' boxes: a
      poly-curve holding only the quartic arch does not hold the arch's
      midpoint, while the corrected poly-curve box does. */
  lemma PolyBBoxMissesArch(solve: Solver)
    ensures !InBox(Compute(0.5, Arch()), PolyBBox(PolyBezier([Curve(Arch(), 0.0, 1.0)]), Reported(solve)).value)
    ensures InBox(Compute(0.5, Arch()), PolyBBox(PolyBezier([Curve(Arch(), 0.0, 1.0)]), Corrected(solve)).value)
  {
    var c := Curve(Arch(), 0.0, 1.0);
    SingleCurveBBox(c, Reported(solve));
    SingleCurveBBox(c, Corrected(solve));
    assert Reported(solve)(c.points) == BBoxAsWritten(c.points, solve);
    assert Corrected(solve)(c.points) == CurveBBox(c.points, solve);
    BBoxAsWrittenMissesArch(solve);
  }
}
