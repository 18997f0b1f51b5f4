/** The de Casteljau construction triangle `Bezier.hull` builds, and the
    split of a curve into the two halves read off its sides. */
module Triangle {
  import opened Points
  import opened Evaluate

  /** Row `k` holds the `|pts| - k` points of the `k`-th de Casteljau pass. */
  function Rows(t: real, pts: seq<Point>): (tri: seq<seq<Point>>)
    requires |pts| >= 1
    ensures |tri| == |pts|
    ensures tri[0] == pts
    ensures forall k :: 0 <= k < |tri| ==> |tri[k]| == |pts| - k
    decreases |pts|
  {
    if |pts| == 1 then [pts]
    else
      var rest := Rows(t, Step(t, pts));
      [pts] + rest
  }

  /** Each row of the triangle is one de Casteljau pass over the row above it. */
  lemma {:induction false} RowsStep(t: real, pts: seq<Point>, k: nat)
    requires 0 < k < |pts|
    ensures Rows(t, pts)[k] == Step(t, Rows(t, pts)[k - 1])
    decreases |pts|
  {
    if k > 1 {
      RowsStep(t, Step(t, pts), k - 1);
    }
  }

  /** Every row collapses to the same point, so the apex of the triangle is
      the point of the curve at `t`. */
  lemma {:induction false} ApexIsCollapse(t: real, pts: seq<Point>)
    requires |pts| >= 1
    ensures Rows(t, pts)[|pts| - 1] == [Collapse(t, pts)]
    decreases |pts|
  {
    if |pts| > 1 {
      var s := Step(t, pts);
      ApexIsCollapse(t, s);
      assert Rows(t, pts)[|pts| - 1] == Rows(t, s)[|s| - 1];
    }
  }

  /** The rows of the triangle one after the other. */
  function Flatten(rows: seq<seq<Point>>): seq<Point>
  {
    if |rows| == 0 then [] else rows[0] + Flatten(rows[1..])
  }

  /** The left side of the triangle: the first point of every row. */
  function LeftSide(tri: seq<seq<Point>>): (s: seq<Point>)
    requires forall k :: 0 <= k < |tri| ==> |tri[k]| >= 1
    ensures |s| == |tri|
  {
    seq(|tri|, k requires 0 <= k < |tri| => tri[k][0])
  }

  /** The right side of the triangle read from the apex down: the last point
      of every row, bottom row first. */
  function RightSide(tri: seq<seq<Point>>): (s: seq<Point>)
    requires forall k :: 0 <= k < |tri| ==> |tri[k]| >= 1
    ensures |s| == |tri|
  {
    seq(|tri|, k requires 0 <= k < |tri| => tri[|tri| - 1 - k][|tri[|tri| - 1 - k]| - 1])
  }

  /** The triangle of `m` points holds `m (m + 1) / 2` points in all. */
  lemma {:induction false} RowsSize(t: real, pts: seq<Point>)
    requires |pts| >= 1
    ensures |Flatten(Rows(t, pts))| == |pts| * (|pts| + 1) / 2
    ensures Rows(t, pts)[1..] == if |pts| == 1 then [] else Rows(t, Step(t, pts))
    decreases |pts|
  {
    var rows := Rows(t, pts);
    assert rows[1..] == if |pts| == 1 then [] else Rows(t, Step(t, pts));
    if |pts| > 1 {
      RowsSize(t, Step(t, pts));
    }
  }
}
