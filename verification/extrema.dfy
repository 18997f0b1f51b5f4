/** `Bezier.extrema`: the parameters in [0,1] where a coordinate of the
    curve's derivative (or, for a cubic, of its second derivative) vanishes,
    per axis and merged into one sorted list without repeats. */
module CurveExtrema {
  import opened Wrappers
  import opened Points
  import opened Evaluate
  import opened Derivatives
  import opened Roots

  /** The equation solver for the square-root branch of `droots`, which this
      model does not evaluate: a caller-supplied function from the three
      coefficients to the roots it reports. */
  type Solver = seq<real> -> seq<real>

  predicate Sorted(s: seq<real>)
  {
    forall i, j :: 0 <= i < j < |s| ==> s[i] <= s[j]
  }

  predicate StrictlyIncreasing(s: seq<real>)
  {
    forall i, j :: 0 <= i < j < |s| ==> s[i] < s[j]
  }

  /** The `a` coordinates of a list of points. */
  function Coords(level: seq<Point>, a: Axis): (c: seq<real>)
    ensures |c| == |level|
    ensures forall i :: 0 <= i < |level| ==> c[i] == Coord(level[i], a)
  {
    seq(|level|, i requires 0 <= i < |level| => Coord(level[i], a))
  }

  /** `droots`, with its square-root branch delegated to `solve`. */
  function AxisRoots(level: seq<Point>, a: Axis, solve: Solver): seq<real>
  {
    var p := Coords(level, a);
    match DRoots(p)
    case Some(r) => r
    case None => solve(p)
  }

  /** The filter `t >= 0 && t <= 1`, keeping the order of the kept values. */
  function InUnit(s: seq<real>): (r: seq<real>)
    ensures forall t :: t in r <==> t in s && 0.0 <= t <= 1.0
    ensures forall t :: t in multiset(r) ==> 0.0 <= t <= 1.0
    ensures forall t :: 0.0 <= t <= 1.0 ==> multiset(r)[t] == multiset(s)[t]
    decreases |s|
  {
    if |s| == 0 then []
    else
      var rest := InUnit(s[..|s| - 1]);
      var last := s[|s| - 1];
      assert s == s[..|s| - 1] + [last];
      if 0.0 <= last <= 1.0 then rest + [last] else rest
  }

  /** Inserts `x` into a sorted list, keeping it sorted. */
  function Insert(x: real, s: seq<real>): (r: seq<real>)
    requires Sorted(s)
    ensures Sorted(r)
    ensures multiset(r) == multiset(s) + multiset{x}
    ensures forall t :: t in r <==> t == x || t in s
    decreases |s|
  {
    if |s| == 0 then [x]
    else if x <= s[0] then [x] + s
    else
      var rest := Insert(x, s[1..]);
      assert s == [s[0]] + s[1..];
      PrependSorted(s[0], rest);
      [s[0]] + rest
  }

  lemma PrependSorted(h: real, s: seq<real>)
    requires Sorted(s)
    requires forall t :: t in s ==> h <= t
    ensures Sorted([h] + s)
  {
    var r := [h] + s;
    forall i, j | 0 <= i < j < |r|
      ensures r[i] <= r[j]
    {
      assert r[j] == s[j - 1] && s[j - 1] in s;
      if i > 0 {
        assert r[i] == s[i - 1];
      }
    }
  }

  lemma AppendIncreasing(s: seq<real>, last: real)
    requires StrictlyIncreasing(s)
    requires forall t :: t in s ==> t < last
    ensures StrictlyIncreasing(s + [last])
  {
    var r := s + [last];
    forall i, j | 0 <= i < j < |r|
      ensures r[i] < r[j]
    {
      assert r[i] == s[i] && s[i] in s;
      if j < |s| {
        assert r[j] == s[j];
      }
    }
  }

  /** `Array.prototype.sort` with `utils.numberSort` (ascending numeric order):
      the sorted permutation of `s`. */
  function Sort(s: seq<real>): (r: seq<real>)
    ensures Sorted(r)
    ensures multiset(r) == multiset(s)
    decreases |s|
  {
    if |s| == 0 then []
    else
      assert s == s[..|s| - 1] + [s[|s| - 1]];
      Insert(s[|s| - 1], Sort(s[..|s| - 1]))
  }

  /** `filter((v, idx) => s.indexOf(v) === idx)`: keeps each value at its first
      position only. */
  function FirstOccurrences(s: seq<real>): (r: seq<real>)
    ensures forall t :: t in r <==> t in s
    ensures forall i, j :: 0 <= i < j < |r| ==> r[i] != r[j]
    ensures Sorted(s) ==> StrictlyIncreasing(r)
    decreases |s|
  {
    if |s| == 0 then []
    else
      var init := s[..|s| - 1];
      var last := s[|s| - 1];
      var rest := FirstOccurrences(init);
      assert s == init + [last];
      assert Sorted(s) ==> Sorted(init);
      if last in init then rest
      else
        FreshLastIncreases(s, rest);
        rest + [last]
  }

  /** Appending the last value of a sorted list that is not repeated earlier
      keeps the first occurrences of the earlier values strictly increasing. */
  lemma FreshLastIncreases(s: seq<real>, rest: seq<real>)
    requires |s| >= 1 && s[|s| - 1] !in s[..|s| - 1]
    requires forall t :: t in rest ==> t in s[..|s| - 1]
    requires Sorted(s) ==> StrictlyIncreasing(rest)
    ensures Sorted(s) ==> StrictlyIncreasing(rest + [s[|s| - 1]])
  {
    if Sorted(s) {
      var init, last := s[..|s| - 1], s[|s| - 1];
      forall t | t in rest
        ensures t < last
      {
        var k :| 0 <= k < |init| && init[k] == t;
        assert s[k] == t;
      }
      AppendIncreasing(rest, last);
    }
  }

  /** What `extrema` returns: per axis the sorted candidate parameters in
      [0,1], and all of them merged in `values`. */
  datatype ExtremaResult = ExtremaResult(x: seq<real>, y: seq<real>, values: seq<real>)

  function ForAxis(r: ExtremaResult, a: Axis): seq<real>
  {
    match a
    case X => r.x
    case Y => r.y
  }

  /** The candidate parameters of one axis before filtering: roots of the
      first derivative's coordinate, and for a cubic also of the second's. */
  function Candidates(pts: seq<Point>, a: Axis, solve: Solver): seq<real>
    requires |pts| >= 2
  {
    var levels := Derive(pts);
    var first := AxisRoots(levels[0], a, solve);
    if |pts| - 1 == 3 then first + AxisRoots(levels[1], a, solve) else first
  }

  /** The post-processing of `extrema`: each axis's candidates are filtered
      to [0,1] and sorted, and the two sorted lists are concatenated, sorted
      again and stripped of repeated values. */
  function Merge(cx: seq<real>, cy: seq<real>): (r: ExtremaResult)
    ensures Sorted(r.x) && multiset(r.x) == multiset(InUnit(cx))
    ensures Sorted(r.y) && multiset(r.y) == multiset(InUnit(cy))
    ensures StrictlyIncreasing(r.values)
    ensures forall t :: t in r.values ==> 0.0 <= t <= 1.0
    ensures forall t :: t in r.values <==> t in r.x || t in r.y
    ensures forall t :: t in r.values <==> 0.0 <= t <= 1.0 && (t in cx || t in cy)
    ensures forall t :: t in r.x <==> 0.0 <= t <= 1.0 && t in cx
    ensures forall t :: t in r.y <==> 0.0 <= t <= 1.0 && t in cy
  {
    var xs, ys := Sort(InUnit(cx)), Sort(InUnit(cy));
    var all := Sort(xs + ys);
    var values := FirstOccurrences(all);
    SortedInUnit(cx, xs);
    SortedInUnit(cy, ys);
    UnionMembers(xs, ys, all, values);
    ExtremaResult(xs, ys, values)
  }

  /** The sorted in-range candidates are exactly the candidates in [0,1]. */
  lemma SortedInUnit(c: seq<real>, xs: seq<real>)
    requires xs == Sort(InUnit(c))
    ensures forall t :: t in xs <==> 0.0 <= t <= 1.0 && t in c
  {
    SameMembers(InUnit(c), xs);
  }

  /** Sorting the concatenation and dropping repeats keeps the union of both lists. */
  lemma UnionMembers(xs: seq<real>, ys: seq<real>, all: seq<real>, values: seq<real>)
    requires multiset(all) == multiset(xs + ys)
    requires forall t :: t in values <==> t in all
    ensures forall t :: t in values <==> t in xs || t in ys
  {
    SameMembers(xs + ys, all);
  }

  /** Lists with the same multiset have the same members. */
  lemma SameMembers(s: seq<real>, r: seq<real>)
    requires multiset(r) == multiset(s)
    ensures forall t :: t in r <==> t in s
  {
    forall t
      ensures t in r <==> t in s
    {
      assert t in r <==> t in multiset(r);
      assert t in s <==> t in multiset(s);
    }
  }

  /** `Bezier.extrema` of a curve with control points `pts` (at least two:
      the source needs the first derivative level). */
  function Extrema(pts: seq<Point>, solve: Solver): (r: ExtremaResult)
    requires |pts| >= 2
    ensures forall t :: t in r.x <==> 0.0 <= t <= 1.0 && t in Candidates(pts, X, solve)
    ensures forall t :: t in r.y <==> 0.0 <= t <= 1.0 && t in Candidates(pts, Y, solve)
    ensures Sorted(r.x) && Sorted(r.y) && StrictlyIncreasing(r.values)
    ensures forall t :: t in r.values <==> t in r.x || t in r.y
  {
    Merge(Candidates(pts, X, solve), Candidates(pts, Y, solve))
  }

  /** For a quadratic curve nothing is delegated to the solver: the extrema of
      an axis are exactly the parameters in [0,1] where that coordinate of the
      derivative vanishes, and there are none when it is constant. */
  lemma QuadraticExtrema(pts: seq<Point>, solve: Solver, a: Axis, t: real)
    requires |pts| == 3
    ensures var d := Derive(pts)[0];
            var r := ForAxis(Extrema(pts, solve), a);
            && (Coord(d[0], a) != Coord(d[1], a) ==>
                  (t in r <==> 0.0 <= t <= 1.0 && Coord(Compute(t, d), a) == 0.0))
            && (Coord(d[0], a) == Coord(d[1], a) ==> r == [])
  {
    var d := Derive(pts)[0];
    var p := Coords(d, a);
    assert p == [Coord(d[0], a), Coord(d[1], a)];
    LinearRoots(p[0], p[1], t);
    ComputeIsClosedForm(t, d);
    assert Coord(Compute(t, d), a) == Bernstein1(t, p[0], p[1]) by {
      match a
      case X =>
      case Y =>
    }
  }
}
