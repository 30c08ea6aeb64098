/**
 * From a list of circles to one position estimate (libLocalization.py):
 * get_intersecting_points, is_contained_in_circles, calcInnerPoints and
 * get_polygon_center. Each loop of the source is a method proved against
 * a specification function; the lemmas state what those functions promise.
 */
module Intersections {
  import opened Wrappers
  import opened Stats
  import opened Geometry
  import opened Pairs
  import opened Seqs

  /** Every pair refers to two circles of `cs`. */
  predicate ValidPairs(cs: seq<Circle>, ps: seq<Pair>) {
    forall p :: p in ps ==> p.0 < |cs| && p.1 < |cs|
  }

  /** What one pair contributes: its two points, or nothing when it is rejected. */
  function PairOutput(cs: seq<Circle>, p: Pair, sqrt: real -> real): seq<Point>
    requires p.0 < |cs| && p.1 < |cs|
  {
    match TwoCirclesIntersection(cs[p.0], cs[p.1], sqrt)
    case None => []
    case Some(ps) => ps
  }

  /** The outputs of the pairs `ps`, concatenated in order. */
  function PointsOf(cs: seq<Circle>, ps: seq<Pair>, sqrt: real -> real): seq<Point>
    requires ValidPairs(cs, ps)
  {
    if ps == [] then []
    else PointsOf(cs, ps[..|ps| - 1], sqrt) + PairOutput(cs, ps[|ps| - 1], sqrt)
  }

  /** The pairs of `ps` that are not rejected, in order. */
  function Qualifying(cs: seq<Circle>, ps: seq<Pair>, sqrt: real -> real): (r: seq<Pair>)
    requires ValidPairs(cs, ps)
    ensures ValidPairs(cs, r)
    ensures forall j :: 0 <= j < |r| ==> r[j] in ps && TwoCirclesIntersection(cs[r[j].0], cs[r[j].1], sqrt).Some?
    ensures forall p :: p in ps && TwoCirclesIntersection(cs[p.0], cs[p.1], sqrt).Some? ==> p in r
  {
    if ps == [] then []
    else
      var last := ps[|ps| - 1];
      var rest := Qualifying(cs, ps[..|ps| - 1], sqrt);
      if TwoCirclesIntersection(cs[last.0], cs[last.1], sqrt).Some? then rest + [last] else rest
  }

  /** Filtering a concatenation filters each part, so the accepted pairs keep their order. */
  lemma {:induction false} QualifyingAppend(cs: seq<Circle>, a: seq<Pair>, b: seq<Pair>, sqrt: real -> real)
    requires ValidPairs(cs, a) && ValidPairs(cs, b)
    ensures ValidPairs(cs, a + b)
    ensures Qualifying(cs, a + b, sqrt) == Qualifying(cs, a, sqrt) + Qualifying(cs, b, sqrt)
  {
    if b != [] {
      var b' := b[..|b| - 1];
      QualifyingAppend(cs, a, b', sqrt);
      assert (a + b)[..|a + b| - 1] == a + b';
      assert (a + b)[|a + b| - 1] == b[|b| - 1];
    } else {
      assert a + b == a;
    }
  }

  lemma AllPairsValid(cs: seq<Circle>)
    ensures ValidPairs(cs, AllPairs(|cs|))
  {
    PairsBeforeBounds(|cs|, |cs|);
  }

  lemma PointsOfSnoc(cs: seq<Circle>, ps: seq<Pair>, p: Pair, sqrt: real -> real)
    requires ValidPairs(cs, ps) && p.0 < |cs| && p.1 < |cs|
    ensures ValidPairs(cs, ps + [p])
    ensures PointsOf(cs, ps + [p], sqrt) == PointsOf(cs, ps, sqrt) + PairOutput(cs, p, sqrt)
  {
    assert (ps + [p])[..|ps|] == ps;
  }

  lemma {:induction false} RowValid(cs: seq<Circle>, i: nat, k: nat)
    requires k <= |cs|
    ensures ValidPairs(cs, Row(i, k))
  {
    if k > i + 1 {
      RowValid(cs, i, k - 1);
    }
  }

  lemma PairsBeforeValid(cs: seq<Circle>, i: nat)
    ensures ValidPairs(cs, PairsBefore(|cs|, i))
  {
    PairsBeforeBounds(|cs|, i);
  }

  /** The points of a run of intersection results, rejected pairs adding nothing. */
  function Gather(results: seq<Option<seq<Point>>>): seq<Point> {
    if |results| == 0 then []
    else
      Gather(results[..|results| - 1]) +
        match results[|results| - 1] case None => [] case Some(ps) => ps
  }

  /** `results` are the results of pairs (i, i + 1), ..., (i, i + |results|). */
  predicate RowResults(cs: seq<Circle>, i: nat, results: seq<Option<seq<Point>>>, sqrt: real -> real)
    requires i < |cs|
  {
    && i + 1 + |results| <= |cs|
    && forall j :: 0 <= j < |results| ==> results[j] == TwoCirclesIntersection(cs[i], cs[i + 1 + j], sqrt)
  }

  /** One step of the inner loop: a result appends its points, if any. */
  lemma GatherStep(results: seq<Option<seq<Point>>>, res: Option<seq<Point>>, prefix: seq<Point>, points: seq<Point>)
    requires points == prefix + Gather(results)
    ensures prefix + Gather(results + [res]) == if res.Some? then points + res.value else points
  {
    PrefixSnoc(results + [res], |results|);
    var out := match res case None => [] case Some(ps) => ps;
    assert Gather(results + [res]) == Gather(results) + out;
    AppendAssoc(prefix, Gather(results), out);
    if res.None? {
      AppendEmpty(points, out);
    }
  }

  lemma RowResultsInit(cs: seq<Circle>, i: nat, results: seq<Option<seq<Point>>>, sqrt: real -> real)
    requires i < |cs| && RowResults(cs, i, results, sqrt) && |results| > 0
    ensures RowResults(cs, i, results[..|results| - 1], sqrt)
  {
    var init := results[..|results| - 1];
    forall j | 0 <= j < |init|
      ensures init[j] == TwoCirclesIntersection(cs[i], cs[i + 1 + j], sqrt)
    {
      assert init[j] == results[j];
    }
  }

  lemma RowResultsSnoc(cs: seq<Circle>, i: nat, results: seq<Option<seq<Point>>>, sqrt: real -> real)
    requires i + 1 + |results| < |cs| && RowResults(cs, i, results, sqrt)
    ensures RowResults(cs, i, results + [TwoCirclesIntersection(cs[i], cs[i + 1 + |results|], sqrt)], sqrt)
  {
    var next := results + [TwoCirclesIntersection(cs[i], cs[i + 1 + |results|], sqrt)];
    forall j | 0 <= j < |next|
      ensures next[j] == TwoCirclesIntersection(cs[i], cs[i + 1 + j], sqrt)
    {
      if j < |results| {
        assert next[j] == results[j];
      }
    }
  }

  /** The last result of a row adds the output of its pair. */
  lemma GatherLast(cs: seq<Circle>, i: nat, results: seq<Option<seq<Point>>>, sqrt: real -> real)
    requires i < |cs| && RowResults(cs, i, results, sqrt) && |results| > 0
    ensures Gather(results) == Gather(results[..|results| - 1]) + PairOutput(cs, (i, i + |results|), sqrt)
  {
    assert results[|results| - 1] == TwoCirclesIntersection(cs[i], cs[i + |results|], sqrt);
  }

  /** The gathered results of a row are the output of the row's pairs. */
  lemma {:induction false} RowResultsOf(cs: seq<Circle>, i: nat, results: seq<Option<seq<Point>>>, sqrt: real -> real)
    requires i < |cs| && RowResults(cs, i, results, sqrt)
    ensures ValidPairs(cs, Row(i, i + 1 + |results|))
    ensures Gather(results) == PointsOf(cs, Row(i, i + 1 + |results|), sqrt)
  {
    if |results| > 0 {
      var init := results[..|results| - 1];
      var p: Pair := (i, i + |results|);
      var row := Row(i, i + |results|);
      RowResultsInit(cs, i, results, sqrt);
      RowResultsOf(cs, i, init, sqrt);
      GatherLast(cs, i, results, sqrt);
      assert Row(i, i + 1 + |results|) == row + [p];
      PointsOfSnoc(cs, row, p, sqrt);
    }
  }

  /** After row `i`, the rows before `i + 1` have been visited. */
  lemma RowsStep(cs: seq<Circle>, i: nat, sqrt: real -> real)
    requires i < |cs|
    ensures ValidPairs(cs, PairsBefore(|cs|, i + 1))
    ensures PointsOf(cs, PairsBefore(|cs|, i + 1), sqrt)
         == PointsOf(cs, PairsBefore(|cs|, i), sqrt) + PointsOf(cs, Row(i, |cs|), sqrt)
  {
    PairsBeforeValid(cs, i);
    RowValid(cs, i, |cs|);
    PointsOfAppend(cs, PairsBefore(|cs|, i), Row(i, |cs|), sqrt);
  }

  /**
   * The inner loop of get_intersecting_points for row `i`: the outputs of
   * the pairs (i, i + 1), ..., (i, n - 1) are appended to `points`.
   */
  method IntersectRow(circles: seq<Circle>, i: nat, sqrt: real -> real, points: seq<Point>) returns (points': seq<Point>)
    requires i < |circles|
    ensures ValidPairs(circles, Row(i, |circles|))
    ensures points' == points + PointsOf(circles, Row(i, |circles|), sqrt)
  {
    points' := points;
    ghost var results: seq<Option<seq<Point>>> := [];
    AppendEmpty(points, Gather(results));
    for k := i + 1 to |circles|
      invariant |results| == k - i - 1
      invariant RowResults(circles, i, results, sqrt)
      invariant points' == points + Gather(results)
    {
      var res := TwoCirclesIntersection(circles[i], circles[k], sqrt);
      GatherStep(results, res, points, points');
      RowResultsSnoc(circles, i, results, sqrt);
      results := results + [res];
      if res.Some? {
        points' := points' + res.value;
      }
    }
    RowResultsOf(circles, i, results, sqrt);
  }

  /** get_intersecting_points: the outputs of all pairs i < k, in loop order. */
  method IntersectingPoints(circles: seq<Circle>, sqrt: real -> real) returns (points: seq<Point>)
    ensures ValidPairs(circles, AllPairs(|circles|))
    ensures points == PointsOf(circles, AllPairs(|circles|), sqrt)
  {
    points := [];
    var num := |circles|;
    for i := 0 to num
      invariant ValidPairs(circles, PairsBefore(num, i))
      invariant points == PointsOf(circles, PairsBefore(num, i), sqrt)
    {
      points := IntersectRow(circles, i, sqrt, points);
      RowsStep(circles, i, sqrt);
    }
  }

  /** Splitting the pairs splits their output. */
  lemma {:induction false} PointsOfAppend(cs: seq<Circle>, a: seq<Pair>, b: seq<Pair>, sqrt: real -> real)
    requires ValidPairs(cs, a) && ValidPairs(cs, b)
    ensures ValidPairs(cs, a + b)
    ensures PointsOf(cs, a + b, sqrt) == PointsOf(cs, a, sqrt) + PointsOf(cs, b, sqrt)
  {
    if b != [] {
      var b' := b[..|b| - 1];
      PointsOfAppend(cs, a, b', sqrt);
      assert (a + b)[..|a + b| - 1] == a + b';
      assert (a + b)[|a + b| - 1] == b[|b| - 1];
    } else {
      assert a + b == a;
    }
  }

  /**
   * The output holds two points per qualifying pair: positions 2j and
   * 2j + 1 are the two points of the j-th qualifying pair, duplicates kept.
   */
  lemma {:induction false} PointsOfLayout(cs: seq<Circle>, ps: seq<Pair>, sqrt: real -> real)
    requires ValidPairs(cs, ps)
    ensures var q := Qualifying(cs, ps, sqrt);
      && |PointsOf(cs, ps, sqrt)| == 2 * |q|
      && forall j :: 0 <= j < |q| ==>
           PointsOf(cs, ps, sqrt)[2 * j..2 * j + 2] == PairOutput(cs, q[j], sqrt)
  {
    if ps != [] {
      var ps' := ps[..|ps| - 1];
      PointsOfLayout(cs, ps', sqrt);
      var last := ps[|ps| - 1];
      var q' := Qualifying(cs, ps', sqrt);
      var out' := PointsOf(cs, ps', sqrt);
      var q := Qualifying(cs, ps, sqrt);
      var out := PointsOf(cs, ps, sqrt);
      var po := PairOutput(cs, last, sqrt);
      assert out == out' + po;
      if TwoCirclesIntersection(cs[last.0], cs[last.1], sqrt).Some? {
        assert q == q' + [last] && |po| == 2;
        LayoutStep(out', po, q', last, cs, sqrt);
      } else {
        assert q == q' && po == [];
        assert out == out';
      }
    }
  }

  /** One step of PointsOfLayout: appending a qualifying pair's two points. */
  lemma LayoutStep(out': seq<Point>, po: seq<Point>, q': seq<Pair>, last: Pair, cs: seq<Circle>, sqrt: real -> real)
    requires ValidPairs(cs, q') && last.0 < |cs| && last.1 < |cs|
    requires po == PairOutput(cs, last, sqrt) && |po| == 2
    requires |out'| == 2 * |q'|
    requires forall j :: 0 <= j < |q'| ==> out'[2 * j..2 * j + 2] == PairOutput(cs, q'[j], sqrt)
    ensures var q, out := q' + [last], out' + po;
      forall j :: 0 <= j < |q| ==> out[2 * j..2 * j + 2] == PairOutput(cs, q[j], sqrt)
  {
    var q, out := q' + [last], out' + po;
    forall j | 0 <= j < |q|
      ensures out[2 * j..2 * j + 2] == PairOutput(cs, q[j], sqrt)
    {
      if j < |q'| {
        assert q[j] == q'[j];
        assert out[2 * j..2 * j + 2] == out'[2 * j..2 * j + 2];
      } else {
        assert q[j] == last;
        assert out[2 * j..2 * j + 2] == po;
      }
    }
  }

  /** Fewer than two circles give no points. */
  lemma IntersectingPointsFew(cs: seq<Circle>, sqrt: real -> real)
    requires |cs| < 2
    ensures ValidPairs(cs, AllPairs(|cs|))
    ensures PointsOf(cs, AllPairs(|cs|), sqrt) == []
  {
    AllPairsFew(|cs|);
  }

  /** Circles that all share one centre give no points. */
  lemma {:induction false} ConcentricGiveNoPoints(cs: seq<Circle>, ps: seq<Pair>, sqrt: real -> real)
    requires IsSqrt(sqrt)
    requires ValidPairs(cs, ps)
    requires forall i :: 0 <= i < |cs| ==> cs[i].center == cs[0].center
    ensures PointsOf(cs, ps, sqrt) == []
  {
    if ps != [] {
      ConcentricGiveNoPoints(cs, ps[..|ps| - 1], sqrt);
      var last := ps[|ps| - 1];
      ConcentricRejected(cs[last.0], cs[last.1], sqrt);
    }
  }

  /** The point is inside or on every circle. */
  ghost predicate InAllCircles(point: Point, circles: seq<Circle>, sqrt: real -> real) {
    forall i :: 0 <= i < |circles| ==> Distance(point, circles[i].center, sqrt) <= circles[i].radius
  }

  /** is_contained_in_circles: false at the first circle whose centre is farther than its radius. */
  method IsContainedInCircles(point: Point, circles: seq<Circle>, sqrt: real -> real) returns (b: bool)
    ensures b == InAllCircles(point, circles, sqrt)
  {
    for i := 0 to |circles|
      invariant forall j :: 0 <= j < i ==> Distance(point, circles[j].center, sqrt) <= circles[j].radius
    {
      if Distance(point, circles[i].center, sqrt) > circles[i].radius {
        return false;
      }
    }
    return true;
  }

  /** Each point of an accepted pair is contained in both circles of the pair. */
  lemma IntersectionContained(c1: Circle, c2: Circle, sqrt: real -> real, i: nat)
    requires IsSqrt(sqrt)
    requires TwoCirclesIntersection(c1, c2, sqrt).Some?
    requires i < 2
    ensures InAllCircles(TwoCirclesIntersection(c1, c2, sqrt).value[i], [c1, c2], sqrt)
  {
    IntersectionOnBothCircles(c1, c2, sqrt);
  }

  /** The optional limits of calcInnerPoints; a missing key and a `None` value are both `None`. */
  datatype Bounds = Bounds(xMin: Option<real>, xMax: Option<real>, yMin: Option<real>, yMax: Option<real>)

  /** No lower limit, or the value is at least the limit. */
  predicate AtLeast(v: real, limit: Option<real>) {
    limit.None? || limit.value <= v
  }

  /** No upper limit, or the value is at most the limit. */
  predicate AtMost(v: real, limit: Option<real>) {
    limit.None? || v <= limit.value
  }

  /** The point meets every present limit; with no bounds every point does. */
  predicate Within(p: Point, bounds: Option<Bounds>) {
    match bounds
    case None => true
    case Some(b) => AtLeast(p.x, b.xMin) && AtMost(p.x, b.xMax) && AtLeast(p.y, b.yMin) && AtMost(p.y, b.yMax)
  }

  /** The points within the bounds, in their original order. */
  function KeepWithin(points: seq<Point>, bounds: Option<Bounds>): seq<Point> {
    if points == [] then []
    else
      var rest := KeepWithin(points[..|points| - 1], bounds);
      if Within(points[|points| - 1], bounds) then rest + [points[|points| - 1]] else rest
  }

  lemma KeepWithinStep(points: seq<Point>, j: nat, bounds: Option<Bounds>)
    requires j < |points|
    ensures KeepWithin(points[..j + 1], bounds)
         == KeepWithin(points[..j], bounds) + if Within(points[j], bounds) then [points[j]] else []
  {
    PrefixSnoc(points, j);
  }

  /** calcInnerPoints: the intersection points that meet the bounds, in order. */
  method CalcInnerPoints(circles: seq<Circle>, bounds: Option<Bounds>, sqrt: real -> real)
    returns (innerPoints: seq<Point>)
    ensures ValidPairs(circles, AllPairs(|circles|))
    ensures innerPoints == KeepWithin(PointsOf(circles, AllPairs(|circles|), sqrt), bounds)
  {
    innerPoints := [];
    var points := IntersectingPoints(circles, sqrt);
    for j := 0 to |points|
      invariant innerPoints == KeepWithin(points[..j], bounds)
    {
      var p := points[j];
      KeepWithinStep(points, j, bounds);
      if bounds.Some? {
        var b := bounds.value;
        if b.xMin.Some? && b.xMin.value > p.x {
          continue;
        }
        if b.xMax.Some? && b.xMax.value < p.x {
          continue;
        }
        if b.yMin.Some? && b.yMin.value > p.y {
          continue;
        }
        if b.yMax.Some? && b.yMax.value < p.y {
          continue;
        }
      }
      innerPoints := innerPoints + [p];
    }
    TakeAll(points);
  }

  /** A point is kept exactly when it is one of the points and meets the bounds. */
  lemma {:induction false} KeepWithinMembers(points: seq<Point>, bounds: Option<Bounds>, p: Point)
    ensures p in KeepWithin(points, bounds) <==> p in points && Within(p, bounds)
  {
    if points != [] {
      var init := points[..|points| - 1];
      KeepWithinMembers(init, bounds, p);
      assert points == init + [points[|points| - 1]];
    }
  }

  /** Filtering works piecewise, so kept points keep their relative order. */
  lemma {:induction false} KeepWithinAppend(a: seq<Point>, b: seq<Point>, bounds: Option<Bounds>)
    ensures KeepWithin(a + b, bounds) == KeepWithin(a, bounds) + KeepWithin(b, bounds)
  {
    if b != [] {
      var b' := b[..|b| - 1];
      KeepWithinAppend(a, b', bounds);
      assert (a + b)[..|a + b| - 1] == a + b';
      assert (a + b)[|a + b| - 1] == b[|b| - 1];
    } else {
      assert a + b == a;
    }
  }

  /** Without bounds every point is kept. */
  lemma {:induction false} KeepWithinNoBounds(points: seq<Point>)
    ensures KeepWithin(points, None) == points
  {
    if points != [] {
      KeepWithinNoBounds(points[..|points| - 1]);
    }
  }

  datatype Axis = X | Y

  function Coord(p: Point, axis: Axis): real {
    match axis
    case X => p.x
    case Y => p.y
  }

  /** The coordinates of the points along one axis, in order (xs and ys of get_polygon_center). */
  function Coords(points: seq<Point>, axis: Axis): (r: seq<real>)
    ensures |r| == |points|
  {
    seq(|points|, i requires 0 <= i < |points| => Coord(points[i], axis))
  }

  /** The result of get_polygon_center: `NaN` stands for the pair (nan, nan). */
  datatype Center = NaN | Center(x: real, y: real)

  /** The per-axis medians of the points, or `NaN` for no points. */
  function CenterOf(points: seq<Point>): Center {
    if |points| == 0 then NaN else Center(Median(Coords(points, X)), Median(Coords(points, Y)))
  }

  /** get_polygon_center. */
  method PolygonCenter(points: seq<Point>) returns (center: Center)
    ensures center == CenterOf(points)
  {
    var xs: seq<real> := [];
    var ys: seq<real> := [];
    var num := |points|;
    if num == 0 {
      return NaN;
    }
    for i := 0 to num
      invariant xs == Coords(points[..i], X) && ys == Coords(points[..i], Y)
    {
      xs := xs + [points[i].x];
      ys := ys + [points[i].y];
    }
    assert points[..num] == points;
    center := Center(Median(xs), Median(ys));
  }

  /** The centre is NaN exactly for no points; otherwise each coordinate lies within that axis's range. */
  lemma CenterInRange(points: seq<Point>)
    ensures CenterOf(points).NaN? <==> points == []
    ensures points != [] ==>
      && Min(Coords(points, X)) <= CenterOf(points).x <= Max(Coords(points, X))
      && Min(Coords(points, Y)) <= CenterOf(points).y <= Max(Coords(points, Y))
  {
    if points != [] {
      MedianBetweenMinAndMax(Coords(points, X));
      MedianBetweenMinAndMax(Coords(points, Y));
    }
  }

  /** Removing one occurrence of the same value from two permutations leaves permutations. */
  lemma RemoveMatching(a: seq<Point>, b: seq<Point>, j: nat)
    requires multiset(a) == multiset(b)
    requires a != [] && j < |b| && b[j] == a[0]
    ensures multiset(a[1..]) == multiset(b[..j] + b[j + 1..])
  {
    assert b == b[..j] + [b[j]] + b[j + 1..];
    assert a == [a[0]] + a[1..];
    assert multiset(a[1..]) == multiset(a) - multiset{a[0]};
    assert multiset(b[..j] + b[j + 1..]) == multiset(b) - multiset{b[j]};
  }

  lemma CoordsCons(a: seq<Point>, axis: Axis)
    requires a != []
    ensures multiset(Coords(a, axis)) == multiset{Coord(a[0], axis)} + multiset(Coords(a[1..], axis))
  {
    assert Coords(a, axis) == [Coord(a[0], axis)] + Coords(a[1..], axis);
  }

  lemma CoordsRemove(b: seq<Point>, j: nat, axis: Axis)
    requires j < |b|
    ensures multiset(Coords(b, axis)) == multiset(Coords(b[..j] + b[j + 1..], axis)) + multiset{Coord(b[j], axis)}
  {
    var x := Coord(b[j], axis);
    var cl, cr := Coords(b[..j], axis), Coords(b[j + 1..], axis);
    assert Coords(b, axis) == cl + [x] + cr;
    assert Coords(b[..j] + b[j + 1..], axis) == cl + cr;
    MultisetMiddle(cl, x, cr);
  }

  /** Points with the same multiset have coordinates with the same multiset. */
  lemma {:induction false} CoordsPermutation(a: seq<Point>, b: seq<Point>, axis: Axis)
    requires multiset(a) == multiset(b)
    ensures multiset(Coords(a, axis)) == multiset(Coords(b, axis))
  {
    if a == [] {
      assert |b| == |multiset(b)| == 0;
    } else {
      assert a[0] in multiset(b);
      var j :| 0 <= j < |b| && b[j] == a[0];
      RemoveMatching(a, b, j);
      CoordsPermutation(a[1..], b[..j] + b[j + 1..], axis);
      CoordsCons(a, axis);
      CoordsRemove(b, j, axis);
    }
  }

  /** The centre depends only on which points there are, not on their order. */
  lemma CenterIgnoresOrder(a: seq<Point>, b: seq<Point>)
    requires multiset(a) == multiset(b)
    ensures CenterOf(a) == CenterOf(b)
  {
    assert |a| == |multiset(a)| == |multiset(b)| == |b|;
    if a != [] {
      CoordsPermutation(a, b, X);
      CoordsPermutation(a, b, Y);
      MedianIgnoresOrder(Coords(a, X), Coords(b, X));
      MedianIgnoresOrder(Coords(a, Y), Coords(b, Y));
    }
  }
}
