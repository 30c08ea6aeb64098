/**
 * Coordinate primitives and the intersection of two circles
 * (libLocalization.py: Point, Circle, get_distance,
 * get_two_circles_intersecting_points).
 *
 * Coordinates are exact reals. `math.sqrt` is the parameter `sqrt`; the
 * lemmas that need it to be a square root say so with `IsSqrt(sqrt)`.
 * The 6-decimal rounding done by the Point and Circle constructors is the
 * identity here.
 */
module Geometry {
  import opened Wrappers

  datatype Point = Point(x: real, y: real)

  /** A circle; its radius is taken as given, never clamped. */
  datatype Circle = Circle(center: Point, radius: real)

  /** The product of two reals, kept as a named term so that facts about it can be reused. */
  function Mul(u: real, v: real): real {
    u * v
  }

  /** The square of a real (`pow(v, 2)` and `v * v` in the source). */
  function Sq(v: real): real {
    Mul(v, v)
  }

  /** `sqrt` returns the non-negative square root of every non-negative real. */
  ghost predicate IsSqrt(sqrt: real -> real) {
    forall v :: 0.0 <= v ==> 0.0 <= sqrt(v) && Sq(sqrt(v)) == v
  }

  function Abs(v: real): real {
    if v < 0.0 then -v else v
  }

  /** The squared Euclidean distance between two points. */
  function SqDist(p: Point, q: Point): (r: real)
    ensures 0.0 <= r
  {
    SqNonNegative(p.x - q.x);
    SqNonNegative(p.y - q.y);
    Sq(p.x - q.x) + Sq(p.y - q.y)
  }

  /** The squared distance is symmetric and positive between distinct points. */
  lemma SqDistPositive(p: Point, q: Point)
    ensures SqDist(p, q) == SqDist(q, p)
    ensures p != q ==> 0.0 < SqDist(p, q)
  {
    SqNegate(p.x - q.x);
    SqNegate(p.y - q.y);
    SqNonNegative(p.x - q.x);
    SqNonNegative(p.y - q.y);
    if p.x != q.x {
      SqPositive(p.x - q.x);
    } else if p.y != q.y {
      SqPositive(p.y - q.y);
    }
  }

  /** get_distance on two points. */
  function Distance(p: Point, q: Point, sqrt: real -> real): (r: real)
    ensures IsSqrt(sqrt) ==> 0.0 <= r && Sq(r) == SqDist(p, q)
  {
    sqrt(SqDist(p, q))
  }

  lemma SqrtFacts(sqrt: real -> real, v: real)
    requires IsSqrt(sqrt)
    requires 0.0 <= v
    ensures 0.0 <= sqrt(v) && Sq(sqrt(v)) == v
  {
  }

  /** A square root is determined by its value: the non-negative `r` with `r * r == v`. */
  lemma SqrtUnique(sqrt: real -> real, v: real, r: real)
    requires IsSqrt(sqrt)
    requires 0.0 <= r && Sq(r) == v
    ensures sqrt(v) == r
  {
    var s := sqrt(v);
    assert 0.0 <= s && Sq(s) == v;
    DifferenceOfSquares(s, r);
    if s != r {
      NonZeroProduct(s - r, s + r);
    }
  }

  /** get_distance is the Euclidean distance: non-negative, its square is SqDist, symmetric. */
  lemma DistanceIsEuclidean(p: Point, q: Point, sqrt: real -> real)
    requires IsSqrt(sqrt)
    ensures 0.0 <= Distance(p, q, sqrt)
    ensures Sq(Distance(p, q, sqrt)) == SqDist(p, q)
    ensures Distance(p, q, sqrt) == Distance(q, p, sqrt)
  {
    SqDistPositive(p, q);
    SqrtFacts(sqrt, SqDist(p, q));
  }

  /** The distance is zero exactly between equal points. */
  lemma DistanceZeroIffEqual(p: Point, q: Point, sqrt: real -> real)
    requires IsSqrt(sqrt)
    ensures p == q ==> Distance(p, q, sqrt) == 0.0
    ensures p != q ==> 0.0 < Distance(p, q, sqrt)
  {
    SqDistPositive(p, q);
    SqrtFacts(sqrt, SqDist(p, q));
    SqZero();
    if p == q {
      SqrtUnique(sqrt, 0.0, 0.0);
    }
  }

  /**
   * The pair is rejected: the circles are apart or externally tangent
   * (d >= r1 + r2), or one lies inside the other or they are concentric
   * (d <= |r1 - r2|).
   */
  predicate Rejected(d: real, r1: real, r2: real) {
    d >= r1 + r2 || d <= Abs(r1 - r2)
  }

  /** The signed distance from the first centre to the chord through both intersection points. */
  function ChordOffset(d: real, r1: real, r2: real): real
    requires d != 0.0
  {
    (Sq(r1) - Sq(r2) + Sq(d)) / (2.0 * d)
  }

  /** The square of the half chord, `r1^2 - a^2`, whose root is `h`. */
  function HalfChordSq(d: real, r1: real, r2: real): real
    requires d != 0.0
  {
    Sq(r1) - Sq(ChordOffset(d, r1, r2))
  }

  /**
   * get_two_circles_intersecting_points: `None` for a rejected pair, otherwise
   * the two points `(x0 + rx, y0 - ry)` and `(x0 - rx, y0 + ry)`.
   */
  function TwoCirclesIntersection(c1: Circle, c2: Circle, sqrt: real -> real): (r: Option<seq<Point>>)
    ensures r.None? <==> Rejected(Distance(c1.center, c2.center, sqrt), c1.radius, c2.radius)
    ensures r.Some? ==> |r.value| == 2
  {
    var p1, p2 := c1.center, c2.center;
    var r1, r2 := c1.radius, c2.radius;
    var d := Distance(p1, p2, sqrt);
    if d >= r1 + r2 || d <= Abs(r1 - r2) then None
    else
      var a := ChordOffset(d, r1, r2);
      var h := sqrt(HalfChordSq(d, r1, r2));
      Some(ChordPoints(p1, p2, d, a, h))
  }

  /**
   * The two points at distance `h` on either side of the base point
   * (x0, y0), which lies `a` along the line of centres from `p1`.
   */
  function ChordPoints(p1: Point, p2: Point, d: real, a: real, h: real): seq<Point>
    requires d != 0.0
  {
    var x0 := p1.x + a * (p2.x - p1.x) / d;
    var y0 := p1.y + a * (p2.y - p1.y) / d;
    var rx := -(p2.y - p1.y) * (h / d);
    var ry := -(p2.x - p1.x) * (h / d);
    [Point(x0 + rx, y0 - ry), Point(x0 - rx, y0 + ry)]
  }

  /**
   * When a pair is not rejected, both radii are positive, the centre
   * distance is positive (so the divisions by d are defined) and the
   * argument of the square root is positive.
   */
  lemma AcceptedPairIsProper(d: real, r1: real, r2: real)
    requires !Rejected(d, r1, r2)
    ensures 0.0 < d && 0.0 < r1 && 0.0 < r2
    ensures HalfChordSq(d, r1, r2) > 0.0
  {
    var a := ChordOffset(d, r1, r2);
    var n := Sq(r1) - Sq(r2) + Sq(d);
    assert n == 2.0 * d * a;
    var k1, k2, k3, k4 := r2 - d + r1, r2 + d - r1, d + r1 - r2, d + r1 + r2;
    var f := 2.0 * d * r1 - n;
    var g := 2.0 * d * r1 + n;
    assert f == Mul(k1, k2) by {
      DifferenceOfSquares(r2, d - r1);
      SqExpand(d, -r1);
      SqNegate(r1);
    }
    assert g == Mul(k3, k4) by {
      DifferenceOfSquares(d + r1, r2);
      SqExpand(d, r1);
    }
    MulPositive(k1, k2);
    MulPositive(k3, k4);
    MulPositive(f, g);
    HalfChordFromProduct(d, r1, a, n);
  }

  /** (2 d r1 - n)(2 d r1 + n) = 4 d^2 (r1^2 - a^2) when n = 2 d a, so a positive product makes r1^2 - a^2 positive. */
  lemma HalfChordFromProduct(d: real, r1: real, a: real, n: real)
    requires d != 0.0 && n == 2.0 * d * a
    requires 0.0 < Mul(2.0 * d * r1 - n, 2.0 * d * r1 + n)
    ensures 0.0 < Sq(r1) - Sq(a)
  {
    DifferenceOfSquares(2.0 * d * r1, n);
    assert Sq(n) == Sq(2.0 * d * a);
    ScaledSquares(2.0 * d, r1, a);
    SqPositive(2.0 * d);
    PositiveFactor(Sq(2.0 * d), Sq(r1) - Sq(a));
  }

  /** (k x)^2 - (k y)^2 = k^2 (x^2 - y^2). */
  lemma ScaledSquares(k: real, x: real, y: real)
    ensures Sq(k * x) - Sq(k * y) == Mul(Sq(k), Sq(x) - Sq(y))
  {
  }

  lemma SqZero()
    ensures Sq(0.0) == 0.0
  {
  }

  lemma SqNegate(v: real)
    ensures Sq(-v) == Sq(v)
  {
  }

  /** (u + v)^2 = u^2 + 2 u v + v^2. */
  lemma SqExpand(u: real, v: real)
    ensures Sq(u + v) == Sq(u) + 2.0 * u * v + Sq(v)
  {
  }

  lemma DifferenceOfSquares(u: real, v: real)
    ensures Mul(u - v, u + v) == Sq(u) - Sq(v)
  {
  }

  lemma MulPositive(u: real, v: real)
    requires 0.0 < u && 0.0 < v
    ensures 0.0 < Mul(u, v)
  {
  }

  lemma MulOfNegatives(u: real, v: real)
    requires u < 0.0 && v < 0.0
    ensures 0.0 < Mul(u, v)
  {
  }

  lemma NonZeroProduct(u: real, v: real)
    requires u != 0.0 && v != 0.0
    ensures Mul(u, v) != 0.0
  {
  }

  lemma SqPositive(v: real)
    requires v != 0.0
    ensures 0.0 < Sq(v)
  {
    if 0.0 < v {
      MulPositive(v, v);
    } else {
      MulOfNegatives(v, v);
    }
  }

  lemma SqNonNegative(v: real)
    ensures 0.0 <= Sq(v)
  {
    if v != 0.0 {
      SqPositive(v);
    }
  }

  lemma PositiveFactor(k: real, z: real)
    requires 0.0 < k && 0.0 < Mul(k, z)
    ensures 0.0 < z
  {
  }

  /** Rotating and scaling the vector (dx, dy) by (u, w) scales its squared length by u^2 + w^2. */
  lemma RotatedNorm(u: real, w: real, dx: real, dy: real)
    ensures Sq(u * dx - w * dy) + Sq(u * dy + w * dx) == Mul(Sq(u) + Sq(w), Sq(dx) + Sq(dy))
  {
  }

  /** Scaling the pair (u, w) by d scales u^2 + w^2 by d^2. */
  lemma ScaledNorm(u: real, w: real, d: real)
    ensures Mul(Sq(u) + Sq(w), Sq(d)) == Sq(u * d) + Sq(w * d)
  {
  }

  /**
   * With u = a / d and w = h / d, where a and h are the chord offset and the
   * half chord, u^2 + w^2 and (u - 1)^2 + w^2 scale d^2 to r1^2 and r2^2.
   */
  lemma ChordScales(d: real, a: real, h: real, r1: real, r2: real, u: real, w: real)
    requires Sq(h) == Sq(r1) - Sq(a)
    requires 2.0 * a * d == Sq(r1) - Sq(r2) + Sq(d)
    requires u * d == a && w * d == h
    ensures Mul(Sq(u) + Sq(w), Sq(d)) == Sq(r1)
    ensures Mul(Sq(u - 1.0) + Sq(w), Sq(d)) == Sq(r2)
  {
    ScaledNorm(u, w, d);
    ScaledNorm(u - 1.0, w, d);
    assert (u - 1.0) * d == a - d;
    SqExpand(a, -d);
    SqNegate(d);
  }

  lemma ScaledQuotient(a: real, b: real, d: real)
    requires d != 0.0
    ensures a * b / d == (a / d) * b
  {
  }

  /**
   * The chord points as offsets from `p1`, with u = a / d and w = h / d:
   * the first is turned by +w, the second by -w.
   */
  lemma ChordPointOffsets(p1: Point, p2: Point, d: real, a: real, h: real)
    requires d != 0.0
    ensures var ps := ChordPoints(p1, p2, d, a, h);
      var u, w := a / d, h / d;
      var dx, dy := p2.x - p1.x, p2.y - p1.y;
      && ps[0] == Turned(p1, dx, dy, u, w)
      && ps[1] == Turned(p1, dx, dy, u, -w)
  {
    var u, w := a / d, h / d;
    var dx, dy := p2.x - p1.x, p2.y - p1.y;
    var ps := ChordPoints(p1, p2, d, a, h);
    ScaledQuotient(a, dx, d);
    ScaledQuotient(a, dy, d);
    var x0, y0 := p1.x + u * dx, p1.y + u * dy;
    assert ps[0] == Point(x0 - w * dy, y0 + w * dx);
    assert ps[1] == Point(x0 + w * dy, y0 - w * dx);
    NegatedFactor(w, dx);
    NegatedFactor(w, dy);
    assert Turned(p1, dx, dy, u, w) == Point(x0 - w * dy, y0 + w * dx);
    assert Turned(p1, dx, dy, u, -w) == Point(x0 + w * dy, y0 - w * dx);
  }

  /** The same offsets seen from `p2`, with the scale (u - 1) along the line of centres. */
  lemma ChordPointOffsetsFromSecond(p1: Point, p2: Point, d: real, a: real, h: real)
    requires d != 0.0
    ensures var ps := ChordPoints(p1, p2, d, a, h);
      var v, w := a / d - 1.0, h / d;
      var dx, dy := p2.x - p1.x, p2.y - p1.y;
      && ps[0] == Turned(p2, dx, dy, v, w)
      && ps[1] == Turned(p2, dx, dy, v, -w)
  {
    var u, w := a / d, h / d;
    var dx, dy := p2.x - p1.x, p2.y - p1.y;
    ChordPointOffsets(p1, p2, d, a, h);
    ShiftedFactor(u, dx);
    ShiftedFactor(u, dy);
    NegatedFactor(w, dx);
    NegatedFactor(w, dy);
  }

  lemma NegatedFactor(w: real, v: real)
    ensures (-w) * v == -(w * v)
  {
  }

  lemma ShiftedFactor(u: real, v: real)
    ensures (u - 1.0) * v == u * v - v
  {
  }

  /** The point `c + (u dx - w dy, u dy + w dx)`: (dx, dy) turned and scaled by (u, w), placed at `c`. */
  function Turned(c: Point, dx: real, dy: real, u: real, w: real): Point {
    Point(c.x + (u * dx - w * dy), c.y + (u * dy + w * dx))
  }

  /**
   * Turning and scaling a vector of length d by (u, w) with (u^2 + w^2) d^2 = r^2
   * lands on the circle of radius r around the starting point.
   */
  lemma TurnedOnCircle(c: Point, dx: real, dy: real, d: real, u: real, w: real, r: real)
    requires Sq(d) == Sq(dx) + Sq(dy)
    requires Mul(Sq(u) + Sq(w), Sq(d)) == Sq(r)
    ensures SqDist(Turned(c, dx, dy, u, w), c) == Sq(r)
  {
    var q := Turned(c, dx, dy, u, w);
    RotatedNorm(u, w, dx, dy);
    assert q.x - c.x == u * dx - w * dy;
    assert q.y - c.y == u * dy + w * dx;
  }

  /**
   * With d the centre distance, a the chord offset and h the half chord,
   * both chord points lie on both circles.
   */
  lemma ChordPointsOnCircles(p1: Point, p2: Point, d: real, a: real, h: real, r1: real, r2: real)
    requires 0.0 < d && Sq(d) == SqDist(p2, p1)
    requires Sq(h) == Sq(r1) - Sq(a)
    requires 2.0 * a * d == Sq(r1) - Sq(r2) + Sq(d)
    ensures var ps := ChordPoints(p1, p2, d, a, h);
      && SqDist(ps[0], p1) == Sq(r1) && SqDist(ps[1], p1) == Sq(r1)
      && SqDist(ps[0], p2) == Sq(r2) && SqDist(ps[1], p2) == Sq(r2)
  {
    var u, w := a / d, h / d;
    var dx, dy := p2.x - p1.x, p2.y - p1.y;
    assert u * d == a && w * d == h;
    assert Sq(d) == Sq(dx) + Sq(dy);
    ChordScales(d, a, h, r1, r2, u, w);
    ChordPointsOnFirst(p1, p2, d, a, h, r1);
    ChordPointsOnSecond(p1, p2, d, a, h, r2);
  }

  /** Both chord points lie on the first circle when the scale (u, w) maps d^2 to r1^2. */
  lemma ChordPointsOnFirst(p1: Point, p2: Point, d: real, a: real, h: real, r1: real)
    requires 0.0 < d && Sq(d) == Sq(p2.x - p1.x) + Sq(p2.y - p1.y)
    requires Mul(Sq(a / d) + Sq(h / d), Sq(d)) == Sq(r1)
    ensures var ps := ChordPoints(p1, p2, d, a, h);
      SqDist(ps[0], p1) == Sq(r1) && SqDist(ps[1], p1) == Sq(r1)
  {
    var u, w := a / d, h / d;
    var dx, dy := p2.x - p1.x, p2.y - p1.y;
    ChordPointOffsets(p1, p2, d, a, h);
    TurnedOnCircle(p1, dx, dy, d, u, w, r1);
    SqNegate(w);
    TurnedOnCircle(p1, dx, dy, d, u, -w, r1);
  }

  /** Both chord points lie on the second circle when the scale (u - 1, w) maps d^2 to r2^2. */
  lemma ChordPointsOnSecond(p1: Point, p2: Point, d: real, a: real, h: real, r2: real)
    requires 0.0 < d && Sq(d) == Sq(p2.x - p1.x) + Sq(p2.y - p1.y)
    requires Mul(Sq(a / d - 1.0) + Sq(h / d), Sq(d)) == Sq(r2)
    ensures var ps := ChordPoints(p1, p2, d, a, h);
      SqDist(ps[0], p2) == Sq(r2) && SqDist(ps[1], p2) == Sq(r2)
  {
    var v, w := a / d - 1.0, h / d;
    var dx, dy := p2.x - p1.x, p2.y - p1.y;
    ChordPointOffsetsFromSecond(p1, p2, d, a, h);
    TurnedOnCircle(p2, dx, dy, d, v, w, r2);
    SqNegate(w);
    TurnedOnCircle(p2, dx, dy, d, v, -w, r2);
  }

  /** For a positive half chord and distinct centres the two chord points differ. */
  lemma ChordPointsDistinct(p1: Point, p2: Point, d: real, a: real, h: real)
    requires 0.0 < d && 0.0 < h && p1 != p2
    ensures var ps := ChordPoints(p1, p2, d, a, h); ps[0] != ps[1]
  {
    var ps := ChordPoints(p1, p2, d, a, h);
    var w := h / d;
    var dx, dy := p2.x - p1.x, p2.y - p1.y;
    ChordPointOffsets(p1, p2, d, a, h);
    assert 0.0 < w;
    // the points differ by 2 w (-dy, dx)
    if dx != 0.0 {
      NonZeroProduct(w, dx);
      assert ps[0].y != ps[1].y;
    } else {
      NonZeroProduct(w, dy);
      assert ps[0].x != ps[1].x;
    }
  }

  /**
   * In exact arithmetic both points of an accepted pair lie on both
   * circles and they are distinct.
   */
  lemma IntersectionOnBothCircles(c1: Circle, c2: Circle, sqrt: real -> real)
    requires IsSqrt(sqrt)
    requires TwoCirclesIntersection(c1, c2, sqrt).Some?
    ensures var ps := TwoCirclesIntersection(c1, c2, sqrt).value;
      && ps[0] != ps[1]
      && forall i :: 0 <= i < 2 ==>
           && Distance(ps[i], c1.center, sqrt) == c1.radius
           && Distance(ps[i], c2.center, sqrt) == c2.radius
  {
    var ps := TwoCirclesIntersection(c1, c2, sqrt).value;
    var p1, p2 := c1.center, c2.center;
    var r1, r2 := c1.radius, c2.radius;
    var d := Distance(p1, p2, sqrt);
    AcceptedPairIsProper(d, r1, r2);
    var a := ChordOffset(d, r1, r2);
    var h := sqrt(HalfChordSq(d, r1, r2));
    assert ps == ChordPoints(p1, p2, d, a, h);
    SqrtFacts(sqrt, HalfChordSq(d, r1, r2));
    assert 0.0 < h by {
      SqZero();
    }
    DistanceIsEuclidean(p2, p1, sqrt);
    DistanceZeroIffEqual(p1, p2, sqrt);
    ChordPointsOnCircles(p1, p2, d, a, h, r1, r2);
    ChordPointsDistinct(p1, p2, d, a, h);
    forall i | 0 <= i < 2
      ensures Distance(ps[i], p1, sqrt) == r1 && Distance(ps[i], p2, sqrt) == r2
    {
      SqrtUnique(sqrt, SqDist(ps[i], p1), r1);
      SqrtUnique(sqrt, SqDist(ps[i], p2), r2);
    }
  }

  function Midpoint(p: Point, q: Point): Point {
    Point((p.x + q.x) / 2.0, (p.y + q.y) / 2.0)
  }

  /** The base point (x0, y0): `a` along the line of centres from `p1`, at centre distance `d`. */
  function BasePoint(p1: Point, p2: Point, d: real, a: real): Point
    requires d != 0.0
  {
    Point(p1.x + a * (p2.x - p1.x) / d, p1.y + a * (p2.y - p1.y) / d)
  }

  /** The midpoint of the two points of an accepted pair is the base point (x0, y0) on the line of centres. */
  lemma IntersectionMidpoint(c1: Circle, c2: Circle, sqrt: real -> real)
    requires TwoCirclesIntersection(c1, c2, sqrt).Some?
    ensures Distance(c1.center, c2.center, sqrt) != 0.0
    ensures var ps := TwoCirclesIntersection(c1, c2, sqrt).value;
      var d := Distance(c1.center, c2.center, sqrt);
      Midpoint(ps[0], ps[1]) == BasePoint(c1.center, c2.center, d, ChordOffset(d, c1.radius, c2.radius))
    ensures IsSqrt(sqrt) ==>
      var d := Distance(c1.center, c2.center, sqrt);
      var a := ChordOffset(d, c1.radius, c2.radius);
      SqDist(BasePoint(c1.center, c2.center, d, a), c1.center) == Sq(a)
  {
    var p1, p2 := c1.center, c2.center;
    var d := Distance(p1, p2, sqrt);
    AcceptedPairIsProper(d, c1.radius, c2.radius);
    var a := ChordOffset(d, c1.radius, c2.radius);
    var h := sqrt(HalfChordSq(d, c1.radius, c2.radius));
    assert TwoCirclesIntersection(c1, c2, sqrt).value == ChordPoints(p1, p2, d, a, h);
    ChordMidpoint(p1, p2, d, a, h);
    if IsSqrt(sqrt) {
      DistanceIsEuclidean(p1, p2, sqrt);
      BasePointDistance(p1, p2, d, a);
    }
  }

  /** With d the distance between the centres, the base point lies at distance |a| from the first centre. */
  lemma BasePointDistance(p1: Point, p2: Point, d: real, a: real)
    requires d != 0.0 && Sq(d) == SqDist(p1, p2)
    ensures SqDist(BasePoint(p1, p2, d, a), p1) == Sq(a)
  {
    var t := a / d;
    var u, w := p2.x - p1.x, p2.y - p1.y;
    var b := BasePoint(p1, p2, d, a);
    ScaledOffset(p1.x, u, a, d);
    ScaledOffset(p1.y, w, a, d);
    assert b.x - p1.x == u * t;
    assert b.y - p1.y == w * t;
    assert SqDist(b, p1) == Sq(b.x - p1.x) + Sq(b.y - p1.y);
    SqNegate(p1.x - p2.x);
    SqNegate(p1.y - p2.y);
    ScaledNorm(u, w, t);
    ScaledNorm(d, 0.0, t);
    SqZero();
    assert d * t == a;
  }

  /** x + a u / d is x moved by u scaled by a / d. */
  lemma ScaledOffset(x: real, u: real, a: real, d: real)
    requires d != 0.0
    ensures (x + a * u / d) - x == u * (a / d)
  {
  }

  /** The two chord points are symmetric about the base point (x0, y0). */
  lemma ChordMidpoint(p1: Point, p2: Point, d: real, a: real, h: real)
    requires d != 0.0
    ensures var ps := ChordPoints(p1, p2, d, a, h);
      Midpoint(ps[0], ps[1]) == BasePoint(p1, p2, d, a)
  {
  }

  /** Circles with one centre never intersect: the pair is always rejected. */
  lemma ConcentricRejected(c1: Circle, c2: Circle, sqrt: real -> real)
    requires IsSqrt(sqrt)
    requires c1.center == c2.center
    ensures TwoCirclesIntersection(c1, c2, sqrt).None?
  {
    DistanceZeroIffEqual(c1.center, c2.center, sqrt);
  }
}
