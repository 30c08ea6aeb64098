/**
 * trilateration2d and the MAC-to-location join of deriveLocation
 * (libLocalization.py). Anchors are keyed by a location label "x,y";
 * each anchor becomes one circle, or a sweep of concentric circles one
 * unit apart when its ranging carries a non-zero uncertainty.
 *
 * `float()` on a label field is the parameter `toFloat`, which returns
 * `None` where Python raises ValueError.
 */
module Trilateration {
  import opened Wrappers
  import opened Text
  import opened Dicts
  import opened Geometry
  import opened Pairs
  import opened Intersections

  /** A distance estimate and its optional uncertainty (the value tuple of the anchor dict). */
  datatype Ranging = Ranging(distance: real, std: Option<real>)

  /** Python truthiness of the uncertainty: present and non-zero. */
  predicate Truthy(std: Option<real>) {
    std.Some? && std.value != 0.0
  }

  /** Python's max of two numbers. */
  function RealMax(a: real, b: real): real {
    if b > a then b else a
  }

  /** The number of values numpy.arange(start, stop, 1) yields: the ceiling of stop - start, or 0. */
  function ARangeLength(start: real, stop: real): (n: nat)
    ensures start + n as real >= stop
    ensures n > 0 ==> start + (n - 1) as real < stop
  {
    if start >= stop then 0
    else
      var f := (stop - start).Floor;
      if f as real == stop - start then f else f + 1
  }

  /**
   * numpy.arange(start, stop, 1): start, start + 1, ... while below `stop`;
   * the stop value itself is excluded.
   */
  function ARange(start: real, stop: real): (r: seq<real>)
    ensures forall i :: 0 <= i < |r| ==> r[i] == start + i as real && r[i] < stop
    ensures start + |r| as real >= stop
  {
    seq(ARangeLength(start, stop), i => start + i as real)
  }

  /** The first radius of a sweep: d - s, but at least 0.001. */
  function SweepStart(rg: Ranging): real
    requires Truthy(rg.std)
  {
    RealMax(rg.distance - rg.std.value, 0.001)
  }

  /** The circles one anchor contributes. */
  function Sweep(p: Point, rg: Ranging): (r: seq<Circle>)
    ensures forall i :: 0 <= i < |r| ==> r[i].center == p
    ensures !Truthy(rg.std) ==> |r| == 1 && r[0].radius == rg.distance
  {
    if Truthy(rg.std) then
      var radii := ARange(SweepStart(rg), rg.distance + rg.std.value);
      seq(|radii|, i requires 0 <= i < |radii| => Circle(p, radii[i]))
    else [Circle(p, rg.distance)]
  }

  /** A falsy uncertainty gives one circle of the ranged distance at the anchor. */
  lemma SweepFalsy(p: Point, rg: Ranging)
    requires !Truthy(rg.std)
    ensures Sweep(p, rg) == [Circle(p, rg.distance)]
  {
  }

  /**
   * Otherwise the radii are start + i for i = 0, 1, ..., all strictly below
   * d + s and as many as fit, with start = max(d - s, 0.001), all centred at
   * the anchor.
   */
  lemma SweepTruthy(p: Point, rg: Ranging)
    requires Truthy(rg.std)
    ensures var cs, start, stop := Sweep(p, rg), SweepStart(rg), rg.distance + rg.std.value;
      && start >= 0.001 && start >= rg.distance - rg.std.value
      && (forall i :: 0 <= i < |cs| ==> cs[i] == Circle(p, start + i as real) && start + i as real < stop)
      && start + |cs| as real >= stop
  {
  }

  /** A distance of 100 with uncertainty 10 sweeps the 20 radii 90, 91, ..., 109. */
  lemma SweepExample(p: Point)
    ensures var cs := Sweep(p, Ranging(100.0, Some(10.0)));
      |cs| == 20 && forall i :: 0 <= i < 20 ==> cs[i] == Circle(p, 90.0 + i as real)
  {
    assert ARangeLength(90.0, 110.0) == 20;
  }

  /** The label has fewer than two comma-separated fields, or a field is not a number. */
  datatype LabelError = MissingCoordinate(name: string) | NotANumber(field: string)

  /** `loc.split(',')` then `Point(tmp[0], tmp[1])`: only the first two fields are read. */
  function ParseLabel(name: string, toFloat: string -> Option<real>): (r: Result<Point, LabelError>)
    ensures var fields := Split(name, ',');
      r.Ok? <==> |fields| >= 2 && toFloat(fields[0]).Some? && toFloat(fields[1]).Some?
    ensures r.Ok? ==> var fields := Split(name, ',');
      toFloat(fields[0]) == Some(r.value.x) && toFloat(fields[1]) == Some(r.value.y)
  {
    var fields := Split(name, ',');
    if |fields| < 2 then Err(MissingCoordinate(name))
    else if toFloat(fields[0]).None? then Err(NotANumber(fields[0]))
    else if toFloat(fields[1]).None? then Err(NotANumber(fields[1]))
    else Ok(Point(toFloat(fields[0]).value, toFloat(fields[1]).value))
  }

  /**
   * A label written as comma-separated fields parses to the point of its
   * first two fields, whatever follows them.
   */
  lemma ParseLabelOfFields(fields: seq<string>, toFloat: string -> Option<real>, x: real, y: real)
    requires |fields| >= 2
    requires forall i :: 0 <= i < |fields| ==> ',' !in fields[i]
    requires toFloat(fields[0]) == Some(x) && toFloat(fields[1]) == Some(y)
    ensures ParseLabel(Join(fields, ','), toFloat) == Ok(Point(x, y))
  {
    SplitJoin(fields, ',');
  }

  /** A label without a comma is rejected. */
  lemma ParseLabelNeedsComma(name: string, toFloat: string -> Option<real>)
    requires ',' !in name
    ensures ParseLabel(name, toFloat) == Err(MissingCoordinate(name))
  {
    SplitNoSeparator(name, ',');
  }

  /** The circles of all anchors, concatenated in dict order; the first bad label is the error. */
  function CirclesOf(anchors: Dict<string, Ranging>, toFloat: string -> Option<real>): Result<seq<Circle>, LabelError> {
    if anchors == [] then Ok([])
    else
      match CirclesOf(anchors[..|anchors| - 1], toFloat)
      case Err(e) => Err(e)
      case Ok(cs) =>
        var (name, rg) := anchors[|anchors| - 1];
        match ParseLabel(name, toFloat)
        case Err(e) => Err(e)
        case Ok(p) => Ok(cs + Sweep(p, rg))
  }

  /** Once a prefix of the anchors fails, all of them fail with the same error. */
  lemma {:induction false} CirclesOfErrorPersists(anchors: Dict<string, Ranging>, j: nat, toFloat: string -> Option<real>)
    requires j <= |anchors|
    requires CirclesOf(anchors[..j], toFloat).Err?
    ensures CirclesOf(anchors, toFloat) == CirclesOf(anchors[..j], toFloat)
    decreases |anchors| - j
  {
    if j < |anchors| {
      assert anchors[..j + 1][..j] == anchors[..j];
      CirclesOfErrorPersists(anchors, j + 1, toFloat);
    } else {
      assert anchors[..j] == anchors;
    }
  }

  /** The position trilateration2d computes for an anchor dict. */
  function Trilaterate(anchors: Dict<string, Ranging>, bounds: Option<Bounds>, sqrt: real -> real,
                       toFloat: string -> Option<real>): Result<Center, LabelError>
  {
    match CirclesOf(anchors, toFloat)
    case Err(e) => Err(e)
    case Ok(cs) =>
      AllPairsValid(cs);
      Ok(CenterOf(KeepWithin(PointsOf(cs, AllPairs(|cs|), sqrt), bounds)))
  }

  /**
   * The circles of one anchor appended in sweep order: one circle per
   * radius of the range when the uncertainty is truthy, else one circle of
   * the ranged distance.
   */
  method AddSweep(circles: seq<Circle>, p: Point, rg: Ranging) returns (circles': seq<Circle>)
    ensures circles' == circles + Sweep(p, rg)
  {
    circles' := circles;
    if Truthy(rg.std) {
      var radii := ARange(RealMax(rg.distance - rg.std.value, 0.001), rg.distance + rg.std.value);
      for m := 0 to |radii|
        invariant circles' == circles + Sweep(p, rg)[..m]
      {
        assert Sweep(p, rg)[..m + 1] == Sweep(p, rg)[..m] + [Circle(p, radii[m])];
        circles' := circles' + [Circle(p, radii[m])];
      }
      assert Sweep(p, rg)[..|radii|] == Sweep(p, rg);
    } else {
      circles' := circles' + [Circle(p, rg.distance)];
    }
  }

  /**
   * The anchor loop of trilateration2d: each anchor's label is split into
   * its coordinates and its ranging swept into circles; a bad label stops
   * the loop with its error.
   */
  method BuildCircles(anchors: Dict<string, Ranging>, toFloat: string -> Option<real>)
    returns (r: Result<seq<Circle>, LabelError>)
    ensures r == CirclesOf(anchors, toFloat)
  {
    var circles: seq<Circle> := [];
    for j := 0 to |anchors|
      invariant CirclesOf(anchors[..j], toFloat) == Ok(circles)
    {
      var (name, rg) := anchors[j];
      assert anchors[..j + 1][..j] == anchors[..j];
      match ParseLabel(name, toFloat)
      case Err(e) =>
        CirclesOfErrorPersists(anchors, j + 1, toFloat);
        return Err(e);
      case Ok(p) =>
        circles := AddSweep(circles, p, rg);
    }
    assert anchors[..|anchors|] == anchors;
    r := Ok(circles);
  }

  /**
   * trilateration2d: builds the circles anchor by anchor, keeps the
   * intersection points within the bounds and returns their per-axis
   * medians, together with the inner points it reports when verbose.
   */
  method Trilateration2d(anchors: Dict<string, Ranging>, bounds: Option<Bounds> := None, sqrt: real -> real,
                         toFloat: string -> Option<real>)
    returns (r: Result<Center, LabelError>, innerPoints: seq<Point>)
    ensures r == Trilaterate(anchors, bounds, sqrt, toFloat)
    ensures r.Ok? ==> (
      && CirclesOf(anchors, toFloat).Ok?
      && var cs := CirclesOf(anchors, toFloat).value;
         ValidPairs(cs, AllPairs(|cs|)) && innerPoints == KeepWithin(PointsOf(cs, AllPairs(|cs|), sqrt), bounds))
  {
    var built := BuildCircles(anchors, toFloat);
    if built.Err? {
      return Err(built.error), [];
    }
    innerPoints := CalcInnerPoints(built.value, bounds, sqrt);
    var center := PolygonCenter(innerPoints);
    r := Ok(center);
  }

  /** No anchors give the NaN centre. */
  lemma EmptyAnchorsGiveNaN(bounds: Option<Bounds>, sqrt: real -> real, toFloat: string -> Option<real>)
    ensures Trilaterate([], bounds, sqrt, toFloat) == Ok(NaN)
  {
    IntersectingPointsFew([], sqrt);
  }

  /** One anchor never gives a position: all its circles share a centre, so no pair intersects. */
  lemma SingleAnchorGivesNaN(name: string, rg: Ranging, bounds: Option<Bounds>, sqrt: real -> real,
                             toFloat: string -> Option<real>)
    requires IsSqrt(sqrt)
    ensures Trilaterate([(name, rg)], bounds, sqrt, toFloat) == Ok(NaN)
         || Trilaterate([(name, rg)], bounds, sqrt, toFloat).Err?
  {
    var anchors := [(name, rg)];
    assert anchors[..0] == [];
    match ParseLabel(name, toFloat)
    case Err(_) =>
    case Ok(p) =>
      var cs := Sweep(p, rg);
      assert CirclesOf(anchors, toFloat) == Ok([] + cs);
      assert [] + cs == cs;
      AllPairsValid(cs);
      if |cs| > 0 {
        ConcentricGiveNoPoints(cs, AllPairs(|cs|), sqrt);
      } else {
        IntersectingPointsFew(cs, sqrt);
      }
  }

  /** The location configured for a MAC, if any (a missing MAC and a missing location are both `None`). */
  function LocationOf(config: map<string, Option<string>>, mac: string): Option<string> {
    if mac in config then config[mac] else None
  }

  /** The anchor dict deriveLocation builds: each located MAC's ranging under its location, later MACs overwriting. */
  function JoinLocations(config: map<string, Option<string>>, results: Dict<string, Ranging>): Dict<string, Ranging> {
    if results == [] then []
    else
      var rest := JoinLocations(config, results[..|results| - 1]);
      var (mac, rg) := results[|results| - 1];
      match LocationOf(config, mac)
      case None => rest
      case Some(loc) => Put(rest, loc, rg)
  }

  /** deriveLocation, without the file append: joins MACs to locations and trilaterates. */
  method DeriveLocation(config: map<string, Option<string>>, results: Dict<string, Ranging>, bounds: Option<Bounds>,
                        sqrt: real -> real, toFloat: string -> Option<real>)
    returns (loc: Result<Center, LabelError>)
    ensures loc == Trilaterate(JoinLocations(config, results), bounds, sqrt, toFloat)
  {
    var locDistance: Dict<string, Ranging> := [];
    for j := 0 to |results|
      invariant locDistance == JoinLocations(config, results[..j])
    {
      var (mac, rg) := results[j];
      assert results[..j + 1][..j] == results[..j];
      if mac !in config {
        continue;
      }
      var location := config[mac];
      if location.None? {
        continue;
      }
      locDistance := Put(locDistance, location.value, rg);
    }
    assert results[..|results|] == results;
    var innerPoints;
    loc, innerPoints := Trilateration2d(locDistance, bounds, sqrt, toFloat);
  }

  /** One more ranged MAC adds its location, if it has one, to the keys of the join. */
  lemma JoinKeysStep(config: map<string, Option<string>>, results: Dict<string, Ranging>, loc: string)
    requires results != []
    ensures loc in Keys(JoinLocations(config, results))
        <==> loc in Keys(JoinLocations(config, results[..|results| - 1]))
             || LocationOf(config, results[|results| - 1].0) == Some(loc)
  {
  }

  /** Some MAC of `results` is configured with `loc`. */
  predicate Located(config: map<string, Option<string>>, results: Dict<string, Ranging>, loc: string) {
    exists j :: 0 <= j < |results| && LocationOf(config, results[j].0) == Some(loc)
  }

  /** Some MAC of `results` is configured with `loc` exactly when one of the first ones or the last one is. */
  lemma LocatedStep(config: map<string, Option<string>>, results: Dict<string, Ranging>, loc: string)
    requires results != []
    ensures Located(config, results, loc)
        <==> Located(config, results[..|results| - 1], loc) || LocationOf(config, results[|results| - 1].0) == Some(loc)
  {
    var init := results[..|results| - 1];
    if exists j :: 0 <= j < |init| && LocationOf(config, init[j].0) == Some(loc) {
      var j :| 0 <= j < |init| && LocationOf(config, init[j].0) == Some(loc);
      assert results[j] == init[j];
    }
    if exists j :: 0 <= j < |results| && LocationOf(config, results[j].0) == Some(loc) {
      var j :| 0 <= j < |results| && LocationOf(config, results[j].0) == Some(loc);
      if j < |init| {
        assert init[j] == results[j];
      }
    }
  }

  /** A location is a key of the join exactly when some ranged MAC is configured with it. */
  lemma {:induction false} JoinKeys(config: map<string, Option<string>>, results: Dict<string, Ranging>, loc: string)
    ensures loc in Keys(JoinLocations(config, results))
        <==> exists j :: 0 <= j < |results| && LocationOf(config, results[j].0) == Some(loc)
  {
    if results != [] {
      JoinKeys(config, results[..|results| - 1], loc);
      JoinKeysStep(config, results, loc);
      LocatedStep(config, results, loc);
    }
  }

  /** The join keeps the ranging of the last MAC configured with each location. */
  lemma {:induction false} JoinLastWins(config: map<string, Option<string>>, results: Dict<string, Ranging>, j: nat)
    requires j < |results|
    requires LocationOf(config, results[j].0).Some?
    requires forall j' :: j < j' < |results| ==>
      LocationOf(config, results[j'].0) != LocationOf(config, results[j].0)
    ensures Get(JoinLocations(config, results), LocationOf(config, results[j].0).value) == Some(results[j].1)
  {
    var loc := LocationOf(config, results[j].0).value;
    var init := results[..|results| - 1];
    var last := results[|results| - 1];
    var rest := JoinLocations(config, init);
    if j == |results| - 1 {
      PutGet(rest, loc, last.1, loc);
    } else {
      assert init[j] == results[j];
      JoinLastWins(config, init, j);
      match LocationOf(config, last.0)
      case None =>
      case Some(l) =>
        PutGet(rest, l, last.1, loc);
    }
  }

  /** The join has unique keys, like the Python dict it models. */
  lemma {:induction false} JoinUniqueKeys(config: map<string, Option<string>>, results: Dict<string, Ranging>)
    ensures UniqueKeys(JoinLocations(config, results))
  {
    if results != [] {
      var init := results[..|results| - 1];
      JoinUniqueKeys(config, init);
      var last := results[|results| - 1];
      match LocationOf(config, last.0)
      case None =>
      case Some(l) =>
        PutUnique(JoinLocations(config, init), l, last.1);
    }
  }
}
