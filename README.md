# FTM multilateration, modelled in Dafny

This project models the core of a Wi-Fi Fine Timing Measurement (FTM)
ranging and multilateration tool in Dafny, and proves properties of that
model.

The localization engine comes from `libLocalization.py`:
- Every anchor has a location label `"x,y"` and a ranged distance with an
  optional uncertainty.
- Each anchor becomes one circle, or a sweep of concentric circles one
  unit apart when its uncertainty is truthy.
- All pairs of circles are intersected.
- The intersection points that fall within the optional bounds are kept.
- The position estimate is the per-axis median of the kept points, or
  NaN when no point is kept.

The measurement side comes from `libMeasurement.py`:
- the per-record accept-and-calibrate loop of `get_distance_once`;
- the per-MAC grouping and median of `get_distance_median`;
- the FTM request file written by `prepare_config_file`.

Modules:

- `Geometry`: points, circles, the distance and the two-circle
  intersection. Coordinates are exact reals.
- `Pairs`: the index pairs visited by the nested loop of
  `get_intersecting_points`.
- `Intersections`:
  - `get_intersecting_points`, `is_contained_in_circles`,
    `calcInnerPoints` and `get_polygon_center`;
  - each one is a method with the source's loop, proved against a
    specification function.
- `Trilateration`: `trilateration2d` and the MAC-to-location join of
  `deriveLocation`.
- `Measurement`: a `Measurement` class, whose fields are the calibration
  and the request file it last wrote. Its methods are `PrepareConfigFile`,
  `GetDistanceOnce` and `GetDistanceMedian`.
- Support modules:
  - `Stats` is numpy's median: sort, then the middle value or the mean of
    the two middle values;
  - `Dicts` is Python's `dict` as a list of entries, iterated in insertion
    order (see "## Left out");
  - `Text` is `str.split`, `join` and decimal formatting;
  - `Seqs` holds small sequence facts;
  - `Wrappers` holds `Option` and `Result`.

Some things outside the core become parameters:
- `math.sqrt` is the parameter `sqrt`. Lemmas that need it to be a square
  root require `IsSqrt(sqrt)`.
- `float()` of a label field is the parameter `toFloat`. It returns `None`
  where Python raises `ValueError`.
- The output of `iw`, already matched by the regular expression, is a
  sequence of `Match` values for one round, or a function from the round
  number to those sequences.

`numpy.arange` excludes its stop value. So distance 100 with uncertainty 10
gives 20 circles, radii 90 to 109 (`Trilateration.SweepExample`).

## Model

| member | source | states |
|---|---|---|
| Geometry.SqDistPositive | libLocalization.py:36-39 | The squared distance is symmetric, and it is positive between distinct points. |
| Geometry.Distance | libLocalization.py:34-39 | get_distance: with a true square root the result is non-negative and its square is the squared distance. Symmetry and the zero case are stated in DistanceIsEuclidean and DistanceZeroIffEqual. |
| Geometry.DistanceIsEuclidean | libLocalization.py:34-39 | get_distance on two points is non-negative and symmetric, and its square is the sum of the squared coordinate differences. |
| Geometry.DistanceZeroIffEqual | libLocalization.py:34-39 | The distance is zero for equal points and positive for distinct ones. |
| Geometry.TwoCirclesIntersection | libLocalization.py:75-95 | The result is None exactly when d >= r1 + r2 or d <= abs(r1 - r2) (both directions). Otherwise it is a list of exactly two points. |
| Geometry.AcceptedPairIsProper | libLocalization.py:83-87 | For a pair that is not rejected, d, r1 and r2 are positive and r1^2 - a^2 is positive. So the divisions by d and the square root for h are always defined. |
| Geometry.ChordPointsOnCircles | libLocalization.py:86-95 | With a = (r1^2 - r2^2 + d^2) / 2d and h^2 = r1^2 - a^2, both returned points are at squared distance r1^2 from the first centre and r2^2 from the second. |
| Geometry.ChordPointsDistinct | libLocalization.py:88-95 | For distinct centres and a positive h, the two returned points differ. |
| Geometry.IntersectionOnBothCircles | libLocalization.py:75-95 | Both points of an accepted pair lie on both circles (distance r1 from c1, r2 from c2), and the two points are distinct. |
| Geometry.ChordMidpoint | libLocalization.py:88-95 | The two points are symmetric about the base point (x0, y0). |
| Geometry.IntersectionMidpoint | libLocalization.py:81-95 | For an accepted pair, d is not zero, and the midpoint of the two points is the source's (x0, y0). With a true square root, (x0, y0) is at squared distance a^2 from the first centre (BasePointDistance). |
| Geometry.BasePointDistance | libLocalization.py:88-89 | When d is the distance between the centres, the base point (x0, y0) is at squared distance a^2 from the first centre. |
| Geometry.ConcentricRejected | libLocalization.py:81-84 | Two circles with the same centre are always rejected. |
| Pairs.RowShape | libLocalization.py:102-103 | The inner loop of row i visits (i, i + 1), ..., (i, n - 1) in that order, and nothing when i + 1 >= n. |
| Pairs.PairsBeforeBounds | libLocalization.py:101-103 | Every pair visited before row i has first index below i and below its second index, which is below n. |
| Pairs.RowMembership | libLocalization.py:102-103 | Row j visits exactly the pairs (j, k) with j < k < n. |
| Pairs.PairsBeforeOnly | libLocalization.py:101-103 | A pair visited before row m has i < m and i < k < n. |
| Pairs.PairsBeforeHas | libLocalization.py:101-103 | Every pair (i, k) with i < m and i < k < n is visited before row m. |
| Pairs.PairsBeforeMembership | libLocalization.py:101-103 | The rows before m visit exactly the pairs with i < m and i < k < n. |
| Pairs.AllPairsMembership | libLocalization.py:101-103 | The nested loop visits exactly the pairs i < k < n. |
| Pairs.OrderedAppend | libLocalization.py:101-103 | Two ordered runs stay ordered when every first index of the first run is below those of the second. |
| Pairs.PairsBeforeOrdered | libLocalization.py:101-103 | The pairs visited before row m are in strictly increasing lexicographic order. |
| Pairs.AllPairsOrdered | libLocalization.py:101-103 | All visited pairs are in strictly increasing lexicographic order, so no pair is visited twice. |
| Pairs.AllPairsFew | libLocalization.py:100-103 | Fewer than two circles give no pair. |
| Intersections.Qualifying | libLocalization.py:104-106 | A pair is listed exactly when it is one of the given pairs and is not rejected. |
| Intersections.QualifyingAppend | libLocalization.py:101-106 | The accepted pairs of a concatenation are those of each part, in order, so they keep the loop order. |
| Intersections.AllPairsValid | libLocalization.py:101-104 | Every visited pair indexes two existing circles. |
| Intersections.IntersectRow | libLocalization.py:102-106 | The inner loop for row i appends the outputs of pairs (i, i + 1), ..., (i, n - 1) to the points, in order. |
| Intersections.IntersectingPoints | libLocalization.py:98-107 | get_intersecting_points returns the outputs of all pairs i < k in loop order: two points per accepted pair, nothing for a rejected one. |
| Intersections.PointsOfAppend | libLocalization.py:98-107 | The output of a run of pairs is the output of its first part followed by that of its second. |
| Intersections.PointsOfLayout | libLocalization.py:104-106 | The output holds exactly two points per accepted pair. Positions 2j and 2j + 1 are the points of the j-th accepted pair, and duplicates are kept. |
| Intersections.IntersectingPointsFew | libLocalization.py:98-107 | Fewer than two circles give no points. |
| Intersections.ConcentricGiveNoPoints | libLocalization.py:98-107 | Circles that all share one centre give no points. |
| Intersections.IsContainedInCircles | libLocalization.py:110-116 | is_contained_in_circles returns true exactly when the point is within the radius of every circle. |
| Intersections.IntersectionContained | libLocalization.py:110-116 | Each point of an accepted pair is contained in both circles of the pair. |
| Intersections.KeepWithinStep | libLocalization.py:137-149 | Filtering one more point appends it exactly when it meets the bounds. |
| Intersections.CalcInnerPoints | libLocalization.py:135-150 | calcInnerPoints returns the intersection points that meet every present limit, in their original order. |
| Intersections.KeepWithinMembers | libLocalization.py:140-149 | A point is kept exactly when it is one of the points and meets the bounds. |
| Intersections.KeepWithinAppend | libLocalization.py:137-149 | Filtering works piecewise, so kept points keep their relative order. |
| Intersections.KeepWithinNoBounds | libLocalization.py:140 | Without bounds, every point is kept. |
| Intersections.PolygonCenter | libLocalization.py:119-131 | get_polygon_center returns NaN for no points. Otherwise it returns the median of the x values and the median of the y values. |
| Intersections.CenterInRange | libLocalization.py:119-131 | The centre is NaN exactly for no points. Otherwise each coordinate lies between the least and the greatest value on its axis. |
| Intersections.CoordsPermutation | libLocalization.py:126-128 | Points with the same multiset have coordinate lists with the same multiset. |
| Intersections.CenterIgnoresOrder | libLocalization.py:119-131 | The centre depends only on which points there are, not on their order. |
| Stats.Sort | libLocalization.py:129-130 | The median's sort gives a sorted permutation of its input. |
| Stats.MedianBetweenMinAndMax | libLocalization.py:129-130 | The median lies between the least and the greatest value. |
| Stats.MedianIgnoresOrder | libLocalization.py:129-130 | The median depends only on the multiset of values. |
| Stats.OddMedianIsAValue | libLocalization.py:129-130 | The median of an odd number of values is one of them. |
| Dicts.Get | libMeasurement.py:144-146 | Lookup is None exactly for a missing key. Otherwise it returns the value of an entry with that key. |
| Dicts.GetAt | libMeasurement.py:147-148 | In a dict with unique keys, the entry at each position is what lookup finds. |
| Dicts.Put | libLocalization.py:198 | Assigning to a present key keeps the key order, and a new key goes last (the insertion order the model takes for dicts). |
| Dicts.PutGet | libLocalization.py:198 | After d[k] = v, k maps to v and every other key keeps its value. |
| Dicts.PutUnique | libLocalization.py:198 | Assignment keeps the keys unique. |
| Dicts.PutPut | libMeasurement.py:144-146 | Assigning twice to one key leaves only the second value. |
| Dicts.GetSnoc | libMeasurement.py:147-148 | Lookup in a dict whose last entry has a new key finds that entry for its key and the earlier value for any other. |
| Text.Split | libLocalization.py:166 | str.split gives at least one piece, and no piece contains the separator. |
| Text.JoinSplit | libLocalization.py:166 | Joining the pieces of a split with the separator gives back the string. |
| Text.SplitJoin | libLocalization.py:166 | Splitting a join of separator-free pieces gives back the pieces. |
| Text.SplitNoSeparator | libLocalization.py:166 | A string without the separator splits into itself alone. |
| Text.NatToString | libMeasurement.py:85-91 | The decimal text of a number is non-empty, all digits, and starts with 0 only for zero. |
| Text.ParseNatToString | libMeasurement.py:85-91 | Reading back the decimal text of n gives n. |
| Trilateration.ARangeLength | libLocalization.py:170-174 | The number of values numpy.arange yields is the least count that reaches stop. |
| Trilateration.ARange | libLocalization.py:170-174 | numpy.arange(start, stop, 1) yields start + i for each i, all below stop, and as many as fit. |
| Trilateration.Sweep | libLocalization.py:169-177 | Every circle of one anchor is centred at that anchor, and a falsy uncertainty gives one circle of the ranged distance. The radii are stated in SweepTruthy. |
| Trilateration.SweepFalsy | libLocalization.py:169-177 | A falsy uncertainty gives one circle of the ranged distance at the anchor. |
| Trilateration.SweepTruthy | libLocalization.py:169-175 | A truthy uncertainty gives radii max(d - s, 0.001) + i, all below d + s and as many as fit, centred at the anchor. |
| Trilateration.SweepExample | libLocalization.py:169-175 | Distance 100 with uncertainty 10 gives exactly the 20 radii 90, ..., 109. |
| Trilateration.ParseLabel | libLocalization.py:166-167 | A label parses exactly when it has at least two comma-separated fields and the first two are numbers. The point is then those two numbers. ParseLabelOfFields and ParseLabelNeedsComma state this in terms of the fields. |
| Trilateration.ParseLabelOfFields | libLocalization.py:166-167 | A label of comma-separated fields parses to the point of its first two fields, whatever follows them. |
| Trilateration.ParseLabelNeedsComma | libLocalization.py:166-167 | A label without a comma fails for lack of a second coordinate. |
| Trilateration.CirclesOfErrorPersists | libLocalization.py:165-167 | Once an anchor's label fails, the whole loop fails with that error. |
| Trilateration.AddSweep | libLocalization.py:169-177 | One anchor's circles are appended in sweep order. |
| Trilateration.BuildCircles | libLocalization.py:165-177 | The anchor loop builds the circles of all anchors in dict order, or stops at the first bad label. |
| Trilateration.Trilateration2d | libLocalization.py:153-186 | trilateration2d returns the per-axis median of the in-bounds intersection points of all circles (or the label error). It also returns the inner points it reports when verbose. |
| Trilateration.EmptyAnchorsGiveNaN | libLocalization.py:153-186 | No anchors give the NaN centre. |
| Trilateration.SingleAnchorGivesNaN | libLocalization.py:153-186 | A single anchor gives NaN or a label error: its circles share one centre, so no pair intersects. |
| Trilateration.DeriveLocation | libLocalization.py:189-203 | deriveLocation trilaterates the dict that maps each configured location to its MAC's ranging. |
| Trilateration.JoinKeys | libLocalization.py:191-198 | A location is a key of the join exactly when some ranged MAC is configured with it. |
| Trilateration.JoinLastWins | libLocalization.py:192-198 | A location keeps the ranging of the last MAC configured with it. |
| Trilateration.JoinUniqueKeys | libLocalization.py:191-198 | The join has unique keys. |
| Measurement.KeptRecords | libMeasurement.py:111-122 | A round keeps at most as many records as it has matches. |
| Measurement.KeptRecordsStep | libMeasurement.py:119-122 | One more match adds its calibrated record exactly when its status is 0 and its raw distance is at least -1000. |
| Measurement.KeptRecordsMembership | libMeasurement.py:119-122 | A record is kept exactly when it is the calibration of an accepted match. |
| Measurement.KeptRecordsAppend | libMeasurement.py:111-122 | Concatenated matches keep the concatenation of what each part keeps. |
| Measurement.DefaultCaliKeepsRaw | libMeasurement.py:121 | With the constructor's default calibration (1.0, 0.0), every kept distance is the raw distance. |
| Measurement.FieldRoundTrip | libMeasurement.py:85-91 | A `name=value` field reads back as its value. |
| Measurement.ConfigBodyRoundTrip | libMeasurement.py:84-92 | A request line written for a target reads back as that target. |
| Measurement.ConfigTextJoin | libMeasurement.py:83-92 | The request file is its lines, each terminated by a newline. |
| Measurement.ConfigLinesRoundTrip | libMeasurement.py:83-92 | The lines written for the targets read back as the targets, in order. |
| Measurement.ConfigTextRoundTrip | libMeasurement.py:82-92 | The request file reads back as the same targets in the same order, when no BSSID holds a blank or a newline. |
| Measurement.GroupAdd | libMeasurement.py:144-146 | The two assignments of the grouping loop add one record to the groups. |
| Measurement.GroupKeyOrder | libMeasurement.py:143-146 | The grouped MACs are exactly the distinct MACs of the records, listed in order of first appearance (the model's insertion order). |
| Measurement.GroupValues | libMeasurement.py:143-146 | Each MAC's list holds the samples of its records in record order. An unseen MAC has no list. |
| Measurement.GroupUnique | libMeasurement.py:143-146 | The groups have unique keys. |
| Measurement.GroupNonEmpty | libMeasurement.py:143-146 | No grouped list is empty. |
| Measurement.MedianDictStep | libMeasurement.py:147-148 | The median loop adds one MAC's median per step. |
| Measurement.MedianDictGet | libMeasurement.py:147-148 | The medians have the same keys in the same order, and each is the median of that key's distances. |
| Measurement.MedianOfGroup | libMeasurement.py:143-148 | A MAC with kept records gets the median of its calibrated distances. Any other MAC gets no entry. |
| Measurement.MedianBounds | libMeasurement.py:147-148 | Each MAC's median lies between the least and the greatest of its calibrated distances. |
| Measurement.Measurement.constructor | libMeasurement.py:52 | A new object holds the given calibration and has written no request file (`configFile` is None). |
| Measurement.Measurement.PrepareConfigFile | libMeasurement.py:79-93 | It returns false for a non-dict and leaves the file alone. Otherwise it rewrites the file with one line per target in dict order, so `configFile` holds that text even for an empty dict, and returns true. |
| Measurement.Measurement.GetDistanceOnce | libMeasurement.py:95-131 | It returns the accepted matches, calibrated, in match order. |
| Measurement.Measurement.GetDistanceMedian | libMeasurement.py:133-149 | It runs max(rounds, 1) rounds, groups the kept records by MAC and returns each MAC's median calibrated distance, with one key per MAC seen. |

## Left out

- `get_distance_gps`, the constant `R`, `plotLocation` and the command-line
  entry points are not part of this model. Neither are `which`,
  `check_iw_validity`, `wrapper`, `main` or `iw_parser.py`. They are
  outside the engine and the measurement loop.
- Running `iw` through `subprocess` is not modelled. Neither is `exit(13)`
  when it writes to stderr, or matching its output with the regular
  expression. Each round's parsed matches are an input.
- The `if not matches` branch of `get_distance_once` can never be taken,
  because `re.finditer` always returns an iterator. It is left out.
- Writing records to `outf` (the CSV output), appending locations to
  `<outfp>_locs`, and the verbose console output of `trilateration2d` are file and
  console I/O, and are left out. `Trilateration2d` still returns the inner
  points it reports.
- The `verbose=False` parameter of `trilateration2d` only switches that
  console output, so it is not a parameter here. The other defaults are
  kept: `cali := DefaultCali` on the `Measurement` constructor, `rounds :=
  1` on `GetDistanceMedian` and `bounds := None` on `Trilateration2d`.
- Geometry.TwoCirclesIntersection: the `round(float(x), 6)` of the `Point`
  and `Circle` constructors is the identity. All source floats are exact
  reals here: coordinates and radii, the calibration `cali[0] * raw +
  cali[1]` of `get_distance_once`, and the start, stop and count of
  `numpy.arange` in the sweep.
- Geometry.Distance: the `-1` result for arguments that are neither two
  Points nor two lists or tuples cannot occur, because the model only has
  points. The list and tuple forms are the same formula and are not
  modelled separately. Neither is the list form of the `Circle`
  constructor.
- The floating-point NaN of `get_polygon_center` is the constructor
  `Center.NaN`.
- Stats.Median requires a non-empty list. Every caller guards it: no
  points give NaN, and no MAC's group is empty.
- Trilateration.BuildCircles: a label with fewer than two fields is an
  `IndexError` in Python and `MissingCoordinate` here. A field that is not
  a number is a `ValueError` and `NotANumber` here. Both abort the call.
- A target missing one of `bw`, `cf`, `retries` or `spb` raises
  `KeyError` in `prepare_config_file`. This is not modelled: the
  parameters are a record of four naturals. Other value types are not
  modelled either.
- Dict iteration order is modelled as insertion order, as in CPython 3.7
  and later. The source needs Python 2 (libMeasurement.py:74 and 107 test
  str against the bytes of `communicate()`), where that order is
  arbitrary. These depend on it:
  - the order of grouped MACs and medians;
  - the order of circles and of `Trilateration2d`'s inner points;
  - which bad label is reported first;
  - which MAC's ranging a location shared by several MACs keeps
    (`Trilateration.JoinLastWins`), and so the position `DeriveLocation`
    returns.

  These do not: the per-MAC sample lists and medians of
  `get_distance_median`, and the key set of the location join.
- Measurement.Measurement.PrepareConfigFile: the file at `/tmp/config_entry`
  is the field `configFile`. The model does not capture the file system or
  other writers.
- Text.ParseNat and Measurement.ParseConfigText are a reader for the
  request format, the inverse the round-trip lemmas need. The source has
  no reader of its own; `iw` reads the file.
- `status is not 0` compares identity in Python. It is modelled as `!=`,
  which is what it does for small integers.
- `Match` keeps every regex group, but only the MAC, status, rtt and raw
  distance are used.
- `bounds` values are not validated, and sweep radii are not clamped
  beyond `max(d - s, 0.001)`, as in the source.
- `trilateration2d` fills a `points` list of anchor points that it never
  uses. It is left out.
- The inner loops of `get_intersecting_points` (`IntersectRow`) and
  `trilateration2d` (`AddSweep`, inside `BuildCircles`) are helper
  methods. They keep the source's loops and order.
