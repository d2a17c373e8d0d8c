/** Coordinate validation and the thin wrappers around the great-circle distance.

    The haversine formula itself (degrees to radians, sin, cos, atan2, sqrt) is floating-point
    trigonometry and is not modelled: it is the parameter `gc`, an arbitrary function from two
    points to kilometres, and the laws it obeys are collected in `GreatCircleLaws`. */
module Haversine {
  import opened Wrappers

  /** Earth's mean radius in kilometres, the R of the formula. */
  const EarthRadiusKm: real := 6371.0

  /** `Double.MAX_VALUE`, the largest finite double, written out exactly. */
  const DoubleMax: real := 179769313486231570814527423731704356798070567525844996598917476803157260780028538760589558632766878171540458953514382464234321326889464182768467546703537516986049910576551282076245490090389328944075868508455133942304583236903222948165808559332123348274797826204144723168738177180919299881250404026184124858368.0

  datatype Point = Point(latitude: real, longitude: real)

  /** Which argument pair of `calculate` a coordinate belongs to. */
  datatype Endpoint = StartingPoint | EndingPoint

  datatype Axis = Latitude | Longitude

  /** The `IllegalArgumentException` thrown by `validateCoordinates`. */
  datatype CoordinateError = OutOfRange(endpoint: Endpoint, axis: Axis, value: real)

  function Label(e: Endpoint): string
  {
    match e
    case StartingPoint => "Starting point"
    case EndingPoint => "Ending point"
  }

  function AxisName(a: Axis): string
  {
    match a
    case Latitude => "latitude"
    case Longitude => "longitude"
  }

  function RangeText(a: Axis): string
  {
    match a
    case Latitude => "[-90, 90]"
    case Longitude => "[-180, 180]"
  }

  predicate LatitudeInRange(lat: real) { -90.0 <= lat <= 90.0 }

  predicate LongitudeInRange(lon: real) { -180.0 <= lon <= 180.0 }

  predicate ValidPoint(p: Point)
  {
    LatitudeInRange(p.latitude) && LongitudeInRange(p.longitude)
  }

  /** Checks one point, latitude first: a point wrong on both axes is reported for its latitude. */
  function ValidateCoordinates(lat: real, lon: real, point: Endpoint): (r: Option<CoordinateError>)
    ensures r.None? <==> LatitudeInRange(lat) && LongitudeInRange(lon)
    ensures r.Some? ==> r.value.endpoint == point
    ensures r.Some? ==> (r.value.axis == Latitude <==> !LatitudeInRange(lat))
    ensures r.Some? ==> r.value.value == (if r.value.axis == Latitude then lat else lon)
  {
    if lat < -90.0 || lat > 90.0 then
      Some(OutOfRange(point, Latitude, lat))
    else if lon < -180.0 || lon > 180.0 then
      Some(OutOfRange(point, Longitude, lon))
    else
      None
  }

  /** The fixed words between the value and the range in the exception message. */
  const OutOfRangeWords: string := " is out of range "

  /** The exception message; `valueText` stands for the value rendered with `%.4f`. */
  function Message(e: CoordinateError, valueText: string): string
  {
    Label(e.endpoint) + " " + AxisName(e.axis) + " " + valueText + OutOfRangeWords + RangeText(e.axis)
  }

  predicate MentionsAt(s: string, part: string, i: int)
  {
    0 <= i && i + |part| <= |s| && s[i..i + |part|] == part
  }

  ghost predicate Mentions(s: string, part: string)
  {
    exists i :: MentionsAt(s, part, i)
  }

  /** What a string mentions, its extensions mention at the same place. */
  lemma MentionedInExtension(s: string, more: string, part: string, i: int)
    requires MentionsAt(s, part, i)
    ensures MentionsAt(s + more, part, i)
  {
    assert (s + more)[i..i + |part|] == s[i..i + |part|];
  }

  /** What a string mentions, a string ending with it mentions shifted by what comes first. */
  lemma MentionedAfter(before: string, s: string, part: string, i: int)
    requires MentionsAt(s, part, i)
    ensures MentionsAt(before + s, part, |before| + i)
  {
    assert (before + s)[|before| + i..|before| + i + |part|] == s[i..i + |part|];
  }

  lemma OutOfRangeWordsMentionRange()
    ensures MentionsAt(OutOfRangeWords, "out of range", 4)
  {
    assert OutOfRangeWords[4..16] == "out of range";
  }

  /** Every coordinate error names the point, the offending axis and the words "out of range". */
  lemma MessageMentionsAxisAndRange(e: CoordinateError, valueText: string)
    ensures Mentions(Message(e, valueText), Label(e.endpoint))
    ensures Mentions(Message(e, valueText), AxisName(e.axis))
    ensures Mentions(Message(e, valueText), "out of range")
  {
    var l, a, t := Label(e.endpoint), AxisName(e.axis), RangeText(e.axis);
    var s1 := l + " ";
    var s2 := s1 + a;
    var s3 := s2 + " ";
    var s4 := s3 + valueText;
    var s5 := s4 + OutOfRangeWords;
    assert Message(e, valueText) == s5 + t;

    assert MentionsAt(l, l, 0);
    MentionedInExtension(l, " ", l, 0);
    MentionedInExtension(s1, a, l, 0);
    MentionedInExtension(s2, " ", l, 0);
    MentionedInExtension(s3, valueText, l, 0);
    MentionedInExtension(s4, OutOfRangeWords, l, 0);
    MentionedInExtension(s5, t, l, 0);

    assert MentionsAt(a, a, 0);
    MentionedAfter(s1, a, a, 0);
    MentionedInExtension(s2, " ", a, |s1|);
    MentionedInExtension(s3, valueText, a, |s1|);
    MentionedInExtension(s4, OutOfRangeWords, a, |s1|);
    MentionedInExtension(s5, t, a, |s1|);

    OutOfRangeWordsMentionRange();
    MentionedAfter(s4, OutOfRangeWords, "out of range", 4);
    MentionedInExtension(s5, t, "out of range", |s4| + 4);
  }

  /** What is assumed of the haversine formula: its result lies between 0 and 4R (it is R times
      an angle c = 2 atan2(...) in [0, pi]), it is 0 between a point and itself, and it is
      symmetric. These are hypotheses about the abstract formula, not proved facts. */
  ghost predicate GreatCircleLaws(gc: (Point, Point) -> real)
  {
    && (forall p, q :: 0.0 <= gc(p, q) <= 4.0 * EarthRadiusKm)
    && (forall p :: gc(p, p) == 0.0)
    && (forall p, q :: gc(p, q) == gc(q, p))
  }

  /** `calculate`: validates the starting point, then the ending point, then applies the formula. */
  function Calculate(gc: (Point, Point) -> real, lat1: real, lon1: real, lat2: real, lon2: real)
    : (r: Result<real, CoordinateError>)
    ensures r.Ok? <==> ValidPoint(Point(lat1, lon1)) && ValidPoint(Point(lat2, lon2))
    ensures r.Ok? ==> r.value == gc(Point(lat1, lon1), Point(lat2, lon2))
    ensures !ValidPoint(Point(lat1, lon1)) ==> r.Err? && r.error.endpoint == StartingPoint
    ensures ValidPoint(Point(lat1, lon1)) && !ValidPoint(Point(lat2, lon2)) ==>
              r.Err? && r.error.endpoint == EndingPoint
    ensures r.Err? ==> r.error.value == (if r.error.axis == Latitude then
                                           (if r.error.endpoint == StartingPoint then lat1 else lat2)
                                         else
                                           (if r.error.endpoint == StartingPoint then lon1 else lon2))
  {
    match ValidateCoordinates(lat1, lon1, StartingPoint)
    case Some(e) => Err(e)
    case None =>
      match ValidateCoordinates(lat2, lon2, EndingPoint)
      case Some(e) => Err(e)
      case None => Ok(gc(Point(lat1, lon1), Point(lat2, lon2)))
  }

  /** `calculateInMeters`: the same validation, the distance scaled by 1000. */
  function CalculateInMeters(gc: (Point, Point) -> real, lat1: real, lon1: real, lat2: real, lon2: real)
    : (r: Result<real, CoordinateError>)
    ensures r.Ok? <==> Calculate(gc, lat1, lon1, lat2, lon2).Ok?
    ensures r.Ok? ==> r.value == 1000.0 * Calculate(gc, lat1, lon1, lat2, lon2).value
    ensures r.Err? ==> r.error == Calculate(gc, lat1, lon1, lat2, lon2).error
  {
    match Calculate(gc, lat1, lon1, lat2, lon2)
    case Ok(km) => Ok(km * 1000.0)
    case Err(e) => Err(e)
  }

  /** `isWithinDistance`: the threshold is inclusive. */
  function IsWithinDistance(gc: (Point, Point) -> real, lat1: real, lon1: real, lat2: real, lon2: real,
                            thresholdKm: real): (r: Result<bool, CoordinateError>)
    ensures r.Ok? <==> Calculate(gc, lat1, lon1, lat2, lon2).Ok?
    ensures r.Ok? ==> (r.value <==> Calculate(gc, lat1, lon1, lat2, lon2).value <= thresholdKm)
    ensures r.Err? ==> r.error == Calculate(gc, lat1, lon1, lat2, lon2).error
  {
    match Calculate(gc, lat1, lon1, lat2, lon2)
    case Ok(km) => Ok(km <= thresholdKm)
    case Err(e) => Err(e)
  }

  /** Under the laws, swapping two valid points leaves the distance unchanged, a point is at
      distance 0 from itself, and so within any non-negative threshold of itself. */
  lemma CalculateSymmetricAndReflexive(gc: (Point, Point) -> real, p: Point, q: Point, thresholdKm: real)
    requires GreatCircleLaws(gc)
    requires ValidPoint(p) && ValidPoint(q)
    ensures Calculate(gc, p.latitude, p.longitude, q.latitude, q.longitude)
         == Calculate(gc, q.latitude, q.longitude, p.latitude, p.longitude)
    ensures Calculate(gc, p.latitude, p.longitude, p.latitude, p.longitude) == Ok(0.0)
    ensures 0.0 <= thresholdKm ==>
              IsWithinDistance(gc, p.latitude, p.longitude, p.latitude, p.longitude, thresholdKm) == Ok(true)
  {
    assert Point(p.latitude, p.longitude) == p;
    assert Point(q.latitude, q.longitude) == q;
  }

  /** A haversine distance is always below `Double.MAX_VALUE`, the engine's initial minimum. */
  lemma DistanceBelowDoubleMax(gc: (Point, Point) -> real, p: Point, q: Point)
    requires GreatCircleLaws(gc)
    ensures 0.0 <= gc(p, q) < DoubleMax
  {
  }
}
