/** The helpers of the bot's newer revision (src/bot/utils.mjs): the indefinite article,
    the operator name, the model name, the geofence test and the GeoJSON snapshot. The
    older revision's `articleise`, `sanitiseModel`, `isInBoundingBox` and `makeGeoJson`
    are the same code and use these definitions too. */
module Utils {
  import opened Wrappers
  import opened Text
  import opened Feed

  const VOWELS: seq<string> := ["a", "e", "i", "o", "u"]

  /** The word's first character is one of the five vowels, in either case. */
  predicate StartsWithVowel(word: string) {
    word != [] && word[0] in "aeiouAEIOU"
  }

  /** `articleise`: prefixes "an " before a vowel and "a " otherwise. */
  function Articleise(word: string): (r: string)
    ensures r == "an " + word <==> StartsWithVowel(word)
    ensures r == "a " + word <==> !StartsWithVowel(word)
  {
    var letter := Lower(word[..if |word| < 1 then |word| else 1]);
    assert word != [] ==> letter == [LowerChar(word[0])];
    if letter in VOWELS then
      "an " + word
    else
      assert ("a " + word)[1] != ("an " + word)[1];
      "a " + word
  }

  /** Whatever the word, the phrase ends with it, and the empty word reads "a ". */
  lemma ArticleiseKeepsWord(word: string)
    ensures EndsWith(Articleise(word), word)
    ensures |Articleise(word)| == |word| + (if StartsWithVowel(word) then 3 else 2)
    ensures Articleise("") == "a "
  {
  }

  /** A row of the `airline-codes` table; its `name` may be missing or empty. */
  datatype AirlineRecord = AirlineRecord(name: Option<string>)

  /** `airlines.findWhere({ icao })`: the first row carrying that ICAO code, if any
      (the key is missing when the source passes `icao: undefined`). The table itself is
      not part of this model. */
  type AirlineTable = Option<string> -> Option<AirlineRecord>

  /** The `titlecase` package, left uninterpreted. */
  type Titlecase = string -> string

  /** The categories of larger aircraft whose designators are worth an ICAO lookup. */
  const LOOKUP_CATEGORIES: seq<string> := ["A0", "A2", "A5"]

  /** `airlines.findWhere({ icao })?.get("name")` */
  function NameFromCode(airlines: AirlineTable, icao: Option<string>): Option<string> {
    match airlines(icao)
    case None => None
    case Some(row) => row.name
  }

  /** The ICAO code the newer `getAirline` looks up: the first three characters of a
      designator longer than three, for the lookup categories only. */
  function LookupKey(flight: Aircraft): (key: Option<string>)
    ensures key.Some? <==>
      && flight.category.Some? && flight.category.value in LOOKUP_CATEGORIES
      && flight.flight.Some? && |flight.flight.value| > 3
    ensures key.Some? ==> |key.value| == 3 && key.value == flight.flight.value[..3]
  {
    if flight.category.Some? && flight.category.value in LOOKUP_CATEGORIES then
      if flight.flight.Some? && |flight.flight.value| > 3 then Some(flight.flight.value[..3]) else None
    else
      None
  }

  /** The name `getAirline` falls back to when no code lookup applies. */
  function OperatorFallback(ownOp: Option<string>, titlecase: Titlecase): string {
    if !Truthy(ownOp) then "Unknown operator" else titlecase(Lower(ownOp.value))
  }

  /** `getAirline` (newer revision). */
  function GetAirline(flight: Aircraft, airlines: AirlineTable, titlecase: Titlecase): (r: string)
    ensures LookupKey(flight).None? ==> r == OperatorFallback(flight.ownOp, titlecase)
    ensures LookupKey(flight).Some? && Truthy(NameFromCode(airlines, LookupKey(flight))) ==>
      r == NameFromCode(airlines, LookupKey(flight)).value
    ensures !Truthy(NameFromCode(airlines, LookupKey(flight))) || LookupKey(flight).None? ==>
      (!Truthy(flight.ownOp) ==> r == "Unknown operator") &&
      (Truthy(flight.ownOp) ==> r == titlecase(Lower(flight.ownOp.value)))
  {
    var operatorFromCode := if LookupKey(flight).Some? then NameFromCode(airlines, LookupKey(flight)) else None;
    if Truthy(operatorFromCode) then
      operatorFromCode.value
    else
      OperatorFallback(flight.ownOp, titlecase)
  }

  /** The airline table is consulted at most once, with the three-character key, and not
      at all outside the lookup categories: two tables that agree on that key give the
      same name. */
  lemma GetAirlineConsultsOnlyItsKey(flight: Aircraft, t1: AirlineTable, t2: AirlineTable, titlecase: Titlecase)
    requires LookupKey(flight).Some? ==> t1(LookupKey(flight)) == t2(LookupKey(flight))
    ensures GetAirline(flight, t1, titlecase) == GetAirline(flight, t2, titlecase)
  {
  }

  /** `sanitiseModel`: a missing or empty model reads "unknown aircraft". */
  function SanitiseModel(model: Option<string>, titlecase: Titlecase): (r: string)
    ensures !Truthy(model) ==> r == titlecase("unknown aircraft")
    ensures Truthy(model) ==> r == titlecase(model.value)
  {
    titlecase(OrElse(model, "unknown aircraft"))
  }

  /** `isInBoundingBox([lng, lat], [top, right, bottom, left])`: inclusive on all four edges. */
  function IsInBoundingBox(point: LonLat, box: BoundingBox): (inside: bool)
    ensures inside <==> box.bottom <= point.1 <= box.top && box.left <= point.0 <= box.right
  {
    var (lng, lat) := point;
    var isLatInbounds := lat <= box.top && lat >= box.bottom;
    var isLonInBounds := lng <= box.right && lng >= box.left;
    isLatInbounds && isLonInBounds
  }

  datatype Geometry =
    | Point(coordinates: LonLat)
    | LineString(path: seq<LonLat>)
    | Polygon(rings: seq<seq<LonLat>>)

  /** A feature's `properties`: the whole aircraft for its position, nothing otherwise. */
  datatype Properties = FlightProperties(flight: Aircraft) | NoProperties

  datatype Feature = Feature(properties: Properties, geometry: Geometry)

  datatype FeatureCollection = FeatureCollection(features: seq<Feature>)

  /** `flight.lineString?.length > 1` */
  predicate HasTrail(flight: Aircraft) {
    flight.lineString.Some? && |flight.lineString.value| > 1
  }

  /** The features one aircraft contributes: its position, then its trail if it has one. */
  function FlightFeatures(flight: Aircraft): (fs: seq<Feature>)
    ensures |fs| == if HasTrail(flight) then 2 else 1
  {
    [Feature(FlightProperties(flight), Point((flight.lon, flight.lat)))]
    + (if HasTrail(flight) then [Feature(NoProperties, LineString(flight.lineString.value))] else [])
  }

  /** The number of aircraft with a trail of more than one point. */
  function TrailCount(flights: seq<Aircraft>): nat {
    if flights == [] then 0
    else TrailCount(flights[..|flights| - 1]) + (if HasTrail(flights[|flights| - 1]) then 1 else 0)
  }

  /** `flights.flatMap(...)`: every aircraft's features, in feed order. */
  function FlightsFeatures(flights: seq<Aircraft>): (fs: seq<Feature>)
    ensures |fs| == |flights| + TrailCount(flights)
    ensures forall i | 0 <= i < |fs| :: !fs[i].geometry.Polygon?
  {
    if flights == [] then []
    else FlightsFeatures(flights[..|flights| - 1]) + FlightFeatures(flights[|flights| - 1])
  }

  /** The outline of the geofence, clockwise from the top-left corner and closed. */
  function BoundaryRing(box: BoundingBox): seq<LonLat> {
    [(box.left, box.top), (box.right, box.top), (box.right, box.bottom),
     (box.left, box.bottom), (box.left, box.top)]
  }

  /** `makeGeoJson(flights, bbox)` */
  function MakeGeoJson(flights: seq<Aircraft>, box: BoundingBox): (fc: FeatureCollection)
    ensures |fc.features| == |flights| + TrailCount(flights) + 1
    ensures fc.features[|fc.features| - 1] == Feature(NoProperties, Polygon([BoundaryRing(box)]))
    ensures forall i | 0 <= i < |fc.features| - 1 :: !fc.features[i].geometry.Polygon?
  {
    FeatureCollection(FlightsFeatures(flights) + [Feature(NoProperties, Polygon([BoundaryRing(box)]))])
  }

  /** Aircraft `i`'s features sit at offset `i + TrailCount(flights[..i])`: its Point
      first, then its LineString exactly when its trail has more than one point. */
  lemma {:induction false} FeaturesInFlightOrder(flights: seq<Aircraft>, box: BoundingBox, i: nat)
    requires i < |flights|
    ensures var p := i + TrailCount(flights[..i]);
      var fs := MakeGeoJson(flights, box).features;
      && p + |FlightFeatures(flights[i])| < |fs|
      && fs[p] == Feature(FlightProperties(flights[i]), Point(Position(flights[i])))
      && (HasTrail(flights[i]) <==> fs[p + 1].geometry.LineString?)
      && (HasTrail(flights[i]) ==> fs[p + 1] == Feature(NoProperties, LineString(flights[i].lineString.value)))
  {
    FlightFeaturesAt(flights, i);
    var p := i + TrailCount(flights[..i]);
    var fs := MakeGeoJson(flights, box).features;
    var own := FlightFeatures(flights[i]);
    assert fs[..|FlightsFeatures(flights)|] == FlightsFeatures(flights);
    assert fs[p] == FlightsFeatures(flights)[p] == own[0];
    if HasTrail(flights[i]) {
      assert fs[p + 1] == own[1];
    } else if i + 1 < |flights| {
      FlightFeaturesAt(flights, i + 1);
      assert flights[..i + 1][..i] == flights[..i];
      assert fs[p + 1] == FlightFeatures(flights[i + 1])[0];
    } else {
      assert fs[p + 1] == fs[|fs| - 1];
    }
  }

  /** The slice of `FlightsFeatures(flights)` that belongs to aircraft `i`. */
  lemma {:induction false} FlightFeaturesAt(flights: seq<Aircraft>, i: nat)
    requires i < |flights|
    ensures var p := i + TrailCount(flights[..i]);
      var own := FlightFeatures(flights[i]);
      p + |own| <= |FlightsFeatures(flights)| && FlightsFeatures(flights)[p..p + |own|] == own
  {
    var n := |flights| - 1;
    var front := flights[..n];
    assert FlightsFeatures(flights) == FlightsFeatures(front) + FlightFeatures(flights[n]);
    if i == n {
      assert front == flights[..i];
    } else {
      FlightFeaturesAt(front, i);
      assert front[..i] == flights[..i];
      assert front[i] == flights[i];
    }
  }

  /** The polygon is the geofence outline: five vertices, closed at `[left, top]`, and
      every vertex passes the geofence test when the box is well formed. */
  lemma BoundaryRingIsClosedOutline(box: BoundingBox)
    requires box.bottom <= box.top && box.left <= box.right
    ensures |BoundaryRing(box)| == 5
    ensures BoundaryRing(box)[0] == BoundaryRing(box)[4] == (box.left, box.top)
    ensures forall v | v in BoundaryRing(box) :: IsInBoundingBox(v, box)
  {
  }
}
