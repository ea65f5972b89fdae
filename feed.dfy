/** The records that flow through one polling cycle: aircraft from the ADS-B feed and
    candidate flights from the FlightRadar24 lookup. */
module Feed {
  import opened Wrappers

  /** A coordinate pair written `[lon, lat]`, longitude first as GeoJSON wants it. */
  type LonLat = (real, real)

  /** One element of the feed's `aircraft` array, reduced to the properties the bot reads.
      `lineString` is absent in the feed and attached by the track accumulator. */
  datatype Aircraft = Aircraft(
    r: Option<string>,         // registration ("rego")
    hex: Option<string>,       // ICAO 24-bit address, used in the deep link
    flight: Option<string>,    // flight designator, often padded with spaces
    category: Option<string>,  // emitter category such as "A1" or "A7"
    desc: Option<string>,      // aircraft type description
    ownOp: Option<string>,     // registered owner or operator
    lon: real,
    lat: real,
    lineString: Option<seq<LonLat>>)

  function Position(plane: Aircraft): LonLat {
    (plane.lon, plane.lat)
  }

  /** A rectangle given in the source's order `[top, right, bottom, left]`. */
  datatype BoundingBox = BoundingBox(top: real, right: real, bottom: real, left: real)

  /** The fixed geofence of both revisions. */
  const BBOX := BoundingBox(-27.46534, 153.02393, -27.51268, 152.95372)

  /** A flight record returned by the FlightRadar24 bounds query. Its registration is the
      string `String(frFlight.registration)` produces. */
  datatype FrFlight = FrFlight(
    registration: string,
    originAirportIata: Option<string>,
    destinationAirportIata: Option<string>)

  /** What the FlightRadar24 query produced for one aircraft: the candidate flights near it,
      or the error that rejected the lookup. */
  type Lookup = Result<seq<FrFlight>, string>
}
