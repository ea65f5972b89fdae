/** The polling cycle of the bot's older revision (index.mjs). Its `announceFlight` is
    synchronous: it does not await the FlightRadar24 correlation, so `getMessage` receives
    the pending promise instead of a flight; and its `getAirline` throws when the airline
    table has no row for the designator, which ends the cycle's remaining announcements. */
module LegacyBot {
  import opened Wrappers
  import opened Text
  import opened Feed
  import Utils
  import LegacyUtils
  import Bot
  import opened Tracks
  import opened Announcements

  /** The three messages of the older `getMessage`, with the pieces each one shows. The
      aircraft description appears as written, `undefined` when missing. */
  datatype Announcement =
    | Helicopter(airline: string, desc: string)
    | Route(airline: string, desc: string, flightNumber: string, from: string, to: string)
    | Generic(airline: string, desc: string, flightNumber: string)

  /** `airportCodes[code]`: the file is read but never parsed, so indexing the buffer with
      an airport code finds nothing and the code itself is shown. */
  function AirportName(code: string): Option<string> {
    None
  }

  /** The branch the older `getMessage` takes and the pieces it fills in. The airline is
      looked up before the branch, so a missing table row fails every variant. */
  function Compose(flight: Aircraft, frData: Option<FrFlight>, airlines: Utils.AirlineTable, titlecase: Utils.Titlecase)
    : (r: Result<Announcement, string>)
    ensures r.Failure? <==> LegacyUtils.GetAirline(flight, airlines, titlecase).Failure?
    ensures r.Success? ==> (r.value.Helicopter? <==> flight.category == Some("A7"))
    ensures r.Success? ==> (r.value.Route? <==>
      && flight.category != Some("A7")
      && frData.Some? && Truthy(frData.value.originAirportIata) && Truthy(frData.value.destinationAirportIata))
  {
    var src := if frData.Some? then frData.value.originAirportIata else None;
    var dest := if frData.Some? then frData.value.destinationAirportIata else None;
    var flightNumber := Show(TrimOpt(flight.flight));
    match LegacyUtils.GetAirline(flight, airlines, titlecase)
    case Failure(e) => Failure(e)
    case Success(airline) =>
      if flight.category == Some("A7") then
        Success(Helicopter(airline, Show(flight.desc)))
      else if Truthy(src) && Truthy(dest) then
        Success(Route(airline, Show(flight.desc), flightNumber,
                      OrElse(AirportName(src.value), src.value), OrElse(AirportName(dest.value), dest.value)))
      else
        Success(Generic(airline, Show(flight.desc), flightNumber))
  }

  function Render(a: Announcement): string {
    match a
    case Helicopter(airline, desc) =>
      "\U{1F681} " + airline + " is flying a " + desc + " helicopter overhead"
    case Route(airline, desc, flightNumber, from, to) =>
      "\U{2708}\U{FE0F} " + airline + " operating a " + desc + ", flight " + flightNumber
      + " from " + from + " to " + to + " is passing overhead"
    case Generic(airline, desc, flightNumber) =>
      airline + " operating a " + desc + ", flight " + flightNumber + " is passing overhead"
  }

  /** `getMessage(flight, frData)`; a thrown exception is a `Failure`. */
  function GetMessage(flight: Aircraft, frData: Option<FrFlight>, airlines: Utils.AirlineTable, titlecase: Utils.Titlecase)
    : (m: Result<string, string>)
    ensures m.Failure? <==> LegacyUtils.GetAirline(flight, airlines, titlecase).Failure?
  {
    match Compose(flight, frData, airlines, titlecase)
    case Failure(e) => Failure(e)
    case Success(a) => Success(Render(a))
  }

  /** Every message of the older revision closes on "overhead": none carries a link. */
  lemma MessageHasNoLink(flight: Aircraft, frData: Option<FrFlight>, airlines: Utils.AirlineTable, titlecase: Utils.Titlecase)
    requires GetMessage(flight, frData, airlines, titlecase).Success?
    ensures EndsWith(GetMessage(flight, frData, airlines, titlecase).value, " overhead")
  {
    RenderEndsOverhead(Compose(flight, frData, airlines, titlecase).value);
  }

  lemma RenderEndsOverhead(a: Announcement)
    ensures EndsWith(Render(a), " overhead")
  {
    match a
    case Helicopter(airline, desc) =>
      EndsWithAfter("\U{1F681} " + airline + " is flying a " + desc, " helicopter overhead", " overhead", "");
    case Route(airline, desc, flightNumber, from, to) =>
      EndsWithAfter("\U{2708}\U{FE0F} " + airline + " operating a " + desc + ", flight " + flightNumber
        + " from " + from + " to " + to, " is passing overhead", " overhead", "");
    case Generic(airline, desc, flightNumber) =>
      EndsWithAfter(airline + " operating a " + desc + ", flight " + flightNumber, " is passing overhead", " overhead", "");
  }

  /** What `getMessage` reads off the promise `correlateFlightRadar(flight).catch(...)`: a
      promise has no `originAirportIata` or `destinationAirportIata`, exactly like a
      missing flight. */
  const PENDING_CORRELATION: Option<FrFlight> := None

  /** Whatever FlightRadar24 would have answered, an aircraft that is not a helicopter
      gets the generic message: the route variant is unreachable. */
  lemma NeverRouteMessage(flight: Aircraft, airlines: Utils.AirlineTable, titlecase: Utils.Titlecase)
    requires LegacyUtils.GetAirline(flight, airlines, titlecase).Success?
    ensures var a := Compose(flight, PENDING_CORRELATION, airlines, titlecase);
      && a.Success?
      && !a.value.Route?
      && (flight.category != Some("A7") ==> a.value.Generic?)
  {
  }

  /** What one `announceFlight` call does: post a message, stay silent because the
      registration is in the window, or throw. */
  datatype Outcome = Posted(message: string) | Suppressed | Threw(error: string)

  /** `announceFlight(flight)`: the outcome and the window afterwards. A throw happens
      before the window update, so it leaves the window as it was. */
  function AnnounceStep(window: seq<Option<string>>, flight: Aircraft, airlines: Utils.AirlineTable, titlecase: Utils.Titlecase)
    : (r: (Outcome, seq<Option<string>>))
    ensures r.0.Suppressed? <==> Normalise(flight.r) in window
    ensures Normalise(flight.r) !in window ==>
      (r.0.Threw? <==> GetMessage(flight, PENDING_CORRELATION, airlines, titlecase).Failure?)
    ensures r.0.Posted? ==> GetMessage(flight, PENDING_CORRELATION, airlines, titlecase) == Success(r.0.message)
    ensures r.0.Threw? ==> GetMessage(flight, PENDING_CORRELATION, airlines, titlecase) == Failure(r.0.error)
    ensures !r.0.Posted? ==> r.1 == window
    ensures r.0.Posted? ==> r.1 == Recorded(window, Normalise(flight.r))
  {
    var id := Normalise(flight.r);
    if id in window then (Suppressed, window)
    else
      match GetMessage(flight, PENDING_CORRELATION, airlines, titlecase)
      case Failure(e) => (Threw(e), window)
      case Success(m) => (Posted(m), Recorded(window, id))
  }

  /** `announceFlight`, on the window object. */
  method AnnounceFlight(window: AnnouncementWindow, flight: Aircraft, airlines: Utils.AirlineTable, titlecase: Utils.Titlecase)
    returns (outcome: Outcome)
    requires window.Valid()
    modifies window
    ensures window.Valid()
    ensures (outcome, window.announced) == AnnounceStep(old(window.announced), flight, airlines, titlecase)
  {
    var id := Normalise(flight.r);
    var announce := window.ShouldAnnounce(id);
    if !announce {
      return Suppressed;
    }
    var message := GetMessage(flight, PENDING_CORRELATION, airlines, titlecase);
    if message.Failure? {
      return Threw(message.error);
    }
    window.Record(id);
    outcome := Posted(message.value);
  }

  /** What a cycle of announcements leaves behind: the messages posted, the window, and
      the exception that ended it early, if any. */
  datatype Cycle = Cycle(posts: seq<string>, window: seq<Option<string>>, error: Option<string>)

  /** `overheadFlights.map(announceFlight)`: the calls run one after the other, and the
      first exception ends the `map`. */
  function AnnounceAll(window: seq<Option<string>>, overhead: seq<Aircraft>, airlines: Utils.AirlineTable, titlecase: Utils.Titlecase)
    : (c: Cycle)
    ensures |c.posts| <= |overhead|
    decreases |overhead|
  {
    if overhead == [] then Cycle([], window, None)
    else
      var (outcome, next) := AnnounceStep(window, overhead[0], airlines, titlecase);
      match outcome
      case Threw(e) => Cycle([], window, Some(e))
      case Suppressed => AnnounceAll(next, overhead[1..], airlines, titlecase)
      case Posted(m) =>
        var rest := AnnounceAll(next, overhead[1..], airlines, titlecase);
        Cycle([m] + rest.posts, rest.window, rest.error)
  }

  /** `track()` of the older revision: one polling cycle. A failed feed request ends the
      cycle before anything changes. */
  method Track(feed: Result<seq<Aircraft>, string>, airlines: Utils.AirlineTable, titlecase: Utils.Titlecase,
               accumulator: TrackAccumulator, window: AnnouncementWindow)
    returns (geoJson: Option<Utils.FeatureCollection>, posts: seq<string>, error: Option<string>)
    requires window.Valid()
    modifies accumulator, window
    ensures window.Valid()
    ensures feed.Failure? ==>
      (geoJson.None? && posts == [] && error == Some(feed.error)
       && accumulator.tracks == old(accumulator.tracks) && window.announced == old(window.announced))
    ensures feed.Success? ==>
      var enriched := Enriched(old(accumulator.tracks), feed.value);
      var c := AnnounceAll(old(window.announced), Bot.Overhead(enriched, BBOX), airlines, titlecase);
      && accumulator.tracks == NextTracks(old(accumulator.tracks), feed.value)
      && geoJson == Some(Utils.MakeGeoJson(enriched, BBOX))
      && posts == c.posts && window.announced == c.window && error == c.error
  {
    if feed.Failure? {
      return None, [], Some(feed.error);
    }
    var aircraft := accumulator.AccumulateFlights(feed.value);
    geoJson := Some(Utils.MakeGeoJson(aircraft, BBOX));
    var overhead := Bot.Overhead(aircraft, BBOX);
    posts, error := AnnounceEach(window, overhead, airlines, titlecase);
  }

  /** The `map` over the overhead aircraft. */
  method AnnounceEach(window: AnnouncementWindow, overhead: seq<Aircraft>, airlines: Utils.AirlineTable, titlecase: Utils.Titlecase)
    returns (posts: seq<string>, error: Option<string>)
    requires window.Valid()
    modifies window
    ensures window.Valid()
    ensures var c := AnnounceAll(old(window.announced), overhead, airlines, titlecase);
      posts == c.posts && window.announced == c.window && error == c.error
  {
    posts, error := [], None;
    var i := 0;
    while i < |overhead|
      invariant 0 <= i <= |overhead| && window.Valid()
      invariant var c := AnnounceAll(window.announced, overhead[i..], airlines, titlecase);
        var total := AnnounceAll(old(window.announced), overhead, airlines, titlecase);
        posts + c.posts == total.posts && c.window == total.window && c.error == total.error
      decreases |overhead| - i
    {
      assert overhead[i..][1..] == overhead[i + 1..];
      var outcome := AnnounceFlight(window, overhead[i], airlines, titlecase);
      match outcome {
        case Threw(e) =>
          return posts, Some(e);
        case Suppressed =>
        case Posted(m) =>
          posts := posts + [m];
      }
      i := i + 1;
    }
    assert posts + [] == posts;
  }

  /** A cycle whose first call had `outcome`, given the cycle `rest` of the calls after it. */
  function AfterStep(outcome: Outcome, window: seq<Option<string>>, rest: Cycle): Cycle {
    match outcome
    case Threw(e) => Cycle([], window, Some(e))
    case Suppressed => rest
    case Posted(m) => Cycle([m] + rest.posts, rest.window, rest.error)
  }

  /** The cycle `c` followed, unless it threw, by the cycle `d`. */
  function Join(c: Cycle, d: Cycle): Cycle {
    if c.error.Some? then c else Cycle(c.posts + d.posts, d.window, d.error)
  }

  lemma AnnounceAllUnfold(window: seq<Option<string>>, overhead: seq<Aircraft>,
                          airlines: Utils.AirlineTable, titlecase: Utils.Titlecase)
    requires overhead != []
    ensures var step := AnnounceStep(window, overhead[0], airlines, titlecase);
      AnnounceAll(window, overhead, airlines, titlecase)
        == AfterStep(step.0, window, AnnounceAll(step.1, overhead[1..], airlines, titlecase))
  {
  }

  lemma AfterStepJoin(outcome: Outcome, window: seq<Option<string>>, c: Cycle, d: Cycle)
    ensures AfterStep(outcome, window, c).error.None? ==> AfterStep(outcome, window, c).window == c.window
    ensures Join(AfterStep(outcome, window, c), d) == AfterStep(outcome, window, Join(c, d))
  {
    if outcome.Posted? {
      assert [outcome.message] + (c.posts + d.posts) == ([outcome.message] + c.posts) + d.posts;
    }
  }

  /** A cycle over `xs + ys` is the cycle over `xs` followed, unless it threw, by the
      cycle over `ys` from the window `xs` left. */
  lemma {:induction false} AnnounceAllAppend(window: seq<Option<string>>, xs: seq<Aircraft>, ys: seq<Aircraft>,
                                             airlines: Utils.AirlineTable, titlecase: Utils.Titlecase)
    ensures var c := AnnounceAll(window, xs, airlines, titlecase);
      var d := AnnounceAll(c.window, ys, airlines, titlecase);
      AnnounceAll(window, xs + ys, airlines, titlecase)
        == if c.error.Some? then c else Cycle(c.posts + d.posts, d.window, d.error)
    decreases |xs|
  {
    if xs == [] {
      assert xs + ys == ys;
    } else {
      assert (xs + ys)[0] == xs[0] && (xs + ys)[1..] == xs[1..] + ys;
      var step := AnnounceStep(window, xs[0], airlines, titlecase);
      AnnounceAllUnfold(window, xs, airlines, titlecase);
      AnnounceAllUnfold(window, xs + ys, airlines, titlecase);
      AnnounceAllAppend(step.1, xs[1..], ys, airlines, titlecase);
      var rest := AnnounceAll(step.1, xs[1..], airlines, titlecase);
      var c := AnnounceAll(window, xs, airlines, titlecase);
      var d := AnnounceAll(rest.window, ys, airlines, titlecase);
      AfterStepJoin(step.0, window, rest, d);
      assert AnnounceAll(window, xs + ys, airlines, titlecase) == Join(c, d);
      assert c.error.None? ==> c.window == rest.window;
    }
  }

  /** A cycle that does not throw leaves the window that admitting its overhead
      registrations one at a time leaves: each call sees the previous calls' updates. */
  lemma {:induction false} AnnounceAllIsAdmitAll(window: seq<Option<string>>, overhead: seq<Aircraft>,
                                                 airlines: Utils.AirlineTable, titlecase: Utils.Titlecase)
    requires AnnounceAll(window, overhead, airlines, titlecase).error.None?
    ensures AnnounceAll(window, overhead, airlines, titlecase).window == AdmitAll(window, Registrations(overhead))
    decreases |overhead|
  {
    if overhead != [] {
      var step := AnnounceStep(window, overhead[0], airlines, titlecase);
      AnnounceAllUnfold(window, overhead, airlines, titlecase);
      assert Registrations(overhead)[1..] == Registrations(overhead[1..]);
      assert !step.0.Threw?;
      assert step.1 == AfterAdmit(window, Normalise(overhead[0].r));
      AnnounceAllIsAdmitAll(step.1, overhead[1..], airlines, titlecase);
    }
  }

  /** An entry at position `p` of the window survives a run of announcements that posts at
      most `10 - p` messages and does not throw: only a post pushes it back. */
  lemma {:induction false} StaysInWindow(window: seq<Option<string>>, overhead: seq<Aircraft>, a: Option<string>, p: nat,
                                         airlines: Utils.AirlineTable, titlecase: Utils.Titlecase)
    requires p < |window| && window[p] == a
    requires AnnounceAll(window, overhead, airlines, titlecase).error.None?
    requires p + |AnnounceAll(window, overhead, airlines, titlecase).posts| <= KEPT
    ensures a in AnnounceAll(window, overhead, airlines, titlecase).window
    decreases |overhead|
  {
    if overhead != [] {
      var (outcome, next) := AnnounceStep(window, overhead[0], airlines, titlecase);
      if outcome.Suppressed? {
        StaysInWindow(next, overhead[1..], a, p, airlines, titlecase);
      } else if outcome.Posted? {
        assert next[p + 1] == a;
        StaysInWindow(next, overhead[1..], a, p + 1, airlines, titlecase);
      }
    }
  }

  /** Two overhead aircraft of one cycle with the same registration: once the first is
      posted, the second is suppressed, as long as at most ten other messages were posted
      between them. Each call sees the previous calls' updates. */
  lemma SameCycleDuplicateSuppressed(window: seq<Option<string>>, overhead: seq<Aircraft>, j1: nat, j2: nat,
                                     airlines: Utils.AirlineTable, titlecase: Utils.Titlecase)
    requires j1 < j2 < |overhead| && Normalise(overhead[j1].r) == Normalise(overhead[j2].r)
    requires AnnounceAll(window, overhead[..j1], airlines, titlecase).error.None?
    requires Normalise(overhead[j1].r) !in AnnounceAll(window, overhead[..j1], airlines, titlecase).window
    requires GetMessage(overhead[j1], PENDING_CORRELATION, airlines, titlecase).Success?
    requires AnnounceAll(window, overhead[..j2], airlines, titlecase).error.None?
    requires |AnnounceAll(window, overhead[..j2], airlines, titlecase).posts|
      <= |AnnounceAll(window, overhead[..j1], airlines, titlecase).posts| + 1 + KEPT
    ensures AnnounceAll(window, overhead[..j2 + 1], airlines, titlecase)
      == AnnounceAll(window, overhead[..j2], airlines, titlecase)
  {
    PostedStaysInWindow(window, overhead, j1, j2, airlines, titlecase);
    SuppressedInCycle(window, overhead, j2, airlines, titlecase);
  }

  /** The registration of a posted aircraft is still in the window when an aircraft at most
      ten posts later comes up. */
  lemma PostedStaysInWindow(window: seq<Option<string>>, overhead: seq<Aircraft>, j1: nat, j2: nat,
                            airlines: Utils.AirlineTable, titlecase: Utils.Titlecase)
    requires j1 < j2 <= |overhead|
    requires AnnounceAll(window, overhead[..j1], airlines, titlecase).error.None?
    requires Normalise(overhead[j1].r) !in AnnounceAll(window, overhead[..j1], airlines, titlecase).window
    requires GetMessage(overhead[j1], PENDING_CORRELATION, airlines, titlecase).Success?
    requires AnnounceAll(window, overhead[..j2], airlines, titlecase).error.None?
    requires |AnnounceAll(window, overhead[..j2], airlines, titlecase).posts|
      <= |AnnounceAll(window, overhead[..j1], airlines, titlecase).posts| + 1 + KEPT
    ensures Normalise(overhead[j1].r) in AnnounceAll(window, overhead[..j2], airlines, titlecase).window
  {
    var a := Normalise(overhead[j1].r);
    var c1 := AnnounceAll(window, overhead[..j1], airlines, titlecase);
    var between := overhead[j1..j2];
    assert overhead[..j2] == overhead[..j1] + between;
    AnnounceAllAppend(window, overhead[..j1], between, airlines, titlecase);
    assert between[0] == overhead[j1];
    var step := AnnounceStep(c1.window, between[0], airlines, titlecase);
    assert step.0.Posted? && step.1 == Recorded(c1.window, a);
    var rest := AnnounceAll(step.1, between[1..], airlines, titlecase);
    assert AnnounceAll(c1.window, between, airlines, titlecase)
      == Cycle([step.0.message] + rest.posts, rest.window, rest.error);
    StaysInWindow(step.1, between[1..], a, 0, airlines, titlecase);
  }

  /** An aircraft whose registration is in the window when its turn comes posts nothing
      and leaves the window as it is. */
  lemma SuppressedInCycle(window: seq<Option<string>>, overhead: seq<Aircraft>, j: nat,
                          airlines: Utils.AirlineTable, titlecase: Utils.Titlecase)
    requires j < |overhead|
    requires AnnounceAll(window, overhead[..j], airlines, titlecase).error.None?
    requires Normalise(overhead[j].r) in AnnounceAll(window, overhead[..j], airlines, titlecase).window
    ensures AnnounceAll(window, overhead[..j + 1], airlines, titlecase)
      == AnnounceAll(window, overhead[..j], airlines, titlecase)
  {
    var c := AnnounceAll(window, overhead[..j], airlines, titlecase);
    assert overhead[..j + 1] == overhead[..j] + [overhead[j]];
    AnnounceAllAppend(window, overhead[..j], [overhead[j]], airlines, titlecase);
    assert [overhead[j]][1..] == [];
    assert c.posts + [] == c.posts;
  }

  /** An aircraft whose designator has no airline row throws when its turn comes: the
      messages posted before it stand, the window is as they left it, and the aircraft
      after it are not announced in this cycle. */
  lemma MissingAirlineEndsCycle(window: seq<Option<string>>, overhead: seq<Aircraft>, j: nat,
                                airlines: Utils.AirlineTable, titlecase: Utils.Titlecase)
    requires j < |overhead|
    requires AnnounceAll(window, overhead[..j], airlines, titlecase).error.None?
    requires Normalise(overhead[j].r) !in AnnounceAll(window, overhead[..j], airlines, titlecase).window
    requires LegacyUtils.GetAirline(overhead[j], airlines, titlecase).Failure?
    ensures var c := AnnounceAll(window, overhead[..j], airlines, titlecase);
      AnnounceAll(window, overhead, airlines, titlecase)
        == Cycle(c.posts, c.window, Some(LegacyUtils.GetAirline(overhead[j], airlines, titlecase).error))
  {
    var c := AnnounceAll(window, overhead[..j], airlines, titlecase);
    assert overhead == overhead[..j] + overhead[j..];
    AnnounceAllAppend(window, overhead[..j], overhead[j..], airlines, titlecase);
    assert overhead[j..][0] == overhead[j];
    assert c.posts + [] == c.posts;
  }
}
