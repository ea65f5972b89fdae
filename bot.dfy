/** The polling cycle of the bot's newer revision (src/bot/bot.mjs): correlate an overhead
    aircraft with a FlightRadar24 flight, compose its announcement, and run one cycle of
    tracking, geofencing and announcing. */
module Bot {
  import opened Wrappers
  import opened Text
  import opened Feed
  import opened Utils
  import opened Tracks
  import opened Announcements

  /** `String(frFlight.registration).toUpperCase() === rego` */
  predicate RegistrationMatches(candidate: FrFlight, id: Option<string>) {
    id == Some(Upper(candidate.registration))
  }

  /** `frFlights.find(...)`, as the index of the first candidate whose registration matches. */
  function FindByRegistration(candidates: seq<FrFlight>, id: Option<string>): (k: Option<nat>)
    ensures k.Some? ==> k.value < |candidates| && RegistrationMatches(candidates[k.value], id)
    ensures k.Some? ==> forall j | 0 <= j < k.value :: !RegistrationMatches(candidates[j], id)
    ensures k.None? ==> forall j | 0 <= j < |candidates| :: !RegistrationMatches(candidates[j], id)
  {
    if candidates == [] then None
    else if RegistrationMatches(candidates[0], id) then Some(0)
    else
      match FindByRegistration(candidates[1..], id)
      case None => None
      case Some(k) => Some(k + 1)
  }

  /** The selection `correlateFlightRadar` makes among the flights near the aircraft: a
      lone candidate whatever its registration, otherwise the first whose registration
      matches the aircraft's, or none. */
  function SelectCandidate(candidates: seq<FrFlight>, plane: Aircraft): (chosen: Option<FrFlight>)
    ensures |candidates| == 1 ==> chosen == Some(candidates[0])
    ensures |candidates| != 1 && chosen.Some? ==>
      exists k | 0 <= k < |candidates| :: candidates[k] == chosen.value
        && RegistrationMatches(candidates[k], Normalise(plane.r))
        && forall j | 0 <= j < k :: !RegistrationMatches(candidates[j], Normalise(plane.r))
    ensures |candidates| != 1 && chosen.None? ==>
      forall j | 0 <= j < |candidates| :: !RegistrationMatches(candidates[j], Normalise(plane.r))
  {
    if |candidates| == 1 then Some(candidates[0])
    else
      match FindByRegistration(candidates, Normalise(plane.r))
      case None => None
      case Some(k) => Some(candidates[k])
  }

  /** `await correlateFlightRadar(flight).catch((e) => null)`: a failed lookup reads as no
      flight data. */
  function Correlate(lookup: Lookup, plane: Aircraft): (frData: Option<FrFlight>)
    ensures lookup.Failure? ==> frData.None?
    ensures lookup.Success? ==> frData == SelectCandidate(lookup.value, plane)
  {
    match lookup
    case Failure(_) => None
    case Success(candidates) => SelectCandidate(candidates, plane)
  }

  /** A lookup without a registration never matches, so with several candidates or none
      it finds nothing. */
  lemma NoRegistrationNoMatch(candidates: seq<FrFlight>, plane: Aircraft)
    requires plane.r.None? && |candidates| != 1
    ensures SelectCandidate(candidates, plane).None?
  {
  }

  /** What the message depends on besides the aircraft: `process.env.BASEURL`, the parsed
      airport-code file, the airline table and the `titlecase` package. */
  datatype Env = Env(
    baseUrl: Option<string>,
    airports: map<string, string>,
    airlines: AirlineTable,
    titlecase: Titlecase)

  const LOCAL_BASE_URL := "http://localhost:3000"

  /** `${process.env.BASEURL || "http://localhost:3000"}/go/${flight.hex}` */
  function DeepLink(env: Env, flight: Aircraft): string {
    OrElse(env.baseUrl, LOCAL_BASE_URL) + "/go/" + Show(flight.hex)
  }

  /** `airportCodes[code]` */
  function AirportName(env: Env, code: string): Option<string> {
    if code in env.airports then Some(env.airports[code]) else None
  }

  /** The three messages `getMessage` can produce, with the pieces each one shows. */
  datatype Announcement =
    | Helicopter(airline: string, model: string, url: string)
    | Route(airline: string, flightNumber: string, from: string, to: string, model: string, url: string)
    | Generic(airline: string, flightNumber: string, model: string, url: string)

  /** The branch `getMessage` takes and the pieces it fills in. */
  function Compose(env: Env, flight: Aircraft, frData: Option<FrFlight>): (a: Announcement)
    ensures a.Helicopter? <==> flight.category == Some("A7")
    ensures a.Route? <==>
      && flight.category != Some("A7")
      && frData.Some? && Truthy(frData.value.originAirportIata) && Truthy(frData.value.destinationAirportIata)
    ensures a.url == DeepLink(env, flight)
  {
    var src := if frData.Some? then frData.value.originAirportIata else None;
    var dest := if frData.Some? then frData.value.destinationAirportIata else None;
    var flightNumber := Show(TrimOpt(flight.flight));
    var airline := GetAirline(flight, env.airlines, env.titlecase);
    var model := SanitiseModel(flight.desc, env.titlecase);
    var url := DeepLink(env, flight);
    if flight.category == Some("A7") then
      Helicopter(airline, model, url)
    else if Truthy(src) && Truthy(dest) then
      Route(airline, flightNumber, OrElse(AirportName(env, src.value), src.value),
            OrElse(AirportName(env, dest.value), dest.value), model, url)
    else
      Generic(airline, flightNumber, model, url)
  }

  /** The text of an announcement: every variant ends with its link. */
  function Render(a: Announcement): (s: string)
    ensures EndsWith(s, a.url)
  {
    match a
    case Helicopter(airline, model, url) =>
      var lead := "\U{1F681} " + airline + " is flying " + Articleise(model) + " helicopter overhead ";
      EndsWithAppended(lead, url);
      lead + url
    case Route(airline, flightNumber, from, to, model, url) =>
      var lead := "\U{2708}\U{FE0F} " + airline + " flight " + flightNumber + " from " + from + " to " + to
        + ", operating " + Articleise(model) + " is passing overhead ";
      EndsWithAppended(lead, url);
      lead + url
    case Generic(airline, flightNumber, model, url) =>
      var lead := airline + ", flight " + flightNumber + " operating " + Articleise(model) + " is passing overhead ";
      EndsWithAppended(lead, url);
      lead + url
  }

  /** `getMessage(flight, frData)`: every message ends with the aircraft's deep link
      `<base>/go/<hex>`. */
  function GetMessage(env: Env, flight: Aircraft, frData: Option<FrFlight>): (m: string)
    ensures EndsWith(m, DeepLink(env, flight))
  {
    Render(Compose(env, flight, frData))
  }

  lemma EndsWithAppended(prefix: string, suffix: string)
    ensures EndsWith(prefix + suffix, suffix)
  {
    assert (prefix + suffix)[|prefix|..] == suffix;
  }

  /** A helicopter gets the helicopter message whatever the flight data says. */
  lemma HelicopterIgnoresRoute(env: Env, flight: Aircraft, f1: Option<FrFlight>, f2: Option<FrFlight>)
    requires flight.category == Some("A7")
    ensures GetMessage(env, flight, f1) == GetMessage(env, flight, f2)
    ensures GetMessage(env, flight, f1) ==
      "\U{1F681} " + GetAirline(flight, env.airlines, env.titlecase) + " is flying "
      + Articleise(SanitiseModel(flight.desc, env.titlecase)) + " helicopter overhead " + DeepLink(env, flight)
  {
  }

  lemma InfixOfAppend(p: string, x: string)
    ensures InfixAt(p + x, |p|, x)
  {
    assert (p + x)[|p|..|p| + |x|] == x;
  }

  lemma InfixSurvivesAppend(t: string, i: int, x: string, s: string)
    requires InfixAt(t, i, x)
    ensures InfixAt(t + s, i, x)
  {
    assert (t + s)[i..i + |x|] == t[i..i + |x|];
  }

  /** The text of a route announcement shows both airports. */
  lemma RouteTextNamesAirports(a: Announcement)
    requires a.Route?
    ensures Contains(Render(a), a.from) && Contains(Render(a), a.to)
  {
    var t0 := "\U{2708}\U{FE0F} " + a.airline + " flight " + a.flightNumber + " from ";
    var t1 := t0 + a.from + " to ";
    var t2 := t1 + a.to;
    var t3 := t2 + ", operating ";
    var t4 := t3 + Articleise(a.model);
    var t5 := t4 + " is passing overhead ";
    InfixOfAppend(t0, a.from);
    InfixSurvivesAppend(t0 + a.from, |t0|, a.from, " to ");
    InfixSurvivesAppend(t1, |t0|, a.from, a.to);
    InfixOfAppend(t1, a.to);
    InfixSurvivesAppend(t2, |t0|, a.from, ", operating ");
    InfixSurvivesAppend(t2, |t1|, a.to, ", operating ");
    InfixSurvivesAppend(t3, |t0|, a.from, Articleise(a.model));
    InfixSurvivesAppend(t3, |t1|, a.to, Articleise(a.model));
    InfixSurvivesAppend(t4, |t0|, a.from, " is passing overhead ");
    InfixSurvivesAppend(t4, |t1|, a.to, " is passing overhead ");
    InfixSurvivesAppend(t5, |t0|, a.from, a.url);
    InfixSurvivesAppend(t5, |t1|, a.to, a.url);
  }

  /** The route message names both airports, by name when the code file has one and by
      code otherwise. */
  lemma RouteNamesBothAirports(env: Env, flight: Aircraft, fr: FrFlight)
    requires flight.category != Some("A7")
    requires Truthy(fr.originAirportIata) && Truthy(fr.destinationAirportIata)
    ensures Contains(GetMessage(env, flight, Some(fr)),
                     OrElse(AirportName(env, fr.originAirportIata.value), fr.originAirportIata.value))
    ensures Contains(GetMessage(env, flight, Some(fr)),
                     OrElse(AirportName(env, fr.destinationAirportIata.value), fr.destinationAirportIata.value))
  {
    RouteTextNamesAirports(Compose(env, flight, Some(fr)));
  }

  /** `flights.aircraft.filter(aircraft => isInBoundingBox([aircraft.lon, aircraft.lat], bbox))` */
  function Overhead(aircraft: seq<Aircraft>, box: BoundingBox): (inside: seq<Aircraft>)
    ensures |inside| <= |aircraft|
    ensures forall plane :: plane in inside <==> plane in aircraft && IsInBoundingBox(Position(plane), box)
  {
    if aircraft == [] then []
    else
      var n := |aircraft| - 1;
      var front := Overhead(aircraft[..n], box);
      assert aircraft == aircraft[..n] + [aircraft[n]];
      if IsInBoundingBox(Position(aircraft[n]), box) then front + [aircraft[n]] else front
  }

  /** The overhead aircraft whose registration is not in the window when the cycle starts:
      every `announceFlight` of a cycle checks the window before any of them updates it. */
  function Unannounced(window: seq<Option<string>>, overhead: seq<Aircraft>): (pending: seq<Aircraft>)
    ensures |pending| <= |overhead|
    ensures forall plane :: plane in pending <==> plane in overhead && Normalise(plane.r) !in window
  {
    if overhead == [] then []
    else
      var n := |overhead| - 1;
      var front := Unannounced(window, overhead[..n]);
      assert overhead == overhead[..n] + [overhead[n]];
      if Normalise(overhead[n].r) !in window then front + [overhead[n]] else front
  }

  /** The messages posted for `flights`, in order. */
  function Messages(env: Env, flights: seq<Aircraft>, correlate: Aircraft -> Lookup): (posts: seq<string>)
    ensures |posts| == |flights|
  {
    seq(|flights|, j requires 0 <= j < |flights| => GetMessage(env, flights[j], Correlate(correlate(flights[j]), flights[j])))
  }

  /** The window after recording `flights`, in order. */
  function RecordAll(window: seq<Option<string>>, flights: seq<Aircraft>): seq<Option<string>>
    decreases |flights|
  {
    if flights == [] then window
    else RecordAll(Recorded(window, Normalise(flights[0].r)), flights[1..])
  }

  /** `track()`: one polling cycle. `feed` is what the ADS-B request produced and
      `correlate` what the FlightRadar24 query gives for each aircraft. A failed feed
      request ends the cycle before anything changes. The announcements of a cycle first
      all consult the window and then all record, here in the order they were started. */
  method Track(feed: Result<seq<Aircraft>, string>, correlate: Aircraft -> Lookup, env: Env,
               accumulator: TrackAccumulator, window: AnnouncementWindow)
    returns (geoJson: Option<FeatureCollection>, posts: seq<string>)
    requires window.Valid()
    modifies accumulator, window
    ensures window.Valid()
    ensures feed.Failure? ==>
      (geoJson.None? && posts == [] && accumulator.tracks == old(accumulator.tracks)
       && window.announced == old(window.announced))
    ensures feed.Success? ==>
      var enriched := Enriched(old(accumulator.tracks), feed.value);
      var pending := Unannounced(old(window.announced), Overhead(enriched, BBOX));
      && accumulator.tracks == NextTracks(old(accumulator.tracks), feed.value)
      && geoJson == Some(MakeGeoJson(enriched, BBOX))
      && posts == Messages(env, pending, correlate)
      && window.announced == RecordAll(old(window.announced), pending)
  {
    if feed.Failure? {
      return None, [];
    }
    var aircraft := accumulator.AccumulateFlights(feed.value);
    geoJson := Some(MakeGeoJson(aircraft, BBOX));
    var overhead := Overhead(aircraft, BBOX);
    var go := CheckWindow(window, overhead);
    posts := AnnouncePending(window, overhead, go, env, correlate);
  }

  /** The first half of every `announceFlight` of a cycle: each call runs up to its first
      `await`, the window lookup included, before any call resumes. */
  method CheckWindow(window: AnnouncementWindow, overhead: seq<Aircraft>) returns (go: seq<bool>)
    ensures |go| == |overhead|
    ensures forall j | 0 <= j < |overhead| :: go[j] <==> Normalise(overhead[j].r) !in window.announced
  {
    go := [];
    for i := 0 to |overhead|
      invariant |go| == i
      invariant forall j | 0 <= j < i :: go[j] <==> Normalise(overhead[j].r) !in window.announced
    {
      var announce := window.ShouldAnnounce(Normalise(overhead[i].r));
      go := go + [announce];
    }
  }

  /** The second half: every call that found its registration missing posts its message
      and records the registration, here in the order the calls were made. */
  method AnnouncePending(window: AnnouncementWindow, overhead: seq<Aircraft>, go: seq<bool>,
                         env: Env, correlate: Aircraft -> Lookup)
    returns (posts: seq<string>)
    requires window.Valid()
    requires |go| == |overhead|
    requires forall j | 0 <= j < |overhead| :: go[j] <==> Normalise(overhead[j].r) !in window.announced
    modifies window
    ensures window.Valid()
    ensures posts == Messages(env, Unannounced(old(window.announced), overhead), correlate)
    ensures window.announced == RecordAll(old(window.announced), Unannounced(old(window.announced), overhead))
  {
    ghost var before := window.announced;
    posts := [];
    ghost var done: seq<Aircraft> := [];
    for i := 0 to |overhead|
      invariant window.Valid()
      invariant done == Unannounced(before, overhead[..i])
      invariant posts == Messages(env, done, correlate)
      invariant window.announced == RecordAll(before, done)
    {
      assert overhead[..i + 1][..i] == overhead[..i];
      assert Unannounced(before, overhead[..i + 1]) == if go[i] then done + [overhead[i]] else done;
      if go[i] {
        var plane := overhead[i];
        var frData := Correlate(correlate(plane), plane);
        MessagesAppend(env, done, plane, correlate);
        posts := posts + [GetMessage(env, plane, frData)];
        RecordAllAppend(before, done, plane);
        window.Record(Normalise(plane.r));
        done := done + [plane];
      }
    }
    assert overhead[..|overhead|] == overhead;
  }

  lemma MessagesAppend(env: Env, flights: seq<Aircraft>, plane: Aircraft, correlate: Aircraft -> Lookup)
    ensures Messages(env, flights + [plane], correlate)
      == Messages(env, flights, correlate) + [GetMessage(env, plane, Correlate(correlate(plane), plane))]
  {
  }

  lemma {:induction false} RecordAllAppend(window: seq<Option<string>>, flights: seq<Aircraft>, plane: Aircraft)
    ensures RecordAll(window, flights + [plane]) == Recorded(RecordAll(window, flights), Normalise(plane.r))
    decreases |flights|
  {
    if flights != [] {
      assert (flights + [plane])[1..] == flights[1..] + [plane];
      RecordAllAppend(Recorded(window, Normalise(flights[0].r)), flights[1..], plane);
    }
  }

  /** Two overhead aircraft of one cycle with the same unannounced registration are both
      announced: neither sees the other's window update. */
  lemma SameCycleDuplicatesBothPosted(window: seq<Option<string>>, overhead: seq<Aircraft>, j1: nat, j2: nat)
    requires j1 < j2 < |overhead| && Normalise(overhead[j1].r) == Normalise(overhead[j2].r)
    requires Normalise(overhead[j1].r) !in window
    ensures exists k1, k2 | 0 <= k1 < k2 < |Unannounced(window, overhead)| ::
      Unannounced(window, overhead)[k1] == overhead[j1] && Unannounced(window, overhead)[k2] == overhead[j2]
  {
    UnannouncedKeepsOrder(window, overhead, j1, j2);
    var k1, k2 := |Unannounced(window, overhead[..j1])|, |Unannounced(window, overhead[..j2])|;
    assert Unannounced(window, overhead)[k1] == overhead[j1] && Unannounced(window, overhead)[k2] == overhead[j2];
  }

  /** `Unannounced` keeps the aircraft it passes in their order: each one sits right after
      those that passed before it. */
  lemma UnannouncedKeepsOrder(window: seq<Option<string>>, overhead: seq<Aircraft>, j1: nat, j2: nat)
    requires j1 < j2 < |overhead|
    requires Normalise(overhead[j1].r) !in window && Normalise(overhead[j2].r) !in window
    ensures var k1, k2 := |Unannounced(window, overhead[..j1])|, |Unannounced(window, overhead[..j2])|;
      && k1 < k2 < |Unannounced(window, overhead)|
      && Unannounced(window, overhead)[k1] == overhead[j1]
      && Unannounced(window, overhead)[k2] == overhead[j2]
  {
    UnannouncedPosition(window, overhead, j1);
    UnannouncedPosition(window, overhead, j2);
    var upTo := overhead[..j2];
    assert upTo[..j1] == overhead[..j1] && upTo[j1] == overhead[j1];
    UnannouncedPosition(window, upTo, j1);
  }

  /** A passing aircraft's place in the pending list is the number of aircraft passing
      before it. */
  lemma UnannouncedPosition(window: seq<Option<string>>, overhead: seq<Aircraft>, j: nat)
    requires j < |overhead| && Normalise(overhead[j].r) !in window
    ensures var k := |Unannounced(window, overhead[..j])|;
      k < |Unannounced(window, overhead)| && Unannounced(window, overhead)[k] == overhead[j]
  {
    var upTo := overhead[..j + 1];
    assert upTo[..j] == overhead[..j];
    UnannouncedExtends(window, upTo);
    UnannouncedPrefix(window, overhead, j + 1);
  }

  /** The pending list of a prefix of the aircraft is a prefix of the pending list. */
  lemma {:induction false} UnannouncedPrefix(window: seq<Option<string>>, overhead: seq<Aircraft>, m: nat)
    requires m <= |overhead|
    ensures var front := Unannounced(window, overhead[..m]);
      |front| <= |Unannounced(window, overhead)| && Unannounced(window, overhead)[..|front|] == front
    decreases |overhead|
  {
    if m < |overhead| {
      var n := |overhead| - 1;
      assert overhead[..n][..m] == overhead[..m];
      UnannouncedPrefix(window, overhead[..n], m);
      UnannouncedExtends(window, overhead);
      PrefixOfPrefix(Unannounced(window, overhead[..m]), Unannounced(window, overhead[..n]), Unannounced(window, overhead));
    } else {
      assert overhead[..m] == overhead;
    }
  }

  lemma PrefixOfPrefix<T>(a: seq<T>, b: seq<T>, c: seq<T>)
    requires |a| <= |b| <= |c| && b[..|a|] == a && c[..|b|] == b
    ensures c[..|a|] == a
  {
    assert c[..|a|] == c[..|b|][..|a|];
  }

  /** One more aircraft extends the pending list at its end, if at all. */
  lemma UnannouncedExtends(window: seq<Option<string>>, overhead: seq<Aircraft>)
    requires overhead != []
    ensures var n := |overhead| - 1;
      var front := Unannounced(window, overhead[..n]);
      var pending := Unannounced(window, overhead);
      && |front| <= |pending|
      && pending[..|front|] == front
      && (Normalise(overhead[n].r) !in window ==> |pending| == |front| + 1 && pending[|front|] == overhead[n])
  {
  }

  /** `filter` keeps every aircraft inside the box as often as the snapshot lists it and
      drops every other. */
  lemma {:induction false} OverheadCounts(aircraft: seq<Aircraft>, box: BoundingBox, plane: Aircraft)
    ensures multiset(Overhead(aircraft, box))[plane]
      == if IsInBoundingBox(Position(plane), box) then multiset(aircraft)[plane] else 0
    decreases |aircraft|
  {
    if aircraft != [] {
      var n := |aircraft| - 1;
      assert aircraft == aircraft[..n] + [aircraft[n]];
      OverheadCounts(aircraft[..n], box, plane);
    }
  }

  /** `filter` keeps the aircraft it passes in their order: each one sits right after
      those that passed before it. */
  lemma OverheadKeepsOrder(aircraft: seq<Aircraft>, box: BoundingBox, j1: nat, j2: nat)
    requires j1 < j2 < |aircraft|
    requires IsInBoundingBox(Position(aircraft[j1]), box) && IsInBoundingBox(Position(aircraft[j2]), box)
    ensures var k1, k2 := |Overhead(aircraft[..j1], box)|, |Overhead(aircraft[..j2], box)|;
      && k1 < k2 < |Overhead(aircraft, box)|
      && Overhead(aircraft, box)[k1] == aircraft[j1]
      && Overhead(aircraft, box)[k2] == aircraft[j2]
  {
    OverheadPosition(aircraft, box, j1);
    OverheadPosition(aircraft, box, j2);
    var upTo := aircraft[..j2];
    assert upTo[..j1] == aircraft[..j1] && upTo[j1] == aircraft[j1];
    OverheadPosition(upTo, box, j1);
  }

  /** An aircraft inside the box sits in the filtered list at the number of aircraft inside
      the box before it. */
  lemma OverheadPosition(aircraft: seq<Aircraft>, box: BoundingBox, j: nat)
    requires j < |aircraft| && IsInBoundingBox(Position(aircraft[j]), box)
    ensures var k := |Overhead(aircraft[..j], box)|;
      k < |Overhead(aircraft, box)| && Overhead(aircraft, box)[k] == aircraft[j]
  {
    var upTo := aircraft[..j + 1];
    assert upTo[..j] == aircraft[..j];
    OverheadExtends(upTo, box);
    OverheadPrefix(aircraft, box, j + 1);
  }

  /** The filtered list of a prefix of the aircraft is a prefix of the filtered list. */
  lemma {:induction false} OverheadPrefix(aircraft: seq<Aircraft>, box: BoundingBox, m: nat)
    requires m <= |aircraft|
    ensures var front := Overhead(aircraft[..m], box);
      |front| <= |Overhead(aircraft, box)| && Overhead(aircraft, box)[..|front|] == front
    decreases |aircraft|
  {
    if m < |aircraft| {
      var n := |aircraft| - 1;
      assert aircraft[..n][..m] == aircraft[..m];
      OverheadPrefix(aircraft[..n], box, m);
      OverheadExtends(aircraft, box);
      PrefixOfPrefix(Overhead(aircraft[..m], box), Overhead(aircraft[..n], box), Overhead(aircraft, box));
    } else {
      assert aircraft[..m] == aircraft;
    }
  }

  /** One more aircraft extends the filtered list at its end, if at all. */
  lemma OverheadExtends(aircraft: seq<Aircraft>, box: BoundingBox)
    requires aircraft != []
    ensures var n := |aircraft| - 1;
      var front := Overhead(aircraft[..n], box);
      var inside := Overhead(aircraft, box);
      && |front| <= |inside|
      && inside[..|front|] == front
      && (IsInBoundingBox(Position(aircraft[n]), box) ==> |inside| == |front| + 1 && inside[|front|] == aircraft[n])
  {
  }

  /** Recording does not consult the window: every announcement of a cycle, a same-cycle
      duplicate included, pushes the older entries back by one. A registration whose first
      place in the window is `p` is still there after `n` further recordings of other
      registrations exactly when `p + n <= 10`. */
  lemma {:induction false} RecordAllForgetsAfterTen(window: seq<Option<string>>, flights: seq<Aircraft>, a: Option<string>, p: nat)
    requires |window| <= KEPT + 1
    requires p < |window| && window[p] == a
    requires forall i | 0 <= i < p :: window[i] != a
    requires forall k | 0 <= k < |flights| :: Normalise(flights[k].r) != a
    ensures a in RecordAll(window, flights) <==> p + |flights| <= KEPT
    decreases |flights|
  {
    if flights != [] {
      var next := Recorded(window, Normalise(flights[0].r));
      forall k | 0 <= k < |flights[1..]| ensures Normalise(flights[1..][k].r) != a {
        assert flights[1..][k] == flights[k + 1];
      }
      if p < KEPT {
        assert next[p + 1] == a;
        RecordAllForgetsAfterTen(next, flights[1..], a, p + 1);
      } else {
        assert a !in next;
        RecordAllNeverAdds(next, flights[1..], a);
      }
    }
  }

  /** A registration outside the window that is not recorded stays outside. */
  lemma {:induction false} RecordAllNeverAdds(window: seq<Option<string>>, flights: seq<Aircraft>, a: Option<string>)
    requires a !in window
    requires forall k | 0 <= k < |flights| :: Normalise(flights[k].r) != a
    ensures a !in RecordAll(window, flights)
    decreases |flights|
  {
    if flights != [] {
      var next := Recorded(window, Normalise(flights[0].r));
      if a in next {
        RecordedHolds(window, Normalise(flights[0].r), a);
      }
      forall k | 0 <= k < |flights[1..]| ensures Normalise(flights[1..][k].r) != a {
        assert flights[1..][k] == flights[k + 1];
      }
      RecordAllNeverAdds(next, flights[1..], a);
    }
  }

  /** Recording registrations that are distinct and all missing from the window gives the
      same window as announcing them one at a time, each after the previous update. */
  lemma {:induction false} RecordAllIsAdmitAll(window: seq<Option<string>>, flights: seq<Aircraft>)
    requires forall k | 0 <= k < |flights| :: Normalise(flights[k].r) !in window
    requires forall k, l | 0 <= k < l < |flights| :: Normalise(flights[k].r) != Normalise(flights[l].r)
    ensures RecordAll(window, flights) == AdmitAll(window, Registrations(flights))
    decreases |flights|
  {
    if flights != [] {
      var id := Normalise(flights[0].r);
      var next := Recorded(window, id);
      assert AfterAdmit(window, id) == next;
      assert Registrations(flights)[1..] == Registrations(flights[1..]);
      forall k | 0 <= k < |flights[1..]| ensures Normalise(flights[1..][k].r) !in next {
        assert flights[1..][k] == flights[k + 1];
        if Normalise(flights[k + 1].r) in next {
          RecordedHolds(window, id, Normalise(flights[k + 1].r));
        }
      }
      forall k, l | 0 <= k < l < |flights[1..]|
        ensures Normalise(flights[1..][k].r) != Normalise(flights[1..][l].r)
      {
        assert flights[1..][k] == flights[k + 1] && flights[1..][l] == flights[l + 1];
      }
      RecordAllIsAdmitAll(next, flights[1..]);
    }
  }

  /** A cycle whose pending aircraft have distinct registrations leaves the window that
      announcing them one at a time gives, so the window lemmas about one-at-a-time
      announcements carry over to it. */
  lemma PendingRecordedAsAdmitted(window: seq<Option<string>>, overhead: seq<Aircraft>)
    requires forall k, l | 0 <= k < l < |Unannounced(window, overhead)| ::
      Normalise(Unannounced(window, overhead)[k].r) != Normalise(Unannounced(window, overhead)[l].r)
    ensures var pending := Unannounced(window, overhead);
      RecordAll(window, pending) == AdmitAll(window, Registrations(pending))
  {
    var pending := Unannounced(window, overhead);
    forall k | 0 <= k < |pending| ensures Normalise(pending[k].r) !in window {
      assert pending[k] in pending;
    }
    RecordAllIsAdmitAll(window, pending);
  }
}
