# womo-flyover, modelled in Dafny

womo-flyover is a bot that watches a rectangle of sky. Every polling cycle it does the following:

- It reads a feed of aircraft positions and keeps a bounded trail of recent positions for each registration.
- It picks out the aircraft inside the rectangle.
- It skips any aircraft announced recently, using a window of the last eleven registrations.
- It looks up each remaining flight on a second flight-data service.
- It posts a one-line message for each: a helicopter sentence, an origin-to-destination sentence, or a generic sentence. In the newer revision each message ends with a link to a tracking page. The older revision's messages have no link and never use the origin-to-destination sentence.

The newer revision also has `src/bot/db.mjs`, which provides a SQLite table of aircraft positions: `insertRow` adds a row, and `getRowsByDateRange` returns the rows of a time range, grouped per aircraft into a line string. Nothing in `bot.mjs` imports it, so the model gives it no caller.

The repository has two revisions of the bot:

- the older one, `index.mjs` and `utils.mjs`;
- the newer one, `src/bot/bot.mjs`, `src/bot/utils.mjs` and `src/bot/db.mjs`.

Both are modelled. Each module of this project follows one source file:

| module | file | models |
|---|---|---|
| `Wrappers` | `wrappers.dfy` | `Option` and `Result` |
| `Text` | `text.dfy` | JavaScript `trim`, `toUpperCase`/`toLowerCase` on ASCII, truthiness, template-literal rendering of `undefined` |
| `Feed` | `feed.dfy` | one aircraft of the position feed, one flight of the flight-data service, the bounding box |
| `Utils` | `utils.dfy` | `src/bot/utils.mjs`; the older `utils.mjs` has the same `articleise`, `sanitiseModel`, `isInBoundingBox` and `makeGeoJson` |
| `LegacyUtils` | `legacy_utils.dfy` | the older `getAirline`, including its regular-expression suffix stripping |
| `Tracks` | `tracks.dfy` | `accumulateFlights`, which is identical in both revisions, as a class over the map of trails |
| `Announcements` | `announcements.dfy` | the announcement window, which is identical in both revisions, as a class |
| `Bot` | `bot.dfy` | the newer `correlateFlightRadar`, `getMessage`, `announceFlight` and `track` |
| `LegacyBot` | `legacy_bot.dfy` | the older `getMessage`, `announceFlight` and `track`; the older `correlateFlightRadar` makes the same selection as the newer one, and its result is never read (see below) |
| `Db` | `db.dfy` | `insertRow` and `getRowsByDateRange` over a location table |

## Faithfulness notes

- **Shared arrays in `accumulateFlights`.** The function pushes each new position into the trail array taken from the previous cycle's map. It attaches that same array to every aircraft with that registration. It only replaces the array once the array is longer than 1000 points.
  - The model keeps this aliasing. An aircraft whose trail was not trimmed sees the positions pushed by later aircraft in the same cycle (`Tracks.SharedTrailSeesLaterPush`).
  - A registration seen for the first time in a cycle keeps only its last position, because each sighting replaces the new one-element array.
- **Asynchronous window check in the newer revision.** The newer `announceFlight` is `async`, and `track` starts all of them through `Promise.all` before any of them records.
  - So every window check of one cycle happens before any registration is recorded.
  - `Bot.Track` models this as a check phase followed by a record phase.
  - Two aircraft with the same registration in one cycle are therefore both announced (`Bot.SameCycleDuplicatesBothPosted`).
  - The older revision is synchronous: its second aircraft is suppressed (`LegacyBot.SameCycleDuplicateSuppressed`).
- **Location table.** The table has the columns id, timestamp, latitude, longitude and name, and the model has exactly those. The grouped query result is `{ name: { lineString: [[lon, lat], ...] } }` (`Db.Group`).
- **Older revision's messages.** The older `announceFlight` passes the promise returned by `correlateFlightRadar` to `getMessage` without awaiting it. The flight fields read from that promise are undefined, so the older revision never writes the route sentence (`LegacyBot.NeverRouteMessage`). The model passes `PENDING_CORRELATION` in its place and does not model the older `correlateFlightRadar` further.
- **Older revision's airport names.** Its airport table is an unparsed buffer, so an airport name always falls back to its code.

## Model

| member | source | states |
|---|---|---|
| `Text.TrimRemovesOuterSpace` | src/bot/bot.mjs:72 | the trimmed registration is an infix of the original; neither end is white space; everything cut off on both sides is white space |
| `Utils.Articleise` | src/bot/utils.mjs:4-11 | the result is "an " plus the word exactly when the word starts with a vowel (either case), and "a " plus the word otherwise |
| `Utils.ArticleiseKeepsWord` | utils.mjs:4-11 | the article is prepended and the word kept whole; the length grows by 3 or 2; the empty word gets "a " |
| `Utils.LookupKey` | src/bot/utils.mjs:16-18 | there is a lookup key exactly when the category is A0, A2 or A5 and the designator is longer than three characters; the key is its first three characters |
| `Utils.GetAirline` | src/bot/utils.mjs:13-30 | with no key, or no name under the key, the result is the lower-cased then titlecased registered operator, or "Unknown operator" without one; otherwise the airline's name |
| `Utils.GetAirlineConsultsOnlyItsKey` | src/bot/utils.mjs:16-23 | two airline tables that agree on the flight's key give the same airline |
| `Utils.SanitiseModel` | src/bot/utils.mjs:32-34 | a missing or empty model becomes "unknown aircraft" titlecased; any other model is titlecased as it is |
| `Utils.IsInBoundingBox` | src/bot/utils.mjs:36-42 | a point is inside exactly when its latitude lies between bottom and top and its longitude between left and right, with the edges included |
| `Utils.MakeGeoJson` | src/bot/utils.mjs:44-88 | one point per aircraft plus one line per aircraft with a trail of more than one point, then the rectangle polygon last and nowhere else |
| `Utils.FeaturesInFlightOrder` | src/bot/utils.mjs:49-68 | aircraft i's point sits right after the features of the aircraft before it, with its properties; its line follows it when it has a trail of more than one point |
| `Utils.BoundaryRingIsClosedOutline` | src/bot/utils.mjs:70-85 | the ring has five corners, starts and ends at the top-left corner, and every corner lies in the rectangle |
| `LegacyUtils.DesignatorPrefix` | utils.mjs:14 | there is a key exactly when there is a designator; it is the designator's first three characters, or the whole designator when it is shorter |
| `LegacyUtils.FirstMatch` | utils.mjs:25-32 | the position returned is the leftmost at which the pattern matches; none means no position matches |
| `LegacyUtils.RemoveFirst` | utils.mjs:25-32 | with no match the text is unchanged; otherwise exactly the leftmost match is cut out |
| `LegacyUtils.StripCorporateSuffixes` | utils.mjs:28-30 | the three suffix removals in source order; the name never gets longer |
| `LegacyUtils.StripCorporateSuffixesNeedsSpace` | utils.mjs:25-32 | an operator name without white space is left as it is, since every suffix pattern starts with white space |
| `LegacyUtils.GetAirline` | utils.mjs:13-33 | fails (the source throws) exactly when the table has no row for the designator prefix; otherwise gives the airline's name, or the operator with corporate suffixes stripped |
| `Tracks.KeepLast` | src/bot/bot.mjs:78-80 | the newest n positions of a log: a suffix of it of length min(length, n) |
| `Tracks.TrackAccumulator.AccumulateFlights` | src/bot/bot.mjs:68-86 | the new map of trails and the returned aircraft (with shared trail arrays) are the closed forms `NextTracks` and `Enriched` of the old map and the snapshot; every trail stays 1..1000 points |
| `Tracks.AccumulateOne` | src/bot/bot.mjs:71-83 | one iteration of the loop: lookup, push, slice, store and stamp extend the four fold descriptions by exactly one aircraft |
| `Tracks.LinkSharedArrays` | src/bot/bot.mjs:76-82 | aircraft that hold a previous cycle's array see its final contents once the loop ends |
| `Tracks.NextTracksClosedForm` | src/bot/bot.mjs:70-84 | a registration has a trail exactly when it was sighted this cycle; a known one keeps the newest 1000 of its old trail plus this cycle's sightings, a new one only its last sighting |
| `Tracks.TracksBounded` | src/bot/bot.mjs:78-81 | every stored trail has between 1 and 1000 positions |
| `Tracks.KeysAreThisCycleRegistrations` | src/bot/bot.mjs:70-84 | the keys of the new map are exactly the trimmed, non-empty registrations of this snapshot; registrations not seen are dropped |
| `Tracks.UnregisteredPlaneUntouched` | src/bot/bot.mjs:72-75 | an aircraft without a usable registration passes through unchanged and makes no entry, not even under the empty key |
| `Tracks.SingleSighting` | src/bot/bot.mjs:76-82 | an aircraft seen once gets the old trail plus its position, cut to 1000, and carries that same trail |
| `Tracks.TwoSightings` | src/bot/bot.mjs:76-81 | seen twice, a known registration's trail grows by both positions; a new registration keeps only its second position |
| `Tracks.SharedTrailSeesLaterPush` | src/bot/bot.mjs:76-82 | two sightings of a known registration that do not overflow carry the same trail, including the later position |
| `Tracks.TrimDropsOldest` | index.mjs:56-61 | once old trail plus sightings exceed 1000 positions, exactly the oldest are dropped and the newest 1000 kept |
| `Tracks.SteadySightings` | index.mjs:48-66 | over consecutive cycles that each see an aircraft once, its trail is the newest 1000 of the old trail followed by every position seen |
| `Announcements.Normalise` | src/bot/bot.mjs:49 | an absent registration stays absent; a present one becomes its trimmed form with each character upper-cased, so it has no lower-case letter and no white space at either end |
| `Announcements.NormaliseIdempotent` | src/bot/bot.mjs:49 | normalising a normalised registration changes nothing |
| `Announcements.Recorded` | src/bot/bot.mjs:62 | the new registration heads the window, the older entries follow in order, and the window holds at most 11 |
| `Announcements.AnnouncementWindow.ShouldAnnounce` | src/bot/bot.mjs:50-52 | announce exactly when the registration is not among the recent announcements |
| `Announcements.AnnouncementWindow.Record` | src/bot/bot.mjs:62 | the window becomes `Recorded` of the old window and stays at most 11 long |
| `Announcements.AdmitKeepsWindowBounded` | index.mjs:33-42 | a hit leaves the window unchanged; a miss puts the registration at its head; either way it is then in the window |
| `Announcements.NeverAdmittedStaysOut` | index.mjs:33-42 | a registration that is not in the window and not announced does not appear in it |
| `Announcements.WindowForgetsAfterTen` | index.mjs:33-42 | an entry at position p is still in the window after n new announcements exactly when p + n <= 10 |
| `Announcements.SuppressedForTenAnnouncements` | index.mjs:33-42 | when announcements are admitted one at a time, as the older revision's cycle does (`LegacyBot.AnnounceAllIsAdmitAll`), an announced aircraft stays suppressed through exactly ten further distinct announcements |
| `Bot.FindByRegistration` | src/bot/bot.mjs:95-98 | returns the first candidate whose registration equals the normalised one, or none when no candidate matches |
| `Bot.SelectCandidate` | src/bot/bot.mjs:92-98 | a single candidate is taken as is; otherwise the first with a matching registration, or none when no candidate matches |
| `Bot.Correlate` | src/bot/bot.mjs:54 | a failed lookup gives no flight data; otherwise the selection among the candidates |
| `Bot.NoRegistrationNoMatch` | src/bot/bot.mjs:95-98 | an aircraft without a registration matches none of several candidates |
| `Bot.Compose` | src/bot/bot.mjs:19-46 | a helicopter sentence exactly for category A7; a route sentence exactly when not a helicopter and both airport codes are truthy; the deep link is the aircraft's |
| `Bot.Render` | src/bot/bot.mjs:32-45 | the text of each of the three sentences; each ends with its link |
| `Bot.GetMessage` | src/bot/bot.mjs:19-46 | the message text of the branch `Compose` picks; every message ends with the aircraft's tracking link |
| `Bot.HelicopterIgnoresRoute` | src/bot/bot.mjs:32-36 | a helicopter's message does not depend on the flight data and is the helicopter sentence |
| `Bot.RouteNamesBothAirports` | src/bot/bot.mjs:38-42 | the route message names both the origin and the destination airport, or their codes when unknown |
| `Bot.Overhead` | src/bot/bot.mjs:122-124 | the aircraft kept are exactly those of the snapshot inside the rectangle |
| `Bot.OverheadCounts` | src/bot/bot.mjs:122-124 | an aircraft inside the rectangle is kept as many times as it occurs in the snapshot; one outside is not kept |
| `Bot.OverheadKeepsOrder` | src/bot/bot.mjs:122-124 | two kept aircraft appear in the order they had in the snapshot |
| `Bot.Unannounced` | src/bot/bot.mjs:48-52 | the aircraft announced are exactly those overhead whose registration is not in the window |
| `Bot.CheckWindow` | src/bot/bot.mjs:49-52 | every aircraft's verdict is taken against the window as it was before the cycle |
| `Bot.AnnouncePending` | src/bot/bot.mjs:53-62 | posts one message per unannounced aircraft, in order, with its correlated flight data, then records each of them |
| `Bot.Track` | src/bot/bot.mjs:111-127 | a failed feed changes nothing; otherwise trails accumulate, the overhead aircraft are checked against the old window, then announced and recorded |
| `Bot.SameCycleDuplicatesBothPosted` | src/bot/bot.mjs:122-126 | two overhead aircraft with one new registration are both announced in the same cycle |
| `Bot.UnannouncedKeepsOrder` | src/bot/bot.mjs:122-126 | aircraft are announced in snapshot order |
| `Bot.RecordAllForgetsAfterTen` | src/bot/bot.mjs:48-63 | every announcement of a cycle is recorded, same-cycle duplicates included; an entry at position p survives n recordings of other registrations exactly when p + n <= 10 |
| `Bot.RecordAllIsAdmitAll` | src/bot/bot.mjs:48-63 | recording new, pairwise distinct registrations gives the same window as admitting them one at a time |
| `Bot.PendingRecordedAsAdmitted` | src/bot/bot.mjs:122-126 | when the aircraft announced in a cycle have distinct registrations, the cycle leaves the window that one-at-a-time admission would leave |
| `LegacyBot.Compose` | index.mjs:14-30 | fails exactly when the airline lookup throws; helicopter exactly for A7; route exactly when both codes are truthy |
| `LegacyBot.GetMessage` | index.mjs:12-29 | the message text of the branch `Compose` picks; it fails exactly when the airline lookup throws |
| `LegacyBot.RenderEndsOverhead` | index.mjs:20-28 | each of the three sentences ends with "overhead" |
| `LegacyBot.MessageHasNoLink` | index.mjs:12-29 | every message the older `getMessage` returns ends with " overhead", so the older template appends no tracking link |
| `LegacyBot.NeverRouteMessage` | index.mjs:38-39 | with the unresolved promise as flight data the message is never a route message |
| `LegacyBot.AnnounceStep` | index.mjs:32-43 | suppressed exactly when the registration is in the window; otherwise it throws exactly when `getMessage` fails, with its error, and posts `getMessage`'s text otherwise; the window changes only when a message is posted, and then by recording |
| `LegacyBot.AnnounceFlight` | index.mjs:32-43 | outcome and new window are `AnnounceStep` of the old window |
| `LegacyBot.AnnounceEach` | index.mjs:94 | the posts and the window are those of announcing the overhead aircraft one after another, stopping at the first throw |
| `LegacyBot.Track` | index.mjs:84-95 | a failed feed changes nothing; otherwise trails accumulate and the overhead aircraft are announced one by one |
| `LegacyBot.AnnounceAllAppend` | index.mjs:94 | announcing two runs of aircraft one after the other is announcing their concatenation; a throw in the first run ends the cycle |
| `LegacyBot.AnnounceAllIsAdmitAll` | index.mjs:32-43 | a cycle that does not throw leaves the window of admitting its overhead registrations one at a time |
| `LegacyBot.StaysInWindow` | index.mjs:42 | a registration at position p stays in the window while a cycle without a throw posts at most 10 - p messages |
| `LegacyBot.PostedStaysInWindow` | index.mjs:33-42 | a registration posted at one aircraft is still in the window at a later aircraft when at most ten posts came between |
| `LegacyBot.SuppressedInCycle` | index.mjs:34-36 | an aircraft whose registration is in the current window changes neither the posts nor the window |
| `LegacyBot.SameCycleDuplicateSuppressed` | index.mjs:33-42 | at any two positions of a cycle with one new registration, when the first is posted and at most ten posts come between, the second is suppressed |
| `LegacyBot.MissingAirlineEndsCycle` | index.mjs:94 | at any position, a new registration whose airline lookup throws ends the cycle with that error; the posts and window are those before it |
| `Db.TextLeTransitive` | src/bot/db.mjs:68 | SQLite's binary text order on timestamps is transitive |
| `Db.InRange` | src/bot/db.mjs:66-67 | the rows kept are exactly those with start <= timestamp <= end in text order |
| `Db.InsertByTimestamp` | src/bot/db.mjs:68 | inserting a row keeps every other row and adds exactly it |
| `Db.SortIsSorted` | src/bot/db.mjs:68 | the rows come out in ascending timestamp order |
| `Db.Selected` | src/bot/db.mjs:66-68 | the query's rows are exactly the in-range rows, with the same multiplicities, in ascending timestamp order |
| `Db.GroupByNameClosedForm` | src/bot/db.mjs:76-84 | a name has a group exactly when some row has that name; its line is that name's points in row order |
| `Db.GroupsNonEmpty` | src/bot/db.mjs:77-83 | no group has an empty line |
| `Db.TotalPoints` | src/bot/db.mjs:76-84 | the lines of all groups together hold exactly one point per row |
| `Db.NamedRowsSorted` | src/bot/db.mjs:68-84 | each group's points are in timestamp order |
| `Db.QueryKeys` | src/bot/db.mjs:64-88 | the result has a key exactly for the names of rows in the range |
| `Db.QueryGroup` | src/bot/db.mjs:64-88 | each name's line holds the points of exactly its in-range rows, in timestamp order, and is not empty |
| `Db.QueryTotal` | src/bot/db.mjs:64-88 | the result has one point per in-range row |
| `Db.QueryAfterInsert` | src/bot/db.mjs:49-88 | an out-of-range insert leaves the query result unchanged; an in-range one adds its name and its point to the result |
| `Db.LocationTable.InsertRow` | src/bot/db.mjs:49-56 | with every column present, the row is appended with the next id; with any column missing, the NOT NULL constraint fails and the table is unchanged |
| `Db.LocationTable.GetRowsByDateRange` | src/bot/db.mjs:64-88 | a query error is returned as the error; otherwise the rows in range grouped by name |
| `Db.GroupRows` | src/bot/db.mjs:75-84 | the loop builds exactly the grouping `GroupByName` of the selected rows |

## Left out

- Network calls are parameters of the model: the position feed, the flight-data service and posting. A failed fetch or lookup is a `Failure` value.
- Other side effects are left out: console logging, writing `flights.geo.json` and reading environment variables. The deep-link base and the airport table are an `Env` parameter.
- The `setInterval` timer and the top-level calls that start a cycle are left out. `Track` models one cycle.
- Promise completion order is left out. In the newer revision the model resolves correlations and records registrations in call order. Under the source's `Promise.all` each call posts and records when its own correlation settles, so the cycle's posts and the window's same-cycle entries can come in any completion order. With eleven or more same-cycle records it can also differ in which registrations remain.
- The SQLite engine is left out: connection and schema creation. A query error is a parameter.
- Db.Selected: ties between equal timestamps under `ORDER BY` are taken in insertion order. SQLite does not promise that order.
- Db.PointOf: does not model the `toFixed(4)` rounding of coordinates, because the model has no decimal formatting of floating-point numbers. Coordinates are exact reals.
- SQLite type affinity is left out: timestamps are compared as text.
- Upper-casing, lower-casing and vowel tests cover ASCII letters only. Lengths count characters, not UTF-16 code units.
- Keys that JavaScript objects inherit, such as `constructor`, are left out for the airport table, the trail map and the grouped rows.
- The `airline-codes` table and the `titlecase` function are uninterpreted parameters.
- Aircraft without a position are left out: every aircraft has a longitude and a latitude. The feed's other fields are carried through unread.
- Bot.AnnouncePending: the model posts messages as strings and does not model a failing `post`.
- LegacyBot.AnnounceStep: does not model a failing `post` in the older revision either; only a throwing `getMessage` ends a cycle.
- The older `correlateFlightRadar` (`index.mjs`, lines 68-82) is not modelled beyond its unread result, because nothing reads the flight data it returns.
- The HTTP server in `src/server/index.mjs` is not part of this model.
