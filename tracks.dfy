/** The per-aircraft track accumulator (`accumulateFlights`, the same code in both
    revisions): once per polling cycle it rebuilds the map from registration to the last
    1000 positions and attaches each aircraft's track to it as `lineString`. */
module Tracks {
  import opened Wrappers
  import opened Text
  import opened Feed

  const MAX_TRACK_POINTS: nat := 1000

  /** `plane.r?.trim()`, unless that is missing or empty: the key of the plane's track.
      The key is trimmed but keeps its case. */
  function TrackKey(plane: Aircraft): Option<string> {
    match plane.r
    case None => None
    case Some(r) => if Trim(r) == "" then None else Some(Trim(r))
  }

  /** `log.slice(log.length - n)` when the log is longer than `n`: the newest `n` points. */
  function KeepLast(log: seq<LonLat>, n: nat): (kept: seq<LonLat>)
    ensures |kept| == if |log| > n then n else |log|
    ensures kept == log[|log| - |kept|..]
  {
    if |log| > n then log[|log| - n..] else log
  }

  /** The track an aircraft had before this cycle; `|| []` for a first sighting. */
  function PreviousTrack(prev: map<string, seq<LonLat>>, key: string): seq<LonLat> {
    if key in prev then prev[key] else []
  }

  /** The positions, in feed order, of the planes of `planes` keyed `key`. */
  function Sightings(planes: seq<Aircraft>, key: string): seq<LonLat> {
    if planes == [] then []
    else
      var last := planes[|planes| - 1];
      var earlier := Sightings(planes[..|planes| - 1], key);
      if TrackKey(last) == Some(key) then earlier + [Position(last)] else earlier
  }

  /** The map `accumulateFlights` leaves behind, built plane by plane as the loop does.
      Every lookup reads the previous cycle's map, so a known aircraft's array has received
      every sighting so far, while an aircraft first seen now starts from `[]` at each
      sighting and keeps only its latest position. */
  function NextTracks(prev: map<string, seq<LonLat>>, planes: seq<Aircraft>): map<string, seq<LonLat>>
    decreases |planes|
  {
    if planes == [] then map[]
    else
      var n := |planes| - 1;
      var rest := NextTracks(prev, planes[..n]);
      match TrackKey(planes[n])
      case None => rest
      case Some(key) =>
        rest[key := if key in prev then KeepLast(prev[key] + Sightings(planes, key), MAX_TRACK_POINTS)
                    else [Position(planes[n])]]
  }

  /** The `lineString` plane `j` carries once the cycle is over. A known aircraft's array
      is the previous cycle's array itself unless this sighting made it too long and it
      was sliced; in that case the plane holds a fresh copy, otherwise it shares the array
      and sees every later push of the cycle. */
  function AttachedTrail(prev: map<string, seq<LonLat>>, planes: seq<Aircraft>, j: nat): Option<seq<LonLat>>
    requires j < |planes|
  {
    match TrackKey(planes[j])
    case None => planes[j].lineString
    case Some(key) =>
      if key !in prev then Some([Position(planes[j])])
      else
        var pushed := prev[key] + Sightings(planes[..j + 1], key);
        if |pushed| > MAX_TRACK_POINTS then Some(KeepLast(pushed, MAX_TRACK_POINTS))
        else Some(prev[key] + Sightings(planes, key))
  }

  /** The snapshot `accumulateFlights` returns: the same planes with their tracks attached. */
  function Enriched(prev: map<string, seq<LonLat>>, planes: seq<Aircraft>): (out: seq<Aircraft>)
    ensures |out| == |planes|
    ensures forall j | 0 <= j < |planes| :: out[j] == planes[j].(lineString := AttachedTrail(prev, planes, j))
  {
    seq(|planes|, j requires 0 <= j < |planes| => planes[j].(lineString := AttachedTrail(prev, planes, j)))
  }

  /** What the previous cycle's arrays hold once `push` has extended them with `planes`. */
  function Pushed(prev: map<string, seq<LonLat>>, planes: seq<Aircraft>): map<string, seq<LonLat>> {
    map key | key in prev :: prev[key] + Sightings(planes, key)
  }

  /** The last plane of `planes` as the loop leaves it: with the array it was given. */
  function Stamp(prev: map<string, seq<LonLat>>, planes: seq<Aircraft>): Aircraft
    requires planes != []
  {
    var plane := planes[|planes| - 1];
    match TrackKey(plane)
    case None => plane
    case Some(key) => plane.(lineString := Some(NextTracks(prev, planes)[key]))
  }

  /** The last plane of `planes` was given the previous cycle's array itself, not a slice. */
  predicate Shares(prev: map<string, seq<LonLat>>, planes: seq<Aircraft>)
    requires planes != []
  {
    match TrackKey(planes[|planes| - 1])
    case None => false
    case Some(key) => key in prev && |prev[key] + Sightings(planes, key)| <= MAX_TRACK_POINTS
  }

  /** The planes as the loop of `accumulateFlights` leaves them. */
  function Stamped(prev: map<string, seq<LonLat>>, planes: seq<Aircraft>): (out: seq<Aircraft>)
    ensures |out| == |planes|
  {
    if planes == [] then [] else Stamped(prev, planes[..|planes| - 1]) + [Stamp(prev, planes)]
  }

  /** Which planes the loop handed one of the previous cycle's arrays. */
  function SharedFlags(prev: map<string, seq<LonLat>>, planes: seq<Aircraft>): (flags: seq<bool>)
    ensures |flags| == |planes|
  {
    if planes == [] then [] else SharedFlags(prev, planes[..|planes| - 1]) + [Shares(prev, planes)]
  }

  /** Every track holds between 1 and 1000 points. */
  predicate Bounded(tracks: map<string, seq<LonLat>>) {
    forall key | key in tracks :: 0 < |tracks[key]| <= MAX_TRACK_POINTS
  }

  class TrackAccumulator {
    /** `accumulatedFlights` */
    var tracks: map<string, seq<LonLat>>

    ghost predicate Valid()
      reads this
    {
      Bounded(tracks)
    }

    constructor ()
      ensures Valid() && tracks == map[]
    {
      tracks := map[];
    }

    /** `accumulateFlights(aircraft)`. `arrays` follows the previous cycle's arrays as
        `push` extends them; a plane that was handed one of them is given its final
        content once the loop is over, which is what sharing the array amounts to. */
    method AccumulateFlights(aircraft: seq<Aircraft>) returns (enriched: seq<Aircraft>)
      modifies this
      ensures Valid()
      ensures tracks == NextTracks(old(tracks), aircraft)
      ensures enriched == Enriched(old(tracks), aircraft)
    {
      var previous := tracks;
      var arrays := tracks;
      var newAccumulations: map<string, seq<LonLat>> := map[];
      var planes: seq<Aircraft> := [];
      var shared: seq<bool> := [];
      PushedNothing(previous);
      for i := 0 to |aircraft|
        invariant arrays == Pushed(previous, aircraft[..i])
        invariant newAccumulations == NextTracks(previous, aircraft[..i])
        invariant planes == Stamped(previous, aircraft[..i])
        invariant shared == SharedFlags(previous, aircraft[..i])
      {
        assert aircraft[..i + 1] == aircraft[..i] + [aircraft[i]];
        arrays, newAccumulations, planes, shared :=
          AccumulateOne(previous, aircraft[..i], aircraft[i], arrays, newAccumulations, planes, shared);
      }
      assert aircraft[..|aircraft|] == aircraft;
      enriched := LinkSharedArrays(previous, aircraft, planes, shared, arrays);
      tracks := newAccumulations;
      TracksBounded(previous, aircraft);
    }
  }

  /** The body of the `forEach` of `accumulateFlights` for one plane: look the registration
      up in the previous map, push the position onto that array (or start `[]`), slice to
      the newest 1000 points if it grew too long, store it, and hand it to the plane. */
  method AccumulateOne(previous: map<string, seq<LonLat>>, done: seq<Aircraft>, plane: Aircraft,
                       arrays: map<string, seq<LonLat>>, newAccumulations: map<string, seq<LonLat>>,
                       planes: seq<Aircraft>, shared: seq<bool>)
    returns (arrays': map<string, seq<LonLat>>, newAccumulations': map<string, seq<LonLat>>,
             planes': seq<Aircraft>, shared': seq<bool>)
    requires arrays == Pushed(previous, done) && newAccumulations == NextTracks(previous, done)
    requires planes == Stamped(previous, done) && shared == SharedFlags(previous, done)
    ensures arrays' == Pushed(previous, done + [plane])
    ensures newAccumulations' == NextTracks(previous, done + [plane])
    ensures planes' == Stamped(previous, done + [plane])
    ensures shared' == SharedFlags(previous, done + [plane])
  {
    StepFolds(previous, done, plane);
    arrays', newAccumulations' := arrays, newAccumulations;
    match TrackKey(plane) {
      case None =>
        StepUnkeyed(previous, done, plane);
        planes' := planes + [plane];
        shared' := shared + [false];
      case Some(rego) =>
        if rego in previous {
          StepKnown(previous, done, plane, rego);
        } else {
          StepNew(previous, done, plane, rego);
        }
        var log := if rego in previous then arrays[rego] + [Position(plane)] else [Position(plane)];
        var isShared := rego in previous;
        if rego in previous {
          arrays' := arrays[rego := log];
        }
        if |log| > MAX_TRACK_POINTS {
          log := log[|log| - MAX_TRACK_POINTS..];
          isShared := false;
        }
        newAccumulations' := newAccumulations[rego := log];
        planes' := planes + [plane.(lineString := Some(log))];
        shared' := shared + [isShared];
    }
  }

  /** Aliasing in `accumulateFlights`: a plane that was handed one of the previous
      cycle's arrays holds the array itself, so once the loop is over it sees every
      position pushed to that array after it, while every other plane keeps what it was
      given. */
  method LinkSharedArrays(prev: map<string, seq<LonLat>>, aircraft: seq<Aircraft>,
                          planes: seq<Aircraft>, shared: seq<bool>, arrays: map<string, seq<LonLat>>)
    returns (enriched: seq<Aircraft>)
    requires planes == Stamped(prev, aircraft) && shared == SharedFlags(prev, aircraft)
    requires arrays == Pushed(prev, aircraft)
    ensures enriched == Enriched(prev, aircraft)
  {
    enriched := planes;
    for j := 0 to |planes|
      invariant |enriched| == |planes| == |aircraft|
      invariant forall m | 0 <= m < j :: enriched[m] == Enriched(prev, aircraft)[m]
      invariant forall m | j <= m < |planes| :: enriched[m] == planes[m]
    {
      FixUpStep(prev, aircraft, j);
      if shared[j] {
        var rego := TrackKey(aircraft[j]).value;
        enriched := enriched[j := planes[j].(lineString := Some(arrays[rego]))];
      }
    }
  }

  /** The planes and flags of one more plane. */
  lemma StepFolds(prev: map<string, seq<LonLat>>, planes: seq<Aircraft>, plane: Aircraft)
    ensures Stamped(prev, planes + [plane]) == Stamped(prev, planes) + [Stamp(prev, planes + [plane])]
    ensures SharedFlags(prev, planes + [plane]) == SharedFlags(prev, planes) + [Shares(prev, planes + [plane])]
  {
    assert (planes + [plane])[..|planes|] == planes;
  }

  /** A plane without a registration changes no array and no track and is left as it is. */
  lemma StepUnkeyed(prev: map<string, seq<LonLat>>, planes: seq<Aircraft>, plane: Aircraft)
    requires TrackKey(plane).None?
    ensures Pushed(prev, planes + [plane]) == Pushed(prev, planes)
    ensures NextTracks(prev, planes + [plane]) == NextTracks(prev, planes)
    ensures Stamp(prev, planes + [plane]) == plane && !Shares(prev, planes + [plane])
  {
    assert (planes + [plane])[..|planes|] == planes;
    PushedAppend(prev, planes, plane);
  }

  /** A plane whose registration has no previous track starts a one-point track of its
      own; no previous array changes. */
  lemma StepNew(prev: map<string, seq<LonLat>>, planes: seq<Aircraft>, plane: Aircraft, key: string)
    requires TrackKey(plane) == Some(key) && key !in prev
    ensures Pushed(prev, planes + [plane]) == Pushed(prev, planes)
    ensures NextTracks(prev, planes + [plane]) == NextTracks(prev, planes)[key := [Position(plane)]]
    ensures Stamp(prev, planes + [plane]) == plane.(lineString := Some([Position(plane)]))
    ensures !Shares(prev, planes + [plane])
  {
    assert (planes + [plane])[..|planes|] == planes;
    PushedAppend(prev, planes, plane);
  }

  /** A plane whose registration has a previous track pushes its position onto that
      array; the track stored and handed to the plane is the array, sliced to the newest
      1000 points when it grew longer. */
  lemma StepKnown(prev: map<string, seq<LonLat>>, planes: seq<Aircraft>, plane: Aircraft, key: string)
    requires TrackKey(plane) == Some(key) && key in prev
    ensures var log := Pushed(prev, planes)[key] + [Position(plane)];
      var kept := if |log| > MAX_TRACK_POINTS then log[|log| - MAX_TRACK_POINTS..] else log;
      && Pushed(prev, planes + [plane]) == Pushed(prev, planes)[key := log]
      && NextTracks(prev, planes + [plane]) == NextTracks(prev, planes)[key := kept]
      && Stamp(prev, planes + [plane]) == plane.(lineString := Some(kept))
      && Shares(prev, planes + [plane]) == (|log| <= MAX_TRACK_POINTS)
  {
    KnownLog(prev, planes, plane, key);
    PushedAppend(prev, planes, plane);
    NextTracksAppend(prev, planes, plane);
  }

  lemma KnownLog(prev: map<string, seq<LonLat>>, planes: seq<Aircraft>, plane: Aircraft, key: string)
    requires TrackKey(plane) == Some(key) && key in prev
    ensures prev[key] + Sightings(planes + [plane], key) == Pushed(prev, planes)[key] + [Position(plane)]
  {
    SightingsAppend(planes, plane);
    var s := Sightings(planes, key);
    assert prev[key] + (s + [Position(plane)]) == (prev[key] + s) + [Position(plane)];
  }

  lemma PushedNothing(prev: map<string, seq<LonLat>>)
    ensures Pushed(prev, []) == prev
  {
    forall key | key in prev ensures prev[key] + Sightings([], key) == prev[key] {
      assert prev[key] + [] == prev[key];
    }
  }

  lemma PushedAppend(prev: map<string, seq<LonLat>>, planes: seq<Aircraft>, plane: Aircraft)
    ensures match TrackKey(plane)
      case Some(key) =>
        Pushed(prev, planes + [plane])
        == if key in prev then Pushed(prev, planes)[key := Pushed(prev, planes)[key] + [Position(plane)]]
           else Pushed(prev, planes)
      case None => Pushed(prev, planes + [plane]) == Pushed(prev, planes)
  {
    var all := planes + [plane];
    assert all[..|planes|] == planes;
    SightingsAppend(planes, plane);
    var before, after := Pushed(prev, planes), Pushed(prev, all);
    forall key | key in prev && TrackKey(plane) == Some(key)
      ensures after[key] == before[key] + [Position(plane)]
    {
      assert (prev[key] + Sightings(planes, key)) + [Position(plane)] == prev[key] + (Sightings(planes, key) + [Position(plane)]);
    }
  }

  /** The second loop of `AccumulateFlights` at plane `j`. */
  lemma FixUpStep(prev: map<string, seq<LonLat>>, planes: seq<Aircraft>, j: nat)
    requires j < |planes|
    ensures |Stamped(prev, planes)| == |SharedFlags(prev, planes)| == |planes|
    ensures var key := TrackKey(planes[j]);
      var stamped := Stamped(prev, planes)[j];
      && (SharedFlags(prev, planes)[j] ==> key.Some? && key.value in Pushed(prev, planes))
      && Enriched(prev, planes)[j]
         == if SharedFlags(prev, planes)[j] then stamped.(lineString := Some(Pushed(prev, planes)[key.value])) else stamped
  {
    var pre := planes[..j + 1];
    StampedAt(prev, planes, j);
  }

  lemma {:induction false} StampedAt(prev: map<string, seq<LonLat>>, planes: seq<Aircraft>, j: nat)
    requires j < |planes|
    ensures Stamped(prev, planes)[j] == Stamp(prev, planes[..j + 1])
    ensures SharedFlags(prev, planes)[j] == Shares(prev, planes[..j + 1])
    decreases |planes|
  {
    var n := |planes| - 1;
    if j < n {
      StampedAt(prev, planes[..n], j);
      assert planes[..n][..j + 1] == planes[..j + 1];
    } else {
      assert planes[..j + 1] == planes;
    }
  }

  lemma SightingsAppend(planes: seq<Aircraft>, plane: Aircraft)
    ensures forall key {:trigger Sightings(planes + [plane], key)} ::
      Sightings(planes + [plane], key)
      == if TrackKey(plane) == Some(key) then Sightings(planes, key) + [Position(plane)] else Sightings(planes, key)
  {
    assert (planes + [plane])[..|planes|] == planes;
  }

  /** One more plane: its key's entry is replaced, every other entry stays. */
  lemma NextTracksAppend(prev: map<string, seq<LonLat>>, planes: seq<Aircraft>, plane: Aircraft)
    ensures TrackKey(plane).None? ==> NextTracks(prev, planes + [plane]) == NextTracks(prev, planes)
    ensures TrackKey(plane).Some? ==>
      var key := TrackKey(plane).value;
      NextTracks(prev, planes + [plane]) == NextTracks(prev, planes)[key :=
        if key in prev then KeepLast(prev[key] + Sightings(planes + [plane], key), MAX_TRACK_POINTS)
        else [Position(plane)]]
  {
    assert (planes + [plane])[..|planes|] == planes;
  }

  /** A key has sightings exactly when some plane of the snapshot carries it. */
  lemma {:induction false} SightingsNonEmpty(planes: seq<Aircraft>, key: string)
    ensures Sightings(planes, key) != [] <==> exists j | 0 <= j < |planes| :: TrackKey(planes[j]) == Some(key)
  {
    if planes != [] {
      var n := |planes| - 1;
      SightingsNonEmpty(planes[..n], key);
      if exists j | 0 <= j < n :: TrackKey(planes[..n][j]) == Some(key) {
        var j :| 0 <= j < n && TrackKey(planes[..n][j]) == Some(key);
        assert planes[j] == planes[..n][j];
      }
      if exists j | 0 <= j < |planes| :: TrackKey(planes[j]) == Some(key) {
        var j :| 0 <= j < |planes| && TrackKey(planes[j]) == Some(key);
        if j < n {
          assert planes[..n][j] == planes[j];
        }
      }
    }
  }

  /** A key is in the new map exactly when it was sighted this cycle. */
  lemma {:induction false} NextTracksKeys(prev: map<string, seq<LonLat>>, planes: seq<Aircraft>, key: string)
    ensures key in NextTracks(prev, planes) <==> Sightings(planes, key) != []
    decreases |planes|
  {
    if planes != [] {
      NextTracksKeys(prev, planes[..|planes| - 1], key);
    }
  }

  /** A known aircraft's new track: the newest 1000 points of its old track followed by
      all of this cycle's sightings. */
  lemma {:induction false} KnownTrack(prev: map<string, seq<LonLat>>, planes: seq<Aircraft>, key: string)
    requires key in NextTracks(prev, planes) && key in prev
    ensures NextTracks(prev, planes)[key] == KeepLast(prev[key] + Sightings(planes, key), MAX_TRACK_POINTS)
    decreases |planes|
  {
    var n := |planes| - 1;
    if TrackKey(planes[n]) != Some(key) {
      KnownTrack(prev, planes[..n], key);
      assert Sightings(planes, key) == Sightings(planes[..n], key);
    }
  }

  /** An aircraft not known before keeps only its latest sighting of this cycle. */
  lemma {:induction false} NewTrack(prev: map<string, seq<LonLat>>, planes: seq<Aircraft>, key: string)
    requires key in NextTracks(prev, planes) && key !in prev
    ensures NextTracks(prev, planes)[key] == KeepLast(Sightings(planes, key), 1)
    decreases |planes|
  {
    var n := |planes| - 1;
    if TrackKey(planes[n]) != Some(key) {
      NewTrack(prev, planes[..n], key);
      assert Sightings(planes, key) == Sightings(planes[..n], key);
    } else {
      var s := Sightings(planes[..n], key);
      assert Sightings(planes, key) == s + [Position(planes[n])];
    }
  }

  /** The map in closed form: a key is present exactly when it was sighted this cycle,
      with the newest 1000 points of its old track and this cycle's sightings, or only the
      newest sighting for an aircraft not known before. */
  lemma NextTracksClosedForm(prev: map<string, seq<LonLat>>, planes: seq<Aircraft>, key: string)
    ensures key in NextTracks(prev, planes) <==> Sightings(planes, key) != []
    ensures key in NextTracks(prev, planes) ==>
      NextTracks(prev, planes)[key]
      == KeepLast(PreviousTrack(prev, key) + Sightings(planes, key), if key in prev then MAX_TRACK_POINTS else 1)
  {
    NextTracksKeys(prev, planes, key);
    if key in NextTracks(prev, planes) {
      if key in prev {
        KnownTrack(prev, planes, key);
      } else {
        NewTrack(prev, planes, key);
        assert PreviousTrack(prev, key) + Sightings(planes, key) == Sightings(planes, key);
      }
    }
  }

  /** Every stored track holds between 1 and 1000 points, whatever the previous map. */
  lemma TracksBounded(prev: map<string, seq<LonLat>>, planes: seq<Aircraft>)
    ensures Bounded(NextTracks(prev, planes))
  {
    forall key | key in NextTracks(prev, planes) ensures 0 < |NextTracks(prev, planes)[key]| <= MAX_TRACK_POINTS {
      NextTracksClosedForm(prev, planes, key);
    }
  }

  /** The new map holds exactly the trimmed, non-blank registrations of this snapshot: a
      plane without one gets no track, and an aircraft missing from the snapshot loses
      its track. */
  lemma KeysAreThisCycleRegistrations(prev: map<string, seq<LonLat>>, planes: seq<Aircraft>, key: string)
    ensures key in NextTracks(prev, planes) <==>
      exists j | 0 <= j < |planes| :: planes[j].r.Some? && Trim(planes[j].r.value) == key && key != ""
  {
    NextTracksClosedForm(prev, planes, key);
    SightingsNonEmpty(planes, key);
    if exists j | 0 <= j < |planes| :: planes[j].r.Some? && Trim(planes[j].r.value) == key && key != "" {
      var j :| 0 <= j < |planes| && planes[j].r.Some? && Trim(planes[j].r.value) == key && key != "";
      assert TrackKey(planes[j]) == Some(key);
    }
  }

  lemma {:induction false} SightingsConcat(a: seq<Aircraft>, b: seq<Aircraft>, key: string)
    ensures Sightings(a + b, key) == Sightings(a, key) + Sightings(b, key)
    decreases |b|
  {
    if b != [] {
      var n := |b| - 1;
      assert a + b == (a + b[..n]) + [b[n]];
      SightingsAppend(a + b[..n], b[n]);
      SightingsAppend(b[..n], b[n]);
      assert b == b[..n] + [b[n]];
      SightingsConcat(a, b[..n], key);
    } else {
      assert a + b == a;
    }
  }

  lemma {:induction false} NoSightings(planes: seq<Aircraft>, key: string)
    requires forall j | 0 <= j < |planes| :: TrackKey(planes[j]) != Some(key)
    ensures Sightings(planes, key) == []
  {
    if planes != [] {
      NoSightings(planes[..|planes| - 1], key);
    }
  }

  /** The sightings of a key seen only at index `j` among `planes`. */
  lemma {:induction false} OnlySighting(planes: seq<Aircraft>, j: nat, key: string)
    requires j < |planes| && TrackKey(planes[j]) == Some(key)
    requires forall m | 0 <= m < |planes| && m != j :: TrackKey(planes[m]) != Some(key)
    ensures Sightings(planes, key) == [Position(planes[j])]
    ensures Sightings(planes[..j + 1], key) == [Position(planes[j])]
  {
    var front, back := planes[..j], planes[j + 1..];
    assert forall m | 0 <= m < |front| :: front[m] == planes[m];
    assert forall m | 0 <= m < |back| :: back[m] == planes[j + 1 + m];
    NoSightings(front, key);
    NoSightings(back, key);
    SightingsAppend(front, planes[j]);
    assert planes[..j + 1] == front + [planes[j]];
    assert planes == planes[..j + 1] + back;
    SightingsConcat(planes[..j + 1], back, key);
  }

  /** A plane whose registration is missing or blank after trimming gets no track: it
      is handed back as it came, and the new map has no entry for it. */
  lemma UnregisteredPlaneUntouched(prev: map<string, seq<LonLat>>, planes: seq<Aircraft>, j: nat)
    requires j < |planes| && TrackKey(planes[j]).None?
    ensures Enriched(prev, planes)[j] == planes[j]
    ensures planes[j].r.Some? ==> Trim(planes[j].r.value) == "" && "" !in NextTracks(prev, planes)
  {
    KeysAreThisCycleRegistrations(prev, planes, "");
  }

  /** A registration present once in the snapshot: its new track is its old one (empty on
      a first sighting) with `[lon, lat]` appended, cut to the newest 1000 points, and the
      plane carries exactly that track. */
  lemma SingleSighting(prev: map<string, seq<LonLat>>, planes: seq<Aircraft>, j: nat, key: string)
    requires j < |planes| && TrackKey(planes[j]) == Some(key)
    requires forall m | 0 <= m < |planes| && m != j :: TrackKey(planes[m]) != Some(key)
    ensures key in NextTracks(prev, planes)
    ensures NextTracks(prev, planes)[key] == KeepLast(PreviousTrack(prev, key) + [Position(planes[j])], MAX_TRACK_POINTS)
    ensures AttachedTrail(prev, planes, j) == Some(NextTracks(prev, planes)[key])
  {
    OnlySighting(planes, j, key);
    OneSighting(prev, planes, key, Position(planes[j]));
    OnlyTrail(prev, planes, j, key);
  }

  /** The track attached to the one plane of its key. */
  lemma OnlyTrail(prev: map<string, seq<LonLat>>, planes: seq<Aircraft>, j: nat, key: string)
    requires j < |planes| && TrackKey(planes[j]) == Some(key)
    requires Sightings(planes, key) == Sightings(planes[..j + 1], key) == [Position(planes[j])]
    ensures AttachedTrail(prev, planes, j) == Some(KeepLast(PreviousTrack(prev, key) + [Position(planes[j])], MAX_TRACK_POINTS))
  {
  }

  /** A registration present twice in the snapshot: a known aircraft gets both positions
      appended, an aircraft sighted for the first time keeps only the later one. */
  lemma TwoSightings(prev: map<string, seq<LonLat>>, planes: seq<Aircraft>, j1: nat, j2: nat, key: string)
    requires j1 < j2 < |planes| && TrackKey(planes[j1]) == Some(key) && TrackKey(planes[j2]) == Some(key)
    requires forall m | 0 <= m < |planes| && m != j1 && m != j2 :: TrackKey(planes[m]) != Some(key)
    ensures key in NextTracks(prev, planes)
    ensures key in prev ==>
      (NextTracks(prev, planes)[key] == KeepLast(prev[key] + [Position(planes[j1]), Position(planes[j2])], MAX_TRACK_POINTS))
    ensures key !in prev ==> NextTracks(prev, planes)[key] == [Position(planes[j2])]
  {
    TwoSightingsOf(planes, j1, j2, key);
    NextTracksClosedForm(prev, planes, key);
  }

  lemma TwoSightingsOf(planes: seq<Aircraft>, j1: nat, j2: nat, key: string)
    requires j1 < j2 < |planes| && TrackKey(planes[j1]) == Some(key) && TrackKey(planes[j2]) == Some(key)
    requires forall m | 0 <= m < |planes| && m != j1 && m != j2 :: TrackKey(planes[m]) != Some(key)
    ensures Sightings(planes, key) == [Position(planes[j1]), Position(planes[j2])]
    ensures Sightings(planes[..j1 + 1], key) == [Position(planes[j1])]
  {
    var front, back := planes[..j1 + 1], planes[j1 + 1..];
    assert planes == front + back;
    SightingsConcat(front, back, key);
    OnlySighting(front, j1, key);
    OnlySighting(back, j2 - j1 - 1, key);
  }

  /** The in-place `push`: when a known aircraft appears twice and its track stays within
      1000 points, both planes end up holding the same array, so the earlier plane's
      `lineString` already contains the later position. */
  lemma SharedTrailSeesLaterPush(prev: map<string, seq<LonLat>>, planes: seq<Aircraft>, j1: nat, j2: nat, key: string)
    requires j1 < j2 < |planes| && TrackKey(planes[j1]) == Some(key) && TrackKey(planes[j2]) == Some(key)
    requires forall m | 0 <= m < |planes| && m != j1 && m != j2 :: TrackKey(planes[m]) != Some(key)
    requires key in prev && |prev[key]| + 2 <= MAX_TRACK_POINTS
    ensures Enriched(prev, planes)[j1].lineString == Enriched(prev, planes)[j2].lineString
      == Some(prev[key] + [Position(planes[j1]), Position(planes[j2])])
  {
    TwoSightingsOf(planes, j1, j2, key);
    assert planes == planes[..j2 + 1] + planes[j2 + 1..];
    SightingsConcat(planes[..j2 + 1], planes[j2 + 1..], key);
    NoSightings(planes[j2 + 1..], key);
  }

  /** Trimming only ever drops the oldest points: a known aircraft's new track is the
      newest `min(n, 1000)` points of its old track followed by this cycle's sightings. */
  lemma TrimDropsOldest(prev: map<string, seq<LonLat>>, planes: seq<Aircraft>, key: string)
    requires key in prev && key in NextTracks(prev, planes)
    ensures var log := prev[key] + Sightings(planes, key);
      var t := NextTracks(prev, planes)[key];
      && |t| == (if |log| > MAX_TRACK_POINTS then MAX_TRACK_POINTS else |log|)
      && t == log[|log| - |t|..]
  {
    NextTracksClosedForm(prev, planes, key);
  }

  /** Keeping the newest `n` points before appending changes nothing about the newest `n`
      points afterwards. */
  lemma KeepLastAppend(a: seq<LonLat>, b: seq<LonLat>, n: nat)
    ensures KeepLast(KeepLast(a, n) + b, n) == KeepLast(a + b, n)
  {
    var k := KeepLast(a, n);
    assert k + b == (a + b)[|a| - |k|..];
  }

  /** The map after a run of polling cycles. */
  function Replay(prev: map<string, seq<LonLat>>, cycles: seq<seq<Aircraft>>): map<string, seq<LonLat>>
    decreases |cycles|
  {
    if cycles == [] then prev else Replay(NextTracks(prev, cycles[0]), cycles[1..])
  }

  /** An aircraft seen once in a cycle gains that one position, cut to the newest 1000. */
  lemma OneSighting(prev: map<string, seq<LonLat>>, planes: seq<Aircraft>, key: string, p: LonLat)
    requires Sightings(planes, key) == [p]
    ensures key in NextTracks(prev, planes)
    ensures NextTracks(prev, planes)[key] == KeepLast(PreviousTrack(prev, key) + [p], MAX_TRACK_POINTS)
  {
    NextTracksClosedForm(prev, planes, key);
    if key !in prev {
      assert PreviousTrack(prev, key) + [p] == [p];
    }
  }

  /** An aircraft seen exactly once in each of a run of cycles ends with the newest 1000
      of all its positions, so its track length is `min(observations, 1000)` after a
      first sighting. */
  lemma {:induction false} SteadySightings(prev: map<string, seq<LonLat>>, cycles: seq<seq<Aircraft>>, key: string, seen: seq<LonLat>)
    requires |seen| == |cycles| > 0
    requires forall c | 0 <= c < |cycles| :: Sightings(cycles[c], key) == [seen[c]]
    ensures key in Replay(prev, cycles)
    ensures Replay(prev, cycles)[key] == KeepLast(PreviousTrack(prev, key) + seen, MAX_TRACK_POINTS)
    decreases |cycles|
  {
    var next := NextTracks(prev, cycles[0]);
    OneSighting(prev, cycles[0], key, seen[0]);
    if |cycles| > 1 {
      SightingsOfLaterCycles(cycles, key, seen);
      SteadySightings(next, cycles[1..], key, seen[1..]);
      assert PreviousTrack(next, key) == KeepLast(PreviousTrack(prev, key) + [seen[0]], MAX_TRACK_POINTS);
      ExtendKept(PreviousTrack(prev, key), seen);
    } else {
      assert seen == [seen[0]];
    }
  }

  lemma SightingsOfLaterCycles(cycles: seq<seq<Aircraft>>, key: string, seen: seq<LonLat>)
    requires |seen| == |cycles| > 0
    requires forall c | 0 <= c < |cycles| :: Sightings(cycles[c], key) == [seen[c]]
    ensures forall c | 0 <= c < |cycles| - 1 :: Sightings(cycles[1..][c], key) == [seen[1..][c]]
  {
    forall c | 0 <= c < |cycles| - 1 ensures Sightings(cycles[1..][c], key) == [seen[1..][c]] {
      assert cycles[1..][c] == cycles[c + 1];
    }
  }

  lemma ExtendKept(before: seq<LonLat>, seen: seq<LonLat>)
    requires seen != []
    ensures KeepLast(KeepLast(before + [seen[0]], MAX_TRACK_POINTS) + seen[1..], MAX_TRACK_POINTS)
      == KeepLast(before + seen, MAX_TRACK_POINTS)
  {
    KeepLastAppend(before + [seen[0]], seen[1..], MAX_TRACK_POINTS);
    assert before + [seen[0]] + seen[1..] == before + seen;
  }
}
