/** The announcement suppression window of `announceFlight` (the same logic in both
    revisions): the registrations of the most recent announcements, newest first. An
    aircraft whose registration is in the window is not announced again. */
module Announcements {
  import opened Wrappers
  import opened Text
  import opened Feed

  /** How many earlier entries survive an announcement: `announcedFlights.slice(0, 10)`. */
  const KEPT: nat := 10

  /** `flight.r?.trim().toUpperCase()`: absent stays absent; a blank registration is kept
      as the empty string. A present one is the trimmed registration with its lower-case
      letters raised, so it neither starts nor ends with white space. */
  function Normalise(r: Option<string>): (id: Option<string>)
    ensures r.None? <==> id.None?
    ensures r.Some? ==> |id.value| == |Trim(r.value)| <= |r.value|
    ensures r.Some? ==> forall i | 0 <= i < |id.value| :: id.value[i] == UpperChar(Trim(r.value)[i])
    ensures r.Some? ==> forall i | 0 <= i < |id.value| :: !('a' <= id.value[i] <= 'z')
    ensures r.Some? && id.value != [] ==> !IsSpace(id.value[0]) && !IsSpace(id.value[|id.value| - 1])
  {
    match r
    case None => None
    case Some(s) =>
      TrimLength(s);
      TrimRemovesOuterSpace(s);
      Some(Upper(Trim(s)))
  }

  /** A registration that is already normalised is left as it is. */
  lemma NormaliseIdempotent(r: Option<string>)
    ensures Normalise(Normalise(r)) == Normalise(r)
  {
    if r.Some? {
      var id := Normalise(r).value;
      TrimOfTrimmed(id);
      assert Upper(id) == id;
    }
  }

  /** `trim()` leaves a string that does not start or end with white space as it is. */
  lemma TrimOfTrimmed(s: string)
    requires s == [] || (!IsSpace(s[0]) && !IsSpace(s[|s| - 1]))
    ensures Trim(s) == s
  {
    assert TrimStart(s) == s;
  }

  lemma TrimLength(s: string)
    ensures |Trim(s)| <= |s|
  {
    TrimRemovesOuterSpace(s);
  }

  /** `[rego, ...announcedFlights.slice(0, 10)]`: the new registration in front of the ten
      most recent earlier ones. */
  function Recorded(window: seq<Option<string>>, id: Option<string>): (next: seq<Option<string>>)
    ensures |next| == 1 + (if |window| < KEPT then |window| else KEPT)
    ensures next[0] == id
    ensures forall i | 1 <= i < |next| :: next[i] == window[i - 1]
  {
    [id] + window[..if |window| < KEPT then |window| else KEPT]
  }

  /** Every entry of a recorded window is the new registration or one of the old entries. */
  lemma RecordedHolds(window: seq<Option<string>>, id: Option<string>, x: Option<string>)
    requires x in Recorded(window, id)
    ensures x == id || x in window
  {
    var next := Recorded(window, id);
    var i :| 0 <= i < |next| && next[i] == x;
    if i > 0 {
      assert window[i - 1] == x;
    }
  }

  /** The normalised registrations of `flights`, in order. */
  function Registrations(flights: seq<Aircraft>): (ids: seq<Option<string>>)
    ensures |ids| == |flights|
    ensures forall j | 0 <= j < |flights| :: ids[j] == Normalise(flights[j].r)
  {
    seq(|flights|, j requires 0 <= j < |flights| => Normalise(flights[j].r))
  }

  /** The window after a synchronous `announceFlight` that does not throw has looked `id`
      up and, on a miss, announced it. */
  function AfterAdmit(window: seq<Option<string>>, id: Option<string>): seq<Option<string>> {
    if id in window then window else Recorded(window, id)
  }

  /** The window after a run of such announcements, one after the other. */
  function AdmitAll(window: seq<Option<string>>, ids: seq<Option<string>>): seq<Option<string>>
    decreases |ids|
  {
    if ids == [] then window else AdmitAll(AfterAdmit(window, ids[0]), ids[1..])
  }

  /** `announcedFlights` together with the checks and the update of `announceFlight`. */
  class AnnouncementWindow {
    var announced: seq<Option<string>>

    ghost predicate Valid()
      reads this
    {
      |announced| <= KEPT + 1
    }

    constructor ()
      ensures Valid() && announced == []
    {
      announced := [];
    }

    /** `announcedFlights.includes(rego)`, answered as "go ahead": true exactly when the
        registration has not been announced recently. */
    method ShouldAnnounce(id: Option<string>) returns (announce: bool)
      ensures announce <==> forall i | 0 <= i < |announced| :: announced[i] != id
    {
      announce := true;
      for i := 0 to |announced|
        invariant announce <==> forall m | 0 <= m < i :: announced[m] != id
      {
        if announced[i] == id {
          announce := false;
        }
      }
    }

    /** `announcedFlights = [rego, ...announcedFlights.slice(0, 10)]` */
    method Record(id: Option<string>)
      requires Valid()
      modifies this
      ensures Valid()
      ensures announced == Recorded(old(announced), id)
    {
      announced := [id] + announced[..if |announced| < KEPT then |announced| else KEPT];
    }
  }

  /** A hit leaves the window exactly as it was, in the same order; a miss puts the
      registration first and keeps at most 11 entries. */
  lemma AdmitKeepsWindowBounded(window: seq<Option<string>>, id: Option<string>)
    requires |window| <= KEPT + 1
    ensures id in window ==> AfterAdmit(window, id) == window
    ensures id !in window ==> AfterAdmit(window, id)[0] == id && |AfterAdmit(window, id)| <= KEPT + 1
    ensures id in AfterAdmit(window, id)
  {
  }

  /** An entry absent from the window and from every later attempt stays absent. */
  lemma {:induction false} NeverAdmittedStaysOut(window: seq<Option<string>>, ids: seq<Option<string>>, a: Option<string>)
    requires a !in window && a !in ids
    ensures a !in AdmitAll(window, ids)
    decreases |ids|
  {
    if ids != [] {
      assert ids[0] != a;
      assert a !in AfterAdmit(window, ids[0]);
      NeverAdmittedStaysOut(AfterAdmit(window, ids[0]), ids[1..], a);
    }
  }

  /** Recency: an entry at position `p` of the window, followed by announcements of
      distinct new registrations, survives exactly while fewer than 11 entries have been
      put in front of it, that is while `p + |ids| <= 10`; the window holds at most 11
      entries, as it always does. */
  lemma {:induction false} WindowForgetsAfterTen(window: seq<Option<string>>, ids: seq<Option<string>>, a: Option<string>, p: nat)
    requires |window| <= KEPT + 1
    requires p < |window| && window[p] == a
    requires forall i | 0 <= i < |window| && i != p :: window[i] != a
    requires forall k | 0 <= k < |ids| :: ids[k] != a && ids[k] !in window
    requires forall k, l | 0 <= k < l < |ids| :: ids[k] != ids[l]
    ensures a in AdmitAll(window, ids) <==> p + |ids| <= KEPT
    decreases |ids|
  {
    if ids != [] {
      var next := Recorded(window, ids[0]);
      assert AfterAdmit(window, ids[0]) == next;
      assert forall k | 0 <= k < |ids[1..]| :: ids[1..][k] != a && ids[1..][k] !in next by {
        forall k | 0 <= k < |ids[1..]| ensures ids[1..][k] != a && ids[1..][k] !in next {
          assert ids[1..][k] == ids[k + 1];
          assert ids[k + 1] != ids[0];
        }
      }
      if p < KEPT {
        assert next[p + 1] == a;
        WindowForgetsAfterTen(next, ids[1..], a, p + 1);
      } else {
        assert a !in next;
        NeverAdmittedStaysOut(next, ids[1..], a);
      }
    }
  }

  /** A registration just announced is suppressed through the next ten announcements of
      other registrations and becomes announceable again at the eleventh. */
  lemma SuppressedForTenAnnouncements(window: seq<Option<string>>, a: Option<string>, ids: seq<Option<string>>)
    requires a !in window
    requires forall k | 0 <= k < |ids| :: ids[k] != a && ids[k] !in window
    requires forall k, l | 0 <= k < l < |ids| :: ids[k] != ids[l]
    ensures a in AdmitAll(AfterAdmit(window, a), ids) <==> |ids| <= KEPT
  {
    var next := AfterAdmit(window, a);
    assert next == Recorded(window, a);
    forall k | 0 <= k < |ids| ensures ids[k] !in next {
      assert ids[k] != a;
    }
    WindowForgetsAfterTen(next, ids, a, 0);
  }
}
