/** The helpers of the bot's older revision (utils.mjs) that differ from the newer ones:
    `getAirline` with its unguarded lookup and its corporate-suffix stripping. */
module LegacyUtils {
  import opened Wrappers
  import opened Text
  import opened Feed
  import Utils

  /** One element of a regular expression built only from single characters: `\s`, a
      literal character, or a literal character followed by `?`. */
  datatype Token = Space | Char(c: char) | OptionalChar(c: char)

  function Literal(s: string): (pat: seq<Token>)
    ensures |pat| == |s| && forall i | 0 <= i < |s| :: pat[i] == Char(s[i])
  {
    seq(|s|, i requires 0 <= i < |s| => Char(s[i]))
  }

  /** `/\sPTY\sLIMITED\.?/` */
  const PTY_LIMITED: seq<Token> := [Space] + Literal("PTY") + [Space] + Literal("LIMITED") + [OptionalChar('.')]
  /** `/\sPTY\sLTD\.?/` */
  const PTY_LTD: seq<Token> := [Space] + Literal("PTY") + [Space] + Literal("LTD") + [OptionalChar('.')]
  /** The plain string pattern `" LIMITED"`. */
  const SPACE_LIMITED: seq<Token> := Literal(" LIMITED")

  /** The length of the match of `pat` that starts at position `i` of `s`, if there is
      one. An optional character is taken greedily and given back when the rest of the
      pattern does not match otherwise, as a backtracking regular-expression engine does. */
  function MatchAt(s: string, i: nat, pat: seq<Token>): (n: Option<nat>)
    requires i <= |s|
    ensures n.Some? ==> i + n.value <= |s|
    decreases pat
  {
    if pat == [] then Some(0)
    else
      var taken :=
        if i < |s| && Accepts(pat[0], s[i]) then
          match MatchAt(s, i + 1, pat[1..])
          case None => None
          case Some(k) => Some(k + 1)
        else None;
      if taken.Some? || !pat[0].OptionalChar? then taken else MatchAt(s, i, pat[1..])
  }

  predicate Accepts(t: Token, c: char) {
    match t
    case Space => IsSpace(c)
    case Char(d) => c == d
    case OptionalChar(d) => c == d
  }

  /** The leftmost position at or after `from` where `pat` matches. */
  function FirstMatch(s: string, pat: seq<Token>, from: nat): (m: Option<nat>)
    requires from <= |s|
    ensures m.Some? ==> from <= m.value <= |s| && MatchAt(s, m.value, pat).Some?
    ensures m.Some? ==> forall i | from <= i < m.value :: MatchAt(s, i, pat).None?
    ensures m.None? ==> forall i | from <= i <= |s| :: MatchAt(s, i, pat).None?
    decreases |s| - from
  {
    if MatchAt(s, from, pat).Some? then Some(from)
    else if from == |s| then None
    else FirstMatch(s, pat, from + 1)
  }

  /** `s.replace(pattern, "")`: removes the leftmost match, and only that one. */
  function RemoveFirst(s: string, pat: seq<Token>): (r: string)
    ensures FirstMatch(s, pat, 0).None? ==> r == s
    ensures FirstMatch(s, pat, 0).Some? ==>
      var i := FirstMatch(s, pat, 0).value;
      r == s[..i] + s[i + MatchAt(s, i, pat).value..]
  {
    match FirstMatch(s, pat, 0)
    case None => s
    case Some(i) => s[..i] + s[i + MatchAt(s, i, pat).value..]
  }

  /** The three removals of the older `getAirline`, in their order. */
  function StripCorporateSuffixes(operator: string): (stripped: string)
    ensures |stripped| <= |operator|
  {
    RemoveFirst(RemoveFirst(RemoveFirst(operator, PTY_LIMITED), PTY_LTD), SPACE_LIMITED)
  }

  /** Each removal starts at a white-space character, so an operator written without
      white space passes through unchanged. */
  lemma {:induction false} StripCorporateSuffixesNeedsSpace(operator: string)
    requires forall i | 0 <= i < |operator| :: !IsSpace(operator[i])
    ensures StripCorporateSuffixes(operator) == operator
  {
    NoMatchWithoutSpace(operator, PTY_LIMITED);
    NoMatchWithoutSpace(operator, PTY_LTD);
    NoMatchWithoutSpace(operator, SPACE_LIMITED);
  }

  lemma NoMatchWithoutSpace(s: string, pat: seq<Token>)
    requires forall i | 0 <= i < |s| :: !IsSpace(s[i])
    requires pat != [] && pat[0] in {Space, Char(' ')}
    ensures RemoveFirst(s, pat) == s
  {
    forall i | 0 <= i <= |s| ensures MatchAt(s, i, pat).None? {
      assert pat[0].Space? || pat[0] == Char(' ');
    }
  }

  /** `flight.flight?.slice(0, 3)` */
  function DesignatorPrefix(flight: Aircraft): (icao: Option<string>)
    ensures icao.Some? <==> flight.flight.Some?
    ensures icao.Some? ==> icao.value <= flight.flight.value
    ensures icao.Some? ==> |icao.value| == if |flight.flight.value| < 3 then |flight.flight.value| else 3
  {
    match flight.flight
    case None => None
    case Some(f) => Some(f[..if |f| < 3 then |f| else 3])
  }

  const MISSING_AIRLINE_ROW := "TypeError: Cannot read properties of undefined (reading 'get')"

  /** `getAirline` (older revision): every aircraft is looked up, whatever its category;
      a designator with no table row makes the call throw instead of falling through. */
  function GetAirline(flight: Aircraft, airlines: Utils.AirlineTable, titlecase: Utils.Titlecase): (r: Result<string, string>)
    ensures r.Failure? <==> airlines(DesignatorPrefix(flight)).None?
    ensures r.Success? && Truthy(airlines(DesignatorPrefix(flight)).value.name) ==>
      r.value == airlines(DesignatorPrefix(flight)).value.name.value
    ensures r.Success? && !Truthy(airlines(DesignatorPrefix(flight)).value.name) ==>
      (!Truthy(flight.ownOp) ==> r.value == "Unknown operator") &&
      (Truthy(flight.ownOp) ==> r.value == titlecase(Lower(StripCorporateSuffixes(Upper(flight.ownOp.value)))))
  {
    match airlines(DesignatorPrefix(flight))
    case None => Failure(MISSING_AIRLINE_ROW)
    case Some(row) =>
      if Truthy(row.name) then Success(row.name.value)
      else if !Truthy(flight.ownOp) then Success("Unknown operator")
      else
        var operator := Upper(flight.ownOp.value);
        Success(titlecase(Lower(StripCorporateSuffixes(operator))))
  }
}
