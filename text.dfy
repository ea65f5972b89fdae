/** The string operations of JavaScript that the modelled code relies on. Strings are
    sequences of Unicode scalar values; case mapping covers the ASCII letters. */
module Text {
  import opened Wrappers

  /** The characters that `String.prototype.trim` strips and that the regular-expression
      class `\s` matches: ECMAScript's WhiteSpace and LineTerminator sets. */
  predicate IsSpace(c: char) {
    || c == '\t' || c == '\n' || c == '\U{B}' || c == '\U{C}' || c == '\r' || c == ' '
    || c == '\U{A0}' || c == '\U{1680}' || ('\U{2000}' <= c <= '\U{200A}')
    || c == '\U{2028}' || c == '\U{2029}' || c == '\U{202F}' || c == '\U{205F}'
    || c == '\U{3000}' || c == '\U{FEFF}'
  }

  /** Drops leading white space. */
  function TrimStart(s: string): string {
    if s != [] && IsSpace(s[0]) then TrimStart(s[1..]) else s
  }

  /** Drops trailing white space. */
  function TrimEnd(s: string): string {
    if s != [] && IsSpace(s[|s| - 1]) then TrimEnd(s[..|s| - 1]) else s
  }

  /** `s.trim()` */
  function Trim(s: string): string {
    TrimEnd(TrimStart(s))
  }

  /** `TrimStart` removes a run of white space from the front and nothing else. */
  lemma {:induction false} TrimStartRemovesLeadingSpace(s: string)
    ensures var r := TrimStart(s);
      && |r| <= |s| && r == s[|s| - |r|..]
      && (r == [] || !IsSpace(r[0]))
      && forall i | 0 <= i < |s| - |r| :: IsSpace(s[i])
  {
    if s != [] && IsSpace(s[0]) {
      var t := s[1..];
      TrimStartRemovesLeadingSpace(t);
      var r := TrimStart(t);
      assert TrimStart(s) == r;
      assert t[|t| - |r|..] == s[|s| - |r|..];
      forall i | 0 <= i < |s| - |r| ensures IsSpace(s[i]) {
        if i > 0 {
          assert s[i] == t[i - 1];
        }
      }
    }
  }

  /** `TrimEnd` removes a run of white space from the back and nothing else. */
  lemma {:induction false} TrimEndRemovesTrailingSpace(s: string)
    ensures var r := TrimEnd(s);
      && |r| <= |s| && r == s[..|r|]
      && (r == [] || !IsSpace(r[|r| - 1]))
      && forall i | |r| <= i < |s| :: IsSpace(s[i])
  {
    if s != [] && IsSpace(s[|s| - 1]) {
      TrimEndRemovesTrailingSpace(s[..|s| - 1]);
    }
  }

  /** `s.trim()` is the piece of `s` left after removing white space at both ends:
      everything removed is white space, and what is left neither starts nor ends with it. */
  lemma TrimRemovesOuterSpace(s: string)
    ensures var r := Trim(s);
      var lead := |s| - |TrimStart(s)|;
      && 0 <= lead && lead + |r| <= |s| && r == s[lead..lead + |r|]
      && (forall j | 0 <= j < lead :: IsSpace(s[j]))
      && (forall j | lead + |r| <= j < |s| :: IsSpace(s[j]))
      && (r == [] || (!IsSpace(r[0]) && !IsSpace(r[|r| - 1])))
  {
    var t := TrimStart(s);
    TrimStartRemovesLeadingSpace(s);
    TrimEndRemovesTrailingSpace(t);
  }

  function UpperChar(c: char): char {
    if 'a' <= c <= 'z' then (c as int - 'a' as int + 'A' as int) as char else c
  }

  function LowerChar(c: char): char {
    if 'A' <= c <= 'Z' then (c as int - 'A' as int + 'a' as int) as char else c
  }

  /** `s.toUpperCase()`, for the ASCII letters. */
  function Upper(s: string): (r: string)
    ensures |r| == |s| && forall i | 0 <= i < |s| :: r[i] == UpperChar(s[i])
  {
    seq(|s|, i requires 0 <= i < |s| => UpperChar(s[i]))
  }

  /** `s.toLowerCase()`, for the ASCII letters. */
  function Lower(s: string): (r: string)
    ensures |r| == |s| && forall i | 0 <= i < |s| :: r[i] == LowerChar(s[i])
  {
    seq(|s|, i requires 0 <= i < |s| => LowerChar(s[i]))
  }

  /** JavaScript truthiness of a possibly missing string: neither `undefined` nor `""`. */
  predicate Truthy(s: Option<string>) {
    s.Some? && s.value != ""
  }

  /** `a || b` where `a` is a possibly missing string and `b` a string. */
  function OrElse(a: Option<string>, b: string): string {
    if Truthy(a) then a.value else b
  }

  /** How a possibly missing string reads inside a template literal: `${undefined}` is "undefined". */
  function Show(s: Option<string>): string {
    match s
    case None => "undefined"
    case Some(v) => v
  }

  /** `s?.trim()` */
  function TrimOpt(s: Option<string>): Option<string> {
    match s
    case None => None
    case Some(v) => Some(Trim(v))
  }

  predicate EndsWith(s: string, suffix: string) {
    |suffix| <= |s| && s[|s| - |suffix|..] == suffix
  }

  /** A closing piece `t` that ends with `z` keeps doing so behind any text `x` and in
      front of any tail `u`. */
  lemma EndsWithAfter(x: string, t: string, z: string, u: string)
    requires EndsWith(t, z)
    ensures EndsWith(x + t, z)
    ensures EndsWith(x + t + u, z + u)
  {
    assert (x + t)[|x + t| - |z|..] == t[|t| - |z|..];
    assert (x + t + u)[|x + t + u| - |z + u|..] == t[|t| - |z|..] + u;
  }

  /** `s` holds `part` as a contiguous piece. */
  predicate Contains(s: string, part: string) {
    exists i | 0 <= i <= |s| - |part| :: InfixAt(s, i, part)
  }

  predicate InfixAt(s: string, i: int, part: string) {
    0 <= i <= |s| - |part| && s[i..i + |part|] == part
  }
}
