/** Conversion of one sexagesimal longitude or latitude token (HDMS or DMSH,
    delimited by whitespace or compacted) into signed decimal degrees. */
module Coordinates {
  import opened Wrappers
  import opened Chars

  /** Longitude and latitude share one algorithm; they differ only in these constants. */
  datatype Axis = Longitude | Latitude

  /** Degree digits: at most this many in the delimited layout, exactly this many compacted. */
  function DegreeDigits(axis: Axis): nat {
    match axis
    case Longitude => 3
    case Latitude => 2
  }

  function MaxDegrees(axis: Axis): nat {
    match axis
    case Longitude => 180
    case Latitude => 90
  }

  /** East or North: the hemisphere of non-negative values. */
  function PositiveMarker(axis: Axis): char {
    match axis
    case Longitude => 'E'
    case Latitude => 'N'
  }

  /** West or South: the hemisphere of negative values. */
  function NegativeMarker(axis: Axis): char {
    match axis
    case Longitude => 'W'
    case Latitude => 'S'
  }

  predicate IsMarker(axis: Axis, c: char) {
    c == PositiveMarker(axis) || c == NegativeMarker(axis)
  }

  /** The exception raised for a malformed or out-of-range token; it carries the token. */
  datatype CoordinateValueError = CoordinateValueError(coordinate: string)

  /** How the fields of a token are laid out. A delimited token keeps the exact whitespace
      it was written with: after the prefix marker (`lead`), the single whitespace
      characters after the degrees and the minutes, and before the suffix (`trail`). */
  datatype Layout =
    | Delimited(lead: string, sep1: char, sep2: char, trail: string)
    | Compacted

  /** The groups of a pattern match. `newline` records a final "\n" that `$` lets
      through after the last group. */
  datatype Fields = Fields(
    layout: Layout,
    prefix: Option<char>,
    deg: string,
    min: string,
    secInt: string,
    secFrac: Option<string>,
    suffix: Option<char>,
    newline: bool)

  // ---------------------------------------------------------------------------
  // The four patterns, as a grammar: `Spell` writes the fields out, `WellShaped`
  // says which fields each pattern admits.
  // ---------------------------------------------------------------------------

  function MarkerText(m: Option<char>): string {
    if m.Some? then [m.value] else []
  }

  function FractionText(frac: Option<string>): string {
    if frac.Some? then "." + frac.value else []
  }

  function NewlineText(newline: bool): string {
    if newline then "\n" else []
  }

  /** What follows the whole seconds: fraction, whitespace (delimited layout only),
      suffix marker and end of token. */
  datatype Ending = Ending(frac: Option<string>, trail: string, suffix: Option<char>, newline: bool)

  function EndingText(e: Ending): string {
    FractionText(e.frac) + (e.trail + (MarkerText(e.suffix) + NewlineText(e.newline)))
  }

  function EndingOf(f: Fields): Ending {
    Ending(f.secFrac, if f.layout.Delimited? then f.layout.trail else [], f.suffix, f.newline)
  }

  /** The token text of the fields (written right-nested, in reading order). */
  function Spell(f: Fields): string {
    MarkerText(f.prefix) +
      match f.layout
      case Delimited(lead, sep1, sep2, _) =>
        lead + (f.deg + ([sep1] + (f.min + ([sep2] + (f.secInt + EndingText(EndingOf(f)))))))
      case Compacted =>
        f.deg + (f.min + (f.secInt + EndingText(EndingOf(f))))
  }

  /** The fields one of the four patterns admits. */
  predicate WellShaped(axis: Axis, f: Fields) {
    && (f.prefix.Some? ==> IsMarker(axis, f.prefix.value))
    && (f.suffix.Some? ==> IsMarker(axis, f.suffix.value))
    && AllDigits(f.deg) && AllDigits(f.min) && AllDigits(f.secInt)
    && (f.secFrac.Some? ==> |f.secFrac.value| >= 1 && AllDigits(f.secFrac.value))
    && match f.layout
       case Delimited(lead, sep1, sep2, trail) =>
         && AllSpaces(lead) && IsSpace(sep1) && IsSpace(sep2) && AllSpaces(trail)
         && 1 <= |f.deg| <= DegreeDigits(axis)
         && 1 <= |f.min| <= 2
         && 1 <= |f.secInt| <= 2
            // without a suffix, a final "\n" is part of the trailing whitespace
         && (f.newline ==> f.suffix.Some?)
       case Compacted =>
         && |f.deg| == DegreeDigits(axis)
         && |f.min| == 2
         && |f.secInt| == 2
  }

  // ---------------------------------------------------------------------------
  // The recogniser: a left-to-right scan that finds the groups the regular
  // expressions find (their greedy quantifiers can only succeed on maximal runs).
  // ---------------------------------------------------------------------------

  /** The optional hemisphere prefix and what follows it. */
  function SplitPrefix(axis: Axis, t: string): (r: (Option<char>, string))
    ensures MarkerText(r.0) + r.1 == t
    ensures r.0.Some? ==> IsMarker(axis, r.0.value)
    ensures r.0.None? ==> r.1 == t
  {
    if |t| > 0 && IsMarker(axis, t[0]) then (Some(t[0]), t[1..]) else (None, t)
  }

  /** An optional `.digits` fraction of the seconds, and what follows it. */
  function SplitFraction(s: string): (r: Option<(Option<string>, string)>)
    ensures r.Some? ==> FractionText(r.value.0) + r.value.1 == s
    ensures r.Some? && r.value.0.Some? ==> |r.value.0.value| >= 1 && AllDigits(r.value.0.value)
    ensures r.Some? ==> r.value.1 == [] || !IsDigit(r.value.1[0])
  {
    if |s| > 0 && s[0] == '.' then
      var (frac, rest) := DigitRun(s[1..]);
      if |frac| == 0 then None
      else
        assert FractionText(Some(frac)) + rest == s by {
          assert s == [s[0]] + s[1..];
          AppendAssoc([s[0]], frac, rest);
        }
        Some((Some(frac), rest))
    else if |s| > 0 && IsDigit(s[0]) then None // the seconds group has fixed width
    else Some((None, s))
  }

  /** The optional hemisphere suffix followed by the end of the token (`$`, which
      also matches before a final "\n"). */
  function SplitSuffix(axis: Axis, s: string): (r: Option<(Option<char>, bool)>)
    ensures r.Some? ==> MarkerText(r.value.0) + NewlineText(r.value.1) == s
    ensures r.Some? && r.value.1 ==> r.value.0.Some? || s == "\n"
    ensures r.Some? && r.value.0.Some? ==> IsMarker(axis, r.value.0.value)
  {
    if s == [] then Some((None, false))
    else if s == "\n" then Some((None, true))
    else if |s| == 1 && IsMarker(axis, s[0]) then Some((Some(s[0]), false))
    else if |s| == 2 && IsMarker(axis, s[0]) && s[1] == '\n' then Some((Some(s[0]), true))
    else None
  }

  function SplitEnding(axis: Axis, s: string, spaced: bool): (r: Option<Ending>)
    ensures r.Some? ==> EndingText(r.value) == s
    ensures r.Some? ==> AllSpaces(r.value.trail) && (!spaced ==> r.value.trail == [])
    ensures r.Some? && r.value.frac.Some? ==> |r.value.frac.value| >= 1 && AllDigits(r.value.frac.value)
    ensures r.Some? && r.value.suffix.Some? ==> IsMarker(axis, r.value.suffix.value)
    ensures r.Some? && spaced && r.value.newline ==> r.value.suffix.Some?
  {
    match SplitFraction(s)
    case None => None
    case Some((frac, s1)) =>
      var (trail, s2) := if spaced then SpaceRun(s1) else ([], s1);
      match SplitSuffix(axis, s2)
      case None => None
      case Some((suffix, newline)) =>
        assert s1 == trail + s2;
        Some(Ending(frac, trail, suffix, newline))
  }

  /** The groups of a delimited token between its prefix and the end of the whole seconds. */
  datatype Groups = Groups(lead: string, deg: string, sep1: char, min: string, sep2: char, sec: string, rest: string)

  function GroupsText(g: Groups): string {
    g.lead + (g.deg + ([g.sep1] + (g.min + ([g.sep2] + (g.sec + g.rest)))))
  }

  predicate GroupsShaped(axis: Axis, g: Groups) {
    && AllSpaces(g.lead) && IsSpace(g.sep1) && IsSpace(g.sep2)
    && AllDigits(g.deg) && AllDigits(g.min) && AllDigits(g.sec)
    && 1 <= |g.deg| <= DegreeDigits(axis) && 1 <= |g.min| <= 2 && 1 <= |g.sec| <= 2
  }

  function SplitGroups(axis: Axis, s0: string): (r: Option<Groups>)
    ensures r.Some? ==> GroupsText(r.value) == s0 && GroupsShaped(axis, r.value)
  {
    var (lead, s1) := SpaceRun(s0);
    var (deg, s2) := DigitRun(s1);
    if !(1 <= |deg| <= DegreeDigits(axis)) || |s2| == 0 || !IsSpace(s2[0]) then None
    else
      var (min, s3) := DigitRun(s2[1..]);
      if !(1 <= |min| <= 2) || |s3| == 0 || !IsSpace(s3[0]) then None
      else
        var (sec, s4) := DigitRun(s3[1..]);
        if !(1 <= |sec| <= 2) then None
        else
          assert s2 == [s2[0]] + s2[1..];
          assert s3 == [s3[0]] + s3[1..];
          Some(Groups(lead, deg, s2[0], min, s3[0], sec, s4))
  }

  /** `LONGITUDE_DELIMITED_PATTERN` / `LATITUDE_DELIMITED_PATTERN`. */
  function RecognizeDelimited(axis: Axis, t: string): (r: Option<Fields>)
    ensures r.Some? ==> r.value.layout.Delimited? && WellShaped(axis, r.value)
  {
    var (prefix, s0) := SplitPrefix(axis, t);
    match SplitGroups(axis, s0)
    case None => None
    case Some(g) =>
      match SplitEnding(axis, g.rest, true)
      case None => None
      case Some(e) =>
        var f := Fields(Delimited(g.lead, g.sep1, g.sep2, e.trail), prefix, g.deg, g.min, g.sec, e.frac, e.suffix, e.newline);
        Some(f)
  }

  /** Cuts the fixed-width run into degrees, minutes and whole seconds. */
  function CompactedGroups(digits: string, w: nat): (r: (string, string, string))
    requires |digits| == w + 4 && AllDigits(digits)
    ensures r.0 + (r.1 + r.2) == digits
    ensures |r.0| == w && |r.1| == 2 && |r.2| == 2
    ensures AllDigits(r.0) && AllDigits(r.1) && AllDigits(r.2)
  {
    assert digits == digits[..w] + (digits[w..w + 2] + digits[w + 2..]);
    (digits[..w], digits[w..w + 2], digits[w + 2..])
  }

  /** `LONGITUDE_COMPACTED_PATTERN` / `LATITUDE_COMPACTED_PATTERN`: the degree, minute and
      whole-second digits form one run of fixed length. */
  function RecognizeCompacted(axis: Axis, t: string): (r: Option<Fields>)
    ensures r.Some? ==> r.value.layout.Compacted? && WellShaped(axis, r.value)
  {
    var (prefix, s0) := SplitPrefix(axis, t);
    var (digits, s1) := DigitRun(s0);
    if |digits| != DegreeDigits(axis) + 4 then None
    else
      match SplitEnding(axis, s1, false)
      case None => None
      case Some(e) =>
        var (deg, min, sec) := CompactedGroups(digits, DegreeDigits(axis));
        var f := Fields(Compacted, prefix, deg, min, sec, e.frac, e.suffix, e.newline);
        Some(f)
  }

  /** The delimited pattern is tried first, then the compacted one. */
  function Recognize(axis: Axis, t: string): (r: Option<Fields>)
    ensures r.Some? ==> WellShaped(axis, r.value)
  {
    match RecognizeDelimited(axis, t)
    case Some(f) => Some(f)
    case None => RecognizeCompacted(axis, t)
  }

  // ---------------------------------------------------------------------------
  // Range checks and the decimal-degree value.
  // ---------------------------------------------------------------------------

  function Degrees(f: Fields): nat
    requires AllDigits(f.deg)
  {
    DigitsValue(f.deg)
  }

  function Minutes(f: Fields): nat
    requires AllDigits(f.min)
  {
    DigitsValue(f.min)
  }

  /** `float(sec)`, computed exactly. */
  function Seconds(f: Fields): (s: real)
    requires AllDigits(f.secInt)
    requires f.secFrac.Some? ==> AllDigits(f.secFrac.value)
    ensures s >= 0.0
  {
    DigitsValue(f.secInt) as real
    + if f.secFrac.Some? then DigitsValue(f.secFrac.value) as real / Pow10(|f.secFrac.value|) as real else 0.0
  }

  /** The range and consistency checks a matched token must pass. Passing them
      keeps the unsigned value within the axis bound. */
  predicate InRange(axis: Axis, f: Fields)
    requires WellShaped(axis, f)
    ensures InRange(axis, f) ==> Magnitude(f) <= MaxDegrees(axis) as real
  {
    && !(f.prefix.Some? && f.suffix.Some?)
    && Degrees(f) <= MaxDegrees(axis)
    && Minutes(f) < 60
    && Seconds(f) < 60.0
    && (Degrees(f) == MaxDegrees(axis) ==> Minutes(f) == 0 && Seconds(f) == 0.0)
  }

  /** The hemisphere marker in effect: the prefix if there is one, else the suffix. */
  function Marker(f: Fields): (m: Option<char>)
    ensures m.None? <==> f.prefix.None? && f.suffix.None?
    ensures m.Some? ==> m == f.prefix || m == f.suffix
    ensures f.prefix.Some? ==> m == f.prefix
  {
    if f.prefix.Some? then f.prefix else f.suffix
  }

  /** `d + (m + s / 60) / 60`: the degrees, plus less than one more degree when the
      minutes and seconds are below 60. */
  function Magnitude(f: Fields): (dd: real)
    requires AllDigits(f.deg) && AllDigits(f.min) && AllDigits(f.secInt)
    requires f.secFrac.Some? ==> AllDigits(f.secFrac.value)
    ensures Degrees(f) as real <= dd
    ensures Minutes(f) < 60 && Seconds(f) < 60.0 ==> dd < Degrees(f) as real + 1.0
    ensures dd == Degrees(f) as real <==> Minutes(f) == 0 && Seconds(f) == 0.0
  {
    Degrees(f) as real + (Minutes(f) as real + Seconds(f) / 60.0) / 60.0
  }

  /** The signed value of well-shaped fields that pass the range checks. */
  function Value(axis: Axis, f: Fields): (v: real)
    requires WellShaped(axis, f)
    requires InRange(axis, f)
    ensures -(MaxDegrees(axis) as real) <= v <= MaxDegrees(axis) as real
    ensures v < 0.0 ==> Marker(f) == Some(NegativeMarker(axis))
  {
    var dd := Magnitude(f);
    if Marker(f) == Some(NegativeMarker(axis)) then -dd else dd
  }

  /** What a token with these groups converts to. */
  function Decide(axis: Axis, f: Fields, t: string): (r: Result<real, CoordinateValueError>)
    requires WellShaped(axis, f)
    ensures r.Success? <==> InRange(axis, f)
    ensures r.Failure? ==> r.error == CoordinateValueError(t)
    ensures r.Success? ==> -(MaxDegrees(axis) as real) <= r.value <= MaxDegrees(axis) as real
    ensures r.Success? && r.value < 0.0 ==> Marker(f) == Some(NegativeMarker(axis))
  {
    if InRange(axis, f) then Success(Value(axis, f)) else Failure(CoordinateValueError(t))
  }

  /** `longitude_to_dd` and `latitude_to_dd`, for either axis. */
  function ToDD(axis: Axis, t: string): (r: Result<real, CoordinateValueError>)
    ensures r.Failure? ==> r.error == CoordinateValueError(t)
    ensures r.Success? ==> -(MaxDegrees(axis) as real) <= r.value <= MaxDegrees(axis) as real
  {
    match Recognize(axis, t)
    case None => Failure(CoordinateValueError(t))
    case Some(f) => Decide(axis, f, t)
  }

  function LongitudeToDD(lon: string): (r: Result<real, CoordinateValueError>)
    requires IsAsciiString(lon)
    ensures r.Failure? ==> r.error == CoordinateValueError(lon)
    ensures r.Success? ==> -180.0 <= r.value <= 180.0
  {
    ToDD(Longitude, lon)
  }

  function LatitudeToDD(lat: string): (r: Result<real, CoordinateValueError>)
    requires IsAsciiString(lat)
    ensures r.Failure? ==> r.error == CoordinateValueError(lat)
    ensures r.Success? ==> -90.0 <= r.value <= 90.0
  {
    ToDD(Latitude, lat)
  }
}
