/** Worked conversions from the repository's tests and from the range checks of
    `longitude_to_dd` and `latitude_to_dd`. Each token is given
    by its fields: one lemma shows the fields spell the token, another what it converts
    to. */
module CoordinateExamples {
  import opened Wrappers
  import opened Chars
  import opened Coordinates
  import CoordinateProofs

  lemma ConvertsTo(axis: Axis, f: Fields, dd: real)
    requires WellShaped(axis, f) && InRange(axis, f) && Value(axis, f) == dd
    ensures ToDD(axis, Spell(f)) == Success(dd)
  {
    CoordinateProofs.ToDDSpelled(axis, f);
  }

  lemma Rejected(axis: Axis, f: Fields)
    requires WellShaped(axis, f) && !InRange(axis, f)
    ensures ToDD(axis, Spell(f)) == Failure(CoordinateValueError(Spell(f)))
  {
    CoordinateProofs.ToDDSpelled(axis, f);
  }

  lemma OneDigit(a: char)
    requires IsDigit(a)
    ensures DigitsValue([a]) == DigitValue(a)
  {
    assert [a][..0] == [];
  }

  lemma TwoDigits(a: char, b: char)
    requires IsDigit(a) && IsDigit(b)
    ensures DigitsValue([a, b]) == 10 * DigitValue(a) + DigitValue(b)
  {
    assert [a, b][..1] == [a];
    OneDigit(a);
  }

  lemma ThreeDigits(a: char, b: char, c: char)
    requires IsDigit(a) && IsDigit(b) && IsDigit(c)
    ensures DigitsValue([a, b, c]) == 100 * DigitValue(a) + 10 * DigitValue(b) + DigitValue(c)
  {
    assert [a, b, c][..2] == [a, b];
    TwoDigits(a, b);
  }

  const PrefixSpaced := Delimited(" ", ' ', ' ', "")
  const SuffixSpaced := Delimited("", ' ', ' ', " ")

  const EastDelimited := Fields(PrefixSpaced, Some('E'), "110", "30", "0", None, None, false)
  const EastSuffixed := Fields(SuffixSpaced, None, "110", "30", "00", None, Some('E'), false)
  const EastCompacted := Fields(Compacted, Some('E'), "110", "30", "00", None, None, false)
  const EastCompactedSuffixed := Fields(Compacted, None, "110", "30", "00", None, Some('E'), false)
  const WestDelimited := Fields(PrefixSpaced, Some('W'), "10", "30", "30", None, None, false)
  const WestCompacted := Fields(Compacted, None, "010", "30", "30", None, Some('W'), false)

  lemma EastDelimitedSpellings()
    ensures Spell(EastDelimited) == "E 110 30 0"
    ensures Spell(EastSuffixed) == "110 30 00 E"
  {
  }

  lemma EastCompactedSpellings()
    ensures Spell(EastCompacted) == "E1103000"
    ensures Spell(EastCompactedSuffixed) == "1103000E"
  {
  }

  /** Four spellings of 110 degrees 30 minutes East. */
  lemma EastDelimitedValue()
    ensures ToDD(Longitude, Spell(EastDelimited)) == Success(110.5)
  {
    ThreeDigits('1', '1', '0'); TwoDigits('3', '0'); OneDigit('0');
    ConvertsTo(Longitude, EastDelimited, 110.5);
  }

  lemma EastSuffixedValue()
    ensures ToDD(Longitude, Spell(EastSuffixed)) == Success(110.5)
  {
    ThreeDigits('1', '1', '0'); TwoDigits('3', '0'); TwoDigits('0', '0');
    ConvertsTo(Longitude, EastSuffixed, 110.5);
  }

  lemma EastCompactedValue()
    ensures ToDD(Longitude, Spell(EastCompacted)) == Success(110.5)
  {
    ThreeDigits('1', '1', '0'); TwoDigits('3', '0'); TwoDigits('0', '0');
    ConvertsTo(Longitude, EastCompacted, 110.5);
  }

  lemma EastCompactedSuffixedValue()
    ensures ToDD(Longitude, Spell(EastCompactedSuffixed)) == Success(110.5)
  {
    ThreeDigits('1', '1', '0'); TwoDigits('3', '0'); TwoDigits('0', '0');
    ConvertsTo(Longitude, EastCompactedSuffixed, 110.5);
  }

  lemma WestSpellings()
    ensures Spell(WestDelimited) == "W 10 30 30"
    ensures Spell(WestCompacted) == "0103030W"
  {
  }

  /** 10 degrees 30 minutes 30 seconds West, that is -(10 + 30/60 + 30/3600). */
  lemma WestDelimitedValue()
    ensures ToDD(Longitude, Spell(WestDelimited)) == Success(-1261.0 / 120.0)
  {
    TwoDigits('1', '0'); TwoDigits('3', '0');
    ConvertsTo(Longitude, WestDelimited, -1261.0 / 120.0);
  }

  lemma WestCompactedValue()
    ensures ToDD(Longitude, Spell(WestCompacted)) == Success(-1261.0 / 120.0)
  {
    ThreeDigits('0', '1', '0'); TwoDigits('3', '0');
    ConvertsTo(Longitude, WestCompacted, -1261.0 / 120.0);
  }

  const NorthFraction := Fields(PrefixSpaced, Some('N'), "45", "0", "36", Some("0"), None, false)
  const EastNewline := Fields(SuffixSpaced, None, "110", "30", "00", None, Some('E'), true)

  lemma FractionSpelling()
    ensures Spell(NorthFraction) == "N 45 0 36.0"
  {
  }

  lemma NewlineSpelling()
    ensures Spell(EastNewline) == "110 30 00 E\n"
  {
  }

  /** Seconds with a decimal fraction: 45 degrees 0 minutes 36.0 seconds North. */
  lemma NorthFractionValue()
    ensures ToDD(Latitude, Spell(NorthFraction)) == Success(45.01)
  {
    TwoDigits('4', '5'); OneDigit('0'); TwoDigits('3', '6');
    ConvertsTo(Latitude, NorthFraction, 45.01);
  }

  /** The end of the token may be followed by one newline. */
  lemma EastNewlineValue()
    ensures ToDD(Longitude, Spell(EastNewline)) == Success(110.5)
  {
    ThreeDigits('1', '1', '0'); TwoDigits('3', '0'); TwoDigits('0', '0');
    ConvertsTo(Longitude, EastNewline, 110.5);
  }

  const Antimeridian := Fields(PrefixSpaced, Some('W'), "180", "0", "0", None, None, false)
  const PastAntimeridian := Fields(PrefixSpaced, Some('E'), "180", "0", "1", None, None, false)
  const BothMarkers := Fields(Delimited(" ", ' ', ' ', " "), Some('E'), "0", "0", "0", None, Some('W'), false)
  const PastPole := Fields(PrefixSpaced, Some('N'), "91", "0", "0", None, None, false)

  lemma AntimeridianSpellings()
    ensures Spell(Antimeridian) == "W 180 0 0"
    ensures Spell(PastAntimeridian) == "E 180 0 1"
  {
  }

  lemma RejectedSpellings()
    ensures Spell(BothMarkers) == "E 0 0 0 W"
    ensures Spell(PastPole) == "N 91 0 0"
  {
  }

  lemma AntimeridianValue()
    ensures ToDD(Longitude, Spell(Antimeridian)) == Success(-180.0)
  {
    ThreeDigits('1', '8', '0'); OneDigit('0');
    ConvertsTo(Longitude, Antimeridian, -180.0);
  }

  lemma PastAntimeridianRejected()
    ensures ToDD(Longitude, Spell(PastAntimeridian)) == Failure(CoordinateValueError(Spell(PastAntimeridian)))
  {
    ThreeDigits('1', '8', '0'); OneDigit('0'); OneDigit('1');
    Rejected(Longitude, PastAntimeridian);
  }

  lemma MixedMarkersRejected()
    ensures ToDD(Longitude, Spell(BothMarkers)) == Failure(CoordinateValueError(Spell(BothMarkers)))
  {
    Rejected(Longitude, BothMarkers);
  }

  /** The latitude degree group admits two digits, so 91 is matched and then rejected. */
  lemma PastPoleRejected()
    ensures ToDD(Latitude, Spell(PastPole)) == Failure(CoordinateValueError(Spell(PastPole)))
  {
    TwoDigits('9', '1'); OneDigit('0');
    Rejected(Latitude, PastPole);
  }

  const EquatorLongitude := Fields(PrefixSpaced, Some('E'), "0", "0", "0", None, None, false)
  const EquatorLatitude := Fields(PrefixSpaced, Some('N'), "0", "0", "0", None, None, false)
  const SouthTen := Fields(PrefixSpaced, Some('S'), "10", "0", "0", None, None, false)

  lemma OriginSpellings()
    ensures Spell(EquatorLongitude) == "E 0 0 0"
    ensures Spell(EquatorLatitude) == "N 0 0 0"
  {
  }

  lemma SouthTenSpelling()
    ensures Spell(SouthTen) == "S 10 0 0"
  {
  }

  lemma OriginValues()
    ensures ToDD(Longitude, Spell(EquatorLongitude)) == Success(0.0)
    ensures ToDD(Latitude, Spell(EquatorLatitude)) == Success(0.0)
  {
    OneDigit('0');
    ConvertsTo(Longitude, EquatorLongitude, 0.0);
    ConvertsTo(Latitude, EquatorLatitude, 0.0);
  }

  lemma SouthTenValue()
    ensures ToDD(Latitude, Spell(SouthTen)) == Success(-10.0)
  {
    TwoDigits('1', '0'); OneDigit('0');
    ConvertsTo(Latitude, SouthTen, -10.0);
  }
}
