/** Properties of the coordinate conversion: the recogniser accepts exactly the
    spellings of the grammar, and the range checks, the sign rule and the value
    formula hold of every accepted token. */
module CoordinateProofs {
  import opened Wrappers
  import opened Chars
  import opened Coordinates

  // ---------------------------------------------------------------------------
  // Scanning a spelled token step by step.
  // ---------------------------------------------------------------------------

  lemma SplitPrefixOf(axis: Axis, prefix: Option<char>, rest: string)
    requires prefix.Some? ==> IsMarker(axis, prefix.value)
    requires prefix.None? && |rest| > 0 ==> !IsMarker(axis, rest[0])
    ensures SplitPrefix(axis, MarkerText(prefix) + rest) == (prefix, rest)
  {
    if prefix.Some? {
      assert (MarkerText(prefix) + rest)[1..] == rest;
    } else {
      assert MarkerText(prefix) + rest == rest;
    }
  }

  lemma SplitSuffixOf(axis: Axis, suffix: Option<char>, newline: bool)
    requires suffix.Some? ==> IsMarker(axis, suffix.value)
    ensures SplitSuffix(axis, MarkerText(suffix) + NewlineText(newline)) == Some((suffix, newline))
  {
    var s := MarkerText(suffix) + NewlineText(newline);
    if suffix.Some? && !newline {
      assert s == [suffix.value];
    } else if suffix.Some? && newline {
      assert s == [suffix.value, '\n'];
    } else if newline {
      assert s == "\n";
    } else {
      assert s == [];
    }
  }

  /** What may follow the whole seconds: a fraction, whitespace, a marker, "\n" or nothing;
      never a digit. */
  lemma SplitFractionOf(frac: Option<string>, rest: string)
    requires frac.Some? ==> |frac.value| >= 1 && AllDigits(frac.value)
    requires |rest| > 0 ==> !IsDigit(rest[0])
    requires frac.None? && |rest| > 0 ==> rest[0] != '.'
    ensures SplitFraction(FractionText(frac) + rest) == Some((frac, rest))
  {
    var s := FractionText(frac) + rest;
    if frac.Some? {
      assert s[0] == '.';
      assert s[1..] == frac.value + rest;
      DigitRunOf(frac.value, rest);
    } else {
      assert s == rest;
    }
  }

  /** The well-shaped endings of a layout (`spaced`: whitespace allowed before the suffix). */
  predicate EndingShaped(axis: Axis, e: Ending, spaced: bool) {
    && (e.frac.Some? ==> |e.frac.value| >= 1 && AllDigits(e.frac.value))
    && AllSpaces(e.trail) && (!spaced ==> e.trail == [])
    && (e.suffix.Some? ==> IsMarker(axis, e.suffix.value))
    && (spaced && e.newline ==> e.suffix.Some?)
  }

  /** An ending never starts with a digit, and without a fraction never with a dot. */
  lemma EndingStart(axis: Axis, e: Ending, spaced: bool)
    requires EndingShaped(axis, e, spaced)
    ensures var s := EndingText(e); |s| > 0 ==> !IsDigit(s[0])
    ensures var s := e.trail + (MarkerText(e.suffix) + NewlineText(e.newline));
      |s| > 0 ==> !IsDigit(s[0]) && s[0] != '.'
  {
    var m := MarkerText(e.suffix) + NewlineText(e.newline);
    if |m| > 0 {
      assert m[0] == (if e.suffix.Some? then e.suffix.value else '\n');
    }
    if |e.trail| > 0 {
      assert (e.trail + m)[0] == e.trail[0];
    } else {
      assert e.trail + m == m;
    }
    if e.frac.Some? {
      assert EndingText(e)[0] == '.';
    }
  }

  lemma SplitEndingOf(axis: Axis, e: Ending, spaced: bool)
    requires EndingShaped(axis, e, spaced)
    ensures SplitEnding(axis, EndingText(e), spaced) == Some(e)
  {
    var m := MarkerText(e.suffix) + NewlineText(e.newline);
    var s1 := e.trail + m;
    EndingStart(axis, e, spaced);
    SplitFractionOf(e.frac, s1);
    if spaced {
      if |m| > 0 {
        assert m[0] == e.suffix.value;
      }
      SpaceRunOf(e.trail, m);
    } else {
      assert s1 == m;
    }
    SplitSuffixOf(axis, e.suffix, e.newline);
  }

  lemma SplitGroupsOf(axis: Axis, g: Groups)
    requires GroupsShaped(axis, g)
    requires g.rest == [] || !IsDigit(g.rest[0])
    ensures SplitGroups(axis, GroupsText(g)) == Some(g)
  {
    var s3 := [g.sep2] + (g.sec + g.rest);
    var s2 := [g.sep1] + (g.min + s3);
    var s1 := g.deg + s2;
    assert GroupsText(g) == g.lead + s1;
    assert s1[0] == g.deg[0];
    SpaceRunOf(g.lead, s1);
    DigitRunOf(g.deg, s2);
    assert s2[0] == g.sep1 && s2[1..] == g.min + s3;
    DigitRunOf(g.min, s3);
    assert s3[0] == g.sep2 && s3[1..] == g.sec + g.rest;
    DigitRunOf(g.sec, g.rest);
  }

  // ---------------------------------------------------------------------------
  // Completeness: the recogniser returns exactly the fields a token was spelled from.
  // ---------------------------------------------------------------------------

  /** Delimited groups start with whitespace or a digit, never with a marker. */
  lemma GroupsPrefix(axis: Axis, prefix: Option<char>, g: Groups)
    requires prefix.Some? ==> IsMarker(axis, prefix.value)
    requires GroupsShaped(axis, g)
    ensures SplitPrefix(axis, MarkerText(prefix) + GroupsText(g)) == (prefix, GroupsText(g))
  {
    var s0 := GroupsText(g);
    if |g.lead| > 0 {
      assert s0[0] == g.lead[0];
    } else {
      assert s0[0] == g.deg[0];
    }
    SplitPrefixOf(axis, prefix, s0);
  }

  /** The scan of a delimited token, given what each of its three steps finds. */
  lemma RecognizeDelimitedFrom(axis: Axis, t: string, prefix: Option<char>, g: Groups, e: Ending)
    requires SplitPrefix(axis, t) == (prefix, GroupsText(g))
    requires SplitGroups(axis, GroupsText(g)) == Some(g)
    requires SplitEnding(axis, g.rest, true) == Some(e)
    ensures RecognizeDelimited(axis, t) ==
      Some(Fields(Delimited(g.lead, g.sep1, g.sep2, e.trail), prefix, g.deg, g.min, g.sec, e.frac, e.suffix, e.newline))
  {
  }

  /** The delimited spelling, read as a prefix followed by the groups. */
  lemma SpellDelimited(f: Fields)
    requires f.layout.Delimited?
    ensures Spell(f) == MarkerText(f.prefix) +
      GroupsText(Groups(f.layout.lead, f.deg, f.layout.sep1, f.min, f.layout.sep2, f.secInt, EndingText(EndingOf(f))))
  {
  }

  lemma RecognizeDelimitedSpelled(axis: Axis, f: Fields)
    requires WellShaped(axis, f) && f.layout.Delimited?
    ensures RecognizeDelimited(axis, Spell(f)) == Some(f)
  {
    var t := Spell(f);
    var e := EndingOf(f);
    var g := Groups(f.layout.lead, f.deg, f.layout.sep1, f.min, f.layout.sep2, f.secInt, EndingText(e));
    assert GroupsShaped(axis, g);
    assert EndingShaped(axis, e, true);
    SpellDelimited(f);
    GroupsPrefix(axis, f.prefix, g);
    EndingStart(axis, e, true);
    SplitGroupsOf(axis, g);
    SplitEndingOf(axis, e, true);
    RecognizeDelimitedFrom(axis, t, f.prefix, g, e);
  }

  lemma RecognizeCompactedSpelled(axis: Axis, f: Fields)
    requires WellShaped(axis, f) && f.layout.Compacted?
    ensures RecognizeCompacted(axis, Spell(f)) == Some(f)
  {
    var w := DegreeDigits(axis);
    var e := EndingOf(f);
    var s1 := EndingText(e);
    var digits := f.deg + (f.min + f.secInt);
    var s0 := f.deg + (f.min + (f.secInt + s1));
    assert EndingShaped(axis, e, false);
    assert SplitPrefix(axis, Spell(f)) == (f.prefix, s0) by {
      assert Spell(f) == MarkerText(f.prefix) + s0;
      assert s0[0] == f.deg[0];
      SplitPrefixOf(axis, f.prefix, s0);
    }
    assert DigitRun(s0) == (digits, s1) by {
      assert s0 == digits + s1 by {
        AppendAssoc(f.deg, f.min + f.secInt, s1);
        AppendAssoc(f.min, f.secInt, s1);
      }
      EndingStart(axis, e, false);
      DigitRunOf(digits, s1);
    }
    assert CompactedGroups(digits, w) == (f.deg, f.min, f.secInt) by {
      assert digits[..w] == f.deg && digits[w..w + 2] == f.min && digits[w + 2..] == f.secInt;
    }
    assert SplitEnding(axis, s1, false) == Some(e) by {
      SplitEndingOf(axis, e, false);
    }
  }

  // ---------------------------------------------------------------------------
  // Soundness: whatever the recogniser returns spells the token back.
  // ---------------------------------------------------------------------------

  lemma RecognizeDelimitedSound(axis: Axis, t: string)
    ensures var r := RecognizeDelimited(axis, t); r.Some? ==> Spell(r.value) == t
  {
    var r := RecognizeDelimited(axis, t);
    if r.Some? {
      var (prefix, s0) := SplitPrefix(axis, t);
      var g := SplitGroups(axis, s0).value;
      var e := SplitEnding(axis, g.rest, true).value;
      assert EndingOf(r.value) == e;
      assert Spell(r.value) == MarkerText(prefix) + GroupsText(g);
    }
  }

  lemma RecognizeCompactedSound(axis: Axis, t: string)
    ensures var r := RecognizeCompacted(axis, t); r.Some? ==> Spell(r.value) == t
  {
    var r := RecognizeCompacted(axis, t);
    if r.Some? {
      var (prefix, s0) := SplitPrefix(axis, t);
      var (digits, s1) := DigitRun(s0);
      var e := SplitEnding(axis, s1, false).value;
      var (deg, min, sec) := CompactedGroups(digits, DegreeDigits(axis));
      assert EndingOf(r.value) == e;
      assert s0 == deg + (min + (sec + s1)) by {
        AppendAssoc(deg, min + sec, s1);
        AppendAssoc(min, sec, s1);
      }
      assert Spell(r.value) == MarkerText(prefix) + s0;
    }
  }

  /** Every recognised token is the spelling of the fields recognised in it. */
  lemma RecognizeSound(axis: Axis, t: string)
    ensures var r := Recognize(axis, t); r.Some? ==> Spell(r.value) == t
  {
    RecognizeDelimitedSound(axis, t);
    RecognizeCompactedSound(axis, t);
  }

  /** A compacted token is not also a delimited one: its first digit run is too long. */
  lemma CompactedIsNotDelimited(axis: Axis, f: Fields)
    requires WellShaped(axis, f) && f.layout.Compacted?
    ensures RecognizeDelimited(axis, Spell(f)) == None
  {
    var e := EndingOf(f);
    var s1 := EndingText(e);
    var digits := f.deg + (f.min + f.secInt);
    var s0 := f.deg + (f.min + (f.secInt + s1));
    assert EndingShaped(axis, e, false);
    assert SplitPrefix(axis, Spell(f)) == (f.prefix, s0) by {
      assert Spell(f) == MarkerText(f.prefix) + s0;
      assert s0[0] == f.deg[0];
      SplitPrefixOf(axis, f.prefix, s0);
    }
    assert SplitGroups(axis, s0) == None by {
      assert s0 == digits + s1 by {
        AppendAssoc(f.deg, f.min + f.secInt, s1);
        AppendAssoc(f.min, f.secInt, s1);
      }
      EndingStart(axis, e, false);
      DigitRunOf(digits, s1);
      assert [] + s0 == s0;
      SpaceRunOf([], s0);
    }
  }

  /** Every well-shaped token is recognised, with exactly its own fields. */
  lemma RecognizeSpelled(axis: Axis, f: Fields)
    requires WellShaped(axis, f)
    ensures Recognize(axis, Spell(f)) == Some(f)
  {
    if f.layout.Delimited? {
      RecognizeDelimitedSpelled(axis, f);
    } else {
      CompactedIsNotDelimited(axis, f);
      RecognizeCompactedSpelled(axis, f);
    }
  }

  /** In a spelled token the prefix marker comes first, and the suffix marker comes
      last or just before the final newline. */
  lemma SpellMarkers(f: Fields)
    ensures f.prefix.Some? ==> |Spell(f)| > 0 && Spell(f)[0] == f.prefix.value
    ensures f.suffix.Some? && !f.newline ==> |Spell(f)| > 0 && Spell(f)[|Spell(f)| - 1] == f.suffix.value
    ensures f.newline ==> |Spell(f)| > 0 && Spell(f)[|Spell(f)| - 1] == '\n'
  {
    var e := EndingOf(f);
    var tail := MarkerText(e.suffix) + NewlineText(e.newline);
    assert EndingText(e) == FractionText(e.frac) + (e.trail + tail);
    var body := match f.layout
      case Delimited(lead, sep1, sep2, _) =>
        lead + (f.deg + ([sep1] + (f.min + ([sep2] + (f.secInt + EndingText(e))))))
      case Compacted =>
        f.deg + (f.min + (f.secInt + EndingText(e)));
    assert Spell(f) == MarkerText(f.prefix) + body;
    var pre := Spell(f)[..|Spell(f)| - |tail|];
    assert Spell(f) == pre + tail;
  }

  /** The group widths cap the degrees below 1000 (100 for a latitude) and the
      minutes below 100: the range checks refuse what lies between. */
  lemma WidthsBound(axis: Axis, f: Fields)
    requires WellShaped(axis, f)
    ensures Degrees(f) < Pow10(DegreeDigits(axis))
    ensures Minutes(f) < 100
  {
    DigitsBelow(f.deg, DegreeDigits(axis));
    DigitsBelow(f.min, 2);
  }

  /** A well-shaped token is plain ASCII. */
  lemma SpellIsAscii(axis: Axis, f: Fields)
    requires WellShaped(axis, f)
    ensures IsAsciiString(Spell(f))
  {
    var e := EndingOf(f);
    var m := MarkerText(e.suffix) + NewlineText(e.newline);
    AsciiAppend(MarkerText(e.suffix), NewlineText(e.newline));
    AsciiAppend(e.trail, m);
    assert IsAsciiString(FractionText(e.frac));
    AsciiAppend(FractionText(e.frac), e.trail + m);
    var end := EndingText(e);
    AsciiAppend(f.secInt, end);
    var body;
    if f.layout.Delimited? {
      var Delimited(lead, sep1, sep2, _) := f.layout;
      AsciiAppend([sep2], f.secInt + end);
      AsciiAppend(f.min, [sep2] + (f.secInt + end));
      AsciiAppend([sep1], f.min + ([sep2] + (f.secInt + end)));
      AsciiAppend(f.deg, [sep1] + (f.min + ([sep2] + (f.secInt + end))));
      AsciiAppend(lead, f.deg + ([sep1] + (f.min + ([sep2] + (f.secInt + end)))));
      body := lead + (f.deg + ([sep1] + (f.min + ([sep2] + (f.secInt + end)))));
    } else {
      AsciiAppend(f.min, f.secInt + end);
      AsciiAppend(f.deg, f.min + (f.secInt + end));
      body := f.deg + (f.min + (f.secInt + end));
    }
    AsciiAppend(MarkerText(f.prefix), body);
    assert Spell(f) == MarkerText(f.prefix) + body;
  }

  // ---------------------------------------------------------------------------
  // The conversion, stated over the grammar.
  // ---------------------------------------------------------------------------

  /** A spelled token converts according to its own fields. */
  lemma ToDDSpelled(axis: Axis, f: Fields)
    requires WellShaped(axis, f)
    ensures ToDD(axis, Spell(f)) == Decide(axis, f, Spell(f))
  {
    RecognizeSpelled(axis, f);
  }

  /** A token that matches none of the layouts is rejected, and the error carries it. */
  lemma UnsupportedFormatRejected(axis: Axis, t: string)
    requires forall f :: WellShaped(axis, f) ==> Spell(f) != t
    ensures ToDD(axis, t) == Failure(CoordinateValueError(t))
  {
    RecognizeSound(axis, t);
  }

  /** A token converts exactly when it spells well-shaped fields that pass the range checks. */
  lemma ToDDAccepts(axis: Axis, t: string)
    ensures ToDD(axis, t).Success? <==> exists f :: WellShaped(axis, f) && Spell(f) == t && InRange(axis, f)
  {
    RecognizeSound(axis, t);
    if f :| WellShaped(axis, f) && Spell(f) == t && InRange(axis, f) {
      RecognizeSpelled(axis, f);
    }
  }

  /** A hemisphere marker on both sides is rejected, however well formed the rest is. */
  lemma BothMarkersRejected(axis: Axis, f: Fields)
    requires WellShaped(axis, f)
    requires f.prefix.Some? && f.suffix.Some?
    ensures ToDD(axis, Spell(f)) == Failure(CoordinateValueError(Spell(f)))
  {
    ToDDSpelled(axis, f);
  }

  /** Degrees beyond the axis maximum, minutes from 60 and seconds from 60 are rejected. */
  lemma OutOfRangeRejected(axis: Axis, f: Fields)
    requires WellShaped(axis, f)
    requires Degrees(f) > MaxDegrees(axis) || Minutes(f) >= 60 || Seconds(f) >= 60.0
    ensures ToDD(axis, Spell(f)) == Failure(CoordinateValueError(Spell(f)))
  {
    ToDDSpelled(axis, f);
  }

  /** At 180 degrees of longitude or 90 of latitude, only zero minutes and seconds are accepted. */
  lemma BoundaryDegrees(axis: Axis, f: Fields)
    requires WellShaped(axis, f)
    requires !(f.prefix.Some? && f.suffix.Some?)
    requires Degrees(f) == MaxDegrees(axis)
    ensures ToDD(axis, Spell(f)).Success? <==> Minutes(f) == 0 && Seconds(f) == 0.0
    ensures ToDD(axis, Spell(f)).Success? ==>
      ToDD(axis, Spell(f)).value == if Marker(f) == Some(NegativeMarker(axis)) then -(MaxDegrees(axis) as real) else MaxDegrees(axis) as real
  {
    ToDDSpelled(axis, f);
  }

  /** An accepted token is worth `d + (m + s/60)/60` degrees, negated exactly when its
      marker is West (longitude) or South (latitude). */
  lemma ValueFormula(axis: Axis, f: Fields)
    requires WellShaped(axis, f)
    requires InRange(axis, f)
    ensures ToDD(axis, Spell(f)).Success?
    ensures var dd := Degrees(f) as real + (Minutes(f) as real + Seconds(f) / 60.0) / 60.0;
      ToDD(axis, Spell(f)).value == if Marker(f) == Some(NegativeMarker(axis)) then -dd else dd
    ensures Marker(f) != Some(NegativeMarker(axis)) ==> ToDD(axis, Spell(f)).value >= 0.0
    ensures Marker(f) == Some(NegativeMarker(axis)) ==> ToDD(axis, Spell(f)).value <= 0.0
  {
    ToDDSpelled(axis, f);
  }

  /** The layout does not matter: a delimited and a compacted spelling with the same
      markers and the same degrees, minutes and seconds convert alike. */
  lemma LayoutsAgree(axis: Axis, f: Fields, g: Fields)
    requires WellShaped(axis, f) && WellShaped(axis, g)
    requires f.prefix == g.prefix && f.suffix == g.suffix
    requires Degrees(f) == Degrees(g) && Minutes(f) == Minutes(g) && Seconds(f) == Seconds(g)
    ensures ToDD(axis, Spell(f)).Success? <==> ToDD(axis, Spell(g)).Success?
    ensures ToDD(axis, Spell(f)).Success? ==> ToDD(axis, Spell(f)).value == ToDD(axis, Spell(g)).value
  {
    ToDDSpelled(axis, f);
    ToDDSpelled(axis, g);
    DecideAgrees(axis, f, g, Spell(f), Spell(g));
  }

  lemma DecideAgrees(axis: Axis, f: Fields, g: Fields, t: string, u: string)
    requires WellShaped(axis, f) && WellShaped(axis, g)
    requires f.prefix == g.prefix && f.suffix == g.suffix
    requires Degrees(f) == Degrees(g) && Minutes(f) == Minutes(g) && Seconds(f) == Seconds(g)
    ensures Decide(axis, f, t).Success? <==> Decide(axis, g, u).Success?
    ensures Decide(axis, f, t).Success? ==> Decide(axis, f, t).value == Decide(axis, g, u).value
  {
  }
}
