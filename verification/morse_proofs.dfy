/** Properties of the Morse encoder: the table, the check, the encoder's
    algebra, and reading an encoded message back through the player's splits. */
module MorseProofs {
  import opened Wrappers
  import opened Chars
  import opened Morse

  /** Different letters have different codes. */
  lemma SymbolInjective(a: char, b: char)
    requires IsUpper(a) && IsUpper(b)
    ensures Symbol(a) == Symbol(b) <==> a == b
  {
    SymbolsDistinct();
    if Symbol(a) == Symbol(b) {
      assert Symbols[a as int - 'A' as int] == Symbols[b as int - 'A' as int];
    }
  }

  /** Looking a letter's code up in the table gives back the letter. */
  lemma LetterOfSymbol(c: char)
    requires IsUpper(c)
    ensures Letter(Symbol(c)) == Some(c)
  {
    var r := Letter(Symbol(c));
    if r.Some? {
      SymbolInjective(r.value, c);
    }
  }

  lemma EncodableAppend(a: string, b: string)
    requires Encodable(a) && Encodable(b)
    ensures Encodable(a + b)
  {
    forall i | 0 <= i < |a + b|
      ensures (a + b)[i] == ' ' || IsUpper((a + b)[i])
    {
      if i < |a| {
        assert (a + b)[i] == a[i];
      } else {
        assert (a + b)[i] == b[i - |a|];
      }
    }
  }

  /** The encoder works character by character, so it distributes over
      concatenation. */
  lemma {:induction false} EncodeAppend(a: string, b: string)
    requires Encodable(a) && Encodable(b)
    ensures Encodable(a + b)
    ensures EncodeChars(a + b) == EncodeChars(a) + EncodeChars(b)
  {
    EncodableAppend(a, b);
    if |a| == 0 {
      assert a + b == b;
    } else {
      assert (a + b)[0] == a[0];
      assert (a + b)[1..] == a[1..] + b;
      EncodeAppend(a[1..], b);
      AppendAssoc(EncodeChar(a[0]), EncodeChars(a[1..]), EncodeChars(b));
    }
  }

  /** A letter encodes as its code and one pause; a space as one pause. */
  lemma EncodeSingle(c: char)
    requires c == ' ' || IsUpper(c)
    ensures Encodable([c])
    ensures c == ' ' ==> EncodeChars([c]) == " "
    ensures c != ' ' ==> EncodeChars([c]) == Symbol(c) + " "
  {
    assert [c][1..] == [];
  }

  lemma UpperIdempotent(m: string)
    ensures UpperString(UpperString(m)) == UpperString(m)
  {
  }

  /** The message and its upper-cased form pass or fail the check together
      and encode to the same text. */
  lemma CaseInsensitive(m: string)
    requires IsAsciiString(m)
    ensures IsAsciiString(UpperString(m))
    ensures EncodeText(m) == EncodeText(UpperString(m))
  {
    var u := UpperString(m);
    assert forall i :: 0 <= i < |m| ==> (u[i] == ' ' <==> m[i] == ' ') && (IsLetter(u[i]) <==> IsLetter(m[i]));
    assert CheckMessage(m) == CheckMessage(u) by {
      if CheckMessage(m) {
        var i :| 0 <= i < |m| && m[i] != ' ';
        assert u[i] != ' ';
      }
      if CheckMessage(u) {
        var i :| 0 <= i < |u| && u[i] != ' ';
        assert m[i] != ' ';
      }
    }
    UpperIdempotent(m);
  }

  /** The words of a message: non-empty runs of upper-case letters. */
  predicate IsWord(w: string) {
    |w| > 0 && forall i :: 0 <= i < |w| ==> IsUpper(w[i])
  }

  /** The codes of a word's letters. */
  function Codes(w: string): (r: seq<string>)
    requires forall i :: 0 <= i < |w| ==> IsUpper(w[i])
    ensures |r| == |w|
    ensures forall i :: 0 <= i < |w| ==> r[i] == Symbol(w[i]) && IsCode(r[i])
  {
    seq(|w|, i requires 0 <= i < |w| => Symbol(w[i]))
  }

  /** A word's codes with one pause between them. */
  function Body(w: string): string
    requires IsWord(w)
  {
    Join(Codes(w), " ")
  }

  /** A word encodes as its codes separated by single pauses, with one
      trailing pause. */
  lemma {:induction false} EncodeWord(w: string)
    requires IsWord(w)
    ensures Encodable(w)
    ensures EncodeChars(w) == Body(w) + " "
  {
    if |w| == 1 {
      EncodeSingle(w[0]);
      assert w == [w[0]];
    } else {
      var c := Codes(w);
      assert IsWord(w[1..]);
      EncodeWord(w[1..]);
      assert c[1..] == Codes(w[1..]);
      assert Body(w) == c[0] + " " + Body(w[1..]);
      assert EncodeChars(w) == (c[0] + " ") + EncodeChars(w[1..]);
      AppendAssoc(c[0] + " ", Body(w[1..]), " ");
    }
  }

  /** The pieces `play_morse_code` expects between double pauses: every word's
      body, the last one keeping the final pause. */
  function Pieces(ws: seq<string>): (r: seq<string>)
    requires forall k :: 0 <= k < |ws| ==> IsWord(ws[k])
    ensures |r| == |ws|
  {
    seq(|ws|, k requires 0 <= k < |ws| => if k == |ws| - 1 then Body(ws[k]) + " " else Body(ws[k]))
  }

  /** A message of words separated by single spaces encodes as the words'
      bodies separated by double pauses, followed by one pause. */
  lemma {:induction false} EncodeMessage(ws: seq<string>)
    requires |ws| >= 1
    requires forall k :: 0 <= k < |ws| ==> IsWord(ws[k])
    ensures Encodable(Join(ws, " "))
    ensures EncodeChars(Join(ws, " ")) == Join(Pieces(ws), "  ")
  {
    if |ws| == 1 {
      EncodeWord(ws[0]);
    } else {
      EncodeMessage(ws[1..]);
      EncodeWordThenSpace(ws[0], Join(ws[1..], " "));
      PiecesStep(ws);
    }
  }

  lemma EncodeWordThenSpace(w: string, tail: string)
    requires IsWord(w) && Encodable(tail)
    ensures Encodable(w + " " + tail)
    ensures EncodeChars(w + " " + tail) == Body(w) + "  " + EncodeChars(tail)
  {
    var sp := [' '];
    var b := Body(w);
    EncodeWord(w);
    EncodeSingle(' ');
    EncodeAppend(w, sp);
    assert EncodeChars(w + sp) == (b + sp) + sp;
    EncodeAppend(w + sp, tail);
    AppendAssoc(b, sp, sp);
    assert sp + sp == "  ";
  }

  lemma PiecesStep(ws: seq<string>)
    requires |ws| > 1
    requires forall k :: 0 <= k < |ws| ==> IsWord(ws[k])
    ensures Join(Pieces(ws), "  ") == Body(ws[0]) + "  " + Join(Pieces(ws[1..]), "  ")
  {
    assert Pieces(ws)[1..] == Pieces(ws[1..]);
  }

  /** Codes joined by single spaces start and end with a signal and never hold
      two spaces in a row. */
  lemma {:induction false} JoinedCodesShape(codes: seq<string>)
    requires |codes| >= 1
    requires forall k :: 0 <= k < |codes| ==> IsCode(codes[k])
    ensures var j := Join(codes, " ");
      |j| > 0 && IsSignal(j[0]) && IsSignal(j[|j| - 1]) && NoDoubleSpace(j)
  {
    if |codes| > 1 {
      var c := codes[0];
      var rest := Join(codes[1..], " ");
      JoinedCodesShape(codes[1..]);
      var j := Join(codes, " ");
      assert j == c + " " + rest;
      forall i | 0 <= i < |j| - 1
        ensures !(j[i] == ' ' && j[i + 1] == ' ')
      {
        if i < |c| {
          assert j[i] == c[i];
        } else if i > |c| {
          assert j[i] == rest[i - |c| - 1] && j[i + 1] == rest[i - |c|];
        } else {
          assert j[i + 1] == rest[0];
        }
      }
    }
  }

  /** Each piece is well formed for `SplitWords`: no double pause inside, and
      only the last one ends with a pause. */
  lemma PiecesShape(ws: seq<string>)
    requires forall k :: 0 <= k < |ws| ==> IsWord(ws[k])
    ensures forall k :: 0 <= k < |ws| ==> NoDoubleSpace(Pieces(ws)[k])
    ensures forall k :: 0 <= k < |ws| - 1 ==> !EndsWithSpace(Pieces(ws)[k])
  {
    forall k | 0 <= k < |ws|
      ensures NoDoubleSpace(Pieces(ws)[k]) && (k < |ws| - 1 ==> !EndsWithSpace(Pieces(ws)[k]))
    {
      BodyShape(ws[k]);
    }
  }

  lemma BodyShape(w: string)
    requires IsWord(w)
    ensures NoDoubleSpace(Body(w)) && !EndsWithSpace(Body(w))
    ensures NoDoubleSpace(Body(w) + " ")
  {
    JoinedCodesShape(Codes(w));
    var b := Body(w);
    var t := b + " ";
    forall i | 0 <= i < |t| - 1
      ensures !(t[i] == ' ' && t[i + 1] == ' ')
    {
      assert t[i] == b[i];
      if i < |b| - 1 {
        assert t[i + 1] == b[i + 1];
      }
    }
  }

  /** A piece without a double pause is not split. */
  lemma {:induction false} SplitWordsSingle(p: string)
    requires NoDoubleSpace(p)
    ensures SplitWords(p) == [p]
    decreases |p|
  {
    if |p| >= 2 {
      assert !(p[0] == ' ' && p[1] == ' ');
      SplitWordsSingle(p[1..]);
      assert [p[0]] + p[1..] == p;
    }
  }

  /** A leading piece without a double pause, not ending in a pause, is split
      off at the first double pause. */
  lemma {:induction false} SplitWordsCons(p: string, rest: string)
    requires NoDoubleSpace(p) && !EndsWithSpace(p)
    ensures SplitWords(p + "  " + rest) == [p] + SplitWords(rest)
    decreases |p|
  {
    var s := p + "  " + rest;
    if |p| == 0 {
      assert s[2..] == rest;
    } else {
      assert s[0] == p[0];
      assert s[1] == if |p| > 1 then p[1] else ' ';
      assert s[1..] == p[1..] + "  " + rest;
      SplitWordsCons(p[1..], rest);
      assert [p[0]] + p[1..] == p;
    }
  }

  /** `SplitWords` inverts joining with double pauses, for pieces that hold no
      double pause and (but for the last) do not end in a pause. */
  lemma {:induction false} SplitJoinWords(parts: seq<string>)
    requires |parts| >= 1
    requires forall k :: 0 <= k < |parts| ==> NoDoubleSpace(parts[k])
    requires forall k :: 0 <= k < |parts| - 1 ==> !EndsWithSpace(parts[k])
    ensures SplitWords(Join(parts, "  ")) == parts
  {
    if |parts| == 1 {
      SplitWordsSingle(parts[0]);
    } else {
      SplitJoinWords(parts[1..]);
      SplitWordsCons(parts[0], Join(parts[1..], "  "));
    }
  }

  /** Joining the pieces with double pauses gives the text back. */
  lemma {:induction false} SplitWordsJoin(s: string)
    ensures Join(SplitWords(s), "  ") == s
    decreases |s|
  {
    if |s| < 2 {
    } else if s[0] == ' ' && s[1] == ' ' {
      SplitWordsJoin(s[2..]);
      var rest := SplitWords(s[2..]);
      assert ([[]] + rest)[1..] == rest;
      assert s == [] + "  " + s[2..];
    } else {
      SplitWordsJoin(s[1..]);
      var rest := SplitWords(s[1..]);
      var r := [[s[0]] + rest[0]] + rest[1..];
      assert s == [s[0]] + s[1..];
      if |rest| > 1 {
        var tail := Join(rest[1..], "  ");
        assert r[1..] == rest[1..];
        assert Join(r, "  ") == [s[0]] + rest[0] + "  " + tail;
        AppendAssoc([s[0]], rest[0] + "  ", tail);
        AppendAssoc([s[0]], rest[0], "  ");
      }
    }
  }

  /** The pieces hold no double pause, and every piece but the last stops
      short of a pause: the split is taken at the leftmost double pause. */
  lemma {:induction false} SplitWordsPieces(s: string)
    ensures forall k :: 0 <= k < |SplitWords(s)| ==> NoDoubleSpace(SplitWords(s)[k])
    ensures forall k :: 0 <= k < |SplitWords(s)| - 1 ==> !EndsWithSpace(SplitWords(s)[k])
    decreases |s|
  {
    if |s| < 2 {
    } else if s[0] == ' ' && s[1] == ' ' {
      SplitWordsPieces(s[2..]);
      var rest := SplitWords(s[2..]);
      var r := [[]] + rest;
      assert forall k :: 1 <= k < |r| ==> r[k] == rest[k - 1];
    } else {
      SplitWordsPieces(s[1..]);
      var rest := SplitWords(s[1..]);
      var first := [s[0]] + rest[0];
      var r := [first] + rest[1..];
      assert forall k :: 1 <= k < |r| ==> r[k] == rest[k];
      assert NoDoubleSpace(first) by {
        forall i | 0 <= i < |first| - 1
          ensures !(first[i] == ' ' && first[i + 1] == ' ')
        {
          if i == 0 {
            assert first[1] == s[1];
          } else {
            assert first[i] == rest[0][i - 1] && first[i + 1] == rest[0][i];
          }
        }
      }
      assert |rest| > 1 ==> (EndsWithSpace(first) <==> EndsWithSpace(rest[0]));
    }
  }

  /** Leading whitespace does not change the fields. */
  lemma SplitFieldsSkip(w: string, x: string)
    requires AllSpaces(w)
    ensures SplitFields(w + x) == SplitFields(x)
  {
    var (w', r) := SpaceRun(x);
    AppendAssoc(w, w', r);
    AllSpacesAppend(w, w');
    SpaceRunOf(w + w', r);
  }

  lemma AllSpacesAppend(a: string, b: string)
    requires AllSpaces(a) && AllSpaces(b)
    ensures AllSpaces(a + b)
  {
    assert forall i :: |a| <= i < |a + b| ==> (a + b)[i] == b[i - |a|];
  }

  /** A whitespace-free field followed by whitespace or the end is the next field. */
  lemma SplitFieldsCons(f: string, rest: string)
    requires |f| > 0 && forall i :: 0 <= i < |f| ==> !IsSpace(f[i])
    requires rest == [] || IsSpace(rest[0])
    ensures SplitFields(f + rest) == [f] + SplitFields(rest)
  {
    assert (f + rest)[0] == f[0];
    SpaceRunOf([], f + rest);
    assert [] + (f + rest) == f + rest;
    NonSpaceRunOf(f, rest);
  }

  /** `SplitFields` inverts joining codes with single spaces, whatever
      whitespace trails. */
  lemma {:induction false} SplitFieldsJoin(codes: seq<string>, trail: string)
    requires forall k :: 0 <= k < |codes| ==> IsCode(codes[k])
    requires AllSpaces(trail)
    ensures SplitFields(Join(codes, " ") + trail) == codes
  {
    if |codes| == 0 {
      assert Join(codes, " ") + trail == trail + [];
      SplitFieldsSkip(trail, []);
    } else {
      var c := codes[0];
      assert forall i :: 0 <= i < |c| ==> !IsSpace(c[i]);
      if |codes| == 1 {
        SplitFieldsCons(c, trail);
        assert trail == trail + [];
        SplitFieldsSkip(trail, []);
      } else {
        var rest := Join(codes[1..], " ") + trail;
        assert Join(codes, " ") + trail == c + (" " + rest);
        SplitFieldsCons(c, " " + rest);
        SplitFieldsSkip(" ", rest);
        SplitFieldsJoin(codes[1..], trail);
      }
    }
  }

  /** Each word's codes decode back to the word. */
  lemma {:induction false} DecodeCodes(w: string)
    requires forall i :: 0 <= i < |w| ==> IsUpper(w[i])
    ensures DecodeGroup(Codes(w)) == Some(w)
  {
    if |w| > 0 {
      LetterOfSymbol(w[0]);
      DecodeCodes(w[1..]);
      assert Codes(w)[1..] == Codes(w[1..]);
      assert [w[0]] + w[1..] == w;
    }
  }

  lemma {:induction false} DecodeWords(groups: seq<seq<string>>, ws: seq<string>)
    requires |groups| == |ws|
    requires forall k :: 0 <= k < |ws| ==> IsWord(ws[k]) && groups[k] == Codes(ws[k])
    ensures DecodeGroups(groups) == Some(ws)
  {
    if |ws| > 0 {
      DecodeCodes(ws[0]);
      DecodeWords(groups[1..], ws[1..]);
      assert [ws[0]] + ws[1..] == ws;
    }
  }

  /** A message of spaces and upper-case letters, not all spaces, passes the
      check and is left unchanged by upper-casing. */
  lemma EncodableText(m: string, i: nat)
    requires Encodable(m) && i < |m| && m[i] != ' '
    ensures IsAsciiString(m) && CheckMessage(m)
    ensures EncodeText(m) == Success(EncodeChars(m))
  {
    assert IsAsciiString(m) by {
      forall j | 0 <= j < |m|
        ensures IsAscii(m[j])
      {
        assert m[j] == ' ' || IsUpper(m[j]);
      }
    }
    assert CheckMessage(m) by {
      assert forall j :: 0 <= j < |m| ==> m[j] == ' ' || IsLetter(m[j]);
    }
    UpperFixed(m);
  }

  /** Upper-casing leaves spaces and upper-case letters alone. */
  lemma UpperFixed(m: string)
    requires Encodable(m)
    ensures UpperString(m) == m
  {
    var u := UpperString(m);
    assert |u| == |m|;
    forall j | 0 <= j < |m|
      ensures u[j] == m[j]
    {
      assert m[j] == ' ' || IsUpper(m[j]);
    }
  }

  lemma JoinHead(ws: seq<string>)
    requires |ws| >= 1 && |ws[0]| > 0
    ensures |Join(ws, " ")| > 0 && Join(ws, " ")[0] == ws[0][0]
  {
    if |ws| > 1 {
      assert Join(ws, " ") == ws[0] + (" " + Join(ws[1..], " "));
    }
  }

  /** A message of upper-case words joined by single spaces passes the check
      and encodes as the words' bodies between double pauses. */
  lemma WordsEncode(ws: seq<string>)
    requires |ws| >= 1
    requires forall k :: 0 <= k < |ws| ==> IsWord(ws[k])
    ensures IsAsciiString(Join(ws, " "))
    ensures EncodeText(Join(ws, " ")) == Success(Join(Pieces(ws), "  "))
  {
    EncodeMessage(ws);
    JoinHead(ws);
    EncodableText(Join(ws, " "), 0);
  }

  /** Each piece splits into the codes of its word's letters. */
  lemma PiecesFields(ws: seq<string>, k: nat)
    requires forall k :: 0 <= k < |ws| ==> IsWord(ws[k])
    requires k < |ws|
    ensures SplitFields(Pieces(ws)[k]) == Codes(ws[k])
  {
    if k == |ws| - 1 {
      SplitFieldsJoin(Codes(ws[k]), " ");
    } else {
      SplitFieldsJoin(Codes(ws[k]), "");
      assert Body(ws[k]) + "" == Body(ws[k]);
    }
  }

  /** Upper-case words joined by single spaces pass the check; the encoding
      splits, as `play_morse_code` walks it, into one group per word holding
      the codes of its letters, and so reads back to the words. */
  lemma RoundTrip(ws: seq<string>)
    requires |ws| >= 1
    requires forall k :: 0 <= k < |ws| ==> IsWord(ws[k])
    ensures IsAsciiString(Join(ws, " ")) && EncodeText(Join(ws, " ")).Success?
    ensures |Groups(EncodeText(Join(ws, " ")).value)| == |ws|
    ensures forall k :: 0 <= k < |ws| ==>
      IsWord(ws[k]) && Groups(EncodeText(Join(ws, " ")).value)[k] == Codes(ws[k])
    ensures Decode(EncodeText(Join(ws, " ")).value) == Some(ws)
  {
    WordsEncode(ws);
    var code := Join(Pieces(ws), "  ");
    PiecesShape(ws);
    SplitJoinWords(Pieces(ws));
    forall k | 0 <= k < |ws|
      ensures Groups(code)[k] == Codes(ws[k])
    {
      PiecesFields(ws, k);
    }
    DecodeWords(Groups(code), ws);
  }
}
