/** The Morse encoder script: the letter table, the message check, the
    per-character encoder, and the word and symbol structure its player walks
    through an encoded message. */
module Morse {
  import opened Wrappers
  import opened Chars
  import opened Seqs

  /** Written after each letter code, and once for each space of the message. */
  const Pause: string := " "

  /** `MORSE_SYMBOLS`: the code of the `i`-th letter of the alphabet, `A` first. */
  const Symbols: seq<string> := [
    "._", "_...", "_._.", "_..", ".",
    ".._.", "__.", "....", "..", ".___",
    "_._", "._..", "__", "_.", "___",
    ".__.", "__._", "._.", "...", "_",
    ".._", "..._", ".__", "_.._", "_.__",
    "___.."]

  /** A dot or a dash. */
  predicate IsSignal(c: char) {
    c == '.' || c == '_'
  }

  /** A letter code: one or more dots and dashes. */
  predicate IsCode(s: string) {
    |s| > 0 && forall i :: 0 <= i < |s| ==> IsSignal(s[i])
  }

  /** Text made only of dots, dashes and spaces. */
  predicate IsMorseText(s: string) {
    forall i :: 0 <= i < |s| ==> IsSignal(s[i]) || s[i] == ' '
  }

  /** `MORSE_SYMBOLS[c]`: the table is defined on the upper-case letters. */
  function Symbol(c: char): (code: string)
    requires IsUpper(c)
    ensures IsCode(code)
  {
    Symbols[c as int - 'A' as int]
  }

  /** No two letters share a code. */
  lemma SymbolsDistinct()
    ensures |Symbols| == 26
    ensures forall i, j :: 0 <= i < j < |Symbols| ==> Symbols[i] != Symbols[j]
  {
  }

  /** The first letter, from the `i`-th on, whose code is `code`. */
  function LetterFrom(code: string, i: nat): (r: Option<char>)
    requires i <= |Symbols|
    ensures r.Some? ==> IsUpper(r.value) && Symbol(r.value) == code
    ensures r.None? ==> forall j :: i <= j < |Symbols| ==> Symbols[j] != code
    decreases |Symbols| - i
  {
    if i == |Symbols| then None
    else if Symbols[i] == code then Some(('A' as int + i) as char)
    else LetterFrom(code, i + 1)
  }

  /** The letter whose code is `code`, if there is one. */
  function Letter(code: string): (r: Option<char>)
    ensures r.Some? ==> IsUpper(r.value) && Symbol(r.value) == code
    ensures r.None? ==> forall c :: IsUpper(c) ==> Symbol(c) != code
  {
    LetterFrom(code, 0)
  }

  /** `str.isalpha` on an ASCII string: non-empty, and letters only. */
  predicate IsAlpha(s: string) {
    |s| > 0 && forall i :: 0 <= i < |s| ==> IsLetter(s[i])
  }

  /** `str.replace(" ", "")`: only the space character is removed, not tabs. */
  function RemoveSpaces(m: string): (r: string)
    ensures forall k :: 0 <= k < |r| ==> r[k] in m && r[k] != ' '
    ensures forall i :: 0 <= i < |m| && m[i] != ' ' ==> m[i] in r
  {
    Filter(m, c => c != ' ')
  }

  /** `check_message`: the message holds at least one character other than a
      space, and every character is a space or a letter. Digits, punctuation,
      tabs and the empty message are refused, whatever the script's docstring
      says about alphanumerics. */
  function CheckMessage(m: string): (ok: bool)
    requires IsAsciiString(m)
    ensures ok ==> exists i :: 0 <= i < |m| && m[i] != ' '
    ensures ok ==> forall i :: 0 <= i < |m| ==> m[i] == ' ' || IsLetter(m[i])
    ensures ((exists i :: 0 <= i < |m| && m[i] != ' ') &&
             (forall i :: 0 <= i < |m| ==> m[i] == ' ' || IsLetter(m[i]))) ==> ok
  {
    var r := RemoveSpaces(m);
    assert IsAlpha(r) ==> r[0] in m;
    IsAlpha(r)
  }

  /** A text the encoder's loop accepts: spaces and upper-case letters. */
  predicate Encodable(s: string) {
    forall i :: 0 <= i < |s| ==> s[i] == ' ' || IsUpper(s[i])
  }

  /** One step of `encode_text`'s loop. */
  function EncodeChar(c: char): (code: string)
    requires c == ' ' || IsUpper(c)
    ensures c == ' ' ==> code == Pause
    ensures c != ' ' ==> |code| > 1 && code[..|code| - 1] == Symbol(c) && code[|code| - 1] == ' '
  {
    if c == ' ' then Pause else Symbol(c) + Pause
  }

  /** The loop of `encode_text`: the codes of the characters, in order. */
  function EncodeChars(s: string): (r: string)
    requires Encodable(s)
    ensures IsMorseText(r)
    ensures |r| >= |s|
  {
    if |s| == 0 then []
    else EncodeChar(s[0]) + EncodeChars(s[1..])
  }

  /** `encode_text` exits on a message that fails the check. */
  datatype MessageError = DisallowedCharacters

  /** `encode_text`: the check, then the loop over the upper-cased message. */
  function EncodeText(m: string): (r: Result<string, MessageError>)
    requires IsAsciiString(m)
    ensures r.Failure? <==> !CheckMessage(m)
    ensures r.Success? ==> IsMorseText(r.value) && |r.value| >= |m|
  {
    if !CheckMessage(m) then Failure(DisallowedCharacters)
    else
      var u := UpperString(m);
      assert Encodable(u) by {
        forall i | 0 <= i < |u|
          ensures u[i] == ' ' || IsUpper(u[i])
        {
          assert m[i] == ' ' || IsLetter(m[i]);
        }
      }
      Success(EncodeChars(u))
  }

  /** `sep.join(parts)`. */
  function Join(parts: seq<string>, sep: string): string {
    if |parts| == 0 then []
    else if |parts| == 1 then parts[0]
    else parts[0] + sep + Join(parts[1..], sep)
  }

  /** `s` contains no two adjacent spaces. */
  predicate NoDoubleSpace(s: string) {
    forall i :: 0 <= i < |s| - 1 ==> !(s[i] == ' ' && s[i + 1] == ' ')
  }

  predicate EndsWithSpace(s: string) {
    |s| > 0 && s[|s| - 1] == ' '
  }

  /** `code.split("  ")` in `play_morse_code`: the pieces between the
      non-overlapping occurrences of two spaces, found from the left. */
  function SplitWords(s: string): (r: seq<string>)
    ensures |r| >= 1
  {
    if |s| < 2 then [s]
    else if s[0] == ' ' && s[1] == ' ' then [[]] + SplitWords(s[2..])
    else
      var rest := SplitWords(s[1..]);
      [[s[0]] + rest[0]] + rest[1..]
  }

  /** `str.split()` with no argument: the maximal whitespace-free runs, with
      leading, trailing and repeated whitespace dropped. */
  function SplitFields(s: string): (r: seq<string>)
    ensures forall k :: 0 <= k < |r| ==> |r[k]| > 0
    ensures forall k, i :: 0 <= k < |r| && 0 <= i < |r[k]| ==> !IsSpace(r[k][i])
    decreases |s|
  {
    var (_, rest) := SpaceRun(s);
    if rest == [] then []
    else
      var (field, tail) := NonSpaceRun(rest);
      var r := [field] + SplitFields(tail);
      assert forall k :: 1 <= k < |r| ==> r[k] == SplitFields(tail)[k - 1];
      r
  }

  /** What `play_morse_code` walks: for each word piece, its letter codes. */
  function Groups(code: string): (r: seq<seq<string>>)
    ensures |r| == |SplitWords(code)|
    ensures forall k :: 0 <= k < |r| ==> r[k] == SplitFields(SplitWords(code)[k])
  {
    var words := SplitWords(code);
    seq(|words|, k requires 0 <= k < |words| => SplitFields(words[k]))
  }

  /** The letters of one group of codes, if every code is in the table. */
  function DecodeGroup(codes: seq<string>): (r: Option<string>)
    ensures r.Some? ==> |r.value| == |codes|
    ensures r.Some? ==> forall i :: 0 <= i < |codes| ==>
      IsUpper(r.value[i]) && Symbol(r.value[i]) == codes[i]
  {
    if |codes| == 0 then Some([])
    else
      match (Letter(codes[0]), DecodeGroup(codes[1..]))
      case (Some(c), Some(rest)) =>
        var w := [c] + rest;
        assert forall i :: 1 <= i < |codes| ==> codes[i] == codes[1..][i - 1] && w[i] == rest[i - 1];
        Some(w)
      case _ => None
  }

  /** The words of an encoded message, read back group by group. */
  function DecodeGroups(groups: seq<seq<string>>): (r: Option<seq<string>>)
    ensures r.Some? ==> |r.value| == |groups|
    ensures r.Some? ==> forall k :: 0 <= k < |groups| ==> DecodeGroup(groups[k]) == Some(r.value[k])
  {
    if |groups| == 0 then Some([])
    else
      match (DecodeGroup(groups[0]), DecodeGroups(groups[1..]))
      case (Some(w), Some(rest)) =>
        var ws := [w] + rest;
        assert forall k :: 1 <= k < |groups| ==> groups[k] == groups[1..][k - 1] && ws[k] == rest[k - 1];
        Some(ws)
      case _ => None
  }

  function Decode(code: string): Option<seq<string>> {
    DecodeGroups(Groups(code))
  }
}
