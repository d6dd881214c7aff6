# eTOD coordinates, the eTOD-to-GeoPackage row pipeline, the Morse encoder and the climate axis limits

A Dafny model of the computational core of the `python_misc` scripts:

- **Coordinate parser** (`eTOD_to_gpkg/coordinates_conversion.py`). It turns a
  longitude or latitude token into decimal degrees. The token is written in
  degrees, minutes and seconds, in one of two layouts:
  - delimited by whitespace, such as `E 110 30 0`;
  - compacted, such as `1103000E`.

  The hemisphere marker goes before or after the numbers. A token the four
  regular expressions do not match, or one whose fields are out of range,
  raises `CoordinateValueError`, which carries the token. The model states the
  four patterns as a grammar. `Spell` writes a set of fields out as a token,
  `WellShaped` says which fields each pattern admits, and `Recognize` is a
  left-to-right scanner. The proofs show that this scanner accepts exactly the
  spelled tokens and gives back their fields.
- **Row pipeline** of `eTOD_to_gpkg/eTOD_converter.py`, in the order
  `to_geodataframe` runs it:
  1. `drop_empty_coordinates` drops the rows without a longitude or latitude,
     and reports the rows whose longitude is missing.
  2. `rename_columns` applies `column_map`.
  3. `create_geometry_column` appends a `coordinate_wkt` column. Its cell holds
     the point of the row's two coordinates, or nothing when either of them
     does not convert.

  A frame is a list of column names and a list of rows. A row maps column names
  to optional cells, and a missing cell is pandas' `NaN`.
- **Morse encoder** (`scripts/morse_encoder.py`):
  - the letter table;
  - the message check;
  - `encode_text`, which emits each letter's code followed by one space, and
    one more space for each space of the message;
  - the way the player splits an encoded message. It splits into words on two
    spaces, then into letter codes on whitespace.

  The round trip is proved for words of letters separated by single spaces:
  splitting the encoding and looking the codes up in the table gives the words
  back.
- **Climate diagram axis limits** (`scripts/climate_diagram_generator.py`):
  - `round_down` and `round_up` to a multiple;
  - the temperature range and the largest monthly precipitation over all
    stations;
  - `get_yaxis_limits`. It widens the temperature range to include 0 and rounds
    it outwards to multiples of 5. It rounds the precipitation maximum up to a
    multiple of 100.

Values are exact reals, not floats.

Where the docstrings and the code differ, the model follows the code:
- `check_message` promises alphanumerics, but `isalpha` refuses digits.
- Every conversion failure is the single `CoordinateValueError(token)`. The
  code does not tell a malformed token from an out-of-range one.
- A row whose coordinates do not convert is **kept**, and its geometry cell is
  `None`. `apply` stores the `None` that `_get_wkt_point` returns.

Files:
- `wrappers.dfy`: `Option` and `Result`.
- `chars.dfy`: characters, digits and whitespace as Python's `re` and `str`
  methods treat them on ASCII text.
- `seqs.dfy`: filtering and counting.
- `coordinates.dfy`, `coordinate_proofs.dfy` and `coordinate_examples.dfy`:
  the parser.
- `converter.dfy` and `converter_proofs.dfy`: the row pipeline.
- `morse.dfy` and `morse_proofs.dfy`: the Morse encoder.
- `climate.dfy` and `climate_proofs.dfy`: the axis limits.

## Model

| member | source | states |
|---|---|---|
| Coordinates.SplitPrefix | eTOD_to_gpkg/coordinates_conversion.py:17 | The optional hemisphere prefix is a marker of the axis, and the prefix and the rest together make up the token. |
| Coordinates.SplitFraction | eTOD_to_gpkg/coordinates_conversion.py:23 | A fraction of the seconds is a dot followed by at least one digit. What is left after it does not start with a digit. |
| Coordinates.SplitSuffix | eTOD_to_gpkg/coordinates_conversion.py:25 | The end of the token is an optional marker of the axis and an optional final newline, which `$` lets through. A newline alone is accepted too. |
| Coordinates.SplitEnding | eTOD_to_gpkg/coordinates_conversion.py:23-25 | The fraction, the trailing whitespace (delimited layout only), the suffix and the newline together rebuild the tail of the token. |
| Coordinates.SplitGroups | eTOD_to_gpkg/coordinates_conversion.py:18-23 | The delimited groups are 1–3 (or 1–2) degree digits, 1–2 minute digits and 1–2 second digits, each separated by exactly one whitespace character. |
| Coordinates.RecognizeDelimited | eTOD_to_gpkg/coordinates_conversion.py:16-27 | A match of the delimited pattern yields fields of delimited layout that the pattern admits. |
| Coordinates.CompactedGroups | eTOD_to_gpkg/coordinates_conversion.py:31-33 | The compacted digits split into 3 (or 2) degree digits, 2 minute digits and 2 second digits. |
| Coordinates.RecognizeCompacted | eTOD_to_gpkg/coordinates_conversion.py:29-36 | A match of the compacted pattern yields fields of compacted layout that the pattern admits. |
| Coordinates.Recognize | eTOD_to_gpkg/coordinates_conversion.py:71 | Any fields found are well shaped for the axis. |
| Coordinates.Seconds | eTOD_to_gpkg/coordinates_conversion.py:78 | `float(sec)` is never negative. |
| Coordinates.InRange | eTOD_to_gpkg/coordinates_conversion.py:83-90 | The checks of lines 83-90 and 120-127: at most one marker, degrees at most 180 (or 90), minutes and seconds below 60, and nothing beyond the bound itself. Passing them keeps the unsigned value within the bound. |
| Coordinates.Marker | eTOD_to_gpkg/coordinates_conversion.py:75 | `hem_prefix or hem_suffix`: the prefix when there is one, else the suffix, and none only when both are absent. |
| Coordinates.Magnitude | eTOD_to_gpkg/coordinates_conversion.py:92 | `d + (m + s / 60) / 60` is at least the degrees, below the next degree when the minutes and seconds are below 60, and equal to the degrees exactly when both are zero. |
| Coordinates.Decide | eTOD_to_gpkg/coordinates_conversion.py:83-95 | A matched token converts if and only if it passes the range checks. A failure carries the token. A value lies within the axis bound and is negative only under W or S. |
| CoordinateProofs.SpellMarkers | eTOD_to_gpkg/coordinates_conversion.py:16-58 | In the grammar `Spell` that writes out the four patterns, the prefix marker is the first character. The suffix marker is the last character, or the one before the newline `$` admits. |
| CoordinateProofs.WidthsBound | eTOD_to_gpkg/coordinates_conversion.py:19-21 | The group widths that `WellShaped` admits keep the degrees below 1000 (100 for a latitude, line 41) and the minutes below 100. The range checks at lines 85-86 refuse the values in between. |
| Coordinates.Value | eTOD_to_gpkg/coordinates_conversion.py:92-95 | The value of an in-range token lies within ±180 or ±90. It is negative only when the marker is W or S. |
| Coordinates.ToDD | eTOD_to_gpkg/coordinates_conversion.py:61-95 | Every failure carries the offending token. Every value lies within the axis bounds. |
| Coordinates.LongitudeToDD | eTOD_to_gpkg/coordinates_conversion.py:61-95 | `longitude_to_dd` raises `CoordinateValueError(lon)` or returns a value in [-180, 180]. |
| Coordinates.LatitudeToDD | eTOD_to_gpkg/coordinates_conversion.py:98-132 | `latitude_to_dd` raises `CoordinateValueError(lat)` or returns a value in [-90, 90]. |
| CoordinateProofs.RecognizeDelimitedSpelled | eTOD_to_gpkg/coordinates_conversion.py:16-27 | Every token the delimited pattern describes is recognised, with exactly its fields. |
| CoordinateProofs.RecognizeCompactedSpelled | eTOD_to_gpkg/coordinates_conversion.py:29-36 | Every token the compacted pattern describes is recognised, with exactly its fields. |
| CoordinateProofs.RecognizeDelimitedSound | eTOD_to_gpkg/coordinates_conversion.py:16-27 | The delimited fields found spell the token back. |
| CoordinateProofs.RecognizeCompactedSound | eTOD_to_gpkg/coordinates_conversion.py:29-36 | The compacted fields found spell the token back. |
| CoordinateProofs.RecognizeSound | eTOD_to_gpkg/coordinates_conversion.py:71-73 | Whatever the match finds spells the token back. |
| CoordinateProofs.CompactedIsNotDelimited | eTOD_to_gpkg/coordinates_conversion.py:71 | A compacted token never matches the delimited pattern, so the `or` falls through to the compacted one. |
| CoordinateProofs.RecognizeSpelled | eTOD_to_gpkg/coordinates_conversion.py:71 | Every token either pattern describes is matched, with exactly its fields. |
| CoordinateProofs.SpellIsAscii | eTOD_to_gpkg/coordinates_conversion.py:16-58 | Every token the patterns describe is ASCII text. |
| CoordinateProofs.ToDDSpelled | eTOD_to_gpkg/coordinates_conversion.py:71-95 | A spelled token converts by its own fields. |
| CoordinateProofs.UnsupportedFormatRejected | eTOD_to_gpkg/coordinates_conversion.py:71-73 | A token that neither pattern describes raises `CoordinateValueError(token)`. |
| CoordinateProofs.ToDDAccepts | eTOD_to_gpkg/coordinates_conversion.py:71-90 | A token converts if and only if some in-range fields spell it. |
| CoordinateProofs.BothMarkersRejected | eTOD_to_gpkg/coordinates_conversion.py:84 | A token with both a prefix and a suffix marker is refused. |
| CoordinateProofs.OutOfRangeRejected | eTOD_to_gpkg/coordinates_conversion.py:85-87 | Degrees above 180 (or 90), minutes of 60 or more, or seconds of 60 or more are refused. |
| CoordinateProofs.BoundaryDegrees | eTOD_to_gpkg/coordinates_conversion.py:88 | At exactly 180 (or 90) degrees, the token converts if and only if its minutes and seconds are zero. It then converts to ±180 (or ±90). |
| CoordinateProofs.ValueFormula | eTOD_to_gpkg/coordinates_conversion.py:92-95 | An in-range token converts to `d + (m + s/60)/60`, negated for W or S. The sign follows the marker. |
| CoordinateProofs.LayoutsAgree | eTOD_to_gpkg/coordinates_conversion.py:71-95 | Two tokens with the same markers and the same degrees, minutes and seconds convert alike, whatever their layout or zero padding. |
| CoordinateProofs.DecideAgrees | eTOD_to_gpkg/coordinates_conversion.py:75-95 | The range checks and the value depend only on the markers and the numbers. |
| CoordinateExamples.ConvertsTo | eTOD_to_gpkg/coordinates_conversion.py:92-95 | Well-shaped, in-range fields convert to their value. |
| CoordinateExamples.Rejected | eTOD_to_gpkg/coordinates_conversion.py:83-90 | Well-shaped fields that fail a range check are refused, with the token. |
| CoordinateExamples.EastDelimitedSpellings | eTOD_to_gpkg/tests/test_coordinates_conversion.py:11 | The fields of the test tokens `E 110 30 0` and `110 30 00 E`. |
| CoordinateExamples.EastCompactedSpellings | eTOD_to_gpkg/tests/test_coordinates_conversion.py:27 | The fields of the test tokens `E1103000` and `1103000E`. |
| CoordinateExamples.EastDelimitedValue | eTOD_to_gpkg/tests/test_coordinates_conversion.py:11 | `E 110 30 0` converts to 110.5. |
| CoordinateExamples.EastSuffixedValue | eTOD_to_gpkg/tests/test_coordinates_conversion.py:23 | `110 30 00 E` converts to 110.5. |
| CoordinateExamples.EastCompactedValue | eTOD_to_gpkg/tests/test_coordinates_conversion.py:27 | `E1103000` converts to 110.5. |
| CoordinateExamples.EastCompactedSuffixedValue | eTOD_to_gpkg/tests/test_coordinates_conversion.py:31 | `1103000E` converts to 110.5. |
| CoordinateExamples.WestSpellings | eTOD_to_gpkg/tests/test_coordinates_conversion.py:12 | The fields of the test tokens `W 10 30 30` and `0103030W`. |
| CoordinateExamples.WestDelimitedValue | eTOD_to_gpkg/tests/test_coordinates_conversion.py:12 | `W 10 30 30` converts to -1261/120 = -10.5083…. |
| CoordinateExamples.WestCompactedValue | eTOD_to_gpkg/tests/test_coordinates_conversion.py:32 | `0103030W` converts to -1261/120. |
| CoordinateExamples.FractionSpelling | eTOD_to_gpkg/coordinates_conversion.py:45 | The fields of `N 45 0 36.0`, whose seconds have a fraction. |
| CoordinateExamples.NewlineSpelling | eTOD_to_gpkg/coordinates_conversion.py:25 | The fields of `110 30 00 E` followed by a newline. |
| CoordinateExamples.NorthFractionValue | eTOD_to_gpkg/coordinates_conversion.py:129 | `N 45 0 36.0` converts to 45.01. |
| CoordinateExamples.EastNewlineValue | eTOD_to_gpkg/coordinates_conversion.py:25 | A final newline after the suffix is accepted, and the token still converts to 110.5. |
| CoordinateExamples.AntimeridianSpellings | eTOD_to_gpkg/coordinates_conversion.py:88 | The fields of `W 180 0 0` and `E 180 0 1`. |
| CoordinateExamples.RejectedSpellings | eTOD_to_gpkg/tests/test_errors.py:7 | The fields of `E 0 0 0 W` and `N 91 0 0`. |
| CoordinateExamples.AntimeridianValue | eTOD_to_gpkg/coordinates_conversion.py:88 | `W 180 0 0` converts to -180. |
| CoordinateExamples.PastAntimeridianRejected | eTOD_to_gpkg/coordinates_conversion.py:88 | `E 180 0 1` is refused. |
| CoordinateExamples.MixedMarkersRejected | eTOD_to_gpkg/tests/test_errors.py:7-9 | `E 0 0 0 W` is refused with `CoordinateValueError("E 0 0 0 W")`. |
| CoordinateExamples.PastPoleRejected | eTOD_to_gpkg/coordinates_conversion.py:122 | `N 91 0 0` is refused. |
| CoordinateExamples.OriginSpellings | eTOD_to_gpkg/tests/test_coordinates_conversion.py:9 | The fields of `E 0 0 0` and `N 0 0 0`. |
| CoordinateExamples.SouthTenSpelling | eTOD_to_gpkg/tests/test_coordinates_conversion.py:37 | The fields of `S 10 0 0`. |
| CoordinateExamples.OriginValues | eTOD_to_gpkg/tests/test_coordinates_conversion.py:36 | `E 0 0 0` and `N 0 0 0` convert to 0. |
| CoordinateExamples.SouthTenValue | eTOD_to_gpkg/tests/test_coordinates_conversion.py:37 | `S 10 0 0` converts to -10. |
| Converter.ColumnsToRead | eTOD_to_gpkg/eTOD_converter.py:40-46 | The columns read are the keys of `column_map` in order, then the longitude column, then the latitude column. |
| Converter.Lookup | eTOD_to_gpkg/eTOD_converter.py:86-89 | A name found comes from an entry for that column. No name is found exactly when no entry has that key. |
| Converter.NewName | eTOD_to_gpkg/eTOD_converter.py:86-89 | A column without an entry keeps its name. A column with an entry gets that entry's new name. |
| Converter.RenameRow | eTOD_to_gpkg/eTOD_converter.py:86-89 | Every cell of the row moves under its new name unchanged, and every new name comes from an old one. |
| Converter.RenameColumns | eTOD_to_gpkg/eTOD_converter.py:86-89 | Renaming keeps the number of rows, renames every row and the header, and keeps the frame well formed. |
| Converter.DropEmptyCoordinates | eTOD_to_gpkg/eTOD_converter.py:71-84 | The frame keeps exactly the rows that have both coordinates. The report lists exactly the rows whose longitude is missing. The columns do not change. |
| Converter.PointOf | eTOD_to_gpkg/eTOD_converter.py:91-105 | The point exists if and only if both coordinates convert. The longitude converts first, so its error is the one reported when both fail. |
| Converter.Geometry | eTOD_to_gpkg/eTOD_converter.py:91-105 | The geometry cell holds the converted point, or nothing when the conversion fails. |
| Converter.CreateGeometryColumn | eTOD_to_gpkg/eTOD_converter.py:107-113 | `coordinate_wkt` is appended after the last column. Each row gains its own geometry cell and nothing else. |
| Converter.ReachesParser | eTOD_to_gpkg/eTOD_converter.py:120-125 | After the drop and the rename, every row still holds text in both coordinate columns, so the parser can be called on each. |
| Converter.KeepsName | eTOD_to_gpkg/eTOD_converter.py:86-89 | A column that keeps its name keeps its cell. |
| ConverterProofs.ReadColumnsSuffice | eTOD_to_gpkg/eTOD_converter.py:54-58 | Reading exactly `_get_columns_to_read` gives a frame holding both coordinate columns and every key of `column_map`. |
| ConverterProofs.DropSelects | eTOD_to_gpkg/eTOD_converter.py:75-76 | The kept rows are the complete rows in their original order, and the reported rows are the rows without a longitude, in order. The counts match. |
| ConverterProofs.LatitudeOnlyMissing | eTOD_to_gpkg/eTOD_converter.py:75-76 | A row that has a longitude but no latitude is dropped without being reported. |
| ConverterProofs.DropAppend | eTOD_to_gpkg/eTOD_converter.py:71-84 | The drop works row by row: dropping from a concatenation is concatenating the drops. |
| ConverterProofs.RenameMovesCells | eTOD_to_gpkg/eTOD_converter.py:86-89 | Renaming moves each cell to its new name, adds no cell, and leaves unmapped columns where they were. |
| ConverterProofs.NewNameIsFirstEntry | eTOD_to_gpkg/eTOD_converter.py:86-89 | The first entry for a column decides its new name. |
| ConverterProofs.NewNameOfMapping | eTOD_to_gpkg/eTOD_converter.py:86-89 | For a `column_map` with distinct keys, as a YAML mapping has, every entry gives its column's new name. |
| ConverterProofs.LookupFirst | eTOD_to_gpkg/eTOD_converter.py:86-89 | The lookup returns the first entry for a key. |
| ConverterProofs.GeometryCell | eTOD_to_gpkg/eTOD_converter.py:91-105 | The geometry cell is the point of the two converted coordinates, within [-180, 180] × [-90, 90], or nothing if and only if one of them fails. |
| ConverterProofs.GeometryKeepsRows | eTOD_to_gpkg/eTOD_converter.py:107-113 | The geometry stage keeps every column, row and cell, and adds one cell per row that is empty exactly when the conversion fails. |
| ConverterProofs.GeometryRowwise | eTOD_to_gpkg/eTOD_converter.py:107-113 | A row's geometry depends only on the row, not on its position or on the other rows. |
| ConverterProofs.Pipeline | eTOD_to_gpkg/eTOD_converter.py:120-125 | The result's columns are the renamed columns plus `coordinate_wkt`. Its k-th row is the k-th complete input row, converted. The report is the rows without a longitude, in order. |
| ConverterProofs.PipelineShape | eTOD_to_gpkg/eTOD_converter.py:120-125 | The result's header and row count, and the report. |
| ConverterProofs.PipelineRow | eTOD_to_gpkg/eTOD_converter.py:120-125 | The k-th output row is the converted k-th complete input row. |
| ConverterProofs.SameCoordinates | eTOD_to_gpkg/eTOD_converter.py:91-105 | Two rows with the same coordinate cells get the same geometry. |
| ConverterProofs.PipelineAccounts | eTOD_to_gpkg/eTOD_converter.py:120-125 | No row is invented, and every complete row appears converted in the result. |
| Morse.Symbol | scripts/morse_encoder.py:8-15 | Every letter's code is a non-empty string of dots and dashes. |
| Morse.SymbolsDistinct | scripts/morse_encoder.py:8-15 | The table has 26 codes and no two are equal. |
| Morse.LetterFrom | scripts/morse_encoder.py:8-15 | The reverse lookup, from the i-th letter on, finds a letter with that code, or shows no later letter has it. |
| Morse.Letter | scripts/morse_encoder.py:8-15 | A code found is the code of an upper-case letter. When none is found, no letter has that code. |
| Morse.RemoveSpaces | scripts/morse_encoder.py:38 | `replace(" ", "")` keeps every non-space character and nothing else. |
| Morse.CheckMessage | scripts/morse_encoder.py:30-38 | A message passes if and only if it holds a character other than a space and every character is a space or a letter. |
| Morse.EncodeChar | scripts/morse_encoder.py:55-58 | A space becomes the pause alone. A letter becomes its table code followed by the pause. |
| Morse.EncodeChars | scripts/morse_encoder.py:53-59 | The encoding is made of dots, dashes and spaces, and is at least as long as the text. |
| Morse.EncodeText | scripts/morse_encoder.py:41-59 | The message is refused if and only if the check fails. Otherwise the code is Morse text at least as long as the message. |
| Morse.SplitWords | scripts/morse_encoder.py:92 | `split("  ")` yields at least one piece. |
| Morse.SplitFields | scripts/morse_encoder.py:93 | `split()` yields non-empty pieces without whitespace. |
| Morse.DecodeGroup | scripts/morse_encoder.py:93-94 | A decoded word has one letter per code, and each letter's code is that code. |
| Morse.DecodeGroups | scripts/morse_encoder.py:92-94 | The words decode group by group. |
| MorseProofs.SymbolInjective | scripts/morse_encoder.py:8-15 | Two letters have the same code if and only if they are the same letter. |
| MorseProofs.LetterOfSymbol | scripts/morse_encoder.py:8-15 | Looking a letter's code up gives that letter back. |
| MorseProofs.EncodableAppend | scripts/morse_encoder.py:54 | Texts of spaces and capitals concatenate to such a text. |
| MorseProofs.EncodeAppend | scripts/morse_encoder.py:53-58 | The encoder works character by character: encoding a concatenation concatenates the encodings. |
| MorseProofs.EncodeSingle | scripts/morse_encoder.py:55-58 | A space encodes to one space. A letter encodes to its code and one space. |
| MorseProofs.UpperIdempotent | scripts/morse_encoder.py:54 | Upper-casing twice is upper-casing once. |
| MorseProofs.CaseInsensitive | scripts/morse_encoder.py:49-54 | A message and its upper-cased form encode alike, including the refusal. |
| MorseProofs.EncodeWord | scripts/morse_encoder.py:53-58 | A word encodes to its letter codes joined by single spaces, plus a final space. |
| MorseProofs.EncodeMessage | scripts/morse_encoder.py:56 | Words joined by single spaces encode to the word codes joined by two spaces, as the comment at line 56 says. |
| MorseProofs.EncodeWordThenSpace | scripts/morse_encoder.py:53-58 | A word and a space encode to the word's codes followed by two spaces. |
| MorseProofs.PiecesStep | scripts/morse_encoder.py:92 | The joined word codes unfold one word at a time. |
| MorseProofs.JoinedCodesShape | scripts/morse_encoder.py:93 | Codes joined by single spaces hold no double space and do not end in a space. |
| MorseProofs.PiecesShape | scripts/morse_encoder.py:92 | No word's codes hold a double space, and none but the last ends in a space. |
| MorseProofs.BodyShape | scripts/morse_encoder.py:92-93 | A word's codes hold no double space and do not end in a space. |
| MorseProofs.SplitWordsSingle | scripts/morse_encoder.py:92 | A piece without a double space splits into itself. |
| MorseProofs.SplitWordsCons | scripts/morse_encoder.py:92 | Splitting a piece followed by two spaces yields that piece first. |
| MorseProofs.SplitJoinWords | scripts/morse_encoder.py:92 | `split("  ")` undoes `"  ".join` for pieces without double spaces, all but the last without a trailing space. |
| MorseProofs.SplitWordsJoin | scripts/morse_encoder.py:92 | Joining the pieces of `split("  ")` with two spaces gives the text back. |
| MorseProofs.SplitWordsPieces | scripts/morse_encoder.py:92 | The pieces of `split("  ")` hold no double space, and none but the last ends in a space. |
| MorseProofs.SplitFieldsSkip | scripts/morse_encoder.py:93 | Leading whitespace does not change `split()`. |
| MorseProofs.AllSpacesAppend | scripts/morse_encoder.py:93 | Whitespace runs concatenate to a whitespace run. |
| MorseProofs.SplitFieldsCons | scripts/morse_encoder.py:93 | A field followed by whitespace is the first piece of `split()`. |
| MorseProofs.SplitFieldsJoin | scripts/morse_encoder.py:93 | `split()` undoes `" ".join` of letter codes, whatever whitespace trails. |
| MorseProofs.DecodeCodes | scripts/morse_encoder.py:8-15 | A word's codes decode back to the word. |
| MorseProofs.DecodeWords | scripts/morse_encoder.py:92-94 | Groups of codes decode back to their words. |
| MorseProofs.EncodableText | scripts/morse_encoder.py:49-54 | A message of capitals and single separating spaces passes the check and is encoded unchanged by upper-casing. |
| MorseProofs.UpperFixed | scripts/morse_encoder.py:54 | Upper-casing leaves a text of capitals and spaces unchanged. |
| MorseProofs.JoinHead | scripts/morse_encoder.py:49-51 | A message of words starts with a letter, so it is not blank. |
| MorseProofs.WordsEncode | scripts/morse_encoder.py:41-59 | Words joined by single spaces pass the check and encode to their codes joined by two spaces. |
| MorseProofs.PiecesFields | scripts/morse_encoder.py:93 | `split()` of a word's piece gives its letter codes. |
| MorseProofs.RoundTrip | scripts/morse_encoder.py:41-59 | For words of letters joined by single spaces, the encoding splits into one group per word, holding that word's codes, and decodes back to the words. |
| Climate.RoundDown | scripts/climate_diagram_generator.py:26-35 | The result is a multiple of the step, at or below x and less than one step below it. |
| Climate.Ceil | scripts/climate_diagram_generator.py:47 | `math.ceil` is the least integer at or above y. |
| Climate.RoundUp | scripts/climate_diagram_generator.py:38-47 | The result is a multiple of the step, at or above x and less than one step above it. |
| Climate.Readings | scripts/climate_diagram_generator.py:57 | The selected values are every monthly value of the records whose `Element` label equals the given text, and nothing else. |
| Climate.Min | scripts/climate_diagram_generator.py:58 | The minimum is at or below every value and is one of them. |
| Climate.Max | scripts/climate_diagram_generator.py:58 | The maximum is at or above every value and is one of them. |
| Climate.TempRange | scripts/climate_diagram_generator.py:50-59 | The range fails if and only if there is no temperature. Otherwise its ends bound every temperature and are observed temperatures. |
| Climate.MaxPrecip | scripts/climate_diagram_generator.py:62-70 | The maximum fails if and only if there is no precipitation. Otherwise it bounds every precipitation and is observed. |
| Climate.YAxisLimits | scripts/climate_diagram_generator.py:73-106 | The limits fail if and only if a reading set is empty, the temperatures first. Otherwise `tmin <= 0 <= tmax`, with multiples of 5, 5 and 100, and every reading lies within the axes. |
| ClimateProofs.MultiplesApart | scripts/climate_diagram_generator.py:26-47 | Two multiples of the step less than a step apart are ordered, or equal. |
| ClimateProofs.RoundDownGreatest | scripts/climate_diagram_generator.py:26-35 | `round_down` is the greatest multiple at or below x. |
| ClimateProofs.RoundUpLeast | scripts/climate_diagram_generator.py:38-47 | `round_up` is the least multiple at or above x. |
| ClimateProofs.RoundExact | scripts/climate_diagram_generator.py:26-47 | Both roundings leave a multiple unchanged. |
| ClimateProofs.NegatedMultiple | scripts/climate_diagram_generator.py:26-47 | The negation of a multiple is a multiple. |
| ClimateProofs.RoundUpMirror | scripts/climate_diagram_generator.py:26-47 | `round_up(x, v) == -round_down(-x, v)`. |
| ClimateProofs.TminTightest | scripts/climate_diagram_generator.py:93-96 | `tmin` is the greatest multiple of 5 at or below both 0 and every temperature. |
| ClimateProofs.TmaxTightest | scripts/climate_diagram_generator.py:98-101 | `tmax` is the least multiple of 5 at or above both 0 and every temperature. |
| ClimateProofs.PmaxTightest | scripts/climate_diagram_generator.py:103-104 | `pmax` is the least multiple of 100 at or above every precipitation. |
| ClimateProofs.ZeroWhenOneSigned | scripts/climate_diagram_generator.py:93-101 | With every temperature above 0, `tmin` is 0. With every temperature below 0, `tmax` is 0. |

## Left out

- Reading the CSV file (`pandas.read_csv`), writing the GeoPackage, and the column order of a real frame are I/O. A frame is given as columns and rows, and `ReadColumnsSuffice` states only what `usecols` guarantees.
- The configuration file and logging are I/O and are not modelled, including the text of the log messages. The rows that would be logged as skipped are returned as `reported`.
- `create_geodataframe` is left out. The `shapely` WKT string, `GeoDataFrame` and the CRS come from foreign libraries, so the geometry cell is the pair of decimal degrees that `Point(lon, lat).wkt` writes.
- Floating point is left out. Coordinates, seconds, temperatures and precipitation are exact reals, so `-10.508333333333333` appears as -1261/120, and rounding of `float` arithmetic is not modelled.
- Unicode is left out. Tokens and messages are required to be ASCII: Python's `\d`, `\s`, `isalpha` and `upper` accept more on non-ASCII text.
- Coordinates.LongitudeToDD, Coordinates.LatitudeToDD: the ASCII requirement above is stronger than the source, which accepts any `str`.
- Morse.CheckMessage, Morse.EncodeText: the same ASCII requirement.
- `play_morse_symbol`, `beep_dot`, `beep_dash`, the sleeps, `save_encoding`, `parse_args` and `main` of the Morse script are sound, clock and file I/O. Only the way `play_morse_code` splits the code is modelled.
- `sys.exit` in `encode_text` becomes the `DisallowedCharacters` failure.
- Plotting in the climate script (`create_diagram` and the figure calls) and the whole of `sunrise_sunset_plot.py` are drawing and I/O. The CSV's station layout is reduced to `Record`.
- `NaN` readings in the climate data are left out: numpy's `min` and `max` propagate `NaN`, and reals have none.
- Climate.TempRange, Climate.MaxPrecip: numpy raises on an empty array, and the model returns a `LimitsError` instead of modelling the exception.
- Climate.RoundDown, Climate.RoundUp: the step must be positive. The script only calls them with 5 and 100, and a zero step divides by zero.
- ConverterProofs.Pipeline: `Accepts` turns into preconditions the inputs that the modelled stages do not handle:
  - a coordinate column renamed away (a `KeyError` in `_get_wkt_point`);
  - a rename that gives two columns the same name. pandas keeps both columns without raising, and the failure comes only when the file is written, outside the modelled stages. A row stored as a map from names to cells cannot hold the duplicate;
  - an existing `coordinate_wkt` column (a `ValueError` from `insert`);
  - a coordinate cell that is not ASCII text.
- Converter.ToGeoFrame: the composition itself carries no contract of its own. Its properties are stated by ConverterProofs.Pipeline, PipelineShape, PipelineRow and PipelineAccounts.
- The behaviour of pandas' `apply` on a frame with no rows is left out. The model gives an empty frame with the new header.
- Coordinates.Spell, Coordinates.WellShaped: these are the grammar of the four patterns at eTOD_to_gpkg/coordinates_conversion.py:16-58. As definitions they carry no contract. Their meaning is stated against the scanner by CoordinateProofs.RecognizeSpelled, RecognizeSound and ToDDAccepts, and by SpellMarkers and WidthsBound.
- Converter.Configuration: `column_map` is a list of pairs, so it can hold a key twice, which a YAML mapping cannot. Lookup then takes the first entry. ConverterProofs.NewNameOfMapping states the rename for distinct keys, the only case the program meets.
- Morse.Groups: `play_morse_code`'s loop structure, listed without a row because its contract only names what it computes.
- MorseProofs.RoundTrip: stated only for messages of words separated by single spaces. Messages with leading, trailing or repeated spaces are not covered.
