/** The row pipeline of `eTODConverter`: drop the rows with a missing coordinate, rename
    the columns, then append a geometry cell to every row. The table is a sequence of
    rows, each a map from column name to cell. */
module Converter {
  import opened Wrappers
  import opened Chars
  import opened Coordinates
  import opened Seqs

  /** A cell: text read from the file, or a point with longitude first. */
  datatype Cell = Text(text: string) | Point(lon: real, lat: real)

  /** One row; `None` is a missing value (pandas `NaN`). */
  type Row = map<string, Option<Cell>>

  datatype Frame = Frame(columns: seq<string>, rows: seq<Row>)

  /** `column_map` in its key order, and the names of the two coordinate columns. */
  datatype Configuration = Configuration(columnMap: seq<(string, string)>, colLon: string, colLat: string)

  /** The name of the column the geometry stage appends. */
  const GeometryColumn := "coordinate_wkt"

  function Keys(m: seq<(string, string)>): (r: seq<string>)
    ensures |r| == |m| && forall i :: 0 <= i < |m| ==> r[i] == m[i].0
  {
    seq(|m|, i requires 0 <= i < |m| => m[i].0)
  }

  /** `eTODReader._get_columns_to_read`. */
  function ColumnsToRead(cfg: Configuration): (r: seq<string>)
    ensures |r| == |cfg.columnMap| + 2
    ensures forall i :: 0 <= i < |cfg.columnMap| ==> r[i] == cfg.columnMap[i].0
    ensures r[|r| - 2] == cfg.colLon && r[|r| - 1] == cfg.colLat
  {
    Keys(cfg.columnMap) + [cfg.colLon, cfg.colLat]
  }

  // ---------------------------------------------------------------------------
  // Renaming through `column_map`.
  // ---------------------------------------------------------------------------

  /** The value the first pair with key `c` maps to, if any. */
  function Lookup(m: seq<(string, string)>, c: string): (r: Option<string>)
    ensures r.Some? ==> exists i :: 0 <= i < |m| && m[i] == (c, r.value)
    ensures r.None? <==> forall i :: 0 <= i < |m| ==> m[i].0 != c
  {
    if |m| == 0 then None
    else if m[0].0 == c then Some(m[0].1)
    else
      var r := Lookup(m[1..], c);
      assert forall i :: 1 <= i < |m| ==> m[i] == m[1..][i - 1];
      r
  }

  /** The name column `c` has after `rename(columns=column_map)`. */
  function NewName(cfg: Configuration, c: string): (n: string)
    ensures c !in Keys(cfg.columnMap) ==> n == c
    ensures c in Keys(cfg.columnMap) ==> exists i :: 0 <= i < |cfg.columnMap| && cfg.columnMap[i] == (c, n)
  {
    match Lookup(cfg.columnMap, c)
    case Some(n) => n
    case None => c
  }

  /** Renaming does not merge two of the columns `cols` into one. */
  predicate RenameInjective(cfg: Configuration, cols: seq<string>) {
    forall a, b :: a in cols && b in cols && a != b ==> NewName(cfg, a) != NewName(cfg, b)
  }

  /** Renaming does not merge two cells of `row` into one. */
  predicate RenameInjectiveOn(cfg: Configuration, row: Row) {
    forall a, b :: a in row && b in row && a != b ==> NewName(cfg, a) != NewName(cfg, b)
  }

  function RenameRow(cfg: Configuration, row: Row): (r: Row)
    requires RenameInjectiveOn(cfg, row)
    ensures forall c :: c in row ==> NewName(cfg, c) in r && r[NewName(cfg, c)] == row[c]
    ensures forall d :: d in r ==> exists c :: c in row && NewName(cfg, c) == d
  {
    map c | c in row :: NewName(cfg, c) := row[c]
  }

  /** Distinct column names, and every row has a cell for exactly these columns. */
  predicate WellFormed(f: Frame) {
    && Distinct(f.columns)
    && (forall i, c :: 0 <= i < |f.rows| && c in f.rows[i] ==> c in f.columns)
    && (forall i, c :: 0 <= i < |f.rows| && c in f.columns ==> c in f.rows[i])
  }

  function Renamed(cfg: Configuration, cols: seq<string>): (r: seq<string>)
    ensures |r| == |cols| && forall i :: 0 <= i < |cols| ==> r[i] == NewName(cfg, cols[i])
  {
    seq(|cols|, i requires 0 <= i < |cols| => NewName(cfg, cols[i]))
  }

  /** `rename_columns`. */
  function RenameColumns(cfg: Configuration, f: Frame): (r: Frame)
    requires WellFormed(f) && RenameInjective(cfg, f.columns)
    ensures r.columns == Renamed(cfg, f.columns) && |r.rows| == |f.rows|
    ensures forall i :: 0 <= i < |f.rows| ==> RenameInjectiveOn(cfg, f.rows[i]) && r.rows[i] == RenameRow(cfg, f.rows[i])
    ensures WellFormed(r)
  {
    assert forall i :: 0 <= i < |f.rows| ==> RenameInjectiveOn(cfg, f.rows[i]);
    var rows := seq(|f.rows|, i requires 0 <= i < |f.rows| => RenameRow(cfg, f.rows[i]));
    RenamedWellFormed(cfg, f, rows);
    Frame(Renamed(cfg, f.columns), rows)
  }

  lemma RenamedWellFormed(cfg: Configuration, f: Frame, rows: seq<Row>)
    requires WellFormed(f) && RenameInjective(cfg, f.columns)
    requires |rows| == |f.rows|
    requires forall i :: 0 <= i < |rows| ==> RenameInjectiveOn(cfg, f.rows[i]) && rows[i] == RenameRow(cfg, f.rows[i])
    ensures WellFormed(Frame(Renamed(cfg, f.columns), rows))
  {
    var cols := Renamed(cfg, f.columns);
    forall i, j | 0 <= i < j < |cols|
      ensures cols[i] != cols[j]
    {
      assert f.columns[i] in f.columns && f.columns[j] in f.columns;
    }
    forall i | 0 <= i < |rows|
      ensures forall d :: d in rows[i] <==> d in cols
    {
      RenamedRowKeys(cfg, f.columns, f.rows[i]);
    }
  }

  /** A row with a cell for exactly the columns `cols` has, once renamed, a cell for
      exactly the renamed columns. */
  lemma RenamedRowKeys(cfg: Configuration, cols: seq<string>, row: Row)
    requires RenameInjectiveOn(cfg, row)
    requires forall c :: c in row <==> c in cols
    ensures forall d :: d in RenameRow(cfg, row) <==> d in Renamed(cfg, cols)
  {
    var r := RenameRow(cfg, row);
    var rc := Renamed(cfg, cols);
    forall d | d in r
      ensures d in rc
    {
      var c :| c in row && NewName(cfg, c) == d;
      var k :| 0 <= k < |cols| && cols[k] == c;
      assert rc[k] == d;
    }
    forall d | d in rc
      ensures d in r
    {
      var k :| 0 <= k < |rc| && rc[k] == d;
      assert cols[k] in row;
    }
  }

  // ---------------------------------------------------------------------------
  // Dropping rows with a missing coordinate.
  // ---------------------------------------------------------------------------

  predicate Present(row: Row, c: string) {
    c in row && row[c].Some?
  }

  predicate HasCoordinates(cfg: Configuration, row: Row) {
    Present(row, cfg.colLon) && Present(row, cfg.colLat)
  }

  /** The row mask of `dropna(subset=[col_lon, col_lat])`: rows to keep. */
  function Complete(cfg: Configuration): Row -> bool {
    row => HasCoordinates(cfg, row)
  }

  /** The row mask of `isnull()` on the longitude column: rows to report. */
  function LongitudeMissing(cfg: Configuration): Row -> bool {
    row => !Present(row, cfg.colLon)
  }

  /** The frame after the drop, and the rows listed in the log as skipped. */
  datatype Dropped = Dropped(frame: Frame, reported: seq<Row>)

  /** `drop_empty_coordinates`. */
  function DropEmptyCoordinates(cfg: Configuration, f: Frame): (r: Dropped)
    ensures r.frame.columns == f.columns
    ensures forall k :: 0 <= k < |r.frame.rows| ==> r.frame.rows[k] in f.rows && HasCoordinates(cfg, r.frame.rows[k])
    ensures forall i :: 0 <= i < |f.rows| && HasCoordinates(cfg, f.rows[i]) ==> f.rows[i] in r.frame.rows
    ensures forall k :: 0 <= k < |r.reported| ==> r.reported[k] in f.rows && !Present(r.reported[k], cfg.colLon)
    ensures forall i :: 0 <= i < |f.rows| && !Present(f.rows[i], cfg.colLon) ==> f.rows[i] in r.reported
    ensures WellFormed(f) ==> WellFormed(r.frame)
  {
    Dropped(Frame(f.columns, Filter(f.rows, Complete(cfg))), Filter(f.rows, LongitudeMissing(cfg)))
  }

  // ---------------------------------------------------------------------------
  // The geometry column.
  // ---------------------------------------------------------------------------

  /** The cell `c` holds ASCII text. */
  predicate TextAt(row: Row, c: string) {
    c in row && row[c].Some? && row[c].value.Text? && IsAsciiString(row[c].value.text)
  }

  /** `_get_wkt_point` up to `coordinates_to_point_wkt`: the longitude is converted first,
      so when both fail the longitude's error is the one logged. */
  function PointOf(cfg: Configuration, row: Row): (r: Result<(real, real), CoordinateValueError>)
    requires TextAt(row, cfg.colLon) && TextAt(row, cfg.colLat)
    ensures var lon := LongitudeToDD(row[cfg.colLon].value.text);
      var lat := LatitudeToDD(row[cfg.colLat].value.text);
      && (r.Success? <==> lon.Success? && lat.Success?)
      && (r.Success? ==> r.value == (lon.value, lat.value))
      && (lon.Failure? ==> r == Failure(lon.error))
      && (lon.Success? && lat.Failure? ==> r == Failure(lat.error))
  {
    var lon :- LongitudeToDD(row[cfg.colLon].value.text);
    var lat :- LatitudeToDD(row[cfg.colLat].value.text);
    Success((lon, lat))
  }

  /** The geometry cell of one row: the point, or missing when a coordinate fails. */
  function Geometry(cfg: Configuration, row: Row): (g: Option<Cell>)
    requires TextAt(row, cfg.colLon) && TextAt(row, cfg.colLat)
    ensures g.Some? <==> PointOf(cfg, row).Success?
    ensures g.Some? ==> g.value == Point(PointOf(cfg, row).value.0, PointOf(cfg, row).value.1)
  {
    match PointOf(cfg, row)
    case Success((lon, lat)) => Some(Point(lon, lat))
    case Failure(_) => None
  }

  /** What the geometry stage requires of every row: both coordinates as ASCII text. */
  predicate Parseable(cfg: Configuration, f: Frame) {
    forall i :: 0 <= i < |f.rows| ==> TextAt(f.rows[i], cfg.colLon) && TextAt(f.rows[i], cfg.colLat)
  }

  /** `create_geometry_column`: a `coordinate_wkt` column inserted after the last one. */
  function CreateGeometryColumn(cfg: Configuration, f: Frame): (r: Frame)
    requires Parseable(cfg, f)
    ensures r.columns == f.columns + [GeometryColumn]
    ensures |r.rows| == |f.rows|
    ensures forall i :: 0 <= i < |f.rows| ==> r.rows[i] == f.rows[i][GeometryColumn := Geometry(cfg, f.rows[i])]
  {
    Frame(f.columns + [GeometryColumn],
      seq(|f.rows|, i requires 0 <= i < |f.rows| => f.rows[i][GeometryColumn := Geometry(cfg, f.rows[i])]))
  }

  // ---------------------------------------------------------------------------
  // The whole conversion.
  // ---------------------------------------------------------------------------

  /** What the pipeline needs of its configuration and input: a well-formed frame
      holding both coordinate columns; coordinate columns that keep their names;
      a rename that gives no two columns the same name (pandas would keep both,
      which a row stored as a map cannot hold); no column that becomes
      `coordinate_wkt`; coordinate cells that are missing or ASCII text. */
  predicate Accepts(cfg: Configuration, f: Frame) {
    && WellFormed(f)
    && cfg.colLon in f.columns && cfg.colLat in f.columns
    && NewName(cfg, cfg.colLon) == cfg.colLon && NewName(cfg, cfg.colLat) == cfg.colLat
    && RenameInjective(cfg, f.columns)
    && GeometryColumn !in Renamed(cfg, f.columns)
    && forall i :: 0 <= i < |f.rows| ==>
         (Present(f.rows[i], cfg.colLon) ==> TextAt(f.rows[i], cfg.colLon))
         && (Present(f.rows[i], cfg.colLat) ==> TextAt(f.rows[i], cfg.colLat))
  }

  /** The converted table, and the rows reported as missing coordinates. */
  datatype Conversion = Conversion(frame: Frame, reported: seq<Row>)

  /** `to_geodataframe` up to the geometry column: drop, then rename, then geometry. */
  function ToGeoFrame(cfg: Configuration, f: Frame): (r: Conversion)
    requires Accepts(cfg, f)
  {
    var dropped := DropEmptyCoordinates(cfg, f);
    var renamed := RenameColumns(cfg, dropped.frame);
    ReachesParser(cfg, f);
    Conversion(CreateGeometryColumn(cfg, renamed), dropped.reported)
  }

  /** Every row that reaches the geometry stage holds both coordinates as text: a missing
      coordinate never reaches the parser. */
  lemma ReachesParser(cfg: Configuration, f: Frame)
    requires Accepts(cfg, f)
    ensures var dropped := DropEmptyCoordinates(cfg, f);
      WellFormed(dropped.frame) && RenameInjective(cfg, dropped.frame.columns)
      && Parseable(cfg, RenameColumns(cfg, dropped.frame))
  {
    var dropped := DropEmptyCoordinates(cfg, f);
    var renamed := RenameColumns(cfg, dropped.frame);
    forall k | 0 <= k < |renamed.rows|
      ensures TextAt(renamed.rows[k], cfg.colLon) && TextAt(renamed.rows[k], cfg.colLat)
    {
      var row := dropped.frame.rows[k];
      var i :| 0 <= i < |f.rows| && f.rows[i] == row;
      KeepsName(cfg, f, row, cfg.colLon);
      KeepsName(cfg, f, row, cfg.colLat);
    }
  }

  /** A coordinate column keeps its name and its cell through the rename. */
  lemma KeepsName(cfg: Configuration, f: Frame, row: Row, c: string)
    requires WellFormed(f) && row in f.rows
    requires c in f.columns && NewName(cfg, c) == c
    requires RenameInjective(cfg, f.columns)
    ensures RenameInjectiveOn(cfg, row)
    ensures c in RenameRow(cfg, row) && RenameRow(cfg, row)[c] == row[c]
  {
  }
}
