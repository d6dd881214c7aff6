/** Properties of the row pipeline: which rows survive and in what order, what the
    rename and the geometry stage do to each row, and the whole conversion row by row. */
module ConverterProofs {
  import opened Wrappers
  import opened Chars
  import opened Coordinates
  import opened Seqs
  import opened Converter

  /** Reading the columns `ColumnsToRead` lists gives a frame holding every column the
      later stages look up: both coordinate columns and every key of the mapping. */
  lemma ReadColumnsSuffice(cfg: Configuration, f: Frame)
    requires forall c :: c in f.columns <==> c in ColumnsToRead(cfg)
    ensures cfg.colLon in f.columns && cfg.colLat in f.columns
    ensures forall i :: 0 <= i < |cfg.columnMap| ==> cfg.columnMap[i].0 in f.columns
  {
    var r := ColumnsToRead(cfg);
    assert r[|r| - 2] in r && r[|r| - 1] in r;
    forall i | 0 <= i < |cfg.columnMap|
      ensures cfg.columnMap[i].0 in f.columns
    {
      assert r[i] in r;
    }
  }

  // ---------------------------------------------------------------------------
  // The drop stage.
  // ---------------------------------------------------------------------------

  /** The rows kept are exactly those with both coordinates, in their original order;
      the rows reported are exactly those without a longitude, in their original order. */
  lemma DropSelects(cfg: Configuration, f: Frame)
    ensures var d := DropEmptyCoordinates(cfg, f); var keep := Positions(f.rows, Complete(cfg));
      && |d.frame.rows| == |keep| == Count(f.rows, Complete(cfg))
      && forall k :: 0 <= k < |keep| ==> d.frame.rows[k] == f.rows[keep[k]]
    ensures var d := DropEmptyCoordinates(cfg, f); var miss := Positions(f.rows, LongitudeMissing(cfg));
      && |d.reported| == |miss| == Count(f.rows, LongitudeMissing(cfg))
      && forall k :: 0 <= k < |miss| ==> d.reported[k] == f.rows[miss[k]]
  {
    FilterAtPositions(f.rows, Complete(cfg));
    FilterAtPositions(f.rows, LongitudeMissing(cfg));
  }

  /** A row missing only its latitude is dropped, but not reported. */
  lemma LatitudeOnlyMissing(cfg: Configuration, f: Frame, row: Row)
    requires Present(row, cfg.colLon) && !Present(row, cfg.colLat)
    ensures row !in DropEmptyCoordinates(cfg, f).frame.rows
    ensures row !in DropEmptyCoordinates(cfg, f).reported
  {
  }

  /** Dropping is the same row by row: the rows of a concatenation are dropped and
      reported as the rows of each part. */
  lemma DropAppend(cfg: Configuration, a: seq<Row>, b: seq<Row>, cols: seq<string>)
    ensures DropEmptyCoordinates(cfg, Frame(cols, a + b)).frame.rows
      == DropEmptyCoordinates(cfg, Frame(cols, a)).frame.rows + DropEmptyCoordinates(cfg, Frame(cols, b)).frame.rows
    ensures DropEmptyCoordinates(cfg, Frame(cols, a + b)).reported
      == DropEmptyCoordinates(cfg, Frame(cols, a)).reported + DropEmptyCoordinates(cfg, Frame(cols, b)).reported
  {
    FilterAppend(a, b, Complete(cfg));
    FilterAppend(a, b, LongitudeMissing(cfg));
  }

  // ---------------------------------------------------------------------------
  // The rename stage.
  // ---------------------------------------------------------------------------

  /** Renaming moves each cell to the column's new name and changes no value; a column
      that is not a key of the mapping keeps its name; rows keep their count and order. */
  lemma RenameMovesCells(cfg: Configuration, f: Frame)
    requires WellFormed(f) && RenameInjective(cfg, f.columns)
    ensures var r := RenameColumns(cfg, f);
      && |r.rows| == |f.rows| && |r.columns| == |f.columns|
      && (forall i, c :: 0 <= i < |f.rows| && c in f.rows[i] ==>
            NewName(cfg, c) in r.rows[i] && r.rows[i][NewName(cfg, c)] == f.rows[i][c])
      && (forall i, d :: 0 <= i < |f.rows| && d in r.rows[i] ==>
            exists c :: c in f.rows[i] && NewName(cfg, c) == d)
      && (forall i :: 0 <= i < |f.columns| && f.columns[i] !in Keys(cfg.columnMap) ==>
            r.columns[i] == f.columns[i])
  {
  }

  /** The mapping applied to a column with no entry is the identity; with an entry, it
      gives the value of the first entry for that key. */
  lemma NewNameIsFirstEntry(cfg: Configuration, i: nat)
    requires i < |cfg.columnMap|
    requires forall j :: 0 <= j < i ==> cfg.columnMap[j].0 != cfg.columnMap[i].0
    ensures NewName(cfg, cfg.columnMap[i].0) == cfg.columnMap[i].1
  {
    LookupFirst(cfg.columnMap, i);
  }

  /** A `column_map` read from a YAML mapping has distinct keys; then every entry
      gives its column's new name. */
  lemma NewNameOfMapping(cfg: Configuration)
    requires Distinct(Keys(cfg.columnMap))
    ensures forall i :: 0 <= i < |cfg.columnMap| ==> NewName(cfg, cfg.columnMap[i].0) == cfg.columnMap[i].1
  {
    var keys := Keys(cfg.columnMap);
    forall i | 0 <= i < |cfg.columnMap|
      ensures NewName(cfg, cfg.columnMap[i].0) == cfg.columnMap[i].1
    {
      forall j | 0 <= j < i
        ensures cfg.columnMap[j].0 != cfg.columnMap[i].0
      {
        assert keys[j] != keys[i];
      }
      NewNameIsFirstEntry(cfg, i);
    }
  }

  lemma {:induction false} LookupFirst(m: seq<(string, string)>, i: nat)
    requires i < |m|
    requires forall j :: 0 <= j < i ==> m[j].0 != m[i].0
    ensures Lookup(m, m[i].0) == Some(m[i].1)
  {
    if i > 0 {
      assert m[1..][i - 1] == m[i];
      LookupFirst(m[1..], i - 1);
    }
  }

  // ---------------------------------------------------------------------------
  // The geometry stage.
  // ---------------------------------------------------------------------------

  /** The geometry cell holds the point (longitude, latitude) exactly when both
      coordinates convert, and is missing otherwise. */
  lemma GeometryCell(cfg: Configuration, row: Row)
    requires TextAt(row, cfg.colLon) && TextAt(row, cfg.colLat)
    ensures var lon := LongitudeToDD(row[cfg.colLon].value.text);
      var lat := LatitudeToDD(row[cfg.colLat].value.text);
      && (Geometry(cfg, row).Some? <==> lon.Success? && lat.Success?)
      && (Geometry(cfg, row).Some? ==> Geometry(cfg, row).value == Point(lon.value, lat.value))
      && (Geometry(cfg, row).Some? ==> -180.0 <= Geometry(cfg, row).value.lon <= 180.0)
      && (Geometry(cfg, row).Some? ==> -90.0 <= Geometry(cfg, row).value.lat <= 90.0)
  {
  }

  /** The geometry stage appends one column after the last one and keeps every row, in
      order, with its other cells unchanged; a row whose coordinates fail is kept with a
      missing geometry. */
  lemma GeometryKeepsRows(cfg: Configuration, f: Frame)
    requires Parseable(cfg, f)
    ensures var r := CreateGeometryColumn(cfg, f);
      && |r.columns| == |f.columns| + 1 && r.columns[|f.columns|] == GeometryColumn
      && r.columns[..|f.columns|] == f.columns
      && |r.rows| == |f.rows|
      && (forall i, c :: 0 <= i < |f.rows| && c in f.rows[i] && c != GeometryColumn ==>
            c in r.rows[i] && r.rows[i][c] == f.rows[i][c])
      && (forall i :: 0 <= i < |f.rows| ==>
            (GeometryColumn in r.rows[i] && (r.rows[i][GeometryColumn].None? <==> PointOf(cfg, f.rows[i]).Failure?)))
  {
    var r := CreateGeometryColumn(cfg, f);
    assert r.columns[..|f.columns|] == f.columns;
  }

  /** The geometry stage treats rows independently: the geometry of a row depends on no
      other row. */
  lemma GeometryRowwise(cfg: Configuration, f: Frame, g: Frame, i: nat, j: nat)
    requires Parseable(cfg, f) && Parseable(cfg, g)
    requires i < |f.rows| && j < |g.rows| && f.rows[i] == g.rows[j]
    ensures CreateGeometryColumn(cfg, f).rows[i] == CreateGeometryColumn(cfg, g).rows[j]
  {
  }

  // ---------------------------------------------------------------------------
  // The whole conversion.
  // ---------------------------------------------------------------------------

  /** What the conversion makes of one kept row: its cells under their new names, plus
      the geometry of its coordinates. */
  function Converted(cfg: Configuration, f: Frame, row: Row): (r: Row)
    requires Accepts(cfg, f) && row in f.rows && HasCoordinates(cfg, row)
    ensures GeometryColumn in r
  {
    RenameRow(cfg, row)[GeometryColumn := Geometry(cfg, row)]
  }

  /** The output has the renamed columns followed by `coordinate_wkt`; its rows are the
      rows with both coordinates, in input order, each converted on its own; the report
      lists the rows without a longitude. */
  lemma Pipeline(cfg: Configuration, f: Frame)
    requires Accepts(cfg, f)
    ensures var out := ToGeoFrame(cfg, f); var keep := Positions(f.rows, Complete(cfg));
      && out.frame.columns == Renamed(cfg, f.columns) + [GeometryColumn]
      && |out.frame.rows| == |keep| == Count(f.rows, Complete(cfg))
      && (forall k :: 0 <= k < |keep| ==> out.frame.rows[k] == Converted(cfg, f, f.rows[keep[k]]))
      && out.reported == Filter(f.rows, LongitudeMissing(cfg))
  {
    PipelineShape(cfg, f);
    var keep := Positions(f.rows, Complete(cfg));
    forall k | 0 <= k < |keep|
      ensures ToGeoFrame(cfg, f).frame.rows[k] == Converted(cfg, f, f.rows[keep[k]])
    {
      PipelineRow(cfg, f, k);
    }
  }

  lemma PipelineShape(cfg: Configuration, f: Frame)
    requires Accepts(cfg, f)
    ensures var out := ToGeoFrame(cfg, f);
      && out.frame.columns == Renamed(cfg, f.columns) + [GeometryColumn]
      && |out.frame.rows| == |Positions(f.rows, Complete(cfg))| == Count(f.rows, Complete(cfg))
      && out.reported == Filter(f.rows, LongitudeMissing(cfg))
  {
    var dropped := DropEmptyCoordinates(cfg, f);
    ReachesParser(cfg, f);
    var renamed := RenameColumns(cfg, dropped.frame);
    assert renamed.columns == Renamed(cfg, f.columns);
    assert |renamed.rows| == |dropped.frame.rows|;
    DropSelects(cfg, f);
  }

  lemma PipelineRow(cfg: Configuration, f: Frame, k: nat)
    requires Accepts(cfg, f)
    requires k < |Positions(f.rows, Complete(cfg))|
    ensures var row := f.rows[Positions(f.rows, Complete(cfg))[k]];
      k < |ToGeoFrame(cfg, f).frame.rows| && ToGeoFrame(cfg, f).frame.rows[k] == Converted(cfg, f, row)
  {
    var dropped := DropEmptyCoordinates(cfg, f);
    var row := f.rows[Positions(f.rows, Complete(cfg))[k]];
    assert dropped.frame.rows[k] == row by {
      DropSelects(cfg, f);
    }
    ReachesParser(cfg, f);
    var renamed := RenameColumns(cfg, dropped.frame);
    assert renamed.rows[k] == RenameRow(cfg, row);
    KeepsName(cfg, f, row, cfg.colLon);
    KeepsName(cfg, f, row, cfg.colLat);
    SameCoordinates(cfg, renamed.rows[k], row);
  }

  /** The geometry depends only on the two coordinate cells. */
  lemma SameCoordinates(cfg: Configuration, a: Row, b: Row)
    requires TextAt(a, cfg.colLon) && TextAt(a, cfg.colLat)
    requires TextAt(b, cfg.colLon) && TextAt(b, cfg.colLat)
    requires a[cfg.colLon] == b[cfg.colLon] && a[cfg.colLat] == b[cfg.colLat]
    ensures Geometry(cfg, a) == Geometry(cfg, b)
  {
  }

  /** No row is lost without trace: every input row is converted, or lacks a coordinate;
      and the output never holds more rows than the input. */
  lemma PipelineAccounts(cfg: Configuration, f: Frame)
    requires Accepts(cfg, f)
    ensures |ToGeoFrame(cfg, f).frame.rows| <= |f.rows|
    ensures forall i :: 0 <= i < |f.rows| && HasCoordinates(cfg, f.rows[i]) ==>
      Converted(cfg, f, f.rows[i]) in ToGeoFrame(cfg, f).frame.rows
  {
    Pipeline(cfg, f);
    var keep := Positions(f.rows, Complete(cfg));
    forall i | 0 <= i < |f.rows| && HasCoordinates(cfg, f.rows[i])
      ensures Converted(cfg, f, f.rows[i]) in ToGeoFrame(cfg, f).frame.rows
    {
      assert Complete(cfg)(f.rows[i]);
      var k :| 0 <= k < |keep| && keep[k] == i;
    }
    FilterAtPositions(f.rows, Complete(cfg));
  }
}
