/**
 * Loading a stitch map (mosaic/lib/Image/Stitch.php, setStitchMap): the
 * grid of tile paths is validated row by row, every tile is opened, and one
 * global cell size is taken as the largest tile width and height.
 *
 * The file system is a map from path to the size of the image stored there:
 * a path is a key exactly when `file_exists` holds for it, and opening it
 * yields that size.
 */
module StitchMap {
  import opened Php
  import opened Geometry

  /** Why a map is refused, in the order the checks run. */
  datatype MapError =
    | NoRows                      // "Mosaic must have at least 1 row"
    | EmptyRow                    // "Mosaic cannot have an empty row"
    | ColumnCount(row: nat)       // "Invalid column count at row %s", 1-based
    | FileNotFound(path: string)  // "File %s not found"

  function MapErrorMessage(e: MapError): string
  {
    match e
    case NoRows => "Mosaic must have at least 1 row"
    case EmptyRow => "Mosaic cannot have an empty row"
    case ColumnCount(row) => "Invalid column count at row " + NatToString(row)
    case FileNotFound(path) => "File " + path + " not found"
  }

  /** A successfully loaded map: the opened tiles and the values setStitchMap stores. */
  datatype LoadedMap = LoadedMap(
    tiles: seq<seq<Size>>,
    horizontalBlocks: nat,
    verticalBlocks: nat,
    cellWidth: nat,
    cellHeight: nat)

  /** The first missing file of `row` from column `x` on. */
  function MissingFile(row: seq<string>, images: map<string, Size>, x: nat): Option<MapError>
    decreases |row| - x
  {
    if x >= |row| then None
    else if row[x] !in images then Some(FileNotFound(row[x]))
    else MissingFile(row, images, x + 1)
  }

  /**
   * The defect of row `y`, checked in the source's order: emptiness, then the
   * column count against the first row (the first row fixes it), then its files.
   */
  function RowError(m: seq<seq<string>>, images: map<string, Size>, y: nat): Option<MapError>
    requires y < |m|
  {
    if m[y] == [] then Some(EmptyRow)
    else if y > 0 && |m[y]| != |m[0]| then Some(ColumnCount(y + 1))
    else MissingFile(m[y], images, 0)
  }

  /** The first defect of the rows from `y` on. */
  function RowsError(m: seq<seq<string>>, images: map<string, Size>, y: nat): Option<MapError>
    decreases |m| - y
  {
    if y >= |m| then None
    else if RowError(m, images, y).Some? then RowError(m, images, y)
    else RowsError(m, images, y + 1)
  }

  /** What an acceptable map looks like. */
  predicate WellFormed(m: seq<seq<string>>, images: map<string, Size>)
  {
    && |m| > 0
    && (forall y :: 0 <= y < |m| ==> m[y] != [] && |m[y]| == |m[0]|)
    && (forall y, x :: 0 <= y < |m| && 0 <= x < |m[y]| ==> m[y][x] in images)
  }

  predicate AllPresent(m: seq<seq<string>>, images: map<string, Size>)
  {
    forall y, x :: 0 <= y < |m| && 0 <= x < |m[y]| ==> m[y][x] in images
  }

  predicate RowPresent(row: seq<string>, images: map<string, Size>)
  {
    forall x :: 0 <= x < |row| ==> row[x] in images
  }

  /** The opened tiles of one row, left to right. */
  function RowTiles(row: seq<string>, images: map<string, Size>): seq<Size>
    requires RowPresent(row, images)
  {
    seq(|row|, x requires 0 <= x < |row| => images[row[x]])
  }

  /** The opened tiles of the whole map, top row first. */
  function Tiles(m: seq<seq<string>>, images: map<string, Size>): seq<seq<Size>>
    requires AllPresent(m, images)
  {
    TilesBefore(m, images, |m|)
  }

  /** The opened tiles of the first `n` rows. */
  function TilesBefore(m: seq<seq<string>>, images: map<string, Size>, n: nat): (r: seq<seq<Size>>)
    requires n <= |m| && forall j :: 0 <= j < n ==> RowPresent(m[j], images)
    ensures |r| == n
  {
    if n == 0 then [] else TilesBefore(m, images, n - 1) + [RowTiles(m[n - 1], images)]
  }

  lemma {:induction false} TilesBeforeAt(m: seq<seq<string>>, images: map<string, Size>, n: nat, y: nat)
    requires n <= |m| && forall j :: 0 <= j < n ==> RowPresent(m[j], images)
    requires y < n
    ensures TilesBefore(m, images, n)[y] == RowTiles(m[y], images)
  {
    if y < n - 1 {
      TilesBeforeAt(m, images, n - 1, y);
    }
  }

  /** setStitchMap as a function of the map and the file system. */
  function LoadMap(m: seq<seq<string>>, images: map<string, Size>): Result<LoadedMap, MapError>
  {
    if |m| == 0 then Err(NoRows)
    else if RowsError(m, images, 0).Some? then Err(RowsError(m, images, 0).value)
    else
      RowsErrorNone(m, images, 0);
      var tiles := Tiles(m, images);
      Ok(LoadedMap(tiles, |m[0]|, |m|, MaxOf(Widths(Flatten(tiles))), MaxOf(Heights(Flatten(tiles)))))
  }

  // ---------------------------------------------------------------------
  // the checks, unfolded
  // ---------------------------------------------------------------------

  lemma {:induction false} MissingFileNone(row: seq<string>, images: map<string, Size>, x: nat)
    ensures MissingFile(row, images, x).None? <==> forall i :: x <= i < |row| ==> row[i] in images
    decreases |row| - x
  {
    if x < |row| {
      MissingFileNone(row, images, x + 1);
    }
  }

  lemma {:induction false} RowsErrorNone(m: seq<seq<string>>, images: map<string, Size>, y: nat)
    requires |m| > 0
    ensures RowsError(m, images, y).None? <==>
      forall j :: y <= j < |m| ==> m[j] != [] && |m[j]| == |m[0]| && forall i :: 0 <= i < |m[j]| ==> m[j][i] in images
    decreases |m| - y
  {
    if y < |m| {
      RowsErrorNone(m, images, y + 1);
      MissingFileNone(m[y], images, 0);
    }
  }

  /** The first row with a defect, and the defect reported is that row's. */
  lemma {:induction false} FirstBadRow(m: seq<seq<string>>, images: map<string, Size>, y: nat) returns (bad: nat)
    requires RowsError(m, images, y).Some?
    ensures y <= bad < |m| && RowError(m, images, bad) == RowsError(m, images, y)
    ensures forall j :: y <= j < bad ==> RowError(m, images, j).None?
    decreases |m| - y
  {
    if RowError(m, images, y).Some? {
      bad := y;
    } else {
      bad := FirstBadRow(m, images, y + 1);
    }
  }

  /** The first missing file of a row: every earlier file of the row exists. */
  lemma {:induction false} FirstMissingFile(row: seq<string>, images: map<string, Size>, x: nat) returns (at: nat)
    requires MissingFile(row, images, x).Some?
    ensures x <= at < |row| && row[at] !in images && MissingFile(row, images, x) == Some(FileNotFound(row[at]))
    ensures forall i :: x <= i < at ==> row[i] in images
    decreases |row| - x
  {
    if row[x] !in images {
      at := x;
    } else {
      at := FirstMissingFile(row, images, x + 1);
    }
  }

  // ---------------------------------------------------------------------
  // properties of LoadMap
  // ---------------------------------------------------------------------

  /** A map loads exactly when it is well formed: non-empty, no empty row, equal row lengths, every file present. */
  lemma LoadMapSucceedsIff(m: seq<seq<string>>, images: map<string, Size>)
    ensures LoadMap(m, images).Ok? <==> WellFormed(m, images)
  {
    if |m| > 0 {
      RowsErrorNone(m, images, 0);
    }
  }

  /**
   * After a successful load the block counts are the first row's length and
   * the number of rows, and each tile is the image stored at its path.
   */
  lemma LoadMapTiles(m: seq<seq<string>>, images: map<string, Size>)
    requires LoadMap(m, images).Ok?
    ensures var l := LoadMap(m, images).value;
      && l.horizontalBlocks == |m[0]| && l.verticalBlocks == |m|
      && |l.tiles| == |m| && Uniform(l.tiles, l.horizontalBlocks)
      && (forall y :: 0 <= y < |m| ==> |l.tiles[y]| == |m[y]|)
      && (forall y, x :: 0 <= y < |m| && 0 <= x < |m[y]| ==> m[y][x] in images && l.tiles[y][x] == images[m[y][x]])
  {
    LoadMapSucceedsIff(m, images);
    var l := LoadMap(m, images).value;
    assert l.tiles == Tiles(m, images);
    forall y | 0 <= y < |m|
      ensures |l.tiles[y]| == |m[y]| == l.horizontalBlocks
      ensures forall x :: 0 <= x < |m[y]| ==> m[y][x] in images && l.tiles[y][x] == images[m[y][x]]
    {
      TilesBeforeAt(m, images, |m|, y);
    }
  }

  /**
   * After a successful load the cell is the smallest size every tile fits in:
   * no tile exceeds it and some tile reaches it, in each dimension.
   */
  lemma LoadMapCell(m: seq<seq<string>>, images: map<string, Size>)
    requires LoadMap(m, images).Ok?
    ensures var l := LoadMap(m, images).value;
      && |l.tiles| == |m| && Uniform(l.tiles, |m[0]|)
      && (forall y, x :: 0 <= y < |l.tiles| && 0 <= x < |l.tiles[y]| ==>
            l.tiles[y][x].width <= l.cellWidth && l.tiles[y][x].height <= l.cellHeight)
      && (exists y, x :: 0 <= y < |l.tiles| && 0 <= x < |l.tiles[y]| && l.tiles[y][x].width == l.cellWidth)
      && (exists y, x :: 0 <= y < |l.tiles| && 0 <= x < |l.tiles[y]| && l.tiles[y][x].height == l.cellHeight)
  {
    LoadMapTiles(m, images);
    var l := LoadMap(m, images).value;
    var tiles: seq<seq<Size>> := l.tiles;
    assert l.cellWidth == MaxOf(Widths(Flatten(tiles))) && l.cellHeight == MaxOf(Heights(Flatten(tiles)));
    forall y, x | 0 <= y < |tiles| && 0 <= x < |tiles[y]|
      ensures tiles[y][x].width <= l.cellWidth && tiles[y][x].height <= l.cellHeight
    {
      TileFitsCell(tiles, x, y);
    }
    var flat := Flatten(tiles);
    FlattenContains(tiles, 0, 0);
    MaxOfIsAttained(Widths(flat));
    var i :| 0 <= i < |flat| && Widths(flat)[i] == l.cellWidth;
    FlattenFrom(tiles, flat[i]);
    var y1: int, x1: int :| 0 <= y1 < |tiles| && 0 <= x1 < |tiles[y1]| && tiles[y1][x1] == flat[i];
    assert tiles[y1][x1].width == l.cellWidth;
    MaxOfIsAttained(Heights(flat));
    var j :| 0 <= j < |flat| && Heights(flat)[j] == l.cellHeight;
    FlattenFrom(tiles, flat[j]);
    var y2: int, x2: int :| 0 <= y2 < |tiles| && 0 <= x2 < |tiles[y2]| && tiles[y2][x2] == flat[j];
    assert tiles[y2][x2].height == l.cellHeight;
  }

  /** Every tile of a grid fits the cell made of the largest width and height. */
  lemma TileFitsCell(tiles: seq<seq<Size>>, x: nat, y: nat)
    requires y < |tiles| && x < |tiles[y]|
    ensures tiles[y][x].width <= MaxOf(Widths(Flatten(tiles)))
    ensures tiles[y][x].height <= MaxOf(Heights(Flatten(tiles)))
  {
    var flat := Flatten(tiles);
    FlattenContains(tiles, x, y);
    var k :| 0 <= k < |flat| && flat[k] == tiles[y][x];
    MaxOfIsUpperBound(Widths(flat), k);
    MaxOfIsUpperBound(Heights(flat), k);
  }

  /**
   * The error a refused map gets. Rows are checked top to bottom and, within a
   * row, emptiness, then the column count, then the files left to right; so a
   * reported defect is the first one in row-major order.
   */
  lemma LoadMapErrors(m: seq<seq<string>>, images: map<string, Size>)
    ensures LoadMap(m, images) == Err(NoRows) <==> |m| == 0
    ensures LoadMap(m, images).Err? && LoadMap(m, images).error.ColumnCount? ==>
      var k := LoadMap(m, images).error.row;
      && 2 <= k <= |m| && m[k - 1] != [] && |m[k - 1]| != |m[0]|
      && (forall j :: 0 <= j < k - 1 ==> m[j] != [] && |m[j]| == |m[0]|)
      && (forall j, i :: 0 <= j < k - 1 && 0 <= i < |m[j]| ==> m[j][i] in images)
    ensures LoadMap(m, images) == Err(EmptyRow) ==>
      exists y :: 0 <= y < |m| && m[y] == []
        && (forall j :: 0 <= j < y ==> m[j] != [] && |m[j]| == |m[0]|)
        && (forall j, i :: 0 <= j < y && 0 <= i < |m[j]| ==> m[j][i] in images)
    ensures LoadMap(m, images).Err? && LoadMap(m, images).error.FileNotFound? ==>
      var p := LoadMap(m, images).error.path;
      && p !in images
      && exists y, x :: 0 <= y < |m| && 0 <= x < |m[y]| && m[y][x] == p
           && (forall j :: 0 <= j <= y ==> m[j] != [] && |m[j]| == |m[0]|)
           && (forall j, i :: 0 <= j < y && 0 <= i < |m[j]| ==> m[j][i] in images)
           && (forall i :: 0 <= i < x ==> m[y][i] in images)
  {
    if |m| > 0 && RowsError(m, images, 0).Some? {
      var bad := FirstBadRow(m, images, 0);
      forall j | 0 <= j < bad
        ensures m[j] != [] && |m[j]| == |m[0]| && forall i :: 0 <= i < |m[j]| ==> m[j][i] in images
      {
        assert RowError(m, images, j).None?;
        MissingFileNone(m[j], images, 0);
      }
      if m[bad] != [] && !(bad > 0 && |m[bad]| != |m[0]|) {
        var at := FirstMissingFile(m[bad], images, 0);
        assert m[bad][at] == LoadMap(m, images).error.path;
      }
    }
  }

  // ---------------------------------------------------------------------
  // the loop of setStitchMap
  // ---------------------------------------------------------------------

  /**
   * The inner loop of setStitchMap over one row: each file is checked, opened
   * and folded into the running maxima `cellWidth` and `cellHeight`.
   */
  method OpenRow(row: seq<string>, images: map<string, Size>, cellWidth: nat, cellHeight: nat)
    returns (r: Result<seq<Size>, MapError>, newWidth: nat, newHeight: nat)
    ensures r.Err? <==> MissingFile(row, images, 0).Some?
    ensures r.Err? ==> r.error == MissingFile(row, images, 0).value
    ensures r.Ok? ==> RowPresent(row, images) && r.value == RowTiles(row, images)
    ensures r.Ok? ==> newWidth == Max(cellWidth, MaxOf(Widths(r.value))) && newHeight == Max(cellHeight, MaxOf(Heights(r.value)))
  {
    var tiles: seq<Size> := [];
    newWidth, newHeight := cellWidth, cellHeight;
    var x := 0;
    while x < |row|
      invariant 0 <= x <= |row|
      invariant MissingFile(row, images, 0) == MissingFile(row, images, x)
      invariant |tiles| == x && forall i :: 0 <= i < x ==> row[i] in images && tiles[i] == images[row[i]]
      invariant newWidth == Max(cellWidth, MaxOf(Widths(tiles)))
      invariant newHeight == Max(cellHeight, MaxOf(Heights(tiles)))
    {
      var item := row[x];
      if item !in images {
        return Err(FileNotFound(item)), newWidth, newHeight;
      }
      var image := images[item];
      MaxSnoc(tiles, image);
      if image.width > newWidth {
        newWidth := image.width;
      }
      if image.height > newHeight {
        newHeight := image.height;
      }
      tiles := tiles + [image];
      x := x + 1;
    }
    assert tiles == RowTiles(row, images);
    r := Ok(tiles);
  }

  /** One row of the loop: maxima that were those of the grid so far, folded with the row's, are those of the grid with the row. */
  lemma CellStep(rows: seq<seq<Size>>, row: seq<Size>, cellWidth: nat, cellHeight: nat, newWidth: nat, newHeight: nat)
    requires cellWidth == MaxOf(Widths(Flatten(rows))) && cellHeight == MaxOf(Heights(Flatten(rows)))
    requires newWidth == Max(cellWidth, MaxOf(Widths(row))) && newHeight == Max(cellHeight, MaxOf(Heights(row)))
    ensures newWidth == MaxOf(Widths(Flatten(rows + [row]))) && newHeight == MaxOf(Heights(Flatten(rows + [row])))
  {
    MaxOfNextRow(rows, row);
  }

  /** The running maximum over a grid grows row by row. */
  lemma MaxOfNextRow(rows: seq<seq<Size>>, row: seq<Size>)
    ensures MaxOf(Widths(Flatten(rows + [row]))) == Max(MaxOf(Widths(Flatten(rows))), MaxOf(Widths(row)))
    ensures MaxOf(Heights(Flatten(rows + [row]))) == Max(MaxOf(Heights(Flatten(rows))), MaxOf(Heights(row)))
  {
    FlattenSnoc(rows, row);
    MaxOfConcat(Flatten(rows), row);
  }

  lemma MaxOfConcat(a: seq<Size>, b: seq<Size>)
    ensures MaxOf(Widths(a + b)) == Max(MaxOf(Widths(a)), MaxOf(Widths(b)))
    ensures MaxOf(Heights(a + b)) == Max(MaxOf(Heights(a)), MaxOf(Heights(b)))
  {
    SizesConcat(a, b);
    MaxOfConcatNat(Widths(a), Widths(b));
    MaxOfConcatNat(Heights(a), Heights(b));
  }

  /** A map with a defect is refused with that defect. */
  lemma LoadMapRejects(m: seq<seq<string>>, images: map<string, Size>, y: nat, e: MapError)
    requires |m| > 0 && RowsError(m, images, 0) == RowsError(m, images, y) && y < |m| && RowError(m, images, y) == Some(e)
    ensures LoadMap(m, images) == Err(e)
  {
  }

  /** A map without a defect is loaded: its tiles and the maxima over them. */
  lemma LoadMapAccepts(m: seq<seq<string>>, images: map<string, Size>, tiles: seq<seq<Size>>)
    requires |m| > 0 && RowsError(m, images, 0).None? && AllPresent(m, images) && tiles == Tiles(m, images)
    ensures LoadMap(m, images) == Ok(LoadedMap(tiles, |m[0]|, |m|, MaxOf(Widths(Flatten(tiles))), MaxOf(Heights(Flatten(tiles)))))
  {
  }

  /**
   * What the loop of setStitchMap knows after `y` rows: none of them has a
   * defect, all their files exist, `result` holds their tiles and the cell
   * size is the maximum over those tiles.
   */
  ghost predicate LoadedRows(m: seq<seq<string>>, images: map<string, Size>, y: nat,
                             result: seq<seq<Size>>, cellWidth: nat, cellHeight: nat)
  {
    && y <= |m|
    && RowsError(m, images, 0) == RowsError(m, images, y)
    && (forall j :: 0 <= j < y ==> RowPresent(m[j], images))
    && result == TilesBefore(m, images, y)
    && cellWidth == MaxOf(Widths(Flatten(result))) && cellHeight == MaxOf(Heights(Flatten(result)))
  }

  /** A row without a defect, opened and folded into the maxima, extends what the loop knows by one row. */
  lemma LoadedRowsStep(m: seq<seq<string>>, images: map<string, Size>, y: nat,
                       result: seq<seq<Size>>, cellWidth: nat, cellHeight: nat,
                       tiles: seq<Size>, newWidth: nat, newHeight: nat)
    requires LoadedRows(m, images, y, result, cellWidth, cellHeight) && y < |m|
    requires m[y] != [] && (y > 0 ==> |m[y]| == |m[0]|) && MissingFile(m[y], images, 0).None?
    requires RowPresent(m[y], images) && tiles == RowTiles(m[y], images)
    requires newWidth == Max(cellWidth, MaxOf(Widths(tiles))) && newHeight == Max(cellHeight, MaxOf(Heights(tiles)))
    ensures LoadedRows(m, images, y + 1, result + [tiles], newWidth, newHeight)
  {
    assert RowError(m, images, y).None?;
    CellStep(result, tiles, cellWidth, cellHeight, newWidth, newHeight);
  }

  /** A defect in the next row is the defect the whole map is refused with. */
  lemma LoadedRowsReject(m: seq<seq<string>>, images: map<string, Size>, y: nat,
                         result: seq<seq<Size>>, cellWidth: nat, cellHeight: nat, e: MapError)
    requires LoadedRows(m, images, y, result, cellWidth, cellHeight) && y < |m|
    requires RowError(m, images, y) == Some(e)
    ensures LoadMap(m, images) == Err(e)
  {
    LoadMapRejects(m, images, y, e);
  }

  /** Once every row is through, the map is loaded with the tiles and maxima gathered. */
  lemma LoadedRowsAll(m: seq<seq<string>>, images: map<string, Size>,
                      result: seq<seq<Size>>, cellWidth: nat, cellHeight: nat)
    requires |m| > 0 && LoadedRows(m, images, |m|, result, cellWidth, cellHeight)
    ensures LoadMap(m, images) == Ok(LoadedMap(result, |m[0]|, |m|, cellWidth, cellHeight))
  {
    assert result == Tiles(m, images);
    LoadMapAccepts(m, images, result);
  }

  /**
   * setStitchMap's loop: rows in order, each checked and then opened file by
   * file, with running maxima for the cell size.
   */
  method LoadStitchMap(m: seq<seq<string>>, images: map<string, Size>) returns (r: Result<LoadedMap, MapError>)
    ensures r == LoadMap(m, images)
  {
    if |m| == 0 {
      return Err(NoRows);
    }
    var result: seq<seq<Size>> := [];
    var cellWidth: nat := 0;
    var cellHeight: nat := 0;
    var cols: Option<nat> := None;
    var y := 0;
    while y < |m|
      invariant 0 <= y <= |m|
      invariant cols == if y == 0 then None else Some(|m[0]|)
      invariant LoadedRows(m, images, y, result, cellWidth, cellHeight)
    {
      var row := m[y];
      if row == [] {
        LoadedRowsReject(m, images, y, result, cellWidth, cellHeight, EmptyRow);
        return Err(EmptyRow);
      }
      if cols.None? {
        cols := Some(|row|);
      } else if |row| != cols.value {
        LoadedRowsReject(m, images, y, result, cellWidth, cellHeight, ColumnCount(y + 1));
        return Err(ColumnCount(y + 1));
      }
      var rowTiles, newWidth, newHeight := OpenRow(row, images, cellWidth, cellHeight);
      if rowTiles.Err? {
        LoadedRowsReject(m, images, y, result, cellWidth, cellHeight, rowTiles.error);
        return Err(rowTiles.error);
      }
      LoadedRowsStep(m, images, y, result, cellWidth, cellHeight, rowTiles.value, newWidth, newHeight);
      cellWidth, cellHeight := newWidth, newHeight;
      result := result + [rowTiles.value];
      y := y + 1;
    }
    LoadedRowsAll(m, images, result, cellWidth, cellHeight);
    r := Ok(LoadedMap(result, cols.value, |m|, cellWidth, cellHeight));
  }
}
