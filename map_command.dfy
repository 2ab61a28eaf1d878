/**
 * The fill loop of the map command (mosaic/lib/Cli/Command/Map.php, run):
 * the file names a glob produced are laid out row-major into a grid of
 * `width` columns, one basename per cell, stopping once `height` rows are full.
 *
 * The glob itself and the JSON file written afterwards are not modelled: the
 * names arrive as a sequence and the grid is returned.
 */
module MapCommand {
  import opened Php
  import opened Geometry

  /**
   * Where the next entry goes: a new row when there is none yet or the last
   * row holds `width` entries, otherwise the end of the last row.
   */
  function Place<T>(grid: seq<seq<T>>, e: T, width: int): seq<seq<T>>
  {
    if grid == [] || |grid[|grid| - 1]| == width then grid + [[e]]
    else grid[..|grid| - 1] + [grid[|grid| - 1] + [e]]
  }

  /** `s` laid out row-major, `width` entries per row (a single row when `width` < 1). */
  function Chunk<T>(s: seq<T>, width: int): seq<seq<T>>
    decreases |s|
  {
    if s == [] then [] else Place(Chunk(s[..|s| - 1], width), s[|s| - 1], width)
  }

  lemma ChunkSnoc<T>(s: seq<T>, e: T, width: int)
    ensures Chunk(s + [e], width) == Place(Chunk(s, width), e, width)
  {
    assert (s + [e])[..|s|] == s;
  }

  /** The rows after Place: all old rows kept and [e] added, or all but the last kept and e appended to the last. */
  lemma PlaceRows<T>(grid: seq<seq<T>>, e: T, width: int)
    ensures var g := Place(grid, e, width);
      && ((grid == [] || |grid[|grid| - 1]| == width) ==>
            |g| == |grid| + 1 && g[|grid|] == [e] && forall j :: 0 <= j < |grid| ==> g[j] == grid[j])
      && (!(grid == [] || |grid[|grid| - 1]| == width) ==>
            |g| == |grid| && g[|grid| - 1] == grid[|grid| - 1] + [e] && forall j :: 0 <= j < |grid| - 1 ==> g[j] == grid[j])
  {
  }

  lemma FlattenPlace<T>(grid: seq<seq<T>>, e: T, width: int)
    ensures Flatten(Place(grid, e, width)) == Flatten(grid) + [e]
  {
    if grid == [] || |grid[|grid| - 1]| == width {
      FlattenSnoc(grid, [e]);
    } else {
      var l := |grid| - 1;
      assert grid[..l] + [grid[l]] == grid;
      FlattenSnoc(grid[..l], grid[l]);
      FlattenSnoc(grid[..l], grid[l] + [e]);
    }
  }

  /** The rows of a chunked sequence, read in order, give the sequence back. */
  lemma {:induction false} FlattenChunk<T>(s: seq<T>, width: int)
    ensures Flatten(Chunk(s, width)) == s
    decreases |s|
  {
    if s != [] {
      var n := |s| - 1;
      FlattenChunk(s[..n], width);
      FlattenPlace(Chunk(s[..n], width), s[n], width);
      assert s[..n] + [s[n]] == s;
    }
  }

  /** Exactly one row holding everything when `width` < 1: no row ever fills up. */
  lemma {:induction false} ChunkOfNarrowWidth<T>(s: seq<T>, width: int)
    requires width < 1 && s != []
    ensures Chunk(s, width) == [s]
    decreases |s|
  {
    var n := |s| - 1;
    if n > 0 {
      ChunkOfNarrowWidth(s[..n], width);
    }
    assert s[..n] + [s[n]] == s;
  }

  /**
   * The rows of a chunked sequence: none for the empty sequence; otherwise
   * every row but the last holds exactly `width` entries, the last between 1
   * and `width`, and the entries before it are `Scale(rows - 1, width)`.
   */
  lemma {:induction false} ChunkShape<T>(s: seq<T>, width: int)
    requires width >= 1
    ensures var c := Chunk(s, width);
      && (c == [] <==> s == [])
      && (forall j :: 0 <= j < |c| - 1 ==> |c[j]| == width)
      && (c != [] ==> 1 <= |c[|c| - 1]| <= width && |s| == Scale(|c| - 1, width) + |c[|c| - 1]|)
    decreases |s|
  {
    if s != [] {
      var n := |s| - 1;
      ChunkShape(s[..n], width);
      var c', c := Chunk(s[..n], width), Chunk(s, width);
      PlaceRows(c', s[n], width);
      forall j | 0 <= j < |c| - 1
        ensures |c[j]| == width
      {
        assert c[j] == c'[j];
      }
      if c' != [] && |c'[|c'| - 1]| == width {
        assert Scale(|c'|, width) == Scale(|c'| - 1, width) + width;
      }
    }
  }

  /** Row-major positions are unique: `row` whole rows plus `col` more name one cell only. */
  lemma ScaleUnique(row: nat, col: nat, row': nat, col': nat, width: nat)
    requires col < width && col' < width && Scale(row, width) + col == Scale(row', width) + col'
    ensures row == row' && col == col'
  {
    ScaleIsProduct(row, width);
    ScaleIsProduct(row', width);
    GridCoordinatesUnique(row, col, row', col', width);
  }

  /** Cell (row, col) of a chunked sequence holds entry `Scale(row, width) + col`, when there is one. */
  lemma {:induction false} ChunkCell<T>(s: seq<T>, width: int, row: nat, col: nat)
    requires width >= 1 && col < width && Scale(row, width) + col < |s|
    ensures var c := Chunk(s, width);
      row < |c| && col < |c[row]| && c[row][col] == s[Scale(row, width) + col]
    decreases |s|
  {
    var n := |s| - 1;
    var k := Scale(row, width) + col;
    var c' := Chunk(s[..n], width);
    ChunkShape(s[..n], width);
    PlaceRows(c', s[n], width);
    if k < n {
      ChunkCell(s[..n], width, row, col);
    } else if c' == [] {
      ScaleUnique(row, col, 0, 0, width);
    } else if |c'[|c'| - 1]| == width {
      assert Scale(|c'|, width) == Scale(|c'| - 1, width) + width;
      ScaleUnique(row, col, |c'|, 0, width);
    } else {
      ScaleUnique(row, col, |c'| - 1, |c'[|c'| - 1]|, width);
    }
  }

  /** For `width` >= 1 entry `k` sits in row `k / width`, column `k % width`. */
  lemma ChunkAt<T>(s: seq<T>, width: int, k: nat)
    requires width >= 1 && k < |s|
    ensures var c := Chunk(s, width);
      k / width < |c| && k % width < |c[k / width]| && c[k / width][k % width] == s[k]
  {
    var row, col := k / width, k % width;
    ScaleIsProduct(row, width);
    assert k == row * width + col;
    ChunkCell(s, width, row, col);
  }

  /** `basename` of every name, in order. */
  function Basenames(files: seq<string>): (r: seq<string>)
    ensures |r| == |files|
  {
    if files == [] then [] else Basenames(files[..|files| - 1]) + [Basename(files[|files| - 1])]
  }

  lemma {:induction false} BasenamesAt(files: seq<string>, k: nat)
    requires k < |files|
    ensures Basenames(files)[k] == Basename(files[k])
    decreases |files|
  {
    if k < |files| - 1 {
      BasenamesAt(files[..|files| - 1], k);
    }
  }

  lemma BasenamesOfLongerPrefix(files: seq<string>, i: nat)
    requires i < |files|
    ensures Basenames(files[..i + 1]) == Basenames(files[..i]) + [Basename(files[i])]
  {
    assert files[..i + 1][..i] == files[..i];
  }

  /**
   * How many names the loop stores: it stops before storing once `y`, the
   * number of full rows, equals `height`. With `width` < 1 no row ever
   * fills, so only `height` == 0 stops it; a negative `height` never does.
   * Otherwise at most `height` rows of `width` names are stored.
   */
  function StoredCount(n: nat, width: int, height: int): (k: nat)
    ensures k <= n
  {
    if height < 0 then n
    else if width < 1 then (if height == 0 then 0 else n)
    else if n <= Scale(height, width) then n
    else Scale(height, width)
  }

  /** The grid the loop builds from the names the glob returned. */
  function FileMap(names: seq<string>, width: int, height: int): seq<seq<string>>
  {
    Chunk(Basenames(names[..StoredCount(|names|, width, height)]), width)
  }

  /** The loop's counters at its exit, whichever way it left, account for exactly StoredCount names. */
  lemma StoredAtExit(n: nat, i: nat, x: int, y: int, width: int, height: int)
    requires i <= n && (i == n || y == height) && 0 <= y
    requires width >= 1 ==> i == Scale(y, width) + x && 0 <= x < width
    requires width < 1 ==> y == 0 && x == i
    requires height >= 0 && width >= 1 ==> y <= height && (y == height ==> x == 0)
    requires height == 0 ==> i == 0
    ensures i == StoredCount(n, width, height)
  {
    if width >= 1 && height >= 0 && y != height {
      ScaleIsProduct(y + 1, width);
      ScaleIsProduct(height, width);
      MulMonotone(y + 1, height, width);
      assert Scale(y + 1, width) == Scale(y, width) + width;
    }
  }

  /** Where the loop stands in the grid: at the start of row y, or just past the end of row y. */
  predicate AtFreeCell<T>(grid: seq<seq<T>>, x: int, y: int, width: int)
  {
    || (x == 0 && y == |grid| && (grid == [] || |grid[|grid| - 1]| == width))
    || (x > 0 && |grid| > 0 && y == |grid| - 1 && |grid[y]| == x && x != width)
  }

  /** Writing `$map[$y][$x]` at the free cell is exactly Place. */
  lemma StoreIsPlace<T>(grid: seq<seq<T>>, e: T, x: int, y: int, width: int)
    requires AtFreeCell(grid, x, y, width)
    ensures y < |grid| ==> grid[y := grid[y] + [e]] == Place(grid, e, width)
    ensures y >= |grid| ==> grid + [[e]] == Place(grid, e, width)
  {
    if y < |grid| {
      assert grid[y := grid[y] + [e]] == grid[..y] + [grid[y] + [e]];
    }
  }

  /**
   * The loop's counters after `i` names: with `width` >= 1, `y` full rows and
   * `x` more; with `width` < 1, all in row 0. `y` never passes a
   * non-negative `height`, and reaches it only at the start of a row.
   */
  predicate Counters(i: int, x: int, y: int, width: int, height: int)
  {
    && 0 <= y
    && (width >= 1 ==> i == Scale(y, width) + x && 0 <= x < width)
    && (width < 1 ==> y == 0 && x == i)
    && (height >= 0 && width >= 1 ==> y <= height && (y == height ==> x == 0))
    && (height == 0 ==> i == 0)
  }

  /** One pass of the loop body keeps the counters and the free cell in step with Place. */
  lemma CountersStep<T>(grid: seq<seq<T>>, e: T, i: int, x: int, y: int, x': int, y': int, width: int, height: int)
    requires Counters(i, x, y, width, height) && AtFreeCell(grid, x, y, width) && y != height
    requires x == width - 1 ==> x' == 0 && y' == y + 1
    requires x != width - 1 ==> x' == x + 1 && y' == y
    ensures Counters(i + 1, x', y', width, height) && AtFreeCell(Place(grid, e, width), x', y', width)
  {
    if width >= 1 {
      assert Scale(y + 1, width) == Scale(y, width) + width;
    }
  }

  /** Whichever way the loop leaves, the grid it holds is FileMap. */
  lemma FillMapAtExit(names: seq<string>, width: int, height: int, grid: seq<seq<string>>, i: nat, x: int, y: int)
    requires i <= |names| && (i == |names| || y == height)
    requires grid == Chunk(Basenames(names[..i]), width) && Counters(i, x, y, width, height)
    ensures grid == FileMap(names, width, height)
  {
    StoredAtExit(|names|, i, x, y, width, height);
  }

  /**
   * run's loop: each name is stored, as its basename, at [y][x]; x advances
   * and wraps to the next row after column `width - 1`; the loop breaks
   * before storing once `y == height`.
   */
  method FillMap(names: seq<string>, width: int, height: int) returns (grid: seq<seq<string>>)
    ensures grid == FileMap(names, width, height)
  {
    grid := [];
    var x := 0;
    var y := 0;
    var i := 0;
    ghost var stored: seq<string> := [];
    while i < |names|
      invariant 0 <= i <= |names|
      invariant stored == Basenames(names[..i])
      invariant grid == Chunk(stored, width)
      invariant AtFreeCell(grid, x, y, width)
      invariant Counters(i, x, y, width, height)
    {
      if y == height {
        break;
      }
      var name := Basename(names[i]);
      ghost var x0, y0 := x, y;
      BasenamesOfLongerPrefix(names, i);
      ChunkSnoc(stored, name, width);
      StoreIsPlace(grid, name, x, y, width);
      CountersStep(grid, name, i, x0, y0, if x == width - 1 then 0 else x + 1, if x == width - 1 then y + 1 else y, width, height);
      // `$map[$y][$x] = ...` either starts row y or writes just past its end
      if y < |grid| {
        grid := grid[y := grid[y] + [name]];
      } else {
        grid := grid + [[name]];
      }
      if x == width - 1 {
        y := y + 1;
        x := 0;
      } else {
        x := x + 1;
      }
      stored := stored + [name];
      i := i + 1;
    }
    FillMapAtExit(names, width, height, grid, i, x, y);
  }

  /** For `width` >= 1 the k-th stored name is at [k / width][k % width]. */
  lemma FileMapAt(names: seq<string>, width: int, height: int, k: nat)
    requires width >= 1 && k < StoredCount(|names|, width, height)
    ensures var m := FileMap(names, width, height);
      k / width < |m| && k % width < |m[k / width]| && m[k / width][k % width] == Basename(names[k])
  {
    var files := names[..StoredCount(|names|, width, height)];
    ChunkAt(Basenames(files), width, k);
    BasenamesAt(files, k);
  }

  /** The grid, read row by row, is the basenames of the stored names in their input order. */
  lemma FileMapEntries(names: seq<string>, width: int, height: int)
    ensures var k := StoredCount(|names|, width, height);
      && Flatten(FileMap(names, width, height)) == Basenames(names[..k])
      && forall j :: 0 <= j < k ==> Basenames(names[..k])[j] == Basename(names[j])
  {
    var k := StoredCount(|names|, width, height);
    FlattenChunk(Basenames(names[..k]), width);
    forall j | 0 <= j < k
      ensures Basenames(names[..k])[j] == Basename(names[j])
    {
      BasenamesAt(names[..k], j);
    }
  }

  /** At most `width * height` names are stored. */
  lemma StoredAtMost(n: nat, width: int, height: int)
    requires width >= 1 && height >= 0
    ensures StoredCount(n, width, height) <= width * height
  {
    ScaleIsProduct(height, width);
  }

  /**
   * Only rows below `height` exist; every row but the last is full, the last
   * holds at least one name.
   */
  lemma FileMapRows(names: seq<string>, width: int, height: int)
    requires width >= 1 && height >= 0
    ensures var m := FileMap(names, width, height);
      && |m| <= height
      && (forall j :: 0 <= j < |m| - 1 ==> |m[j]| == width)
      && (m != [] ==> 1 <= |m[|m| - 1]| <= width)
  {
    var t := Basenames(names[..StoredCount(|names|, width, height)]);
    var m := Chunk(t, width);
    ChunkShape(t, width);
    if |m| > height {
      ScaleMonotone(height, |m| - 1, width);
    }
  }

  /** A height of 0 stops the loop before its first name: the map is empty. */
  lemma FileMapOfZeroHeight(names: seq<string>, width: int)
    ensures FileMap(names, width, 0) == []
  {
  }

  /** Below width 1 the column never wraps: every stored name lands in the single row 0. */
  lemma FileMapOfNarrowWidth(names: seq<string>, width: int, height: int)
    requires width < 1 && height != 0 && names != []
    ensures FileMap(names, width, height) == [Basenames(names)]
  {
    assert names[..|names|] == names;
    ChunkOfNarrowWidth(Basenames(names), width);
  }
}
