# mosaic, modelled in Dafny

mosaic cuts an image into a grid of equal tiles (the slicer), and assembles a
grid of tile images back into one picture (the stitcher). The stitcher puts
each tile in a cell of one global size, optionally with a border, with gaps
between the cells. A small command lays a list of file names out as such a
grid map. This project models the integer geometry and the bookkeeping of
these pieces:

- `php.dfy` (module `Php`) models the few PHP runtime functions the code
  relies on, over `string = seq<char>`: `empty()` on strings, `basename`,
  `explode`/`implode` on `'.'`, `str_replace` with one search string, and
  integer to string conversion.
- `geometry.dfy` (module `Geometry`) holds sizes, rectangles, row-major
  flattening, running maxima, and `Scale(k, step)`, which is `k` steps of
  `step`. `Scale` is how the loops' accumulated offsets are stated.
- `stitch_map.dfy` (module `StitchMap`) models `setStitchMap`.
  - It validates the grid of paths and opens every tile.
  - It takes the largest width and height as the cell.
  - `LoadMap` is the specification; `LoadStitchMap` is the source's loop,
    proved equal to it.
- `stitch_layout.dfy` (module `StitchLayout`) models `getBlock`, the border
  wrap, the canvas size and the placement of every block, as functions.
  - A picture records how it was produced: opened, resized, cropped, or
    pasted on a patch.
  - A canvas is its size, its background colour and its pastes, in order.
- `stitch.dfy` (module `Stitch`) is the `Stitcher` class: its fields, the
  validating setters, `initialize`, and the nested `stitch` loop. Each
  setter and `initialize` also has a function on a `Config` value, and the
  class invariant `Valid()` is a predicate over that value.
- `slice.dfy` (module `Slice`) is the `Slicer` class: `initialize`, the
  setters, the nested `slice` loop, and output-name assembly from the
  placeholder mask.
- `map_command.dfy` (module `MapCommand`) is the fill loop of the `map`
  command.
- `error_stack.dfy` (module `Mixin`) is the `ErrorStack` mixin as a class
  over `seq<string>`.

An image is only its `(width, height)`. The file system is a parameter:
- a map from path to image size, where a path is present exactly when
  `file_exists` holds for it;
- for the slicer, also `realpath` results and the set of directories.

Exceptions are `Result`/`Option` values carrying one constructor per
exception.

Where the project's own documentation and the code differ, the model follows
the code:
- `{name}` in the output mask is everything before the last `.` of the path
  as given, including any directory prefix. The documentation says the
  directory is dropped. See `Slice.SplitExtensionSpec`.
- `getBlock` applies the fit strategy when the tile is larger than the cell
  in some axis. The documentation says it is applied when the tile is
  smaller.
- `setMask` validates its argument but never stores it, so the default mask
  is always the one used.
- The map command stores at most `width * height` names only when
  `width >= 1` and `height >= 0`:
  - with `width < 1` the column never wraps and every name lands in row 0;
  - with `height < 0` the loop never stops early.

## Model

| member | source | states |
|---|---|---|
| Mixin.ErrorStack.constructor | mosaic/lib/Mixin/ErrorStrack.php:10 | a new stack holds no messages and `hasErrors` is false |
| Mixin.ErrorStack.AddError | mosaic/lib/Mixin/ErrorStrack.php:17-21 | the message is appended at the end; every earlier message stays where it was; `hasErrors` is true afterwards |
| Mixin.ErrorStack.HasErrors | mosaic/lib/Mixin/ErrorStrack.php:27-30 | true exactly when the list has at least one message |
| Mixin.ErrorStack.GetErrors | mosaic/lib/Mixin/ErrorStrack.php:36-39 | returns the current list and changes nothing; the list is non-empty exactly when `hasErrors` holds |
| Mixin.ErrorStack.ClearErrors | mosaic/lib/Mixin/ErrorStrack.php:45-49 | the list is empty and `hasErrors` is false afterwards |
| MapCommand.FillMap | mosaic/lib/Cli/Command/Map.php:21-36 | the loop's grid is `FileMap`: the basenames of the first `StoredCount` names, laid out row-major `width` to a row |
| MapCommand.CountersStep | mosaic/lib/Cli/Command/Map.php:29-35 | one pass of the body keeps `$x`/`$y` consistent with the number of names stored, and keeps the written cell just past the last entry |
| MapCommand.FileMapAt | mosaic/lib/Cli/Command/Map.php:29-35 | for `width >= 1`, the k-th stored name is at `[k div width][k mod width]`, as its basename |
| MapCommand.FileMapEntries | mosaic/lib/Cli/Command/Map.php:25-29 | the grid read row by row is the basenames of the stored names, in input order |
| MapCommand.StoredAtMost | mosaic/lib/Cli/Command/Map.php:26-28 | with `width >= 1` and `height >= 0`, at most `width * height` names are stored |
| MapCommand.FileMapRows | mosaic/lib/Cli/Command/Map.php:26-35 | at most `height` rows exist; every row but the last holds exactly `width` names; the last holds between 1 and `width` |
| MapCommand.FileMapOfZeroHeight | mosaic/lib/Cli/Command/Map.php:26-28 | with height 0 the loop breaks before storing anything: the map is empty |
| MapCommand.FileMapOfNarrowWidth | mosaic/lib/Cli/Command/Map.php:30-35 | with width below 1, `$x` never equals `width - 1`: every name stored is in row 0 |
| MapCommand.ChunkAt | mosaic/lib/Cli/Command/Map.php:29-35 | in the row-major layout, entry k is at row `k div width`, column `k mod width` |
| MapCommand.ChunkShape | mosaic/lib/Cli/Command/Map.php:30-35 | the layout has no rows exactly for no names; all rows but the last are full; the row count matches the number of names |
| MapCommand.FlattenChunk | mosaic/lib/Cli/Command/Map.php:29-35 | reading the layout's rows in order gives back the names |
| MapCommand.ChunkOfNarrowWidth | mosaic/lib/Cli/Command/Map.php:30-35 | a row width below 1 never fills: one row holds everything |
| StitchMap.LoadStitchMap | mosaic/lib/Image/Stitch.php:215-259 | the loop returns exactly `LoadMap`: the same exception, or the same tiles, block counts and cell size |
| StitchMap.OpenRow | mosaic/lib/Image/Stitch.php:239-252 | the inner loop fails exactly when a file of the row is missing, naming the first one; otherwise it yields each file's image in order and folds their sizes into the running maxima |
| StitchMap.LoadedRowsStep | mosaic/lib/Image/Stitch.php:227-253 | a row with no defect, once opened, extends the rows checked, the tiles and the maxima by that row |
| StitchMap.LoadedRowsReject | mosaic/lib/Image/Stitch.php:229-241 | a defect in the next row is the exception the whole map is refused with |
| StitchMap.LoadedRowsAll | mosaic/lib/Image/Stitch.php:255-259 | after the last row, the stored values are the loaded tiles, the first row's length, the row count and the maxima |
| StitchMap.LoadMapSucceedsIff | mosaic/lib/Image/Stitch.php:221-242 | a map loads exactly when it has a row, no row is empty, all rows have the first row's length and every file exists |
| StitchMap.LoadMapErrors | mosaic/lib/Image/Stitch.php:221-241 | no rows gives the "at least 1 row" error, and only then; an empty row or a wrong column count (1-based row number) is reported only when every earlier row has the first row's width and all its files exist; a missing file is reported only when the rows up to and including its own have that width, every file of earlier rows exists, and so do the files before it in its row |
| StitchMap.FirstBadRow | mosaic/lib/Image/Stitch.php:227-242 | the reported defect belongs to the first row that has one; every row above it is clean |
| StitchMap.FirstMissingFile | mosaic/lib/Image/Stitch.php:239-242 | the missing file reported is the first in its row; every file before it exists |
| StitchMap.LoadMapTiles | mosaic/lib/Image/Stitch.php:250-259 | after a load, `horizontalBlocks` is the first row's length and `verticalBlocks` the row count; the tiles form that grid; each tile is the image at its path |
| StitchMap.LoadMapCell | mosaic/lib/Image/Stitch.php:244-249 | after a load, no tile is wider or taller than the cell, and some tile reaches the cell's width and some its height |
| StitchMap.TileFitsCell | mosaic/lib/Image/Stitch.php:244-249 | every tile is within the largest width and height over the grid |
| StitchMap.CellStep | mosaic/lib/Image/Stitch.php:244-249 | the running maxima folded over one more row are the maxima of the grid with that row |
| StitchMap.TilesBeforeAt | mosaic/lib/Image/Stitch.php:250 | row y of the loaded tiles is the images of row y's paths |
| StitchLayout.ShiftRight1 | mosaic/lib/Image/Stitch.php:547 | `v >> 1` halves rounding down: `2r <= v < 2r + 2` |
| StitchLayout.GetBlockOfFittingTile | mosaic/lib/Image/Stitch.php:543-551 | a tile no larger than the target comes back exactly target-sized: unchanged when already that size, otherwise on a background patch with margins differing by at most one, the odd pixel to the right or bottom |
| StitchLayout.GetBlockOfOversizedTile | mosaic/lib/Image/Stitch.php:529-551 | a tile larger in some axis is resized to the target, or cropped to its top-left region and then padded like a fitting tile |
| StitchLayout.GetBlockSize | mosaic/lib/Image/Stitch.php:529-551 | with a valid strategy the block is always exactly the target size |
| StitchLayout.CellPictureShape | mosaic/lib/Image/Stitch.php:189-197 | every pasted block is `totalCellWidth x totalCellHeight`; with a border the cell-sized block sits at `(bw, bw)` on a border-coloured canvas with `bw` on every side; without one the block is used as is |
| StitchLayout.AxisLengthClosedForm | mosaic/lib/Image/Stitch.php:172-177 | both branches of the size ternary are `N` cells plus `N - 1` gaps |
| StitchLayout.PastesBeforeAt | mosaic/lib/Image/Stitch.php:188-201 | the xx-th paste of a row is that column's cell |
| StitchLayout.PasteRowsBeforeAt | mosaic/lib/Image/Stitch.php:187-205 | the yy-th row of pastes is row yy's pastes |
| StitchLayout.PasteGridAt | mosaic/lib/Image/Stitch.php:187-205 | the paste recorded for cell (xx, yy) is that cell's picture at its offsets |
| StitchLayout.PasteOrigin | mosaic/lib/Image/Stitch.php:185-203 | since `$x` restarts at 0 on each row, cell (xx, yy) is pasted at `(xx*(tcw+hg), yy*(tch+vg))` |
| StitchLayout.CompositePlacement | mosaic/lib/Image/Stitch.php:185-205 | the canvas gets `vb*hb` pastes in row-major order; entry `yy*hb + xx` is tile (xx, yy)'s cell picture at its origin |
| StitchLayout.AxisInside | mosaic/lib/Image/Stitch.php:172-177 | along one axis each cell starts within the canvas and ends by its edge; the last cell ends exactly at the edge |
| StitchLayout.BlocksInsideCanvas | mosaic/lib/Image/Stitch.php:166-205 | every pasted block lies on the canvas; the last column and the last row end exactly at its edges |
| StitchLayout.BlocksDisjoint | mosaic/lib/Image/Stitch.php:185-203 | blocks of two different cells share no pixel |
| StitchLayout.StrategyUnusedWhenCellIsMax | mosaic/lib/Image/Stitch.php:529-541 | with the cell set to the largest tile width and height, the `sx < 0 \|\| sy < 0` branch never fires; the composite is the same for every strategy |
| Stitch.ValidColorShape | mosaic/lib/Image/Stitch.php:46 | in terms of characters only: a colour is accepted exactly when it is 4, 5, 7 or 8 characters long, starts with `#`, ends in a newline when 5 or 8 long, and has hex digits everywhere else, that is `#` plus 3 or 6 hex digits and at most one newline (the `$` without the D modifier) |
| Stitch.ColorExamples | mosaic/lib/Image/Stitch.php:559-562 | `#FFFFFF`, `#abc` and `#fff` followed by a newline are accepted; `red`, `#12`, `#GGGGGG`, the empty string, two trailing newlines and `#ffff` are refused |
| Stitch.DefaultConfigValid | mosaic/lib/Image/Stitch.php:88-108 | the defaults (white colours, resize strategy, empty map) satisfy the stitcher invariant |
| Stitch.SettersPreserveValid | mosaic/lib/Image/Stitch.php:297-449 | every setter that succeeds leaves a valid strategy, valid colours and a map whose cell is its largest tile |
| Stitch.StitchMapKeepsValid | mosaic/lib/Image/Stitch.php:255-259 | a successful map load keeps the stitcher valid |
| Stitch.ApplyOptionalsOutcome | mosaic/lib/Image/Stitch.php:139-150 | the optional setters throw the first failing check's exception; they touch only their four fields; with no exception every given value is stored and every null leaves its field |
| Stitch.InitializeOutcome | mosaic/lib/Image/Stitch.php:129-152 | initialize throws exactly the first failing check's exception, in the source's order; on success every field is as given or kept; a rejected map changes nothing; a later failure keeps the loaded map |
| Stitch.InitializeReachesOptionals | mosaic/lib/Image/Stitch.php:134-150 | once the map, both gaps and the output file are accepted, the result is the optional setters' applied to those settings |
| Stitch.InitializeStopsEarly | mosaic/lib/Image/Stitch.php:134-137 | when the map or a required setting is refused, initialize stops with that exception |
| Stitch.Stitcher.constructor | mosaic/lib/Image/Stitch.php:53-108 | a new stitcher has the declared defaults and is valid |
| Stitch.Stitcher.SetStitchMap | mosaic/lib/Image/Stitch.php:215-262 | on success the five map fields are the loaded values; on an exception nothing changes |
| Stitch.Stitcher.SetHorizontalGap | mosaic/lib/Image/Stitch.php:297-305 | a negative gap throws and changes nothing; otherwise it is stored |
| Stitch.Stitcher.SetVerticalGap | mosaic/lib/Image/Stitch.php:313-321 | a negative gap throws and changes nothing; otherwise it is stored |
| Stitch.Stitcher.SetOutputFile | mosaic/lib/Image/Stitch.php:347-354 | `""` and `"0"` (PHP `empty`) throw; anything else is stored |
| Stitch.Stitcher.SetBackgroundColor | mosaic/lib/Image/Stitch.php:371-378 | an invalid colour throws and changes nothing; a valid one is stored |
| Stitch.Stitcher.SetBorderColor | mosaic/lib/Image/Stitch.php:395-402 | an invalid colour throws and changes nothing; a valid one is stored |
| Stitch.Stitcher.SetStrategy | mosaic/lib/Image/Stitch.php:418-424 | only codes 1 and 2 are accepted and stored; any other throws |
| Stitch.Stitcher.SetBorderWidth | mosaic/lib/Image/Stitch.php:441-449 | a negative width throws and changes nothing; otherwise it is stored |
| Stitch.Stitcher.Initialize | mosaic/lib/Image/Stitch.php:129-152 | the fields afterwards and the exception are those of `InitializeConfig`, the setters in the source's order |
| Stitch.Stitcher.SetOptionals | mosaic/lib/Image/Stitch.php:139-150 | each non-null optional's setter runs in order, stopping at the first exception |
| Stitch.Stitcher.Stitch | mosaic/lib/Image/Stitch.php:158-207 | the canvas built by the nested loop is `Composite`: its size from the ternaries, the background colour, and one paste per cell in row-major order; it is saved to the output file |
| Stitch.Stitcher.CanvasSize | mosaic/lib/Image/Stitch.php:166-177 | the canvas width and height are `AxisLength` along each axis, and with `N >= 1` blocks on an axis that length is `N` cells plus `N - 1` gaps |
| Stitch.Stitcher.PasteRowAt | mosaic/lib/Image/Stitch.php:188-201 | the inner loop's pastes are row yy's, with `$x` advancing by one cell and one gap per column |
| Slice.SplitExtensionSpec | mosaic/lib/Image/Slice.php:239-253 | the extension is the text after the last `.` and holds no `.`; the name is everything before it, directory included; with no `.` the extension is the whole path and the name empty |
| Slice.PlaceholdersAreSeparate | mosaic/lib/Image/Slice.php:12-15 | each placeholder is `{`, brace-free text, `}` |
| Slice.ReplaceParts | mosaic/lib/Image/Slice.php:242-256 | one `str_replace` pass over a mask made of placeholders and brace-free text replaces exactly the parts equal to the search string |
| Slice.DefaultMaskFileName | mosaic/lib/Image/Slice.php:242-256 | the default mask gives `<name>-<column>-<row>.<extension>` when name and extension hold no `{` |
| Slice.RescannedName | mosaic/lib/Image/Slice.php:242-256 | replacement is sequential: an image named `{width}.ext` gets `<column>-<column>-<row>.ext` |
| Slice.RescannedExample | mosaic/lib/Image/Slice.php:242-256 | `{width}.png` at column 2, row 3 is saved as `2-2-3.png` |
| Slice.DefaultMaskOfSimpleName | mosaic/lib/Image/Slice.php:242-256 | the default mask on a plain `name.ext` without `{` gives `name-<column>-<row>.ext` |
| Slice.DefaultMaskExample | mosaic/lib/Image/Slice.php:242-256 | `foo.png` at column 2, row 3 is saved as `foo-2-3.png` |
| Slice.MapEntryIgnoresDirectory | mosaic/lib/Image/Slice.php:258-259 | joining the output directory in front does not change the basename the map records |
| Slice.DefaultMaskNames | mosaic/lib/Image/Slice.php:237-259 | under the default mask, block (xx, yy) is saved as the output directory joined with `<name>-<xx+1>-<yy+1>.<ext>` |
| Slice.InitializeSlicerOutcome | mosaic/lib/Image/Slice.php:56-67 | initialize fails with "not found" exactly when the file is missing. It fails with the width error exactly when the count is outside `[1, width]`, then the height error likewise. Directory and mask errors come only after both counts fit. It succeeds exactly when every check passes, and then stores image, name, counts and resolved directory; the mask never changes |
| Slice.BlockSizeBounds | mosaic/lib/Image/Slice.php:87-88 | with accepted counts each block is at least 1 x 1, `hb*bw <= w < hb*bw + hb` and `vb*bh <= h < vb*bh + vb` |
| Slice.SliceCropOrder | mosaic/lib/Image/Slice.php:90-103 | there are `vb*hb` crops in row-major order; crop `yy*hb + xx` is block (xx, yy) |
| Slice.SliceFileMap | mosaic/lib/Image/Slice.php:92-100 | the map has `vb` rows of `hb` entries; entry `[yy][xx]` is the basename of block (xx, yy)'s output name |
| Slice.CropOrigin | mosaic/lib/Image/Slice.php:90-103 | block (xx, yy) starts at `(xx*bw, yy*bh)` and has size `(bw, bh)` |
| Slice.CropInside | mosaic/lib/Image/Slice.php:90-103 | every crop lies inside the source image |
| Slice.CropsDisjoint | mosaic/lib/Image/Slice.php:90-103 | crops of different cells share no pixel |
| Slice.CropsCover | mosaic/lib/Image/Slice.php:87-103 | every pixel in the first `hb*bw` columns and `vb*bh` rows is in block `(px div bw, py div bh)` |
| Slice.RemainderUncovered | mosaic/lib/Image/Slice.php:87-103 | the leftover right columns and bottom rows belong to no block |
| Slice.Slicer.constructor | mosaic/lib/Image/Slice.php:20-45 | a new slicer has no image, empty name and directory, zero counts and the default mask |
| Slice.Slicer.SetImage | mosaic/lib/Image/Slice.php:113-122 | an existing file is opened and its name stored; a missing one throws and changes nothing |
| Slice.Slicer.SetHorizontalBlocks | mosaic/lib/Image/Slice.php:146-154 | a count outside `[1, image width]` throws and changes nothing; otherwise it is stored |
| Slice.Slicer.SetVerticalBlocks | mosaic/lib/Image/Slice.php:130-138 | a count outside `[1, image height]` throws and changes nothing; otherwise it is stored |
| Slice.Slicer.SetOutputDirectory | mosaic/lib/Image/Slice.php:212-220 | the resolved path is stored when it is a directory; otherwise it throws with the resolved path (empty when the path does not resolve) |
| Slice.Slicer.SetMask | mosaic/lib/Image/Slice.php:180-186 | an empty mask throws; no mask is ever stored |
| Slice.Slicer.Initialize | mosaic/lib/Image/Slice.php:56-67 | the fields afterwards and the exception are those of `InitializeSlicer`, the setters in the source's order |
| Slice.Slicer.Slice | mosaic/lib/Image/Slice.php:73-105 | without an image it throws "not initialized"; otherwise the nested loop's crops and map are `SliceOf` the settings |
| Slice.Slicer.SliceRow | mosaic/lib/Image/Slice.php:93-100 | the inner loop yields row yy's crops, with `$x` advancing by one block width, and their basenames |
| Php.BasenameSpec | mosaic/lib/Image/Slice.php:99 | `basename` drops exactly the path's trailing run of `/` and then yields the last component: no `/`, the text after the last remaining `/` |
| Php.ImplodeExplode | mosaic/lib/Image/Slice.php:239-250 | imploding the exploded pieces with the same separator gives the path back |
| Php.NatToString | mosaic/lib/Image/Slice.php:251-252 | a column or row number becomes a non-empty string of decimal digits that denotes it, with no leading zero unless it is 0 |
| Php.NatToStringCanonical | mosaic/lib/Image/Slice.php:251-252 | every digit string without a leading zero is the decimal form of the number it denotes, so the decimal form is unique |

## Left out

- Pixel work (the image library's `open`, `resize`, `crop`, `paste`, `create`, `save`, colour palettes). Images are sizes, and a composite records its pastes.
- The file system (`file_exists`, `realpath`, `is_dir`, `glob`, `file_put_contents`) and JSON. These are parameters: a size map, a realpath map, a directory set, and the glob result as a sequence. The written map is returned.
- The command-line layer: option parsing, the entry scripts, printing and exit codes. A null option is `None`.
- `setCellWidth`/`setCellHeight` (mosaic/lib/Image/Stitch.php:466-499): nothing in the stitcher calls them.
- The `isset` check in `getBlock` (mosaic/lib/Image/Stitch.php:522-524): `stitch` only asks for cells of the loaded grid, so it never fires.
- The `(int)` casts of gaps, border width and block counts, and PHP's loose comparisons (`in_array` in `setStrategy`, `==` on the map command's height and width). Arguments are modelled as integers already.
- The library's own reaction to the sizes and colours it is handed. Two cases: a zero-size box when every tile is 0 pixels, and a colour with a trailing newline that the regex accepts.
- `getBlock` resizes or crops the stored tile object in place. Since that branch never runs from `stitch`, the model returns a new picture instead.
- The crop strategy assumes the library clamps the region to the tile. So a crop is `min(tile, target)` in each axis.
- `addError` and `clearErrors` return `$this` for chaining; the model's methods return nothing. Errors are strings.
- `stitch` computes the canvas size before its loop; the model computes it after. Nothing in the loop depends on it.
- Slice.Slicer.Slice: requires block counts of at least 1 when an image is set. The source would divide by zero otherwise. A partly failed `initialize` can leave an image set with 0 blocks (`setImage` succeeds, `setHorizontalBlocks` then throws), so the requirement does not always hold; a successful `initialize` establishes it (`Slice.InitializeSlicerOutcome`), and the command line calls `slice` only after one (mosaic/lib/Cli/Command/Slice.php:24-25).
- Slice.Slicer.SetHorizontalBlocks: requires an image to be set. The source would call a method of null otherwise; `initialize` sets the image first.
- Slice.Slicer.SetVerticalBlocks: requires an image to be set, for the same reason.
- Stitch.Stitcher setters and Stitch.Stitcher.Initialize require `Valid()`. This is the class invariant: the constructor establishes it and every setter keeps it.
- Stitch.Stitcher.Stitch: requires only that the map is a `verticalBlocks x horizontalBlocks` grid. `Valid()` implies this, and the stitcher keeps the grid that way.
