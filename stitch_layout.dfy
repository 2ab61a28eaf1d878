/**
 * The geometry of stitching (mosaic/lib/Image/Stitch.php, stitch and
 * getBlock): how each tile is reconciled with the cell, centred on a
 * background patch, wrapped in a border, and where it is pasted on the canvas.
 *
 * Pixels are never modelled. A picture records how it was produced from the
 * tiles (opened, resized, cropped, pasted onto a patch), and a canvas records
 * its size, its fill colour and the pastes made onto it, in order.
 */
module StitchLayout {
  import opened Geometry
  import opened StitchMap

  const STRATEGY_CROP: int := 1
  const STRATEGY_RESIZE: int := 2

  predicate IsStrategy(strategy: int) { strategy == STRATEGY_CROP || strategy == STRATEGY_RESIZE }

  datatype Picture =
    | Opened(size: Size)
      /** stretched to exactly `size` (Imagine's resize) */
    | Resized(source: Picture, size: Size)
      /** the top-left `size` region of `source`; the image library keeps the region within the source */
    | Cropped(source: Picture, size: Size)
      /** a new `size` canvas filled with `color`, `inner` pasted at (x, y) */
    | Patch(size: Size, color: string, inner: Picture, x: int, y: int)

  datatype Paste = Paste(picture: Picture, x: int, y: int)

  datatype Canvas = Canvas(size: Size, background: string, pastes: seq<Paste>)

  /** The stitcher's settings that the geometry depends on. */
  datatype Layout = Layout(
    horizontalBlocks: nat,
    verticalBlocks: nat,
    cellWidth: nat,
    cellHeight: nat,
    horizontalGap: nat,
    verticalGap: nat,
    borderWidth: nat,
    background: string,
    borderColor: string,
    strategy: int)

  function TotalCellWidth(lay: Layout): nat { lay.cellWidth + 2 * lay.borderWidth }

  function TotalCellHeight(lay: Layout): nat { lay.cellHeight + 2 * lay.borderWidth }

  /** PHP's `v >> 1` on an integer: an arithmetic shift, so halving rounded down. */
  function ShiftRight1(v: int): (r: int)
    ensures 2 * r <= v < 2 * r + 2
  {
    v / 2
  }

  // ---------------------------------------------------------------------
  // getBlock
  // ---------------------------------------------------------------------

  /** The fit strategy of getBlock, applied to a tile that exceeds the target in some axis. */
  function ApplyStrategy(image: Picture, pixelWidth: nat, pixelHeight: nat, strategy: int): Picture
  {
    if strategy == STRATEGY_RESIZE then Resized(image, Size(pixelWidth, pixelHeight))
    else if strategy == STRATEGY_CROP then
      Cropped(image, Size(Min(image.size.width, pixelWidth), Min(image.size.height, pixelHeight)))
    else image
  }

  /**
   * getBlock for one tile: apply the strategy when the tile exceeds the target
   * in either axis, then, if it is smaller in either axis, centre it on a
   * background patch of exactly the target size.
   */
  function GetBlock(tile: Size, pixelWidth: nat, pixelHeight: nat, strategy: int, background: string): Picture
  {
    var original := Opened(tile);
    var image := if pixelWidth - tile.width < 0 || pixelHeight - tile.height < 0
      then ApplyStrategy(original, pixelWidth, pixelHeight, strategy) else original;
    var sx := pixelWidth - image.size.width;
    var sy := pixelHeight - image.size.height;
    if sx > 0 || sy > 0 then
      Patch(Size(pixelWidth, pixelHeight), background, image, ShiftRight1(sx), ShiftRight1(sy))
    else image
  }

  /** `inner` is pasted on `p` with a margin of `before` on one side and `after` on the other, the two within one pixel. */
  predicate Centred(before: int, inner: int, outer: int)
  {
    0 <= before && before + inner <= outer && before <= outer - inner - before <= before + 1
  }

  /**
   * A tile no larger than the target comes back exactly the target size:
   * unchanged when it already is, otherwise centred on a background patch
   * with any odd pixel of slack on the right or bottom.
   */
  lemma GetBlockOfFittingTile(tile: Size, pixelWidth: nat, pixelHeight: nat, strategy: int, background: string)
    requires tile.width <= pixelWidth && tile.height <= pixelHeight
    ensures var r := GetBlock(tile, pixelWidth, pixelHeight, strategy, background);
      && r.size == Size(pixelWidth, pixelHeight)
      && (tile == Size(pixelWidth, pixelHeight) ==> r == Opened(tile))
      && (tile != Size(pixelWidth, pixelHeight) ==>
            && r.Patch? && r.inner == Opened(tile) && r.color == background
            && Centred(r.x, tile.width, pixelWidth) && Centred(r.y, tile.height, pixelHeight))
  {
  }

  /**
   * A tile larger than the target in some axis goes through the strategy:
   * resize stretches it to the target, crop keeps its top-left region, clamped
   * to the tile and then padded like a fitting tile.
   */
  lemma GetBlockOfOversizedTile(tile: Size, pixelWidth: nat, pixelHeight: nat, strategy: int, background: string)
    requires tile.width > pixelWidth || tile.height > pixelHeight
    requires IsStrategy(strategy)
    ensures var r := GetBlock(tile, pixelWidth, pixelHeight, strategy, background);
      && r.size == Size(pixelWidth, pixelHeight)
      && (strategy == STRATEGY_RESIZE ==> r == Resized(Opened(tile), Size(pixelWidth, pixelHeight)))
      && (strategy == STRATEGY_CROP ==>
            var cropped := Cropped(Opened(tile), Size(Min(tile.width, pixelWidth), Min(tile.height, pixelHeight)));
            r == cropped || (r.Patch? && r.inner == cropped && Centred(r.x, cropped.size.width, pixelWidth)
                                                            && Centred(r.y, cropped.size.height, pixelHeight)))
  {
  }

  /** With a valid strategy getBlock always yields a picture of exactly the target size. */
  lemma GetBlockSize(tile: Size, pixelWidth: nat, pixelHeight: nat, strategy: int, background: string)
    requires IsStrategy(strategy)
    ensures GetBlock(tile, pixelWidth, pixelHeight, strategy, background).size == Size(pixelWidth, pixelHeight)
  {
    if tile.width <= pixelWidth && tile.height <= pixelHeight {
      GetBlockOfFittingTile(tile, pixelWidth, pixelHeight, strategy, background);
    } else {
      GetBlockOfOversizedTile(tile, pixelWidth, pixelHeight, strategy, background);
    }
  }

  // ---------------------------------------------------------------------
  // the cell: getBlock plus the optional border
  // ---------------------------------------------------------------------

  /** The block pasted for one tile: getBlock, wrapped in a border-coloured canvas when the border is positive. */
  function CellPicture(tile: Size, lay: Layout): Picture
  {
    var block := GetBlock(tile, lay.cellWidth, lay.cellHeight, lay.strategy, lay.background);
    if lay.borderWidth > 0 then
      Patch(Size(TotalCellWidth(lay), TotalCellHeight(lay)), lay.borderColor, block, lay.borderWidth, lay.borderWidth)
    else block
  }

  /**
   * Every pasted block is totalCellWidth x totalCellHeight; with a border the
   * cell-sized block sits at (borderWidth, borderWidth) of a border-coloured
   * canvas, leaving exactly borderWidth on every side; without one the block is used as it is.
   */
  lemma CellPictureShape(tile: Size, lay: Layout)
    requires IsStrategy(lay.strategy)
    ensures var r := CellPicture(tile, lay);
      && r.size == Size(TotalCellWidth(lay), TotalCellHeight(lay))
      && (lay.borderWidth > 0 ==>
            && r.Patch? && r.color == lay.borderColor && r.x == lay.borderWidth && r.y == lay.borderWidth
            && r.inner.size == Size(lay.cellWidth, lay.cellHeight)
            && r.x + r.inner.size.width + lay.borderWidth == r.size.width
            && r.y + r.inner.size.height + lay.borderWidth == r.size.height)
      && (lay.borderWidth == 0 ==> r == GetBlock(tile, lay.cellWidth, lay.cellHeight, lay.strategy, lay.background))
  {
    GetBlockSize(tile, lay.cellWidth, lay.cellHeight, lay.strategy, lay.background);
  }

  // ---------------------------------------------------------------------
  // canvas size and placement
  // ---------------------------------------------------------------------

  /** The canvas length along one axis, as stitch computes it. */
  function AxisLength(blocks: nat, totalCell: nat, gap: nat): nat
  {
    if blocks > 1 then (blocks - 1) * (totalCell + gap) + totalCell else totalCell
  }

  /** The ternary's two branches agree: `blocks` cells and `blocks - 1` gaps. */
  lemma AxisLengthClosedForm(blocks: nat, totalCell: nat, gap: nat)
    requires blocks >= 1
    ensures AxisLength(blocks, totalCell, gap) == blocks * totalCell + (blocks - 1) * gap
  {
    if blocks > 1 {
      assert (blocks - 1) * (totalCell + gap) == (blocks - 1) * totalCell + (blocks - 1) * gap;
    }
  }

  /** The source's ternary for one axis is `AxisLength`, hence `blocks` cells and one gap fewer. */
  lemma AxisTernary(blocks: nat, totalCell: nat, gap: nat, t: int)
    requires t == if blocks > 1 then (blocks - 1) * (totalCell + gap) + totalCell else totalCell
    ensures t == AxisLength(blocks, totalCell, gap)
    ensures blocks >= 1 ==> t == blocks * totalCell + (blocks - 1) * gap
  {
    if blocks >= 1 {
      AxisLengthClosedForm(blocks, totalCell, gap);
    }
  }

  /** The paste for cell (xx, yy): its cell picture, one cell and one gap per step from the origin. */
  function PasteAt(tiles: seq<seq<Size>>, lay: Layout, xx: nat, yy: nat): Paste
    requires yy < |tiles| && xx < |tiles[yy]|
  {
    Paste(CellPicture(tiles[yy][xx], lay),
          Scale(xx, TotalCellWidth(lay) + lay.horizontalGap), Scale(yy, TotalCellHeight(lay) + lay.verticalGap))
  }

  /** The pastes of row `yy`: the x offset restarts at 0 and advances by one cell and one gap per column. */
  function PasteRow(tiles: seq<seq<Size>>, lay: Layout, yy: nat): seq<Paste>
    requires yy < |tiles| && |tiles[yy]| == lay.horizontalBlocks
  {
    PastesBefore(tiles, lay, yy, lay.horizontalBlocks)
  }

  /** The first `n` pastes of row `yy`. */
  function PastesBefore(tiles: seq<seq<Size>>, lay: Layout, yy: nat, n: nat): (r: seq<Paste>)
    requires yy < |tiles| && n <= |tiles[yy]|
    ensures |r| == n
  {
    if n == 0 then [] else PastesBefore(tiles, lay, yy, n - 1) + [PasteAt(tiles, lay, n - 1, yy)]
  }

  lemma {:induction false} PastesBeforeAt(tiles: seq<seq<Size>>, lay: Layout, yy: nat, n: nat, xx: nat)
    requires yy < |tiles| && n <= |tiles[yy]| && xx < n
    ensures PastesBefore(tiles, lay, yy, n)[xx] == PasteAt(tiles, lay, xx, yy)
  {
    if xx < n - 1 {
      PastesBeforeAt(tiles, lay, yy, n - 1, xx);
    }
  }

  /** The pastes of every row, top row first. */
  function PasteGrid(tiles: seq<seq<Size>>, lay: Layout): seq<seq<Paste>>
    requires |tiles| == lay.verticalBlocks && Uniform(tiles, lay.horizontalBlocks)
  {
    PasteRowsBefore(tiles, lay, lay.verticalBlocks)
  }

  /** The pastes of the first `n` rows. */
  function PasteRowsBefore(tiles: seq<seq<Size>>, lay: Layout, n: nat): (r: seq<seq<Paste>>)
    requires n <= |tiles| && Uniform(tiles, lay.horizontalBlocks)
    ensures |r| == n && Uniform(r, lay.horizontalBlocks)
  {
    if n == 0 then [] else PasteRowsBefore(tiles, lay, n - 1) + [PasteRow(tiles, lay, n - 1)]
  }

  lemma {:induction false} PasteRowsBeforeAt(tiles: seq<seq<Size>>, lay: Layout, n: nat, yy: nat)
    requires n <= |tiles| && Uniform(tiles, lay.horizontalBlocks) && yy < n
    ensures PasteRowsBefore(tiles, lay, n)[yy] == PasteRow(tiles, lay, yy)
  {
    if yy < n - 1 {
      PasteRowsBeforeAt(tiles, lay, n - 1, yy);
    }
  }

  /** The paste for cell (xx, yy) in the grid. */
  lemma PasteGridAt(tiles: seq<seq<Size>>, lay: Layout, xx: nat, yy: nat)
    requires |tiles| == lay.verticalBlocks && Uniform(tiles, lay.horizontalBlocks)
    requires xx < lay.horizontalBlocks && yy < lay.verticalBlocks
    ensures PasteGrid(tiles, lay)[yy][xx] == PasteAt(tiles, lay, xx, yy)
  {
    PasteRowsBeforeAt(tiles, lay, lay.verticalBlocks, yy);
    PastesBeforeAt(tiles, lay, yy, lay.horizontalBlocks, xx);
  }

  /** The composite stitch produces: background canvas plus the pastes in row-major order. */
  function Composite(tiles: seq<seq<Size>>, lay: Layout): Canvas
    requires |tiles| == lay.verticalBlocks && Uniform(tiles, lay.horizontalBlocks)
  {
    Canvas(
      Size(AxisLength(lay.horizontalBlocks, TotalCellWidth(lay), lay.horizontalGap),
           AxisLength(lay.verticalBlocks, TotalCellHeight(lay), lay.verticalGap)),
      lay.background,
      Flatten(PasteGrid(tiles, lay)))
  }

  function PasteRect(p: Paste): Rect
  {
    Rect(p.x, p.y, p.picture.size.width, p.picture.size.height)
  }

  /** The paste for (xx, yy) is made at (xx*(tcw+hg), yy*(tch+vg)). */
  lemma PasteOrigin(tiles: seq<seq<Size>>, lay: Layout, xx: nat, yy: nat)
    requires yy < |tiles| && xx < |tiles[yy]|
    ensures PasteAt(tiles, lay, xx, yy).x == xx * (TotalCellWidth(lay) + lay.horizontalGap)
    ensures PasteAt(tiles, lay, xx, yy).y == yy * (TotalCellHeight(lay) + lay.verticalGap)
  {
    ScaleIsProduct(xx, TotalCellWidth(lay) + lay.horizontalGap);
    ScaleIsProduct(yy, TotalCellHeight(lay) + lay.verticalGap);
  }

  /**
   * The canvas receives one paste per cell, in row-major order: the paste for
   * (xx, yy) is entry yy*hb + xx, that tile's cell picture at the placement PasteOrigin gives.
   */
  lemma CompositePlacement(tiles: seq<seq<Size>>, lay: Layout, xx: nat, yy: nat)
    requires |tiles| == lay.verticalBlocks && Uniform(tiles, lay.horizontalBlocks)
    requires xx < lay.horizontalBlocks && yy < lay.verticalBlocks
    ensures var c := Composite(tiles, lay);
      && |c.pastes| == lay.verticalBlocks * lay.horizontalBlocks
      && yy * lay.horizontalBlocks + xx < |c.pastes|
      && c.pastes[yy * lay.horizontalBlocks + xx] == PasteAt(tiles, lay, xx, yy)
      && c.pastes[yy * lay.horizontalBlocks + xx].picture == CellPicture(tiles[yy][xx], lay)
  {
    FlattenAt(PasteGrid(tiles, lay), lay.horizontalBlocks, xx, yy);
    PasteGridAt(tiles, lay, xx, yy);
  }

  /** One axis of a block: it starts within the canvas and the last one ends exactly at the edge. */
  lemma AxisInside(k: nat, blocks: nat, totalCell: nat, gap: nat)
    requires k < blocks
    ensures 0 <= k * (totalCell + gap)
    ensures k * (totalCell + gap) + totalCell <= AxisLength(blocks, totalCell, gap)
    ensures k == blocks - 1 ==> k * (totalCell + gap) + totalCell == AxisLength(blocks, totalCell, gap)
  {
    MulMonotone(k, blocks - 1, totalCell + gap);
  }

  /** Every block lies on the canvas, and the last one in each direction ends exactly at its edge. */
  lemma BlocksInsideCanvas(tiles: seq<seq<Size>>, lay: Layout, xx: nat, yy: nat)
    requires |tiles| == lay.verticalBlocks && Uniform(tiles, lay.horizontalBlocks)
    requires xx < lay.horizontalBlocks && yy < lay.verticalBlocks && IsStrategy(lay.strategy)
    ensures var c := Composite(tiles, lay);
      var r := PasteRect(PasteGrid(tiles, lay)[yy][xx]);
      && Inside(r, c.size.width, c.size.height)
      && (xx == lay.horizontalBlocks - 1 ==> r.x + r.width == c.size.width)
      && (yy == lay.verticalBlocks - 1 ==> r.y + r.height == c.size.height)
  {
    PasteGridAt(tiles, lay, xx, yy);
    PasteOrigin(tiles, lay, xx, yy);
    CellPictureShape(tiles[yy][xx], lay);
    AxisInside(xx, lay.horizontalBlocks, TotalCellWidth(lay), lay.horizontalGap);
    AxisInside(yy, lay.verticalBlocks, TotalCellHeight(lay), lay.verticalGap);
  }

  /** With non-negative gaps no two blocks overlap. */
  lemma BlocksDisjoint(tiles: seq<seq<Size>>, lay: Layout, x1: nat, y1: nat, x2: nat, y2: nat)
    requires |tiles| == lay.verticalBlocks && Uniform(tiles, lay.horizontalBlocks) && IsStrategy(lay.strategy)
    requires x1 < lay.horizontalBlocks && y1 < lay.verticalBlocks
    requires x2 < lay.horizontalBlocks && y2 < lay.verticalBlocks
    requires (x1, y1) != (x2, y2)
    ensures var g := PasteGrid(tiles, lay); Disjoint(PasteRect(g[y1][x1]), PasteRect(g[y2][x2]))
  {
    PasteGridAt(tiles, lay, x1, y1);
    PasteGridAt(tiles, lay, x2, y2);
    PasteOrigin(tiles, lay, x1, y1);
    PasteOrigin(tiles, lay, x2, y2);
    CellPictureShape(tiles[y1][x1], lay);
    CellPictureShape(tiles[y2][x2], lay);
    var stepX := TotalCellWidth(lay) + lay.horizontalGap;
    var stepY := TotalCellHeight(lay) + lay.verticalGap;
    if x1 < x2 {
      PitchSeparates(x1, x2, stepX, TotalCellWidth(lay));
    } else if x2 < x1 {
      PitchSeparates(x2, x1, stepX, TotalCellWidth(lay));
    } else if y1 < y2 {
      PitchSeparates(y1, y2, stepY, TotalCellHeight(lay));
    } else {
      PitchSeparates(y2, y1, stepY, TotalCellHeight(lay));
    }
  }

  /**
   * When the cell is the largest tile width and height, as stitch arranges,
   * no tile exceeds it, so getBlock never applies the fit strategy and the
   * composite is the same whatever the strategy is.
   */
  lemma StrategyUnusedWhenCellIsMax(tiles: seq<seq<Size>>, lay: Layout, other: int)
    requires |tiles| == lay.verticalBlocks && Uniform(tiles, lay.horizontalBlocks)
    requires lay.cellWidth == MaxOf(Widths(Flatten(tiles))) && lay.cellHeight == MaxOf(Heights(Flatten(tiles)))
    ensures forall yy, xx :: 0 <= yy < |tiles| && 0 <= xx < |tiles[yy]| ==>
      !(lay.cellWidth - tiles[yy][xx].width < 0 || lay.cellHeight - tiles[yy][xx].height < 0)
    ensures Composite(tiles, lay) == Composite(tiles, lay.(strategy := other))
  {
    var lay' := lay.(strategy := other);
    forall yy, xx | 0 <= yy < |tiles| && 0 <= xx < |tiles[yy]|
      ensures tiles[yy][xx].width <= lay.cellWidth && tiles[yy][xx].height <= lay.cellHeight
    {
      TileFitsCell(tiles, xx, yy);
    }
    var g, g' := PasteGrid(tiles, lay), PasteGrid(tiles, lay');
    forall yy | 0 <= yy < lay.verticalBlocks
      ensures g[yy] == g'[yy]
    {
      forall xx | 0 <= xx < lay.horizontalBlocks
        ensures g[yy][xx] == g'[yy][xx]
      {
        PasteGridAt(tiles, lay, xx, yy);
        PasteGridAt(tiles, lay', xx, yy);
        assert tiles[yy][xx].width <= lay.cellWidth && tiles[yy][xx].height <= lay.cellHeight;
      }
    }
    assert g == g';
  }
}
