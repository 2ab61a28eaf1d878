/**
 * Integer geometry shared by slicing and stitching: image sizes, rectangles
 * on a pixel plane, and row-major grids flattened into sequences.
 */
module Geometry {

  /** The only thing the model knows about an image: its pixel dimensions. */
  datatype Size = Size(width: nat, height: nat)

  /** A rectangle with top-left corner (x, y). */
  datatype Rect = Rect(x: int, y: int, width: nat, height: nat)

  /** `r` lies within a `width` x `height` plane whose origin is (0, 0). */
  predicate Inside(r: Rect, width: int, height: int)
  {
    0 <= r.x && 0 <= r.y && r.x + r.width <= width && r.y + r.height <= height
  }

  /** Pixel (px, py) belongs to `r`. */
  predicate Covers(r: Rect, px: int, py: int)
  {
    r.x <= px < r.x + r.width && r.y <= py < r.y + r.height
  }

  /** No pixel belongs to both rectangles. */
  predicate Disjoint(a: Rect, b: Rect)
  {
    a.x + a.width <= b.x || b.x + b.width <= a.x || a.y + a.height <= b.y || b.y + b.height <= a.y
  }

  lemma DisjointMeansNoSharedPixel(a: Rect, b: Rect, px: int, py: int)
    requires Disjoint(a, b)
    ensures !(Covers(a, px, py) && Covers(b, px, py))
  {
  }

  // ---------------------------------------------------------------------
  // multiplication facts the grid proofs need
  // ---------------------------------------------------------------------

  lemma MulMonotone(a: int, b: int, w: int)
    requires a <= b && w >= 0
    ensures a * w <= b * w
  {
    assert b * w - a * w == (b - a) * w;
  }

  /** Cells `a < b` of pitch `step` at least `size`: the first ends before the second starts. */
  lemma PitchSeparates(a: int, b: int, step: int, size: int)
    requires a < b && 0 <= size <= step
    ensures a * step + size <= b * step
  {
    MulMonotone(a + 1, b, step);
    assert (a + 1) * step == a * step + step;
  }

  /** `k` steps of `step` from 0: the offset of cell `k` in a row of cells `step` apart. */
  function Scale(k: nat, step: nat): nat
  {
    if k == 0 then 0 else Scale(k - 1, step) + step
  }

  /** One more step. */
  lemma ScaleStep(k: nat, step: nat)
    ensures Scale(k + 1, step) == Scale(k, step) + step
  {
  }

  lemma {:induction false} ScaleIsProduct(k: nat, step: nat)
    ensures Scale(k, step) == k * step
  {
    if k > 0 {
      ScaleIsProduct(k - 1, step);
      assert (k - 1) * step + step == k * step;
    }
  }

  lemma {:induction false} ScaleMonotone(a: nat, b: nat, step: nat)
    requires a <= b
    ensures Scale(a, step) <= Scale(b, step)
    decreases b
  {
    if a < b {
      ScaleMonotone(a, b - 1, step);
    }
  }

  /** Truncating division of a size by a count: `n` whole parts fit, with less than `n` left over. */
  lemma DivFloor(w: nat, n: nat)
    requires n >= 1
    ensures n * (w / n) <= w < n * (w / n) + n
  {
    assert w == n * (w / n) + w % n;
  }

  /** Row-major coordinates are unique: `a*w + b == c*w + d` with `0 <= b, d < w` means `a == c` and `b == d`. */
  lemma GridCoordinatesUnique(a: int, b: int, c: int, d: int, w: int)
    requires 0 <= b < w && 0 <= d < w
    requires a * w + b == c * w + d
    ensures a == c && b == d
  {
    if a < c {
      PitchSeparates(a, c, w, w);
    } else if c < a {
      PitchSeparates(c, a, w, w);
    }
  }

  // ---------------------------------------------------------------------
  // row-major flattening
  // ---------------------------------------------------------------------

  /** The rows of a grid laid end to end, top row first. */
  function Flatten<T>(rows: seq<seq<T>>): seq<T>
    decreases |rows|
  {
    if rows == [] then [] else Flatten(rows[..|rows| - 1]) + rows[|rows| - 1]
  }

  lemma FlattenSnoc<T>(rows: seq<seq<T>>, row: seq<T>)
    ensures Flatten(rows + [row]) == Flatten(rows) + row
  {
    assert (rows + [row])[..|rows|] == rows;
  }

  /** A prefix one longer is the prefix and the next element. */
  lemma PrefixSnoc<T>(q: seq<T>, k: nat)
    requires k < |q|
    ensures q[..k + 1] == q[..k] + [q[k]]
  {
  }

  predicate Uniform<T>(rows: seq<seq<T>>, cols: nat)
  {
    forall y :: 0 <= y < |rows| ==> |rows[y]| == cols
  }

  /** In a grid of `cols` columns, cell (xx, yy) is entry `yy*cols + xx` of the flattened grid. */
  lemma {:induction false} FlattenAt<T>(rows: seq<seq<T>>, cols: nat, xx: nat, yy: nat)
    requires Uniform(rows, cols) && yy < |rows| && xx < cols
    ensures |Flatten(rows)| == |rows| * cols
    ensures yy * cols + xx < |Flatten(rows)| && Flatten(rows)[yy * cols + xx] == rows[yy][xx]
    decreases |rows|
  {
    var n := |rows| - 1;
    var init := rows[..n];
    FlattenLength(init, cols);
    assert |Flatten(rows)| == n * cols + cols;
    if yy < n {
      FlattenAt(init, cols, xx, yy);
      MulMonotone(yy + 1, n, cols);
    } else {
      assert Flatten(rows)[n * cols + xx] == rows[n][xx];
    }
  }

  lemma {:induction false} FlattenLength<T>(rows: seq<seq<T>>, cols: nat)
    requires Uniform(rows, cols)
    ensures |Flatten(rows)| == |rows| * cols
    decreases |rows|
  {
    if rows != [] {
      var n := |rows| - 1;
      FlattenLength(rows[..n], cols);
      assert |Flatten(rows)| == n * cols + |rows[n]|;
      assert (n + 1) * cols == n * cols + cols;
    }
  }

  /** Every cell of a grid occurs in its flattening. */
  lemma {:induction false} FlattenContains<T>(rows: seq<seq<T>>, xx: nat, yy: nat)
    requires yy < |rows| && xx < |rows[yy]|
    ensures rows[yy][xx] in Flatten(rows)
    decreases |rows|
  {
    var n := |rows| - 1;
    if yy < n {
      FlattenContains(rows[..n], xx, yy);
    } else {
      assert Flatten(rows)[|Flatten(rows[..n])| + xx] == rows[yy][xx];
    }
  }

  /** Every entry of a flattening comes from some cell of the grid. */
  lemma {:induction false} FlattenFrom<T>(rows: seq<seq<T>>, e: T)
    requires e in Flatten(rows)
    ensures exists yy, xx :: 0 <= yy < |rows| && 0 <= xx < |rows[yy]| && rows[yy][xx] == e
    decreases |rows|
  {
    var n := |rows| - 1;
    var init := rows[..n];
    if e in Flatten(init) {
      FlattenFrom(init, e);
      var yy, xx :| 0 <= yy < |init| && 0 <= xx < |init[yy]| && init[yy][xx] == e;
      assert rows[yy][xx] == e;
    } else {
      var k :| 0 <= k < |Flatten(rows)| && Flatten(rows)[k] == e;
      assert rows[n][k - |Flatten(init)|] == e;
    }
  }

  // ---------------------------------------------------------------------
  // running maximum
  // ---------------------------------------------------------------------

  /** The largest of `s`, or 0 for the empty sequence (the start value of a running maximum). */
  function MaxOf(s: seq<nat>): nat
    decreases |s|
  {
    if s == [] then 0 else Max(MaxOf(s[..|s| - 1]), s[|s| - 1])
  }

  function Max(a: nat, b: nat): nat { if a >= b then a else b }

  /** The maximum of two runs laid end to end is the larger of their maxima. */
  lemma {:induction false} MaxOfConcatNat(a: seq<nat>, b: seq<nat>)
    ensures MaxOf(a + b) == Max(MaxOf(a), MaxOf(b))
    decreases |b|
  {
    if b == [] {
      assert a + b == a;
    } else {
      var b' := b[..|b| - 1];
      MaxOfConcatNat(a, b');
      assert (a + b)[..|a + b| - 1] == a + b';
    }
  }

  function Min(a: nat, b: nat): nat { if a <= b then a else b }

  lemma {:induction false} MaxOfIsUpperBound(s: seq<nat>, i: nat)
    requires i < |s|
    ensures s[i] <= MaxOf(s)
    decreases |s|
  {
    if i < |s| - 1 {
      MaxOfIsUpperBound(s[..|s| - 1], i);
    }
  }

  lemma {:induction false} MaxOfIsAttained(s: seq<nat>)
    requires s != []
    ensures exists i :: 0 <= i < |s| && s[i] == MaxOf(s)
    decreases |s|
  {
    var n := |s| - 1;
    if n > 0 && MaxOf(s[..n]) >= s[n] {
      MaxOfIsAttained(s[..n]);
      var i :| 0 <= i < n && s[..n][i] == MaxOf(s[..n]);
      assert s[i] == MaxOf(s);
    } else {
      assert s[n] == MaxOf(s);
    }
  }

  /** The widths of `s`, in order. */
  function Widths(s: seq<Size>): seq<nat>
  {
    seq(|s|, i requires 0 <= i < |s| => s[i].width)
  }

  /** The heights of `s`, in order. */
  function Heights(s: seq<Size>): seq<nat>
  {
    seq(|s|, i requires 0 <= i < |s| => s[i].height)
  }

  lemma SizesConcat(a: seq<Size>, b: seq<Size>)
    ensures Widths(a + b) == Widths(a) + Widths(b)
    ensures Heights(a + b) == Heights(a) + Heights(b)
  {
  }

  lemma MaxSnoc(s: seq<Size>, e: Size)
    ensures MaxOf(Widths(s + [e])) == Max(MaxOf(Widths(s)), e.width)
    ensures MaxOf(Heights(s + [e])) == Max(MaxOf(Heights(s)), e.height)
  {
    assert Widths(s + [e])[..|s|] == Widths(s);
    assert Heights(s + [e])[..|s|] == Heights(s);
  }
}
