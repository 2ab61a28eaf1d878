/**
 * The slicer (mosaic/lib/Image/Slice.php): cutting one image into an
 * hb x vb grid of equal blocks, naming each block from a placeholder mask,
 * and returning the grid of block file names that stitching reads back.
 */
module Slice {
  import opened Php
  import opened Geometry

  /**
   * What the slicer can learn from the file system: the size of each
   * existing image file (`file_exists` then `open`), the `realpath` of each
   * existing path, and which resolved paths are directories (`is_dir`).
   */
  datatype FileSystem = FileSystem(images: map<string, Size>, realPaths: map<string, string>, directories: set<string>)

  /** The SliceException cases. */
  datatype SliceError =
    | FileNotFound(path: string)
    | InvalidWidth
    | InvalidHeight
    | InvalidMask(mask: string)
    | InvalidOutputDirectory(resolved: string)
    | NotInitialized

  function ErrorMessage(e: SliceError): string
  {
    match e
    case FileNotFound(path) => "File " + path + " not found"
    case InvalidWidth => "Invalid width value"
    case InvalidHeight => "Invalid height value"
    case InvalidMask(mask) => "Invalid mask " + mask
    case InvalidOutputDirectory(resolved) => "Invalid output directory " + resolved
    case NotInitialized => "Source image not initialized"
  }

  const PLACEHOLDER_NAME: string := "{name}"
  const PLACEHOLDER_WIDTH: string := "{width}"
  const PLACEHOLDER_HEIGHT: string := "{height}"
  const PLACEHOLDER_EXTENSION: string := "{extension}"
  const DEFAULT_MASK: string := "{name}-{width}-{height}.{extension}"
  const DIRECTORY_SEPARATOR: char := '/'

  // ---------------------------------------------------------------------
  // assembleOutputName
  // ---------------------------------------------------------------------

  /** explode('.', name), array_pop for the extension, implode('.') of the rest for the name. */
  function SplitExtension(path: string): (string, string)
  {
    var pieces := Explode('.', path);
    (Implode('.', pieces[..|pieces| - 1]), pieces[|pieces| - 1])
  }

  /**
   * The split happens at the last '.': the extension is the text after it and
   * holds no '.', the name is everything before it, directory prefix included.
   * A path without '.' is all extension and has an empty name.
   */
  lemma {:induction false} SplitExtensionSpec(path: string)
    ensures '.' !in SplitExtension(path).1
    ensures '.' in path ==> SplitExtension(path).0 + "." + SplitExtension(path).1 == path
    ensures '.' !in path ==> SplitExtension(path) == ("", path)
  {
    var pieces := Explode('.', path);
    ImplodeExplode('.', path);
    assert |pieces| == 1 ==> path == pieces[0] && '.' !in path;
    if '.' !in path {
      ExplodeWithoutSeparator('.', path);
    }
  }

  /**
   * The mask with its placeholders replaced by str_replace, one placeholder
   * after another in the order name, width, height, extension; a later pass
   * also sees the text an earlier one inserted.
   */
  function FileName(mask: string, imageName: string, hblock: nat, vblock: nat): string
  {
    var (name, ext) := SplitExtension(imageName);
    var s1 := ReplaceAll(mask, PLACEHOLDER_NAME, name);
    var s2 := ReplaceAll(s1, PLACEHOLDER_WIDTH, NatToString(hblock));
    var s3 := ReplaceAll(s2, PLACEHOLDER_HEIGHT, NatToString(vblock));
    ReplaceAll(s3, PLACEHOLDER_EXTENSION, ext)
  }

  /** The output directory and the file name joined by the separator, or the file name alone when the directory is empty. */
  function OutputName(outputDirectory: string, fileName: string): string
  {
    if IsEmpty(outputDirectory) then fileName else outputDirectory + [DIRECTORY_SEPARATOR] + fileName
  }

  function AssembleOutputName(mask: string, imageName: string, outputDirectory: string, hblock: nat, vblock: nat): string
  {
    OutputName(outputDirectory, FileName(mask, imageName, hblock, vblock))
  }

  // Placeholder substitution, stated over a mask cut into parts.

  function Join(parts: seq<string>): string
    decreases |parts|
  {
    if parts == [] then [] else parts[0] + Join(parts[1..])
  }

  /** `{`, then no brace, then `}`. */
  predicate IsPlaceholder(t: string)
  {
    |t| >= 2 && t[0] == '{' && t[|t| - 1] == '}' && forall i :: 0 < i < |t| - 1 ==> t[i] != '{' && t[i] != '}'
  }

  /** A part str_replace(pat, ...) leaves alone or replaces whole: `pat` itself, brace-free text, or another placeholder. */
  predicate Separate(t: string, pat: string)
  {
    t == pat || '{' !in t || IsPlaceholder(t)
  }

  function Substitute(parts: seq<string>, pat: string, rep: string): (r: seq<string>)
    ensures |r| == |parts| && forall i :: 0 <= i < |parts| ==> r[i] == if parts[i] == pat then rep else parts[i]
  {
    seq(|parts|, i requires 0 <= i < |parts| => if parts[i] == pat then rep else parts[i])
  }

  /** A placeholder other than `pat`, followed by anything, is passed over whole. */
  lemma ReplaceSkipsPlaceholder(t: string, y: string, pat: string, rep: string)
    requires IsPlaceholder(pat) && IsPlaceholder(t) && t != pat
    ensures ReplaceAll(t + y, pat, rep) == t + ReplaceAll(y, pat, rep)
  {
    var s := t + y;
    if |s| < |pat| {
      assert ReplaceAll(y, pat, rep) == y;
    } else {
      PlaceholderIsNoPrefix(t, y, pat);
      var inner := t[1..];
      BraceFreeTail(t);
      assert s[1..] == inner + y;
      assert ReplaceAll(s, pat, rep) == [t[0]] + ReplaceAll(inner + y, pat, rep);
      ReplaceSkipsPlain(inner, y, pat, rep);
      assert [t[0]] + (inner + ReplaceAll(y, pat, rep)) == t + ReplaceAll(y, pat, rep);
    }
  }

  lemma BraceFreeTail(t: string)
    requires IsPlaceholder(t)
    ensures '{' !in t[1..]
  {
    forall i | 0 <= i < |t| - 1 ensures t[1..][i] != '{' {
      assert t[1..][i] == t[i + 1];
    }
  }

  /** Two different placeholders: neither is a prefix of the other followed by more text. */
  lemma PlaceholderIsNoPrefix(t: string, y: string, pat: string)
    requires IsPlaceholder(pat) && IsPlaceholder(t) && t != pat && |t + y| >= |pat|
    ensures (t + y)[..|pat|] != pat
  {
    var s := t + y;
    if |t| > |pat| {
      assert s[..|pat|][|pat| - 1] == t[|pat| - 1] != '}';
    } else if |t| < |pat| {
      assert s[..|pat|][|t| - 1] == t[|t| - 1] == '}' != pat[|t| - 1];
    } else {
      assert s[..|pat|] == t;
    }
  }

  /** str_replace over a mask whose parts are each `pat`, brace-free text or another placeholder replaces exactly the `pat` parts. */
  lemma {:induction false} ReplaceParts(parts: seq<string>, pat: string, rep: string)
    requires IsPlaceholder(pat)
    requires forall i :: 0 <= i < |parts| ==> Separate(parts[i], pat)
    ensures ReplaceAll(Join(parts), pat, rep) == Join(Substitute(parts, pat, rep))
    decreases |parts|
  {
    if parts != [] {
      var t, rest := parts[0], parts[1..];
      ReplaceParts(rest, pat, rep);
      assert Substitute(parts, pat, rep)[1..] == Substitute(rest, pat, rep);
      if t == pat {
        ReplaceAtStart(pat, Join(rest), rep);
      } else if '{' !in t {
        ReplaceSkipsPlain(t, Join(rest), pat, rep);
      } else {
        ReplaceSkipsPlaceholder(t, Join(rest), pat, rep);
      }
    }
  }

  lemma PlaceholdersAreSeparate()
    ensures IsPlaceholder(PLACEHOLDER_NAME) && IsPlaceholder(PLACEHOLDER_WIDTH)
    ensures IsPlaceholder(PLACEHOLDER_HEIGHT) && IsPlaceholder(PLACEHOLDER_EXTENSION)
  {
  }

  /** The default mask as parts: four placeholders between "-", "-" and ".". */
  function MaskParts(name: string, width: string, height: string, ext: string): seq<string>
  {
    [name, "-", width, "-", height, ".", ext]
  }

  lemma JoinMaskParts(name: string, width: string, height: string, ext: string)
    ensures Join(MaskParts(name, width, height, ext)) == name + "-" + width + "-" + height + "." + ext
  {
    var p := MaskParts(name, width, height, ext);
    assert p[1..][1..][1..][1..][1..][1..][1..] == [];
    assert Join(p[6..]) == ext;
    assert Join(p[5..]) == "." + ext;
    assert Join(p[4..]) == height + "." + ext;
    assert Join(p[3..]) == "-" + height + "." + ext;
    assert Join(p[2..]) == width + "-" + height + "." + ext;
    assert Join(p[1..]) == "-" + width + "-" + height + "." + ext;
  }

  /** Digit strings hold no brace. */
  lemma DigitsBraceFree(n: nat)
    ensures '{' !in NatToString(n)
  {
    var s := NatToString(n);
    forall i | 0 <= i < |s| ensures s[i] != '{' {
      assert IsDigit(s[i]);
    }
  }

  /** Brace-free text is never a placeholder. */
  lemma BraceFreeIsNotPlaceholder(t: string, pat: string)
    requires '{' !in t && IsPlaceholder(pat)
    ensures t != pat
  {
    assert pat[0] == '{' && pat[0] in pat;
  }

  function SubstitutePart(t: string, pat: string, rep: string): string
  {
    if t == pat then rep else t
  }

  /** One str_replace pass over a mask of the default shape replaces whichever of its four slots holds `pat`. */
  lemma ReplaceMaskParts(a: string, b: string, c: string, d: string, pat: string, rep: string)
    requires IsPlaceholder(pat)
    requires Separate(a, pat) && Separate(b, pat) && Separate(c, pat) && Separate(d, pat)
    ensures ReplaceAll(Join(MaskParts(a, b, c, d)), pat, rep) ==
      Join(MaskParts(SubstitutePart(a, pat, rep), SubstitutePart(b, pat, rep), SubstitutePart(c, pat, rep), SubstitutePart(d, pat, rep)))
  {
    var p := MaskParts(a, b, c, d);
    assert forall i :: 0 <= i < |p| ==> Separate(p[i], pat);
    ReplaceParts(p, pat, rep);
    assert Substitute(p, pat, rep) ==
      MaskParts(SubstitutePart(a, pat, rep), SubstitutePart(b, pat, rep), SubstitutePart(c, pat, rep), SubstitutePart(d, pat, rep));
  }

  lemma DefaultMaskIsParts()
    ensures DEFAULT_MASK == Join(MaskParts(PLACEHOLDER_NAME, PLACEHOLDER_WIDTH, PLACEHOLDER_HEIGHT, PLACEHOLDER_EXTENSION))
  {
    JoinMaskParts(PLACEHOLDER_NAME, PLACEHOLDER_WIDTH, PLACEHOLDER_HEIGHT, PLACEHOLDER_EXTENSION);
  }

  /**
   * With a name and extension free of '{', the default mask gives
   * `<name>-<column>-<row>.<extension>`.
   */
  lemma DefaultMaskFileName(imageName: string, hblock: nat, vblock: nat)
    requires '{' !in SplitExtension(imageName).0 && '{' !in SplitExtension(imageName).1
    ensures var (name, ext) := SplitExtension(imageName);
      FileName(DEFAULT_MASK, imageName, hblock, vblock) == name + "-" + NatToString(hblock) + "-" + NatToString(vblock) + "." + ext
  {
    var (name, ext) := SplitExtension(imageName);
    var w, h := NatToString(hblock), NatToString(vblock);
    DigitsBraceFree(hblock);
    DigitsBraceFree(vblock);
    PlaceholdersAreSeparate();
    DefaultMaskIsParts();
    BraceFreeIsNotPlaceholder(name, PLACEHOLDER_WIDTH);
    BraceFreeIsNotPlaceholder(name, PLACEHOLDER_HEIGHT);
    BraceFreeIsNotPlaceholder(name, PLACEHOLDER_EXTENSION);
    BraceFreeIsNotPlaceholder(w, PLACEHOLDER_HEIGHT);
    BraceFreeIsNotPlaceholder(w, PLACEHOLDER_EXTENSION);
    BraceFreeIsNotPlaceholder(h, PLACEHOLDER_EXTENSION);
    ReplaceMaskParts(PLACEHOLDER_NAME, PLACEHOLDER_WIDTH, PLACEHOLDER_HEIGHT, PLACEHOLDER_EXTENSION, PLACEHOLDER_NAME, name);
    ReplaceMaskParts(name, PLACEHOLDER_WIDTH, PLACEHOLDER_HEIGHT, PLACEHOLDER_EXTENSION, PLACEHOLDER_WIDTH, w);
    ReplaceMaskParts(name, w, PLACEHOLDER_HEIGHT, PLACEHOLDER_EXTENSION, PLACEHOLDER_HEIGHT, h);
    ReplaceMaskParts(name, w, h, PLACEHOLDER_EXTENSION, PLACEHOLDER_EXTENSION, ext);
    JoinMaskParts(name, w, h, ext);
  }

  /** The name split of a plain `name.ext`. */
  lemma SplitSimpleName(name: string, ext: string)
    requires '.' !in name && '.' !in ext
    ensures SplitExtension(name + "." + ext) == (name, ext)
  {
    ExplodeAfterSeparator('.', name, ext);
    ExplodeWithoutSeparator('.', name);
    assert Explode('.', name + "." + ext) == [name, ext];
  }

  /** The default mask on a plain `name.ext`. */
  lemma DefaultMaskOfSimpleName(name: string, ext: string, hblock: nat, vblock: nat)
    requires '.' !in name && '.' !in ext && '{' !in name && '{' !in ext
    ensures FileName(DEFAULT_MASK, name + "." + ext, hblock, vblock)
      == name + "-" + NatToString(hblock) + "-" + NatToString(vblock) + "." + ext
  {
    SplitSimpleName(name, ext);
    DefaultMaskFileName(name + "." + ext, hblock, vblock);
  }

  /** The default mask on `foo.png` at column 2, row 3. */
  lemma DefaultMaskExample(imageName: string, hblock: nat, vblock: nat)
    requires imageName == "foo.png" && hblock == 2 && vblock == 3
    ensures FileName(DEFAULT_MASK, imageName, hblock, vblock) == "foo-2-3.png"
  {
    assert imageName == "foo" + "." + "png";
    NatToStringDigit(hblock);
    NatToStringDigit(vblock);
    assert "foo" + "-" + NatToString(hblock) + "-" + NatToString(vblock) + "." + "png" == "foo-2-3.png";
    DefaultMaskOfSimpleName("foo", "png", hblock, vblock);
  }

  /**
   * Replacement is sequential: an image whose name itself reads `{width}`
   * has that text replaced again, by the column number, in the second pass,
   * so `{width}.png` at column 2, row 3 is saved as `2-2-3.png`.
   */
  lemma RescannedName(ext: string, hblock: nat, vblock: nat)
    requires '.' !in ext && '{' !in ext
    ensures var w, h := NatToString(hblock), NatToString(vblock);
      FileName(DEFAULT_MASK, PLACEHOLDER_WIDTH + "." + ext, hblock, vblock) == w + "-" + w + "-" + h + "." + ext
  {
    var w, h := NatToString(hblock), NatToString(vblock);
    SplitSimpleName(PLACEHOLDER_WIDTH, ext);
    DigitsBraceFree(hblock);
    DigitsBraceFree(vblock);
    PlaceholdersAreSeparate();
    DefaultMaskIsParts();
    BraceFreeIsNotPlaceholder(w, PLACEHOLDER_HEIGHT);
    BraceFreeIsNotPlaceholder(w, PLACEHOLDER_EXTENSION);
    BraceFreeIsNotPlaceholder(h, PLACEHOLDER_EXTENSION);
    ReplaceMaskParts(PLACEHOLDER_NAME, PLACEHOLDER_WIDTH, PLACEHOLDER_HEIGHT, PLACEHOLDER_EXTENSION, PLACEHOLDER_NAME, PLACEHOLDER_WIDTH);
    ReplaceMaskParts(PLACEHOLDER_WIDTH, PLACEHOLDER_WIDTH, PLACEHOLDER_HEIGHT, PLACEHOLDER_EXTENSION, PLACEHOLDER_WIDTH, w);
    ReplaceMaskParts(w, w, PLACEHOLDER_HEIGHT, PLACEHOLDER_EXTENSION, PLACEHOLDER_HEIGHT, h);
    ReplaceMaskParts(w, w, h, PLACEHOLDER_EXTENSION, PLACEHOLDER_EXTENSION, ext);
    JoinMaskParts(w, w, h, ext);
  }

  /** An image named `{width}.png` at column 2, row 3 is saved as `2-2-3.png`. */
  lemma RescannedExample(imageName: string, hblock: nat, vblock: nat)
    requires imageName == "{width}.png" && hblock == 2 && vblock == 3
    ensures FileName(DEFAULT_MASK, imageName, hblock, vblock) == "2-2-3.png"
  {
    assert imageName == PLACEHOLDER_WIDTH + "." + "png";
    NatToStringDigit(hblock);
    NatToStringDigit(vblock);
    assert NatToString(hblock) + "-" + NatToString(hblock) + "-" + NatToString(vblock) + "." + "png" == "2-2-3.png";
    RescannedName("png", hblock, vblock);
  }

  /**
   * The map entry is `basename` of the saved path, so the output directory
   * never shows in it; only a file name ending in '/' would be affected.
   */
  lemma MapEntryIgnoresDirectory(outputDirectory: string, fileName: string)
    requires fileName != [] && fileName[|fileName| - 1] != '/'
    ensures Basename(OutputName(outputDirectory, fileName)) == Basename(fileName)
  {
    if !IsEmpty(outputDirectory) {
      BasenameOfJoin(outputDirectory, fileName);
    }
  }

  // ---------------------------------------------------------------------
  // the slicer's settings as a value
  // ---------------------------------------------------------------------

  datatype SlicerState = SlicerState(
    image: Option<Size>,
    imageName: string,
    outputDirectory: string,
    horizontalBlocks: nat,
    verticalBlocks: nat,
    mask: string)

  const DEFAULT_STATE: SlicerState := SlicerState(None, "", "", 0, 0, DEFAULT_MASK)

  function WithImage(s: SlicerState, fileName: string, fs: FileSystem): Result<SlicerState, SliceError>
  {
    if fileName in fs.images then Ok(s.(image := Some(fs.images[fileName]), imageName := fileName))
    else Err(FileNotFound(fileName))
  }

  /** Accepted when 1 <= count <= the image width. */
  function WithHorizontalBlocks(s: SlicerState, count: int): Result<SlicerState, SliceError>
    requires s.image.Some?
  {
    if count < 1 || count > s.image.value.width then Err(InvalidWidth) else Ok(s.(horizontalBlocks := count))
  }

  /** Accepted when 1 <= count <= the image height. */
  function WithVerticalBlocks(s: SlicerState, count: int): Result<SlicerState, SliceError>
    requires s.image.Some?
  {
    if count < 1 || count > s.image.value.height then Err(InvalidHeight) else Ok(s.(verticalBlocks := count))
  }

  /** `realpath` (false, printed as "", when the path does not exist), then `is_dir`. */
  function WithOutputDirectory(s: SlicerState, dir: string, fs: FileSystem): Result<SlicerState, SliceError>
  {
    if dir in fs.realPaths && fs.realPaths[dir] in fs.directories then Ok(s.(outputDirectory := fs.realPaths[dir]))
    else Err(InvalidOutputDirectory(if dir in fs.realPaths then fs.realPaths[dir] else ""))
  }

  /** setMask only validates: the value is never stored. */
  function WithMask(s: SlicerState, mask: string): Result<SlicerState, SliceError>
  {
    if IsEmpty(mask) then Err(InvalidMask(mask)) else Ok(s)
  }

  datatype Outcome = Outcome(state: SlicerState, error: Option<SliceError>)

  /** initialize: image, block counts, then output directory and mask when given; an exception ends it. */
  function InitializeSlicer(
    s: SlicerState, fileName: string, width: int, height: int, outputDir: Option<string>, mask: Option<string>, fs: FileSystem): Outcome
  {
    match WithImage(s, fileName, fs)
    case Err(e) => Outcome(s, Some(e))
    case Ok(s1) =>
      match WithHorizontalBlocks(s1, width)
      case Err(e) => Outcome(s1, Some(e))
      case Ok(s2) =>
        match WithVerticalBlocks(s2, height)
        case Err(e) => Outcome(s2, Some(e))
        case Ok(s3) =>
          match (if outputDir.None? then Ok(s3) else WithOutputDirectory(s3, outputDir.value, fs))
          case Err(e) => Outcome(s3, Some(e))
          case Ok(s4) =>
            match (if mask.None? then Ok(s4) else WithMask(s4, mask.value))
            case Err(e) => Outcome(s4, Some(e))
            case Ok(s5) => Outcome(s5, None)
  }

  /** The block counts initialize accepts: between 1 and the image's size in that direction. */
  predicate BlocksFit(image: Size, horizontalBlocks: int, verticalBlocks: int)
  {
    1 <= horizontalBlocks <= image.width && 1 <= verticalBlocks <= image.height
  }

  /**
   * initialize succeeds exactly when the file exists, both block counts fit
   * the image, a given directory resolves to a directory and a given mask is
   * not empty; the first failing check names the exception. On success the
   * image, its name and both counts are stored and the mask stays as it was.
   */
  lemma InitializeSlicerOutcome(
    s: SlicerState, fileName: string, width: int, height: int, outputDir: Option<string>, mask: Option<string>, fs: FileSystem)
    ensures var o := InitializeSlicer(s, fileName, width, height, outputDir, mask, fs);
      && (o.error == Some(FileNotFound(fileName)) <==> fileName !in fs.images)
      && (o.error == Some(InvalidWidth) <==> fileName in fs.images && !(1 <= width <= fs.images[fileName].width))
      && (o.error == Some(InvalidHeight) <==>
            fileName in fs.images && 1 <= width <= fs.images[fileName].width && !(1 <= height <= fs.images[fileName].height))
      && (o.error.Some? && (o.error.value.InvalidOutputDirectory? || o.error.value.InvalidMask?) ==>
            fileName in fs.images && BlocksFit(fs.images[fileName], width, height))
      && (o.error == None <==>
            && fileName in fs.images && BlocksFit(fs.images[fileName], width, height)
            && (outputDir.Some? ==> outputDir.value in fs.realPaths && fs.realPaths[outputDir.value] in fs.directories)
            && (mask.Some? ==> !IsEmpty(mask.value)))
      && (o.error == None ==>
            o.state == s.(image := Some(fs.images[fileName]), imageName := fileName,
                          horizontalBlocks := width, verticalBlocks := height,
                          outputDirectory := if outputDir.Some? then fs.realPaths[outputDir.value] else s.outputDirectory))
      && o.state.mask == s.mask
  {
  }

  // ---------------------------------------------------------------------
  // what slice computes
  // ---------------------------------------------------------------------

  /** One block to cut: the region of the source and the path it is saved to. */
  datatype Crop = Crop(rect: Rect, path: string)

  /** The blocks cut, in row-major order, and the map: a vb x hb grid of block file names. */
  datatype SliceResult = SliceResult(crops: seq<Crop>, fileMap: seq<seq<string>>)

  /** The block size: the source size divided by the block counts, rounded down. */
  function BlockSize(image: Size, horizontalBlocks: nat, verticalBlocks: nat): Size
    requires horizontalBlocks >= 1 && verticalBlocks >= 1
  {
    Size(image.width / horizontalBlocks, image.height / verticalBlocks)
  }

  /** The block for column `xx`, row `yy`. */
  function CropAt(s: SlicerState, xx: nat, yy: nat): Crop
    requires s.image.Some? && s.horizontalBlocks >= 1 && s.verticalBlocks >= 1
  {
    var b := BlockSize(s.image.value, s.horizontalBlocks, s.verticalBlocks);
    Crop(Rect(Scale(xx, b.width), Scale(yy, b.height), b.width, b.height),
         AssembleOutputName(s.mask, s.imageName, s.outputDirectory, xx + 1, yy + 1))
  }

  /** Row `yy` of the grid: one block per column, left to right. */
  function CropRow(s: SlicerState, yy: nat): seq<Crop>
    requires s.image.Some? && s.horizontalBlocks >= 1 && s.verticalBlocks >= 1
  {
    CropsBefore(s, yy, s.horizontalBlocks)
  }

  /** The first `n` blocks of row `yy`. */
  function CropsBefore(s: SlicerState, yy: nat, n: nat): (r: seq<Crop>)
    requires s.image.Some? && s.horizontalBlocks >= 1 && s.verticalBlocks >= 1
    ensures |r| == n
  {
    if n == 0 then [] else CropsBefore(s, yy, n - 1) + [CropAt(s, n - 1, yy)]
  }

  lemma {:induction false} CropsBeforeAt(s: SlicerState, yy: nat, n: nat, xx: nat)
    requires s.image.Some? && s.horizontalBlocks >= 1 && s.verticalBlocks >= 1 && xx < n
    ensures CropsBefore(s, yy, n)[xx] == CropAt(s, xx, yy)
  {
    var prev := CropsBefore(s, yy, n - 1);
    var last := CropAt(s, n - 1, yy);
    assert CropsBefore(s, yy, n) == prev + [last];
    if xx < n - 1 {
      CropsBeforeAt(s, yy, n - 1, xx);
      assert (prev + [last])[xx] == prev[xx];
    }
  }

  /** The map entries for a run of crops: the basename of each one's path. */
  function CropBasenames(crops: seq<Crop>): (r: seq<string>)
    ensures |r| == |crops|
    decreases |crops|
  {
    if crops == [] then [] else CropBasenames(crops[..|crops| - 1]) + [Basename(crops[|crops| - 1].path)]
  }

  lemma {:induction false} CropBasenamesAt(crops: seq<Crop>, i: nat)
    requires i < |crops|
    ensures CropBasenames(crops)[i] == Basename(crops[i].path)
    decreases |crops|
  {
    if i < |crops| - 1 {
      CropBasenamesAt(crops[..|crops| - 1], i);
    }
  }

  lemma CropBasenamesSnoc(crops: seq<Crop>, c: Crop)
    ensures CropBasenames(crops + [c]) == CropBasenames(crops) + [Basename(c.path)]
  {
    assert (crops + [c])[..|crops|] == crops;
  }

  /** The grid of blocks, top row first. */
  function CropGrid(s: SlicerState): seq<seq<Crop>>
    requires s.image.Some? && s.horizontalBlocks >= 1 && s.verticalBlocks >= 1
  {
    RowsBefore(s, s.verticalBlocks)
  }

  /** The first `n` rows of the grid. */
  function RowsBefore(s: SlicerState, n: nat): (r: seq<seq<Crop>>)
    requires s.image.Some? && s.horizontalBlocks >= 1 && s.verticalBlocks >= 1
    ensures |r| == n && Uniform(r, s.horizontalBlocks)
  {
    if n == 0 then [] else RowsBefore(s, n - 1) + [CropRow(s, n - 1)]
  }

  lemma {:induction false} RowsBeforeAt(s: SlicerState, n: nat, yy: nat)
    requires s.image.Some? && s.horizontalBlocks >= 1 && s.verticalBlocks >= 1 && yy < n
    ensures RowsBefore(s, n)[yy] == CropRow(s, yy)
  {
    if yy < n - 1 {
      RowsBeforeAt(s, n - 1, yy);
    }
  }

  /** slice: every block of CropGrid in row-major order, and the grid of their basenames. */
  function SliceOf(s: SlicerState): SliceResult
    requires s.image.Some? && s.horizontalBlocks >= 1 && s.verticalBlocks >= 1
  {
    SliceResult(Flatten(CropGrid(s)), FileMap(s))
  }

  /** The map written beside the blocks: row `yy` holds the basenames of row `yy`'s blocks. */
  function FileMap(s: SlicerState): seq<seq<string>>
    requires s.image.Some? && s.horizontalBlocks >= 1 && s.verticalBlocks >= 1
  {
    NameRowsBefore(s, s.verticalBlocks)
  }

  /** The first `n` rows of the map. */
  function NameRowsBefore(s: SlicerState, n: nat): (r: seq<seq<string>>)
    requires s.image.Some? && s.horizontalBlocks >= 1 && s.verticalBlocks >= 1
    ensures |r| == n && Uniform(r, s.horizontalBlocks)
  {
    if n == 0 then [] else NameRowsBefore(s, n - 1) + [CropBasenames(CropRow(s, n - 1))]
  }

  lemma {:induction false} NameRowsBeforeAt(s: SlicerState, n: nat, yy: nat)
    requires s.image.Some? && s.horizontalBlocks >= 1 && s.verticalBlocks >= 1 && yy < n
    ensures NameRowsBefore(s, n)[yy] == CropBasenames(CropRow(s, yy))
  {
    if yy < n - 1 {
      NameRowsBeforeAt(s, n - 1, yy);
    }
  }

  /**
   * With counts that passed validation each block is at least 1 x 1, the
   * blocks span hb*bw <= w and vb*bh <= h, and fewer than hb columns and vb
   * rows of pixels are left over.
   */
  lemma BlockSizeBounds(image: Size, horizontalBlocks: nat, verticalBlocks: nat)
    requires BlocksFit(image, horizontalBlocks, verticalBlocks)
    ensures var b := BlockSize(image, horizontalBlocks, verticalBlocks);
      && b.width >= 1 && b.height >= 1
      && horizontalBlocks * b.width <= image.width < horizontalBlocks * b.width + horizontalBlocks
      && verticalBlocks * b.height <= image.height < verticalBlocks * b.height + verticalBlocks
  {
    DivFloor(image.width, horizontalBlocks);
    DivFloor(image.height, verticalBlocks);
  }

  /** The crops in row-major order: one per cell, the block of (xx, yy) at position yy*hb + xx. */
  lemma SliceCropOrder(s: SlicerState, xx: nat, yy: nat)
    requires s.image.Some? && s.horizontalBlocks >= 1 && s.verticalBlocks >= 1
    requires xx < s.horizontalBlocks && yy < s.verticalBlocks
    ensures var crops := SliceOf(s).crops;
      && |crops| == s.verticalBlocks * s.horizontalBlocks
      && 0 <= yy * s.horizontalBlocks + xx < |crops|
      && crops[yy * s.horizontalBlocks + xx] == CropAt(s, xx, yy)
  {
    MulMonotone(0, yy, s.horizontalBlocks);
    FlattenAt(CropGrid(s), s.horizontalBlocks, xx, yy);
    RowsBeforeAt(s, s.verticalBlocks, yy);
    CropsBeforeAt(s, yy, s.horizontalBlocks, xx);
  }

  /** The map is vb rows of hb entries, and entry (xx, yy) is the basename of block (xx, yy)'s path. */
  lemma SliceFileMap(s: SlicerState, xx: nat, yy: nat)
    requires s.image.Some? && s.horizontalBlocks >= 1 && s.verticalBlocks >= 1
    requires xx < s.horizontalBlocks && yy < s.verticalBlocks
    ensures var m := SliceOf(s).fileMap;
      && |m| == s.verticalBlocks
      && (forall j :: 0 <= j < s.verticalBlocks ==> |m[j]| == s.horizontalBlocks)
      && m[yy][xx] == Basename(CropAt(s, xx, yy).path)
  {
    NameRowsBeforeAt(s, s.verticalBlocks, yy);
    CropsBeforeAt(s, yy, s.horizontalBlocks, xx);
    CropBasenamesAt(CropRow(s, yy), xx);
  }

  /** Block (xx, yy) starts xx block widths right and yy block heights down, and has the block size. */
  lemma CropOrigin(s: SlicerState, xx: nat, yy: nat)
    requires s.image.Some? && s.horizontalBlocks >= 1 && s.verticalBlocks >= 1
    ensures var b := BlockSize(s.image.value, s.horizontalBlocks, s.verticalBlocks);
      CropAt(s, xx, yy).rect == Rect(xx * b.width, yy * b.height, b.width, b.height)
  {
    var b := BlockSize(s.image.value, s.horizontalBlocks, s.verticalBlocks);
    ScaleIsProduct(xx, b.width);
    ScaleIsProduct(yy, b.height);
  }

  /** Every block lies inside the source image. */
  lemma CropInside(s: SlicerState, xx: nat, yy: nat)
    requires s.image.Some? && s.horizontalBlocks >= 1 && s.verticalBlocks >= 1
    requires xx < s.horizontalBlocks && yy < s.verticalBlocks
    ensures Inside(CropAt(s, xx, yy).rect, s.image.value.width, s.image.value.height)
  {
    var b := BlockSize(s.image.value, s.horizontalBlocks, s.verticalBlocks);
    CropOrigin(s, xx, yy);
    PitchSeparates(xx, s.horizontalBlocks, b.width, b.width);
    PitchSeparates(yy, s.verticalBlocks, b.height, b.height);
    DivFloor(s.image.value.width, s.horizontalBlocks);
    DivFloor(s.image.value.height, s.verticalBlocks);
  }

  /** Blocks of different cells share no pixel. */
  lemma CropsDisjoint(s: SlicerState, x1: nat, y1: nat, x2: nat, y2: nat)
    requires s.image.Some? && s.horizontalBlocks >= 1 && s.verticalBlocks >= 1
    requires (x1, y1) != (x2, y2)
    ensures Disjoint(CropAt(s, x1, y1).rect, CropAt(s, x2, y2).rect)
  {
    var b := BlockSize(s.image.value, s.horizontalBlocks, s.verticalBlocks);
    CropOrigin(s, x1, y1);
    CropOrigin(s, x2, y2);
    if x1 < x2 {
      PitchSeparates(x1, x2, b.width, b.width);
    } else if x2 < x1 {
      PitchSeparates(x2, x1, b.width, b.width);
    } else if y1 < y2 {
      PitchSeparates(y1, y2, b.height, b.height);
    } else {
      PitchSeparates(y2, y1, b.height, b.height);
    }
  }

  /** Every pixel in the first hb*bw columns and vb*bh rows belongs to the block (px / bw, py / bh). */
  lemma CropsCover(s: SlicerState, px: int, py: int)
    requires s.image.Some? && BlocksFit(s.image.value, s.horizontalBlocks, s.verticalBlocks)
    requires var b := BlockSize(s.image.value, s.horizontalBlocks, s.verticalBlocks);
      0 <= px < s.horizontalBlocks * b.width && 0 <= py < s.verticalBlocks * b.height
    ensures var b := BlockSize(s.image.value, s.horizontalBlocks, s.verticalBlocks);
      && px / b.width < s.horizontalBlocks && py / b.height < s.verticalBlocks
      && Covers(CropAt(s, px / b.width, py / b.height).rect, px, py)
  {
    var b := BlockSize(s.image.value, s.horizontalBlocks, s.verticalBlocks);
    BlockSizeBounds(s.image.value, s.horizontalBlocks, s.verticalBlocks);
    CropOrigin(s, px / b.width, py / b.height);
    DivBelow(px, b.width, s.horizontalBlocks);
    DivBelow(py, b.height, s.verticalBlocks);
  }

  lemma DivBelow(p: int, size: int, count: int)
    requires size >= 1 && 0 <= p < count * size
    ensures 0 <= p / size < count
    ensures (p / size) * size <= p < (p / size) * size + size
  {
    if p / size >= count {
      MulMonotone(count, p / size, size);
    }
  }

  /** The leftover right columns and bottom rows belong to no block. */
  lemma RemainderUncovered(s: SlicerState, px: int, py: int, xx: nat, yy: nat)
    requires s.image.Some? && s.horizontalBlocks >= 1 && s.verticalBlocks >= 1
    requires xx < s.horizontalBlocks && yy < s.verticalBlocks
    requires var b := BlockSize(s.image.value, s.horizontalBlocks, s.verticalBlocks);
      px >= s.horizontalBlocks * b.width || py >= s.verticalBlocks * b.height
    ensures !Covers(CropAt(s, xx, yy).rect, px, py)
  {
    var b := BlockSize(s.image.value, s.horizontalBlocks, s.verticalBlocks);
    CropOrigin(s, xx, yy);
    PitchSeparates(xx, s.horizontalBlocks, b.width, b.width);
    PitchSeparates(yy, s.verticalBlocks, b.height, b.height);
  }

  /** Under the default mask a block is saved as `<name>-<column>-<row>.<extension>` when name and extension hold no '{'. */
  lemma DefaultMaskNames(s: SlicerState, xx: nat, yy: nat)
    requires s.image.Some? && s.horizontalBlocks >= 1 && s.verticalBlocks >= 1 && s.mask == DEFAULT_MASK
    requires '{' !in SplitExtension(s.imageName).0 && '{' !in SplitExtension(s.imageName).1
    ensures var (name, ext) := SplitExtension(s.imageName);
      CropAt(s, xx, yy).path ==
        OutputName(s.outputDirectory, name + "-" + NatToString(xx + 1) + "-" + NatToString(yy + 1) + "." + ext)
  {
    DefaultMaskFileName(s.imageName, xx + 1, yy + 1);
  }

  // ---------------------------------------------------------------------
  // the slicer
  // ---------------------------------------------------------------------

  class Slicer {
    var image: Option<Size>
    var imageName: string
    var outputDirectory: string
    var horizontalBlocks: nat
    var verticalBlocks: nat
    var mask: string

    function State(): SlicerState
      reads this
    {
      SlicerState(image, imageName, outputDirectory, horizontalBlocks, verticalBlocks, mask)
    }

    constructor ()
      ensures State() == DEFAULT_STATE
    {
      image, imageName, outputDirectory := None, "", "";
      horizontalBlocks, verticalBlocks := 0, 0;
      mask := DEFAULT_MASK;
    }

    method SetImage(fileName: string, fs: FileSystem) returns (err: Option<SliceError>)
      modifies this
      ensures match WithImage(old(State()), fileName, fs)
        case Ok(s) => err.None? && State() == s
        case Err(e) => err == Some(e) && State() == old(State())
    {
      if fileName in fs.images {
        image := Some(fs.images[fileName]);
        imageName := fileName;
        return None;
      }
      return Some(FileNotFound(fileName));
    }

    /** Reads the image size, so an image must be set; initialize sets it first. */
    method SetHorizontalBlocks(count: int) returns (err: Option<SliceError>)
      requires image.Some?
      modifies this
      ensures image == old(image)
      ensures (count < 1 || count > image.value.width) ==> err == Some(InvalidWidth) && State() == old(State())
      ensures 1 <= count <= image.value.width ==> err.None? && State() == old(State()).(horizontalBlocks := count)
    {
      if count < 1 || count > image.value.width {
        return Some(InvalidWidth);
      }
      horizontalBlocks := count;
      return None;
    }

    method SetVerticalBlocks(count: int) returns (err: Option<SliceError>)
      requires image.Some?
      modifies this
      ensures image == old(image)
      ensures (count < 1 || count > image.value.height) ==> err == Some(InvalidHeight) && State() == old(State())
      ensures 1 <= count <= image.value.height ==> err.None? && State() == old(State()).(verticalBlocks := count)
    {
      if count < 1 || count > image.value.height {
        return Some(InvalidHeight);
      }
      verticalBlocks := count;
      return None;
    }

    method SetOutputDirectory(dir: string, fs: FileSystem) returns (err: Option<SliceError>)
      modifies this
      ensures match WithOutputDirectory(old(State()), dir, fs)
        case Ok(s) => err.None? && State() == s
        case Err(e) => err == Some(e) && State() == old(State())
    {
      var resolved := if dir in fs.realPaths then fs.realPaths[dir] else "";
      if !(dir in fs.realPaths && resolved in fs.directories) {
        return Some(InvalidOutputDirectory(resolved));
      }
      outputDirectory := resolved;
      return None;
    }

    /** Validates the mask and keeps nothing: the mask in use stays the default. */
    method SetMask(newMask: string) returns (err: Option<SliceError>)
      ensures IsEmpty(newMask) <==> err == Some(InvalidMask(newMask))
      ensures err.None? || err == Some(InvalidMask(newMask))
    {
      if IsEmpty(newMask) {
        return Some(InvalidMask(newMask));
      }
      return None;
    }

    method Initialize(fileName: string, width: int, height: int, outputDir: Option<string>, newMask: Option<string>, fs: FileSystem)
      returns (err: Option<SliceError>)
      modifies this
      ensures var o := InitializeSlicer(old(State()), fileName, width, height, outputDir, newMask, fs);
        State() == o.state && err == o.error
    {
      err := SetImage(fileName, fs);
      if err.Some? { return; }
      err := SetHorizontalBlocks(width);
      if err.Some? { return; }
      err := SetVerticalBlocks(height);
      if err.Some? { return; }
      if outputDir.Some? {
        err := SetOutputDirectory(outputDir.value, fs);
        if err.Some? { return; }
      }
      if newMask.Some? {
        err := SetMask(newMask.value);
      }
    }

    /**
     * slice: refuses a slicer without an image; otherwise walks the grid row
     * by row, the x offset advancing by the block width and restarting at 0
     * on each row, recording each block and its basename.
     */
    method Slice() returns (r: Result<SliceResult, SliceError>)
      requires image.Some? ==> horizontalBlocks >= 1 && verticalBlocks >= 1
      ensures image.None? ==> r == Err(NotInitialized)
      ensures image.Some? ==> r == Ok(SliceOf(State()))
    {
      if image.None? {
        return Err(NotInitialized);
      }
      var w, h := image.value.width, image.value.height;
      var blockWidth := w / horizontalBlocks;
      var blockHeight := h / verticalBlocks;
      ghost var s := State();
      var crops: seq<Crop> := [];
      var mapResult: seq<seq<string>> := [];
      var y := 0;
      var yy := 0;
      while yy < verticalBlocks
        invariant 0 <= yy <= verticalBlocks
        invariant y == Scale(yy, blockHeight)
        invariant crops == Flatten(RowsBefore(s, yy))
        invariant mapResult == NameRowsBefore(s, yy)
      {
        var rowCrops, rowNames := SliceRow(s, yy, y);
        FlattenSnoc(RowsBefore(s, yy), rowCrops);
        crops := crops + rowCrops;
        mapResult := mapResult + [rowNames];
        y := y + blockHeight;
        yy := yy + 1;
      }
      return Ok(SliceResult(crops, mapResult));
    }

    /** The inner loop of slice: the blocks of row `yy`, which starts at height `y`. */
    method SliceRow(ghost s: SlicerState, yy: nat, y: int) returns (rowCrops: seq<Crop>, rowNames: seq<string>)
      requires s == State() && image.Some? && horizontalBlocks >= 1 && verticalBlocks >= 1 && yy < verticalBlocks
      requires y == Scale(yy, image.value.height / verticalBlocks)
      ensures rowCrops == CropRow(s, yy) && rowNames == CropBasenames(rowCrops)
    {
      var block := BlockSize(image.value, horizontalBlocks, verticalBlocks);
      var blockWidth, blockHeight := block.width, block.height;
      rowCrops, rowNames := [], [];
      var x := 0;
      var xx := 0;
      while xx < horizontalBlocks
        invariant 0 <= xx <= horizontalBlocks
        invariant x == Scale(xx, blockWidth)
        invariant rowCrops == CropsBefore(s, yy, xx)
        invariant rowNames == CropBasenames(rowCrops)
      {
        var outputName := AssembleOutputName(mask, imageName, outputDirectory, xx + 1, yy + 1);
        var crop := Crop(Rect(x, y, blockWidth, blockHeight), outputName);
        assert outputName == CropAt(s, xx, yy).path;
        assert crop.rect == CropAt(s, xx, yy).rect;
        assert CropsBefore(s, yy, xx + 1) == CropsBefore(s, yy, xx) + [CropAt(s, xx, yy)];
        CropBasenamesSnoc(rowCrops, crop);
        rowCrops := rowCrops + [crop];
        x := x + blockWidth;
        rowNames := rowNames + [Basename(outputName)];
        xx := xx + 1;
      }
    }
  }
}
