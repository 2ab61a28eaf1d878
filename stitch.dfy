/**
 * The stitcher object (mosaic/lib/Image/Stitch.php): its settings, the
 * validating setters, the order in which initialize applies them, and the
 * stitch loop that pastes one block per cell onto the canvas.
 */
module Stitch {
  import opened Php
  import opened Geometry
  import opened StitchMap
  import opened StitchLayout

  /** The StitchException cases, one per check. */
  datatype StitchError =
    | MapRejected(cause: MapError)
    | InvalidHorizontalGap
    | InvalidVerticalGap
    | InvalidOutputFile(name: string)
    | InvalidBackgroundColor(color: string)
    | InvalidBorderColor(color: string)
    | InvalidStrategy(strategy: int)
    | InvalidBorderWidth

  function ErrorMessage(e: StitchError): string
  {
    match e
    case MapRejected(cause) => MapErrorMessage(cause)
    case InvalidHorizontalGap => "Invalid horizontal gap"
    case InvalidVerticalGap => "Invalid vertical gap"
    case InvalidOutputFile(name) => "Invalid output file " + name
    case InvalidBackgroundColor(color) => "Invalid background color " + color
    case InvalidBorderColor(color) => "Invalid border color " + color
    case InvalidStrategy(strategy) => "Invalid fitting strategy " + IntToString(strategy)
    case InvalidBorderWidth => "Invalid border width"
  }

  // ---------------------------------------------------------------------
  // colours: /^#([0-9a-fA-F]{3}|[0-9a-fA-F]{6})$/
  // ---------------------------------------------------------------------

  predicate IsHexDigit(c: char) { '0' <= c <= '9' || 'a' <= c <= 'f' || 'A' <= c <= 'F' }

  /** '#' followed by exactly three or exactly six hex digits. */
  predicate IsHexColor(s: string)
  {
    (|s| == 4 || |s| == 7) && s[0] == '#' && forall i :: 1 <= i < |s| ==> IsHexDigit(s[i])
  }

  /**
   * isValidColor: the pattern has no D modifier, so its `$` also matches just
   * before a final newline, and a hex colour followed by one "\n" is accepted.
   */
  predicate IsValidColor(s: string)
  {
    IsHexColor(s) || (s != [] && s[|s| - 1] == '\n' && IsHexColor(s[..|s| - 1]))
  }

  /**
   * What an accepted colour looks like, character by character: '#', then three
   * or six hex digits, then at most one newline.
   */
  lemma ValidColorShape(s: string)
    ensures IsValidColor(s) <==>
      && |s| in {4, 5, 7, 8} && s[0] == '#'
      && (|s| == 5 || |s| == 8 ==> s[|s| - 1] == '\n')
      && (forall i :: 1 <= i < |s| && i < 7 && !(|s| == 5 && i == 4) ==> IsHexDigit(s[i]))
  {
    if IsValidColor(s) && !IsHexColor(s) {
      assert s[..|s| - 1][0] == s[0];
      forall i | 1 <= i < |s| - 1 ensures IsHexDigit(s[i]) {
        assert s[..|s| - 1][i] == s[i];
      }
    }
    if && |s| in {4, 5, 7, 8} && s[0] == '#'
       && (|s| == 5 || |s| == 8 ==> s[|s| - 1] == '\n')
       && (forall i :: 1 <= i < |s| && i < 7 && !(|s| == 5 && i == 4) ==> IsHexDigit(s[i]))
    {
      if |s| == 5 || |s| == 8 {
        var t := s[..|s| - 1];
        forall i | 1 <= i < |t| ensures IsHexDigit(t[i]) {
          assert t[i] == s[i];
        }
        assert IsHexColor(t);
      } else {
        assert IsHexColor(s);
      }
    }
  }

  lemma ColorExamples()
    ensures IsValidColor("#FFFFFF") && IsValidColor("#abc") && IsValidColor("#fff\n")
    ensures !IsValidColor("red") && !IsValidColor("#12") && !IsValidColor("#GGGGGG")
    ensures !IsValidColor("") && !IsValidColor("#fff\n\n") && !IsValidColor("#ffff")
  {
    assert "#GGGGGG"[1] == 'G' && !IsHexDigit('G');
    assert "#fff\n"[..4] == "#fff";
    assert "#fff\n\n"[..5] == "#fff\n" && !IsHexDigit('\n');
  }

  // ---------------------------------------------------------------------
  // the settings as a value
  // ---------------------------------------------------------------------

  /** Every field of a stitcher, with the opened tiles standing for its stitch map. */
  datatype Config = Config(
    stitchMap: seq<seq<Size>>,
    horizontalBlocks: nat,
    verticalBlocks: nat,
    horizontalGap: nat,
    verticalGap: nat,
    cellWidth: nat,
    cellHeight: nat,
    backgroundColor: string,
    borderColor: string,
    borderWidth: nat,
    outputFile: string,
    strategy: int)

  const DEFAULT_COLOR: string := "#FFFFFF"

  /** A new stitcher's fields. */
  const DEFAULT_CONFIG: Config :=
    Config([], 0, 0, 0, 0, 0, 0, DEFAULT_COLOR, DEFAULT_COLOR, 0, "", STRATEGY_RESIZE)

  /**
   * What every reachable stitcher satisfies: the strategy and both colours
   * passed validation, the map is a vb x hb grid and the cell is its largest
   * tile width and height.
   */
  predicate ValidConfig(c: Config)
  {
    && IsStrategy(c.strategy) && IsValidColor(c.backgroundColor) && IsValidColor(c.borderColor)
    && |c.stitchMap| == c.verticalBlocks && Uniform(c.stitchMap, c.horizontalBlocks)
    && c.cellWidth == MaxOf(Widths(Flatten(c.stitchMap)))
    && c.cellHeight == MaxOf(Heights(Flatten(c.stitchMap)))
  }

  lemma DefaultConfigValid()
    ensures ValidConfig(DEFAULT_CONFIG)
  {
    assert Flatten<Size>([]) == [];
  }

  /** The geometry stitch works from. */
  function LayoutOf(c: Config): Layout
  {
    Layout(c.horizontalBlocks, c.verticalBlocks, c.cellWidth, c.cellHeight, c.horizontalGap, c.verticalGap,
           c.borderWidth, c.backgroundColor, c.borderColor, c.strategy)
  }

  // One function per setter: the new settings, or the exception and no change.

  function WithStitchMap(c: Config, m: seq<seq<string>>, images: map<string, Size>): Result<Config, StitchError>
  {
    match LoadMap(m, images)
    case Err(e) => Err(MapRejected(e))
    case Ok(l) => Ok(c.(stitchMap := l.tiles, horizontalBlocks := l.horizontalBlocks, verticalBlocks := l.verticalBlocks,
                        cellWidth := l.cellWidth, cellHeight := l.cellHeight))
  }

  function WithHorizontalGap(c: Config, pixels: int): Result<Config, StitchError>
  {
    if pixels < 0 then Err(InvalidHorizontalGap) else Ok(c.(horizontalGap := pixels))
  }

  function WithVerticalGap(c: Config, pixels: int): Result<Config, StitchError>
  {
    if pixels < 0 then Err(InvalidVerticalGap) else Ok(c.(verticalGap := pixels))
  }

  function WithOutputFile(c: Config, fileName: string): Result<Config, StitchError>
  {
    if IsEmpty(fileName) then Err(InvalidOutputFile(fileName)) else Ok(c.(outputFile := fileName))
  }

  function WithBackgroundColor(c: Config, color: string): Result<Config, StitchError>
  {
    if !IsValidColor(color) then Err(InvalidBackgroundColor(color)) else Ok(c.(backgroundColor := color))
  }

  function WithBorderColor(c: Config, color: string): Result<Config, StitchError>
  {
    if !IsValidColor(color) then Err(InvalidBorderColor(color)) else Ok(c.(borderColor := color))
  }

  function WithBorderWidth(c: Config, width: int): Result<Config, StitchError>
  {
    if width < 0 then Err(InvalidBorderWidth) else Ok(c.(borderWidth := width))
  }

  function WithStrategy(c: Config, strategy: int): Result<Config, StitchError>
  {
    if !IsStrategy(strategy) then Err(InvalidStrategy(strategy)) else Ok(c.(strategy := strategy))
  }

  /** Every setter keeps the stitcher valid. */
  lemma SettersPreserveValid(c: Config, m: seq<seq<string>>, images: map<string, Size>, n: int, s: string)
    requires ValidConfig(c)
    ensures WithStitchMap(c, m, images).Ok? ==> ValidConfig(WithStitchMap(c, m, images).value)
    ensures WithHorizontalGap(c, n).Ok? ==> ValidConfig(WithHorizontalGap(c, n).value)
    ensures WithVerticalGap(c, n).Ok? ==> ValidConfig(WithVerticalGap(c, n).value)
    ensures WithOutputFile(c, s).Ok? ==> ValidConfig(WithOutputFile(c, s).value)
    ensures WithBackgroundColor(c, s).Ok? ==> ValidConfig(WithBackgroundColor(c, s).value)
    ensures WithBorderColor(c, s).Ok? ==> ValidConfig(WithBorderColor(c, s).value)
    ensures WithBorderWidth(c, n).Ok? ==> ValidConfig(WithBorderWidth(c, n).value)
    ensures WithStrategy(c, n).Ok? ==> ValidConfig(WithStrategy(c, n).value)
  {
    if LoadMap(m, images).Ok? {
      LoadMapTiles(m, images);
    }
  }

  /** A successful setStitchMap keeps the stitcher valid. */
  lemma StitchMapKeepsValid(c: Config, m: seq<seq<string>>, images: map<string, Size>)
    requires ValidConfig(c) && LoadMap(m, images).Ok?
    ensures WithStitchMap(c, m, images).Ok? && ValidConfig(WithStitchMap(c, m, images).value)
  {
    LoadMapTiles(m, images);
  }

  // ---------------------------------------------------------------------
  // initialize
  // ---------------------------------------------------------------------

  /** The fields after initialize, and the exception it threw, if any. */
  datatype Outcome = Outcome(config: Config, error: Option<StitchError>)

  /**
   * initialize: the map, then both gaps and the output file, then the
   * optional settings. An exception ends it; whatever setters ran before it
   * keep their effect.
   */
  function InitializeConfig(
    c: Config, m: seq<seq<string>>, images: map<string, Size>, xGap: int, yGap: int, outputFile: string,
    backgroundColor: Option<string>, borderColor: Option<string>, borderWidth: Option<int>, fitStrategy: Option<int>): Outcome
  {
    match WithStitchMap(c, m, images)
    case Err(e) => Outcome(c, Some(e))
    case Ok(c1) =>
      match WithHorizontalGap(c1, xGap)
      case Err(e) => Outcome(c1, Some(e))
      case Ok(c2) =>
        match WithVerticalGap(c2, yGap)
        case Err(e) => Outcome(c2, Some(e))
        case Ok(c3) =>
          match WithOutputFile(c3, outputFile)
          case Err(e) => Outcome(c3, Some(e))
          case Ok(c4) => ApplyOptionals(c4, backgroundColor, borderColor, borderWidth, fitStrategy)
  }

  /** Background colour, border colour, border width and strategy, each set only when given (not null). */
  function ApplyOptionals(
    c: Config, backgroundColor: Option<string>, borderColor: Option<string>, borderWidth: Option<int>, fitStrategy: Option<int>): Outcome
  {
    match (if backgroundColor.None? then Ok(c) else WithBackgroundColor(c, backgroundColor.value))
    case Err(e) => Outcome(c, Some(e))
    case Ok(c5) =>
      match (if borderColor.None? then Ok(c5) else WithBorderColor(c5, borderColor.value))
      case Err(e) => Outcome(c5, Some(e))
      case Ok(c6) =>
        match (if borderWidth.None? then Ok(c6) else WithBorderWidth(c6, borderWidth.value))
        case Err(e) => Outcome(c6, Some(e))
        case Ok(c7) =>
          match (if fitStrategy.None? then Ok(c7) else WithStrategy(c7, fitStrategy.value))
          case Err(e) => Outcome(c7, Some(e))
          case Ok(c8) => Outcome(c8, None)
  }

  /** The checks initialize makes, as one chain of conditions: the first failing one decides the exception. */
  function FirstFailure(
    m: seq<seq<string>>, images: map<string, Size>, xGap: int, yGap: int, outputFile: string,
    backgroundColor: Option<string>, borderColor: Option<string>, borderWidth: Option<int>, fitStrategy: Option<int>): Option<StitchError>
  {
    if LoadMap(m, images).Err? then Some(MapRejected(LoadMap(m, images).error))
    else if xGap < 0 then Some(InvalidHorizontalGap)
    else if yGap < 0 then Some(InvalidVerticalGap)
    else if IsEmpty(outputFile) then Some(InvalidOutputFile(outputFile))
    else OptionalFailure(backgroundColor, borderColor, borderWidth, fitStrategy)
  }

  function OptionalFailure(
    backgroundColor: Option<string>, borderColor: Option<string>, borderWidth: Option<int>, fitStrategy: Option<int>): Option<StitchError>
  {
    if backgroundColor.Some? && !IsValidColor(backgroundColor.value) then Some(InvalidBackgroundColor(backgroundColor.value))
    else if borderColor.Some? && !IsValidColor(borderColor.value) then Some(InvalidBorderColor(borderColor.value))
    else if borderWidth.Some? && borderWidth.value < 0 then Some(InvalidBorderWidth)
    else if fitStrategy.Some? && !IsStrategy(fitStrategy.value) then Some(InvalidStrategy(fitStrategy.value))
    else None
  }

  /** `arg` if given, otherwise `current`. */
  function OrElse<T>(arg: Option<T>, current: T): T
  {
    if arg.Some? then arg.value else current
  }

  /**
   * The optional setters throw exactly the first failing check's exception,
   * touch nothing but their four fields, store every given value when none
   * throws, and keep a valid stitcher valid.
   */
  lemma ApplyOptionalsOutcome(
    c: Config, backgroundColor: Option<string>, borderColor: Option<string>, borderWidth: Option<int>, fitStrategy: Option<int>)
    ensures var o := ApplyOptionals(c, backgroundColor, borderColor, borderWidth, fitStrategy);
      && o.error == OptionalFailure(backgroundColor, borderColor, borderWidth, fitStrategy)
      && o.config == c.(backgroundColor := o.config.backgroundColor, borderColor := o.config.borderColor,
                        borderWidth := o.config.borderWidth, strategy := o.config.strategy)
      && (o.error.None? ==>
            && o.config.backgroundColor == OrElse(backgroundColor, c.backgroundColor)
            && o.config.borderColor == OrElse(borderColor, c.borderColor)
            && o.config.borderWidth as int == OrElse(borderWidth, c.borderWidth as int)
            && o.config.strategy == OrElse(fitStrategy, c.strategy))
      && (ValidConfig(c) ==> ValidConfig(o.config))
  {
  }

  /**
   * initialize throws exactly the first failing check's exception; when it
   * succeeds every given value is stored and every omitted optional keeps its
   * current value; a rejected map changes nothing, a later failure keeps the
   * loaded map, and a valid stitcher stays valid either way.
   */
  lemma InitializeOutcome(
    c: Config, m: seq<seq<string>>, images: map<string, Size>, xGap: int, yGap: int, outputFile: string,
    backgroundColor: Option<string>, borderColor: Option<string>, borderWidth: Option<int>, fitStrategy: Option<int>)
    ensures var o := InitializeConfig(c, m, images, xGap, yGap, outputFile, backgroundColor, borderColor, borderWidth, fitStrategy);
      && o.error == FirstFailure(m, images, xGap, yGap, outputFile, backgroundColor, borderColor, borderWidth, fitStrategy)
      && (o.error.None? ==>
            && LoadMap(m, images).Ok?
            && o.config == Config(
                 LoadMap(m, images).value.tiles, |m[0]|, |m|, xGap, yGap,
                 LoadMap(m, images).value.cellWidth, LoadMap(m, images).value.cellHeight,
                 OrElse(backgroundColor, c.backgroundColor), OrElse(borderColor, c.borderColor),
                 OrElse(borderWidth, c.borderWidth as int), outputFile, OrElse(fitStrategy, c.strategy)))
      && (o.error.Some? && o.error.value.MapRejected? ==> o.config == c)
      && (o.error.Some? && !o.error.value.MapRejected? ==>
            LoadMap(m, images).Ok? && o.config.stitchMap == LoadMap(m, images).value.tiles)
      && (ValidConfig(c) ==> ValidConfig(o.config))
  {
    if LoadMap(m, images).Ok? && xGap >= 0 && yGap >= 0 && !IsEmpty(outputFile) {
      InitializeReachesOptionals(c, m, images, xGap, yGap, outputFile, backgroundColor, borderColor, borderWidth, fitStrategy);
    } else {
      InitializeStopsEarly(c, m, images, xGap, yGap, outputFile, backgroundColor, borderColor, borderWidth, fitStrategy);
    }
  }

  /** When the map and the three required settings are accepted, initialize goes on to the optional setters. */
  lemma InitializeReachesOptionals(
    c: Config, m: seq<seq<string>>, images: map<string, Size>, xGap: int, yGap: int, outputFile: string,
    backgroundColor: Option<string>, borderColor: Option<string>, borderWidth: Option<int>, fitStrategy: Option<int>)
    requires LoadMap(m, images).Ok? && xGap >= 0 && yGap >= 0 && !IsEmpty(outputFile)
    ensures var o := InitializeConfig(c, m, images, xGap, yGap, outputFile, backgroundColor, borderColor, borderWidth, fitStrategy);
      && o.error == FirstFailure(m, images, xGap, yGap, outputFile, backgroundColor, borderColor, borderWidth, fitStrategy)
      && (o.error.None? ==>
            o.config == Config(
              LoadMap(m, images).value.tiles, |m[0]|, |m|, xGap, yGap,
              LoadMap(m, images).value.cellWidth, LoadMap(m, images).value.cellHeight,
              OrElse(backgroundColor, c.backgroundColor), OrElse(borderColor, c.borderColor),
              OrElse(borderWidth, c.borderWidth as int), outputFile, OrElse(fitStrategy, c.strategy)))
      && o.config.stitchMap == LoadMap(m, images).value.tiles
      && (ValidConfig(c) ==> ValidConfig(o.config))
  {
    LoadMapTiles(m, images);
    var c1 := WithStitchMap(c, m, images).value;
    var c4 := c1.(horizontalGap := xGap, verticalGap := yGap, outputFile := outputFile);
    if ValidConfig(c) {
      StitchMapKeepsValid(c, m, images);
    }
    assert InitializeConfig(c, m, images, xGap, yGap, outputFile, backgroundColor, borderColor, borderWidth, fitStrategy)
        == ApplyOptionals(c4, backgroundColor, borderColor, borderWidth, fitStrategy);
    ApplyOptionalsOutcome(c4, backgroundColor, borderColor, borderWidth, fitStrategy);
  }

  /** When the map or a required setting is rejected, initialize stops there with that setter's exception. */
  lemma InitializeStopsEarly(
    c: Config, m: seq<seq<string>>, images: map<string, Size>, xGap: int, yGap: int, outputFile: string,
    backgroundColor: Option<string>, borderColor: Option<string>, borderWidth: Option<int>, fitStrategy: Option<int>)
    requires !(LoadMap(m, images).Ok? && xGap >= 0 && yGap >= 0 && !IsEmpty(outputFile))
    ensures var o := InitializeConfig(c, m, images, xGap, yGap, outputFile, backgroundColor, borderColor, borderWidth, fitStrategy);
      && o.error == FirstFailure(m, images, xGap, yGap, outputFile, backgroundColor, borderColor, borderWidth, fitStrategy)
      && o.error.Some?
      && (o.error.value.MapRejected? ==> o.config == c)
      && (!o.error.value.MapRejected? ==> LoadMap(m, images).Ok? && o.config.stitchMap == LoadMap(m, images).value.tiles)
      && (ValidConfig(c) ==> ValidConfig(o.config))
  {
    if LoadMap(m, images).Ok? && ValidConfig(c) {
      StitchMapKeepsValid(c, m, images);
    }
  }

  // ---------------------------------------------------------------------
  // the stitcher
  // ---------------------------------------------------------------------

  class Stitcher {
    var stitchMap: seq<seq<Size>>
    var horizontalBlocks: nat
    var verticalBlocks: nat
    var horizontalGap: nat
    var verticalGap: nat
    var cellWidth: nat
    var cellHeight: nat
    var backgroundColor: string
    var borderColor: string
    var borderWidth: nat
    var outputFile: string
    var strategy: int

    function State(): Config
      reads this
    {
      Config(stitchMap, horizontalBlocks, verticalBlocks, horizontalGap, verticalGap, cellWidth, cellHeight,
             backgroundColor, borderColor, borderWidth, outputFile, strategy)
    }

    predicate Valid()
      reads this
    {
      ValidConfig(State())
    }

    constructor ()
      ensures State() == DEFAULT_CONFIG && Valid()
    {
      stitchMap, horizontalBlocks, verticalBlocks := [], 0, 0;
      horizontalGap, verticalGap, cellWidth, cellHeight := 0, 0, 0, 0;
      backgroundColor, borderColor, borderWidth := DEFAULT_COLOR, DEFAULT_COLOR, 0;
      outputFile, strategy := "", STRATEGY_RESIZE;
      DefaultConfigValid();
    }

    /** setStitchMap: the loading loop, then all five map fields at once; nothing changes on an exception. */
    method SetStitchMap(m: seq<seq<string>>, images: map<string, Size>) returns (err: Option<StitchError>)
      requires Valid()
      modifies this
      ensures Valid()
      ensures match WithStitchMap(old(State()), m, images)
        case Ok(c) => err.None? && State() == c
        case Err(e) => err == Some(e) && State() == old(State())
    {
      ghost var c0 := State();
      var r := LoadStitchMap(m, images);
      match r
      case Err(e) =>
        err := Some(MapRejected(e));
      case Ok(l) =>
        StitchMapKeepsValid(c0, m, images);
        ghost var c1 := WithStitchMap(c0, m, images).value;
        horizontalBlocks, verticalBlocks := l.horizontalBlocks, l.verticalBlocks;
        cellWidth, cellHeight := l.cellWidth, l.cellHeight;
        stitchMap := l.tiles;
        assert State() == c1;
        err := None;
    }

    method SetHorizontalGap(pixels: int) returns (err: Option<StitchError>)
      requires Valid()
      modifies this
      ensures Valid()
      ensures pixels < 0 ==> err == Some(InvalidHorizontalGap) && State() == old(State())
      ensures pixels >= 0 ==> err.None? && State() == old(State()).(horizontalGap := pixels)
    {
      if pixels < 0 {
        return Some(InvalidHorizontalGap);
      }
      horizontalGap := pixels;
      return None;
    }

    method SetVerticalGap(pixels: int) returns (err: Option<StitchError>)
      requires Valid()
      modifies this
      ensures Valid()
      ensures pixels < 0 ==> err == Some(InvalidVerticalGap) && State() == old(State())
      ensures pixels >= 0 ==> err.None? && State() == old(State()).(verticalGap := pixels)
    {
      if pixels < 0 {
        return Some(InvalidVerticalGap);
      }
      verticalGap := pixels;
      return None;
    }

    /** `empty($fileName)` refuses both "" and "0". */
    method SetOutputFile(fileName: string) returns (err: Option<StitchError>)
      requires Valid()
      modifies this
      ensures Valid()
      ensures IsEmpty(fileName) ==> err == Some(InvalidOutputFile(fileName)) && State() == old(State())
      ensures !IsEmpty(fileName) ==> err.None? && State() == old(State()).(outputFile := fileName)
    {
      if IsEmpty(fileName) {
        return Some(InvalidOutputFile(fileName));
      }
      outputFile := fileName;
      return None;
    }

    method SetBackgroundColor(color: string) returns (err: Option<StitchError>)
      requires Valid()
      modifies this
      ensures Valid()
      ensures !IsValidColor(color) ==> err == Some(InvalidBackgroundColor(color)) && State() == old(State())
      ensures IsValidColor(color) ==> err.None? && State() == old(State()).(backgroundColor := color)
    {
      if !IsValidColor(color) {
        return Some(InvalidBackgroundColor(color));
      }
      backgroundColor := color;
      return None;
    }

    method SetBorderColor(color: string) returns (err: Option<StitchError>)
      requires Valid()
      modifies this
      ensures Valid()
      ensures !IsValidColor(color) ==> err == Some(InvalidBorderColor(color)) && State() == old(State())
      ensures IsValidColor(color) ==> err.None? && State() == old(State()).(borderColor := color)
    {
      if !IsValidColor(color) {
        return Some(InvalidBorderColor(color));
      }
      borderColor := color;
      return None;
    }

    method SetBorderWidth(width: int) returns (err: Option<StitchError>)
      requires Valid()
      modifies this
      ensures Valid()
      ensures width < 0 ==> err == Some(InvalidBorderWidth) && State() == old(State())
      ensures width >= 0 ==> err.None? && State() == old(State()).(borderWidth := width)
    {
      if width < 0 {
        return Some(InvalidBorderWidth);
      }
      borderWidth := width;
      return None;
    }

    /** Only the codes 1 (crop) and 2 (resize) are accepted. */
    method SetStrategy(code: int) returns (err: Option<StitchError>)
      requires Valid()
      modifies this
      ensures Valid()
      ensures !IsStrategy(code) ==> err == Some(InvalidStrategy(code)) && State() == old(State())
      ensures IsStrategy(code) ==> err.None? && State() == old(State()).(strategy := code)
    {
      if !IsStrategy(code) {
        return Some(InvalidStrategy(code));
      }
      strategy := code;
      return None;
    }

    /** initialize: the setters in the source's order, stopping at the first exception. */
    method Initialize(
      m: seq<seq<string>>, images: map<string, Size>, xGap: int, yGap: int, outputFile: string,
      background: Option<string>, border: Option<string>, width: Option<int>, fitStrategy: Option<int>)
      returns (err: Option<StitchError>)
      requires Valid()
      modifies this
      ensures Valid()
      ensures var o := InitializeConfig(old(State()), m, images, xGap, yGap, outputFile, background, border, width, fitStrategy);
        State() == o.config && err == o.error
    {
      ghost var c0 := State();
      err := SetStitchMap(m, images);
      if err.Some? { return; }
      ghost var c1 := State();
      assert WithStitchMap(c0, m, images) == Ok(c1);
      err := SetHorizontalGap(xGap);
      if err.Some? { return; }
      ghost var c2 := State();
      assert WithHorizontalGap(c1, xGap) == Ok(c2);
      err := SetVerticalGap(yGap);
      if err.Some? { return; }
      ghost var c3 := State();
      assert WithVerticalGap(c2, yGap) == Ok(c3);
      err := SetOutputFile(outputFile);
      if err.Some? { return; }
      assert WithOutputFile(c3, outputFile) == Ok(State());
      assert InitializeConfig(c0, m, images, xGap, yGap, outputFile, background, border, width, fitStrategy)
          == ApplyOptionals(State(), background, border, width, fitStrategy);
      err := SetOptionals(background, border, width, fitStrategy);
    }

    /** The second half of initialize: each optional setter whose argument is not null. */
    method SetOptionals(background: Option<string>, border: Option<string>, width: Option<int>, fitStrategy: Option<int>)
      returns (err: Option<StitchError>)
      requires Valid()
      modifies this
      ensures Valid()
      ensures var o := ApplyOptionals(old(State()), background, border, width, fitStrategy);
        State() == o.config && err == o.error
    {
      err := None;
      if background.Some? {
        err := SetBackgroundColor(background.value);
        if err.Some? { return; }
      }
      if border.Some? {
        err := SetBorderColor(border.value);
        if err.Some? { return; }
      }
      if width.Some? {
        err := SetBorderWidth(width.value);
        if err.Some? { return; }
      }
      if fitStrategy.Some? {
        err := SetStrategy(fitStrategy.value);
      }
    }

    /**
     * stitch: the canvas size from the block counts, cell size, border and
     * gaps, then one paste per cell in row-major order, the y offset
     * advancing by totalCellHeight + vGap per row.
     * Returns the composite and the path it is saved to.
     */
    method Stitch() returns (image: Canvas, path: string)
      requires |stitchMap| == verticalBlocks && Uniform(stitchMap, horizontalBlocks)
      ensures image == Composite(stitchMap, LayoutOf(State()))
      ensures path == outputFile
    {
      var lay := LayoutOf(State());
      var totalCellWidth := cellWidth + borderWidth * 2;
      var totalCellHeight := cellHeight + borderWidth * 2;
      var pastes: seq<Paste> := [];
      var y := 0;
      var yy := 0;
      var pitch: nat := totalCellHeight + verticalGap;
      assert pitch == TotalCellHeight(lay) + lay.verticalGap;
      while yy < verticalBlocks
        invariant 0 <= yy <= verticalBlocks
        invariant y == Scale(yy, pitch)
        invariant pastes == Flatten(PasteRowsBefore(stitchMap, lay, yy))
      {
        var row := PasteRowAt(lay, yy, y);
        FlattenSnoc(PasteRowsBefore(stitchMap, lay, yy), row);
        pastes := pastes + row;
        ScaleStep(yy, pitch);
        y := y + pitch;
        yy := yy + 1;
      }
      // the canvas size does not depend on the pastes; it is computed here to keep the loop free of products
      var totalWidth, totalHeight := CanvasSize(lay);
      image := Canvas(Size(totalWidth, totalHeight), backgroundColor, pastes);
      path := outputFile;
    }

    /**
     * The size ternaries of stitch: with at least one block per axis, the
     * canvas holds that many cells and one gap fewer along each axis.
     */
    method CanvasSize(ghost lay: Layout) returns (totalWidth: nat, totalHeight: nat)
      requires lay == LayoutOf(State())
      ensures totalWidth == AxisLength(lay.horizontalBlocks, TotalCellWidth(lay), lay.horizontalGap)
      ensures totalHeight == AxisLength(lay.verticalBlocks, TotalCellHeight(lay), lay.verticalGap)
      ensures lay.horizontalBlocks >= 1 ==>
        totalWidth == lay.horizontalBlocks * TotalCellWidth(lay) + (lay.horizontalBlocks - 1) * lay.horizontalGap
      ensures lay.verticalBlocks >= 1 ==>
        totalHeight == lay.verticalBlocks * TotalCellHeight(lay) + (lay.verticalBlocks - 1) * lay.verticalGap
    {
      var hb, vb, hg, vg := horizontalBlocks, verticalBlocks, horizontalGap, verticalGap;
      var totalCellWidth := cellWidth + borderWidth * 2;
      var totalCellHeight := cellHeight + borderWidth * 2;
      totalWidth := if hb > 1 then (hb - 1) * (totalCellWidth + hg) + totalCellWidth else totalCellWidth;
      totalHeight := if vb > 1 then (vb - 1) * (totalCellHeight + vg) + totalCellHeight else totalCellHeight;
      AxisTernary(hb, totalCellWidth, hg, totalWidth);
      AxisTernary(vb, totalCellHeight, vg, totalHeight);
    }

    /** The inner loop of stitch: row `yy`, at height `y`, one block per column with x restarting at 0. */
    method PasteRowAt(ghost lay: Layout, yy: nat, y: int) returns (row: seq<Paste>)
      requires |stitchMap| == verticalBlocks && Uniform(stitchMap, horizontalBlocks)
      requires lay == LayoutOf(State()) && yy < verticalBlocks
      requires y == Scale(yy, TotalCellHeight(lay) + lay.verticalGap)
      ensures row == PasteRow(stitchMap, lay, yy)
    {
      var totalCellWidth := cellWidth + borderWidth * 2;
      var totalCellHeight := cellHeight + borderWidth * 2;
      row := [];
      var x := 0;
      var xx := 0;
      var pitch: nat := totalCellWidth + horizontalGap;
      while xx < horizontalBlocks
        invariant 0 <= xx <= horizontalBlocks
        invariant x == Scale(xx, pitch)
        invariant row == PastesBefore(stitchMap, lay, yy, xx)
      {
        var block := GetBlock(stitchMap[yy][xx], cellWidth, cellHeight, strategy, backgroundColor);
        if borderWidth > 0 {
          block := Patch(Size(totalCellWidth, totalCellHeight), borderColor, block, borderWidth, borderWidth);
        }
        assert block == CellPicture(stitchMap[yy][xx], lay);
        assert Paste(block, x, y) == PasteAt(stitchMap, lay, xx, yy);
        row := row + [Paste(block, x, y)];
        ScaleStep(xx, pitch);
        x := x + pitch;
        xx := xx + 1;
      }
    }
  }
}
