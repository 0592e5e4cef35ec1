/** The planning side of process-photos-for-export.py: the export size
    table, name normalisation, the ImageMagick and exiv2 argument vectors,
    the choice of a metadata source, and the list of edited files. The
    tools themselves are not modelled: their exit status and output are
    parameters, and directory listings are given as sequences of names. */
module Export {

  import opened Wrappers
  import opened Text
  import opened PosixPath
  import opened ExifOverrides

  const OocFormat: string := "jpg"
  const EditFormat: string := "tif"
  const ExportFormat: string := "jpg"

  const BorderSeparatorDarkColor: string := "icc-color(gray, 0.6)"
  const BorderSeparatorLightColor: string := "icc-color(gray, 0.8)"
  const BorderColor: string := "icc-color(gray, 0.96)"

  /** The EXIF tags copied from the metadata source, in this order. */
  const ExifTags: seq<string> := [
    "Exif.Image.Artist", "Exif.Image.Copyright", "Exif.Image.DateTime", "Exif.Image.Make",
    "Exif.Image.Model", "Exif.Image.Software", "Exif.Photo.ApertureValue", "Exif.Photo.BrightnessValue",
    "Exif.Photo.DateTimeDigitized", "Exif.Photo.DateTimeOriginal", "Exif.Photo.ExifVersion",
    "Exif.Photo.ExposureBiasValue", "Exif.Photo.ExposureProgram", "Exif.Photo.ExposureTime",
    "Exif.Photo.Flash", "Exif.Photo.FNumber", "Exif.Photo.FocalLength", "Exif.Photo.FocalLengthIn35mmFilm",
    "Exif.Photo.ISOSpeedRatings", "Exif.Photo.LensMake", "Exif.Photo.LensModel",
    "Exif.Photo.LensSpecification", "Exif.Photo.LightSource", "Exif.Photo.MaxApertureValue",
    "Exif.Photo.MeteringMode", "Exif.Photo.SensitivityType", "Exif.Photo.ShutterSpeedValue"
  ]

  datatype Locations = Locations(projectDir: string, rawDir: string, editDir: string, exportDir: string)

  datatype Separator = Separator(color: string, size: nat)

  datatype Border = Border(color: string, size: nat, bottomPadding: nat, separators: seq<Separator>)

  datatype Resize = Resize(width: nat, height: nat, border: Option<Border>, quality: nat)

  // ---------------------------------------------------------------- small helpers

  /** `pluralize`. */
  function Pluralize(word: string, count: int): (r: string)
    ensures r == word <==> count == 1
    ensures count != 1 ==> |r| == |word| + 1 && r[..|word|] == word && r[|word|] == 's'
  {
    if count == 1 then word else word + "s"
  }

  // ---------------------------------------------------------------- the size table

  /** The three separator lines around the picture: light, dark, light; only
      the dark one of the large size is two pixels wide. */
  function Separators(darkSize: nat): (r: seq<Separator>)
    ensures |r| == 3 && r[0] == r[2] == Separator(BorderSeparatorLightColor, 1)
    ensures r[1] == Separator(BorderSeparatorDarkColor, darkSize)
  {
    [Separator(BorderSeparatorLightColor, 1), Separator(BorderSeparatorDarkColor, darkSize),
     Separator(BorderSeparatorLightColor, 1)]
  }

  function SizedResize(width: nat, height: nat, addBorder: bool, borderSize: nat, padding: nat, darkSize: nat,
                       quality: nat): Resize
  {
    Resize(width, height,
           if addBorder then Some(Border(BorderColor, borderSize, padding, Separators(darkSize))) else None,
           quality)
  }

  /** `get_resize_options`: `large`, `medium` or `small`; any other size is
      an error. */
  function ResizeOptions(size: string, addBorder: bool): (r: Result<Resize, string>)
    ensures r.Success? <==> size == "large" || size == "medium" || size == "small"
    ensures r.Failure? ==> r.error == "Size " + size + " is not supported"
    ensures r.Success? ==> (r.value.border.Some? <==> addBorder)
    ensures r.Success? && addBorder ==>
      r.value.border.value.color == BorderColor && |r.value.border.value.separators| == 3 &&
      r.value.border.value.separators[0].color == BorderSeparatorLightColor &&
      r.value.border.value.separators[1].color == BorderSeparatorDarkColor &&
      r.value.border.value.separators[2].color == BorderSeparatorLightColor
    ensures size == "large" ==> r == Success(Resize(4000, 3500,
      if addBorder then Some(Border(BorderColor, 100, 20, Separators(2))) else None, 99))
    ensures size == "medium" ==> r == Success(Resize(2000, 1500,
      if addBorder then Some(Border(BorderColor, 40, 10, Separators(1))) else None, 97))
    ensures size == "small" ==> r == Success(Resize(900, 800,
      if addBorder then Some(Border(BorderColor, 20, 5, Separators(1))) else None, 95))
    ensures r.Success? ==> r.value.width > r.value.height && 95 <= r.value.quality < 100
  {
    match size
    case "large" => Success(SizedResize(4000, 3500, addBorder, 100, 20, 2, 99))
    case "medium" => Success(SizedResize(2000, 1500, addBorder, 40, 10, 1, 97))
    case "small" => Success(SizedResize(900, 800, addBorder, 20, 5, 1, 95))
    case _ => Failure("Size " + size + " is not supported")
  }

  /** The border switch changes nothing but the border. */
  lemma BorderIndependent(size: string)
    ensures ResizeOptions(size, true).Success? == ResizeOptions(size, false).Success?
    ensures ResizeOptions(size, true).Success? ==>
      ResizeOptions(size, false).value == ResizeOptions(size, true).value.(border := None)
  {
  }

  /** A larger size is larger in every respect: bounding box, quality, border
      width and padding. */
  lemma SizesOrdered()
    ensures var l, m, s := ResizeOptions("large", true).value, ResizeOptions("medium", true).value,
                           ResizeOptions("small", true).value;
      l.width > m.width > s.width && l.height > m.height > s.height && l.quality > m.quality > s.quality &&
      l.border.value.size > m.border.value.size > s.border.value.size &&
      l.border.value.bottomPadding > m.border.value.bottomPadding > s.border.value.bottomPadding
  {
  }

  // ---------------------------------------------------------------- names

  const EnhancedSuffix: string := "-Enhanced-NR"
  const BlackAndWhiteSuffix: string := "-BW"

  /** The exported JPEG's name: the edit's name without one trailing
      `-Enhanced-NR`. */
  function TargetName(file: string): (r: string)
    ensures EndsWith(file, EnhancedSuffix) ==> r + EnhancedSuffix == file
    ensures !EndsWith(file, EnhancedSuffix) ==> r == file
  {
    RemoveSuffix(file, EnhancedSuffix)
  }

  /** The name metadata is looked up under: one trailing `-BW` removed, then
      one trailing `-Enhanced-NR`. */
  function MetadataSourceName(file: string): (r: string)
    ensures !EndsWith(file, BlackAndWhiteSuffix) ==> r == TargetName(file)
    ensures EndsWith(file, BlackAndWhiteSuffix) ==> r == TargetName(file[..|file| - |BlackAndWhiteSuffix|])
  {
    RemoveSuffix(RemoveSuffix(file, BlackAndWhiteSuffix), EnhancedSuffix)
  }

  /** A black-and-white variant takes its metadata from the same source as
      its colour original. */
  lemma BlackAndWhiteSharesSource(file: string)
    ensures MetadataSourceName(file + BlackAndWhiteSuffix) == MetadataSourceName(file) ||
            EndsWith(file, BlackAndWhiteSuffix)
    ensures MetadataSourceName(file + BlackAndWhiteSuffix) == TargetName(file)
  {
    var f := file + BlackAndWhiteSuffix;
    assert EndsWith(f, BlackAndWhiteSuffix);
    assert f[..|f| - |BlackAndWhiteSuffix|] == file;
  }

  /** The order of removal matters: an enhanced black-and-white edit keeps
      its `-BW`, while a black-and-white copy of an enhanced edit loses both. */
  lemma SuffixOrder()
    ensures MetadataSourceName("x-BW-Enhanced-NR") == "x-BW"
    ensures MetadataSourceName("x-Enhanced-NR-BW") == "x"
    ensures TargetName("x-Enhanced-NR-Enhanced-NR") == "x-Enhanced-NR"
  {
    assert EndsWith("x-BW-Enhanced-NR", EnhancedSuffix);
    assert !EndsWith("x-BW-Enhanced-NR", BlackAndWhiteSuffix);
    assert "x-BW-Enhanced-NR"[..4] == "x-BW";
    assert EndsWith("x-Enhanced-NR-BW", BlackAndWhiteSuffix);
    assert "x-Enhanced-NR-BW"[..13] == "x-Enhanced-NR";
    assert EndsWith("x-Enhanced-NR", EnhancedSuffix);
    assert "x-Enhanced-NR"[..1] == "x";
    assert EndsWith("x-Enhanced-NR-Enhanced-NR", EnhancedSuffix);
    assert "x-Enhanced-NR-Enhanced-NR"[..13] == "x-Enhanced-NR";
  }

  function EditFile(file: string, loc: Locations): string
  {
    Join(loc.editDir, file + "." + EditFormat)
  }

  function ExportFile(file: string, loc: Locations): string
  {
    Join(loc.exportDir, TargetName(file) + "." + ExportFormat)
  }

  // ---------------------------------------------------------------- ImageMagick

  function SeparatorArgs(s: Separator): seq<string>
  {
    ["-bordercolor", s.color, "-border", NatToDecimal(s.size)]
  }

  /** The arguments of the separators, four for each. */
  function SeparatorsArgs(seps: seq<Separator>): (r: seq<string>)
    ensures |r| == 4 * |seps|
  {
    if seps == [] then [] else SeparatorsArgs(seps[..|seps| - 1]) + SeparatorArgs(seps[|seps| - 1])
  }

  function OuterBorderArgs(b: Border): seq<string>
  {
    ["-bordercolor", b.color, "-border", NatToDecimal(b.size),
     "-background", b.color, "-extent", "0x%[fx:h+" + NatToDecimal(b.bottomPadding) + "]"]
  }

  /** The border part of the `magick` command line. */
  function BorderArgs(border: Option<Border>): (r: seq<string>)
    ensures border.None? ==> r == []
    ensures border.Some? ==> |r| == 4 * |border.value.separators| + 8
  {
    if border.None? then [] else SeparatorsArgs(border.value.separators) + OuterBorderArgs(border.value)
  }

  /** Separator `i` takes items `4i` to `4i+3` of the separator part. */
  lemma {:induction false} SeparatorsArgsLayout(seps: seq<Separator>, i: nat)
    requires i < |seps|
    ensures SeparatorsArgs(seps)[4 * i..4 * i + 4] == SeparatorArgs(seps[i])
    decreases |seps|
  {
    var init := seps[..|seps| - 1];
    if i < |init| {
      SeparatorsArgsLayout(init, i);
      assert SeparatorsArgs(seps)[4 * i..4 * i + 4] == SeparatorsArgs(init)[4 * i..4 * i + 4];
    } else {
      assert SeparatorsArgs(seps)[4 * i..4 * i + 4] == SeparatorArgs(seps[i]);
    }
  }

  /** The loop of `convert_tiff_to_jpeg` that builds `border_options`. */
  method BuildBorderArgs(border: Option<Border>) returns (r: seq<string>)
    ensures r == BorderArgs(border)
  {
    r := [];
    if border.Some? {
      var b := border.value;
      var i := 0;
      while i < |b.separators|
        invariant 0 <= i <= |b.separators|
        invariant r == SeparatorsArgs(b.separators[..i])
      {
        var s := b.separators[i];
        assert b.separators[..i + 1][..i] == b.separators[..i];
        r := r + ["-bordercolor", s.color, "-border", NatToDecimal(s.size)];
        i := i + 1;
      }
      assert b.separators[..i] == b.separators;
      r := r + ["-bordercolor", b.color, "-border", NatToDecimal(b.size),
                "-background", b.color, "-extent", "0x%[fx:h+" + NatToDecimal(b.bottomPadding) + "]"];
    }
  }

  /** `f"{width}x{height}>"`: shrink to fit the box, never enlarge. */
  function Geometry(resize: Resize): string
  {
    NatToDecimal(resize.width) + "x" + NatToDecimal(resize.height) + ">"
  }

  /** The `magick` command of `convert_tiff_to_jpeg`. */
  function MagickCommand(file: string, loc: Locations, resize: Resize, border: seq<string>): seq<string>
  {
    ["magick", "-quiet", EditFile(file, loc), "-filter", "LanczosSharp", "-resize", Geometry(resize)] + border +
    ["-quality", NatToDecimal(resize.quality), ExportFile(file, loc)]
  }

  /** `convert_tiff_to_jpeg` up to the call of ImageMagick: the command line
      it runs. */
  method ConvertCommand(file: string, loc: Locations, resize: Resize) returns (argv: seq<string>)
    ensures |argv| == 10 + |BorderArgs(resize.border)|
    ensures argv[..7] == ["magick", "-quiet", EditFile(file, loc), "-filter", "LanczosSharp", "-resize", Geometry(resize)]
    ensures argv[7..|argv| - 3] == BorderArgs(resize.border)
    ensures argv[|argv| - 3..] == ["-quality", NatToDecimal(resize.quality), ExportFile(file, loc)]
  {
    var border := BuildBorderArgs(resize.border);
    argv := MagickCommand(file, loc, resize, border);
  }

  /** The geometry argument reads back as the bounding box. */
  lemma GeometryRoundTrip(resize: Resize)
    ensures var g := Geometry(resize); var w := NatToDecimal(resize.width); var h := NatToDecimal(resize.height);
      g[..|w|] == w && g[|w|] == 'x' && g[|w| + 1..|g| - 1] == h && g[|g| - 1] == '>' &&
      DecimalValue(w) == resize.width && DecimalValue(h) == resize.height
  {
    NatToDecimalRoundTrip(resize.width);
    NatToDecimalRoundTrip(resize.height);
  }

  // ---------------------------------------------------------------- exiv2

  function KeyOptions(tags: seq<string>): (r: seq<string>)
    ensures |r| == 2 * |tags|
  {
    if tags == [] then [] else KeyOptions(tags[..|tags| - 1]) + ["-K", tags[|tags| - 1]]
  }

  /** One `-K tag` pair per tag, in order. */
  lemma {:induction false} KeyOptionsLayout(tags: seq<string>, i: nat)
    requires i < |tags|
    ensures KeyOptions(tags)[2 * i] == "-K" && KeyOptions(tags)[2 * i + 1] == tags[i]
    decreases |tags|
  {
    if i < |tags| - 1 {
      KeyOptionsLayout(tags[..|tags| - 1], i);
    }
  }

  /** The `exiv2_tags_options` loop of `copy_metadata`. */
  method BuildKeyOptions(tags: seq<string>) returns (r: seq<string>)
    ensures r == KeyOptions(tags)
  {
    r := [];
    var i := 0;
    while i < |tags|
      invariant 0 <= i <= |tags|
      invariant r == KeyOptions(tags[..i])
    {
      assert tags[..i + 1][..i] == tags[..i];
      r := r + ["-K", tags[i]];
      i := i + 1;
    }
    assert tags[..i] == tags;
  }

  function CleanCommand(target: string): seq<string>
  {
    ["exiv2", "rm", target]
  }

  function ExportCommand(source: string, keys: seq<string>): seq<string>
  {
    ["exiv2", "-PVk"] + keys + [source]
  }

  function ImportCommand(target: string): seq<string>
  {
    ["exiv2", "-m-", target]
  }

  /** A name `glob(os.path.join(dir, "{name}*.*"))` lists: it starts with
      `name` and has a dot after it; hidden names are listed only for a
      hidden pattern. */
  predicate SourceGlobMatches(entry: string, name: string)
  {
    StartsWith(entry, name) && (exists k :: |name| <= k < |entry| && entry[k] == '.') &&
    (StartsWith(entry, ".") ==> StartsWith(name, "."))
  }

  /** The first listed name the glob matches. */
  function FirstSourceMatch(listing: seq<string>, name: string): (r: Option<nat>)
    ensures r.Some? ==> r.value < |listing| && SourceGlobMatches(listing[r.value], name)
    ensures forall k :: 0 <= k < |listing| && (r.Some? ==> k < r.value) ==> !SourceGlobMatches(listing[k], name)
    decreases |listing|
  {
    if listing == [] then None
    else if SourceGlobMatches(listing[0], name) then Some(0)
    else
      var r := FirstSourceMatch(listing[1..], name);
      assert forall k :: 1 <= k < |listing| ==> listing[1..][k - 1] == listing[k];
      if r.Some? then Some(r.value + 1) else None
  }

  /** The metadata source of `copy_metadata`: the camera JPEG in `0_RAW` when
      it is a file, else the first match in `0_RAW`, else the first match in
      the project folder, else an error. `oocIsFile` is what `os.path.isfile`
      answers for the camera JPEG; the listings are the two folders' entries
      in the order `glob` visits them. */
  function MetadataSource(file: string, loc: Locations, oocIsFile: bool, rawListing: seq<string>,
                          projectListing: seq<string>): (r: Result<string, string>)
    ensures oocIsFile ==> r == Success(Join(loc.rawDir, MetadataSourceName(file) + "." + OocFormat))
    ensures !oocIsFile && FirstSourceMatch(rawListing, MetadataSourceName(file)).Some? ==>
      r == Success(Join(loc.rawDir, rawListing[FirstSourceMatch(rawListing, MetadataSourceName(file)).value]))
    ensures !oocIsFile && FirstSourceMatch(rawListing, MetadataSourceName(file)).None? &&
            FirstSourceMatch(projectListing, MetadataSourceName(file)).Some? ==>
      r == Success(Join(loc.projectDir, projectListing[FirstSourceMatch(projectListing, MetadataSourceName(file)).value]))
    ensures r.Failure? <==>
      !oocIsFile &&
      (forall k :: 0 <= k < |rawListing| ==> !SourceGlobMatches(rawListing[k], MetadataSourceName(file))) &&
      (forall k :: 0 <= k < |projectListing| ==> !SourceGlobMatches(projectListing[k], MetadataSourceName(file)))
    ensures r.Failure? ==> r.error == "No \"" + MetadataSourceName(file) + "*.*\" files found to copy metadata from"
  {
    var name := MetadataSourceName(file);
    if oocIsFile then Success(Join(loc.rawDir, name + "." + OocFormat))
    else
      var inRaw := FirstSourceMatch(rawListing, name);
      if inRaw.Some? then Success(Join(loc.rawDir, rawListing[inRaw.value]))
      else
        var inProject := FirstSourceMatch(projectListing, name);
        if inProject.Some? then Success(Join(loc.projectDir, projectListing[inProject.value]))
        else Failure("No \"" + name + "*.*\" files found to copy metadata from")
  }

  /** An external command and the text fed to its standard input. */
  datatype Invocation = Invocation(argv: seq<string>, input: string)

  /** An exception `copy_metadata` raises: one of its own messages, or the
      error mapping the rules file raises inside `append_metadata_overrides`. */
  datatype CopyFailure = Raised(message: string) | BadOverrides(cause: JsonError)

  /** The commands `copy_metadata` runs, and the exception it ends with. */
  datatype Outcome = Outcome(commands: seq<Invocation>, error: Option<CopyFailure>)

  /** What `copy_metadata` feeds to `exiv2 -m-`: the exported lines stripped,
      with the override directives appended, joined by newlines. */
  function ImportInput(exported: string, rules: seq<Rule>): string
  {
    var lines := StripAll(SplitLines(exported));
    JoinLines(lines + Directives(lines, rules))
  }

  function StripAll(lines: seq<string>): (r: seq<string>)
    ensures |r| == |lines| && forall i :: 0 <= i < |lines| ==> r[i] == Strip(lines[i])
  {
    if lines == [] then [] else [Strip(lines[0])] + StripAll(lines[1..])
  }

  /** `copy_metadata`. `cleaned`, `exported` and `imported` stand for the
      three exiv2 runs: whether the first and last exit with status 0, and
      the standard output of the second (`None` for a non-zero status).
      `overrides` is the parsed rules file, if one is given; it is mapped
      only after the export run, so a bad one leaves the target cleaned. */
  function CopyMetadata(file: string, loc: Locations, overrides: Option<Json>, oocIsFile: bool, rawListing: seq<string>,
                        projectListing: seq<string>, cleaned: bool, exported: Option<string>, imported: bool): (r: Outcome)
    ensures |r.commands| <= 3
    ensures r.error.None? ==> |r.commands| == 3
    ensures |r.commands| >= 1 ==> r.commands[0].argv == CleanCommand(ExportFile(file, loc))
    ensures |r.commands| >= 2 ==>
      var source := MetadataSource(file, loc, oocIsFile, rawListing, projectListing);
      source.Success? && r.commands[1].argv == ExportCommand(source.value, KeyOptions(ExifTags))
    ensures |r.commands| == 3 ==>
      exported.Some? && OverrideRules(overrides).Success? &&
      r.commands[2] == Invocation(ImportCommand(ExportFile(file, loc)), ImportInput(exported.value, OverrideRules(overrides).value))
    ensures MetadataSource(file, loc, oocIsFile, rawListing, projectListing).Failure? ==>
      r == Outcome([], Some(Raised(MetadataSource(file, loc, oocIsFile, rawListing, projectListing).error)))
    ensures MetadataSource(file, loc, oocIsFile, rawListing, projectListing).Success? && !cleaned ==>
      r.error == Some(Raised("Could not clean metadata for " + ExportFile(file, loc))) && |r.commands| == 1
    ensures MetadataSource(file, loc, oocIsFile, rawListing, projectListing).Success? && cleaned && exported.None? ==>
      r.error == Some(Raised("Could not get metadata from " + MetadataSource(file, loc, oocIsFile, rawListing, projectListing).value)) &&
      |r.commands| == 2
    ensures (r.error.Some? && r.error.value.BadOverrides?) <==>
      MetadataSource(file, loc, oocIsFile, rawListing, projectListing).Success? && cleaned && exported.Some? &&
      OverrideRules(overrides).Failure?
    ensures r.error.Some? && r.error.value.BadOverrides? ==>
      |r.commands| == 2 && r.error.value.cause == OverrideRules(overrides).error
    ensures (MetadataSource(file, loc, oocIsFile, rawListing, projectListing).Success? && cleaned && exported.Some? &&
             OverrideRules(overrides).Success? && !imported) ==>
      r.error == Some(Raised("Could not set metadata for " + ExportFile(file, loc))) && |r.commands| == 3
    ensures r.error.None? <==>
      MetadataSource(file, loc, oocIsFile, rawListing, projectListing).Success? && cleaned && exported.Some? &&
      OverrideRules(overrides).Success? && imported
  {
    CopyFrom(MetadataSource(file, loc, oocIsFile, rawListing, projectListing), ExportFile(file, loc), overrides,
             cleaned, exported, imported)
  }

  /** The part of `copy_metadata` after the source is chosen (or not), for
      the export file `target`. */
  function CopyFrom(source: Result<string, string>, target: string, overrides: Option<Json>, cleaned: bool,
                    exported: Option<string>, imported: bool): (r: Outcome)
    ensures |r.commands| <= 3
    ensures r.error.None? ==> |r.commands| == 3
    ensures |r.commands| >= 1 ==> r.commands[0].argv == CleanCommand(target)
    ensures |r.commands| >= 2 ==> source.Success? && r.commands[1].argv == ExportCommand(source.value, KeyOptions(ExifTags))
    ensures |r.commands| == 3 ==>
      exported.Some? && OverrideRules(overrides).Success? &&
      r.commands[2] == Invocation(ImportCommand(target), ImportInput(exported.value, OverrideRules(overrides).value))
    ensures source.Failure? ==> r == Outcome([], Some(Raised(source.error)))
    ensures source.Success? && !cleaned ==>
      r.error == Some(Raised("Could not clean metadata for " + target)) && |r.commands| == 1
    ensures source.Success? && cleaned && exported.None? ==>
      r.error == Some(Raised("Could not get metadata from " + source.value)) && |r.commands| == 2
    ensures (r.error.Some? && r.error.value.BadOverrides?) <==>
      source.Success? && cleaned && exported.Some? && OverrideRules(overrides).Failure?
    ensures r.error.Some? && r.error.value.BadOverrides? ==>
      |r.commands| == 2 && r.error.value.cause == OverrideRules(overrides).error
    ensures source.Success? && cleaned && exported.Some? && OverrideRules(overrides).Success? && !imported ==>
      r.error == Some(Raised("Could not set metadata for " + target)) && |r.commands| == 3
    ensures r.error.None? <==> source.Success? && cleaned && exported.Some? && OverrideRules(overrides).Success? && imported
  {
    if source.Failure? then Outcome([], Some(Raised(source.error)))
    else
      var clean := Invocation(CleanCommand(target), "");
      if !cleaned then Outcome([clean], Some(Raised("Could not clean metadata for " + target)))
      else
        var exportRun := Invocation(ExportCommand(source.value, KeyOptions(ExifTags)), "");
        if exported.None? then Outcome([clean, exportRun], Some(Raised("Could not get metadata from " + source.value)))
        else
          var rules := OverrideRules(overrides);
          if rules.Failure? then Outcome([clean, exportRun], Some(BadOverrides(rules.error)))
          else
            var importRun := Invocation(ImportCommand(target), ImportInput(exported.value, rules.value));
            Outcome([clean, exportRun, importRun],
                    if imported then None else Some(Raised("Could not set metadata for " + target)))
  }

  /** Metadata goes into the file ImageMagick wrote. */
  lemma MetadataTargetIsExport(file: string, loc: Locations, resize: Resize, overrides: Option<Json>, oocIsFile: bool,
                               rawListing: seq<string>, projectListing: seq<string>, cleaned: bool,
                               exported: Option<string>, imported: bool)
    requires CopyMetadata(file, loc, overrides, oocIsFile, rawListing, projectListing, cleaned, exported, imported).commands != []
    ensures var argv := MagickCommand(file, loc, resize, BorderArgs(resize.border));
      CopyMetadata(file, loc, overrides, oocIsFile, rawListing, projectListing, cleaned, exported, imported).commands[0].argv[2] ==
        argv[|argv| - 1]
  {
  }

  /** The export run asks for every tag of the list, each behind `-K`. */
  lemma ExportAsksForEveryTag(source: string)
    ensures |ExportCommand(source, KeyOptions(ExifTags))| == 2 * |ExifTags| + 3
    ensures forall i :: 0 <= i < |ExifTags| ==>
      ExportCommand(source, KeyOptions(ExifTags))[2 * i + 2] == "-K" &&
      ExportCommand(source, KeyOptions(ExifTags))[2 * i + 3] == ExifTags[i]
  {
    var keys := KeyOptions(ExifTags);
    var argv := ExportCommand(source, keys);
    forall i | 0 <= i < |ExifTags| ensures argv[2 * i + 2] == "-K" && argv[2 * i + 3] == ExifTags[i] {
      KeyOptionsLayout(ExifTags, i);
      assert argv[2 * i + 2] == keys[2 * i] && argv[2 * i + 3] == keys[2 * i + 1];
    }
  }

  // ---------------------------------------------------------------- edited files

  /** A name `glob(os.path.join(edit_dir, "*.tif"))` lists. */
  predicate IsEditName(entry: string)
  {
    EndsWith(entry, "." + EditFormat) && !StartsWith(entry, ".")
  }

  /** The number of names the `*.tif` glob lists. */
  function CountEditNames(listing: seq<string>): nat
  {
    if listing == [] then 0 else (if IsEditName(listing[0]) then 1 else 0) + CountEditNames(listing[1..])
  }

  /** The stems of the listed `.tif` names, one per name, in listing order. */
  function EditStems(listing: seq<string>): (r: seq<string>)
    ensures forall f :: f in r <==> exists k :: 0 <= k < |listing| && IsEditName(listing[k]) && f == Stem(listing[k])
    ensures |r| == CountEditNames(listing)
    decreases |listing|
  {
    if listing == [] then []
    else
      var rest := EditStems(listing[1..]);
      assert forall k :: 1 <= k < |listing| ==> listing[1..][k - 1] == listing[k];
      if IsEditName(listing[0]) then [Stem(listing[0])] + rest else rest
  }

  /** Two listed `.tif` names with one stem are the same name. */
  lemma EditStemInjective(a: string, b: string)
    requires IsEditName(a) && IsEditName(b) && Stem(a) == Stem(b)
    ensures a == b
  {
    StemOfExtension(a, EditFormat);
    StemOfExtension(b, EditFormat);
    assert a == Stem(a) + "." + EditFormat;
    assert b == Stem(b) + "." + EditFormat;
  }

  /** A listing without repeats gives each stem once. */
  lemma {:induction false} EditStemsDistinct(listing: seq<string>)
    requires forall i, j :: 0 <= i < j < |listing| ==> listing[i] != listing[j]
    ensures forall i, j :: 0 <= i < j < |EditStems(listing)| ==> EditStems(listing)[i] != EditStems(listing)[j]
    decreases |listing|
  {
    if listing != [] {
      var tail := listing[1..];
      var rest := EditStems(tail);
      EditStemsDistinct(tail);
      assert forall i, j :: 0 <= i < j < |rest| ==> rest[i] != rest[j];
      var r := EditStems(listing);
      if IsEditName(listing[0]) {
        var x := Stem(listing[0]);
        if x in rest {
          var k :| 0 <= k < |tail| && IsEditName(tail[k]) && x == Stem(tail[k]);
          EditStemInjective(listing[0], tail[k]);
          assert false;
        }
        assert r == [x] + rest;
        forall i, j | 0 <= i < j < |r| ensures r[i] != r[j] {
          assert r[j] == rest[j - 1] && rest[j - 1] in rest;
          if i > 0 {
            assert r[i] == rest[i - 1];
          }
        }
      } else {
        assert r == rest;
      }
    }
  }

  /** `get_edited_files`: the stems of the `.tif` files of the edit folder;
      none is an error. */
  function GetEditedFiles(editDir: string, listing: seq<string>): (r: Result<seq<string>, string>)
    ensures r.Failure? <==> forall k :: 0 <= k < |listing| ==> !IsEditName(listing[k])
    ensures r.Failure? ==> r.error == "No \"" + Join(editDir, "*." + EditFormat) + "\" files found"
    ensures r.Success? ==> forall f :: f in r.value ==> f + "." + EditFormat in listing
    ensures r.Success? ==> forall k :: 0 <= k < |listing| && IsEditName(listing[k]) ==> Stem(listing[k]) in r.value
    ensures r.Success? ==> |r.value| == CountEditNames(listing)
  {
    var files := EditStems(listing);
    forall k | 0 <= k < |listing| && IsEditName(listing[k])
      ensures Stem(listing[k]) + "." + EditFormat == listing[k]
    {
      StemOfExtension(listing[k], EditFormat);
    }
    assert forall k :: 0 <= k < |listing| && IsEditName(listing[k]) ==> Stem(listing[k]) in files;
    if files == [] then
      Failure("No \"" + Join(editDir, "*." + EditFormat) + "\" files found")
    else
      assert files[0] in files;
      Success(files)
  }
}
