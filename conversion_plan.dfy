/**
 * The conversion plan of `ImageConverter.convert_image`: from the combo box's
 * format text and the selected path it decides the pixel mode, the output
 * path, the Pillow encoder name and the save options. Decoding, colour
 * conversion, directory creation and encoding happen in libraries; their
 * outcomes are inputs (`Environment`).
 */
module ConversionPlan {
  import opened Wrappers
  import opened PyStrings
  import opened PurePaths

  /** `ImageConverter.SUPPORTED_FORMATS`: the texts the format combo box offers. */
  const SupportedFormats: set<string> := {"JPG", "PNG", "BMP", "GIF", "TIFF", "WEBP", "ICO"}

  /** The combo box's initial selection. */
  const DefaultFormat: string := "BMP"

  /** The lower-case format names that are saved with an alpha channel. */
  const AlphaFormats: set<string> := {"png", "webp", "gif"}

  /** The combo texts of the formats saved with an alpha channel. */
  const AlphaChoices: set<string> := {"PNG", "WEBP", "GIF"}

  /** The encoder names Pillow is given for the seven formats. */
  const Encoders: set<string> := {"JPEG", "PNG", "BMP", "GIF", "TIFF", "WEBP", "ICO"}

  /** What is appended to the stem of the output file. */
  const ConvertedTag: string := "_converted"

  /** A keyword argument's value in the call to `img.save`. */
  datatype OptionValue = IntValue(i: int) | BoolValue(b: bool)

  /** The keyword arguments given for JPEG output. */
  const JpegOptions: map<string, OptionValue> := map["quality" := IntValue(85), "optimize" := BoolValue(true)]

  /** The combo box's items: `sorted(SUPPORTED_FORMATS)`. */
  function ComboItems(): (items: seq<string>)
    ensures forall f :: f in items <==> f in SupportedFormats
    ensures forall i :: 0 < i < |items| ==> StrLess(items[i - 1], items[i])
    ensures DefaultFormat in items
  {
    ["BMP", "GIF", "ICO", "JPG", "PNG", "TIFF", "WEBP"]
  }

  /** Every combo text is a non-empty run of upper-case ASCII letters. */
  predicate AllUpper(s: string)
  {
    s != [] && forall i :: 0 <= i < |s| ==> IsAsciiUpper(s[i])
  }

  lemma ChoiceIsUpper(text: string)
    requires text in SupportedFormats
    ensures AllUpper(text)
  {
  }

  /** Lowering upper-case letters gives lower-case letters, and `upper()` brings the text back. */
  lemma LowerOfUpper(s: string)
    requires AllUpper(s)
    ensures forall i :: 0 <= i < |s| ==> IsAsciiLower(Lower(s)[i])
    ensures Upper(Lower(s)) == s
  {
    UpperOfLower(s);
  }

  /**
   * `currentText().lower()` of a combo text: a non-empty name without '.' or
   * '/', from which `upper()` gives the text back.
   */
  lemma LowerOfChoice(text: string)
    requires text in SupportedFormats
    ensures Lower(text) != [] && '.' !in Lower(text) && '/' !in Lower(text)
    ensures Upper(Lower(text)) == text
  {
    ChoiceIsUpper(text);
    LowerOfUpper(text);
  }

  /** The lower-cased names of the seven combo texts. */
  lemma LowerTable()
    ensures Lower("JPG") == "jpg" && Lower("PNG") == "png" && Lower("BMP") == "bmp" && Lower("GIF") == "gif"
    ensures Lower("TIFF") == "tiff" && Lower("WEBP") == "webp" && Lower("ICO") == "ico"
  {
  }

  /** `target_mode`: RGBA for the formats with an alpha channel, RGB for the rest. */
  function TargetMode(format: string): (mode: string)
    ensures mode == "RGBA" || mode == "RGB"
    ensures mode == "RGBA" <==> format in AlphaFormats
  {
    if format in AlphaFormats then "RGBA" else "RGB"
  }

  /** The mode chosen for a combo text is RGBA exactly for PNG, WEBP and GIF, and RGB otherwise. */
  lemma TargetModeOfChoice(text: string)
    requires text in SupportedFormats
    ensures TargetMode(Lower(text)) == (if text in AlphaChoices then "RGBA" else "RGB")
  {
    LowerTable();
  }

  /** The image after `if img.mode != target_mode: img = img.convert(target_mode)`. */
  datatype Normalized = Normalized(mode: string, converted: bool)

  function Normalize(mode: string, target: string): (r: Normalized)
    ensures r.mode == target
    ensures r.converted <==> mode != target
  {
    if mode != target then Normalized(target, true) else Normalized(mode, false)
  }

  /** `pillow_format`: JPEG for jpg, the upper-cased name otherwise. */
  function EncoderName(format: string): (encoder: string)
    ensures format == "jpg" ==> encoder == "JPEG"
    ensures format != "jpg" ==> |encoder| == |format|
    ensures format != "jpg" ==> forall i :: 0 <= i < |encoder| ==> !IsAsciiLower(encoder[i])
  {
    if format == "jpg" then "JPEG" else Upper(format)
  }

  /** The encoder for a combo text is JPEG for JPG and the text itself otherwise, one of the seven encoders. */
  lemma EncoderOfChoice(text: string)
    requires text in SupportedFormats
    ensures EncoderName(Lower(text)) == (if text == "JPG" then "JPEG" else text)
    ensures EncoderName(Lower(text)) in Encoders
  {
    assert Lower(text) == "jpg" <==> text == "JPG" by {
      LowerTable();
      LowerOfChoice(text);
    }
    LowerOfChoice(text);
  }

  /** `save_options`: quality 85 with optimize for jpg, no options otherwise. */
  function SaveOptions(format: string): (options: map<string, OptionValue>)
    ensures format != "jpg" ==> options == map[]
    ensures format == "jpg" ==> forall key :: key in options <==> key == "quality" || key == "optimize"
    ensures format == "jpg" ==> options["quality"] == IntValue(85) && options["optimize"] == BoolValue(true)
  {
    if format == "jpg" then JpegOptions else map[]
  }

  /** The save options for a combo text are the JPEG options exactly for JPG and empty for the other six. */
  lemma SaveOptionsOfChoice(text: string)
    requires text in SupportedFormats
    ensures SaveOptions(Lower(text)) == (if text == "JPG" then JpegOptions else map[])
    ensures SaveOptions(Lower(text)) != map[] <==> text == "JPG"
  {
    assert Lower(text) == "jpg" <==> text == "JPG" by {
      LowerTable();
      LowerOfChoice(text);
    }
    assert "quality" in JpegOptions;
  }

  /** `image_path.with_stem(f"{stem}_converted").with_suffix(f".{format}")` */
  function OutputPath(source: Path, format: string): (output: Option<Path>)
    ensures output.Some? ==> output.value.dir == source.dir
  {
    var renamed := WithStem(source, Stem(source.name) + ConvertedTag);
    if renamed.None? then None else WithSuffix(renamed.value, "." + format)
  }

  /**
   * The name the output file gets: `<stem>_converted.<format>`, except for a
   * name ending in a dot, which pathlib gives no suffix, so that `with_suffix`
   * cuts `._converted` off again and leaves `<name><format>`.
   */
  function ConvertedName(name: string, format: string): (converted: string)
    ensures |converted| > |format| && converted[|converted| - |format|..] == format
  {
    if EndsInDot(name) then name + format else Stem(name) + ConvertedTag + "." + format
  }

  /** The tag is dot-free and ends in a letter, so the tagged stem is a valid name without a suffix of its own. */
  lemma TaggedStem(stem: string)
    requires stem != [] && '/' !in stem
    ensures ValidName(stem + ConvertedTag)
    ensures '.' !in ConvertedTag && '/' !in ConvertedTag
  {
    assert (stem + ConvertedTag)[|stem| + |ConvertedTag| - 1] == 'd';
  }

  /** A name ending in a dot: `with_stem` appends the tag after the dot, and `with_suffix` then cuts `._converted` off. */
  lemma OutputOfDottedEnd(source: Path, format: string)
    requires source.name != [] && '/' !in source.name && EndsInDot(source.name)
    requires format != [] && '.' !in format && '/' !in format
    ensures OutputPath(source, format) == Some(Path(source.dir, source.name + format))
  {
    var name := source.name;
    var front := name[..|name| - 1];
    assert name == front + ".";
    RFindIs(name, '.', |name| - 1);
    assert Suffix(name) == [] && Stem(name) == name;
    TaggedStem(name);
    var tagged := name + ConvertedTag;
    assert WithStem(source, tagged) == Some(Path(source.dir, tagged)) by {
      assert tagged + Suffix(name) == tagged;
    }
    assert tagged == front + "." + ConvertedTag;
    SplitAtLastDot(front, ConvertedTag);
    WithSuffixReplaces(Path(source.dir, tagged), format);
    assert front + "." + format == name + format;
  }

  /** Any other name: the stem gains the tag, and the format becomes the suffix. */
  lemma OutputOfPlainEnd(source: Path, format: string)
    requires source.name != [] && '/' !in source.name && !EndsInDot(source.name)
    requires format != [] && '.' !in format && '/' !in format
    ensures OutputPath(source, format) == Some(Path(source.dir, Stem(source.name) + ConvertedTag + "." + format))
  {
    var name := source.name;
    var stem := Stem(name);
    assert '/' !in stem by {
      assert stem == name[..|stem|];
    }
    TaggedStem(stem);
    var tagged := stem + ConvertedTag;
    if Suffix(name) == [] {
      NoSuffixAfterAppend(name, ConvertedTag);
    }
    WithStemKeepsSuffix(source, tagged);
    WithSuffixReplaces(Path(source.dir, tagged + Suffix(name)), format);
  }

  /** Tagging the stem always changes the name: the tag starts where the suffix's dot, or nothing, was. */
  lemma ConvertedNameDiffers(name: string, format: string)
    requires name != [] && format != []
    ensures ConvertedName(name, format) != name
  {
    if !EndsInDot(name) {
      var stem := Stem(name);
      var out := ConvertedName(name, format);
      if Suffix(name) != [] && |out| == |name| {
        assert out[|stem|] == '_';
        assert name[|stem|] == Suffix(name)[0];
      }
    }
  }

  /**
   * The output path lies in the source's directory, is named as `ConvertedName`
   * says, never has the source's name, and carries the format as its suffix.
   */
  lemma OutputPathShape(source: Path, format: string)
    requires source.name != [] && '/' !in source.name
    requires format != [] && '.' !in format && '/' !in format
    ensures OutputPath(source, format).Some?
    ensures OutputPath(source, format).value.dir == source.dir
    ensures OutputPath(source, format).value.name == ConvertedName(source.name, format)
    ensures OutputPath(source, format).value.name != source.name
    ensures Suffix(OutputPath(source, format).value.name) == "." + format
  {
    var name := source.name;
    if EndsInDot(name) {
      OutputOfDottedEnd(source, format);
      var front := name[..|name| - 1];
      assert name + format == front + "." + format;
      SplitAtLastDot(front, format);
    } else {
      OutputOfPlainEnd(source, format);
      SplitAtLastDot(Stem(name) + ConvertedTag, format);
    }
    ConvertedNameDiffers(name, format);
  }

  /** Why a conversion can fail: the step that raised. */
  datatype Failure = OpenFailed | ModeConversionFailed | InvalidPath | MkdirFailed | SaveFailed

  /** What the libraries do: the decoded image's mode (None when `Image.open` raises), and whether each later step succeeds. */
  datatype Environment = Environment(decodedMode: Option<string>, convertSucceeds: bool, mkdirSucceeds: bool, saveSucceeds: bool)

  /** The call `img.save(output_path, pillow_format, **save_options)` on an image of `mode`. */
  datatype SaveCall = SaveCall(target: Path, encoder: string, options: map<string, OptionValue>, mode: string)

  /**
   * The body of the `try` in `convert_image`, for a selected path and a
   * lower-cased format: the save call made, or the step that raised. A failed
   * decode stops everything; the colour conversion is only attempted, and so
   * can only fail, when the decoded mode is not the target mode; a save is
   * made only after the directory exists, with the image in the target mode.
   */
  function Convert(source: Path, format: string, env: Environment): (r: Result<SaveCall, Failure>)
    ensures env.decodedMode.None? ==> r == Failure(OpenFailed)
    ensures r == Failure(ModeConversionFailed) ==>
      env.decodedMode.Some? && env.decodedMode.value != TargetMode(format) && !env.convertSucceeds
    ensures r.Success? ==>
      env.mkdirSucceeds && env.saveSucceeds && r.value.mode == TargetMode(format)
      && r.value.encoder == EncoderName(format) && r.value.options == SaveOptions(format)
  {
    match env.decodedMode
    case None => Failure(OpenFailed)
    case Some(mode) =>
      var normalized := Normalize(mode, TargetMode(format));
      if normalized.converted && !env.convertSucceeds then Failure(ModeConversionFailed)
      else
        match OutputPath(source, format)
        case None => Failure(InvalidPath)
        case Some(output) =>
          if !env.mkdirSucceeds then Failure(MkdirFailed)
          else if !env.saveSucceeds then Failure(SaveFailed)
          else Success(SaveCall(output, EncoderName(format), SaveOptions(format), normalized.mode))
  }

  /** The shape of every save the widget makes: a known encoder, the pixel mode it is given, JPEG options only for JPEG. */
  predicate WellFormedSave(c: SaveCall)
  {
    c.encoder in Encoders
    && c.mode == (if c.encoder in AlphaChoices then "RGBA" else "RGB")
    && c.options == (if c.encoder == "JPEG" then JpegOptions else map[])
  }

  /** The save made for any combo format has the shape `WellFormedSave` describes. */
  lemma SaveOfChoice(text: string, target: Path)
    requires text in SupportedFormats
    ensures var format := Lower(text);
      WellFormedSave(SaveCall(target, EncoderName(format), SaveOptions(format), TargetMode(format)))
  {
    var format := Lower(text);
    EncoderOfChoice(text);
    var encoder := EncoderName(format);
    assert encoder in AlphaChoices <==> text in AlphaChoices;
    assert TargetMode(format) == (if encoder in AlphaChoices then "RGBA" else "RGB") by {
      TargetModeOfChoice(text);
    }
    assert SaveOptions(format) == (if encoder == "JPEG" then JpegOptions else map[]) by {
      SaveOptionsOfChoice(text);
    }
  }

  /**
   * A successful conversion to a combo format saves with the format's encoder,
   * mode and options, to a new name in the source's directory whose suffix is
   * the lower-cased format, so the source file is never the one written.
   */
  lemma ConvertOfChoice(source: Path, text: string, env: Environment)
    requires text in SupportedFormats
    requires source.name != [] && '/' !in source.name
    ensures var r := Convert(source, Lower(text), env);
      r.Success? ==>
        && WellFormedSave(r.value)
        && r.value.encoder == (if text == "JPG" then "JPEG" else text)
        && r.value.target.dir == source.dir
        && r.value.target.name == ConvertedName(source.name, Lower(text))
        && Str(r.value.target) != Str(source)
        && Suffix(r.value.target.name) == "." + Lower(text)
  {
    var format := Lower(text);
    var r := Convert(source, format, env);
    if r.Success? {
      LowerOfChoice(text);
      OutputPathShape(source, format);
      SaveOfChoice(text, r.value.target);
      EncoderOfChoice(text);
      StrDiffers(r.value.target, source);
    }
  }

  /** For a combo format and a selected name, the conversion succeeds exactly when every library step does. */
  lemma ConvertSucceedsIff(source: Path, text: string, env: Environment)
    requires text in SupportedFormats
    requires source.name != [] && '/' !in source.name
    ensures Convert(source, Lower(text), env).Success? <==>
      && env.decodedMode.Some?
      && (env.convertSucceeds || env.decodedMode.value == TargetMode(Lower(text)))
      && env.mkdirSucceeds && env.saveSucceeds
  {
    LowerOfChoice(text);
    OutputPathShape(source, Lower(text));
  }
}
