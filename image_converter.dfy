/**
 * The `ImageConverter` widget's state and its two handlers, `choose_image`
 * and `convert_image`. The file dialog, the preview load and the image
 * library are inputs: the text the dialog returned, whether the `try` block
 * of `choose_image` raised, and an `Environment` for the conversion's
 * library steps.
 */
module Widget {
  import opened Wrappers
  import opened PyStrings
  import opened PurePaths
  import opened ConversionPlan

  /** What the preview label shows: the placeholder text, or the scaled pixmap of a file (empty when Qt cannot decode it). */
  datatype Preview = Placeholder | Thumbnail(of: Path)

  /** What went wrong, as reported by `show_error`. */
  datatype Cause = LoadFailed | ConversionFailed(failure: Failure)

  /** What the status label reports. */
  datatype Status = Blank | Chosen(name: string) | Warned | Errored(cause: Cause) | Saved(name: string)

  /** A modal message box that was shown. */
  datatype MessageBox = Information(saved: Path) | WarningBox | Critical(cause: Cause)

  class ImageConverter {
    /** `self.image_path`: the selected file, if any. */
    var imagePath: Option<Path>
    /** The format combo box's current text. */
    var formatText: string
    var preview: Preview
    var status: Status
    /** The message boxes shown so far, oldest first. */
    var messages: seq<MessageBox>
    /** The files saved so far, oldest first. */
    var written: seq<SaveCall>

    /**
     * The combo box holds a supported format, the preview shows exactly the
     * selected file, and every save made has the shape of a conversion.
     */
    ghost predicate Valid()
      reads this
    {
      && formatText in SupportedFormats
      && preview == (if imagePath.Some? then Thumbnail(imagePath.value) else Placeholder)
      && (imagePath.Some? ==> WellFormed(imagePath.value))
      && forall c :: c in written ==> WellFormedSave(c)
    }

    /** `__init__`: nothing selected, BMP chosen, empty preview and status. */
    constructor ()
      ensures Valid()
      ensures imagePath == None && formatText == DefaultFormat
      ensures preview == Placeholder && status == Blank
      ensures messages == [] && written == []
    {
      imagePath := None;
      formatText := DefaultFormat;
      preview := Placeholder;
      status := Blank;
      messages := [];
      written := [];
    }

    /**
     * The user picks an entry of the combo box. Its entries are `ComboItems()`,
     * which holds exactly the supported formats, so the set is tested here.
     */
    method SelectFormat(text: string)
      requires Valid()
      modifies this`formatText
      ensures Valid()
      ensures formatText == if text in SupportedFormats then text else old(formatText)
    {
      if text in SupportedFormats {
        formatText := text;
      }
    }

    /** `show_error`: the status reports the cause and a critical box is shown. */
    method ShowError(cause: Cause)
      modifies this`status, this`messages
      ensures status == Errored(cause)
      ensures messages == old(messages) + [Critical(cause)]
    {
      status := Errored(cause);
      messages := messages + [Critical(cause)];
    }

    /** `show_warning`: the status reports the warning and a warning box is shown. */
    method ShowWarning()
      modifies this`status, this`messages
      ensures status == Warned
      ensures messages == old(messages) + [WarningBox]
    {
      status := Warned;
      messages := messages + [WarningBox];
    }

    /**
     * `choose_image`: a cancelled dialog ("") changes nothing; otherwise the
     * chosen path is selected and previewed, or, when something in the `try`
     * block raises (`tryRaises`), the selection is cleared and the error
     * reported. `QPixmap` does not raise for an unreadable file: such a file
     * is selected with an empty preview, which is the `!tryRaises` case.
     */
    method ChooseImage(dialogResult: string, tryRaises: bool)
      requires Valid()
      modifies this`imagePath, this`preview, this`status, this`messages
      ensures Valid()
      ensures dialogResult == [] ==>
        imagePath == old(imagePath) && preview == old(preview)
        && status == old(status) && messages == old(messages)
      ensures dialogResult != [] && !tryRaises ==>
        imagePath == Some(ParsePath(dialogResult)) && preview == Thumbnail(ParsePath(dialogResult))
        && status == Chosen(ParsePath(dialogResult).name) && messages == old(messages)
      ensures dialogResult != [] && tryRaises ==>
        imagePath == None && preview == Placeholder
        && status == Errored(LoadFailed) && messages == old(messages) + [Critical(LoadFailed)]
    {
      if dialogResult == [] {
        return;
      }
      var path := ParsePath(dialogResult);
      imagePath := Some(path);
      if tryRaises {
        ShowError(LoadFailed);
        imagePath := None;
        preview := Placeholder;
      } else {
        preview := Thumbnail(path);
        status := Chosen(path.name);
      }
    }

    /**
     * `convert_image`: with nothing selected, a warning and nothing else;
     * otherwise the outcome of `Convert` on the selected path and the
     * lower-cased combo text: one more saved file and a success report, or
     * the failing step reported and nothing saved. The selection, the format
     * and the preview never change.
     */
    method ConvertImage(env: Environment)
      requires Valid()
      modifies this`status, this`messages, this`written
      ensures Valid()
      ensures imagePath == old(imagePath) && formatText == old(formatText) && preview == old(preview)
      ensures old(imagePath).None? ==>
        status == Warned && messages == old(messages) + [WarningBox] && written == old(written)
      ensures old(imagePath).Some? ==>
        match Convert(old(imagePath).value, Lower(formatText), env)
        case Success(call) =>
          && written == old(written) + [call]
          && status == Saved(call.target.name)
          && messages == old(messages) + [Information(call.target)]
        case Failure(failure) =>
          && written == old(written)
          && status == Errored(ConversionFailed(failure))
          && messages == old(messages) + [Critical(ConversionFailed(failure))]
    {
      if imagePath.None? {
        ShowWarning();
        return;
      }
      var outcome := TryConvert(imagePath.value, Lower(formatText), env);
      match outcome
      case Failure(failure) =>
        ShowError(ConversionFailed(failure));
      case Success(call) =>
        SaveOfChoice(formatText, call.target);
        written := written + [call];
        status := Saved(call.target.name);
        messages := messages + [Information(call.target)];
    }
  }

  /**
   * The `try` block of `convert_image`, step by step: open, normalise the
   * mode, derive the output path, create its directory, choose encoder and
   * options, save. `Convert` is its specification: this method makes exactly
   * the save `Convert` describes, or stops at the step `Convert` names, and
   * the properties of `Convert` are proved in `ConvertOfChoice` and
   * `ConvertSucceedsIff`.
   */
  method TryConvert(source: Path, format: string, env: Environment) returns (r: Result<SaveCall, Failure>)
    ensures r == Convert(source, format, env)
  {
    if env.decodedMode.None? {
      return Failure(OpenFailed);
    }
    var mode := env.decodedMode.value;
    var targetMode := TargetMode(format);
    if mode != targetMode {
      if !env.convertSucceeds {
        return Failure(ModeConversionFailed);
      }
      mode := targetMode;
    }
    var output := OutputPath(source, format);
    if output.None? {
      return Failure(InvalidPath);
    }
    if !env.mkdirSucceeds {
      return Failure(MkdirFailed);
    }
    var encoder := EncoderName(format);
    var options := SaveOptions(format);
    if !env.saveSucceeds {
      return Failure(SaveFailed);
    }
    r := Success(SaveCall(output.value, encoder, options, mode));
  }

  /**
   * The plan for a name with a real suffix, `<stem>.<ext>`, converted to a
   * combo format with every library step succeeding: it succeeds and saves
   * `<stem>_converted.<format>` in the same directory.
   */
  lemma PlanOfSuffixedName(dir: string, stem: string, ext: string, text: string, env: Environment)
    requires stem != [] && '/' !in stem
    requires ext != [] && '.' !in ext && '/' !in ext
    requires text in SupportedFormats
    requires env.decodedMode.Some? && env.convertSucceeds && env.mkdirSucceeds && env.saveSucceeds
    ensures Convert(Path(dir, stem + "." + ext), Lower(text), env).Success?
    ensures var call := Convert(Path(dir, stem + "." + ext), Lower(text), env).value;
      && call.target == Path(dir, stem + ConvertedTag + "." + Lower(text))
      && WellFormedSave(call)
      && call.encoder == (if text == "JPG" then "JPEG" else text)
  {
    var source := Path(dir, stem + "." + ext);
    ConvertSucceedsIff(source, text, env);
    ConvertOfChoice(source, text, env);
    assert !EndsInDot(source.name) by {
      assert source.name[|source.name| - 1] == ext[|ext| - 1];
    }
    SplitAtLastDot(stem, ext);
  }

  /** The dialog's text for `<dir><stem>.<ext>` parses back to that path. */
  lemma ParseOfFile(dir: string, stem: string, ext: string)
    requires dir == [] || dir[|dir| - 1] == '/'
    requires stem != [] && '/' !in stem && '/' !in ext
    ensures ParsePath(Str(Path(dir, stem + "." + ext))) == Path(dir, stem + "." + ext)
    ensures Str(Path(dir, stem + "." + ext)) != []
  {
    var name := stem + "." + ext;
    assert '/' !in name by {
      assert forall i :: 0 <= i < |name| ==> name[i] == (if i < |stem| then stem[i] else if i == |stem| then '.' else ext[i - |stem| - 1]);
    }
    ParseOfStr(Path(dir, name));
  }

  /**
   * The first half of a session: a fresh widget, the file `<dir><stem>.<ext>`
   * chosen in the dialog and previewed, and `text` picked in the combo box.
   */
  method OpenWidget(dir: string, stem: string, ext: string, text: string) returns (w: ImageConverter)
    requires dir == [] || dir[|dir| - 1] == '/'
    requires stem != [] && '/' !in stem && '/' !in ext
    requires text in SupportedFormats
    ensures fresh(w) && w.Valid()
    ensures w.imagePath == Some(Path(dir, stem + "." + ext)) && w.formatText == text && w.written == []
  {
    w := new ImageConverter();
    var source := Path(dir, stem + "." + ext);
    var chosen := Str(source);
    assert ParsePath(chosen) == source && chosen != [] by {
      ParseOfFile(dir, stem, ext);
    }
    w.ChooseImage(chosen, false);
    assert w.imagePath == Some(source) && w.written == [];
    w.SelectFormat(text);
  }

  /**
   * A session with the widget: select `<dir><stem>.<ext>`, pick a combo
   * format, convert with every library step succeeding. Exactly one file is
   * saved, `<stem>_converted.<format>` in the same directory, with the
   * format's encoder, pixel mode and options.
   */
  method SelectAndConvert(dir: string, stem: string, ext: string, text: string, decodedMode: string)
    returns (call: SaveCall)
    requires dir == [] || dir[|dir| - 1] == '/'
    requires stem != [] && '/' !in stem
    requires ext != [] && '.' !in ext && '/' !in ext
    requires text in SupportedFormats
    ensures call.target == Path(dir, stem + ConvertedTag + "." + Lower(text))
    ensures WellFormedSave(call)
    ensures call.encoder == (if text == "JPG" then "JPEG" else text)
  {
    var w := OpenWidget(dir, stem, ext, text);
    var env := Environment(Some(decodedMode), true, true, true);
    PlanOfSuffixedName(dir, stem, ext, text, env);
    var r := Convert(Path(dir, stem + "." + ext), Lower(text), env);
    w.ConvertImage(env);
    assert w.written == [] + [r.value];
    call := w.written[0];
  }

  /** A save to an encoder without alpha and other than JPEG is in RGB with no options. */
  lemma OpaqueSave(c: SaveCall)
    requires WellFormedSave(c) && c.encoder in {"BMP", "TIFF", "ICO"}
    ensures c.mode == "RGB" && c.options == map[]
  {
  }

  /** The names the two examples below produce, spelled out. */
  lemma ExampleNames()
    ensures "photo" + ConvertedTag + "." + Lower("BMP") == "photo_converted.bmp"
    ensures "photo" + ConvertedTag + "." + Lower("JPG") == "photo_converted.jpg"
  {
    LowerTable();
  }

  /** Selecting `photo.png` (an RGBA image) and converting it to BMP saves `photo_converted.bmp` in RGB next to it. */
  method PhotoToBmp() returns (call: SaveCall)
    ensures call.target == Path("/pics/", "photo_converted.bmp")
    ensures call.encoder == "BMP" && call.mode == "RGB" && call.options == map[]
  {
    call := SelectAndConvert("/pics/", "photo", "png", "BMP", "RGBA");
    assert call.encoder == "BMP" && call.mode == "RGB" && call.options == map[] by {
      OpaqueSave(call);
    }
    assert call.target == Path("/pics/", "photo_converted.bmp") by {
      ExampleNames();
    }
  }

  /** Converting `photo.png` to JPG saves `photo_converted.jpg` with the JPEG encoder, in RGB, at quality 85 with optimize. */
  method PhotoToJpeg() returns (call: SaveCall)
    ensures call.target == Path("/pics/", "photo_converted.jpg")
    ensures call.encoder == "JPEG" && call.mode == "RGB"
    ensures call.options == map["quality" := IntValue(85), "optimize" := BoolValue(true)]
  {
    call := SelectAndConvert("/pics/", "photo", "png", "JPG", "RGBA");
    assert call.target == Path("/pics/", "photo_converted.jpg") by {
      ExampleNames();
    }
  }
}
