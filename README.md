# Image converter: a Dafny model

The program is a small PyQt6 desktop widget, `ImageConverter`. The user picks an image file
with a dialog and a target format from a combo box, then presses a button. The widget then
re-encodes the image with Pillow and writes it next to the source as
`<stem>_converted.<format>`. This project models the widget's state and its two handlers,
`choose_image` and `convert_image`, and proves what they do.

- `wrappers.dfy` (module `Wrappers`): `Option` and `Result`.
- `py_strings.dfy` (module `PyStrings`): the Python string operations the handlers rely on.
  These are ASCII `lower()` and `upper()`, `rfind`, and string ordering (for `sorted`).
- `pure_paths.dfy` (module `PurePaths`): the POSIX `pathlib` rules the output name comes from.
  These are `name`, `suffix`, `stem`, `with_name`, `with_stem` and `with_suffix`, following
  Python 3.12. A path is a directory part (everything up to and including the last `/`) plus a name.
- `conversion_plan.dfy` (module `ConversionPlan`): the pure decisions inside `convert_image`:
  - the supported formats and the sorted combo items, with BMP as the default;
  - the pixel mode: RGBA for png, webp and gif, RGB otherwise, converting only on a mismatch;
  - the output path;
  - the Pillow encoder name: JPEG for jpg, otherwise the upper-cased format;
  - the save options: quality 85 and optimize, for jpg only.

  `Convert` puts the steps together in the code's order: open, normalise the mode, derive the
  path, create the directory, save. It returns the save call made or the step that raised.
- `image_converter.dfy` (module `Widget`): the class `ImageConverter`. Its fields are the
  selected path (`image_path`), the combo text, the preview, the status line, the message
  boxes shown, and the files saved. It has the constructor and the handlers `SelectFormat`,
  `ChooseImage`, `ConvertImage`, `ShowError` and `ShowWarning`. `TryConvert` is the `try` body
  written step by step and proved equal to `Convert`. Some scenario methods drive the widget
  through a whole session.

The class invariant `Valid` holds after every handler:
- the combo holds a supported format;
- the preview shows exactly the selected file (or the placeholder when nothing is selected);
- every file saved has a known encoder, the pixel mode that encoder gets, and JPEG options only for JPEG.

The output name differs from `<stem>_converted.<format>` in one case: a name ending in a dot,
such as `photo.`. Python 3.12's pathlib, whose rules this model follows, gives that name no suffix. `with_stem` therefore yields `photo._converted`,
and `with_suffix` replaces `._converted`, so the file is saved as `photo.png` and the tag is gone.
The model follows the code here (`ConvertedName`, `OutputOfDottedEnd`). In every case the output
name still differs from the source's name (`ConvertedNameDiffers`), so the source file is never
overwritten.

## Model

| member | source | states |
|---|---|---|
| PyStrings.RFind | image_converter.py:172-173 | `str.rfind`, as pathlib uses it to find a name's suffix: -1 or an index holding the character, with no later occurrence |
| PyStrings.Lower | image_converter.py:165 | `currentText().lower()`: same length, no upper-case letter left, every other character unchanged (on the combo texts: `LowerTable`, `LowerOfUpper`) |
| PyStrings.Upper | image_converter.py:176 | `target_format.upper()`: same length, no lower-case letter left, every other character unchanged (undoes `Lower`: `UpperOfLower`) |
| PyStrings.StrLess | image_converter.py:99 | the string order `sorted` uses: no string is less than itself (the combo's order: `ComboItems`) |
| PyStrings.StrLessAsymmetric | image_converter.py:99 | of two strings, at most one is less than the other, so the ascending order of `ComboItems` is strict |
| PyStrings.UpperOfLower | image_converter.py:176 | `upper()` undoes `lower()` on text without lower-case letters, so the encoder name of a combo text is the text itself |
| PurePaths.Str | image_converter.py:182 | `str(path)`: the directory part followed by the name, each recoverable from the text (round trip: `ParseOfStr`; distinct names: `StrDiffers`) |
| PurePaths.ParsePath | image_converter.py:143 | `Path(file_path)` splits the dialog's text into a well-formed directory and name that print back as that text |
| PurePaths.ParseOfStr | image_converter.py:143 | parsing a well-formed path's text gives the same path back |
| PurePaths.StrDiffers | image_converter.py:172-173 | two paths in one directory with different names print differently |
| PurePaths.Suffix | image_converter.py:172-173 | `PurePath.suffix`: empty, or a dot and at least one dot-free character, ending the name and shorter than it |
| PurePaths.Stem | image_converter.py:172-173 | `PurePath.stem`: stem and suffix make up the name; a non-empty name has a non-empty stem |
| PurePaths.SuffixExists | image_converter.py:172-173 | a name has a suffix exactly when its last dot is neither its first nor its last character; a name without a dot has none |
| PurePaths.LeadingDotOnly | image_converter.py:172-173 | a name whose only dot is its first character (`.bashrc`) has no suffix and is its own stem |
| PurePaths.TrailingDot | image_converter.py:172-173 | a name ending in a dot (`photo.`, `..`) has no suffix and is its own stem |
| PurePaths.SplitAtLastDot | image_converter.py:172-173 | `<stem>.<ext>`, with a dot-free `ext`, has suffix `.<ext>` and stem `<stem>` |
| PurePaths.NoSuffixAfterAppend | image_converter.py:172 | appending dot-free text to a name without a suffix (and not ending in a dot) gives a name without a suffix |
| PurePaths.WithName | image_converter.py:172 | `with_name`: fails exactly when the path's name is empty or the new name is empty, contains `/` or is `.`; otherwise the same directory with the new name, still well formed |
| PurePaths.WithStem | image_converter.py:172 | `with_stem`: `with_name` of the new stem followed by the old suffix; fails exactly when that name is not valid or the path's name is empty (what it yields for a given name: `WithStemKeepsSuffix`) |
| PurePaths.WithSuffix | image_converter.py:173 | `with_suffix`: fails exactly when the path's name is empty or the suffix has a `/`, is `.`, or is non-empty without a leading dot; otherwise the same directory with the old stem followed by the new suffix (for `.<ext>`: `WithSuffixReplaces`) |
| PurePaths.Restem | image_converter.py:172 | putting a new stem in front of a name's suffix leaves that stem and that suffix |
| PurePaths.WithStemKeepsSuffix | image_converter.py:172 | `with_stem` to a valid stem succeeds, keeps the directory and the suffix, and installs the new stem |
| PurePaths.WithSuffixReplaces | image_converter.py:173 | `with_suffix(".<ext>")` succeeds exactly when the name is non-empty, and then gives `<stem>.<ext>` in the same directory |
| ConversionPlan.ComboItems | image_converter.py:99-100 | the combo items are exactly `SUPPORTED_FORMATS`, strictly ascending in Python's string order, and include the default BMP |
| ConversionPlan.LowerOfUpper | image_converter.py:165 | lowering upper-case text gives lower-case letters, and `upper()` gives the text back |
| ConversionPlan.LowerOfChoice | image_converter.py:165 | `currentText().lower()` of a combo text is non-empty, without `.` or `/`, and upper-cases back to the text |
| ConversionPlan.TargetMode | image_converter.py:168 | `target_mode`: RGB or RGBA, RGBA exactly for png, webp and gif (per combo text: `TargetModeOfChoice`) |
| ConversionPlan.TargetModeOfChoice | image_converter.py:168 | the target mode is RGBA exactly for PNG, WEBP and GIF, and RGB for the other four |
| ConversionPlan.Normalize | image_converter.py:169-170 | after the mode check the image is in the target mode, and it was converted exactly when its mode differed |
| ConversionPlan.EncoderName | image_converter.py:176 | `pillow_format`: JPEG for jpg, otherwise a text as long as the format with no lower-case letters (per combo text: `EncoderOfChoice`) |
| ConversionPlan.EncoderOfChoice | image_converter.py:176 | the Pillow format is JPEG for JPG and the combo text itself otherwise, always one of the seven encoders |
| ConversionPlan.SaveOptions | image_converter.py:177 | `save_options`: for jpg exactly the keys `quality` = 85 and `optimize` = True, otherwise empty (per combo text: `SaveOptionsOfChoice`) |
| ConversionPlan.SaveOptionsOfChoice | image_converter.py:177 | the save options are `{quality: 85, optimize: True}` for JPG and empty otherwise; they are non-empty exactly for JPG |
| ConversionPlan.OutputPath | image_converter.py:172-173 | `with_stem(stem + "_converted")` then `with_suffix("." + format)`; any result lies in the source's directory (its name: `OutputOfPlainEnd`, `OutputOfDottedEnd`, `OutputPathShape`) |
| ConversionPlan.ConvertedName | image_converter.py:172-173 | the output file's name, which always ends in the format; `OutputPathShape` proves it is the name `OutputPath` gives |
| ConversionPlan.OutputOfDottedEnd | image_converter.py:172-173 | for a name ending in a dot, the output is `<name><format>` in the same directory (the tag is lost) |
| ConversionPlan.OutputOfPlainEnd | image_converter.py:172-173 | for any other name, the output is `<stem>_converted.<format>` in the same directory |
| ConversionPlan.ConvertedNameDiffers | image_converter.py:172-173 | the output name never equals the source name |
| ConversionPlan.OutputPathShape | image_converter.py:172-173 | for a selected name and a combo format, both path steps succeed; the output is in the source's directory, named by `ConvertedName`, never the source's name, with suffix `.<format>` |
| ConversionPlan.Convert | image_converter.py:166-178 | the `try` body: a failed open stops everything; a mode-conversion failure only happens when the mode differs; a save happens only after mkdir succeeds, in the target mode, with the format's encoder and options |
| ConversionPlan.SaveOfChoice | image_converter.py:167-178 | the save made for any combo format has a known encoder, the mode that encoder gets, and JPEG options only for JPEG |
| ConversionPlan.ConvertOfChoice | image_converter.py:166-178 | a successful conversion writes a well-formed save with the expected encoder, in the source's directory, under a different file name, with suffix `.<format>` |
| ConversionPlan.ConvertSucceedsIff | image_converter.py:166-178 | a conversion succeeds exactly when the file opens, the mode conversion (if needed) succeeds, mkdir succeeds and the save succeeds |
| Widget.ImageConverter.constructor | image_converter.py:19-21 | `__init__` plus the combo setup on lines 99-100: nothing selected, BMP chosen, placeholder preview, nothing shown or saved |
| Widget.ImageConverter.SelectFormat | image_converter.py:98-100 | the combo only takes one of its items; any other text leaves the selection unchanged. The method tests membership in `SUPPORTED_FORMATS`, which by the contract of `ComboItems` is the same as membership in the sorted item list |
| Widget.ImageConverter.ShowError | image_converter.py:188-192 | the status reports the error and one critical box is added |
| Widget.ImageConverter.ShowWarning | image_converter.py:194-198 | the status reports the warning and one warning box is added |
| Widget.ImageConverter.ChooseImage | image_converter.py:131-157 | a cancelled dialog changes nothing; otherwise the file becomes the selection and the preview and the status names it, unless the `try` block raises, which clears the selection and preview and reports the error; the invariant is kept |
| Widget.ImageConverter.ConvertImage | image_converter.py:159-186 | with no selection, only a warning; otherwise exactly one saved file plus a success report, or no file plus the failing step reported; selection, format and preview never change; the invariant is kept |
| Widget.TryConvert | image_converter.py:166-178 | the step-by-step `try` body makes exactly the save `Convert` describes, or stops at the step `Convert` names |
| Widget.PlanOfSuffixedName | image_converter.py:166-178 | converting `<stem>.<ext>` with every library step succeeding saves `<stem>_converted.<format>` in the same directory, well formed, with the format's encoder |
| Widget.ParseOfFile | image_converter.py:143 | the dialog's text for `<dir><stem>.<ext>` is non-empty and parses back to that path |
| Widget.OpenWidget | image_converter.py:131-157 | a fresh widget after choosing `<dir><stem>.<ext>` and picking a combo text: that file is selected, that text chosen, nothing saved, and the invariant holds |
| Widget.SelectAndConvert | image_converter.py:131-186 | a whole session (select a file, pick a format, convert) saves exactly one file, `<stem>_converted.<format>`, with the format's encoder, mode and options |
| Widget.OpaqueSave | image_converter.py:168-177 | a save to BMP, TIFF or ICO is in RGB with no options |
| Widget.PhotoToBmp | image_converter.py:159-186 | converting `/pics/photo.png` (RGBA) to BMP saves `/pics/photo_converted.bmp` with encoder BMP, in RGB, with no options |
| Widget.PhotoToJpeg | image_converter.py:159-186 | converting `/pics/photo.png` (RGBA) to JPG saves `/pics/photo_converted.jpg` with encoder JPEG, in RGB, with quality 85 and optimize |

## Left out

- Window setup, layout, style sheets, fonts, icons and the footer (image_converter.py:33-129) are not modelled, because they have no behaviour beyond appearance.
- The nested `setup_window` inside `__init__` (image_converter.py:24-29) is not modelled, because it is defined but never called.
- The file dialog is an input. `ChooseImage` receives the text it returned, with "" meaning cancelled.
- Whether the `try` block of `choose_image` raises is an input flag to `ChooseImage`, `tryRaises`; a true flag stands for the `except` path. Loading, scaling and preview size are not modelled.
- `Widget.ImageConverter.ChooseImage`: `QPixmap` returns an empty pixmap rather than raising for a missing or undecodable file, so such a file is reported as selected, with an empty preview, instead of being rejected with an error. The model's `Thumbnail` does not distinguish an empty preview from a real one.
- The path rules are those of Python 3.12's pathlib. Other versions may treat a name ending in a dot differently (as having a suffix), which would change the output name for such files; they are not modelled.
- Pillow is an `Environment` input: whether `Image.open` succeeds, the decoded mode, and whether `convert`, `mkdir` and `save` succeed. Pixel data, encoders and files written are not modelled.
- `mkdir(parents=True, exist_ok=True)` is modelled only as a step that succeeds or raises.
- Message texts, colours, the exception text and the traceback print are not modelled, and neither is the `__main__` block that starts the application. A message box is recorded by kind and by cause or path.
- `PurePaths.ParsePath`: the dialog's text is split at its last `/` without pathlib's normalisation. Repeated slashes, trailing slashes, `.` components and Windows paths are not modelled.
- `PyStrings.Lower` and `PyStrings.Upper` map ASCII letters only. Python's full Unicode case mapping is not modelled, because the texts they receive are the seven combo items.
- `Widget.ImageConverter.SelectFormat` models the user picking an entry of the non-editable combo box. Typing into the box is not possible in the program.
- Cleanup of a partially written output file after a failed save is not modelled, because it happens inside Pillow.
