# Image mover, modelled in Dafny

`image_mover.py` is a small utility that collects the figure images of a
book's code repository (every `figures/*.png` under the repository root)
and copies them, flat, into one notes directory under canonical names. A
figure named `chapter_section.png` or `chapter_section_subsection.png`
(for example `12_5.png` or `3_1_4.png`) gets a name whose fields are
zero-padded to at least two characters (`12_05.png`, `03_01_04.png`).
A name whose stem does not have two or three `_`-separated fields is
skipped; one that does, but with a field that is not an integer, raises
`ValueError`. A destination that already exists is never overwritten.
An exception raised while processing one figure is reported, and the loop
goes on with the next figure.

The model has five modules:

- `Wrappers`: the `Option` and `Result` types.
- `PyText`: the Python string operations the script relies on. These are
  `str(int)`, `int(str)`, `str.rjust`, `str.rstrip` with a character set,
  and `str.split` on one character. Each is written out with the
  behaviour CPython gives them on the inputs at hand.
- `FigureNames`: `parse_filename` and `build_new_filename`. It proves:
  - every name the script builds parses back to the same key;
  - building is canonical;
  - concrete names from the script's domain behave as stated.
- `Runs`: a left fold of a step over a sequence. This is the shape of the
  script's `for` loop; lemmas about the fold's prefixes are proved once,
  generically.
- `ImageMover`: the file system and the script's operations.
  - The file system is a map from paths to byte contents, plus a fixed
    set of directories.
  - `copy_file` and `parse_and_move_file` are specification functions.
    The `FileSystem` class holds the files as a mutable field, and its
    methods are proved to agree with those functions.
  - The entry point's loop is a method, `RunBatch`, proved equal to a fold
    of the per-file step. Lemmas about that fold state what the batch
    guarantees: each file is attempted in order, a failure is isolated,
    nothing is overwritten, every new file is a reported copy in the
    target directory, and each copy carries its source's contents.

An exception is modelled as an `Err` value carrying the exception's kind
and its argument. The `try`/`except` of the loop becomes a report: a
sequence holding one outcome per discovered file.

## Model

| member | source | states |
|---|---|---|
| PyText.NatToString | image_mover.py:44 | `str(n)` for `n >= 0` is a non-empty digit string whose value is `n`, with a leading `0` only for `"0"` itself |
| PyText.IntToString | image_mover.py:44 | `str(i)` is the digits of `i` for `i >= 0`, and `-` followed by the digits of `-i` otherwise |
| PyText.ParseInt | image_mover.py:30 | `int(s)` succeeds exactly when `s` is an optional sign followed by one or more digits; the value is negative only with a leading `-` and non-positive with one; its value is given by `PaddedDigitsParse`, `PlusParse` and `NegativeParse` |
| PyText.PaddedDigitsParse | image_mover.py:30 | `int` reads the digits `d` behind any number of `0`s as the decimal value of `d` |
| PyText.PlusParse | image_mover.py:30 | `int("+" + d)` is the decimal value of the digits `d` |
| PyText.NegativeParse | image_mover.py:30 | `int("-" + d)` is the negated decimal value of the digits `d` |
| PyText.RJust | image_mover.py:44 | `s.rjust(width, fill)` is exactly `s` when `s` already has `width` characters, and otherwise is `width` long with `s` at its end and only `fill` before it |
| PyText.IntToStringChars | image_mover.py:44 | `str(i)` is a digit or `-` followed by digits only, and ends in a digit |
| PyText.PaddedChars | image_mover.py:44 | every character of `str(i).rjust(width, "0")` is a digit or `-`, and the last is a digit |
| PyText.RStrip | image_mover.py:23 | `s.rstrip(chars)` is a prefix of `s`, does not end in a character of `chars`, and only characters of `chars` were removed |
| PyText.Split | image_mover.py:23 | `s.split(sep)` yields at least one field, no field contains `sep`, and joining the fields with `sep` gives back `s` |
| PyText.SplitJoin | image_mover.py:23 | joining one or more fields that contain no separator, then splitting, gives back exactly those fields |
| PyText.ParseIntPadded | image_mover.py:30 | `int(str(i).rjust(width, "0")) == i` for every `i >= 0` and every width, and for a negative `i` whenever `rjust` adds no padding |
| FigureNames.Fields | image_mover.py:23 | `file.name.rstrip('.png').split('_')` gives one or more fields, none holding `_`, that join with `_` back to the stripped name |
| FigureNames.ParseFields | image_mover.py:30-31 | `map(int, parts)` yields every value in order exactly when each field parses, and otherwise fails on the first field that does not |
| FigureNames.ParseFilename | image_mover.py:17-31 | a name is skipped exactly when its stripped stem has other than 2 or 3 `_`-fields; it parses exactly when it has 2 or 3 fields that are all integers, to the key of those values with a subsection exactly for 3 fields; otherwise `int` raises on its first field, left to right, that is not an integer |
| FigureNames.Pad | image_mover.py:44 | a padded field is at least two characters, holds no `_`, ends in a digit, and reads back as the same integer; a negative number is rendered unpadded as `str(n)` |
| FigureNames.PadNatural | image_mover.py:44 | for `n >= 0` the padded field is the digits of `n` behind zeros up to width two, never truncated |
| FigureNames.NewStem | image_mover.py:44-46 | the stem of the new name ends in a digit |
| FigureNames.BuildNewFilename | image_mover.py:33-47 | the new name is exactly the padded chapter, section and (when present) subsection joined with `_`, followed by `.png` |
| FigureNames.NewStemFields | image_mover.py:44-46 | the stem splits on `_` into exactly the padded chapter, section and (when present) subsection |
| FigureNames.BuildFields | image_mover.py:23-47 | the `_`-fields of a built name, once `.png` is stripped, are exactly the padded chapter, section and (when present) subsection |
| FigureNames.FieldsOfPngName | image_mover.py:23 | a stem not ending in `.`, `p`, `n` or `g`, followed by `.png`, has the `_`-fields of the stem |
| FigureNames.ParseDecimal | image_mover.py:30 | `int(str(n)) == n` for `n >= 0` |
| FigureNames.ParseBuildRoundTrip | image_mover.py:17-47 | `parse_filename(build_new_filename(c, s, t))` returns `(c, s, t)` for every integer key (CPython's digit limit aside, see below) |
| FigureNames.BuildIdempotent | image_mover.py:17-47 | rebuilding the name from the parse of a built name gives the same name |
| FigureNames.PadOneDigit | image_mover.py:44 | a one-digit field gets one leading `0` |
| FigureNames.PadTwoDigits | image_mover.py:44 | a two-digit field is left as it is |
| FigureNames.TwoFieldExample | image_mover.py:23-47 | `12_5.png` parses to `(12, 5, None)` and is renamed `12_05.png` |
| FigureNames.ThreeFieldExample | image_mover.py:23-47 | `1_2_3.png` parses to `(1, 2, 3)` and is renamed `01_02_03.png` |
| FigureNames.OneFieldExample | image_mover.py:26-28 | `chapter1.png` has one field and is skipped |
| FigureNames.MalformedExample | image_mover.py:30 | `a_b.png` has two fields, and `int` raises on `a` |
| FigureNames.DoubleExtensionExample | image_mover.py:23 | `1_2.png.png` loses both extensions to `rstrip` and parses to `(1, 2, None)` |
| ImageMover.Name | image_mover.py:23 | `Path.name` is the last component: a non-empty path is its parent followed by its name |
| ImageMover.Join | image_mover.py:60 | `new_directory / new_file` lies directly in `new_directory` and is named `new_file` |
| ImageMover.CopyError | image_mover.py:15 | `shutil.copyfile` raises nothing exactly when source and destination differ, the source is a regular file, the destination's directory exists and the destination is not a directory |
| ImageMover.CopyFileSpec | image_mover.py:7-15 | with the check on, an existing destination is left alone; otherwise the copy succeeds as `shutil.copyfile` allows, the destination then holds the source's bytes, and on every other outcome the files are unchanged |
| ImageMover.CopyFileTwice | image_mover.py:7-15 | repeating a guarded copy changes nothing further |
| ImageMover.MoveSpec | image_mover.py:49-62 | a skipped name copies nothing; a malformed one raises `ValueError` and changes nothing; otherwise the destination is the built name inside the target directory; an existing destination is kept; an absent one is copied to exactly when `shutil.copyfile` raises nothing, and otherwise that exception is the outcome; a successful copy adds exactly that file with the source's bytes |
| ImageMover.BatchSpec | image_mover.py:72-76 | the loop reports one outcome per discovered file |
| ImageMover.BatchStep | image_mover.py:72-76 | processing one more file extends the report by its outcome and continues from the files the earlier ones left |
| ImageMover.BatchExtend | image_mover.py:72-74 | the batch over the first `i + 1` files is the batch over the first `i`, then file `i` processed on the files they left |
| ImageMover.BatchAttemptsEach | image_mover.py:72-76 | the `i`-th outcome is that of processing the `i`-th file on the state the first `i` files left, whatever their outcomes |
| ImageMover.BatchIgnoresFailed | image_mover.py:73-76 | a file that is skipped, kept or raises leaves the final files and the later outcomes as if it had not been discovered |
| ImageMover.BatchPreservesExisting | image_mover.py:10-12 | no file that existed before the loop is overwritten or removed |
| ImageMover.BatchCreatesOnlyCopies | image_mover.py:58-62 | every file the loop creates lies directly in the target directory under a name that parses, and some outcome reports copying to it |
| ImageMover.BatchCopiesContents | image_mover.py:58-62 | a file reported as copied holds, after the loop, the bytes its source had before |
| ImageMover.MixedBatchExample | image_mover.py:72-76 | a malformed name followed by `12_5.png`: the first is reported with its `ValueError`, and the second is still copied to `12_05.png` |
| ImageMover.MoveMalformedExample | image_mover.py:54-58 | processing `a_b.png` raises `ValueError` on `a` and changes nothing |
| ImageMover.MoveTwoFieldExample | image_mover.py:54-62 | processing `12_5.png` copies it to `12_05.png` in the target directory |
| ImageMover.FileSystem.IsFile | image_mover.py:10 | `Path.is_file` holds exactly for the regular files |
| ImageMover.FileSystem.ShutilCopyFile | image_mover.py:15 | the destination gets the source's bytes unless `shutil.copyfile` raises, in which case nothing changes |
| ImageMover.FileSystem.CopyFile | image_mover.py:7-15 | `copy_file` on the mutable file system agrees with `CopyFileSpec` |
| ImageMover.FileSystem.ParseAndMoveFile | image_mover.py:49-62 | `parse_and_move_file` on the mutable file system agrees with `MoveSpec` |
| ImageMover.RunBatch | image_mover.py:64-76 | the loop over the discovered files, with its per-file exception handling, leaves the file system and report that `BatchSpec` gives; the target directory must exist, as asserted at startup |

## Left out

- Logging through `loguru` and the `print` in the exception handler are not modelled. What they would show is the report of outcomes that `RunBatch` returns.
- `root.rglob('figures/*.png')` is not modelled. The discovered paths are an input sequence in discovery order. The glob is lazy, so a file created during the loop could in principle be discovered; the model does not capture that.
- The hard-coded `root` and `move_dir` paths are parameters. The `assert root.is_dir()` at startup is not modelled. The `assert move_dir.is_dir()` is `RunBatch`'s precondition.
- The `is_file`/`is_dir` test at the start of `parse_and_move_file` only logs and carries on, so it has no effect in the model.
- Paths are sequences of components with no normalisation, symbolic links or case folding. `shutil.copyfile`'s same-file test is path equality, and its special-file and symbolic-link handling are not modelled.
- Permission errors, full disks, partial writes and file metadata are not modelled. Only the `FileNotFoundError`, `IsADirectoryError` and `SameFileError` cases of `shutil.copyfile` are.
- ImageMover.CopyError: the exception kinds are those of a POSIX system. On Windows, where the script's hard-coded target directory lives, opening a directory raises `PermissionError` rather than `IsADirectoryError`. Only the kind reported for that case differs.
- ImageMover.FileSystem: directories are fixed, since the script never creates or removes one.
- PyText.ParseInt: Python's `int()` also accepts surrounding whitespace, `_` between digits and non-ASCII decimal digits. None of these can occur in a field the script builds. For other names, the model rejects them where Python would accept them. CPython also raises `ValueError` when the text has more than 4300 digits (its default limit on int/str conversion since 3.10.7 and 3.11); the model reads such text. No field of a file name reaches that length, since file names are at most 255 characters.
- PyText.IntToString: CPython raises `ValueError` when converting an integer of more than 4300 digits to text; the model renders every integer. A key parsed from a file name never has that many digits, but `build_new_filename` called with such a number would raise.
- FigureNames.ParseFilename: the script's `parse_filename` ignores its argument and reads the loop's global `file`. That global is always the same path that was passed in, so the model parses the name it is given.
- ImageMover.MoveSpec: an `Exception` raised by a figure is reported as an `Err` outcome, and the loop continues. A `KeyboardInterrupt` or other non-`Exception` would stop the script; that is not modelled.
