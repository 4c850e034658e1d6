# Timelapse menu-bar app: a verified model of its core

The application is a macOS menu-bar app that turns a selection of photos into
a timelapse video with ffmpeg. This project models the parts of it that compute
something. The model is written in Dafny and the properties below are proved
about it.

- **Settings object** (`App.TimelapseApp`). A class with the fields the app
  updates in place: the selected photos, the framerate, the resolution (a
  scale expression, or none for "Original"), the codec and the optional custom
  command. Each menu action is a method whose postcondition lists every
  field it changes and every field it keeps.
- **Command builder** (`Command`). `get_ffmpeg_command` is two things here.
  `Command.CommandLine` is a pure function of the settings and the two paths.
  `App.TimelapseApp.FfmpegCommand` builds the argument list step by step, as
  the source does, and is proved equal to that function. Lemmas then give the
  exact text of a generated command, say which codec and scale flags appear
  and when, and describe placeholder substitution in a custom command.
- **Picker output** (`Selection`). The file picker prints one path per line.
  The app strips that text, splits it on line breaks, drops empty lines and
  sorts the rest.
- **Job preparation** (`Job`). This covers the link names `img_00000<ext>`,
  `img_00001<ext>`, ... and the loop that stages one link per photo. It also
  covers the glob pattern ffmpeg reads the links by, the output path, whose
  extension follows the codec, and the message shown when ffmpeg ends, which
  includes the last 200 characters of its error output.
- **Python behaviour the core relies on** (`Text`, `Order`, `Decimal`,
  `Optional`):
  - `str.replace`, `str.split`, `str.join` and `str.strip`, with Python's
    set of whitespace characters;
  - the ordering of `str` values and `sorted`;
  - the `{i:05d}` format;
  - the truthiness of an optional string.

Two results go beyond single operations:

- Saving the edit dialog's text unchanged gives the same command as before
  (`Command.SavingDialogTextKeepsCommand`). This holds when the framerate,
  the resolution and the input pattern contain no `{`.
- With at most 100000 photos, sorting the staged link paths (as the glob
  expansion does) keeps them in selection order
  (`Job.FramesFollowSelection`). From the 100001st photo on, five digits no
  longer suffice: `img_100000` sorts before `img_10001`
  (`Job.LinkOrderBreaksAt100000`). Link names stay distinct for any number
  of photos (`Job.LinkNamesDistinct`).

The outside world is passed in as parameters:

- the directory `tempfile.mkdtemp` creates;
- `Path.suffix`, as a function from a path to its extension;
- the formatted timestamp;
- the home directory that `os.path.expanduser` uses;
- the exit code and output of the file picker;
- the exit code and error output of ffmpeg.

## Model

| member | source | states |
|---|---|---|
| App.TimelapseApp.constructor | timelapse_app.py:15-24 | A new app has no selected photos and the default settings: framerate `24`, resolution `1920:-2`, codec `libx264`, no custom command. |
| App.TimelapseApp.SetFramerate | timelapse_app.py:171-175 | Only the framerate changes, and the custom command becomes `None`; resolution, codec and selection are kept. |
| App.TimelapseApp.SetResolution | timelapse_app.py:177-181 | Only the resolution changes, and the custom command becomes `None`; framerate, codec and selection are kept. |
| App.TimelapseApp.SetCodec | timelapse_app.py:183-187 | Only the codec changes, and the custom command becomes `None`; framerate, resolution and selection are kept. |
| App.TimelapseApp.CommandEditorText | timelapse_app.py:191 | The dialog opens on the custom command when it is truthy, otherwise on the generated command with `{input}` and `{output}` as the paths. |
| App.TimelapseApp.EditCommand | timelapse_app.py:202-203 | Clicking Save stores the stripped text as the custom command; cancelling changes nothing; no other field changes either way. |
| App.TimelapseApp.ResetCommand | timelapse_app.py:206-211 | The settings equal the constructor's defaults afterwards; the selection is kept. |
| App.TimelapseApp.ClearSelection | timelapse_app.py:166-168 | The selection becomes empty; the settings are kept. |
| App.TimelapseApp.SelectPhotos | timelapse_app.py:153-156 | A successful, non-blank picker answer replaces the selection with its parsed lines; any other answer keeps the old selection; the settings are kept. |
| App.TimelapseApp.FfmpegCommand | timelapse_app.py:101-130 | The command assembled step by step from the fields equals `Command.CommandLine` of the current settings. |
| App.TimelapseApp.CreateTimelapse | timelapse_app.py:215-262 | Nothing is done exactly when the selection is empty. Otherwise there is one link per photo, each named with the first photo's suffix. The input pattern and output path are as computed by `Job`, the command is `CommandLine` of them, and the report follows ffmpeg's exit code. |
| Command.CustomCommandSubstitution | timelapse_app.py:103-107 | A truthy custom command is split at every `{input}` and re-joined with the input pattern, then split at every `{output}` and re-joined with the output path. |
| Command.SubstituteEachOnce | timelapse_app.py:105-106 | In a template with one `{input}` followed by one `{output}`, where neither the text around them nor the input pattern contains a `{`, exactly those two placeholders are replaced; all other text is unchanged. |
| Command.CustomCommandEachOnce | timelapse_app.py:103-107 | The same, for the command of settings whose custom command has that shape. |
| Command.CommandHeadText | timelapse_app.py:109-114 | The text of a generated command up to the input pattern is exactly `ffmpeg -y -framerate <rate> -pattern_type glob -i '`. |
| Command.BaseArgsText | timelapse_app.py:109-114 | The fixed arguments joined by spaces read exactly `ffmpeg -y -framerate <rate> -pattern_type glob -i '<input>'`, which is that head followed by the input pattern and a closing quote. |
| Command.GeneratedCommandText | timelapse_app.py:109-130 | Without a custom command, the command is that head, then each codec and scale option after a space, then a space and `'<output>'`. |
| Command.GeneratedCommandEnds | timelapse_app.py:109-130 | Without a custom command, the command starts with the head and the quoted input pattern and ends with the quoted output path. |
| Command.CodecFlagsFollowCodec | timelapse_app.py:117-122 | `-c:v <codec>` appears exactly for the three preset codecs, `-pix_fmt` exactly for the two H.26x codecs, `-profile:v` exactly for ProRes; for the three presets the options are exactly `-c:v libx264 -pix_fmt yuv420p`, `-c:v libx265 -pix_fmt yuv420p` or `-c:v prores_ks -profile:v 3`, followed by the scale filter; any other codec adds no codec flag. |
| Command.ScaleFilterIffResolution | timelapse_app.py:125-126 | `-vf` appears exactly when the resolution is truthy, and then `-vf scale=<resolution>` are the last two options; "Original" is the only resolution preset without a scale. |
| Command.OptionsBraceFree | timelapse_app.py:117-126 | No encoder option contains `{` unless the resolution does. |
| Command.DialogTemplateShape | timelapse_app.py:191 | The dialog text of a generated command is the head, `{input}`, the middle options, `{output}`, and a closing quote. |
| Command.DialogTemplateUnpadded | timelapse_app.py:191 | The dialog text of a generated command neither starts nor ends with whitespace, whatever the framerate. |
| Command.SavingDialogTextKeepsCommand | timelapse_app.py:189-204 | Saving the dialog's initial text unchanged stores a truthy custom command that yields the same command for every input and output path, when no setting or input pattern contains `{`. |
| Selection.NonEmptyOnly | timelapse_app.py:154 | The filtered list has no empty string and holds every non-empty line exactly as often as the input does. |
| Selection.PickerAcceptsIff | timelapse_app.py:153-155 | A selection is produced exactly when the picker exits with 0 and prints a character that is not whitespace; the `if files` guard never fails after the first check. |
| Selection.PickerSelection | timelapse_app.py:154-156 | The selection is non-empty and sorted. It is the non-empty lines of the output, with multiplicity, and none holds a line break. The lines re-joined give the stripped output. |
| Selection.PickerSelectionUnique | timelapse_app.py:156 | Any sorted list with the same entries is the stored selection. |
| Job.StageLinks | timelapse_app.py:229-231 | The loop creates one link per photo, in order; link `i` is `os.path.join(temp_dir, img_<i:05d><ext>)` pointing to photo `i`. |
| Job.LinkNamesDistinct | timelapse_app.py:230 | Different indices give different link names, for any index. |
| Job.LinkNamesOrdered | timelapse_app.py:228-230 | Below 100000, link names sort as their indices do. |
| Job.LinkOrderBreaksAt100000 | timelapse_app.py:228-230 | At index 100000 the order breaks: `img_100000` sorts before `img_10001`. |
| Job.StagedLinkMatchesPattern | timelapse_app.py:239 | The input pattern is the directory prefix, `*` and the extension, and every staged link path matches it with `*` covering no `/`. |
| Job.StagedPathsDistinct | timelapse_app.py:229-231 | The staged link paths are pairwise distinct. |
| Job.FramesFollowSelection | timelapse_app.py:228-239 | For at most 100000 photos, sorting the staged paths leaves them in staging order. |
| Job.OutputFollowsCodec | timelapse_app.py:235-236 | The output extension is `.mov` exactly for `prores_ks` and `.mp4` otherwise. The output path ends with it and is `<home>/Desktop/timelapse_<timestamp><ext>`. |
| Job.TrimSlashes | timelapse_app.py:236 | The home directory loses exactly its trailing slashes, as `expanduser` strips them. |
| Job.ErrorTail | timelapse_app.py:261 | The error text is the last `min(200, len)` characters of ffmpeg's error output, all of it when it is at most 200 long. |
| Job.ReportDescribesOutcome | timelapse_app.py:254-262 | The report is a success exactly on exit code 0. The success message ends with the output file's name, which the output path ends with after a `/`. The failure message is `Failed to create timelapse:` and a line break, followed by the last `min(200, len)` characters of the error output: all of it up to 200 characters, exactly 200 characters beyond that. |
| Text.ReplaceIsSplitJoin | timelapse_app.py:105-106 | `s.replace(p, r)` equals `r.join(s.split(p))`. |
| Text.SplitJoinRoundTrip | timelapse_app.py:154 | Joining the pieces of `s.split(p)` with `p` gives back `s`. |
| Text.SplitPiecesAvoidPattern | timelapse_app.py:154 | No piece of `s.split(p)` contains `p`. |
| Text.SplitAtFirst | timelapse_app.py:105-106 | A placeholder of the `{name}` form splits a text at its first occurrence when the text before it is free of it. |
| Text.StripIsSlice | timelapse_app.py:153-154 | `s.strip()` is the slice of `s` after its leading whitespace. |
| Text.StripEndsNotBlank | timelapse_app.py:203 | `s.strip()` neither starts nor ends with whitespace. |
| Text.StripDropsBlanks | timelapse_app.py:203 | Everything `s.strip()` removes is whitespace. |
| Text.StripKeepsUnpadded | timelapse_app.py:203 | Text without surrounding whitespace is kept as it is. |
| Text.StripEmptyIffBlank | timelapse_app.py:153 | `s.strip()` is empty exactly when `s` is all whitespace. |
| Order.SortStrings | timelapse_app.py:156 | `sorted` returns a sorted permutation of its input. |
| Order.SortedUnique | timelapse_app.py:156 | Two sorted lists with the same elements are equal. |
| Order.LexTotal | timelapse_app.py:156 | Python's string order is total on different strings. |
| Order.LexTransitive | timelapse_app.py:156 | Python's string order is transitive. |
| Decimal.ZeroPadValue | timelapse_app.py:230 | The `{i:05d}` text reads back as `i`. |
| Decimal.ZeroPadLength | timelapse_app.py:230 | Below 100000, the `{i:05d}` text has exactly five digits. |
| Decimal.ZeroPadOrder | timelapse_app.py:230 | Below `10^width`, zero-padded renderings sort as the numbers do. |
| Decimal.ZeroPadInjective | timelapse_app.py:230 | Distinct numbers have distinct zero-padded renderings. |

## Left out

- Menu construction (`build_menu`), notifications and alerts are UI calls into
  a library outside this model. Their message texts are modelled only in
  `Job.JobReport`.
- The `osascript` invocation of the file picker is an external process. Its
  exit code and output are parameters. Its exception path only shows an alert
  and changes no state, so it is not modelled.
- Running ffmpeg through the shell is an external process. Its exit code and
  error output are parameters of `App.TimelapseApp.CreateTimelapse`.
- `tempfile.mkdtemp`, `os.symlink` and `shutil.rmtree` are filesystem
  effects. The staging directory is a parameter and the links are a list of
  (path, target) pairs.
- App.TimelapseApp.CreateTimelapse: does not model failures of `tempfile.mkdtemp`,
  `os.symlink` or `subprocess.run`. In the source an exception from
  `mkdtemp` leaves `create_timelapse` at once. An exception from the other
  two leaves it after the `finally` cleanup (timelapse_app.py:222-266). The
  model always returns `Ran` for a non-empty selection.
- `datetime.now().strftime(...)` is the clock. The timestamp is a parameter.
- `Path.suffix` is a function parameter applied to the first selected photo;
  pathlib's rules for suffixes are not modelled.
- `os.path.expanduser` reads the environment. The home directory is a
  parameter; only its trailing-slash trimming is modelled.
- The `rumps.Window` dialog is UI. Only the save step is modelled, with the
  click and the entered text as parameters.
- Job.StagedLinkMatchesPattern: treats the extension literally. Glob
  metacharacters in a suffix are not interpreted.
- Job.FramesFollowSelection: treats ffmpeg's glob expansion as a code-point
  sort of the staged paths. Locale collation is not modelled.
- Command.SavingDialogTextKeepsCommand: assumes no `{` in the framerate,
  resolution or input pattern. With a `{` there, substitution can find
  placeholders the generated text did not contain.
