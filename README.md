# qmusiclooper `extend` — a Dafny model

`extend.py` is a command-line front end to PyMusicLooper. It takes an audio file and a target length and asks the PyMusicLooper engine to write a looped, extended copy. When the requested format is M4A, it transcodes the engine's WAV output to AAC in an `.m4a` file with ffmpeg. Then it copies the input's tags and file dates onto the result. It deletes the intermediate file when the transcoded file is a different file.

This project models that script in Dafny and proves properties of the model.

- **`wrappers.dfy`** (`Wrappers`): the `Option` and `Result` types.
- **`paths.dfy`** (`Paths`): a POSIX path as an anchor plus a sequence of parts.
  - Models `parent`, `name`, `suffix` and `stem`.
  - Models `with_suffix`, including the errors it raises for a bad suffix and for a path with no name.
  - Proves the properties the script relies on: the suffix is replaced, the parent directory is kept, the result is unchanged exactly when the suffix was already the requested one, path validity is kept, and the operation is idempotent.
- **`formats.dfy`** (`Formats`): the five output formats `WAV FLAC OGG MP3 M4A`.
  - Models the upper-casing converter of `--format` and its matching against the choices.
  - Proves that matching ignores ASCII case and accepts every format's own name.
- **`arguments.dfy`** (`ArgumentResolver`): what `get_args` does after argparse has parsed the command line.
  - The output directory defaults to the input file's directory.
  - A fade length of exactly 0 is rejected, then OGG on Windows.
  - The environment variable `PML_INTERACTIVE_MODE` is set to `"1"` only when both checks pass and `--interactive` was given.
- **`engine.dfy`** (`ExtensionEngine`): how `main` derives the parameters of the `LoopExportHandler`.
  - The engine format: M4A is rendered as WAV first.
  - The `fade_length or 0` fall-back.
  - `disable_fade_out` and `batch_mode`.
- **`pipeline.dfy`** (`Pipeline`): the rest of `main`, with every collaborator's result supplied as input.
  - The collaborators are the engine run, the ffmpeg transcode, `copy_metadata`, `copy_filedate` and `unlink`.
  - `Run` is a reference definition. It walks the fixed stage list and says which calls are made, with which arguments, and how the run ends.
  - The method `Extend` follows the script's own control flow and is proved equal to `Run`.
  - Lemmas about `Run` prove:
    - the call order;
    - exactly when each call is made;
    - the possible outcomes;
    - that an encoder failure aborts the run;
    - that `UnsupportedFormat` from the tag copier is recovered from;
    - that the deletion of the raw file is the last call;
    - the final path in the transcoding and non-transcoding cases.
- **`script.dfy`** (`ExtendScript`): the `__main__` block. It resolves the arguments, then runs the pipeline only when they were accepted.

Two behaviours of the code are easy to miss, and the model keeps both:

- The M4A output is not always a different file from the raw one. `with_suffix(".m4a")` returns the raw path itself when the raw file's suffix is already `.m4a`. The comparison at `extend.py:167` then skips the deletion. The model keeps that case (`Pipeline.FinalPathSpec`, `Pipeline.RunCalls`). A raw file named just `.m4a` has no suffix, so it is still transcoded, to `.m4a.m4a` (`Pipeline.FinalPathDotFileExample`).
- `with_suffix` raises ValueError for a raw path with no name. This is modelled as the extra fatal outcome `FinalPathFailed`.

## Model

| member | source | states |
|---|---|---|
| Paths.Name | extend.py:137 | the name is the last part; for a valid path it is empty exactly when there are no parts |
| Paths.Parent | extend.py:97 | the parent keeps the anchor and drops exactly the last part; the parent of an anchor-only path is itself; validity is kept |
| Paths.LastDot | extend.py:137 | the index of the last '.' in a name, or -1; no '.' follows it |
| Paths.LastDotAppend | extend.py:137 | the last '.' of a concatenation lies in the right half when that has one, otherwise in the left |
| Paths.Suffix | extend.py:137 | the suffix is non-empty exactly when the name has a dot that is neither first nor last; it is then a proper ending of the name, starts with its last dot and has no other dot |
| Paths.Stem | extend.py:137 | stem followed by suffix is the whole name; the stem is empty only for an empty name |
| Paths.SplitAfterAppend | extend.py:137 | appending a simple suffix to a non-empty stem gives a name whose suffix and stem are those two |
| Paths.WithSuffix | extend.py:137 | with_suffix fails exactly for an invalid suffix or a nameless path, keeps the parent, and names the result stem + suffix |
| Paths.WithSuffixSuffix | extend.py:137 | after with_suffix(".m4a") the suffix is the new one and the stem is the old one |
| Paths.WithSuffixUnchangedIff | extend.py:137 | with_suffix returns the same path exactly when the name already had that suffix |
| Paths.WithSuffixValid | extend.py:137 | with_suffix on a valid path gives a valid path |
| Paths.WithSuffixIdempotent | extend.py:137 | applying with_suffix twice equals applying it once |
| Paths.WithSuffixReplacesExample | extend.py:137 | "music/song.wav" becomes "music/song.m4a" |
| Paths.WithSuffixLastOnlyExample | extend.py:137 | only the last suffix of "a.tar.gz" is replaced |
| Paths.WithSuffixAppendsExample | extend.py:137 | a dot-file or trailing-dot name gets the suffix appended; a nameless path is an error |
| Formats.Upper | extend.py:85 | upper-casing keeps the length and maps every character |
| Formats.Lower | extend.py:137 | lower-casing keeps the length and maps every character |
| Formats.ParseFormat | extend.py:79-87 | a --format value is accepted as format f exactly when its upper-cased form is f's name |
| Formats.UpperIdempotent | extend.py:85 | upper-casing twice equals upper-casing once |
| Formats.UpperLower | extend.py:85 | upper-casing a lower-cased string equals upper-casing the string |
| Formats.ParseIgnoresCase | extend.py:82-85 | the format option is matched without regard to ASCII case |
| Formats.ParseFormatName | extend.py:82-85 | each choice is accepted under its own name and under its lower-case name |
| ArgumentResolver.DefaultNamespace | extend.py:17-26 | the parsed record when only the required options are given: no output directory, no fade length, multiplier 0.35, format M4A, every flag off |
| ArgumentResolver.ResolvedOutputDir | extend.py:96-97 | the output directory is the given one, or else the input file's parent |
| ArgumentResolver.Resolve | extend.py:94-112 | fade length 0 is rejected first, then OGG on "windows"; otherwise the arguments are accepted with the defaulted output directory; PML_INTERACTIVE_MODE is set to "1" only on acceptance with --interactive, and no other variable changes |
| ArgumentResolver.InteractiveOnlyOnSuccess | extend.py:99-111 | the environment changes only when the arguments are accepted and --interactive was given, and then PML_INTERACTIVE_MODE is "1" |
| ArgumentResolver.InteractiveNeverCleared | extend.py:110-111 | an environment that already has PML_INTERACTIVE_MODE=1 keeps it |
| ArgumentResolver.DefaultsResolve | extend.py:17-26 | the default options (M4A, no fade, multiplier 0.35) are accepted on every platform, and the output goes beside the input |
| ExtensionEngine.EngineFormat | extend.py:118-122 | the engine format is always one the engine writes: the requested one when it is WAV, FLAC, OGG or MP3, and WAV for M4A |
| ExtensionEngine.FadeOrZero | extend.py:128 | a missing fade length becomes 0; a given one is passed on |
| ExtensionEngine.EngineParamsOf | extend.py:116-133 | the handler parameters: fade-out disabled exactly when no fade length was given, batch mode exactly when no progress bar was requested, the engine format, and every other option passed through |
| ExtensionEngine.ZeroFadeIffDisabled | extend.py:99-102 | for every validated request (fade length not 0, the invariant the resolver establishes), the engine receives fade length 0 exactly when fade-out is disabled |
| ExtensionEngine.ZeroFadeIndistinguishable | extend.py:117-128 | without the zero check, a fade of 0 and no fade would both reach the engine as 0 and differ only in disable_fade_out |
| Pipeline.TranscodeSuffixIsM4a | extend.py:137 | the suffix built from the format name is ".m4a" |
| Pipeline.FinalPath | extend.py:135-137 | the delivered file's path fails to exist exactly for M4A on a nameless raw path, and always lies in the raw file's directory |
| Pipeline.FinalPathDotFileExample | extend.py:137 | a raw file named ".m4a" has no suffix and is transcoded to a different file ".m4a.m4a" |
| Pipeline.FinalPathSpec | extend.py:135-154 | only M4A is transcoded; the final file sits beside the raw one with the same stem and suffix ".m4a"; it is the raw file exactly when the raw file's suffix is already ".m4a"; a nameless raw path has no final path |
| Pipeline.CallsFrom | extend.py:156-169 | the walk over the later stages makes at most one call per stage |
| Pipeline.CallsFromCalls | extend.py:156-169 | a stage's call appears in the walk exactly when the walk reaches that stage and the stage applies |
| Pipeline.EndFromFailed | extend.py:148-169 | the walk ends in failure at a stage exactly when it reaches that stage, the stage applies and its call fails |
| Pipeline.FailedCallIsLast | extend.py:148-169 | when the walk ends in failure, its last call belongs to the failing stage |
| Pipeline.CallsFromMembers | extend.py:141-169 | every call of the walk is one of its stages, with the run's own arguments |
| Pipeline.CallsFromInOrder | extend.py:135-169 | a walk over stages in order makes its calls in that order |
| Pipeline.Run | extend.py:115-169 | the reference run: the engine is called first and the run makes at most one call per stage |
| Pipeline.RunInOrder | extend.py:123-169 | a run first calls the engine and then makes its calls in the order transcode, tag copy, date copy, deletion |
| Pipeline.RunCalls | extend.py:134-169 | the engine is always called; the transcode exactly for M4A; the tag copy unless the transcode failed; the date copy exactly after a tag copy that did not fail with anything but UnsupportedFormat; the deletion exactly after a successful date copy when the final file differs from the raw one |
| Pipeline.RunCallsConsistent | extend.py:123-169 | every call uses the input path, the raw path, the final path, the aac codec and the 0:a map as the script does |
| Pipeline.RunOutcome | extend.py:134-169 | a run completes with the final path exactly when no stage fails (UnsupportedFormat from the tag copier does not count); a failure is reported at the stage of the last call; a nameless raw path fails with only the engine call made |
| Pipeline.EncoderFailureAborts | extend.py:148-152 | an ffmpeg failure is re-raised: no tag copy, date copy or deletion follows |
| Pipeline.UnsupportedMetadataIsRecovered | extend.py:156-165 | UnsupportedFormat from copy_metadata is swallowed: the date copy still runs and the run does not fail at the tag copy |
| Pipeline.CleanupIsLast | extend.py:164-169 | the deletion, when made, is of the raw file, is the last call, comes directly after the date copy onto the final file, and happens only when the final file differs |
| Pipeline.NoTranscodeKeepsRaw | extend.py:153-154 | for a non-M4A format, there is no transcode and no deletion, and the final file is the raw file |
| Pipeline.TranscodeReplacesRaw | extend.py:135-169 | an M4A run with all calls succeeding, on a raw file whose suffix is not ".m4a", completes with a different ".m4a" file in the same directory, after a transcode and a deletion |
| Pipeline.StageStep | extend.py:134-169 | one step of the stage walk: the calls and the end of a walk in terms of its first stage and the rest |
| Pipeline.Extend | extend.py:115-169 | the script's main makes exactly the calls, and ends exactly as, the reference run says |
| ExtendScript.RunScript | extend.py:172-177 | rejected arguments make no call and leave the environment alone; accepted ones give the resolved environment and exactly the reference run; calls happen exactly when the pipeline ran |

## Left out

- Argument parsing itself (argparse: flags, `required=True`, type conversion of paths and floats, usage messages, exit status 2). The model starts from a parsed namespace. The format option's upper-casing and choice matching are modelled separately (`Formats.ParseFormat`).
- Case mapping beyond ASCII: `str.upper` and `str.lower` are modelled on ASCII letters only.
- Floating point: lengths and multipliers are Dafny `real`. NaN, infinities and rounding are not modelled, so `fade_length == 0` is exact equality with 0.
- Logging: every `LOGGER` call, including the logged ffmpeg command line and the error log before re-raising.
- The internals of ffmpeg, `copy_metadata`, `copy_filedate`, `Path.unlink` and `LoopExportHandler.extend_track_runner`. Each is reduced to the call it receives and an outcome supplied from outside.
- The exception objects themselves. A collaborator's failure other than the swallowed `UnsupportedFormat` is a `Failed(stage)` status. The `with_suffix` ValueError is `FinalPathFailed`, and the two argument errors are `ArgumentFailed`.
- `get_platform` is a parameter (`platform`), and `os.environ` is a `map<string, string>` passed in and returned.
- `warnings.filterwarnings("ignore")` and `setup_root_logger()`: they do not affect the calls made or the outcome.
- Windows path semantics: paths are POSIX parts compared structurally. Windows drive letters and case-insensitive path equality are not modelled.
- Pipeline.FinalPathSpec: `with_suffix` is modelled as CPython 3.11 implements it (the suffix starts at the last '.', not at position 0 and not at the end). Later CPython versions, which changed the treatment of trailing dots, are not modelled.
- Pipeline.TranscodeReplacesRaw: the final path differs from the raw one only when the raw file's suffix is not already ".m4a", which is the code's behaviour; the stronger "always differs" is not claimed.
