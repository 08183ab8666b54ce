/**
 * The argument resolver of `extend.py`: the option record that the
 * command-line parser produces, its defaults, and the checks and defaults
 * applied to it once parsed.  The process environment that the resolver
 * writes the interactive-mode flag into is passed in and returned.
 */
module ArgumentResolver {
  import opened Wrappers
  import opened Paths
  import opened Formats

  /** The parsed option record, before the output directory is defaulted. */
  datatype Namespace = Namespace(
    inputFilePath: Path,
    extendedLength: real,
    outputDir: Option<Path>,
    minDurationMultiplier: real,
    fadeLength: Option<real>,
    bruteForce: bool,
    showProgressBar: bool,
    format: Format,
    interactive: bool)

  /** The validated extension request handed to the pipeline: its output directory is resolved. */
  datatype Args = Args(
    inputFilePath: Path,
    extendedLength: real,
    outputDir: Path,
    minDurationMultiplier: real,
    fadeLength: Option<real>,
    bruteForce: bool,
    showProgressBar: bool,
    format: Format,
    interactive: bool)

  /** The two `ArgumentError`s the resolver raises. */
  datatype ArgError = FadeLengthZero | OggOnWindows

  /** What resolution returns, together with the process environment afterwards. */
  datatype GetArgsOutcome = GetArgsOutcome(result: Result<Args, ArgError>, env: map<string, string>)

  const DefaultMinDurationMultiplier: real := 0.35

  /** The platform name on which OGG output is refused. */
  const WindowsPlatform: string := "windows"

  /** The environment variable that tells the loop engine to ask the user to pick a loop. */
  const InteractiveModeVar: string := "PML_INTERACTIVE_MODE"

  /** The record the parser yields when only the two required options are given. */
  function DefaultNamespace(inputFilePath: Path, extendedLength: real): (r: Namespace)
    ensures r.inputFilePath == inputFilePath && r.extendedLength == extendedLength
    ensures r.outputDir.None? && r.fadeLength.None?
    ensures r.minDurationMultiplier == 0.35 && r.format == M4A
    ensures !r.bruteForce && !r.showProgressBar && !r.interactive
  {
    Namespace(inputFilePath, extendedLength, None, DefaultMinDurationMultiplier, None,
              false, false, DefaultFormat, false)
  }

  /** The invariants of a validated request on a given platform. */
  predicate ValidArgs(a: Args, platform: string) {
    a.fadeLength != Some(0.0) && !(a.format == OGG && platform == WindowsPlatform)
  }

  /** The output directory after defaulting: the given one, or the input file's parent. */
  function ResolvedOutputDir(ns: Namespace): (r: Path)
    ensures ns.outputDir.None? ==> r == Parent(ns.inputFilePath)
    ensures ns.outputDir.Some? ==> r == ns.outputDir.value
  {
    match ns.outputDir
    case None => Parent(ns.inputFilePath)
    case Some(d) => d
  }

  /**
   * The checks and defaults applied after parsing: default the output
   * directory, refuse a zero fade length, refuse OGG on Windows (in that
   * order), and only then set the interactive-mode variable.
   */
  function Resolve(ns: Namespace, platform: string, env: map<string, string>): (r: GetArgsOutcome)
    ensures r.result == Err(FadeLengthZero) <==> ns.fadeLength == Some(0.0)
    ensures r.result == Err(OggOnWindows) <==>
              ns.fadeLength != Some(0.0) && ns.format == OGG && platform == WindowsPlatform
    ensures r.result.Ok? <==> ns.fadeLength != Some(0.0) && !(ns.format == OGG && platform == WindowsPlatform)
    ensures r.result.Ok? ==> ValidArgs(r.result.value, platform)
    ensures r.result.Ok? ==>
              var a := r.result.value;
              a.outputDir == ResolvedOutputDir(ns) &&
              a.inputFilePath == ns.inputFilePath && a.extendedLength == ns.extendedLength &&
              a.minDurationMultiplier == ns.minDurationMultiplier && a.fadeLength == ns.fadeLength &&
              a.bruteForce == ns.bruteForce && a.showProgressBar == ns.showProgressBar &&
              a.format == ns.format && a.interactive == ns.interactive
    ensures r.result.Err? ==> r.env == env
    ensures r.result.Ok? && !ns.interactive ==> r.env == env
    ensures r.result.Ok? && ns.interactive ==>
              InteractiveModeVar in r.env && r.env[InteractiveModeVar] == "1" &&
              r.env.Keys == env.Keys + {InteractiveModeVar} &&
              forall k :: k in env && k != InteractiveModeVar ==> r.env[k] == env[k]
  {
    var outputDir := ResolvedOutputDir(ns);
    if ns.fadeLength == Some(0.0) then
      GetArgsOutcome(Err(FadeLengthZero), env)
    else if ns.format == OGG && platform == WindowsPlatform then
      GetArgsOutcome(Err(OggOnWindows), env)
    else
      var a := Args(ns.inputFilePath, ns.extendedLength, outputDir, ns.minDurationMultiplier,
                    ns.fadeLength, ns.bruteForce, ns.showProgressBar, ns.format, ns.interactive);
      GetArgsOutcome(Ok(a), if ns.interactive then env[InteractiveModeVar := "1"] else env)
  }

  /** The interactive-mode variable changes only when resolution succeeds for an interactive request. */
  lemma InteractiveOnlyOnSuccess(ns: Namespace, platform: string, env: map<string, string>)
    ensures var r := Resolve(ns, platform, env);
            r.env != env ==> r.result.Ok? && ns.interactive
    ensures var r := Resolve(ns, platform, env);
            r.result.Ok? && ns.interactive ==> InteractiveModeVar in r.env && r.env[InteractiveModeVar] == "1"
  {
  }

  /** Resolution never clears the interactive-mode variable once it is set. */
  lemma InteractiveNeverCleared(ns: Namespace, platform: string, env: map<string, string>)
    requires InteractiveModeVar in env && env[InteractiveModeVar] == "1"
    ensures var r := Resolve(ns, platform, env);
            InteractiveModeVar in r.env && r.env[InteractiveModeVar] == "1"
  {
  }

  /** A request made of the defaults is always accepted, on every platform, and leaves the environment alone. */
  lemma DefaultsResolve(input: Path, extendedLength: real, platform: string, env: map<string, string>)
    ensures var r := Resolve(DefaultNamespace(input, extendedLength), platform, env);
            r.result.Ok? && r.env == env &&
            r.result.value.outputDir == Parent(input) &&
            r.result.value.format == M4A && r.result.value.fadeLength == None &&
            r.result.value.minDurationMultiplier == 0.35 &&
            !r.result.value.bruteForce && !r.result.value.showProgressBar
  {
  }
}
