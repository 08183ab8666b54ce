/**
 * The translation of a validated request into the parameters of the loop
 * extension engine (`LoopExportHandler`), whose own work is not part of
 * this model.
 */
module ExtensionEngine {
  import opened Wrappers
  import opened Paths
  import opened Formats
  import opened ArgumentResolver

  /** The engine's constructor arguments. */
  datatype EngineParams = EngineParams(
    path: Path,
    outputDir: Path,
    minDurationMultiplier: real,
    extendedLength: real,
    fadeLength: real,
    disableFadeOut: bool,
    batchMode: bool,
    bruteForce: bool,
    format: Format)

  /** The formats the engine can write itself. */
  predicate EngineWritable(f: Format) {
    f in {WAV, FLAC, OGG, MP3}
  }

  /** The engine's output format: the requested one when the engine writes it, otherwise WAV (to be transcoded). */
  function EngineFormat(f: Format): (r: Format)
    ensures EngineWritable(r)
    ensures EngineWritable(f) ==> r == f
    ensures !EngineWritable(f) ==> r == WAV
    ensures r != M4A
  {
    if f in {WAV, FLAC, OGG, MP3} then f else WAV
  }

  /**
   * `fade_length or 0`: the fade length when one is given, otherwise zero.
   * Python's `or` also falls back for a given 0.0, which is falsy; the inner
   * branch keeps that case, though on reals both arms give the same value.
   */
  function FadeOrZero(fade: Option<real>): (r: real)
    ensures fade.Some? ==> r == fade.value
    ensures fade.None? ==> r == 0.0
  {
    match fade
    case None => 0.0
    case Some(x) => if x != 0.0 then x else 0.0
  }

  /** The parameters the engine is constructed with for a request. */
  function EngineParamsOf(a: Args): (p: EngineParams)
    ensures p.disableFadeOut <==> a.fadeLength.None?
    ensures p.fadeLength == (if a.fadeLength.Some? then a.fadeLength.value else 0.0)
    ensures p.batchMode == !a.showProgressBar
    ensures p.format == EngineFormat(a.format) && p.format != M4A
    ensures p.path == a.inputFilePath && p.outputDir == a.outputDir
    ensures p.minDurationMultiplier == a.minDurationMultiplier && p.extendedLength == a.extendedLength
    ensures p.bruteForce == a.bruteForce
  {
    EngineParams(
      path := a.inputFilePath,
      outputDir := a.outputDir,
      minDurationMultiplier := a.minDurationMultiplier,
      extendedLength := a.extendedLength,
      fadeLength := FadeOrZero(a.fadeLength),
      disableFadeOut := a.fadeLength.None?,
      batchMode := !a.showProgressBar,
      bruteForce := a.bruteForce,
      format := EngineFormat(a.format))
  }

  /**
   * For a validated request, in which a zero fade length has been refused,
   * the engine is told "no fade" in exactly one way: the fade value it
   * receives is zero exactly when fading is disabled.
   */
  lemma ZeroFadeIffDisabled(a: Args, platform: string)
    requires ValidArgs(a, platform)
    ensures var p := EngineParamsOf(a);
            p.fadeLength == 0.0 <==> p.disableFadeOut
  {
  }

  /** Without the zero-fade check the two ways of saying "no fade" would be confused. */
  lemma ZeroFadeIndistinguishable(a: Args, b: Args)
    requires a.fadeLength == Some(0.0) && b == a.(fadeLength := None)
    ensures EngineParamsOf(a).fadeLength == EngineParamsOf(b).fadeLength
    ensures EngineParamsOf(a).disableFadeOut != EngineParamsOf(b).disableFadeOut
  {
  }
}
