/**
 * The script entry of `extend.py`: resolve the parsed options, then run the
 * pipeline on the validated request.  A validation error ends the script
 * before the engine is called.
 */
module ExtendScript {
  import opened Wrappers
  import opened Paths
  import opened Formats
  import opened ArgumentResolver
  import opened ExtensionEngine
  import opened Pipeline

  /** How the script ends: with an `ArgumentError`, or with the pipeline's status. */
  datatype ScriptOutcome = ArgumentFailed(error: ArgError) | Finished(status: Status)

  method RunScript(ns: Namespace, platform: string, env: map<string, string>, c: Collaborators)
    returns (newEnv: map<string, string>, trace: seq<Effect>, outcome: ScriptOutcome)
    ensures ns.fadeLength == Some(0.0) ==> trace == [] && outcome == ArgumentFailed(FadeLengthZero) && newEnv == env
    ensures ns.fadeLength != Some(0.0) && ns.format == OGG && platform == WindowsPlatform ==>
              trace == [] && outcome == ArgumentFailed(OggOnWindows) && newEnv == env
    ensures var r := Resolve(ns, platform, env);
            r.result.Ok? ==>
              newEnv == r.env && outcome.Finished? && (trace, outcome.status) == Run(r.result.value, c)
    ensures trace != [] <==> outcome.Finished?
  {
    var r := Resolve(ns, platform, env);
    newEnv := r.env;
    if r.result.Err? {
      trace := [];
      outcome := ArgumentFailed(r.result.error);
      return;
    }
    var status;
    trace, status := Extend(r.result.value, c);
    outcome := Finished(status);
  }
}
