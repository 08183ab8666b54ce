/**
 * The extension pipeline of `extend.py`: run the loop engine, transcode the
 * raw result to M4A when that format was asked for, copy the tags and the
 * file dates of the input onto the final file, and delete the raw file when
 * it was superseded.  Each collaborator's result is an input; the pipeline
 * returns the ordered calls it made and how the run ended.
 */
module Pipeline {
  import opened Wrappers
  import opened Paths
  import opened Formats
  import opened ArgumentResolver
  import opened ExtensionEngine

  /** How a call to the encoder, the tag copier, the date copier or `unlink` ends. */
  datatype CallOutcome = Success | UnsupportedFormat | OtherFailure

  /** How the engine's `extend_track_runner` ends: the path of the raw file it wrote, or an exception. */
  datatype EngineOutcome = Produced(rawPath: Path) | EngineFailed

  /** The results the collaborators give in one run. */
  datatype Collaborators = Collaborators(
    engine: EngineOutcome,
    encoder: CallOutcome,
    metadata: CallOutcome,
    fileDate: CallOutcome,
    unlink: CallOutcome)

  /** The stages of the pipeline, each one call to a collaborator. */
  datatype Stage = Engine | Encoder | Metadata | FileDate | Cleanup

  /** A call the pipeline makes. */
  datatype Effect =
    | RunEngine(params: EngineParams)
    | Encode(source: Path, target: Path, audioCodec: string, streamMap: string)
    | CopyMetadata(source: Path, target: Path)
    | CopyFileDate(source: Path, target: Path)
    | Unlink(path: Path)

  /** How a run ends: with the final file, with a collaborator's exception, or with `with_suffix`'s `ValueError`. */
  datatype Status = Completed(finalPath: Path) | Failed(stage: Stage) | FinalPathFailed(error: PathError)

  const AudioCodec: string := "aac"

  /** Only the audio streams of the raw file are kept by the transcode. */
  const StreamMap: string := "0:a"

  /** The suffix of a transcoded file: a dot and the lower-cased format name. */
  const TranscodeSuffix: string := "." + Lower(FormatName(M4A))

  lemma TranscodeSuffixIsM4a()
    ensures TranscodeSuffix == ".m4a" && SimpleSuffix(TranscodeSuffix)
  {
    assert Lower(FormatName(M4A)) == "m4a";
  }

  function StageOf(e: Effect): Stage {
    match e
    case RunEngine(_) => Engine
    case Encode(_, _, _, _) => Encoder
    case CopyMetadata(_, _) => Metadata
    case CopyFileDate(_, _) => FileDate
    case Unlink(_) => Cleanup
  }

  /** The position of a stage in the fixed order of the pipeline. */
  function Position(s: Stage): nat {
    match s
    case Engine => 0
    case Encoder => 1
    case Metadata => 2
    case FileDate => 3
    case Cleanup => 4
  }

  /** Each stage occurs at most once, and the stages occur in the pipeline's order. */
  predicate InOrder(trace: seq<Effect>) {
    forall i, j :: 0 <= i < j < |trace| ==> Position(StageOf(trace[i])) < Position(StageOf(trace[j]))
  }

  /** Whether a stage's call is among the calls made. */
  predicate Calls(trace: seq<Effect>, s: Stage) {
    exists i :: 0 <= i < |trace| && StageOf(trace[i]) == s
  }

  /**
   * The path of the delivered file: the raw path itself, or for M4A the raw
   * path with its suffix replaced by ".m4a".
   */
  function FinalPath(format: Format, raw: Path): (r: Result<Path, PathError>)
    ensures r.Err? <==> format == M4A && Name(raw) == ""
    ensures r.Ok? ==> Parent(r.value) == Parent(raw)
  {
    TranscodeSuffixIsM4a();
    if format == M4A then WithSuffix(raw, TranscodeSuffix) else Ok(raw)
  }

  /**
   * Only M4A is transcoded; the transcoded file sits beside the raw one, keeps
   * its stem and has the suffix ".m4a"; it is the raw file itself exactly
   * when that already has the suffix ".m4a"; a raw path without a name has
   * no final path.
   */
  lemma FinalPathSpec(format: Format, raw: Path)
    ensures format != M4A ==> FinalPath(format, raw) == Ok(raw)
    ensures format == M4A && Name(raw) == "" ==> FinalPath(format, raw) == Err(EmptyName)
    ensures format == M4A && Name(raw) != "" ==>
              var r := FinalPath(format, raw);
              r.Ok? && Suffix(Name(r.value)) == ".m4a" && Stem(Name(r.value)) == Stem(Name(raw)) &&
              Parent(r.value) == Parent(raw) && (r.value == raw <==> Suffix(Name(raw)) == ".m4a")
    ensures format == M4A && ValidPath(raw) && Name(raw) != "" ==> ValidPath(FinalPath(format, raw).value)
  {
    TranscodeSuffixIsM4a();
    if format == M4A && Name(raw) != "" {
      WithSuffixSuffix(raw, TranscodeSuffix);
      WithSuffixUnchangedIff(raw, TranscodeSuffix);
      if ValidPath(raw) {
        WithSuffixValid(raw, TranscodeSuffix);
      }
    }
  }

  /**
   * A raw file named just ".m4a" ends in ".m4a" but has no suffix, so it is
   * still transcoded, to ".m4a.m4a", and is a different file.
   */
  lemma FinalPathDotFileExample()
    ensures FinalPath(M4A, Path("/o", [".m4a"])) == Ok(Path("/o", [".m4a.m4a"]))
    ensures FinalPath(M4A, Path("/o", [".m4a"])).value != Path("/o", [".m4a"])
  {
    TranscodeSuffixIsM4a();
    assert LastDot(".m4a") == 0 by {
      assert ".m4a"[..3] == ".m4";
      assert ".m4"[..2] == ".m";
      assert ".m"[..1] == ".";
    }
    assert Stem(".m4a") == ".m4a";
    assert ".m4a" + ".m4a" == ".m4a.m4a";
  }

  /** The fixed order of the stages after the engine has produced its raw file. */
  const LaterStages: seq<Stage> := [Encoder, Metadata, FileDate, Cleanup]

  /** Whether a stage applies to a run: only M4A is transcoded, and only a superseded raw file is deleted. */
  predicate Applies(s: Stage, a: Args, raw: Path, final: Path) {
    match s
    case Encoder => a.format == M4A
    case Cleanup => final != raw
    case _ => true
  }

  /** The call a stage makes. */
  function CallOf(s: Stage, a: Args, raw: Path, final: Path): Effect {
    match s
    case Engine => RunEngine(EngineParamsOf(a))
    case Encoder => Encode(raw, final, AudioCodec, StreamMap)
    case Metadata => CopyMetadata(a.inputFilePath, final)
    case FileDate => CopyFileDate(a.inputFilePath, final)
    case Cleanup => Unlink(raw)
  }

  /** What a call carries when it is made with a run's paths. */
  predicate Consistent(e: Effect, a: Args, raw: Path, final: Path) {
    match e
    case RunEngine(p) => p == EngineParamsOf(a)
    case Encode(s, t, codec, streams) => s == raw && t == final && codec == AudioCodec && streams == StreamMap
    case CopyMetadata(s, t) => s == a.inputFilePath && t == final
    case CopyFileDate(s, t) => s == a.inputFilePath && t == final
    case Unlink(p) => p == raw && final != raw
  }

  /**
   * Whether the run goes on after a stage's call: only the tag copier's
   * UnsupportedFormat is recovered from; every other failure is fatal.
   */
  predicate GoesOn(s: Stage, c: Collaborators) {
    match s
    case Engine => c.engine.Produced?
    case Encoder => c.encoder == Success
    case Metadata => c.metadata != OtherFailure
    case FileDate => c.fileDate == Success
    case Cleanup => c.unlink == Success
  }

  /** The calls of the given stages, in their order, up to and including the first fatal one. */
  function CallsFrom(stages: seq<Stage>, a: Args, c: Collaborators, raw: Path, final: Path): (r: seq<Effect>)
    ensures |r| <= |stages|
  {
    if stages == [] then []
    else if !Applies(stages[0], a, raw, final) then CallsFrom(stages[1..], a, c, raw, final)
    else if GoesOn(stages[0], c) then [CallOf(stages[0], a, raw, final)] + CallsFrom(stages[1..], a, c, raw, final)
    else [CallOf(stages[0], a, raw, final)]
  }

  /** How the given stages end: at the first fatal one, or with the final file. */
  function EndFrom(stages: seq<Stage>, a: Args, c: Collaborators, raw: Path, final: Path): Status {
    if stages == [] then Completed(final)
    else if Applies(stages[0], a, raw, final) && !GoesOn(stages[0], c) then Failed(stages[0])
    else EndFrom(stages[1..], a, c, raw, final)
  }

  /**
   * The reference behaviour of a run: the calls made and how it ends.  The
   * engine is always called first, and no stage is called more than once.
   */
  function Run(a: Args, c: Collaborators): (r: (seq<Effect>, Status))
    ensures 1 <= |r.0| <= 1 + |LaterStages| && r.0[0] == RunEngine(EngineParamsOf(a))
  {
    var first := [RunEngine(EngineParamsOf(a))];
    match c.engine
    case EngineFailed => (first, Failed(Engine))
    case Produced(raw) =>
      match FinalPath(a.format, raw)
      case Err(e) => (first, FinalPathFailed(e))
      case Ok(final) => (first + CallsFrom(LaterStages, a, c, raw, final), EndFrom(LaterStages, a, c, raw, final))
  }

  /** Whether the run over `stages` gets to the turn of stage `s`: no earlier applicable stage was fatal. */
  predicate Reaches(stages: seq<Stage>, s: Stage, a: Args, c: Collaborators, raw: Path, final: Path) {
    stages != [] &&
    (stages[0] == s ||
     ((!Applies(stages[0], a, raw, final) || GoesOn(stages[0], c)) && Reaches(stages[1..], s, a, c, raw, final)))
  }

  /** Whether every applicable stage of `stages` goes on. */
  predicate Passes(stages: seq<Stage>, a: Args, c: Collaborators, raw: Path, final: Path) {
    forall i :: 0 <= i < |stages| && Applies(stages[i], a, raw, final) ==> GoesOn(stages[i], c)
  }

  /** Stages listed strictly in the pipeline's order. */
  predicate StagesInOrder(stages: seq<Stage>) {
    forall i, j :: 0 <= i < j < |stages| ==> Position(stages[i]) < Position(stages[j])
  }

  lemma CallsCons(e: Effect, trace: seq<Effect>, s: Stage)
    ensures Calls([e] + trace, s) <==> StageOf(e) == s || Calls(trace, s)
  {
    var t := [e] + trace;
    if Calls(trace, s) {
      var i :| 0 <= i < |trace| && StageOf(trace[i]) == s;
      assert t[i + 1] == trace[i];
    }
    if StageOf(e) == s {
      assert t[0] == e;
    }
    if Calls(t, s) && StageOf(e) != s {
      var i :| 0 <= i < |t| && StageOf(t[i]) == s;
      assert i > 0 && t[i] == trace[i - 1];
    }
  }

  /** A stage's call is made exactly when the run reaches that stage and the stage applies. */
  lemma {:induction false} CallsFromCalls(stages: seq<Stage>, s: Stage, a: Args, c: Collaborators, raw: Path, final: Path)
    ensures Calls(CallsFrom(stages, a, c, raw, final), s) <==>
            Reaches(stages, s, a, c, raw, final) && Applies(s, a, raw, final)
  {
    if stages != [] {
      var s0, rest := stages[0], stages[1..];
      CallsFromCalls(rest, s, a, c, raw, final);
      if Applies(s0, a, raw, final) {
        var call := CallOf(s0, a, raw, final);
        assert StageOf(call) == s0;
        if GoesOn(s0, c) {
          CallsCons(call, CallsFrom(rest, a, c, raw, final), s);
        } else {
          CallsCons(call, [], s);
        }
      }
    }
  }

  /** The run over `stages` fails at `s` exactly when it reaches `s`, `s` applies and is fatal; otherwise it completes. */
  lemma {:induction false} EndFromFailed(stages: seq<Stage>, s: Stage, a: Args, c: Collaborators, raw: Path, final: Path)
    ensures EndFrom(stages, a, c, raw, final) == Failed(s) <==>
            Reaches(stages, s, a, c, raw, final) && Applies(s, a, raw, final) && !GoesOn(s, c)
    ensures EndFrom(stages, a, c, raw, final) == Completed(final) <==> Passes(stages, a, c, raw, final)
    ensures EndFrom(stages, a, c, raw, final).Failed? || EndFrom(stages, a, c, raw, final) == Completed(final)
  {
    if stages != [] {
      var rest := stages[1..];
      EndFromFailed(rest, s, a, c, raw, final);
      assert forall i :: 0 < i < |stages| ==> stages[i] == rest[i - 1];
      if Passes(stages, a, c, raw, final) {
        assert Passes(rest, a, c, raw, final) by {
          forall i | 0 <= i < |rest| && Applies(rest[i], a, raw, final)
            ensures GoesOn(rest[i], c)
          {
            assert rest[i] == stages[i + 1];
          }
        }
      }
    }
  }

  /** When the run over `stages` fails at a stage, that stage's call is the last one made. */
  lemma {:induction false} FailedCallIsLast(stages: seq<Stage>, a: Args, c: Collaborators, raw: Path, final: Path)
    requires EndFrom(stages, a, c, raw, final).Failed?
    ensures var calls := CallsFrom(stages, a, c, raw, final);
            calls != [] && StageOf(calls[|calls| - 1]) == EndFrom(stages, a, c, raw, final).stage
  {
    var s0, rest := stages[0], stages[1..];
    if !Applies(s0, a, raw, final) || GoesOn(s0, c) {
      FailedCallIsLast(rest, a, c, raw, final);
    }
  }

  /** Every call made is the call of one of the stages, an applicable one. */
  lemma {:induction false} CallsFromMembers(stages: seq<Stage>, a: Args, c: Collaborators, raw: Path, final: Path)
    ensures forall e :: e in CallsFrom(stages, a, c, raw, final) ==>
              StageOf(e) in stages && Applies(StageOf(e), a, raw, final) && e == CallOf(StageOf(e), a, raw, final)
  {
    if stages != [] {
      CallsFromMembers(stages[1..], a, c, raw, final);
    }
  }

  /** Stages taken in the pipeline's order make their calls in that order. */
  lemma {:induction false} CallsFromInOrder(stages: seq<Stage>, a: Args, c: Collaborators, raw: Path, final: Path)
    requires StagesInOrder(stages)
    ensures InOrder(CallsFrom(stages, a, c, raw, final))
  {
    if stages != [] {
      var s0, rest := stages[0], stages[1..];
      assert StagesInOrder(rest) by {
        forall i, j | 0 <= i < j < |rest| ensures Position(rest[i]) < Position(rest[j]) {
          assert rest[i] == stages[i + 1] && rest[j] == stages[j + 1];
        }
      }
      CallsFromInOrder(rest, a, c, raw, final);
      if Applies(s0, a, raw, final) && GoesOn(s0, c) {
        var tail := CallsFrom(rest, a, c, raw, final);
        var calls := [CallOf(s0, a, raw, final)] + tail;
        CallsFromMembers(rest, a, c, raw, final);
        forall i, j | 0 <= i < j < |calls|
          ensures Position(StageOf(calls[i])) < Position(StageOf(calls[j]))
        {
          assert calls[j] == tail[j - 1] && calls[j] in tail;
          var k :| 0 <= k < |rest| && rest[k] == StageOf(calls[j]);
          assert stages[k + 1] == rest[k];
          if i > 0 {
            assert calls[i] == tail[i - 1];
          }
        }
      }
    }
  }

  /** Where the fixed stage order gets to: each stage is reached when the one before it was skipped or went on. */
  lemma ReachesLaterStages(a: Args, c: Collaborators, raw: Path, final: Path)
    ensures Reaches(LaterStages, Encoder, a, c, raw, final)
    ensures Reaches(LaterStages, Metadata, a, c, raw, final) <==>
              (Applies(Encoder, a, raw, final) ==> GoesOn(Encoder, c))
    ensures Reaches(LaterStages, FileDate, a, c, raw, final) <==>
              Reaches(LaterStages, Metadata, a, c, raw, final) && GoesOn(Metadata, c)
    ensures Reaches(LaterStages, Cleanup, a, c, raw, final) <==>
              Reaches(LaterStages, FileDate, a, c, raw, final) && GoesOn(FileDate, c)
    ensures !Reaches(LaterStages, Engine, a, c, raw, final)
    ensures Passes(LaterStages, a, c, raw, final) <==>
              Reaches(LaterStages, Cleanup, a, c, raw, final) && (Applies(Cleanup, a, raw, final) ==> GoesOn(Cleanup, c))
  {
    var l1, l2, l3 := LaterStages[1..], LaterStages[2..], LaterStages[3..];
    assert LaterStages[0] == Encoder && LaterStages[1..] == l1;
    assert l1 == [Metadata, FileDate, Cleanup] && l1[0] == Metadata && l1[1..] == l2;
    assert l2 == [FileDate, Cleanup] && l2[0] == FileDate && l2[1..] == l3;
    assert l3 == [Cleanup] && l3[0] == Cleanup && l3[1..] == [];
    assert !Reaches(l3, Engine, a, c, raw, final);
    assert !Reaches(l2, Engine, a, c, raw, final);
    assert !Reaches(l1, Engine, a, c, raw, final);
    assert Reaches(l2, Cleanup, a, c, raw, final) <==> GoesOn(FileDate, c);
    assert Reaches(l1, Cleanup, a, c, raw, final) <==> GoesOn(Metadata, c) && GoesOn(FileDate, c);
    assert Reaches(l1, FileDate, a, c, raw, final) <==> GoesOn(Metadata, c);
  }

  /** The engine is always called first, and the calls follow the pipeline's order, each stage at most once. */
  lemma RunInOrder(a: Args, c: Collaborators)
    ensures |Run(a, c).0| >= 1 && Run(a, c).0[0] == RunEngine(EngineParamsOf(a))
    ensures InOrder(Run(a, c).0)
  {
    if c.engine.Produced? && FinalPath(a.format, c.engine.rawPath).Ok? {
      var raw, final := c.engine.rawPath, FinalPath(a.format, c.engine.rawPath).value;
      var later := CallsFrom(LaterStages, a, c, raw, final);
      var t := [RunEngine(EngineParamsOf(a))] + later;
      CallsFromInOrder(LaterStages, a, c, raw, final);
      CallsFromMembers(LaterStages, a, c, raw, final);
      forall i, j | 0 <= i < j < |t|
        ensures Position(StageOf(t[i])) < Position(StageOf(t[j]))
      {
        assert t[j] == later[j - 1] && t[j] in later;
        if i > 0 {
          assert t[i] == later[i - 1];
        }
      }
    }
  }

  /**
   * Which calls a run makes once the raw file and the final path exist: the
   * encoder only for M4A; the tag copy unless the encoder failed; the date
   * copy whenever the tag copy was made and did not fail with anything but
   * UnsupportedFormat; the deletion of the raw file only after a successful
   * date copy, and only when the final file is another file.
   */
  lemma RunCalls(a: Args, c: Collaborators, raw: Path, final: Path)
    requires c.engine == Produced(raw) && FinalPath(a.format, raw) == Ok(final)
    ensures var t := Run(a, c).0;
            Calls(t, Engine) &&
            (Calls(t, Encoder) <==> a.format == M4A) &&
            (Calls(t, Metadata) <==> (a.format == M4A ==> c.encoder == Success)) &&
            (Calls(t, FileDate) <==> Calls(t, Metadata) && c.metadata != OtherFailure) &&
            (Calls(t, Cleanup) <==> Calls(t, FileDate) && c.fileDate == Success && final != raw)
  {
    var later := CallsFrom(LaterStages, a, c, raw, final);
    ReachesLaterStages(a, c, raw, final);
    CallsCons(RunEngine(EngineParamsOf(a)), later, Engine);
    CallsCons(RunEngine(EngineParamsOf(a)), later, Encoder);
    CallsCons(RunEngine(EngineParamsOf(a)), later, Metadata);
    CallsCons(RunEngine(EngineParamsOf(a)), later, FileDate);
    CallsCons(RunEngine(EngineParamsOf(a)), later, Cleanup);
    CallsFromCalls(LaterStages, Encoder, a, c, raw, final);
    CallsFromCalls(LaterStages, Metadata, a, c, raw, final);
    CallsFromCalls(LaterStages, FileDate, a, c, raw, final);
    CallsFromCalls(LaterStages, Cleanup, a, c, raw, final);
  }

  /** Every call a run makes carries the run's own paths and the engine parameters of the request. */
  lemma RunCallsConsistent(a: Args, c: Collaborators, raw: Path, final: Path)
    requires c.engine == Produced(raw) && FinalPath(a.format, raw) == Ok(final)
    ensures forall e :: e in Run(a, c).0 ==> Consistent(e, a, raw, final)
  {
    CallsFromMembers(LaterStages, a, c, raw, final);
  }

  /**
   * The run fails at the stage of its last call, and these are the only
   * ways a run ends early: the engine fails, the raw path has no name to
   * replace the suffix of, the encoder fails, the tag copy fails with
   * anything but UnsupportedFormat, the date copy fails, or the deletion
   * fails.
   */
  lemma RunOutcome(a: Args, c: Collaborators)
    ensures var (t, status) := Run(a, c);
            status.Failed? ==> StageOf(t[|t| - 1]) == status.stage
    ensures var status := Run(a, c).1;
            status.Completed? <==>
              c.engine.Produced? && FinalPath(a.format, c.engine.rawPath).Ok? &&
              (a.format == M4A ==> c.encoder == Success) &&
              c.metadata != OtherFailure && c.fileDate == Success &&
              (FinalPath(a.format, c.engine.rawPath).value != c.engine.rawPath ==> c.unlink == Success)
    ensures var status := Run(a, c).1;
            status.Completed? ==> status.finalPath == FinalPath(a.format, c.engine.rawPath).value
    ensures Run(a, c).1.FinalPathFailed? <==> c.engine.Produced? && FinalPath(a.format, c.engine.rawPath).Err?
    ensures Run(a, c).1.FinalPathFailed? ==> Run(a, c).0 == [RunEngine(EngineParamsOf(a))]
    ensures c.engine.EngineFailed? ==> Run(a, c) == ([RunEngine(EngineParamsOf(a))], Failed(Engine))
  {
    if c.engine.Produced? && FinalPath(a.format, c.engine.rawPath).Ok? {
      var raw, final := c.engine.rawPath, FinalPath(a.format, c.engine.rawPath).value;
      var later := CallsFrom(LaterStages, a, c, raw, final);
      var end := EndFrom(LaterStages, a, c, raw, final);
      ReachesLaterStages(a, c, raw, final);
      EndFromFailed(LaterStages, Encoder, a, c, raw, final);
      if end.Failed? {
        FailedCallIsLast(LaterStages, a, c, raw, final);
        var t := [RunEngine(EngineParamsOf(a))] + later;
        assert t[|t| - 1] == later[|later| - 1];
      }
      forall i | 0 <= i < |LaterStages| ensures LaterStages[i] in {Encoder, Metadata, FileDate, Cleanup} { }
    }
  }

  /** An encoder failure ends the run before any tag copy, date copy or deletion. */
  lemma EncoderFailureAborts(a: Args, c: Collaborators, raw: Path)
    requires c.engine == Produced(raw) && a.format == M4A && Name(raw) != "" && c.encoder != Success
    ensures var (t, status) := Run(a, c);
            status == Failed(Encoder) && StageOf(t[|t| - 1]) == Encoder &&
            !Calls(t, Metadata) && !Calls(t, FileDate) && !Calls(t, Cleanup)
  {
    FinalPathSpec(a.format, raw);
    var final := FinalPath(a.format, raw).value;
    RunCalls(a, c, raw, final);
    RunOutcome(a, c);
    EndFromFailed(LaterStages, Encoder, a, c, raw, final);
    ReachesLaterStages(a, c, raw, final);
  }

  /**
   * An UnsupportedFormat from the tag copier is only logged: the date copy
   * still happens, and so does the deletion of a superseded raw file when
   * the date copy succeeds.
   */
  lemma UnsupportedMetadataIsRecovered(a: Args, c: Collaborators, raw: Path, final: Path)
    requires c.engine == Produced(raw) && FinalPath(a.format, raw) == Ok(final)
    requires c.metadata == UnsupportedFormat && Calls(Run(a, c).0, Metadata)
    ensures var (t, status) := Run(a, c);
            Calls(t, FileDate) && status != Failed(Metadata) &&
            (c.fileDate == Success && final != raw ==> Calls(t, Cleanup))
  {
    RunCalls(a, c, raw, final);
    EndFromFailed(LaterStages, Metadata, a, c, raw, final);
  }

  /** The raw file is deleted only as the last call, right after the date copy onto the final file. */
  lemma CleanupIsLast(a: Args, c: Collaborators, raw: Path, final: Path)
    requires c.engine == Produced(raw) && FinalPath(a.format, raw) == Ok(final)
    ensures var t := Run(a, c).0;
            forall i :: 0 <= i < |t| && t[i].Unlink? ==>
              i == |t| - 1 && i >= 1 && t[i] == Unlink(raw) && final != raw &&
              t[i - 1] == CopyFileDate(a.inputFilePath, final)
  {
    var t := Run(a, c).0;
    RunInOrder(a, c);
    RunCalls(a, c, raw, final);
    RunCallsConsistent(a, c, raw, final);
    forall i | 0 <= i < |t| && t[i].Unlink?
      ensures i == |t| - 1 && i >= 1 && t[i] == Unlink(raw) && final != raw &&
              t[i - 1] == CopyFileDate(a.inputFilePath, final)
    {
      assert Consistent(t[i], a, raw, final) by {
        assert t[i] in t;
      }
      assert Calls(t, Cleanup);
      var last := t[|t| - 1];
      var k :| 0 <= k < |t| && StageOf(t[k]) == FileDate;
      assert 0 < i;
      var previous := t[i - 1];
      assert Position(StageOf(previous)) < Position(StageOf(t[i]));
      assert previous in t;
    }
  }

  /** A format other than M4A is never transcoded and its raw file is never deleted: it is the final file. */
  lemma NoTranscodeKeepsRaw(a: Args, c: Collaborators, raw: Path)
    requires c.engine == Produced(raw) && a.format != M4A
    ensures var (t, status) := Run(a, c);
            !Calls(t, Encoder) && !Calls(t, Cleanup) && (status.Completed? ==> status.finalPath == raw)
  {
    FinalPathSpec(a.format, raw);
    RunCalls(a, c, raw, raw);
    RunOutcome(a, c);
  }

  /**
   * For M4A a raw file whose suffix is not ".m4a" is transcoded to a file
   * beside it with the suffix ".m4a", and deleted at the end (after the date
   * copy, by CleanupIsLast), even when the tag copy fails with
   * UnsupportedFormat.
   */
  lemma TranscodeReplacesRaw(a: Args, c: Collaborators, raw: Path)
    requires c.engine == Produced(raw) && a.format == M4A
    requires Name(raw) != "" && Suffix(Name(raw)) != ".m4a"
    requires c.encoder == Success && c.metadata != OtherFailure && c.fileDate == Success && c.unlink == Success
    ensures var (t, status) := Run(a, c);
            status.Completed? && status.finalPath != raw &&
            Suffix(Name(status.finalPath)) == ".m4a" && Parent(status.finalPath) == Parent(raw) &&
            Calls(t, Encoder) && Calls(t, Cleanup)
  {
    FinalPathSpec(a.format, raw);
    var final := FinalPath(a.format, raw).value;
    RunCalls(a, c, raw, final);
    RunOutcome(a, c);
  }

  /**
   * One stage of the reference: the calls made so far followed by those of
   * the remaining stages, after the first remaining stage has had its turn.
   */
  lemma StageStep(done: seq<Effect>, todo: seq<Stage>, a: Args, c: Collaborators, raw: Path, final: Path)
    requires todo != []
    ensures var s, rest := todo[0], todo[1..];
            !Applies(s, a, raw, final) ==>
              done + CallsFrom(todo, a, c, raw, final) == done + CallsFrom(rest, a, c, raw, final) &&
              EndFrom(todo, a, c, raw, final) == EndFrom(rest, a, c, raw, final)
    ensures var s, rest := todo[0], todo[1..];
            Applies(s, a, raw, final) && GoesOn(s, c) ==>
              done + CallsFrom(todo, a, c, raw, final) ==
                (done + [CallOf(s, a, raw, final)]) + CallsFrom(rest, a, c, raw, final) &&
              EndFrom(todo, a, c, raw, final) == EndFrom(rest, a, c, raw, final)
    ensures var s := todo[0];
            Applies(s, a, raw, final) && !GoesOn(s, c) ==>
              done + CallsFrom(todo, a, c, raw, final) == done + [CallOf(s, a, raw, final)] &&
              EndFrom(todo, a, c, raw, final) == Failed(s)
  {
    var s, rest := todo[0], todo[1..];
    if Applies(s, a, raw, final) && GoesOn(s, c) {
      assert done + ([CallOf(s, a, raw, final)] + CallsFrom(rest, a, c, raw, final)) ==
             (done + [CallOf(s, a, raw, final)]) + CallsFrom(rest, a, c, raw, final);
    }
  }

  /** `main`: the calls made, in order, and how the run ends. */
  method Extend(a: Args, c: Collaborators) returns (trace: seq<Effect>, status: Status)
    ensures (trace, status) == Run(a, c)
  {
    trace := [RunEngine(EngineParamsOf(a))];
    if c.engine.EngineFailed? {
      status := Failed(Engine);
      return;
    }
    var raw := c.engine.rawPath;
    var output;
    if a.format == M4A {
      var converted := WithSuffix(raw, TranscodeSuffix);
      if converted.Err? {
        status := FinalPathFailed(converted.error);
        return;
      }
      output := converted.value;
      StageStep(trace, LaterStages, a, c, raw, output);
      trace := trace + [Encode(raw, output, AudioCodec, StreamMap)];
      if c.encoder != Success {
        status := Failed(Encoder);
        return;
      }
    } else {
      output := raw;
      StageStep(trace, LaterStages, a, c, raw, output);
    }
    assert FinalPath(a.format, raw) == Ok(output);
    StageStep(trace, LaterStages[1..], a, c, raw, output);
    // An UnsupportedFormat from the tag copier is logged and the run goes on.
    trace := trace + [CopyMetadata(a.inputFilePath, output)];
    if c.metadata == OtherFailure {
      status := Failed(Metadata);
      return;
    }
    StageStep(trace, LaterStages[2..], a, c, raw, output);
    trace := trace + [CopyFileDate(a.inputFilePath, output)];
    if c.fileDate != Success {
      status := Failed(FileDate);
      return;
    }
    StageStep(trace, LaterStages[3..], a, c, raw, output);
    if output != raw {
      trace := trace + [Unlink(raw)];
      if c.unlink != Success {
        status := Failed(Cleanup);
        return;
      }
    }
    assert LaterStages[3..][1..] == [];
    assert trace + CallsFrom([], a, c, raw, output) == trace;
    status := Completed(output);
  }
}
