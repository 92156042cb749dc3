/** Test-case execution (index.js): `runInDocker`, `executeTestCase` and
    `runTestCases`. The container engine is not modelled; it is a parameter
    that answers, for a step run in a workspace, either with the container's
    raw log buffer or with the reason the step failed. */
module Executor {
  import opened Seqs
  import opened Text
  import opened LogDemux
  import opened Languages
  import opened Harness

  /** One container step: image, command, and the workspace mounted at /code,
      which holds one file. */
  datatype Invocation = Invocation(image: string, command: seq<string>, fileName: string, source: string)

  /** What the engine reports for a step: the attached log buffer once the
      container has exited, or the message of the error that ended the step
      (a failed create/start, "Execution timeout" when the ten-second timer
      wins the race, ...). */
  datatype ContainerRun = Exited(logs: seq<Byte>) | Failed(reason: string)

  /** The engine, given the steps run earlier in the same workspace (a compile
      step leaves its binary there) and the current step. */
  type Docker = (seq<Invocation>, Invocation) -> ContainerRun

  const TimeoutMessage := "Execution timeout"
  const FailureFallback := "Container execution failed"
  const CompilationPrefix := "Compilation Error: "
  const RuntimePrefix := "Runtime Error: "

  datatype RunResult = RunResult(output: string, error: string)

  /** Bytes to characters: Latin-1, standing in for `Buffer.toString`. */
  function Decode(b: seq<Byte>): (s: string)
    ensures |s| == |b| && forall i :: 0 <= i < |b| ==> s[i] as int == b[i]
  {
    seq(|b|, i requires 0 <= i < |b| => b[i] as char)
  }

  lemma DecodeAppend(a: seq<Byte>, b: seq<Byte>)
    ensures Decode(a + b) == Decode(a) + Decode(b)
  {
  }

  /** `runInDocker`: demultiplex the logs of an exited container and trim both
      streams; a failed step has no output and a non-empty error. */
  function RunInDocker(docker: Docker, earlier: seq<Invocation>, step: Invocation): (r: RunResult)
    ensures docker(earlier, step).Failed? ==>
      && r.output == "" && r.error != ""
      && (docker(earlier, step).reason != "" ==> r.error == docker(earlier, step).reason)
    ensures Trimmed(r.output, IsJsSpace)
    ensures docker(earlier, step).Exited? ==> Trimmed(r.error, IsJsSpace)
  {
    match docker(earlier, step)
    case Failed(reason) => RunResult("", if reason == "" then FailureFallback else reason)
    case Exited(logs) =>
      var streams := Demux(logs);
      RunResult(Trim(Decode(streams.stdout), IsJsSpace), Trim(Decode(streams.stderr), IsJsSpace))
  }

  /** A step whose container wrote well-formed frames: the output is the
      trimmed concatenation of the stdout payloads, the error that of the
      stderr payloads, whatever the interleaving. */
  lemma FramedRun(docker: Docker, earlier: seq<Invocation>, step: Invocation, fs: seq<Frame>)
    requires ValidFrames(fs) && docker(earlier, step) == Exited(Encode(fs))
    requires PayloadsOf(fs, StdoutSelector) != [] || PayloadsOf(fs, StderrSelector) != []
    ensures RunInDocker(docker, earlier, step)
      == RunResult(Trim(Decode(PayloadsOf(fs, StdoutSelector)), IsJsSpace),
                   Trim(Decode(PayloadsOf(fs, StderrSelector)), IsJsSpace))
  {
    DemuxOrder(fs);
  }

  /** A step that ran out of time reports the timeout as its error. */
  lemma TimeoutIsError(docker: Docker, earlier: seq<Invocation>, step: Invocation)
    requires docker(earlier, step) == Failed(TimeoutMessage)
    ensures RunInDocker(docker, earlier, step) == RunResult("", TimeoutMessage)
  {
  }

  datatype TestResult = TestResult(
    id: nat,
    input: string,
    expectedOutput: string,
    actualOutput: string,
    passed: bool)

  /** The outcome of `executeTestCase` (a result, or the message of what it
      throws) with the container steps it ran, in order. */
  datatype Execution = Execution(outcome: Result<TestResult>, steps: seq<Invocation>)

  /** Every step of `steps` reported an empty error. */
  predicate Clean(docker: Docker, steps: seq<Invocation>) {
    forall i :: 0 <= i < |steps| ==> RunInDocker(docker, steps[..i], steps[i]).error == ""
  }

  lemma CleanOne(docker: Docker, a: Invocation)
    ensures Clean(docker, [a]) <==> RunInDocker(docker, [], a).error == ""
  {
    assert [a][..0] == [];
  }

  lemma CleanTwo(docker: Docker, a: Invocation, b: Invocation)
    ensures Clean(docker, [a, b]) <==>
      RunInDocker(docker, [], a).error == "" && RunInDocker(docker, [a], b).error == ""
  {
    var steps := [a, b];
    assert steps[..0] == [] && steps[..1] == [a];
    var e0 := RunInDocker(docker, [], a).error;
    var e1 := RunInDocker(docker, [a], b).error;
    if e0 == "" && e1 == "" {
      forall i | 0 <= i < |steps|
        ensures RunInDocker(docker, steps[..i], steps[i]).error == ""
      {
        if i == 1 {
          assert steps[..i] == [a] && steps[i] == b;
        }
      }
    }
  }

  /** What the container steps of one test case amount to, for a table
      entry `config` and the source written as `fileName`: one or two steps,
      all in the language's image on that file, the first being the compile
      command when there is one and the run command otherwise, and a second
      step, the run command, only after a clean compile; a result
      exactly when every step reported no error and the run step was
      reached; and then the record of the test case, with the run step's
      output as the actual output and a pass exactly when it equals the
      expected rendering. Otherwise the last step taken is the one that
      reported an error, and the thrown message is that error, after
      "Compilation Error: " when it was the compile step. */
  predicate Pipeline(config: LanguageConfig, docker: Docker, fileName: string, source: string,
                     tc: TestCase, testId: nat, e: Execution)
  {
    && StepShape(config, fileName, source, e)
    && Reached(config, docker, e)
    && Reported(config, docker, tc, testId, e)
  }

  /** One or two steps, all in the language's image on the written file, the
      first being the compile command when there is one and a second step
      being the run command. */
  predicate StepShape(config: LanguageConfig, fileName: string, source: string, e: Execution) {
    && 1 <= |e.steps| <= 2
    && (forall i :: 0 <= i < |e.steps| ==>
          e.steps[i] == Invocation(config.image, e.steps[i].command, fileName, source))
    && (config.compile.Some? ==> e.steps[0].command == config.compile.value)
    && (config.compile.None? ==> e.steps[0].command == config.run)
    && (|e.steps| == 2 ==> e.steps[1].command == config.run)
  }

  /** A record exactly when every step was clean and the run step ran; a
      second step is taken only after a clean first one. */
  predicate Reached(config: LanguageConfig, docker: Docker, e: Execution)
    requires 1 <= |e.steps|
  {
    && (e.outcome.Ok? <==>
          && Clean(docker, e.steps) && e.steps[|e.steps| - 1].command == config.run
          && |e.steps| == (if config.compile.Some? then 2 else 1))
    && (|e.steps| == 2 ==> RunInDocker(docker, [], e.steps[0]).error == "")
  }

  /** What the last step taken produced: the record built from its output,
      or the message thrown for its error. */
  predicate Reported(config: LanguageConfig, docker: Docker, tc: TestCase, testId: nat, e: Execution)
    requires 1 <= |e.steps|
  {
    var last := RunInDocker(docker, e.steps[..|e.steps| - 1], e.steps[|e.steps| - 1]);
    && (e.outcome.Ok? ==>
          var t := e.outcome.value;
          && t.id == testId && t.input == InputText(tc) && t.expectedOutput == IntToString(tc.expected)
          && t.actualOutput == last.output
          && (t.passed <==> t.actualOutput == t.expectedOutput))
    && (e.outcome.Err? ==>
          && last.error != ""
          && e.outcome.message == (if config.compile.Some? && |e.steps| == 1 then CompilationPrefix + last.error
                                   else last.error))
  }

  /** `executeTestCase` for any language table `cfg`: generate the source,
      write it under the language's file name, compile if the table says so
      (any error output aborts with "Compilation Error: "), run (any error
      output aborts with that output), then compare the trimmed output with
      the expected value's decimal rendering. */
  function ExecuteTestCase(cfg: ConfigTable, docker: Docker, userCode: string, language: string,
                           problemId: string, tc: TestCase, testId: nat): (e: Execution)
    ensures var full := GenerateFullCode(userCode, language, problemId, tc);
      full.Err? ==> e == Execution(Err(full.message), [])
    ensures var full := GenerateFullCode(userCode, language, problemId, tc);
      full.Ok? ==>
        var l := LanguageOf(language).value;
        Pipeline(cfg(l), docker, SourceFileName(l, cfg(l)), full.value, tc, testId, e)
  {
    var full := GenerateFullCode(userCode, language, problemId, tc);
    if full.Err? then Execution(Err(full.message), [])
    else
      var l := LanguageOf(language).value;
      Steps(cfg(l), docker, SourceFileName(l, cfg(l)), full.value, tc, testId)
  }

  /** The container steps of `executeTestCase` once the source is generated. */
  function Steps(config: LanguageConfig, docker: Docker, fileName: string, source: string,
                 tc: TestCase, testId: nat): (e: Execution)
    ensures Pipeline(config, docker, fileName, source, tc, testId, e)
  {
    var run := Invocation(config.image, config.run, fileName, source);
    if config.compile.Some? then
      var compile := Invocation(config.image, config.compile.value, fileName, source);
      var compiled := RunInDocker(docker, [], compile);
      if compiled.error != "" then
        var e := Execution(Err(CompilationPrefix + compiled.error), [compile]);
        CompileFailedPipeline(config, docker, fileName, source, tc, testId, compile, e);
        e
      else
        var e := Execution(Compare(RunInDocker(docker, [compile], run), tc, testId), [compile, run]);
        CompiledRunPipeline(config, docker, fileName, source, tc, testId, compile, run, e);
        e
    else
      var e := Execution(Compare(RunInDocker(docker, [], run), tc, testId), [run]);
      InterpretedPipeline(config, docker, fileName, source, tc, testId, run, e);
      e
  }

  /** The compiler reported errors: the run step is skipped and the case
      throws "Compilation Error: " and the compiler's error. */
  lemma CompileFailedPipeline(config: LanguageConfig, docker: Docker, fileName: string, source: string,
                              tc: TestCase, testId: nat, compile: Invocation, e: Execution)
    requires config.compile.Some? && compile == Invocation(config.image, config.compile.value, fileName, source)
    requires RunInDocker(docker, [], compile).error != ""
    requires e == Execution(Err(CompilationPrefix + RunInDocker(docker, [], compile).error), [compile])
    ensures Pipeline(config, docker, fileName, source, tc, testId, e)
  {
    OneStepShape(config, fileName, source, compile, e);
    assert e.steps[..0] == [] && e.steps[0] == compile;
  }

  /** A clean compile, then the run step and the comparison. */
  lemma CompiledRunPipeline(config: LanguageConfig, docker: Docker, fileName: string, source: string,
                            tc: TestCase, testId: nat, compile: Invocation, run: Invocation, e: Execution)
    requires config.compile.Some? && compile == Invocation(config.image, config.compile.value, fileName, source)
    requires run == Invocation(config.image, config.run, fileName, source)
    requires RunInDocker(docker, [], compile).error == ""
    requires e.steps == [compile, run] && e.outcome == Compare(RunInDocker(docker, [compile], run), tc, testId)
    ensures Pipeline(config, docker, fileName, source, tc, testId, e)
  {
    TwoStepShape(config, fileName, source, compile, run, e);
    CompiledRunReached(config, docker, compile, run, e);
    CompiledRunReported(config, docker, tc, testId, compile, run, e);
    PipelineOf(config, docker, fileName, source, tc, testId, e);
  }

  lemma CompiledRunReported(config: LanguageConfig, docker: Docker, tc: TestCase, testId: nat,
                            compile: Invocation, run: Invocation, e: Execution)
    requires config.compile.Some?
    requires e.steps == [compile, run] && e.outcome == Compare(RunInDocker(docker, [compile], run), tc, testId)
    ensures Reported(config, docker, tc, testId, e)
  {
    assert e.steps[..|e.steps| - 1] == [compile] && e.steps[|e.steps| - 1] == run;
  }

  /** The three parts of `Pipeline`, put together. */
  lemma PipelineOf(config: LanguageConfig, docker: Docker, fileName: string, source: string,
                   tc: TestCase, testId: nat, e: Execution)
    requires StepShape(config, fileName, source, e)
    requires Reached(config, docker, e) && Reported(config, docker, tc, testId, e)
    ensures Pipeline(config, docker, fileName, source, tc, testId, e)
  {
  }

  lemma OneStepShape(config: LanguageConfig, fileName: string, source: string, step: Invocation, e: Execution)
    requires step == Invocation(config.image, step.command, fileName, source) && e.steps == [step]
    requires step.command == if config.compile.Some? then config.compile.value else config.run
    ensures StepShape(config, fileName, source, e)
  {
  }

  lemma TwoStepShape(config: LanguageConfig, fileName: string, source: string,
                     compile: Invocation, run: Invocation, e: Execution)
    requires config.compile.Some? && compile == Invocation(config.image, config.compile.value, fileName, source)
    requires run == Invocation(config.image, config.run, fileName, source)
    requires e.steps == [compile, run]
    ensures StepShape(config, fileName, source, e)
  {
  }

  lemma CompiledRunReached(config: LanguageConfig, docker: Docker, compile: Invocation, run: Invocation, e: Execution)
    requires config.compile.Some? && run.command == config.run
    requires RunInDocker(docker, [], compile).error == ""
    requires e.steps == [compile, run]
    requires e.outcome.Ok? <==> RunInDocker(docker, [compile], run).error == ""
    ensures Reached(config, docker, e)
  {
    CleanTwo(docker, compile, run);
  }

  /** No compile command: the run step and the comparison. */
  lemma InterpretedPipeline(config: LanguageConfig, docker: Docker, fileName: string, source: string,
                            tc: TestCase, testId: nat, run: Invocation, e: Execution)
    requires config.compile.None? && run == Invocation(config.image, config.run, fileName, source)
    requires e.steps == [run] && e.outcome == Compare(RunInDocker(docker, [], run), tc, testId)
    ensures Pipeline(config, docker, fileName, source, tc, testId, e)
  {
    InterpretedShape(config, fileName, source, run, e);
    InterpretedReached(config, docker, run, e);
    InterpretedReported(config, docker, fileName, source, tc, testId, run, e);
    PipelineOf(config, docker, fileName, source, tc, testId, e);
  }

  lemma InterpretedShape(config: LanguageConfig, fileName: string, source: string, run: Invocation, e: Execution)
    requires config.compile.None? && run == Invocation(config.image, config.run, fileName, source)
    requires e.steps == [run]
    ensures StepShape(config, fileName, source, e)
  {
    OneStepShape(config, fileName, source, run, e);
  }

  lemma InterpretedReported(config: LanguageConfig, docker: Docker, fileName: string, source: string,
                            tc: TestCase, testId: nat, run: Invocation, e: Execution)
    requires config.compile.None? && run == Invocation(config.image, config.run, fileName, source)
    requires e.steps == [run] && e.outcome == Compare(RunInDocker(docker, [], run), tc, testId)
    ensures Reported(config, docker, tc, testId, e)
  {
    assert e.steps[..|e.steps| - 1] == [] && e.steps[|e.steps| - 1] == run;
  }

  lemma InterpretedReached(config: LanguageConfig, docker: Docker, run: Invocation, e: Execution)
    requires config.compile.None? && run.command == config.run
    requires e.steps == [run]
    requires e.outcome.Ok? <==> RunInDocker(docker, [], run).error == ""
    ensures Reached(config, docker, e)
  {
    CleanOne(docker, run);
  }

  /** The tail of `executeTestCase` after the run step. */
  function Compare(ran: RunResult, tc: TestCase, testId: nat): (r: Result<TestResult>)
    requires Trimmed(ran.output, IsJsSpace)
    ensures r.Err? <==> ran.error != ""
    ensures r.Err? ==> r.message == ran.error
    ensures r.Ok? ==> r.value.actualOutput == ran.output && r.value.id == testId
    ensures r.Ok? ==> r.value.input == InputText(tc) && r.value.expectedOutput == IntToString(tc.expected)
    ensures r.Ok? ==> (r.value.passed <==> r.value.actualOutput == r.value.expectedOutput)
  {
    if ran.error != "" then Err(ran.error)
    else
      var actual := Trim(ran.output, IsJsSpace);
      TrimUnchangedIfTrimmed(ran.output);
      var expected := IntToString(tc.expected);
      Ok(TestResult(testId, InputText(tc), expected, actual, actual == expected))
  }

  /** `runInDocker` already trims its output, so the second `trim` is a no-op. */
  lemma TrimUnchangedIfTrimmed(s: string)
    requires Trimmed(s, IsJsSpace)
    ensures Trim(s, IsJsSpace) == s
  {
    TrimUnchanged(s, IsJsSpace);
  }

  /** The record `runTestCases` keeps for one test case: the execution's
      result, or a failed record carrying the thrown message. */
  function ResultFor(e: Execution, tc: TestCase, testId: nat): (t: TestResult)
    ensures t.id == testId || e.outcome.Ok?
    ensures e.outcome.Ok? ==> t == e.outcome.value
    ensures e.outcome.Err? ==> !t.passed && t.actualOutput == RuntimePrefix + e.outcome.message
  {
    match e.outcome
    case Ok(t) => t
    case Err(message) =>
      TestResult(testId, InputText(tc), IntToString(tc.expected), RuntimePrefix + message, false)
  }

  /** An error record can never look like a pass: no decimal rendering begins
      with "Runtime Error: ". */
  lemma RuntimeErrorNeverMatches(message: string, n: int)
    ensures RuntimePrefix + message != IntToString(n)
  {
    var s := IntToString(n);
    assert (RuntimePrefix + message)[0] == 'R';
    if s[0] != '-' {
      assert IsDigit(NatToString(n)[0]);
    }
  }

  /** What `runTestCases` records for test case `i` (numbered from 1): its
      number, input and expected rendering, and a pass exactly when the
      actual output equals the expected one. */
  function CaseResult(cfg: ConfigTable, docker: Docker, userCode: string, language: string,
                      problemId: string, tcs: seq<TestCase>, i: nat): (t: TestResult)
    requires i < |tcs|
    ensures t.id == i + 1 && t.input == InputText(tcs[i]) && t.expectedOutput == IntToString(tcs[i].expected)
    ensures t.passed <==> t.actualOutput == t.expectedOutput
    ensures var e := ExecuteTestCase(cfg, docker, userCode, language, problemId, tcs[i], i + 1);
      && (e.outcome.Ok? ==> t == e.outcome.value)
      && (e.outcome.Err? ==> !t.passed && t.actualOutput == RuntimePrefix + e.outcome.message)
  {
    var e := ExecuteTestCase(cfg, docker, userCode, language, problemId, tcs[i], i + 1);
    if e.outcome.Err? then
      RuntimeErrorNeverMatches(e.outcome.message, tcs[i].expected);
      ResultFor(e, tcs[i], i + 1)
    else ResultFor(e, tcs[i], i + 1)
  }

  /** The records of the first `n` test cases. */
  function CaseResults(cfg: ConfigTable, docker: Docker, userCode: string, language: string,
                       problemId: string, tcs: seq<TestCase>, n: nat): (rs: seq<TestResult>)
    requires n <= |tcs|
    ensures |rs| == n
    ensures forall i {:trigger rs[i]} :: 0 <= i < n ==> rs[i] == CaseResult(cfg, docker, userCode, language, problemId, tcs, i)
  {
    if n == 0 then []
    else
      var prev := CaseResults(cfg, docker, userCode, language, problemId, tcs, n - 1);
      var last := CaseResult(cfg, docker, userCode, language, problemId, tcs, n - 1);
      AppendKeeps(prev, last);
      prev + [last]
  }

  lemma CaseResultsStep(cfg: ConfigTable, docker: Docker, userCode: string, language: string,
                        problemId: string, tcs: seq<TestCase>, n: nat)
    requires n < |tcs|
    ensures CaseResults(cfg, docker, userCode, language, problemId, tcs, n + 1)
      == CaseResults(cfg, docker, userCode, language, problemId, tcs, n)
         + [CaseResult(cfg, docker, userCode, language, problemId, tcs, n)]
  {
  }

  lemma AppendKeeps<T>(prev: seq<T>, last: T)
    ensures |prev + [last]| == |prev| + 1 && (prev + [last])[|prev|] == last
    ensures forall i :: 0 <= i < |prev| ==> (prev + [last])[i] == prev[i]
  {
  }

  /** `runTestCases`: one record per test case, in order; every failure of
      a case is caught and recorded, so the loop never throws. */
  method RunTestCases(cfg: ConfigTable, docker: Docker, userCode: string, language: string,
                      problemId: string, tcs: seq<TestCase>) returns (results: seq<TestResult>)
    ensures |results| == |tcs|
    ensures forall i {:trigger results[i]} :: 0 <= i < |tcs| ==>
      results[i] == CaseResult(cfg, docker, userCode, language, problemId, tcs, i)
  {
    results := [];
    var i := 0;
    while i < |tcs|
      invariant 0 <= i <= |tcs| && results == CaseResults(cfg, docker, userCode, language, problemId, tcs, i)
    {
      var r := CaseResult(cfg, docker, userCode, language, problemId, tcs, i);
      CaseResultsStep(cfg, docker, userCode, language, problemId, tcs, i);
      results := results + [r];
      i := i + 1;
    }
  }

  /** When the compile step reports errors, the run step never happens and
      the record is a failure carrying the compiler's output; with the table
      as written this is the fate of every C and C++ submission whose
      compiler misses `temp.c`/`temp.cpp`. */
  lemma CompileFailureStopsBeforeRun(cfg: ConfigTable, docker: Docker, userCode: string, language: string,
                                     problemId: string, tc: TestCase, testId: nat)
    requires GenerateFullCode(userCode, language, problemId, tc).Ok?
    requires cfg(LanguageOf(language).value).compile.Some?
    requires var l := LanguageOf(language).value;
      var full := GenerateFullCode(userCode, language, problemId, tc).value;
      var compile := Invocation(cfg(l).image, cfg(l).compile.value, SourceFileName(l, cfg(l)), full);
      RunInDocker(docker, [], compile).error != ""
    ensures var e := ExecuteTestCase(cfg, docker, userCode, language, problemId, tc, testId);
      && |e.steps| == 1 && e.outcome.Err?
      && IsPrefix(CompilationPrefix, e.outcome.message)
      && !ResultFor(e, tc, testId).passed
  {
    var l := LanguageOf(language).value;
    ExecuteIsSteps(cfg, docker, userCode, language, problemId, tc, testId);
    StepsStopAtCompile(cfg(l), docker, SourceFileName(l, cfg(l)),
                       GenerateFullCode(userCode, language, problemId, tc).value, tc, testId);
  }

  lemma StepsStopAtCompile(config: LanguageConfig, docker: Docker, fileName: string, source: string,
                           tc: TestCase, testId: nat)
    requires config.compile.Some?
    requires RunInDocker(docker, [], Invocation(config.image, config.compile.value, fileName, source)).error != ""
    ensures var e := Steps(config, docker, fileName, source, tc, testId);
      && |e.steps| == 1 && e.outcome.Err?
      && IsPrefix(CompilationPrefix, e.outcome.message)
      && !ResultFor(e, tc, testId).passed
  {
    var compile := Invocation(config.image, config.compile.value, fileName, source);
    PrefixOfConcat(CompilationPrefix, RunInDocker(docker, [], compile).error);
  }

  /** End to end for a language without a compile step: when the run step's
      container writes well-formed frames with something on stdout and
      nothing on stderr, the test passes exactly when the trimmed stdout
      payloads spell the expected value. */
  lemma FramedRunPasses(cfg: ConfigTable, docker: Docker, userCode: string, language: string, problemId: string,
                        tc: TestCase, testId: nat, fs: seq<Frame>)
    requires GenerateFullCode(userCode, language, problemId, tc).Ok?
    requires cfg(LanguageOf(language).value).compile.None?
    requires ValidFrames(fs)
    requires PayloadsOf(fs, StdoutSelector) != [] && PayloadsOf(fs, StderrSelector) == []
    requires var l := LanguageOf(language).value;
      var full := GenerateFullCode(userCode, language, problemId, tc).value;
      docker([], Invocation(cfg(l).image, cfg(l).run, SourceFileName(l, cfg(l)), full)) == Exited(Encode(fs))
    ensures var e := ExecuteTestCase(cfg, docker, userCode, language, problemId, tc, testId);
      && e.outcome.Ok?
      && (e.outcome.value.passed <==>
            Trim(Decode(PayloadsOf(fs, StdoutSelector)), IsJsSpace) == IntToString(tc.expected))
  {
    var l := LanguageOf(language).value;
    ExecuteIsSteps(cfg, docker, userCode, language, problemId, tc, testId);
    StepsFramedRun(cfg(l), docker, SourceFileName(l, cfg(l)),
                   GenerateFullCode(userCode, language, problemId, tc).value, tc, testId, fs);
  }

  lemma StepsFramedRun(config: LanguageConfig, docker: Docker, fileName: string, source: string,
                       tc: TestCase, testId: nat, fs: seq<Frame>)
    requires config.compile.None?
    requires ValidFrames(fs)
    requires PayloadsOf(fs, StdoutSelector) != [] && PayloadsOf(fs, StderrSelector) == []
    requires docker([], Invocation(config.image, config.run, fileName, source)) == Exited(Encode(fs))
    ensures var e := Steps(config, docker, fileName, source, tc, testId);
      && e.outcome.Ok?
      && (e.outcome.value.passed <==>
            Trim(Decode(PayloadsOf(fs, StdoutSelector)), IsJsSpace) == IntToString(tc.expected))
  {
    var run := Invocation(config.image, config.run, fileName, source);
    FramedRun(docker, [], run, fs);
    assert Decode([]) == [];
    TrimUnchanged([], IsJsSpace);
  }

  /** Once the source is generated, `executeTestCase` is its container steps. */
  lemma ExecuteIsSteps(cfg: ConfigTable, docker: Docker, userCode: string, language: string, problemId: string,
                       tc: TestCase, testId: nat)
    requires GenerateFullCode(userCode, language, problemId, tc).Ok?
    ensures var l := LanguageOf(language).value;
      ExecuteTestCase(cfg, docker, userCode, language, problemId, tc, testId)
      == Steps(cfg(l), docker, SourceFileName(l, cfg(l)), GenerateFullCode(userCode, language, problemId, tc).value, tc, testId)
  {
  }

  /** With the corrected table, the first container step of every language
      reads, under the mount point, the very file the source was written
      to. */
  lemma CorrectedFirstStepReadsSource(docker: Docker, userCode: string, language: string, problemId: string,
                                      tc: TestCase, testId: nat)
    requires GenerateFullCode(userCode, language, problemId, tc).Ok?
    ensures var e := ExecuteTestCase(CorrectedConfig, docker, userCode, language, problemId, tc, testId);
      var cmd := e.steps[0].command;
      && |e.steps| >= 1 && |cmd| > 0
      && cmd[|cmd| - 1] == MountPath + e.steps[0].fileName
  {
    FirstStepOfTable(CorrectedConfig, docker, userCode, language, problemId, tc, testId);
    CorrectedReadsWrittenFile(LanguageOf(language).value);
  }

  /** Once the source is generated, the first container step runs the
      table's first command on the file named by the table. */
  lemma FirstStepOfTable(cfg: ConfigTable, docker: Docker, userCode: string, language: string, problemId: string,
                         tc: TestCase, testId: nat)
    requires GenerateFullCode(userCode, language, problemId, tc).Ok?
    ensures var e := ExecuteTestCase(cfg, docker, userCode, language, problemId, tc, testId);
      var l := LanguageOf(language).value;
      && |e.steps| >= 1
      && e.steps[0].command == FirstStep(cfg(l))
      && e.steps[0].fileName == SourceFileName(l, cfg(l))
  {
    var l := LanguageOf(language).value;
    ExecuteIsSteps(cfg, docker, userCode, language, problemId, tc, testId);
    StepsStartWithFirstStep(cfg(l), docker, SourceFileName(l, cfg(l)),
                            GenerateFullCode(userCode, language, problemId, tc).value, tc, testId);
  }

  lemma StepsStartWithFirstStep(config: LanguageConfig, docker: Docker, fileName: string, source: string,
                                tc: TestCase, testId: nat)
    ensures var e := Steps(config, docker, fileName, source, tc, testId);
      |e.steps| >= 1 && e.steps[0].command == FirstStep(config) && e.steps[0].fileName == fileName
  {
  }
}
