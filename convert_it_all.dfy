/** The `__main__` block of examples/asciidoctor_text/convert_it_all.py: the
    topic map is resolved to logical paths, the output directory is created,
    a text converter is built, and each logical path is converted in list
    order from `<input>/<path>.adoc` to `<output>/<path>.txt`. No exception
    is caught, so the first failure ends the run. */
module ConvertItAll {
  import opened Wrappers
  import opened PurePaths
  import opened TopicMap
  import opened Asciidoc

  /** The input and output file of one logical path. */
  datatype Job = Job(input: FsPath, output: FsPath)

  /** `input_dir.joinpath(path.with_suffix(".adoc"))` and
      `output_dir.joinpath(path.with_suffix(".txt"))`, or the ValueError of
      `with_suffix` on a path whose last name is empty. */
  function JobFor(inputDir: FsPath, outputDir: FsPath, path: LogicalPath): (r: Result<Job, Error>)
    ensures r.Success? <==> path != [] && path[|path| - 1] != ""
  {
    match WithSuffixPath(path, ".adoc")
    case Failure(e) => Failure(e)
    case Success(source) =>
      match WithSuffixPath(path, ".txt")
      case Failure(e) => Failure(e)
      case Success(target) => Success(Job(JoinPath(inputDir, source), JoinPath(outputDir, target)))
  }

  /** Both files of a job sit at the logical path's place under their
      directories; the last name keeps its stem and gets ".adoc" or ".txt"
      as its one suffix; the output's parent is the logical path's directory
      under the output directory. */
  lemma JobPaths(inputDir: FsPath, outputDir: FsPath, path: LogicalPath)
    requires path != [] && path[|path| - 1] != ""
    ensures var job := JobFor(inputDir, outputDir, path).value;
            var n := |path|;
            && job.input.parts == inputDir.parts + path[..n - 1] + [WithSuffix(path[n - 1], ".adoc")]
            && job.output.parts == outputDir.parts + path[..n - 1] + [WithSuffix(path[n - 1], ".txt")]
            && Suffix(WithSuffix(path[n - 1], ".adoc")) == ".adoc"
            && Suffix(WithSuffix(path[n - 1], ".txt")) == ".txt"
            && Stem(WithSuffix(path[n - 1], ".adoc")) == Stem(path[n - 1]) == Stem(WithSuffix(path[n - 1], ".txt"))
            && Parent(job.output) == JoinPath(outputDir, path[..n - 1])
  {
    var n := |path|;
    WithSuffixReadsBack(path[n - 1], ".adoc");
    WithSuffixReadsBack(path[n - 1], ".txt");
    var target := WithSuffixPath(path, ".txt").value;
    assert target == target[..n - 1] + [target[n - 1]];
    var output := JoinPath(outputDir, target).parts;
    assert output[..|output| - 1] == outputDir.parts + path[..n - 1];
  }

  /** What the loop does for one logical path: the job, the directory made
      for the output (line 125), and the `convert` call. */
  datatype BatchStep = BatchStep(job: Job, outputParent: FsPath, invocation: Invocation)

  /** The step for `job` with converter settings `s`. */
  function StepFor(s: Settings, cwd: seq<string>, job: Job, pathExists: FsPath -> bool): BatchStep
  {
    BatchStep(job, Parent(Absolute(cwd, job.output)),
              Plan(s, cwd, job.input, job.output, pathExists(job.output)))
  }

  /** The step for one logical path, or the ValueError of `with_suffix` that
      ends the loop before it. */
  function PrepareStep(s: Settings, cwd: seq<string>, inputDir: FsPath, outputDir: FsPath, path: LogicalPath,
                       pathExists: FsPath -> bool): Result<BatchStep, Error>
  {
    match JobFor(inputDir, outputDir, path)
    case Failure(e) => Failure(e)
    case Success(job) => Success(StepFor(s, cwd, job, pathExists))
  }

  /** The steps for the paths, one per path, in list order. */
  function Prepared(s: Settings, cwd: seq<string>, inputDir: FsPath, outputDir: FsPath, files: seq<LogicalPath>,
                    pathExists: FsPath -> bool): (r: seq<Result<BatchStep, Error>>)
    ensures |r| == |files|
    ensures forall k :: 0 <= k < |files| ==> r[k] == PrepareStep(s, cwd, inputDir, outputDir, files[k], pathExists)
  {
    seq(|files|, k requires 0 <= k < |files| => PrepareStep(s, cwd, inputDir, outputDir, files[k], pathExists))
  }

  /** The loop's control: the steps are taken in order; a step that cannot be
      prepared ends the loop before it, a failed conversion ends it after
      it. The steps taken and how the loop ended. */
  function RunSteps(prepared: seq<Result<BatchStep, Error>>, run: seq<string> -> bool): (seq<BatchStep>, Result<(), Error>)
    decreases |prepared|
  {
    if prepared == [] then ([], Success(()))
    else match prepared[0]
      case Failure(e) => ([], Failure(e))
      case Success(step) =>
        if !run(step.invocation.command) then ([step], Failure(CalledProcessError(step.invocation.command)))
        else
          var rest := RunSteps(prepared[1..], run);
          ([step] + rest.0, rest.1)
  }

  /** The loop over `files` with converter settings `s`. */
  function Batch(s: Settings, cwd: seq<string>, inputDir: FsPath, outputDir: FsPath, files: seq<LogicalPath>,
                 pathExists: FsPath -> bool, run: seq<string> -> bool): (seq<BatchStep>, Result<(), Error>)
  {
    RunSteps(Prepared(s, cwd, inputDir, outputDir, files, pathExists), run)
  }

  /** The loop's control from the i-th prepared step on. */
  lemma RunStepsFrom(prepared: seq<Result<BatchStep, Error>>, i: nat, run: seq<string> -> bool)
    requires i < |prepared|
    ensures prepared[i].Failure? ==> RunSteps(prepared[i..], run) == ([], Failure(prepared[i].error))
    ensures prepared[i].Success? && !run(prepared[i].value.invocation.command) ==>
              RunSteps(prepared[i..], run)
              == ([prepared[i].value], Failure(CalledProcessError(prepared[i].value.invocation.command)))
    ensures prepared[i].Success? && run(prepared[i].value.invocation.command) ==>
              RunSteps(prepared[i..], run)
              == ([prepared[i].value] + RunSteps(prepared[i + 1..], run).0, RunSteps(prepared[i + 1..], run).1)
  {
    assert prepared[i..][0] == prepared[i] && prepared[i..][1..] == prepared[i + 1..];
  }

  /** Whether the last step, if any, converted its file. */
  predicate LastRan(steps: seq<BatchStep>, run: seq<string> -> bool)
  {
    steps == [] || run(steps[|steps| - 1].invocation.command)
  }

  /** The steps taken are the first prepared steps, in order, and every one
      but the last converted its file. */
  lemma {:induction false} RunStepsInOrder(prepared: seq<Result<BatchStep, Error>>, run: seq<string> -> bool)
    ensures var steps := RunSteps(prepared, run).0;
            && |steps| <= |prepared|
            && (forall k :: 0 <= k < |steps| ==> prepared[k] == Success(steps[k]))
            && (forall k :: 0 <= k < |steps| - 1 ==> run(steps[k].invocation.command))
    decreases |prepared|
  {
    if prepared != [] && prepared[0].Success? && run(prepared[0].value.invocation.command) {
      var rest := RunSteps(prepared[1..], run).0;
      RunStepsInOrder(prepared[1..], run);
      var steps := [prepared[0].value] + rest;
      assert forall k :: 0 < k < |steps| ==> steps[k] == rest[k - 1] && prepared[k] == prepared[1..][k - 1];
    }
  }

  /** The loop succeeds exactly when it took and converted every step;
      otherwise it failed preparing the step after the last one taken, or on
      the last step's conversion, and no later step was taken. */
  lemma {:induction false} RunStepsStopsAtFirstFailure(prepared: seq<Result<BatchStep, Error>>, run: seq<string> -> bool)
    ensures var (steps, outcome) := RunSteps(prepared, run);
            && (outcome.Success? <==> |steps| == |prepared| && LastRan(steps, run))
            && (outcome.Failure? && LastRan(steps, run) ==>
                  |steps| < |prepared| && prepared[|steps|] == Failure(outcome.error))
            && (outcome.Failure? && !LastRan(steps, run) ==>
                  outcome.error == CalledProcessError(steps[|steps| - 1].invocation.command))
    decreases |prepared|
  {
    if prepared != [] && prepared[0].Success? && run(prepared[0].value.invocation.command) {
      var rest := RunSteps(prepared[1..], run);
      RunStepsStopsAtFirstFailure(prepared[1..], run);
      RunStepsInOrder(prepared[1..], run);
      var steps := [prepared[0].value] + rest.0;
      if rest.0 != [] {
        assert steps[|steps| - 1] == rest.0[|rest.0| - 1];
      }
      if |steps| < |prepared| {
        assert prepared[|steps|] == prepared[1..][|rest.0|];
      }
    }
  }

  /** The loop visits the paths in list order: the k-th step is the step for
      the k-th path, and every step but the last converted its file. */
  lemma BatchSteps(s: Settings, cwd: seq<string>, inputDir: FsPath, outputDir: FsPath, files: seq<LogicalPath>,
                   pathExists: FsPath -> bool, prepared: seq<Result<BatchStep, Error>>, run: seq<string> -> bool)
    requires prepared == Prepared(s, cwd, inputDir, outputDir, files, pathExists)
    ensures var steps := RunSteps(prepared, run).0;
            && |steps| <= |files|
            && (forall k :: 0 <= k < |steps| ==>
                  JobFor(inputDir, outputDir, files[k]).Success?
                  && steps[k] == StepFor(s, cwd, JobFor(inputDir, outputDir, files[k]).value, pathExists))
            && (forall k :: 0 <= k < |steps| - 1 ==> run(steps[k].invocation.command))
  {
    var steps := RunSteps(prepared, run).0;
    RunStepsInOrder(prepared, run);
    forall k | 0 <= k < |steps|
      ensures JobFor(inputDir, outputDir, files[k]).Success?
      ensures steps[k] == StepFor(s, cwd, JobFor(inputDir, outputDir, files[k]).value, pathExists)
    {
      PreparedStep(s, cwd, inputDir, outputDir, files[k], pathExists, prepared[k]);
    }
  }

  /** The loop stops at the first failure: it succeeds exactly when it
      converted every path; otherwise `with_suffix` failed on the path after
      the last step, or the last step's conversion failed. */
  lemma BatchOutcome(s: Settings, cwd: seq<string>, inputDir: FsPath, outputDir: FsPath, files: seq<LogicalPath>,
                     pathExists: FsPath -> bool, prepared: seq<Result<BatchStep, Error>>, run: seq<string> -> bool)
    requires prepared == Prepared(s, cwd, inputDir, outputDir, files, pathExists)
    ensures var (steps, outcome) := RunSteps(prepared, run);
            && (outcome.Success? <==> |steps| == |files| && LastRan(steps, run))
            && (outcome.Failure? && LastRan(steps, run) ==>
                  |steps| < |files| && JobFor(inputDir, outputDir, files[|steps|]) == Failure(outcome.error))
            && (outcome.Failure? && !LastRan(steps, run) ==>
                  outcome.error == CalledProcessError(steps[|steps| - 1].invocation.command))
  {
    var (steps, outcome) := RunSteps(prepared, run);
    RunStepsStopsAtFirstFailure(prepared, run);
    if outcome.Failure? && LastRan(steps, run) {
      PreparedStep(s, cwd, inputDir, outputDir, files[|steps|], pathExists, prepared[|steps|]);
    }
  }

  /** A prepared step is the step for the path's job, or the job's error. */
  lemma PreparedStep(s: Settings, cwd: seq<string>, inputDir: FsPath, outputDir: FsPath, path: LogicalPath,
                     pathExists: FsPath -> bool, r: Result<BatchStep, Error>)
    requires r == PrepareStep(s, cwd, inputDir, outputDir, path, pathExists)
    ensures r.Success? ==> JobFor(inputDir, outputDir, path).Success?
                           && r.value == StepFor(s, cwd, JobFor(inputDir, outputDir, path).value, pathExists)
    ensures r.Failure? ==> JobFor(inputDir, outputDir, path) == Failure(r.error)
  {
  }

  /** A run whose first conversion succeeds and whose second fails takes
      exactly those two steps; no later step is attempted. */
  lemma RunStepsSecondFails(prepared: seq<Result<BatchStep, Error>>, run: seq<string> -> bool)
    requires |prepared| >= 2 && prepared[0].Success? && prepared[1].Success?
    requires run(prepared[0].value.invocation.command) && !run(prepared[1].value.invocation.command)
    ensures RunSteps(prepared, run)
            == ([prepared[0].value, prepared[1].value], Failure(CalledProcessError(prepared[1].value.invocation.command)))
  {
    assert prepared[0..] == prepared;
    RunStepsFrom(prepared, 0, run);
    RunStepsFrom(prepared, 1, run);
    assert [prepared[0].value] + [prepared[1].value] == [prepared[0].value, prepared[1].value];
  }

  lemma ConcatAssociative<T>(a: seq<T>, b: seq<T>, c: seq<T>)
    ensures a + (b + c) == (a + b) + c
  {
  }

  /** The loop of lines 121-126 over the converter `converter`. */
  method ConvertFiles(converter: AsciidocConverter, cwd: seq<string>, inputDir: FsPath, outputDir: FsPath,
                      files: seq<LogicalPath>, pathExists: FsPath -> bool, run: seq<string> -> bool)
    returns (steps: seq<BatchStep>, outcome: Result<(), Error>)
    ensures (steps, outcome) == Batch(converter.Config(), cwd, inputDir, outputDir, files, pathExists, run)
  {
    ghost var prepared := Prepared(converter.Config(), cwd, inputDir, outputDir, files, pathExists);
    steps := [];
    assert prepared[0..] == prepared && steps + RunSteps(prepared, run).0 == RunSteps(prepared, run).0;
    for i := 0 to |files|
      invariant RunSteps(prepared, run) == (steps + RunSteps(prepared[i..], run).0, RunSteps(prepared[i..], run).1)
    {
      RunStepsFrom(prepared, i, run);
      var job := JobFor(inputDir, outputDir, files[i]);
      if job.Failure? {
        assert prepared[i] == PrepareStep(converter.Config(), cwd, inputDir, outputDir, files[i], pathExists) == Failure(job.error);
        assert steps + [] == steps;
        return steps, Failure(job.error);
      }
      var outputParent := Parent(Absolute(cwd, job.value.output));
      var invocation, status := converter.Convert(cwd, job.value.input, job.value.output, pathExists, run);
      var step := BatchStep(job.value, outputParent, invocation);
      assert step == StepFor(converter.Config(), cwd, job.value, pathExists);
      assert prepared[i] == PrepareStep(converter.Config(), cwd, inputDir, outputDir, files[i], pathExists) == Success(step);
      if status.Failure? {
        return steps + [step], status;
      }
      ConcatAssociative(steps, [step], RunSteps(prepared[i + 1..], run).0);
      steps := steps + [step];
    }
    assert prepared[|files|..] == [];
    assert steps + [] == steps;
    outcome := Success(());
  }

  /** What a run of the script did: the output directory it created (line
      117), the conversion steps, and how it ended. */
  datatype ScriptRun = ScriptRun(outputDirMade: Option<FsPath>, steps: seq<BatchStep>, outcome: Result<(), Error>)

  /** The script with the topic-map documents, distro, directories and
      attributes it is given. The converter is built for "text" with no
      converter file: the script's `--converter-file` option is never passed
      on. */
  function Script(docs: seq<Node>, distro: string, cwd: seq<string>, inputDir: FsPath, outputDir: FsPath,
                  attributes: AttributesSource, rubyDir: FsPath, which: Option<string>,
                  pathExists: FsPath -> bool, run: seq<string> -> bool): (r: ScriptRun)
    ensures r.outputDirMade.None? ==> r.steps == [] && r.outcome.Failure?
    ensures r.steps != [] || r.outcome.Success? ==> r.outputDirMade == Some(Absolute(cwd, outputDir))
  {
    match ResolveDocuments(docs, distro)
    case Failure(e) => ScriptRun(None, [], Failure(e))
    case Success(files) =>
      var outputAbs := Absolute(cwd, outputDir);
      match Setup("text", attributes, None, rubyDir, which)
      case Failure(e) => ScriptRun(Some(outputAbs), [], Failure(e))
      case Success(s) =>
        var batch := Batch(s, cwd, Absolute(cwd, inputDir), outputAbs, files, pathExists, run);
        ScriptRun(Some(outputAbs), batch.0, batch.1)
  }

  /** How a run ends before any conversion: a malformed topic map ends it
      before the output directory is made; a failing attributes file or a
      missing asciidoctor ends it after that, with no file processed. */
  lemma ScriptStopsEarly(docs: seq<Node>, distro: string, cwd: seq<string>, inputDir: FsPath, outputDir: FsPath,
                         attributes: AttributesSource, rubyDir: FsPath, which: Option<string>,
                         pathExists: FsPath -> bool, run: seq<string> -> bool)
    ensures var r := Script(docs, distro, cwd, inputDir, outputDir, attributes, rubyDir, which, pathExists, run);
            && (ResolveDocuments(docs, distro).Failure? ==>
                  r.outputDirMade.None? && r.steps == []
                  && (r.outcome.error == KeyError("Dir") || r.outcome.error == KeyError("File")))
            && (ResolveDocuments(docs, distro).Success? ==> r.outputDirMade == Some(Absolute(cwd, outputDir)))
            && (ResolveDocuments(docs, distro).Success? && AttributeList(attributes).Failure? ==>
                  r.steps == [] && r.outcome == Failure(AttributeList(attributes).error))
            && (ResolveDocuments(docs, distro).Success? && AttributeList(attributes).Success? && which.GetOr("") == "" ==>
                  r.steps == [] && r.outcome == Failure(FileNotFoundError(ToolNotFound)))
  {
  }

  /** A run that succeeds converted every resolved path, in order: the k-th
      step is the step for the k-th path, and its asciidoctor run succeeded. */
  lemma ScriptConvertsAll(docs: seq<Node>, distro: string, cwd: seq<string>, inputDir: FsPath, outputDir: FsPath,
                          attributes: AttributesSource, rubyDir: FsPath, which: Option<string>,
                          pathExists: FsPath -> bool, run: seq<string> -> bool)
    ensures var r := Script(docs, distro, cwd, inputDir, outputDir, attributes, rubyDir, which, pathExists, run);
            r.outcome.Success? ==>
              && ResolveDocuments(docs, distro).Success?
              && Setup("text", attributes, None, rubyDir, which).Success?
              && Converted(Setup("text", attributes, None, rubyDir, which).value, cwd, Absolute(cwd, inputDir),
                           Absolute(cwd, outputDir), ResolveDocuments(docs, distro).value, pathExists, run, r.steps)
  {
    var r := Script(docs, distro, cwd, inputDir, outputDir, attributes, rubyDir, which, pathExists, run);
    var resolved := ResolveDocuments(docs, distro);
    var setup := Setup("text", attributes, None, rubyDir, which);
    if resolved.Success? && setup.Success? {
      var b := Batch(setup.value, cwd, Absolute(cwd, inputDir), Absolute(cwd, outputDir), resolved.value, pathExists, run);
      assert r.steps == b.0 && r.outcome == b.1;
      if b.1.Success? {
        BatchSucceeds(setup.value, cwd, Absolute(cwd, inputDir), Absolute(cwd, outputDir), resolved.value, pathExists, run);
      }
    }
  }

  /** `steps` converted every one of `files`, in order: one step per path,
      the k-th the step for the k-th path, each with a successful run. */
  ghost predicate Converted(s: Settings, cwd: seq<string>, inputDir: FsPath, outputDir: FsPath, files: seq<LogicalPath>,
                            pathExists: FsPath -> bool, run: seq<string> -> bool, steps: seq<BatchStep>)
  {
    && |steps| == |files|
    && forall k :: 0 <= k < |steps| ==>
         && JobFor(inputDir, outputDir, files[k]).Success?
         && steps[k] == StepFor(s, cwd, JobFor(inputDir, outputDir, files[k]).value, pathExists)
         && run(steps[k].invocation.command)
  }

  /** A batch that succeeds converted every path. */
  lemma BatchSucceeds(s: Settings, cwd: seq<string>, inputDir: FsPath, outputDir: FsPath, files: seq<LogicalPath>,
                      pathExists: FsPath -> bool, run: seq<string> -> bool)
    requires Batch(s, cwd, inputDir, outputDir, files, pathExists, run).1.Success?
    ensures Converted(s, cwd, inputDir, outputDir, files, pathExists, run, Batch(s, cwd, inputDir, outputDir, files, pathExists, run).0)
  {
    var prepared := Prepared(s, cwd, inputDir, outputDir, files, pathExists);
    var b := Batch(s, cwd, inputDir, outputDir, files, pathExists, run);
    assert b == RunSteps(prepared, run);
    BatchSteps(s, cwd, inputDir, outputDir, files, pathExists, prepared, run);
    BatchOutcome(s, cwd, inputDir, outputDir, files, pathExists, prepared, run);
    forall k | 0 <= k < |b.0|
      ensures run(b.0[k].invocation.command)
    {
      if k == |b.0| - 1 {
        assert LastRan(b.0, run);
      }
    }
  }

  /** The script: `get_file_list`, the absolute directories, the output
      directory, the converter, then the loop. */
  method Run(docs: seq<Node>, distro: string, cwd: seq<string>, inputDir: FsPath, outputDir: FsPath,
             attributes: AttributesSource, rubyDir: FsPath, which: Option<string>,
             pathExists: FsPath -> bool, run: seq<string> -> bool)
    returns (r: ScriptRun)
    ensures r == Script(docs, distro, cwd, inputDir, outputDir, attributes, rubyDir, which, pathExists, run)
  {
    var fileList := GetFileList(docs, distro);
    if fileList.Failure? {
      return ScriptRun(None, [], Failure(fileList.error));
    }
    var inputAbs := Absolute(cwd, inputDir);
    var outputAbs := Absolute(cwd, outputDir);
    var converter := AsciidocConverter.Create("text", attributes, None, rubyDir, which);
    if converter.Failure? {
      return ScriptRun(Some(outputAbs), [], Failure(converter.error));
    }
    var steps, outcome := ConvertFiles(converter.value, cwd, inputAbs, outputAbs, fileList.value, pathExists, run);
    return ScriptRun(Some(outputAbs), steps, outcome);
  }
}
