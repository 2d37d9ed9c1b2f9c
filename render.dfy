/**
 * `generate_scripts`: for each step of a job, inject the credentials into the
 * step's parameter map, copy its template from the library folder into the
 * work folder with its placeholders substituted, and finally write the job's
 * driver script into the work folder.
 */
module Render {
  import opened Wrappers
  import opened Records
  import opened PlaceholderScan
  import opened StrFormat
  import opened Driver

  /** The exceptions `generate_scripts` lets through. */
  datatype RenderError =
    | TemplateNotFound(filename: string)                  // opening the library file fails
    | SubstitutionFailed(filename: string, cause: FormatError)  // `text.format(**in_param)` raises

  /**
   * The step's map after `in_param['username'] = ...; in_param['password'] = ...`:
   * it gains the two credential keys with the given values, whatever it held
   * for them before, and keeps every other entry.
   */
  function InjectCredentials(params: map<string, string>, username: string, password: string): (r: map<string, string>)
    ensures r.Keys == params.Keys + {"username", "password"}
    ensures r["username"] == username && r["password"] == password
    ensures forall k :: k in params && k != "username" && k != "password" ==> r[k] == params[k]
  {
    params["username" := username]["password" := password]
  }

  function InjectStep(s: StepDef, username: string, password: string): StepDef
  {
    s.(params := InjectCredentials(s.params, username, password))
  }

  /** The scan found both credential placeholders in the template. */
  predicate HasCredentials(text: string)
  {
    "username" in Placeholders(text) && "password" in Placeholders(text)
  }

  function StepHeader(stamp: string): string
  {
    "-- This file is generated by WBTEQ at " + stamp + "\n"
  }

  datatype StepOutcome = NotFound | Skipped | Rendered(body: string) | Failed(cause: FormatError)

  /**
   * What happens to one step whose (already injected) map is `params`: its
   * template is missing, or it is skipped because the scan lacks a credential
   * name, or it formats to a body, or formatting raises.
   */
  function RenderStep(lib: Folder, filename: string, params: map<string, string>): (r: StepOutcome)
    ensures r.NotFound? <==> filename !in lib
    ensures r.Skipped? <==> filename in lib && !HasCredentials(lib[filename])
    ensures r.Rendered? ==> filename in lib && Format(lib[filename], params) == Ok(r.body)
    ensures r.Failed? ==> filename in lib && Format(lib[filename], params) == Err(r.cause)
  {
    if filename !in lib then NotFound
    else if !HasCredentials(lib[filename]) then Skipped
    else match Format(lib[filename], params)
      case Ok(body) => Rendered(body)
      case Err(e) => Failed(e)
  }

  /** The outcome of step `s` once the credentials are in its map. */
  function Outcome(lib: Folder, s: StepDef, username: string, password: string): StepOutcome
  {
    RenderStep(lib, s.filename, InjectCredentials(s.params, username, password))
  }

  /** `Outcome` for every step of one call. */
  function Outcomes(lib: Folder, username: string, password: string): StepDef -> StepOutcome
  {
    s => Outcome(lib, s, username, password)
  }

  /** The outcome raises nothing. */
  predicate Clean(o: StepOutcome)
  {
    o.Skipped? || o.Rendered?
  }

  /** The work file a clean outcome leaves: empty for a skipped step, else the header line and the body. */
  function CleanText(o: StepOutcome, header: string): string
    requires Clean(o)
  {
    if o.Skipped? then "" else header + o.body
  }

  /** The exception an outcome that is not clean raises for file `filename`. */
  function ErrorOf(o: StepOutcome, filename: string): RenderError
    requires !Clean(o)
  {
    if o.NotFound? then TemplateNotFound(filename) else SubstitutionFailed(filename, o.cause)
  }

  // ---------------------------------------------------------------------------
  // What one step means in terms of the template.

  /** Step `s` raises nothing: its template exists and, unless skipped, formats cleanly. */
  predicate StepOk(lib: Folder, s: StepDef, username: string, password: string)
  {
    s.filename in lib &&
    (HasCredentials(lib[s.filename]) ==> Format(lib[s.filename], InjectCredentials(s.params, username, password)).Ok?)
  }

  /**
   * The work file of a step that raises nothing: empty when the template lacks
   * a credential placeholder, else the header line and the substituted text.
   */
  function WorkFileText(lib: Folder, s: StepDef, username: string, password: string, stamp: string): string
    requires StepOk(lib, s, username, password)
  {
    var text := lib[s.filename];
    if HasCredentials(text) then StepHeader(stamp) + Format(text, InjectCredentials(s.params, username, password)).value
    else ""
  }

  /** The exception a failing step raises. */
  function FailureOf(lib: Folder, s: StepDef, username: string, password: string): RenderError
    requires !StepOk(lib, s, username, password)
  {
    if s.filename !in lib then TemplateNotFound(s.filename)
    else SubstitutionFailed(s.filename, Format(lib[s.filename], InjectCredentials(s.params, username, password)).error)
  }

  /**
   * A step's outcome, read off its template: it is clean iff the step is, a
   * clean one leaves `WorkFileText`, and one that is not raises `FailureOf`
   * and is `NotFound` exactly when the template is missing.
   */
  lemma OutcomeMeaning(lib: Folder, s: StepDef, username: string, password: string, stamp: string)
    ensures var o := Outcome(lib, s, username, password);
      (Clean(o) <==> StepOk(lib, s, username, password)) &&
      (Clean(o) ==> CleanText(o, StepHeader(stamp)) == WorkFileText(lib, s, username, password, stamp)) &&
      (!Clean(o) ==> (ErrorOf(o, s.filename) == FailureOf(lib, s, username, password) &&
                      (o.NotFound? <==> s.filename !in lib)))
  {
    if s.filename in lib && HasCredentials(lib[s.filename]) {
      var body := Format(lib[s.filename], InjectCredentials(s.params, username, password));
      if body.Ok? {
        assert Outcome(lib, s, username, password) == Rendered(body.value);
      }
    }
  }

  // ---------------------------------------------------------------------------
  // The loop over the steps.

  /**
   * What the loop needs to know of one call: each step's outcome, the step
   * with the credentials in its map, and the header line of the `i`-th step.
   */
  datatype Renderer = Renderer(outcome: StepDef -> StepOutcome, inject: StepDef -> StepDef, header: nat -> string)

  /** The renderer of a call with these credentials, library and clock. */
  function CallRenderer(lib: Folder, username: string, password: string, stampAt: nat -> string): Renderer
  {
    Renderer(Outcomes(lib, username, password), s => InjectStep(s, username, password), (i: nat) => StepHeader(stampAt(i)))
  }

  /** The state after the loop has run over the first steps. */
  datatype Progress = Progress(files: Folder, steps: seq<StepDef>, failure: Option<RenderError>)

  /** One pass of the loop body over step `s`, the `i`-th step of the job, whose outcome is `o`. */
  function Advance(prev: Progress, s: StepDef, i: nat, o: StepOutcome, c: Renderer): (r: Progress)
    requires i < |prev.steps|
    ensures r.steps == prev.steps[i := c.inject(s)]
  {
    var injected := prev.steps[i := c.inject(s)];
    match o
    case NotFound => Progress(prev.files, injected, Some(TemplateNotFound(s.filename)))
    case Skipped => Progress(prev.files[s.filename := ""], injected, None)
    case Rendered(body) => Progress(prev.files[s.filename := c.header(i) + body], injected, None)
    case Failed(e) =>
      Progress(prev.files[s.filename := c.header(i)], injected, Some(SubstitutionFailed(s.filename, e)))
  }

  /**
   * One pass, case by case: it raises nothing iff the outcome is clean, and
   * then writes `CleanText`; otherwise it raises `ErrorOf`, leaving a
   * header-only work file, or the folder as it was when the template is missing.
   */
  lemma AdvanceCases(prev: Progress, s: StepDef, i: nat, o: StepOutcome, c: Renderer)
    requires i < |prev.steps|
    ensures var r := Advance(prev, s, i, o, c);
      (r.failure.None? <==> Clean(o)) &&
      (Clean(o) ==> r.files == prev.files[s.filename := CleanText(o, c.header(i))]) &&
      (!Clean(o) ==> (r.failure == Some(ErrorOf(o, s.filename)) &&
         r.files == if o.NotFound? then prev.files else prev.files[s.filename := c.header(i)]))
  {
  }

  /**
   * The work folder, the job's steps and the pending exception after the loop
   * has handled `steps[..n]`; it stops at the first exception.
   */
  function RenderSteps(work: Folder, steps: seq<StepDef>, n: nat, c: Renderer): (r: Progress)
    requires n <= |steps|
    ensures |r.steps| == |steps|
    ensures forall k :: n <= k < |steps| ==> r.steps[k] == steps[k]
    decreases n
  {
    if n == 0 then Progress(work, steps, None)
    else
      var prev := RenderSteps(work, steps, n - 1, c);
      if prev.failure.Some? then prev
      else Advance(prev, steps[n - 1], n - 1, c.outcome(steps[n - 1]), c)
  }

  /** Once an exception is pending, later steps change nothing. */
  lemma {:induction false} RenderStepsStopped(work: Folder, steps: seq<StepDef>, k: nat, n: nat, c: Renderer)
    requires k <= n <= |steps|
    requires RenderSteps(work, steps, k, c).failure.Some?
    ensures RenderSteps(work, steps, n, c)
         == RenderSteps(work, steps, k, c)
    decreases n
  {
    if n > k {
      RenderStepsStopped(work, steps, k, n - 1, c);
    }
  }

  /** One more step, in terms of the state before it. */
  lemma RenderStepsStep(work: Folder, steps: seq<StepDef>, n: nat, c: Renderer)
    requires 0 < n <= |steps|
    ensures var prev := RenderSteps(work, steps, n - 1, c);
      var r := RenderSteps(work, steps, n, c);
      var o := c.outcome(steps[n - 1]);
      (r.failure.None? <==> prev.failure.None? && Clean(o)) &&
      (r.failure.None? ==>
         r.files == prev.files[steps[n - 1].filename := CleanText(o, c.header(n - 1))] &&
         r.steps == prev.steps[n - 1 := c.inject(steps[n - 1])])
  {
    var prev := RenderSteps(work, steps, n - 1, c);
    if prev.failure.None? {
      AdvanceCases(prev, steps[n - 1], n - 1, c.outcome(steps[n - 1]), c);
    }
  }

  /** Without an exception so far, the loop succeeds exactly when every step is clean. */
  lemma {:induction false} RenderStepsSucceed(work: Folder, steps: seq<StepDef>, n: nat, c: Renderer)
    requires n <= |steps|
    ensures RenderSteps(work, steps, n, c).failure.None?
        <==> forall i :: 0 <= i < n ==> Clean(c.outcome(steps[i]))
    decreases n
  {
    if n > 0 {
      RenderStepsSucceed(work, steps, n - 1, c);
      RenderStepsStep(work, steps, n, c);
    }
  }

  /** When the loop succeeds, every step's map has the credentials injected. */
  lemma {:induction false} RenderStepsInjected(work: Folder, steps: seq<StepDef>, n: nat, c: Renderer)
    requires n <= |steps|
    requires RenderSteps(work, steps, n, c).failure.None?
    ensures forall i :: 0 <= i < n ==>
      RenderSteps(work, steps, n, c).steps[i] == c.inject(steps[i])
    decreases n
  {
    if n > 0 {
      RenderStepsStep(work, steps, n, c);
      RenderStepsInjected(work, steps, n - 1, c);
    }
  }

  /** No step of `steps[..n]` after step `i` writes the same work file. */
  predicate LastWriter(steps: seq<StepDef>, n: nat, i: nat)
    requires i < n <= |steps|
  {
    forall j :: i < j < n ==> steps[j].filename != steps[i].filename
  }

  /** When the loop succeeds, every work file holds what the last step naming it left. */
  lemma {:induction false} RenderStepsWorkFiles(work: Folder, steps: seq<StepDef>, n: nat, c: Renderer)
    requires n <= |steps|
    requires RenderSteps(work, steps, n, c).failure.None?
    ensures var r := RenderSteps(work, steps, n, c);
      forall i {:trigger LastWriter(steps, n, i)} :: 0 <= i < n && LastWriter(steps, n, i) ==>
        Clean(c.outcome(steps[i])) && steps[i].filename in r.files &&
        r.files[steps[i].filename] == CleanText(c.outcome(steps[i]), c.header(i))
    decreases n
  {
    if n > 0 {
      RenderStepsStep(work, steps, n, c);
      RenderStepsWorkFiles(work, steps, n - 1, c);
      var prev := RenderSteps(work, steps, n - 1, c);
      var r := RenderSteps(work, steps, n, c);
      forall i | 0 <= i < n && LastWriter(steps, n, i)
        ensures Clean(c.outcome(steps[i])) && steps[i].filename in r.files
        ensures r.files[steps[i].filename] == CleanText(c.outcome(steps[i]), c.header(i))
      {
        if i < n - 1 {
          assert steps[n - 1].filename != steps[i].filename;
          assert LastWriter(steps, n - 1, i);
        }
      }
    }
  }

  /** A work file no step of `steps[..n]` names is left as it was. */
  lemma {:induction false} RenderStepsUntouched(work: Folder, steps: seq<StepDef>, n: nat, c: Renderer,
                                                f: string)
    requires n <= |steps|
    requires forall i :: 0 <= i < n ==> steps[i].filename != f
    ensures var r := RenderSteps(work, steps, n, c);
      (f in r.files <==> f in work) && (f in work ==> r.files[f] == work[f])
    decreases n
  {
    if n > 0 {
      RenderStepsUntouched(work, steps, n - 1, c, f);
      var prev := RenderSteps(work, steps, n - 1, c);
      if prev.failure.None? {
        AdvanceCases(prev, steps[n - 1], n - 1, c.outcome(steps[n - 1]), c);
      }
    }
  }

  /** The loop stopped at step `k`: the steps before it were clean and it raised. */
  predicate StoppedAt(r: Progress, steps: seq<StepDef>, k: nat, c: Renderer)
    requires k < |steps| && |r.steps| == |steps|
  {
    (forall i :: 0 <= i < k ==> Clean(c.outcome(steps[i]))) &&
    !Clean(c.outcome(steps[k])) &&
    r.failure == Some(ErrorOf(c.outcome(steps[k]), steps[k].filename)) &&
    (forall i :: 0 <= i <= k ==> r.steps[i] == c.inject(steps[i])) &&
    (forall i :: k < i < |steps| ==> r.steps[i] == steps[i]) &&
    (!c.outcome(steps[k]).NotFound? ==>
       steps[k].filename in r.files && r.files[steps[k].filename] == c.header(k))
  }

  /**
   * An exception comes from the first step that is not clean: that step's map
   * was already updated, later steps' maps were not, and when its template was
   * found its work file holds the header line alone.
   */
  lemma {:induction false} RenderStepsFailure(work: Folder, steps: seq<StepDef>, n: nat, c: Renderer)
    requires n <= |steps|
    requires RenderSteps(work, steps, n, c).failure.Some?
    ensures exists k :: (0 <= k < n && StoppedAt(RenderSteps(work, steps, n, c), steps, k, c))
    decreases n
  {
    if RenderSteps(work, steps, n - 1, c).failure.Some? {
      RenderStepsFailure(work, steps, n - 1, c);
      StoppedEarlier(work, steps, n, c, RenderSteps(work, steps, n - 1, c));
    } else {
      StoppedHere(work, steps, n, c);
    }
  }

  /** An exception already pending before the last step is still the one reported. */
  lemma StoppedEarlier(work: Folder, steps: seq<StepDef>, n: nat, c: Renderer, prev: Progress)
    requires 0 < n <= |steps| && prev == RenderSteps(work, steps, n - 1, c)
    requires exists k :: (0 <= k < n - 1 && StoppedAt(prev, steps, k, c))
    ensures exists k :: (0 <= k < n && StoppedAt(RenderSteps(work, steps, n, c), steps, k, c))
  {
    var k :| 0 <= k < n - 1 && StoppedAt(prev, steps, k, c);
    RenderStepsStopped(work, steps, n - 1, n, c);
    assert StoppedAt(RenderSteps(work, steps, n, c), steps, k, c);
  }

  /** After a clean run of `n - 1` steps, an exception comes from step `n - 1`. */
  lemma StoppedHere(work: Folder, steps: seq<StepDef>, n: nat, c: Renderer)
    requires 0 < n <= |steps|
    requires RenderSteps(work, steps, n - 1, c).failure.None?
    requires RenderSteps(work, steps, n, c).failure.Some?
    ensures StoppedAt(RenderSteps(work, steps, n, c), steps, n - 1, c)
  {
    var prev := RenderSteps(work, steps, n - 1, c);
    RenderStepsUnfold(work, steps, n, c);
    AdvanceCases(prev, steps[n - 1], n - 1, c.outcome(steps[n - 1]), c);
    RenderStepsSucceed(work, steps, n - 1, c);
    RenderStepsInjected(work, steps, n - 1, c);
    StoppedAtLast(prev, steps, n - 1, c);
  }

  /** While no exception is pending, step `n` advances the state after `n - 1` steps. */
  lemma RenderStepsUnfold(work: Folder, steps: seq<StepDef>, n: nat, c: Renderer)
    requires 0 < n <= |steps|
    requires RenderSteps(work, steps, n - 1, c).failure.None?
    ensures RenderSteps(work, steps, n, c) ==
      Advance(RenderSteps(work, steps, n - 1, c), steps[n - 1], n - 1, c.outcome(steps[n - 1]), c)
  {
  }

  /** The step after a clean run of `i` steps raises: the loop stopped there. */
  lemma StoppedAtLast(prev: Progress, steps: seq<StepDef>, i: nat, c: Renderer)
    requires i < |steps| && |prev.steps| == |steps|
    requires forall j :: 0 <= j < i ==> Clean(c.outcome(steps[j]))
    requires forall j :: 0 <= j < i ==> prev.steps[j] == c.inject(steps[j])
    requires forall j :: i <= j < |steps| ==> prev.steps[j] == steps[j]
    requires !Clean(c.outcome(steps[i]))
    ensures StoppedAt(Advance(prev, steps[i], i, c.outcome(steps[i]), c), steps, i, c)
  {
    AdvanceCases(prev, steps[i], i, c.outcome(steps[i]), c);
  }

  /** Work folder, job and result after a whole call. */
  datatype Generation = Generation(files: Folder, job: JobDef, result: Result<string, RenderError>)

  function Generate(work: Folder, username: string, password: string, lib: Folder, workPath: string,
                    job: JobDef, dtStamp: string, stampAt: nat -> string, cmdStamp: string): (g: Generation)
    ensures g.job.job_id == job.job_id && g.job.job_name == job.job_name && g.job.job_email == job.job_email
    ensures |g.job.steps| == |job.steps|
    ensures g.result.Ok? ==>
      CmdFileName(job.job_name, dtStamp) in g.files && g.result.value == JoinPath(workPath, CmdFileName(job.job_name, dtStamp))
  {
    var pr := RenderSteps(work, job.steps, |job.steps|, CallRenderer(lib, username, password, stampAt));
    var updated := job.(steps := pr.steps);
    if pr.failure.Some? then Generation(pr.files, updated, Err(pr.failure.value))
    else
      var cmd := CmdFileName(job.job_name, dtStamp);
      var script := DriverScript(Filenames(job.steps), LogFileName(job.job_name, dtStamp), cmdStamp);
      Generation(pr.files[cmd := script], updated, Ok(JoinPath(workPath, cmd)))
  }

  /** A call returns, with the work path joined with the `.sh` name, exactly when every step is clean. */
  lemma GenerateSucceeds(work: Folder, username: string, password: string, lib: Folder, workPath: string,
                         job: JobDef, dtStamp: string, stampAt: nat -> string, cmdStamp: string)
    ensures var g := Generate(work, username, password, lib, workPath, job, dtStamp, stampAt, cmdStamp);
      (g.result.Ok? <==> forall i :: 0 <= i < |job.steps| ==> StepOk(lib, job.steps[i], username, password)) &&
      (g.result.Ok? ==> g.result.value == JoinPath(workPath, CmdFileName(job.job_name, dtStamp)))
  {
    var c := CallRenderer(lib, username, password, stampAt);
    RenderStepsSucceed(work, job.steps, |job.steps|, c);
    forall i | 0 <= i < |job.steps|
      ensures Clean(c.outcome(job.steps[i])) <==> StepOk(lib, job.steps[i], username, password)
    {
      OutcomeMeaning(lib, job.steps[i], username, password, stampAt(i));
    }
  }

  /**
   * When step `k` is the first that is not clean, the call raises its
   * exception: the maps of the steps up to `k` hold the credentials and the
   * later ones are as they were, and a found template leaves a work file
   * holding the header line alone.
   */
  lemma GenerateFailure(work: Folder, username: string, password: string, lib: Folder, workPath: string,
                        job: JobDef, dtStamp: string, stampAt: nat -> string, cmdStamp: string, k: nat)
    requires k < |job.steps|
    requires forall i :: 0 <= i < k ==> StepOk(lib, job.steps[i], username, password)
    requires !StepOk(lib, job.steps[k], username, password)
    ensures var g := Generate(work, username, password, lib, workPath, job, dtStamp, stampAt, cmdStamp);
      var f := job.steps[k].filename;
      g.result == Err(FailureOf(lib, job.steps[k], username, password)) &&
      |g.job.steps| == |job.steps| &&
      (forall i :: 0 <= i <= k ==> g.job.steps[i] == InjectStep(job.steps[i], username, password)) &&
      (forall i :: k < i < |job.steps| ==> g.job.steps[i] == job.steps[i]) &&
      (f in lib ==> f in g.files && g.files[f] == StepHeader(stampAt(k)))
  {
    var c := CallRenderer(lib, username, password, stampAt);
    var n := |job.steps|;
    OutcomeMeaning(lib, job.steps[k], username, password, stampAt(k));
    RenderStepsSucceed(work, job.steps, n, c);
    RenderStepsFailure(work, job.steps, n, c);
    var r := RenderSteps(work, job.steps, n, c);
    var k' :| 0 <= k' < n && StoppedAt(r, job.steps, k', c);
    OutcomeMeaning(lib, job.steps[k'], username, password, stampAt(k'));
    assert k' == k;
    FailedCall(job, k, c, r, Generate(work, username, password, lib, workPath, job, dtStamp, stampAt, cmdStamp));
  }

  /**
   * The work files the clean steps before a failing step `k` wrote stay
   * behind: each holds what the last of those steps naming it rendered,
   * unless step `k` itself names the same file.
   */
  lemma GenerateFailureWorkFiles(work: Folder, username: string, password: string, lib: Folder, workPath: string,
                                 job: JobDef, dtStamp: string, stampAt: nat -> string, cmdStamp: string, k: nat)
    requires k < |job.steps|
    requires forall i :: 0 <= i < k ==> StepOk(lib, job.steps[i], username, password)
    requires !StepOk(lib, job.steps[k], username, password)
    ensures var g := Generate(work, username, password, lib, workPath, job, dtStamp, stampAt, cmdStamp);
      forall i {:trigger LastWriter(job.steps, k, i)} ::
        0 <= i < k && LastWriter(job.steps, k, i) && job.steps[i].filename != job.steps[k].filename ==>
          job.steps[i].filename in g.files &&
          g.files[job.steps[i].filename] == WorkFileText(lib, job.steps[i], username, password, stampAt(i))
  {
    var c := CallRenderer(lib, username, password, stampAt);
    forall i | 0 <= i < k
      ensures Clean(c.outcome(job.steps[i]))
      ensures CleanText(c.outcome(job.steps[i]), c.header(i)) == WorkFileText(lib, job.steps[i], username, password, stampAt(i))
    {
      OutcomeMeaning(lib, job.steps[i], username, password, stampAt(i));
    }
    OutcomeMeaning(lib, job.steps[k], username, password, stampAt(k));
    RenderStepsSucceed(work, job.steps, |job.steps|, c);
    StoppedWorkFiles(work, job.steps, k, c);
  }

  /** After the loop stops at step `k`, the work files of the steps before it are as they left them. */
  lemma StoppedWorkFiles(work: Folder, steps: seq<StepDef>, k: nat, c: Renderer)
    requires k < |steps|
    requires forall i :: 0 <= i < k ==> Clean(c.outcome(steps[i]))
    requires !Clean(c.outcome(steps[k]))
    ensures var r := RenderSteps(work, steps, |steps|, c);
      forall i {:trigger LastWriter(steps, k, i)} ::
        0 <= i < k && LastWriter(steps, k, i) && steps[i].filename != steps[k].filename ==>
          steps[i].filename in r.files && r.files[steps[i].filename] == CleanText(c.outcome(steps[i]), c.header(i))
  {
    RenderStepsSucceed(work, steps, k, c);
    RenderStepsWorkFiles(work, steps, k, c);
    var prev := RenderSteps(work, steps, k, c);
    RenderStepsUnfold(work, steps, k + 1, c);
    AdvanceCases(prev, steps[k], k, c.outcome(steps[k]), c);
    RenderStepsStopped(work, steps, k + 1, |steps|, c);
  }

  /** A loop stopped at step `k`, read off generically. */
  lemma FailedCall(job: JobDef, k: nat, c: Renderer, pr: Progress, g: Generation)
    requires k < |job.steps| && |pr.steps| == |job.steps| && pr.failure.Some?
    requires g == Generation(pr.files, job.(steps := pr.steps), Err(pr.failure.value))
    requires StoppedAt(pr, job.steps, k, c)
    ensures var f := job.steps[k].filename;
      g.result == Err(ErrorOf(c.outcome(job.steps[k]), f)) &&
      |g.job.steps| == |job.steps| &&
      (forall i :: 0 <= i <= k ==> g.job.steps[i] == c.inject(job.steps[i])) &&
      (forall i :: k < i < |job.steps| ==> g.job.steps[i] == job.steps[i]) &&
      (!c.outcome(job.steps[k]).NotFound? ==> f in g.files && g.files[f] == c.header(k))
  {
  }

  /**
   * After a clean call: the job keeps its id, name, e-mail, step count and
   * order, each step's map holds the credentials, the `.sh` file holds the
   * driver script over every step's file name, skipped steps included, and
   * each work file holds what the last step naming it rendered (empty for a
   * skipped step).
   */
  lemma GenerateOutputs(work: Folder, username: string, password: string, lib: Folder, workPath: string,
                        job: JobDef, dtStamp: string, stampAt: nat -> string, cmdStamp: string)
    requires forall i :: 0 <= i < |job.steps| ==> StepOk(lib, job.steps[i], username, password)
    ensures var g := Generate(work, username, password, lib, workPath, job, dtStamp, stampAt, cmdStamp);
      var cmd := CmdFileName(job.job_name, dtStamp);
      g.job.job_id == job.job_id && g.job.job_name == job.job_name && g.job.job_email == job.job_email &&
      |g.job.steps| == |job.steps| &&
      (forall i :: 0 <= i < |job.steps| ==> g.job.steps[i] == InjectStep(job.steps[i], username, password)) &&
      cmd in g.files &&
      g.files[cmd] == DriverScript(Filenames(job.steps), LogFileName(job.job_name, dtStamp), cmdStamp) &&
      (forall i {:trigger LastWriter(job.steps, |job.steps|, i)} ::
         0 <= i < |job.steps| && LastWriter(job.steps, |job.steps|, i) && job.steps[i].filename != cmd ==>
           job.steps[i].filename in g.files &&
           g.files[job.steps[i].filename] == WorkFileText(lib, job.steps[i], username, password, stampAt(i)))
  {
    var c := CallRenderer(lib, username, password, stampAt);
    var n := |job.steps|;
    forall i | 0 <= i < n
      ensures Clean(c.outcome(job.steps[i]))
      ensures CleanText(c.outcome(job.steps[i]), c.header(i)) == WorkFileText(lib, job.steps[i], username, password, stampAt(i))
    {
      OutcomeMeaning(lib, job.steps[i], username, password, stampAt(i));
    }
    RenderStepsSucceed(work, job.steps, n, c);
    RenderStepsInjected(work, job.steps, n, c);
    RenderStepsWorkFiles(work, job.steps, n, c);
    CleanCall(work, lib, job, dtStamp, c, RenderSteps(work, job.steps, n, c),
              Generate(work, username, password, lib, workPath, job, dtStamp, stampAt, cmdStamp),
              DriverScript(Filenames(job.steps), LogFileName(job.job_name, dtStamp), cmdStamp));
  }

  /** A clean loop followed by the driver script, read off generically. */
  lemma CleanCall(work: Folder, lib: Folder, job: JobDef, dtStamp: string, c: Renderer, pr: Progress,
                  g: Generation, script: string)
    requires pr.failure.None? && |pr.steps| == |job.steps|
    requires g == Generation(pr.files[CmdFileName(job.job_name, dtStamp) := script], job.(steps := pr.steps),
                             g.result)
    requires forall i :: 0 <= i < |job.steps| ==> pr.steps[i] == c.inject(job.steps[i])
    requires forall i {:trigger LastWriter(job.steps, |job.steps|, i)} ::
      0 <= i < |job.steps| && LastWriter(job.steps, |job.steps|, i) ==>
        Clean(c.outcome(job.steps[i])) && job.steps[i].filename in pr.files &&
        pr.files[job.steps[i].filename] == CleanText(c.outcome(job.steps[i]), c.header(i))
    ensures var cmd := CmdFileName(job.job_name, dtStamp);
      g.job.job_id == job.job_id && g.job.job_name == job.job_name && g.job.job_email == job.job_email &&
      |g.job.steps| == |job.steps| &&
      (forall i :: 0 <= i < |job.steps| ==> g.job.steps[i] == c.inject(job.steps[i])) &&
      cmd in g.files && g.files[cmd] == script &&
      (forall i {:trigger LastWriter(job.steps, |job.steps|, i)} ::
         0 <= i < |job.steps| && LastWriter(job.steps, |job.steps|, i) && job.steps[i].filename != cmd ==>
           job.steps[i].filename in g.files &&
           g.files[job.steps[i].filename] == CleanText(c.outcome(job.steps[i]), c.header(i)))
  {
  }

  /**
   * A call changes no file of the work folder other than its steps' work files
   * and, after a clean run, its driver script; after an exception no driver
   * script is written.
   */
  lemma GenerateUntouched(work: Folder, username: string, password: string, lib: Folder, workPath: string,
                          job: JobDef, dtStamp: string, stampAt: nat -> string, cmdStamp: string, f: string)
    requires forall i :: 0 <= i < |job.steps| ==> job.steps[i].filename != f
    ensures var g := Generate(work, username, password, lib, workPath, job, dtStamp, stampAt, cmdStamp);
      (g.result.Err? || f != CmdFileName(job.job_name, dtStamp)) ==>
        (f in g.files <==> f in work) && (f in work ==> g.files[f] == work[f])
  {
    RenderStepsUntouched(work, job.steps, |job.steps|, CallRenderer(lib, username, password, stampAt), f);
  }

  /** The work folder the scripts are written into. */
  class WorkFolder {
    var files: Folder

    constructor (initial: Folder)
      ensures files == initial
    {
      files := initial;
    }

    /**
     * The loop body for step `s`, the `i`-th step: update its map in `steps`,
     * then write its work file, or report the exception raised.
     */
    method RenderStepFile(s: StepDef, i: nat, steps: seq<StepDef>, username: string, password: string,
                          lib: Folder, stampAt: nat -> string)
      returns (steps': seq<StepDef>, failure: Option<RenderError>)
      requires i < |steps|
      modifies this
      ensures Progress(files, steps', failure)
           == Advance(Progress(old(files), steps, None), s, i, Outcome(lib, s, username, password),
                      CallRenderer(lib, username, password, stampAt))
    {
      ghost var c := CallRenderer(lib, username, password, stampAt);
      var params := InjectCredentials(s.params, username, password);
      steps' := steps[i := s.(params := params)];
      assert steps' == steps[i := c.inject(s)];
      if s.filename !in lib {
        failure := Some(TemplateNotFound(s.filename));
        return;
      }
      var text := lib[s.filename];
      files := files[s.filename := ""];
      var keys := Placeholders(text);
      if "username" !in keys || "password" !in keys {
        failure := None;
        return;
      }
      var header := StepHeader(stampAt(i));
      assert header == c.header(i);
      files := files[s.filename := header];
      var body := Format(text, params);
      if body.Err? {
        failure := Some(SubstitutionFailed(s.filename, body.error));
        return;
      }
      files := files[s.filename := header + body.value];
      failure := None;
    }

    /**
     * Render every step of `job` and write its driver script; return the
     * script's path and the job with its steps' maps updated.
     */
    method GenerateScripts(username: string, password: string, lib: Folder, workPath: string, job: JobDef,
                           dtStamp: string, stampAt: nat -> string, cmdStamp: string)
      returns (result: Result<string, RenderError>, updated: JobDef)
      modifies this
      ensures Generation(files, updated, result)
           == Generate(old(files), username, password, lib, workPath, job, dtStamp, stampAt, cmdStamp)
    {
      var steps := job.steps;
      var i := 0;
      while i < |job.steps|
        invariant 0 <= i <= |job.steps|
        invariant Progress(files, steps, None)
               == RenderSteps(old(files), job.steps, i, CallRenderer(lib, username, password, stampAt))
      {
        var failure;
        steps, failure := RenderStepFile(job.steps[i], i, steps, username, password, lib, stampAt);
        if failure.Some? {
          RenderStepsStopped(old(files), job.steps, i + 1, |job.steps|, CallRenderer(lib, username, password, stampAt));
          result, updated := Err(failure.value), job.(steps := steps);
          return;
        }
        i := i + 1;
      }
      var cmdFile := CmdFileName(job.job_name, dtStamp);
      var logFile := LogFileName(job.job_name, dtStamp);
      var script := BuildDriverScript(Filenames(job.steps), logFile, cmdStamp);
      files := files[cmdFile := script];
      result, updated := Ok(JoinPath(workPath, cmdFile)), job.(steps := steps);
    }
  }
}
