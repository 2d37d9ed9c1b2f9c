/**
 * `build_job_def_list`: join the job, step and parameter records into nested
 * job definitions and keep the jobs that have steps whose template files all
 * exist in the library folder.
 */
module Assembly {
  import opened Wrappers
  import opened Records
  import opened FileCheck

  // ---------------------------------------------------------------------------
  // Specification: the join as functions of the record lists.

  /**
   * The `params` map of step `stepId`: the records are applied in list order, so
   * a name given twice ends up with the later value.
   */
  function ParamMap(stepId: int, params: seq<Param>): map<string, string>
    decreases |params|
  {
    if params == [] then map[]
    else
      var m := ParamMap(stepId, params[..|params| - 1]);
      var p := params[|params| - 1];
      if p.step_id == stepId then m[p.param_name := p.param_value] else m
  }

  function StepDefOf(s: Step, params: seq<Param>): StepDef
  {
    StepDef(s.step_id, s.seq_num, s.filename, ParamMap(s.step_id, params))
  }

  /** The step definitions of job `jobId`, in the order of `steps`. */
  function StepDefsOf(jobId: int, steps: seq<Step>, params: seq<Param>): seq<StepDef>
    decreases |steps|
  {
    if steps == [] then []
    else
      var prev := StepDefsOf(jobId, steps[..|steps| - 1], params);
      var s := steps[|steps| - 1];
      if s.job_id == jobId then prev + [StepDefOf(s, params)] else prev
  }

  /** The definition assembled for one job, before it is checked. */
  function Candidate(j: Job, steps: seq<Step>, params: seq<Param>): JobDef
  {
    JobDef(j.job_id, j.job_name, j.job_email, StepDefsOf(j.job_id, steps, params))
  }

  /** A candidate is kept when it has a step and every step's template exists. */
  predicate Accepted(lib: Folder, d: JobDef)
  {
    |d.steps| > 0 && AllPresent(lib, Filenames(d.steps))
  }

  /** The list `build_job_def_list` returns. */
  function JobDefList(lib: Folder, jobs: seq<Job>, steps: seq<Step>, params: seq<Param>): seq<JobDef>
    decreases |jobs|
  {
    if jobs == [] then []
    else
      var prev := JobDefList(lib, jobs[..|jobs| - 1], steps, params);
      var d := Candidate(jobs[|jobs| - 1], steps, params);
      if Accepted(lib, d) then prev + [d] else prev
  }

  // ---------------------------------------------------------------------------
  // The nested loops of the source.

  method BuildJobDefList(lib: Folder, jobs: seq<Job>, steps: seq<Step>, params: seq<Param>)
    returns (jobDefs: seq<JobDef>)
    ensures jobDefs == JobDefList(lib, jobs, steps, params)
  {
    jobDefs := [];
    var i := 0;
    while i < |jobs|
      invariant 0 <= i <= |jobs|
      invariant jobDefs == JobDefList(lib, jobs[..i], steps, params)
    {
      var job := jobs[i];
      var stepDefs := CollectStepDefs(job.job_id, steps, params);
      var jobDef := JobDef(job.job_id, job.job_name, job.job_email, stepDefs);
      if |stepDefs| == 0 {
        // no steps: the job is ignored
      } else {
        var present, _ := CheckJobFiles(lib, Many(Filenames(stepDefs)));
        if present == Ok(true) {
          jobDefs := jobDefs + [jobDef];
        }
      }
      assert jobs[..i + 1][..i] == jobs[..i];
      i := i + 1;
    }
    assert jobs[..i] == jobs;
  }

  /** The middle loop of `BuildJobDefList`: the steps of one job, in record order. */
  method CollectStepDefs(jobId: int, steps: seq<Step>, params: seq<Param>) returns (stepDefs: seq<StepDef>)
    ensures stepDefs == StepDefsOf(jobId, steps, params)
  {
    stepDefs := [];
    var k := 0;
    while k < |steps|
      invariant 0 <= k <= |steps|
      invariant stepDefs == StepDefsOf(jobId, steps[..k], params)
    {
      var step := steps[k];
      if step.job_id == jobId {
        var m := CollectParams(step.step_id, params);
        stepDefs := stepDefs + [StepDef(step.step_id, step.seq_num, step.filename, m)];
      }
      assert steps[..k + 1][..k] == steps[..k];
      k := k + 1;
    }
    assert steps[..k] == steps;
  }

  /** The inner loop of `BuildJobDefList`: the parameters of one step, later records overwriting earlier ones. */
  method CollectParams(stepId: int, params: seq<Param>) returns (m: map<string, string>)
    ensures m == ParamMap(stepId, params)
  {
    m := map[];
    var q := 0;
    while q < |params|
      invariant 0 <= q <= |params|
      invariant m == ParamMap(stepId, params[..q])
    {
      var param := params[q];
      if param.step_id == stepId {
        m := m[param.param_name := param.param_value];
      }
      assert params[..q + 1][..q] == params[..q];
      q := q + 1;
    }
    assert params[..q] == params;
  }

  // ---------------------------------------------------------------------------
  // Parameter maps.

  /** The map holds exactly the names of the records for that step. */
  lemma {:induction false} ParamMapKeys(stepId: int, params: seq<Param>)
    ensures ParamMap(stepId, params).Keys
         == set i | 0 <= i < |params| && params[i].step_id == stepId :: params[i].param_name
    decreases |params|
  {
    if params != [] {
      var init := params[..|params| - 1];
      ParamMapKeys(stepId, init);
      var n := |params| - 1;
      assert forall i :: 0 <= i < n ==> init[i] == params[i];
      var small := set i | 0 <= i < n && init[i].step_id == stepId :: init[i].param_name;
      var whole := set i | 0 <= i < |params| && params[i].step_id == stepId :: params[i].param_name;
      if params[n].step_id == stepId {
        assert whole == small + {params[n].param_name};
      } else {
        assert whole == small;
      }
    }
  }

  /** For a name given more than once, the last record for that step wins. */
  lemma {:induction false} ParamMapLastWriteWins(stepId: int, params: seq<Param>, i: nat)
    requires i < |params| && params[i].step_id == stepId
    requires forall j :: i < j < |params| ==>
               params[j].step_id != stepId || params[j].param_name != params[i].param_name
    ensures params[i].param_name in ParamMap(stepId, params)
    ensures ParamMap(stepId, params)[params[i].param_name] == params[i].param_value
    decreases |params|
  {
    if i < |params| - 1 {
      var init := params[..|params| - 1];
      ParamMapLastWriteWins(stepId, init, i);
    }
  }

  // ---------------------------------------------------------------------------
  // Step definitions.

  /** Splitting the step list splits the job's steps the same way: input order is kept. */
  lemma {:induction false} StepDefsOfAppend(jobId: int, a: seq<Step>, b: seq<Step>, params: seq<Param>)
    ensures StepDefsOf(jobId, a + b, params) == StepDefsOf(jobId, a, params) + StepDefsOf(jobId, b, params)
    decreases |b|
  {
    if b == [] {
      assert a + b == a;
    } else {
      var b0 := b[..|b| - 1];
      assert (a + b)[..|a + b| - 1] == a + b0;
      StepDefsOfAppend(jobId, a, b0, params);
    }
  }

  /** A step definition of job `jobId` comes from exactly the steps with that `job_id`. */
  lemma {:induction false} StepDefsOfMembers(jobId: int, steps: seq<Step>, params: seq<Param>)
    ensures forall sd :: sd in StepDefsOf(jobId, steps, params) <==>
              exists s :: s in steps && s.job_id == jobId && sd == StepDefOf(s, params)
    decreases |steps|
  {
    if steps != [] {
      var init := steps[..|steps| - 1];
      StepDefsOfMembers(jobId, init, params);
      assert steps == init + [steps[|steps| - 1]];
    }
  }

  /** The filenames of a job's steps are those of the matching step records. */
  lemma {:induction false} StepDefsOfFiles(jobId: int, steps: seq<Step>, params: seq<Param>)
    ensures forall sd :: sd in StepDefsOf(jobId, steps, params) ==>
              exists s :: s in steps && s.job_id == jobId && sd.filename == s.filename
    ensures forall s :: s in steps && s.job_id == jobId ==>
              exists k :: 0 <= k < |StepDefsOf(jobId, steps, params)| && StepDefsOf(jobId, steps, params)[k].filename == s.filename
  {
    StepDefsOfMembers(jobId, steps, params);
    var defs := StepDefsOf(jobId, steps, params);
    forall s | s in steps && s.job_id == jobId
      ensures exists k :: 0 <= k < |defs| && defs[k].filename == s.filename
    {
      assert StepDefOf(s, params) in defs;
      var k :| 0 <= k < |defs| && defs[k] == StepDefOf(s, params);
    }
  }

  /** The positions in `steps` of the records with `job_id == jobId`, increasing. */
  function MatchingIndices(jobId: int, steps: seq<Step>): (r: seq<nat>)
    ensures forall k :: 0 <= k < |r| ==> r[k] < |steps| && steps[r[k]].job_id == jobId
    ensures forall k, l :: 0 <= k < l < |r| ==> r[k] < r[l]
    ensures forall i :: 0 <= i < |steps| && steps[i].job_id == jobId ==> i in r
    decreases |steps|
  {
    if steps == [] then []
    else
      var prev := MatchingIndices(jobId, steps[..|steps| - 1]);
      if steps[|steps| - 1].job_id == jobId then prev + [|steps| - 1] else prev
  }

  /**
   * A job's steps are the matching step records, one each, in input order:
   * the `k`-th is built from the `k`-th matching record; `seq_num` plays no part.
   */
  lemma {:induction false} StepDefsOfInOrder(jobId: int, steps: seq<Step>, params: seq<Param>)
    ensures var defs, idx := StepDefsOf(jobId, steps, params), MatchingIndices(jobId, steps);
      |defs| == |idx| && forall k :: 0 <= k < |idx| ==> defs[k] == StepDefOf(steps[idx[k]], params)
    decreases |steps|
  {
    if steps != [] {
      var init := steps[..|steps| - 1];
      StepDefsOfInOrder(jobId, init, params);
    }
  }

  // ---------------------------------------------------------------------------
  // The job list.

  /** When a job's candidate is kept: it has a step, and every one of its steps' files exists. */
  lemma AcceptedIff(lib: Folder, j: Job, steps: seq<Step>, params: seq<Param>)
    ensures Accepted(lib, Candidate(j, steps, params)) <==>
              (exists s :: s in steps && s.job_id == j.job_id) &&
              (forall s :: s in steps && s.job_id == j.job_id ==> s.filename in lib)
  {
    var defs := StepDefsOf(j.job_id, steps, params);
    StepDefsOfMembers(j.job_id, steps, params);
    StepDefsOfFiles(j.job_id, steps, params);
    var names := Filenames(defs);
    if exists s :: s in steps && s.job_id == j.job_id {
      var s :| s in steps && s.job_id == j.job_id;
      assert StepDefOf(s, params) in defs;
    }
    if AllPresent(lib, names) {
      forall s | s in steps && s.job_id == j.job_id ensures s.filename in lib {
        var k :| 0 <= k < |defs| && defs[k].filename == s.filename;
        assert names[k] == s.filename;
      }
    }
    if forall s :: s in steps && s.job_id == j.job_id ==> s.filename in lib {
      forall k | 0 <= k < |names| ensures names[k] in lib {
        assert defs[k] in defs;
      }
    }
  }

  /** The output holds exactly the accepted candidates of the input jobs. */
  lemma {:induction false} JobDefListMembers(lib: Folder, jobs: seq<Job>, steps: seq<Step>, params: seq<Param>)
    ensures forall d :: d in JobDefList(lib, jobs, steps, params) <==>
              exists j :: j in jobs && d == Candidate(j, steps, params) && Accepted(lib, d)
    decreases |jobs|
  {
    if jobs != [] {
      var init := jobs[..|jobs| - 1];
      JobDefListMembers(lib, init, steps, params);
      assert jobs == init + [jobs[|jobs| - 1]];
    }
  }

  /**
   * Inclusion rule: a job is in the output iff some step has its `job_id` and
   * every such step's template file is in the library.
   */
  lemma JobDefListInclusion(lib: Folder, jobs: seq<Job>, steps: seq<Step>, params: seq<Param>, j: Job)
    requires j in jobs
    ensures Candidate(j, steps, params) in JobDefList(lib, jobs, steps, params) <==>
              (exists s :: s in steps && s.job_id == j.job_id) &&
              (forall s :: s in steps && s.job_id == j.job_id ==> s.filename in lib)
  {
    JobDefListMembers(lib, jobs, steps, params);
    AcceptedIff(lib, j, steps, params);
  }

  /** Splitting the job list splits the output the same way: input job order is kept. */
  lemma {:induction false} JobDefListAppend(lib: Folder, a: seq<Job>, b: seq<Job>, steps: seq<Step>, params: seq<Param>)
    ensures JobDefList(lib, a + b, steps, params) == JobDefList(lib, a, steps, params) + JobDefList(lib, b, steps, params)
    decreases |b|
  {
    if b == [] {
      assert a + b == a;
    } else {
      var b0 := b[..|b| - 1];
      assert (a + b)[..|a + b| - 1] == a + b0;
      JobDefListAppend(lib, a, b0, steps, params);
    }
  }

  /** The positions in `jobs` of the jobs whose candidates are kept, increasing. */
  function AcceptedIndices(lib: Folder, jobs: seq<Job>, steps: seq<Step>, params: seq<Param>): (r: seq<nat>)
    ensures forall k :: 0 <= k < |r| ==> r[k] < |jobs| && Accepted(lib, Candidate(jobs[r[k]], steps, params))
    ensures forall k, l :: 0 <= k < l < |r| ==> r[k] < r[l]
    ensures forall i :: 0 <= i < |jobs| && Accepted(lib, Candidate(jobs[i], steps, params)) ==> i in r
    decreases |jobs|
  {
    if jobs == [] then []
    else
      var prev := AcceptedIndices(lib, jobs[..|jobs| - 1], steps, params);
      if Accepted(lib, Candidate(jobs[|jobs| - 1], steps, params)) then prev + [|jobs| - 1] else prev
  }

  /** The output lists the kept candidates one each, in input job order. */
  lemma {:induction false} JobDefListInOrder(lib: Folder, jobs: seq<Job>, steps: seq<Step>, params: seq<Param>)
    ensures var defs, idx := JobDefList(lib, jobs, steps, params), AcceptedIndices(lib, jobs, steps, params);
      |defs| == |idx| && forall k :: 0 <= k < |idx| ==> defs[k] == Candidate(jobs[idx[k]], steps, params)
    decreases |jobs|
  {
    if jobs != [] {
      JobDefListInOrder(lib, jobs[..|jobs| - 1], steps, params);
    }
  }

  /**
   * A step whose `job_id` matches no job contributes to no output job: every
   * output job has another `job_id`, and its steps come from its own step records.
   */
  lemma OrphanStepDropped(lib: Folder, jobs: seq<Job>, steps: seq<Step>, params: seq<Param>, orphan: Step)
    requires forall j :: j in jobs ==> j.job_id != orphan.job_id
    ensures forall d :: d in JobDefList(lib, jobs, steps, params) ==>
              d.job_id != orphan.job_id &&
              forall sd :: sd in d.steps ==>
                exists s :: s in steps && s.job_id == d.job_id && sd == StepDefOf(s, params)
  {
    JobDefListMembers(lib, jobs, steps, params);
    forall d | d in JobDefList(lib, jobs, steps, params)
      ensures d.job_id != orphan.job_id
      ensures forall sd :: sd in d.steps ==>
                exists s :: s in steps && s.job_id == d.job_id && sd == StepDefOf(s, params)
    {
      var j :| j in jobs && d == Candidate(j, steps, params) && Accepted(lib, d);
      StepDefsOfMembers(j.job_id, steps, params);
    }
  }
}
