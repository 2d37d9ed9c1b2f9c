/** The shipped catalogue worked through the join, in lemmas about its concrete records. */
module Catalogue {
  import opened Records
  import opened Assembly

  /** A library folder holding the four templates the catalogue names. */
  function FullLibrary(): Folder
  {
    map["j1_s1.bteq" := "", "j1_s2.bteq" := "", "j2_s1.bteq" := "", "j2_s2.bteq" := ""]
  }

  // One record more at the end of a list: how each join function grows.

  lemma ParamMapStep(stepId: int, ps: seq<Param>, k: nat)
    requires k < |ps|
    ensures ParamMap(stepId, ps[..k + 1]) ==
      if ps[k].step_id == stepId then ParamMap(stepId, ps[..k])[ps[k].param_name := ps[k].param_value]
      else ParamMap(stepId, ps[..k])
  {
    assert ps[..k + 1][..k] == ps[..k];
  }

  lemma StepDefsOfStep(jobId: int, steps: seq<Step>, params: seq<Param>, k: nat)
    requires k < |steps|
    ensures StepDefsOf(jobId, steps[..k + 1], params) ==
      if steps[k].job_id == jobId then StepDefsOf(jobId, steps[..k], params) + [StepDefOf(steps[k], params)]
      else StepDefsOf(jobId, steps[..k], params)
  {
    assert steps[..k + 1][..k] == steps[..k];
  }

  lemma JobDefListStep(lib: Folder, jobs: seq<Job>, steps: seq<Step>, params: seq<Param>, k: nat)
    requires k < |jobs|
    ensures JobDefList(lib, jobs[..k + 1], steps, params) ==
      if Accepted(lib, Candidate(jobs[k], steps, params))
      then JobDefList(lib, jobs[..k], steps, params) + [Candidate(jobs[k], steps, params)]
      else JobDefList(lib, jobs[..k], steps, params)
  {
    assert jobs[..k + 1][..k] == jobs[..k];
  }

  /** Each step's parameter map; steps 3 and 4 list `param1` twice and keep one entry. */
  lemma CatalogueParamMap(stepId: int)
    requires 1 <= stepId <= 4
    ensures ParamMap(stepId, AllParams()) ==
      match stepId
      case 1 => map["param1" := "v_param1", "param2" := "v_param2"]
      case 2 => map["paramy" := "v_param1", "paramx" := "v_param1"]
      case _ => map["param1" := "v_param1"]
  {
    var ps := AllParams();
    assert ps[..8] == ps;
    ParamMapFirstHalf(stepId);
    ParamMapStep(stepId, ps, 4); ParamMapStep(stepId, ps, 5); ParamMapStep(stepId, ps, 6); ParamMapStep(stepId, ps, 7);
  }

  /** The parameter maps after the first four records, which belong to steps 1 and 2. */
  lemma ParamMapFirstHalf(stepId: int)
    ensures ParamMap(stepId, AllParams()[..4]) ==
      if stepId == 1 then map["param1" := "v_param1", "param2" := "v_param2"]
      else if stepId == 2 then map["paramy" := "v_param1", "paramx" := "v_param1"]
      else map[]
  {
    var ps := AllParams();
    assert ps[..0] == [];
    ParamMapStep(stepId, ps, 0); ParamMapStep(stepId, ps, 1); ParamMapStep(stepId, ps, 2); ParamMapStep(stepId, ps, 3);
  }

  /** The step definitions the catalogue gives each job. */
  lemma CatalogueSteps()
    ensures StepDefsOf(1, AllSteps(), AllParams()) ==
      [StepDef(1, 10, "j1_s1.bteq", map["param1" := "v_param1", "param2" := "v_param2"]),
       StepDef(2, 20, "j1_s2.bteq", map["paramy" := "v_param1", "paramx" := "v_param1"])]
    ensures StepDefsOf(2, AllSteps(), AllParams()) ==
      [StepDef(3, 10, "j2_s1.bteq", map["param1" := "v_param1"]),
       StepDef(4, 20, "j2_s2.bteq", map["param1" := "v_param1"])]
    ensures StepDefsOf(3, AllSteps(), AllParams()) == []
  {
    var ps := AllParams();
    CatalogueParamMap(1); CatalogueParamMap(2); CatalogueParamMap(3); CatalogueParamMap(4);
    var ss := AllSteps();
    assert ss[..0] == [] && ss[..4] == ss;
    StepDefsOfStep(1, ss, ps, 0); StepDefsOfStep(1, ss, ps, 1); StepDefsOfStep(1, ss, ps, 2); StepDefsOfStep(1, ss, ps, 3);
    StepDefsOfStep(2, ss, ps, 0); StepDefsOfStep(2, ss, ps, 1); StepDefsOfStep(2, ss, ps, 2); StepDefsOfStep(2, ss, ps, 3);
    StepDefsOfStep(3, ss, ps, 0); StepDefsOfStep(3, ss, ps, 1); StepDefsOfStep(3, ss, ps, 2); StepDefsOfStep(3, ss, ps, 3);
  }

  /**
   * Jobs 1 and 2 are kept with their two steps each; job 3 has no steps and is
   * dropped. Steps 3 and 4 list `param1` twice and keep one entry.
   */
  lemma CatalogueJobDefs()
    ensures JobDefList(FullLibrary(), AllJobs(), AllSteps(), AllParams()) ==
      [JobDef(1, "Job 1", "job1@gmail.com",
         [StepDef(1, 10, "j1_s1.bteq", map["param1" := "v_param1", "param2" := "v_param2"]),
          StepDef(2, 20, "j1_s2.bteq", map["paramy" := "v_param1", "paramx" := "v_param1"])]),
       JobDef(2, "Job 2", "job2@gmail.com",
         [StepDef(3, 10, "j2_s1.bteq", map["param1" := "v_param1"]),
          StepDef(4, 20, "j2_s2.bteq", map["param1" := "v_param1"])])]
  {
    CatalogueSteps();
    var js := AllJobs();
    forall k: nat | k < |js| { JobDefListStep(FullLibrary(), js, AllSteps(), AllParams(), k); }
    assert js[..3] == js;
  }

  /** With one template of job 2 missing, only job 1 is kept. */
  lemma CatalogueMissingTemplate()
    ensures JobDefList(FullLibrary() - {"j2_s2.bteq"}, AllJobs(), AllSteps(), AllParams()) ==
      [Candidate(AllJobs()[0], AllSteps(), AllParams())]
  {
    CatalogueSteps();
    var js := AllJobs();
    var lib := FullLibrary() - {"j2_s2.bteq"};
    forall k: nat | k < |js| { JobDefListStep(lib, js, AllSteps(), AllParams(), k); }
    assert js[..3] == js;
    assert Filenames(StepDefsOf(2, AllSteps(), AllParams()))[1] !in lib;
  }

  /** Steps keep their catalogue order even when their `seq_num`s run backwards. */
  lemma StepsNotSortedBySeqNum()
    ensures StepDefsOf(7, [Step(7, 1, "late.bteq", 20), Step(8, 2, "other.bteq", 5), Step(7, 3, "early.bteq", 10)], [])
         == [StepDef(1, 20, "late.bteq", map[]), StepDef(3, 10, "early.bteq", map[])]
  {
    var ss := [Step(7, 1, "late.bteq", 20), Step(8, 2, "other.bteq", 5), Step(7, 3, "early.bteq", 10)];
    forall k: nat | k < |ss| { StepDefsOfStep(7, ss, [], k); }
    assert ss[..3] == ss;
    assert ss[..0] == [];
  }
}
