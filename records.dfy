/**
 * The flat records the job catalogue is made of, the nested job definitions
 * built from them, and the hard-coded catalogue that stands in for a database.
 */
module Records {

  /** A folder on disk: file name (relative to the folder) to file contents. */
  type Folder = map<string, string>

  datatype Job = Job(job_id: int, job_name: string, job_email: string)

  datatype Step = Step(job_id: int, step_id: int, filename: string, seq_num: int)

  datatype Param = Param(step_id: int, param_name: string, param_value: string)

  /** The dictionary built for one step: its `params` map is name -> value. */
  datatype StepDef = StepDef(step_id: int, seq_num: int, filename: string, params: map<string, string>)

  /** The dictionary built for one job, with its steps in catalogue order. */
  datatype JobDef = JobDef(job_id: int, job_name: string, job_email: string, steps: seq<StepDef>)

  /** The list `[x['filename'] for x in steps]`. */
  function Filenames(steps: seq<StepDef>): (r: seq<string>)
    ensures |r| == |steps|
    ensures forall i :: 0 <= i < |steps| ==> r[i] == steps[i].filename
  {
    if steps == [] then [] else [steps[0].filename] + Filenames(steps[1..])
  }

  // The catalogue the program ships with in place of a database.

  /** Three jobs, numbered 1 to 3 in order. */
  function AllJobs(): (r: seq<Job>)
    ensures |r| == 3
    ensures forall i :: 0 <= i < |r| ==> r[i].job_id == i + 1
  {
    [Job(1, "Job 1", "job1@gmail.com"),
     Job(2, "Job 2", "job2@gmail.com"),
     Job(3, "Job 3", "job3@gmail.com")]   // job 3 has no steps
  }

  /** Four steps, numbered 1 to 4 in order, each belonging to job 1 or job 2. */
  function AllSteps(): (r: seq<Step>)
    ensures |r| == 4
    ensures forall i :: 0 <= i < |r| ==> r[i].step_id == i + 1 && 1 <= r[i].job_id <= 2
  {
    [Step(1, 1, "j1_s1.bteq", 10),
     Step(1, 2, "j1_s2.bteq", 20),
     Step(2, 3, "j2_s1.bteq", 10),
     Step(2, 4, "j2_s2.bteq", 20)]
  }

  /** Eight parameter records, each naming one of the four steps. */
  function AllParams(): (r: seq<Param>)
    ensures |r| == 8
    ensures forall i :: 0 <= i < |r| ==> 1 <= r[i].step_id <= 4
  {
    [Param(1, "param1", "v_param1"),
     Param(1, "param2", "v_param2"),
     Param(2, "paramy", "v_param1"),
     Param(2, "paramx", "v_param1"),
     Param(3, "param1", "v_param1"),
     Param(3, "param1", "v_param1"),
     Param(4, "param1", "v_param1"),
     Param(4, "param1", "v_param1")]
  }
}
