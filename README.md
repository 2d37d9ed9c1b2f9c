# WBTEQ job assembly and script generation, modelled in Dafny

WBTEQ runs Teradata BTEQ jobs from a library of template files. This project
models the core of `wbteq/wbteq.py`:

- **Records and fixtures** (`records.dfy`). The `Job`, `Step` and `Param`
  records, the assembled step and job definitions, and the three hard-coded
  record lists that stand in for a database.
- **File check** (`file_check.dfy`). `_check_job_files` is a loop that stops
  at the first missing template. It works on one name or a list of names, and
  raises `TypeError` for anything else.
- **Job assembly** (`assembly.dfy`, with the fixtures worked through the join in lemmas in `catalogue.dfy`).
  `build_job_def_list` joins the three record lists:
  - steps are matched to a job by `job_id`;
  - parameters are gathered into a per-step map by `step_id`, and the last
    record with a given name wins;
  - a job is dropped when it has no step, or when one of its templates is
    missing.

  The nested loops are three methods, one per loop (`BuildJobDefList`, `CollectStepDefs`, `CollectParams`). Each is proved equal to a specification made of
  functions over the record lists, and the inclusion rule, membership and
  order are proved about those functions.
- **Placeholder scan** (`placeholders.dfy`). This is `re.findall` with the
  pattern `\{([a-z]+?)\}`.
- **Substitution** (`format.dfy`). This is `text.format(**params)` on the
  part of Python's format grammar a template uses:
  - `{{` and `}}` are escapes;
  - `{name}` looks up a key;
  - a missing key, a positional field or an unbalanced brace is an error.
- **Scan vs. substitution** (`template.dfy`). The two grammars disagree, and
  lemmas show how.
- **Driver script** (`driver.dfy`). This covers the `.sh` and `.log` names, the
  driver script's text and its lines, and `os.path.join`.
- **Rendering** (`render.dfy`). `generate_scripts` itself:
  - inject the credentials into each step's map;
  - copy each template into the work folder with its placeholders substituted;
  - skip templates that lack a credential placeholder;
  - stop at the first exception;
  - otherwise write the driver script and return its path.

  The work folder is a class whose `files` map the methods update. The
  methods are proved against the functions `RenderSteps`/`Advance` and
  `Generate`, and the lemmas about those state what a call leaves behind.
  The loop is stated once over a `Renderer`: each step's outcome, the step
  with the credentials in its map, and each step's header line.
  `CallRenderer` builds the renderer of one call from the library, the
  credentials and the clock, and `OutcomeMeaning` reads each outcome off the
  template.

The file systems are maps from file name to contents. The library folder is
read-only and a file exists iff its name is a key. The work folder is written.
Clocks are parameters:
- `dtStamp` is the string `strftime` produces;
- `stampAt(i)` is the time in step `i`'s header line;
- `cmdStamp` is the time in the driver script's header line.

Where the code's behaviour differs from what a reader might expect, the model
follows the code:
- Steps are **not** sorted by `seq_num`. A job's steps keep the order of the
  step records (`StepDefsOfInOrder`, `StepsNotSortedBySeqNum`).
- A skipped step still gets an **empty** work file, because the output file is
  opened for writing before the placeholder check. It also still has its `cat`
  line in the driver script (`WorkFileText`, `GenerateOutputs`).
- An exception from opening a template or from substitution ends the call:
  - the remaining steps are not rendered, and their maps are not updated;
  - no driver script is written;
  - a template that failed substitution leaves a work file holding only the
    header line (`RenderStepsFailure`, `GenerateFailure`, `GenerateUntouched`).
- The scan and the formatter read braces differently:
  - `{{username}}{{password}}` passes the skip check, but it renders as the
    literal text `{username}{password}` without the credentials;
  - a field such as `{param1}` is not found by the scan, yet it is substituted
    (`EscapedNamesStayLiteral`, `UnscannedFieldSubstituted`).

## Model

| member | source | states |
|---|---|---|
| Records.Filenames | wbteq/wbteq.py:134 | the list of a job's step file names, one per step, in step order |
| FileCheck.CheckJobFiles | wbteq/wbteq.py:87-101 | a single name gives whether that file exists, probing only it; a list gives true iff every name exists (so the empty list gives true); probes go in list order, stop at the first missing file and reach the end only when all exist; any other argument is the `TypeError` |
| Records.AllJobs | wbteq/wbteq.py:58-63 | the three fixture jobs, numbered 1 to 3 in order |
| Records.AllSteps | wbteq/wbteq.py:65-71 | the four fixture steps, numbered 1 to 4 in order, each belonging to job 1 or job 2 |
| Records.AllParams | wbteq/wbteq.py:73-83 | the eight fixture parameter records, each naming one of the four steps |
| Assembly.BuildJobDefList | wbteq/wbteq.py:103-139 | the nested loops return exactly `JobDefList` of the three record lists |
| Assembly.CollectStepDefs | wbteq/wbteq.py:115-129 | the loop over the step records returns exactly `StepDefsOf` the job's `job_id` |
| Assembly.CollectParams | wbteq/wbteq.py:121-125 | the loop over the parameter records returns exactly `ParamMap` of the step's `step_id` |
| Assembly.ParamMapKeys | wbteq/wbteq.py:121-124 | a step's map has exactly the names of the `Param` records with its `step_id` |
| Assembly.ParamMapLastWriteWins | wbteq/wbteq.py:121-124 | for a name given more than once for a step, the map holds the value of the last such record |
| Assembly.StepDefsOfAppend | wbteq/wbteq.py:115-129 | splitting the step records splits the job's steps the same way (input order is kept) |
| Assembly.StepDefsOfMembers | wbteq/wbteq.py:115-127 | a step definition belongs to the job iff it is built from a step record with the job's `job_id` |
| Assembly.StepDefsOfFiles | wbteq/wbteq.py:115-134 | the job's step file names are exactly those of the step records with its `job_id` |
| Assembly.MatchingIndices | wbteq/wbteq.py:115-116 | the positions of the step records with a given `job_id`: strictly increasing, each one matching, and none left out |
| Assembly.StepDefsOfInOrder | wbteq/wbteq.py:115-129 | the `k`-th step of a job is built from the `k`-th matching step record: one each, in input order, with no sorting by `seq_num` |
| Assembly.AcceptedIff | wbteq/wbteq.py:132-138 | a candidate is kept iff some step record has its `job_id` and every such record's file is in the library |
| Assembly.JobDefListMembers | wbteq/wbteq.py:109-138 | the output holds exactly the kept candidates of the input jobs |
| Assembly.JobDefListInclusion | wbteq/wbteq.py:132-138 | an input job appears in the output iff at least one step has its `job_id` and all of those steps' templates exist |
| Assembly.JobDefListAppend | wbteq/wbteq.py:108-139 | splitting the job list splits the output the same way (job order is kept) |
| Assembly.AcceptedIndices | wbteq/wbteq.py:132-138 | the positions of the kept jobs: strictly increasing, each one kept, and none left out |
| Assembly.JobDefListInOrder | wbteq/wbteq.py:108-139 | the `k`-th output job is the candidate of the `k`-th kept input job |
| Assembly.OrphanStepDropped | wbteq/wbteq.py:109-129 | a step whose `job_id` matches no job belongs to no output job, and every output job's steps come from its own step records |
| Catalogue.CatalogueParamMap | wbteq/wbteq.py:73-83 | the fixture parameters give steps 1 and 2 two names each, and steps 3 and 4 the single name `param1` |
| Catalogue.CatalogueSteps | wbteq/wbteq.py:65-71 | with the fixtures, jobs 1 and 2 get their two steps in record order, and job 3 gets none |
| Catalogue.CatalogueJobDefs | wbteq/wbteq.py:58-83 | with all four templates present, the fixtures assemble to jobs 1 and 2, and job 3 (no steps) is dropped |
| Catalogue.CatalogueMissingTemplate | wbteq/wbteq.py:132-135 | with `j2_s2.bteq` missing from the library, job 2 is dropped as well |
| Catalogue.StepsNotSortedBySeqNum | wbteq/wbteq.py:115-127 | a job whose records are given with `seq_num` 20 before 10 keeps the step with 20 first |
| PlaceholderScan.Placeholders | wbteq/wbteq.py:157 | the names `re.findall` returns, left to right; each is a non-empty run of lower-case letters, so anything holding another character is never extracted |
| PlaceholderScan.RunLen | wbteq/wbteq.py:157 | the length of the longest run of lower-case letters at the front of the text |
| PlaceholderScan.NoMatchInsideMatch | wbteq/wbteq.py:157 | no match starts inside the match at the front of the text: matches do not overlap |
| PlaceholderScan.PlaceholdersAreMatches | wbteq/wbteq.py:157 | a name is extracted iff the text somewhere holds `{`, that non-empty run of lower-case letters, `}` |
| PlaceholderScan.PlaceholdersSkip | wbteq/wbteq.py:157 | text without `{` contributes no name |
| PlaceholderScan.PlaceholdersAppend | wbteq/wbteq.py:157 | the scan of a concatenation is the scans of the parts, left to right, when the first part cannot end inside a match |
| StrFormat.Format | wbteq/wbteq.py:162 | the formatted text or the first error met scanning left to right; a missing-key error names a key the map lacks |
| StrFormat.FieldLen | wbteq/wbteq.py:162 | the length of the text before the first brace |
| StrFormat.FormatPlainText | wbteq/wbteq.py:162 | text without braces formats to itself, whatever the map |
| StrFormat.FormatField | wbteq/wbteq.py:162 | a leading `{name}` field is replaced by the map's value, or raises the missing-key error when the name is not in the map |
| StrFormat.FormatEscapes | wbteq/wbteq.py:162 | `{{` and `}}` format to single braces |
| StrFormat.FormatAppend | wbteq/wbteq.py:162 | once a first part formats cleanly, formatting a concatenation is that text followed by the formatting of the rest, including its error |
| StrFormat.MissingKeyFails | wbteq/wbteq.py:162 | a field whose name is not in the map makes the whole substitution fail with that name, and no blank is produced |
| StrFormat.PresentKeySubstituted | wbteq/wbteq.py:162 | a field whose name is in the map is replaced by the value, in place |
| StrFormat.EscapedFieldLiteral | wbteq/wbteq.py:162 | `{{name}}` formats to the literal `{name}`, whatever the map |
| Template.FormatOkCoversPlaceholders | wbteq/wbteq.py:157-162 | in a template without `{{`, a clean substitution means every extracted name had a key in the map |
| Template.MissingPlaceholderFails | wbteq/wbteq.py:157-162 | in a template without `{{`, an extracted name missing from the map makes substitution fail |
| Template.EscapedNamesStayLiteral | wbteq/wbteq.py:157-162 | `{{a}}{{b}}` yields both names to the scan, but formats to the literal `{a}{b}` |
| Template.UnscannedFieldSubstituted | wbteq/wbteq.py:157-162 | a field whose name is not a lower-case run is not extracted, but it is still substituted |
| Driver.ReplaceSpaces | wbteq/wbteq.py:166-167 | the same length as the job name, with each space turned into `_` and every other character kept |
| Driver.CmdFileName | wbteq/wbteq.py:166 | the job name with spaces turned into `_`, then `_`, the stamp and `.sh` |
| Driver.LogFileName | wbteq/wbteq.py:167 | the job name with spaces turned into `_`, then `_`, the stamp and `.log` |
| Driver.DriverFileNames | wbteq/wbteq.py:166-167 | the `.sh` and `.log` names are the same stem (job name with spaces replaced, `_`, the stamp) differing only in the `.sh` and `.log` extensions, with no space in the job-name part |
| Driver.JoinPath | wbteq/wbteq.py:175 | `os.path.join` on POSIX paths: an absolute name replaces the directory; otherwise the result is the directory and the name, with a `/` between them exactly when the directory is not empty and does not already end in one |
| Driver.DriverScript | wbteq/wbteq.py:168-173 | the driver script's text opens with the header line, every line ends in a newline, and a job without steps gets the header line alone |
| Driver.BuildDriverScript | wbteq/wbteq.py:168-173 | the line-by-line writes produce exactly `DriverScript` of the step file names |
| Driver.DriverScriptLines | wbteq/wbteq.py:170-173 | when no name holds a newline, the script's lines are the header comment `# This file is generated by WBTEQ at` and the stamp, then one `cat < file > log` per step in step order |
| Driver.CatLinesLines | wbteq/wbteq.py:171-173 | the `cat` part of the script has one line per step, in step order |
| Render.InjectCredentials | wbteq/wbteq.py:151-153 | the map gains the keys `username` and `password`, holding the given credentials (overwriting any entries), and every other entry is unchanged |
| Render.RenderStep | wbteq/wbteq.py:155-162 | a step's outcome is a missing template exactly when the file is not in the library, a skip exactly when the scan of the template lacks a credential name, and otherwise the formatted body or the formatting error |
| Render.OutcomeMeaning | wbteq/wbteq.py:155-162 | a step raises nothing iff its template exists and, when the scan finds both credential names, formats cleanly; a clean step leaves an empty work file when skipped and otherwise the header line and the substituted text; a step that is not clean raises the missing-template error exactly when the template is absent, and the substitution error otherwise |
| Render.RenderSteps | wbteq/wbteq.py:149-163 | the loop keeps one entry per step and leaves the steps it has not reached unchanged |
| Render.Advance | wbteq/wbteq.py:150-163 | one pass updates exactly its own step's map, replacing it with the injected one, whatever the template does |
| Render.RenderStepsStopped | wbteq/wbteq.py:149-163 | after an exception, later steps change neither the work folder nor any map |
| Render.AdvanceCases | wbteq/wbteq.py:150-162 | one pass raises nothing iff the step is clean; if clean, its work file gets `WorkFileText`; if not, it raises that step's exception, leaving a header-only work file when the template was found and the folder as it was when not |
| Render.RenderStepsStep | wbteq/wbteq.py:149-163 | one more step succeeds iff the loop had succeeded so far and the step is clean, and then it writes that step's work file and map |
| Render.RenderStepsSucceed | wbteq/wbteq.py:149-163 | the loop raises nothing iff every step is clean |
| Render.RenderStepsInjected | wbteq/wbteq.py:151-153 | after a clean loop, every step's map has the credentials injected |
| Render.RenderStepsWorkFiles | wbteq/wbteq.py:155-162 | after a clean loop, each work file holds what the last step naming it rendered: the header line and the substituted text, or nothing for a skipped step |
| Render.RenderStepsUntouched | wbteq/wbteq.py:155 | a work-folder file that no step names is left as it was |
| Render.RenderStepsFailure | wbteq/wbteq.py:149-163 | an exception comes from the first step that is not clean: earlier steps are clean, maps up to and including that step are updated and later ones are not, and a found template leaves a header-only work file |
| Render.Generate | wbteq/wbteq.py:142-175 | a whole call: the job keeps its id, name, e-mail and step count, and a call that returns has written the `.sh` file and returns the work path joined with its name |
| Render.GenerateSucceeds | wbteq/wbteq.py:142-175 | a call returns iff every step's template exists and, unless skipped, formats cleanly, and then it returns the work path joined with the `.sh` name |
| Render.GenerateFailure | wbteq/wbteq.py:149-175 | when step `k` is the first that is not clean, the call raises that step's exception; the maps of steps up to `k` hold the credentials and later maps are unchanged, and a found template leaves a header-only work file |
| Render.GenerateFailureWorkFiles | wbteq/wbteq.py:149-163 | when step `k` is the first that is not clean, each work file written by the steps before it (and not named by step `k`) holds what the last of them naming it rendered |
| Render.GenerateOutputs | wbteq/wbteq.py:149-175 | after a clean call, the job keeps its fields and step order, each map holds the credentials, the `.sh` file holds the driver script over every step's file name (skipped steps included), and each work file holds its last writer's text |
| Render.GenerateUntouched | wbteq/wbteq.py:149-175 | files that no step names are unchanged, and so is the `.sh` name after an exception: no driver script is written |
| Render.WorkFolder.RenderStepFile | wbteq/wbteq.py:150-163 | the loop body updates the step's map, truncates its work file, and then either returns early for a skipped step or writes the header and the substituted text, stopping as `Advance` does |
| Render.WorkFolder.GenerateScripts | wbteq/wbteq.py:142-175 | the loop and the writes leave the work folder, the updated job and the result exactly as `Generate` describes |

## Left out

- `get_parser` and `command_line_runner` (lines 178-248): command-line parsing, the check that the library folder exists, the order of the calls and running the scripts with `subprocess.call` are process plumbing.
- `_check_folder`, `_get_full_path` and `_delete_older_files` (lines 31-56): directory creation depends on the real file system, path building depends on the current directory, and the retention helper is an empty stub that only logs.
- Logging (lines 21-28 and every `logger` call): it produces output and has no behaviour to prove.
- The clock and `strftime("%Y%m%d_%h%mi%s")` (line 148): the stamp, the header times and the driver's header time are string parameters, so the platform-dependent format is not modelled.
- Python's full `str.format`: conversions (`!r`), format specs (`:>10`), attribute and index lookup in a field name, and nested fields are not modelled. A field containing `!`, `:`, `.` or `[` is treated as a plain key name.
- Paths: the library and work folders are maps keyed by the bare file name. `os.path.join` with an absolute or nested step file name, and a name that names a directory (`os.path.isfile` is false for one), are not modelled.
- POSIX paths only: `JoinPath` models `posixpath.join`. On Windows, where `os.path.join` is `ntpath.join`, the separator is `\` and drive letters are handled, which the model does not capture.
- The library and the work folder being the same directory: opening the work file for writing truncates the template before it is read, so the text read is empty and the step is skipped with its template destroyed. The model's library and work folder are separate maps and do not capture this.
- Text-mode I/O: both files are opened in text mode, so reading turns `\r\n` into `\n` and writing uses the platform's line ending. A folder's contents in the model are the decoded, newline-translated text, and the newline translation on writing is not modelled.
- StrFormat.IsPositional: counts only the ASCII digits `0`-`9`. Python also reads a field name made of other Unicode decimal digits (such as `{٣}`) as a positional index and raises `IndexError`, whereas the model looks such a name up as a key.
- I/O failures other than a missing template (permissions, a missing work folder, decoding errors) are not modelled.
- Render.WorkFolder.GenerateScripts: the source updates the parameter dictionaries inside the caller's job structure in place. The model returns the updated job instead, so aliasing with the caller's list is not captured.
- Render.RenderSteps: its own contract states only the shape of the step list; what the loop computes is stated by the lemmas about it (`RenderStepsSucceed`, `RenderStepsWorkFiles`, `RenderStepsFailure`).
- Driver.DriverScriptLines: states the line structure only for names and stamps without newlines; a newline inside a file name or stamp would split a line.
- The shell meaning of the generated script (for example `>` truncating the log on every step) is not modelled.
