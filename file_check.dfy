/** `_check_job_files`: does the library folder hold the given file(s)? */
module FileCheck {
  import opened Wrappers
  import opened Records

  /** The argument's run-time type: one name, a list of names, or anything else. */
  datatype FilesArg = Single(name: string) | Many(names: seq<string>) | Unsupported

  /** The `TypeError('files must be a str or list')` raised for any other argument. */
  datatype FilesTypeError = NotStrOrList

  /** Every name of `names` is a file of `lib`. */
  predicate AllPresent(lib: Folder, names: seq<string>)
  {
    forall i :: 0 <= i < |names| ==> names[i] in lib
  }

  /**
   * The check itself. `probed` is the list of names looked up, in order: the
   * loop stops right after the first name that is missing.
   */
  method CheckJobFiles(lib: Folder, files: FilesArg) returns (r: Result<bool, FilesTypeError>, ghost probed: seq<string>)
    ensures files.Single? ==> r == Ok(files.name in lib) && probed == [files.name]
    ensures files.Many? ==> r == Ok(AllPresent(lib, files.names))
    ensures files.Unsupported? ==> r == Err(NotStrOrList) && probed == []
    ensures files.Many? ==> |probed| <= |files.names| && probed == files.names[..|probed|]
    ensures files.Many? ==> forall i :: 0 <= i < |probed| - 1 ==> probed[i] in lib
    ensures files.Many? && r == Ok(false) ==> probed != [] && probed[|probed| - 1] !in lib
    ensures files.Many? && r == Ok(true) ==> probed == files.names
  {
    match files
    case Single(name) =>
      r, probed := Ok(name in lib), [name];
    case Many(names) =>
      var ok := true;
      probed := [];
      var i := 0;
      while i < |names|
        invariant 0 <= i <= |names|
        invariant ok
        invariant probed == names[..i]
        invariant AllPresent(lib, probed)
      {
        probed := probed + [names[i]];
        if names[i] !in lib {
          ok := false;
          break;
        }
        i := i + 1;
      }
      r := Ok(ok);
    case Unsupported =>
      r, probed := Err(NotStrOrList), [];
  }
}
