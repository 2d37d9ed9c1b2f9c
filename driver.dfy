/**
 * The driver (cmd) script of a job: its file name, its log file's name, and
 * its text, a provenance comment then one `cat < file > log` line per step.
 */
module Driver {

  /** `s.replace(' ', '_')`. */
  function ReplaceSpaces(s: string): (r: string)
    ensures |r| == |s|
    ensures forall i :: 0 <= i < |s| ==> r[i] == (if s[i] == ' ' then '_' else s[i])
  {
    if s == [] then [] else [if s[0] == ' ' then '_' else s[0]] + ReplaceSpaces(s[1..])
  }

  /** The name both files of a job start with: the underscored job name, `_`, the stamp. */
  function FileStem(jobName: string, dtStamp: string): string
  {
    ReplaceSpaces(jobName) + "_" + dtStamp
  }

  /** The driver script's name: the underscored job name, then `_`, the stamp and `.sh`. */
  function CmdFileName(jobName: string, dtStamp: string): (r: string)
    ensures |r| == |jobName| + |dtStamp| + 4
    ensures r[..|jobName|] == ReplaceSpaces(jobName) && r[|jobName|] == '_'
    ensures r[|jobName| + 1..|r| - 3] == dtStamp
    ensures r[|r| - 3..] == ".sh"
  {
    FileStem(jobName, dtStamp) + ".sh"
  }

  /** The log's name: the underscored job name, then `_`, the stamp and `.log`. */
  function LogFileName(jobName: string, dtStamp: string): (r: string)
    ensures |r| == |jobName| + |dtStamp| + 5
    ensures r[..|jobName|] == ReplaceSpaces(jobName) && r[|jobName|] == '_'
    ensures r[|jobName| + 1..|r| - 4] == dtStamp
    ensures r[|r| - 4..] == ".log"
  {
    FileStem(jobName, dtStamp) + ".log"
  }

  /**
   * The script and its log differ only in their extension, and neither has a
   * space where the job name had one.
   */
  lemma DriverFileNames(jobName: string, dtStamp: string)
    ensures var cmd, log := CmdFileName(jobName, dtStamp), LogFileName(jobName, dtStamp);
      |cmd| + 1 == |log| && cmd[..|cmd| - 3] == log[..|log| - 4] &&
      cmd[|cmd| - 3..] == ".sh" && log[|log| - 4..] == ".log" && cmd != log &&
      forall i :: 0 <= i < |jobName| ==> cmd[i] != ' ' && log[i] != ' '
  {
    var stem := FileStem(jobName, dtStamp);
    var cmd, log := CmdFileName(jobName, dtStamp), LogFileName(jobName, dtStamp);
    assert cmd[..|cmd| - 3] == stem && log[..|log| - 4] == stem;
    assert cmd[|cmd| - 1] == 'h' && log[|log| - 1] == 'g';
    forall i | 0 <= i < |jobName| ensures cmd[i] != ' ' && log[i] != ' ' {
      assert cmd[i] == stem[i] == ReplaceSpaces(jobName)[i];
      assert log[i] == stem[i];
    }
  }

  /** `os.path.join(directory, name)` on POSIX: an absolute name replaces the directory. */
  function JoinPath(directory: string, name: string): (r: string)
    ensures |name| <= |r| && r[|r| - |name|..] == name
    ensures name != [] && name[0] == '/' ==> r == name
    ensures (name == [] || name[0] != '/') && (directory == [] || directory[|directory| - 1] == '/') ==>
      r == directory + name
    ensures (name == [] || name[0] != '/') && directory != [] && directory[|directory| - 1] != '/' ==>
      r == directory + "/" + name
  {
    if name != [] && name[0] == '/' then name
    else if directory == [] || directory[|directory| - 1] == '/' then directory + name
    else directory + "/" + name
  }

  /** The provenance comment, without its newline. */
  function HeaderLine(stamp: string): string
  {
    "# This file is generated by WBTEQ at " + stamp
  }

  function CmdHeader(stamp: string): string
  {
    HeaderLine(stamp) + "\n"
  }

  /** The text of one step's line, without its newline. */
  function CatCommand(filename: string, logFile: string): string
  {
    "cat < " + filename + " > " + logFile
  }

  function CatLines(filenames: seq<string>, logFile: string): string
  {
    if filenames == [] then ""
    else CatCommand(filenames[0], logFile) + "\n" + CatLines(filenames[1..], logFile)
  }

  /**
   * The text of the driver script of a job whose steps have these template
   * names: it opens with the header line, and every line it has, the last
   * one included, ends in a newline.
   */
  function DriverScript(filenames: seq<string>, logFile: string, stamp: string): (r: string)
    ensures |CmdHeader(stamp)| <= |r| && r[..|CmdHeader(stamp)|] == CmdHeader(stamp)
    ensures r[|r| - 1] == '\n'
    ensures filenames == [] ==> r == CmdHeader(stamp)
  {
    CatLinesEnd(filenames, logFile);
    CmdHeader(stamp) + CatLines(filenames, logFile)
  }

  /** The `cat` part is empty or ends in a newline. */
  lemma CatLinesEnd(filenames: seq<string>, logFile: string)
    ensures var t := CatLines(filenames, logFile);
      (filenames == [] <==> t == []) && (t != [] ==> t[|t| - 1] == '\n')
  {
    if filenames != [] {
      CatLinesEnd(filenames[1..], logFile);
    }
  }

  lemma {:induction false} CatLinesSnoc(filenames: seq<string>, logFile: string, k: nat)
    requires k < |filenames|
    ensures CatLines(filenames[..k + 1], logFile) == CatLines(filenames[..k], logFile) + CatCommand(filenames[k], logFile) + "\n"
    decreases k
  {
    if k > 0 {
      CatLinesSnoc(filenames[1..], logFile, k - 1);
      assert filenames[1..][..k] == filenames[..k + 1][1..];
      assert filenames[1..][..k - 1] == filenames[..k][1..];
      assert filenames[1..][k - 1] == filenames[k];
    } else {
      assert filenames[..1] == [filenames[0]];
      assert filenames[..1][1..] == [];
    }
  }

  /** The loop that writes the script line by line. */
  method BuildDriverScript(filenames: seq<string>, logFile: string, stamp: string) returns (script: string)
    ensures script == DriverScript(filenames, logFile, stamp)
  {
    script := CmdHeader(stamp);
    var k := 0;
    while k < |filenames|
      invariant 0 <= k <= |filenames|
      invariant script == CmdHeader(stamp) + CatLines(filenames[..k], logFile)
    {
      CatLinesSnoc(filenames, logFile, k);
      script := script + CatCommand(filenames[k], logFile) + "\n";
      k := k + 1;
    }
    assert filenames[..k] == filenames;
  }

  // ---------------------------------------------------------------------------
  // Reading the script back as lines.

  function LineLen(s: string): (n: nat)
    ensures n <= |s|
    ensures forall k :: 0 <= k < n ==> s[k] != '\n'
    ensures n < |s| ==> s[n] == '\n'
  {
    if s == [] || s[0] == '\n' then 0 else 1 + LineLen(s[1..])
  }

  /** The lines of a text, each without its terminating newline. */
  function Lines(s: string): seq<string>
    decreases |s|
  {
    if s == [] then []
    else
      var n := LineLen(s);
      if n < |s| then [s[..n]] + Lines(s[n + 1..]) else [s]
  }

  predicate NoNewline(s: string)
  {
    forall k :: 0 <= k < |s| ==> s[k] != '\n'
  }

  lemma LinesCons(a: string, b: string)
    requires NoNewline(a)
    ensures Lines(a + "\n" + b) == [a] + Lines(b)
  {
    var s := a + "\n" + b;
    assert s[|a|] == '\n';
    assert s[..|a|] == a;
    assert s[|a| + 1..] == b;
  }

  /**
   * When no name holds a newline, the script is exactly the header line and
   * then one `cat` line per step, in step order.
   */
  lemma {:induction false} DriverScriptLines(filenames: seq<string>, logFile: string, stamp: string)
    requires NoNewline(stamp) && NoNewline(logFile)
    requires forall i :: 0 <= i < |filenames| ==> NoNewline(filenames[i])
    ensures var lines := Lines(DriverScript(filenames, logFile, stamp));
      |lines| == |filenames| + 1 &&
      lines[0] == HeaderLine(stamp) &&
      forall i :: 0 <= i < |filenames| ==> lines[i + 1] == CatCommand(filenames[i], logFile)
  {
    var first, rest := HeaderLine(stamp), CatLines(filenames, logFile);
    HeaderLineNoNewline(stamp);
    assert DriverScript(filenames, logFile, stamp) == first + "\n" + rest;
    LinesCons(first, rest);
    CatLinesLines(filenames, logFile);
  }

  lemma HeaderLineNoNewline(stamp: string)
    requires NoNewline(stamp)
    ensures NoNewline(HeaderLine(stamp))
  {
    var prefix := "# This file is generated by WBTEQ at ";
    var h := HeaderLine(stamp);
    forall k | 0 <= k < |h| ensures h[k] != '\n' {
      if k >= |prefix| { assert h[k] == stamp[k - |prefix|]; }
    }
  }

  lemma {:induction false} CatLinesLines(filenames: seq<string>, logFile: string)
    requires NoNewline(logFile)
    requires forall i :: 0 <= i < |filenames| ==> NoNewline(filenames[i])
    ensures var lines := Lines(CatLines(filenames, logFile));
      |lines| == |filenames| &&
      forall i :: 0 <= i < |filenames| ==> lines[i] == CatCommand(filenames[i], logFile)
    decreases |filenames|
  {
    if filenames == [] {
    } else {
      var c := CatCommand(filenames[0], logFile);
      assert NoNewline(c) by {
        assert c == "cat < " + filenames[0] + " > " + logFile;
        forall k | 0 <= k < |c| ensures c[k] != '\n' {
          if k < 6 + |filenames[0]| {
            if k >= 6 { assert c[k] == filenames[0][k - 6]; }
          } else if k >= 9 + |filenames[0]| {
            assert c[k] == logFile[k - 9 - |filenames[0]|];
          }
        }
      }
      LinesCons(c, CatLines(filenames[1..], logFile));
      CatLinesLines(filenames[1..], logFile);
    }
  }
}
