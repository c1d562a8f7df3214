/** The commit helpers of the Rust tool: reading `git status -s`, adding,
    committing and pushing the chosen files, and the success text. Each
    git call's output and exit status is a parameter. */
module CommitFiles {
  import opened Text

  /** A changed file: git's two status letters and the path. */
  datatype File = File(name: string, status: string)

  /** `File`'s `Display`: status, one space, name. */
  function FileDisplay(f: File): string {
    f.status + " " + f.name
  }

  /** The file described by one `git status -s` line: the first two
      characters are the status and the trimmed rest is the name. */
  function FileOf(line: string): File
    requires |line| >= 2
  {
    File(Trim(line[2..]), line[..2])
  }

  /** A leading space does not survive trimming. */
  lemma TrimSpaceFront(s: string)
    ensures Trim(" " + s) == Trim(s)
  {
    assert (" " + s)[1..] == s;
  }

  /** A file with a two-letter status and a trimmed name is read back
      from its display line. */
  lemma FileOfDisplay(f: File)
    requires |f.status| == 2 && Trim(f.name) == f.name
    ensures FileOf(FileDisplay(f)) == f
  {
    DisplayParts(f);
    TrimSpaceFront(f.name);
  }

  lemma DisplayParts(f: File)
    requires |f.status| == 2
    ensures FileDisplay(f)[..2] == f.status && FileDisplay(f)[2..] == " " + f.name
  {
    assert FileDisplay(f) == f.status + (" " + f.name);
  }

  /** `get_files_to_commit`: one file per line of the status output, in
      order; a line shorter than two characters panics (`unwrap`). */
  method GetFilesToCommit(out: string) returns (r: Checked<seq<File>>)
    ensures r.Returns? <==> StatusLines(Lines(out))
    ensures r.Returns? ==> |r.value| == |Lines(out)|
    ensures r.Returns? ==> forall k :: 0 <= k < |r.value| ==> |Lines(out)[k]| >= 2 && r.value[k] == FileOf(Lines(out)[k])
  {
    var lines := Lines(out);
    r := FilesOfLines(lines);
  }

  /** Every line has the two status characters. */
  predicate StatusLines(lines: seq<string>) {
    forall k :: 0 <= k < |lines| ==> |lines[k]| >= 2
  }

  /** The loop of `get_files_to_commit` over the lines. */
  method FilesOfLines(lines: seq<string>) returns (r: Checked<seq<File>>)
    ensures r.Returns? <==> StatusLines(lines)
    ensures r.Returns? ==> |r.value| == |lines|
    ensures r.Returns? ==> forall k :: 0 <= k < |r.value| ==> |lines[k]| >= 2 && r.value[k] == FileOf(lines[k])
  {
    var files: seq<File> := [];
    var i := 0;
    while i < |lines|
      invariant 0 <= i <= |lines| && |files| == i
      invariant forall k :: 0 <= k < i ==> |lines[k]| >= 2
      invariant forall k :: 0 <= k < i ==> files[k] == FileOf(lines[k])
    {
      var line := lines[i];
      if |line| < 2 {
        assert !(|lines[i]| >= 2);
        return Panics;
      }
      var file := FileOf(line);
      ghost var before := files;
      files := files + [file];
      assert forall k :: 0 <= k < i ==> files[k] == before[k];
      i := i + 1;
    }
    return Returns(files);
  }

  /** `are_files_to_commit`: the status output is not empty. */
  predicate AreFilesToCommit(stdout: string) {
    |stdout| != 0
  }

  /** There are files to commit exactly when the status output has a line. */
  lemma AreFilesIffLines(stdout: string)
    ensures AreFilesToCommit(stdout) <==> Lines(stdout) != []
  {
  }

  /** `is_valid_commit`: the repository test comes first, then the test for
      changed files; the error printed before the exit, or `None`. */
  function ValidCommitError(isGitRepo: bool, stdout: string): Option<string> {
    if !isGitRepo then Some("Not a git repository")
    else if !AreFilesToCommit(stdout) then Some("No files to commit")
    else None
  }

  /** A commit goes ahead exactly in a repository with changed files, and
      outside a repository the repository error wins. */
  lemma ValidCommitIff(isGitRepo: bool, stdout: string)
    ensures ValidCommitError(isGitRepo, stdout) == None <==> isGitRepo && Lines(stdout) != []
    ensures !isGitRepo ==> ValidCommitError(isGitRepo, stdout) == Some("Not a git repository")
  {
    AreFilesIffLines(stdout);
  }

  /** The `for_each` that collects the names handed to `git add`. */
  method FileNames(files: seq<File>) returns (names: seq<string>)
    ensures |names| == |files|
    ensures forall k :: 0 <= k < |files| ==> names[k] == files[k].name
  {
    names := [];
    var i := 0;
    while i < |files|
      invariant 0 <= i <= |files| && |names| == i
      invariant forall k :: 0 <= k < i ==> names[k] == files[k].name
    {
      names := names + [files[i].name];
      i := i + 1;
    }
  }

  /** The git commands `commit_files` runs. */
  datatype Step = Add(paths: seq<string>) | CommitWith(message: string) | Push

  /** The commands that ran and the error printed before `exit(1)`, if one was. */
  datatype CommitRun = CommitRun(steps: seq<Step>, failure: Option<string>)

  /** `commit_files`: add, then commit, then push unless `no_push`, each
      only after the one before succeeded. `addOk`, `commitOk` and
      `pushOk` are the exit statuses of the three commands. */
  method CommitFilesRun(message: string, files: seq<File>, noPush: bool, addOk: bool, commitOk: bool, pushOk: bool)
    returns (run: CommitRun)
    ensures 1 <= |run.steps| <= 3 && run.steps[0].Add? && |run.steps[0].paths| == |files|
    ensures forall k :: 0 <= k < |files| ==> run.steps[0].paths[k] == files[k].name
    ensures |run.steps| >= 2 ==> run.steps[1] == CommitWith(message)
    ensures |run.steps| == 3 ==> run.steps[2] == Push
    ensures |run.steps| >= 2 <==> addOk
    ensures |run.steps| == 3 <==> addOk && commitOk && !noPush
    ensures run.failure == None <==> addOk && commitOk && (noPush || pushOk)
    ensures !addOk ==> run.failure == Some("Failed to add files")
    ensures addOk && !commitOk ==> run.failure == Some("Failed to commit files")
    ensures addOk && commitOk && !noPush && !pushOk ==> run.failure == Some("Failed to push files")
  {
    var names := FileNames(files);
    var steps := [Add(names)];
    if !addOk {
      return CommitRun(steps, Some("Failed to add files"));
    }
    steps := steps + [CommitWith(message)];
    if !commitOk {
      return CommitRun(steps, Some("Failed to commit files"));
    }
    if noPush {
      return CommitRun(steps, None);
    }
    steps := steps + [Push];
    if !pushOk {
      return CommitRun(steps, Some("Failed to push files"));
    }
    return CommitRun(steps, None);
  }

  const CommittedPrefix: string := "Successfully commited "

  /** The success line after committing `count` files. */
  function SuccessMessage(count: nat): string {
    if count == 1 then "Successfully commited 1 file"
    else CommittedPrefix + NatToString(count) + " files"
  }

  /** The success line names the count, and the plural exactly when the
      count is not one. */
  lemma SuccessMessageCount(count: nat)
    requires count < 0x1_0000_0000_0000_0000
    ensures var digits := NatToString(count);
            var m := SuccessMessage(count);
            |m| > 22 + |digits| && m[..22] == CommittedPrefix
            && ParseUnsigned(m[22..22 + |digits|], 0x1_0000_0000_0000_0000) == Some(count)
            && m[22 + |digits|..] == (if count == 1 then " file" else " files")
  {
    var digits := NatToString(count);
    var noun := if count == 1 then " file" else " files";
    if count == 1 {
      OneFile();
    }
    assert SuccessMessage(count) == CommittedPrefix + digits + noun;
    MessageParts(CommittedPrefix, digits, noun);
    ParseRenderedBig(count);
  }

  lemma MessageParts(prefix: string, digits: string, noun: string)
    requires |prefix| == 22 && noun != []
    ensures var m := prefix + digits + noun;
            |m| > 22 + |digits| && m[..22] == prefix && m[22..22 + |digits|] == digits && m[22 + |digits|..] == noun
  {
  }

  lemma OneFile()
    ensures SuccessMessage(1) == CommittedPrefix + NatToString(1) + " file"
  {
    assert NatToString(1) == "1";
  }

  /** Counts of committed files are below 2^64, as Rust's `usize` is. */
  lemma ParseRenderedBig(count: nat)
    ensures count < 0x1_0000_0000_0000_0000 ==> ParseUnsigned(NatToString(count), 0x1_0000_0000_0000_0000) == Some(count)
  {
    if count < 0x1_0000_0000_0000_0000 {
      ParseRendered(count, 0x1_0000_0000_0000_0000);
    }
  }

  /** What `commit_all_files` and `commit_specific_files` leave behind: the
      commands that ran and either the failure or the success line. */
  datatype CommitReport = CommitReport(run: CommitRun, success: Option<string>)

  /** `commit_specific_files`: commit the chosen files; the success line
      counts them and is printed only when every step succeeded. */
  method CommitSpecificFiles(files: seq<File>, message: string, noPush: bool, addOk: bool, commitOk: bool, pushOk: bool)
    returns (report: CommitReport)
    ensures |report.run.steps| >= 1 && report.run.steps[0].Add? && |report.run.steps[0].paths| == |files|
    ensures forall k :: 0 <= k < |files| ==> report.run.steps[0].paths[k] == files[k].name
    ensures |report.run.steps| >= 2 ==> report.run.steps[1] == CommitWith(message)
    ensures |report.run.steps| == 3 ==> report.run.steps[2] == Push
    ensures |report.run.steps| >= 2 <==> addOk
    ensures |report.run.steps| == 3 <==> addOk && commitOk && !noPush
    ensures report.success.Some? <==> report.run.failure == None
    ensures report.success.Some? ==> report.success.value == SuccessMessage(|files|)
    ensures report.run.failure == None <==> addOk && commitOk && (noPush || pushOk)
  {
    var run := CommitFilesRun(message, files, noPush, addOk, commitOk, pushOk);
    if run.failure.Some? {
      return CommitReport(run, None);
    }
    return CommitReport(run, Some(SuccessMessage(|files|)));
  }

  /** `commit_all_files`: every file of the status output is committed, so
      the success line counts the status lines; a short status line
      panics before anything runs. */
  method CommitAllFiles(stdout: string, message: string, noPush: bool, addOk: bool, commitOk: bool, pushOk: bool)
    returns (r: Checked<CommitReport>)
    ensures r.Panics? <==> exists k :: 0 <= k < |Lines(stdout)| && |Lines(stdout)[k]| < 2
    ensures r.Returns? ==> |r.value.run.steps| >= 1 && r.value.run.steps[0].Add? && |r.value.run.steps[0].paths| == |Lines(stdout)|
    ensures r.Returns? ==> forall k :: 0 <= k < |Lines(stdout)| ==> r.value.run.steps[0].paths[k] == Trim(Lines(stdout)[k][2..])
    ensures r.Returns? && |r.value.run.steps| >= 2 ==> r.value.run.steps[1] == CommitWith(message)
    ensures r.Returns? && |r.value.run.steps| == 3 ==> r.value.run.steps[2] == Push
    ensures r.Returns? ==> (|r.value.run.steps| >= 2 <==> addOk)
    ensures r.Returns? ==> (|r.value.run.steps| == 3 <==> addOk && commitOk && !noPush)
    ensures r.Returns? ==> (r.value.success.Some? <==> r.value.run.failure == None)
    ensures r.Returns? ==> (r.value.run.failure == None <==> addOk && commitOk && (noPush || pushOk))
    ensures r.Returns? && r.value.success.Some? ==> r.value.success.value == SuccessMessage(|Lines(stdout)|)
  {
    var files := GetFilesToCommit(stdout);
    if files.Panics? {
      return Panics;
    }
    var run := CommitFilesRun(message, files.value, noPush, addOk, commitOk, pushOk);
    if run.failure.Some? {
      return Returns(CommitReport(run, None));
    }
    return Returns(CommitReport(run, Some(SuccessMessage(|files.value|))));
  }
}
