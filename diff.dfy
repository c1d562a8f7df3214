/** The `diff` command of the Rust tool: the changed-file list from
    `git diff --name-only`, the decision whether and on which files to run
    `git diff`, and that call's arguments. Git's output, the repository
    test and the selector's answer are parameters. */
module Diff {
  import opened Text
  import Selection

  /** `get_diff_files`: the non-empty `\n`-pieces of the output, in order. */
  function GetDiffFiles(out: string): seq<string> {
    if out == [] then [] else NonEmpty(Split(out, '\n'))
  }

  /** Every listed file is a non-empty name without a newline that the
      output holds. */
  lemma DiffFilesClean(out: string)
    ensures out == [] ==> GetDiffFiles(out) == []
    ensures forall k :: 0 <= k < |GetDiffFiles(out)| ==>
              GetDiffFiles(out)[k] != [] && '\n' !in GetDiffFiles(out)[k] && GetDiffFiles(out)[k] in Split(out, '\n')
  {
    if out != [] {
      SplitSeparated(out, '\n');
    }
  }

  /** Git prints one name per line: such an output gives the names back,
      in order. */
  lemma DiffFilesOfNames(names: seq<string>)
    requires forall k :: 0 <= k < |names| ==> names[k] != [] && '\n' !in names[k]
    ensures GetDiffFiles(NameLines(names)) == names
  {
    if names != [] {
      NameLinesSplit(names);
      NonEmptyKeeps(names);
    }
  }

  /** Each name followed by a newline. */
  function NameLines(names: seq<string>): string {
    if names == [] then [] else names[0] + "\n" + NameLines(names[1..])
  }

  /** The `\n`-pieces of the name lines: the names and a last empty piece. */
  lemma {:induction false} NameLinesSplit(names: seq<string>)
    requires forall k :: 0 <= k < |names| ==> '\n' !in names[k]
    ensures Split(NameLines(names), '\n') == names + [[]]
  {
    if names == [] {
      assert Split([], '\n') == [[]];
    } else {
      var rest := NameLines(names[1..]);
      assert NameLines(names) == names[0] + ['\n'] + rest;
      NameLinesSplit(names[1..]);
      assert '\n' !in names[0];
      SplitCons(names[0], '\n', rest);
      assert Split(NameLines(names), '\n') == [names[0]] + (names[1..] + [[]]);
      ConsSnoc(names, []);
    }
  }

  /** Dropping the empty pieces of non-empty names and one empty piece. */
  lemma {:induction false} NonEmptyKeeps(names: seq<string>)
    requires forall k :: 0 <= k < |names| ==> names[k] != []
    ensures NonEmpty(names + [[]]) == names
  {
    if names == [] {
      assert names + [[]] == [[]];
    } else {
      NonEmptyKeeps(names[1..]);
      assert (names + [[]])[1..] == names[1..] + [[]];
      assert [names[0]] + names[1..] == names;
    }
  }

  /** `is_file_in_diff`: the exact name is listed. */
  predicate IsFileInDiff(file: string, out: string) {
    file in GetDiffFiles(out)
  }

  /** Only a non-empty name without a newline can be in the diff, and
      every name git lists is. */
  lemma InDiffIff(file: string, names: seq<string>)
    requires forall k :: 0 <= k < |names| ==> names[k] != [] && '\n' !in names[k]
    ensures IsFileInDiff(file, NameLines(names)) <==> file in names
  {
    DiffFilesOfNames(names);
  }

  /** `show_diff`'s options; the command line does not allow `file` and
      `selector` together. */
  datatype DiffOptions = DiffOptions(extended: bool, file: Option<string>, selector: bool)

  /** What `show_diff` ends with: an error message, or `git diff` with these
      arguments. */
  datatype DiffOutcome = DiffError(message: string) | RunDiff(args: seq<string>)

  /** The arguments of `git diff` in `show_diff_for_files`: `diff --color`,
      the two summary flags unless extended, then the files in order. */
  function DiffArgsOf(files: seq<string>, extended: bool): seq<string> {
    ["diff", "--color"] + (if extended then [] else ["--minimal", "--compact-summary"]) + files
  }

  /** The argument list starts with the fixed flags and ends with exactly
      the files, so the files can be read back from it. */
  lemma DiffArgsFiles(files: seq<string>, extended: bool)
    ensures var args := DiffArgsOf(files, extended);
            var flags := if extended then 2 else 4;
            |args| == |files| + flags && args[..2] == ["diff", "--color"]
            && (!extended ==> args[2..4] == ["--minimal", "--compact-summary"])
            && args[flags..] == files
  {
    var args := DiffArgsOf(files, extended);
    var front := ["diff", "--color"] + (if extended then [] else ["--minimal", "--compact-summary"]);
    assert args == front + files;
    assert args[..|front|] == front;
    assert args[|front|..] == files;
  }

  /** `show_diff_for_files` builds the command by successive `arg` calls
      and a loop over the files. */
  method DiffArgs(files: seq<string>, extended: bool) returns (args: seq<string>)
    ensures args == DiffArgsOf(files, extended)
  {
    args := ["diff", "--color"];
    if !extended {
      args := args + ["--minimal", "--compact-summary"];
    }
    ghost var flags := args;
    var i := 0;
    while i < |files|
      invariant 0 <= i <= |files|
      invariant args == flags + files[..i]
    {
      args := args + [files[i]];
      assert files[..i + 1] == files[..i] + [files[i]];
      i := i + 1;
    }
    assert files[..i] == files;
  }

  /** `show_diff`: outside a repository only the error; a named file must
      be in the diff and becomes the only file; otherwise every changed
      file; the selector then picks among them; an empty list means "No
      changes". `selection` is the selector's answer, `None` when it fails. */
  method ShowDiff(o: DiffOptions, isGitRepo: bool, out: string, selection: Option<seq<string>>)
    returns (r: DiffOutcome)
    ensures !isGitRepo ==> r == DiffError("Not a git repository (or any of the parent directories)")
    ensures isGitRepo && o.file.Some? && !IsFileInDiff(o.file.value, out) ==> r == DiffError("File not in diff")
    ensures r.RunDiff? ==> isGitRepo
    ensures r.RunDiff? ==> exists files :: files != [] && r.args == DiffArgsOf(files, o.extended)
    ensures isGitRepo && !o.selector && o.file.Some? && IsFileInDiff(o.file.value, out) ==>
              r == RunDiff(DiffArgsOf([o.file.value], o.extended))
    ensures isGitRepo && !o.selector && o.file.None? ==>
              r == if GetDiffFiles(out) == [] then DiffError("No changes")
                   else RunDiff(DiffArgsOf(GetDiffFiles(out), o.extended))
    ensures isGitRepo && o.selector && (o.file.None? || IsFileInDiff(o.file.value, out)) ==>
              r == match selection
                   case None => DiffError("Error getting file selection")
                   case Some(chosen) =>
                     if chosen == [] then DiffError("No changes") else RunDiff(DiffArgsOf(chosen, o.extended))
  {
    if !isGitRepo {
      return DiffError("Not a git repository (or any of the parent directories)");
    }
    var files;
    if o.file.Some? {
      var file := o.file.value;
      if !IsFileInDiff(file, out) {
        return DiffError("File not in diff");
      }
      files := [file];
    } else {
      files := GetDiffFiles(out);
    }
    if o.selector {
      if selection.None? {
        return DiffError("Error getting file selection");
      }
      files := selection.value;
    }
    if files == [] {
      return DiffError("No changes");
    }
    var args := DiffArgs(files, o.extended);
    return RunDiff(args);
  }

  /** The selector refuses an empty choice with the commit prompt's message. */
  lemma DiffSelectionValidated(files: seq<string>)
    ensures Selection.ValidateFileSelection(files) == Selection.Valid <==> files != []
  {
  }
}
