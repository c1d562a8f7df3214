/** The commit menu of the TypeScript tool: the colour of a status entry,
    the entries of `git status --short`, the in-place strip of the status
    before `git add`, where the commit message comes from, and the
    summaries read back from git's output. Git's output and exit status,
    the arguments and the prompt's answers are parameters. */
module CommitTs {
  import opened Text
  import Diff

  /** The colour names `getFileColor` returns. */
  datatype FileColor = Yellow | Green | Red | White | DefaultColor

  /** `replace(" ", "")` with a string pattern: only the first space goes. */
  function RemoveFirstSpace(s: string): (r: string)
  {
    if s == [] then []
    else if s[0] == ' ' then s[1..]
    else [s[0]] + RemoveFirstSpace(s[1..])
  }

  /** Removing the first space is cutting the string around the first space. */
  lemma {:induction false} RemoveFirstSpaceAt(s: string)
    ensures ' ' !in s ==> RemoveFirstSpace(s) == s
    ensures ' ' in s ==> RemoveFirstSpace(s) == s[..IndexOf(s, ' ')] + s[IndexOf(s, ' ') + 1..]
  {
    if s != [] && s[0] != ' ' {
      RemoveFirstSpaceAt(s[1..]);
      if ' ' in s {
        assert ' ' in s[1..];
        var k := IndexOf(s[1..], ' ');
        assert IndexOf(s, ' ') == k + 1;
        assert s[..k + 1] == [s[0]] + s[1..][..k];
        assert s[k + 2..] == s[1..][k + 1..];
      } else {
        assert s == [s[0]] + s[1..];
      }
    }
  }

  /** The colour that `getFileColor` picks for the entry once its first
      space is gone: the tests are made in this order. */
  function ComparisonColor(f: string): FileColor {
    if StartsWith(f, "M") then Yellow
    else if StartsWith(f, "A") then Green
    else if StartsWith(f, "D") then Red
    else if StartsWith(f, "??") then White
    else DefaultColor
  }

  /** `getFileColor`. */
  function GetFileColor(file: string): FileColor {
    ComparisonColor(RemoveFirstSpace(file))
  }

  /** The colour of two status letters `a` and `b`, in the order of the
      tests: modified, added, deleted, untracked. */
  function LetterColor(a: char, b: char): FileColor {
    if a == 'M' then Yellow
    else if a == 'A' then Green
    else if a == 'D' then Red
    else if a == '?' && b == '?' then White
    else DefaultColor
  }

  /** The colour of a string is decided by its first two characters. */
  lemma ComparisonFront(f: string)
    requires |f| >= 2
    ensures ComparisonColor(f) == LetterColor(f[0], f[1])
  {
    assert StartsWith(f, "M") <==> f[0] == 'M';
    assert StartsWith(f, "A") <==> f[0] == 'A';
    assert StartsWith(f, "D") <==> f[0] == 'D';
    assert StartsWith(f, "??") <==> f[0] == '?' && f[1] == '?';
  }

  /** A `git status --short` entry is the index letter `x`, the work-tree
      letter `y`, a space and the path; its colour comes from `x`, or from
      `y` when `x` is a space: the space removed is the first one. So an
      untracked `?? path` is white, and ` M path` is yellow. */
  lemma StatusLineColor(x: char, y: char, path: string)
    ensures GetFileColor([x, y, ' '] + path) == if x == ' ' then LetterColor(y, ' ') else LetterColor(x, y)
  {
    var f := RemoveFirstSpace([x, y, ' '] + path);
    StatusLineFront(x, y, path);
    ComparisonFront(f);
  }

  /** What is left of a status entry once its first space is gone. */
  lemma StatusLineFront(x: char, y: char, path: string)
    ensures RemoveFirstSpace([x, y, ' '] + path) ==
              if x == ' ' then [y, ' '] + path else if y == ' ' then [x, ' '] + path else [x, y] + path
  {
    var line := [x, y, ' '] + path;
    if x == ' ' {
      assert line[1..] == [y, ' '] + path;
    } else {
      assert RemoveFirstSpace(line) == [x] + RemoveFirstSpace(line[1..]);
      assert line[1..] == [y, ' '] + path;
      if y == ' ' {
        assert RemoveFirstSpace(line[1..]) == [' '] + path;
      } else {
        assert line[1..][1..] == [' '] + path;
        assert RemoveFirstSpace(line[1..]) == [y] + RemoveFirstSpace(line[1..][1..]);
      }
    }
  }

  /** `selectFiles`: the `\n`-pieces of `git status --short` that are not
      empty, in order. */
  function StatusEntries(out: string): seq<string> {
    NonEmpty(Split(out, '\n'))
  }

  /** The entries are the same list as the changed files of the `diff`
      command, so one status line per entry gives the entries back. */
  lemma StatusEntriesOfLines(out: string, entries: seq<string>)
    requires forall k :: 0 <= k < |entries| ==> entries[k] != [] && '\n' !in entries[k]
    ensures StatusEntries(out) == Diff.GetDiffFiles(out)
    ensures StatusEntries(Diff.NameLines(entries)) == entries
  {
    if out == [] {
      assert Split(out, '\n') == [[]];
      assert NonEmpty([[]]) == NonEmpty([]);
    }
    var joined := Diff.NameLines(entries);
    if joined == [] {
      assert Split(joined, '\n') == [[]];
      assert NonEmpty([[]]) == NonEmpty([]);
    }
    Diff.DiffFilesOfNames(entries);
  }

  /** JavaScript `slice(n)` on a string: "" when it is shorter than `n`. */
  function SliceFrom(s: string, n: nat): (r: string)
    ensures |s| >= n ==> s == s[..n] + r
    ensures |s| <= n ==> r == []
  {
    if |s| <= n then [] else s[n..]
  }

  /** A status entry without its two letters and the space is the path. */
  lemma SliceStatus(x: char, y: char, path: string)
    ensures SliceFrom([x, y, ' '] + path, 3) == path
  {
    assert ([x, y, ' '] + path)[3..] == path;
  }

  /** The first loop of `commitFiles`: `files[i] = files[i].slice(3)` for
      every entry, in place. */
  method StripStatus(files: array<string>)
    modifies files
    ensures forall i :: 0 <= i < files.Length ==> files[i] == SliceFrom(old(files[i]), 3)
  {
    var i := 0;
    while i < files.Length
      invariant 0 <= i <= files.Length
      invariant forall k :: 0 <= k < i ==> files[k] == SliceFrom(old(files[k]), 3)
      invariant forall k :: i <= k < files.Length ==> files[k] == old(files[k])
    {
      files[i] := SliceFrom(files[i], 3);
      i := i + 1;
    }
  }

  /** The second loop of `commitFiles`: one `git add` per entry, in order. */
  method AddCommands(files: array<string>) returns (adds: seq<string>)
    ensures |adds| == files.Length
    ensures forall i :: 0 <= i < files.Length ==> adds[i] == "git add " + files[i]
  {
    adds := [];
    var i := 0;
    while i < files.Length
      invariant 0 <= i <= files.Length && |adds| == i
      invariant forall k :: 0 <= k < i ==> adds[k] == "git add " + files[k]
    {
      adds := adds + ["git add " + files[i]];
      i := i + 1;
    }
  }

  /** What `commitFiles` does: nothing but an error for an empty
      selection; otherwise the `git add` commands, the commit-and-push
      command and the line printed after it. */
  datatype CommitResult =
    | NothingSelected(error: string)
    | Committed(adds: seq<string>, command: string, report: string)

  /** The command that commits with `message` and pushes. */
  function CommitAndPush(message: string): string {
    "git commit -m \"" + message + "\" && git push"
  }

  /** The line after a failed commit: "Error: ", git's words and a dot. */
  function ErrorReport(gitOut: string): string {
    "Error: " + ErrorSummary(gitOut) + "."
  }

  /** `commitFiles`: an empty selection runs nothing; otherwise each entry
      loses its status prefix in place, is added, and the commit runs.
      `message` is the prompt's answer, `ok` whether the commit and push
      succeeded and `gitOut` git's output on failure. The count in the
      success line is always followed by "files". */
  method CommitFiles(files: array<string>, message: string, ok: bool, gitOut: string) returns (r: CommitResult)
    modifies files
    ensures files.Length == 0 ==> r == NothingSelected("Error: No files selected.")
    ensures files.Length > 0 ==> forall i :: 0 <= i < files.Length ==> files[i] == SliceFrom(old(files[i]), 3)
    ensures files.Length > 0 ==>
              (r.Committed? && |r.adds| == files.Length
               && (forall i :: 0 <= i < files.Length ==> r.adds[i] == "git add " + SliceFrom(old(files[i]), 3))
               && r.command == CommitAndPush(message)
               && r.report == if ok then "Done! Successfully commited " + NatToString(files.Length) + " files."
                              else ErrorReport(gitOut))
  {
    if files.Length == 0 {
      return NothingSelected("Error: No files selected.");
    }
    StripStatus(files);
    var adds := AddCommands(files);
    var report := if ok then "Done! Successfully commited " + NatToString(files.Length) + " files."
                  else ErrorReport(gitOut);
    return Committed(adds, CommitAndPush(message), report);
  }

  /** `commitAllFiles`' message: the arguments after the command joined by
      spaces when there are any, else the prompt's answer. */
  function CommitAllMessage(argv: seq<string>, prompted: string): string {
    if |argv| > 3 then Join(argv[3..], " ") else prompted
  }

  /** Words given on the command line are the message's words, in order. */
  lemma CommitAllMessageWords(argv: seq<string>, prompted: string)
    requires |argv| > 3 && Separated(argv[3..], ' ')
    ensures Split(CommitAllMessage(argv, prompted), ' ') == argv[3..]
  {
    JoinSplit(argv[3..], ' ');
  }

  /** An answer of the commit-message prompt that is used, and how many
      empty answers were refused before it. */
  datatype Asked = Asked(message: string, refused: nat)

  /** `askCommitMessage`: an empty answer prints an error and asks again.
      `answers` are the prompt's answers in order; `None` when they run
      out before a non-empty one. */
  function AskCommitMessage(answers: seq<string>): (r: Option<Asked>)
    ensures r.Some? ==> r.value.refused < |answers| && answers[r.value.refused] == r.value.message
                        && r.value.message != [] && forall j :: 0 <= j < r.value.refused ==> answers[j] == []
    ensures r.None? ==> forall j :: 0 <= j < |answers| ==> answers[j] == []
  {
    if answers == [] then None
    else if answers[0] != [] then Some(Asked(answers[0], 0))
    else
      match AskCommitMessage(answers[1..])
      case None => None
      case Some(a) => Some(Asked(a.message, a.refused + 1))
  }

  /** What `commitAllFiles` runs and prints. */
  datatype CommitAllRun = CommitAllRun(message: string, command: string, report: string)

  /** `commitAllFiles`: the message from the arguments or else the
      prompt, one command that adds everything, commits and pushes, and
      the summary of git's output; `None` while the prompt is still
      asking. */
  function CommitAllFiles(argv: seq<string>, answers: seq<string>, ok: bool, stdout: string, gitOut: string)
    : (r: Option<CommitAllRun>)
    ensures r.None? <==> |argv| <= 3 && AskCommitMessage(answers).None?
    ensures r.Some? && |argv| > 3 ==> r.value.message == Join(argv[3..], " ")
    ensures r.Some? && |argv| <= 3 ==> r.value.message == AskCommitMessage(answers).value.message && r.value.message != []
    ensures r.Some? ==> r.value.command == "git add . && " + CommitAndPush(r.value.message)
    ensures r.Some? ==> r.value.report == if ok then "Done! Successfully commited " + SuccessSummary(stdout) + "."
                                          else ErrorReport(gitOut)
  {
    var message :=
      if |argv| > 3 then Some(Join(argv[3..], " "))
      else match AskCommitMessage(answers)
           case None => None
           case Some(a) => Some(a.message);
    match message
    case None => None
    case Some(m) =>
      var report := if ok then "Done! Successfully commited " + SuccessSummary(stdout) + "." else ErrorReport(gitOut);
      Some(CommitAllRun(m, "git add . && " + CommitAndPush(m), report))
  }

  /** JavaScript `indexOf` on an array: the first index of `x`, or -1. */
  function FirstIndex(t: seq<string>, x: string): (r: int)
    ensures -1 <= r < |t|
    ensures r >= 0 ==> t[r] == x && x !in t[..r]
    ensures r == -1 <==> x !in t
  {
    if t == [] then -1
    else if t[0] == x then 0
    else
      var k := FirstIndex(t[1..], x);
      assert k >= 0 ==> t[..k + 1] == [t[0]] + t[1..][..k];
      if k == -1 then -1 else k + 1
  }

  /** A JavaScript array index argument: negative counts from the end,
      and both ends clamp to the array. */
  function Clamp(i: int, n: nat): (r: nat)
    ensures r <= n
  {
    if i < 0 then (if n + i < 0 then 0 else n + i)
    else if i > n then n else i
  }

  /** JavaScript `slice(start, end)` on an array. */
  function SliceRange(t: seq<string>, start: int, end: int): seq<string> {
    var a, b := Clamp(start, |t|), Clamp(end, |t|);
    if b <= a then [] else t[a..b]
  }

  /** The words of the success summary: the two before "changed,". */
  function SummaryWords(words: seq<string>): seq<string> {
    var e := FirstIndex(words, "changed,");
    SliceRange(words, e - 2, e)
  }

  /** The success summary of `commitAllFiles`: the two space-separated
      words before "changed,", joined by a space, commas removed. */
  function SuccessSummary(stdout: string): string {
    RemoveChar(Join(SummaryWords(Split(stdout, ' ')), " "), ',')
  }

  /** Git's summary "N files changed," gives "N files". */
  lemma SuccessSummaryOfWords(words: seq<string>, i: nat)
    requires Separated(words, ' ') && 2 <= i < |words|
    requires words[i] == "changed," && "changed," !in words[..i]
    ensures SuccessSummary(Join(words, " ")) == RemoveChar(words[i - 2] + " " + words[i - 1], ',')
  {
    JoinSplit(words, ' ');
    SummaryBefore(words, i);
    PairJoin(words[i - 2..i]);
  }

  lemma SummaryBefore(words: seq<string>, i: nat)
    requires 2 <= i < |words| && words[i] == "changed," && "changed," !in words[..i]
    ensures SummaryWords(words) == words[i - 2..i]
  {
    assert FirstIndex(words, "changed,") == i;
  }

  /** Without "changed," the negative slice takes the second and third
      words from the end. */
  lemma SuccessSummaryWithoutChanged(words: seq<string>)
    requires Separated(words, ' ') && 3 <= |words| && "changed," !in words
    ensures SuccessSummary(Join(words, " ")) == RemoveChar(words[|words| - 3] + " " + words[|words| - 2], ',')
  {
    JoinSplit(words, ' ');
    SummaryFromEnd(words);
    PairJoin(words[|words| - 3..|words| - 1]);
  }

  lemma SummaryFromEnd(words: seq<string>)
    requires 3 <= |words| && "changed," !in words
    ensures SummaryWords(words) == words[|words| - 3..|words| - 1]
  {
    assert FirstIndex(words, "changed,") == -1;
  }

  lemma PairJoin(pair: seq<string>)
    requires |pair| == 2
    ensures Join(pair, " ") == pair[0] + " " + pair[1]
  {
    assert pair[1..] == [pair[1]];
  }

  /** `splice(3)` then `slice(0, 6)`: the fourth to the ninth word. */
  function KeptWords<T>(words: seq<T>): (r: seq<T>)
  {
    var rest := if |words| <= 3 then [] else words[3..];
    if |rest| <= 6 then rest else rest[..6]
  }

  lemma KeptWindow<T>(words: seq<T>)
    ensures var n := |words|;
            KeptWords(words) == words[if n < 3 then n else 3..if n < 9 then n else 9]
  {
    var n := |words|;
    if n > 3 {
      var rest := words[3..];
      if |rest| > 6 {
        assert rest[..6] == words[3..9];
      } else {
        assert rest == words[3..n];
      }
    } else {
      assert words[n..n] == [];
    }
  }

  /** The error summary: newlines become spaces, the words are split at
      spaces, and the fourth to the ninth are kept. */
  function ErrorSummary(gitOut: string): string {
    Join(KeptWords(Split(ReplaceChar(gitOut, '\n', ' '), ' ')), " ")
  }

  /** For words on one line, the summary is the fourth to the ninth word. */
  lemma ErrorSummaryOfWords(words: seq<string>)
    requires |words| >= 1 && Separated(words, ' ') && Separated(words, '\n')
    ensures var n := |words|;
            ErrorSummary(Join(words, " ")) == Join(words[if n < 3 then n else 3..if n < 9 then n else 9], " ")
  {
    var out := Join(words, " ");
    JoinAvoids(words, " ", '\n');
    ReplaceAbsent(out, '\n', ' ');
    JoinSplit(words, ' ');
    KeptWindow(words);
  }

  lemma ReplaceAbsent(s: string, c: char, rep: char)
    requires c !in s
    ensures ReplaceChar(s, c, rep) == s
  {
  }

  /** Git's lines joined: the newline counts as a space between words. */
  lemma ErrorSummaryTwoLines(first: seq<string>, second: seq<string>)
    requires |first| >= 1 && |second| >= 1
    requires Separated(first, ' ') && Separated(first, '\n') && Separated(second, ' ') && Separated(second, '\n')
    ensures ErrorSummary(Join(first, " ") + "\n" + Join(second, " ")) == ErrorSummary(Join(first + second, " "))
  {
    var a, b := Join(first, " "), Join(second, " ");
    var both := Join(first + second, " ");
    JoinAppend(first, second, " ");
    JoinAvoids(first, " ", '\n');
    JoinAvoids(second, " ", '\n');
    JoinAvoids(first + second, " ", '\n') by {
      assert forall k :: 0 <= k < |first + second| ==> (first + second)[k] in first || (first + second)[k] in second;
    }
    NewlineToSpace(a, b);
    ReplaceAbsent(both, '\n', ' ');
    assert ReplaceChar(a + "\n" + b, '\n', ' ') == ReplaceChar(both, '\n', ' ');
  }

  /** With no newline in `a` or `b`, the one between them becomes a space. */
  lemma NewlineToSpace(a: string, b: string)
    requires '\n' !in a && '\n' !in b
    ensures ReplaceChar(a + "\n" + b, '\n', ' ') == a + " " + b
  {
    ReplaceCat(a + "\n", b);
    ReplaceCat(a, "\n");
    ReplaceAbsent(a, '\n', ' ');
    ReplaceAbsent(b, '\n', ' ');
  }

  lemma {:induction false} ReplaceCat(x: string, y: string)
    ensures ReplaceChar(x + y, '\n', ' ') == ReplaceChar(x, '\n', ' ') + ReplaceChar(y, '\n', ' ')
  {
    if x != [] {
      var h := if x[0] == '\n' then ' ' else x[0];
      assert (x + y)[0] == x[0] && (x + y)[1..] == x[1..] + y;
      assert ReplaceChar(x + y, '\n', ' ') == [h] + ReplaceChar(x[1..] + y, '\n', ' ');
      assert ReplaceChar(x, '\n', ' ') == [h] + ReplaceChar(x[1..], '\n', ' ');
      ReplaceCat(x[1..], y);
      Assoc([h], ReplaceChar(x[1..], '\n', ' '), ReplaceChar(y, '\n', ' '));
    } else {
      assert x + y == y;
    }
  }

  /** Joining two non-empty runs of words is joining each and putting the
      separator between. */
  lemma {:induction false} JoinAppend(p: seq<string>, q: seq<string>, sep: string)
    requires |p| >= 1 && |q| >= 1
    ensures Join(p + q, sep) == Join(p, sep) + sep + Join(q, sep)
  {
    if |p| == 1 {
      assert (p + q)[1..] == q;
      assert Join(p + q, sep) == p[0] + sep + Join(q, sep);
    } else {
      JoinAppend(p[1..], q, sep);
      assert (p + q)[1..] == p[1..] + q;
      assert Join(p + q, sep) == p[0] + sep + Join(p[1..] + q, sep);
    }
  }
}
