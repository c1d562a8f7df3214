/** The `history` command of the Rust tool: the `git log` arguments, the
    parsing of its one-line-per-commit output and the printed lines, and
    the current-branch lookup over `git branch`. Git's output is a
    parameter. */
module History {
  import opened Text
  import Out

  /** `CommitHistoryOptions`; `limit` is a `usize`. */
  datatype HistoryOptions = HistoryOptions(limit: Option<nat>, author: Option<string>, branch: Option<string>, file: Option<string>)

  /** The limit as text, "10" when none is given. */
  function LimitText(limit: Option<nat>): string {
    match limit
    case Some(n) => NatToString(n)
    case None => "10"
  }

  /** The author filter, empty when none is given. */
  function AuthorText(author: Option<string>): string {
    match author
    case Some(a) => a
    case None => ""
  }

  /** The log format the program passes to git: abbreviated hash,
      subject, relative date and author name, separated by `_`. */
  const LogFormat: string := "--pretty=format:%h_%s_%cr_%an"

  /** The arguments of the `git log` call. */
  function LogArgs(o: HistoryOptions): seq<string> {
    ["log", "--oneline", "--decorate", "--all", "--color", LogFormat, "--full-history",
     "-" + LimitText(o.limit), "--author=" + AuthorText(o.author)]
  }

  /** The call has nine arguments; the limit (10 by default) and the author
      (empty by default) are the last two, and branch and file change
      nothing. */
  lemma LogArgsShape(o: HistoryOptions, branch: Option<string>, file: Option<string>)
    ensures var args := LogArgs(o);
            |args| == 9 && args[7][..1] == "-" && args[8][..9] == "--author="
            && (o.limit.None? ==> args[7][1..] == "10")
            && (o.limit.Some? && o.limit.value < 0x1_0000_0000_0000_0000 ==>
                  ParseUnsigned(args[7][1..], 0x1_0000_0000_0000_0000) == o.limit)
            && args[8][9..] == (if o.author.Some? then o.author.value else "")
    ensures LogArgs(o.(branch := branch, file := file)) == LogArgs(o)
  {
    var args := LogArgs(o);
    assert args[7][1..] == LimitText(o.limit);
    assert args[8][9..] == AuthorText(o.author);
    if o.limit.Some? && o.limit.value < 0x1_0000_0000_0000_0000 {
      ParseRendered(o.limit.value, 0x1_0000_0000_0000_0000);
    }
  }

  /** One commit of the log. */
  datatype Commit = Commit(hash: string, message: string, date: string, author: string)

  /** One line of the log: split at `sep`, the first four pieces are the
      fields and further pieces are dropped; fewer panic (`unwrap`). */
  function ParseCommit(line: string, sep: char): Checked<Commit> {
    var parts := Split(line, sep);
    if |parts| < 4 then Panics else Returns(Commit(parts[0], parts[1], parts[2], parts[3]))
  }

  /** What git prints for one commit with the four fields separated by `sep`. */
  function RenderCommit(c: Commit, sep: char): string {
    c.hash + [sep] + (c.message + [sep] + (c.date + [sep] + c.author))
  }

  /** The parse of the source, which splits on `_`. */
  function ParseCommitAsWritten(line: string): Checked<Commit> {
    ParseCommit(line, '_')
  }

  /** When no field holds the separator, the line gives its commit back. */
  lemma ParseRendersBack(c: Commit, sep: char)
    requires sep !in c.hash && sep !in c.message && sep !in c.date && sep !in c.author
    ensures ParseCommit(RenderCommit(c, sep), sep) == Returns(c)
  {
    SplitFour(c.hash, c.message, c.date, c.author, sep);
    ParseOfParts(RenderCommit(c, sep), sep, [c.hash, c.message, c.date, c.author]);
  }

  /** The parse once the pieces are known. */
  lemma ParseOfParts(line: string, sep: char, parts: seq<string>)
    requires Split(line, sep) == parts && |parts| >= 4
    ensures ParseCommit(line, sep) == Returns(Commit(parts[0], parts[1], parts[2], parts[3]))
  {
  }

  lemma SplitFour(a: string, b: string, c: string, e: string, d: char)
    requires d !in a && d !in b && d !in c && d !in e
    ensures Split(a + [d] + (b + [d] + (c + [d] + e)), d) == [a, b, c, e]
  {
    SplitThree(b, c, e, d);
    SplitCons(a, d, b + [d] + (c + [d] + e));
    ConsThree(a, b, c, e);
  }

  lemma SplitFive(a: string, b: string, c: string, e: string, f: string, d: char)
    requires d !in a && d !in b && d !in c && d !in e && d !in f
    ensures Split(a + [d] + (b + [d] + (c + [d] + (e + [d] + f))), d) == [a, b, c, e, f]
  {
    SplitFour(b, c, e, f, d);
    SplitCons(a, d, b + [d] + (c + [d] + (e + [d] + f)));
    ConsFour(a, b, c, e, f);
  }

  /** A subject with an underscore, such as "fix_typo", shifts the fields
      of the as-written parse: the subject loses its second half, which
      becomes the date, and the date becomes the author. */
  lemma UnderscoreSubjectMisparsed(hash: string, left: string, right: string, date: string, author: string)
    requires '_' !in hash && '_' !in left && '_' !in right && '_' !in date && '_' !in author
    ensures var c := Commit(hash, left + "_" + right, date, author);
            ParseCommitAsWritten(RenderCommit(c, '_')) == Returns(Commit(hash, left, right, date))
            && ParseCommitAsWritten(RenderCommit(c, '_')) != Returns(c)
  {
    var c := Commit(hash, left + "_" + right, date, author);
    SubjectRegroup(hash, left, right, date, author);
    SplitFive(hash, left, right, date, author, '_');
    ParseOfParts(RenderCommit(c, '_'), '_', [hash, left, right, date, author]);
    assert |left + "_" + right| > |left|;
  }

  lemma SubjectRegroup(hash: string, left: string, right: string, date: string, author: string)
    ensures RenderCommit(Commit(hash, left + "_" + right, date, author), '_')
            == hash + ['_'] + (left + ['_'] + (right + ['_'] + (date + ['_'] + author)))
  {
  }

  /** The unit separator (U+001F), which git writes for `%x1f` and which
      neither a subject line nor a name nor a relative date holds. */
  const UnitSeparator: char := '\U{001F}'

  /** The log format with the unit separator between the fields. */
  const FixedLogFormat: string := "--pretty=format:%h%x1f%s%x1f%cr%x1f%an"

  /** The parse for `FixedLogFormat`. */
  function ParseCommitFixed(line: string): Checked<Commit> {
    ParseCommit(line, UnitSeparator)
  }

  /** Any subject, underscores included, round-trips through the fixed format. */
  lemma ParseCommitFixedRoundTrip(c: Commit)
    requires UnitSeparator !in c.hash + c.message + c.date + c.author
    ensures ParseCommitFixed(RenderCommit(c, UnitSeparator)) == Returns(c)
  {
    assert forall x :: x in c.hash || x in c.message || x in c.date || x in c.author ==> x in c.hash + c.message + c.date + c.author;
    ParseRendersBack(c, UnitSeparator);
  }

  /** The printed line: `(hash)` dimmed, the subject, the date in green
      and the author in blue. */
  function CommitLine(c: Commit): string {
    Out.FormatDim("(" + c.hash + ")") + (" - " + (c.message + (" (" + (Out.FormatColor(c.date, Out.Green)
    + (") ~ " + Out.FormatColor(c.author, Out.Blue))))))
  }

  /** The printed line starts with the dimmed hash, which gives the hash
      back, and ends with the blue author. */
  lemma CommitLineParts(c: Commit)
    ensures var line := CommitLine(c);
            var head := Out.FormatDim("(" + c.hash + ")");
            var tail := Out.FormatColor(c.author, Out.Blue);
            |head| + |tail| <= |line| && line[..|head|] == head && line[|line| - |tail|..] == tail
            && Out.Unwrap(head, [Out.Esc] + "[2m") == Some("(" + c.hash + ")")
  {
    var head := Out.FormatDim("(" + c.hash + ")");
    var tail := Out.FormatColor(c.author, Out.Blue);
    var mid := CommitLineMiddle(c);
    CommitLineJoined(c);
    Ends(head, mid, tail);
    Out.DimRecovers("(" + c.hash + ")");
  }

  /** What lies between the hash and the author in the printed line. */
  function CommitLineMiddle(c: Commit): string {
    " - " + (c.message + (" (" + (Out.FormatColor(c.date, Out.Green) + ") ~ ")))
  }

  lemma CommitLineJoined(c: Commit)
    ensures CommitLine(c) == Out.FormatDim("(" + c.hash + ")") + (CommitLineMiddle(c) + Out.FormatColor(c.author, Out.Blue))
  {
    var date := Out.FormatColor(c.date, Out.Green);
    var tail := Out.FormatColor(c.author, Out.Blue);
    assert " (" + (date + (") ~ " + tail)) == (" (" + (date + ") ~ ")) + tail;
    assert c.message + (" (" + (date + (") ~ " + tail))) == (c.message + (" (" + (date + ") ~ "))) + tail;
  }

  lemma Ends<T>(a: seq<T>, b: seq<T>, c: seq<T>)
    ensures var s := a + (b + c);
            |a| + |c| <= |s| && s[..|a|] == a && s[|s| - |c|..] == c
  {
  }

  /** `commit_history` after the `git log` call: every line is parsed
      first, so one short line panics before anything is printed; then one
      printed line per commit, in log order. */
  method CommitHistory(out: string) returns (r: Checked<seq<string>>)
    ensures r.Panics? <==> exists k :: 0 <= k < |Lines(out)| && ParseCommitAsWritten(Lines(out)[k]).Panics?
    ensures r.Returns? ==> |r.value| == |Lines(out)|
    ensures r.Returns? ==> forall k :: 0 <= k < |r.value| ==>
              ParseCommitAsWritten(Lines(out)[k]).Returns? && r.value[k] == CommitLine(ParseCommitAsWritten(Lines(out)[k]).value)
  {
    var lines := Lines(out);
    var commits := ParseLog(lines);
    if commits.Panics? {
      return Panics;
    }
    var printed := PrintCommits(commits.value);
    return Returns(printed);
  }

  /** The `lines().map(...).collect()` of the log. */
  method ParseLog(lines: seq<string>) returns (r: Checked<seq<Commit>>)
    ensures r.Panics? <==> exists k :: 0 <= k < |lines| && ParseCommitAsWritten(lines[k]).Panics?
    ensures r.Returns? ==> |r.value| == |lines|
    ensures r.Returns? ==> forall k :: 0 <= k < |lines| ==> ParseCommitAsWritten(lines[k]) == Returns(r.value[k])
  {
    var commits: seq<Commit> := [];
    var i := 0;
    while i < |lines|
      invariant 0 <= i <= |lines| && |commits| == i
      invariant forall k :: 0 <= k < i ==> ParseCommitAsWritten(lines[k]) == Returns(commits[k])
    {
      var c := ParseCommitAsWritten(lines[i]);
      if c.Panics? {
        return Panics;
      }
      commits := commits + [c.value];
      i := i + 1;
    }
    return Returns(commits);
  }

  /** The printing loop: one line per commit, in order. */
  method PrintCommits(commits: seq<Commit>) returns (printed: seq<string>)
    ensures |printed| == |commits|
    ensures forall k :: 0 <= k < |commits| ==> printed[k] == CommitLine(commits[k])
  {
    printed := [];
    var i := 0;
    while i < |commits|
      invariant 0 <= i <= |commits| && |printed| == i
      invariant forall k :: 0 <= k < i ==> printed[k] == CommitLine(commits[k])
    {
      printed := printed + [CommitLine(commits[i])];
      i := i + 1;
    }
  }

  /** `split(" ").collect::<String>()`: the pieces glued back together. */
  lemma {:induction false} GlueRemoves(s: string, c: char)
    ensures Join(Split(s, c), "") == RemoveChar(s, c)
    decreases |s|
  {
    var i := IndexOf(s, c);
    if i == -1 {
      SplitWithout(s, c);
    } else {
      var head, rest := s[..i], s[i + 1..];
      Around(s, i);
      GlueRemoves(rest, c);
      GlueAround(head, c, rest);
    }
  }

  /** The glue step at the first `c`. */
  lemma GlueAround(head: string, c: char, rest: string)
    requires c !in head
    requires Join(Split(rest, c), "") == RemoveChar(rest, c)
    ensures Join(Split(head + [c] + rest, c), "") == RemoveChar(head + [c] + rest, c)
  {
    var s, parts := head + [c] + rest, Split(rest, c);
    SplitCons(head, c, rest);
    JoinCons(head, parts, "");
    RemoveAround(head, c, rest);
    calc {
      Join(Split(s, c), "");
      Join([head] + parts, "");
      head + "" + Join(parts, "");
      { assert head + "" == head; }
      head + RemoveChar(rest, c);
      RemoveChar(s, c);
    }
  }

  /** Removing `c` from a string that starts with `x`. */
  lemma RemoveCons(x: char, t: string, c: char)
    ensures RemoveChar([x] + t, c) == (if x == c then [] else [x]) + RemoveChar(t, c)
  {
    assert ([x] + t)[1..] == t;
  }

  /** Removing `c` around one `c` in the middle. */
  lemma {:induction false} RemoveAround(a: string, c: char, b: string)
    requires c !in a
    ensures RemoveChar(a + [c] + b, c) == a + RemoveChar(b, c)
    decreases |a|
  {
    if a == [] {
      assert a + [c] + b == [c] + b;
      RemoveCons(c, b, c);
    } else {
      var x, rest := a[0], a[1..];
      assert c !in rest;
      RemoveAround(rest, c, b);
      Unshift(a, c, b);
      RemoveCons(x, rest + [c] + b, c);
      Assoc([x], rest, RemoveChar(b, c));
    }
  }

  lemma Unshift(a: string, c: char, b: string)
    requires a != []
    ensures a + [c] + b == [a[0]] + (a[1..] + [c] + b) && a == [a[0]] + a[1..]
  {
  }

  /** `get_current_branch`: the last line of `git branch` that starts with
      `*`, with its spaces and then its stars removed; "" when no line
      starts with `*`. */
  method GetCurrentBranch(out: string) returns (r: string)
    ensures ' ' !in r && '*' !in r
    ensures (forall k :: 0 <= k < |Lines(out)| ==> !StartsWith(Lines(out)[k], "*")) ==> r == []
    ensures (exists k :: 0 <= k < |Lines(out)| && StartsWith(Lines(out)[k], "*")) ==>
              exists k :: 0 <= k < |Lines(out)| && StartsWith(Lines(out)[k], "*")
                && (forall j :: k < j < |Lines(out)| ==> !StartsWith(Lines(out)[j], "*"))
                && r == RemoveChar(RemoveChar(Lines(out)[k], ' '), '*')
  {
    var lines := Lines(out);
    var branch := "";
    ghost var found := -1;
    var i := 0;
    while i < |lines|
      invariant 0 <= i <= |lines| && -1 <= found < i
      invariant found == -1 ==> branch == [] && forall k :: 0 <= k < i ==> !StartsWith(lines[k], "*")
      invariant found >= 0 ==> StartsWith(lines[found], "*") && branch == RemoveChar(lines[found], ' ')
      invariant found >= 0 ==> forall j :: found < j < i ==> !StartsWith(lines[j], "*")
    {
      var line := lines[i];
      if StartsWith(line, "*") {
        GlueRemoves(line, ' ');
        branch := Join(Split(line, ' '), "");
        found := i;
      }
      i := i + 1;
    }
    r := RemoveChar(branch, '*');
    RemoveCharKeeps(branch, '*');
    if found >= 0 {
      RemoveCharKeeps(lines[found], ' ');
    }
  }
}
