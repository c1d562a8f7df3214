/** The branch-name prompt of the TypeScript tool: a branch type from a
    fixed list (or a custom one), a name with its space runs turned into
    dashes, and `type/name`. The prompts' answers are parameters: the
    suggestion list's fuzzy search is left out, and a prompt that is
    interrupted has no answer. */
module BranchName {
  import opened Text
  import opened Prompt

  /** The branch types offered, `custom` last. */
  const Types: seq<string> := ["feat", "bugfix", "test", "refactor", "hotfix", "release", "docs", "support", "custom"]

  /** `validateName`: only the empty answer is refused. */
  function ValidateName(input: string): (r: Validation)
    ensures r.Reject? <==> input == []
    ensures r.Reject? ==> r.message == "Name cannot be empty"
  {
    if input == [] then Reject("Name cannot be empty") else Accept
  }

  /** `validateType`: only the empty answer is refused. */
  function ValidateType(input: string): (r: Validation)
    ensures r.Reject? <==> input == []
    ensures r.Reject? ==> r.message == "Type cannot be empty"
  {
    if input == [] then Reject("Type cannot be empty") else Accept
  }

  /** The leading spaces of `s` removed. */
  function DropSpaces(s: string): (r: string)
    ensures |r| <= |s| && (r == [] || r[0] != ' ')
  {
    if s != [] && s[0] == ' ' then DropSpaces(s[1..]) else s
  }

  /** `replace(/\ +/g, "-")`: every run of spaces becomes one dash. */
  function DashRuns(s: string): (r: string)
    ensures ' ' !in r
    ensures |r| <= |s| && (r == [] <==> s == [])
    decreases |s|
  {
    if s == [] then []
    else if s[0] == ' ' then "-" + DashRuns(DropSpaces(s[1..]))
    else [s[0]] + DashRuns(s[1..])
  }

  /** Text without spaces is not changed, so turning runs into dashes twice
      is turning them once. */
  lemma {:induction false} DashRunsPlain(s: string)
    requires ' ' !in s
    ensures DashRuns(s) == s
  {
    if s != [] {
      DashRunsPlain(s[1..]);
      assert s == [s[0]] + s[1..];
    }
  }

  lemma DashRunsIdempotent(s: string)
    ensures DashRuns(DashRuns(s)) == DashRuns(s)
  {
    DashRunsPlain(DashRuns(s));
  }

  /** A run of any length before a word becomes a single dash. */
  lemma {:induction false} DashRun(n: nat, w: string)
    requires n >= 1 && (w == [] || w[0] != ' ')
    ensures DashRuns(Spaces(n) + w) == "-" + DashRuns(w)
  {
    var s := Spaces(n) + w;
    assert s[0] == ' ';
    DropAll(n - 1, w);
    assert s[1..] == Spaces(n - 1) + w by {
      assert Spaces(n) == Spaces(n - 1) + " " && Spaces(n) == " " + Spaces(n - 1);
    }
  }

  lemma {:induction false} DropAll(n: nat, w: string)
    requires w == [] || w[0] != ' '
    ensures DropSpaces(Spaces(n) + w) == w
  {
    if n > 0 {
      assert Spaces(n) == " " + Spaces(n - 1) by {
        SpacesCons(n);
      }
      assert Spaces(n) + w == " " + (Spaces(n - 1) + w);
      DropAll(n - 1, w);
    }
  }

  lemma {:induction false} SpacesCons(n: nat)
    requires n >= 1
    ensures Spaces(n) == " " + Spaces(n - 1)
  {
    if n > 1 {
      SpacesCons(n - 1);
    }
  }

  /** Words set apart by single spaces come out set apart by dashes. */
  lemma {:induction false} DashWords(words: seq<string>)
    requires forall k :: 0 <= k < |words| ==> words[k] != [] && ' ' !in words[k]
    ensures DashRuns(Join(words, " ")) == Join(words, "-")
  {
    if |words| > 1 {
      DashWords(words[1..]);
      JoinCons(words[0], words[1..], " ");
      JoinCons(words[0], words[1..], "-");
      assert words == [words[0]] + words[1..];
      var rest := Join(words[1..], " ");
      JoinHead(words[1..], " ");
      WordThenRun(words[0], rest);
    } else if |words| == 1 {
      DashRunsPlain(words[0]);
    }
  }

  /** A join starts with its first piece. */
  lemma JoinHead(parts: seq<string>, sep: string)
    requires parts != [] && parts[0] != []
    ensures Join(parts, sep) != [] && Join(parts, sep)[0] == parts[0][0]
  {
  }

  /** A word, a space and the rest. */
  lemma {:induction false} WordThenRun(w: string, rest: string)
    requires ' ' !in w && (rest == [] || rest[0] != ' ')
    ensures DashRuns(w + " " + rest) == w + "-" + DashRuns(rest)
  {
    if w == [] {
      assert " " + rest == [' '] + rest;
      assert (" " + rest)[1..] == rest;
    } else {
      var s := w + " " + rest;
      WordThenRun(w[1..], rest);
      assert s[0] == w[0] && w[0] != ' ';
      assert s[1..] == w[1..] + " " + rest;
      assert DashRuns(s) == [w[0]] + DashRuns(s[1..]);
      assert [w[0]] + (w[1..] + "-" + DashRuns(rest)) == w + "-" + DashRuns(rest);
    }
  }

  /** `getName`: trimmed, space runs to dashes (`|| ""` changes nothing). */
  function GetName(raw: string): (r: string)
    ensures ' ' !in r
  {
    DashRuns(Trim(raw))
  }

  /** The name is empty exactly when the answer is all whitespace, and
      otherwise starts with the answer's first non-blank character. */
  lemma GetNameEmpty(raw: string)
    ensures GetName(raw) == [] <==> forall i :: 0 <= i < |raw| ==> IsWhitespace(raw[i])
    ensures GetName(raw) != [] ==> GetName(raw)[0] == Trim(raw)[0]
  {
    TrimEmpty(raw);
  }

  /** `getBranchType`: the chosen type, or for `custom` the first non-empty
      custom answer; `None` when a prompt is interrupted. */
  function GetBranchType(choice: Option<string>, customAnswers: seq<string>): (r: Option<string>)
    ensures choice.Some? && choice.value != "custom" ==> r == choice
    ensures choice.Some? && choice.value == "custom" ==> r == Prompted(customAnswers, ValidateType)
    ensures choice.None? ==> r.None?
    ensures r.Some? ==> (r.value != [] || (choice == Some(r.value) && r.value != "custom"))
  {
    match choice
    case None => None
    case Some(t) => if t == "custom" then Prompted(customAnswers, ValidateType) else Some(t)
  }

  /** `getBranchName`: `type/name`, or "" when a prompt is interrupted. */
  function GetBranchName(choice: Option<string>, customAnswers: seq<string>, nameAnswers: seq<string>): string {
    var t := GetBranchType(choice, customAnswers);
    var n := Prompted(nameAnswers, ValidateName);
    if t.None? || n.None? then "" else t.value + "/" + GetName(n.value)
  }

  /** Every listed type is a non-empty word without a slash or a space,
      and only the last is `custom`. */
  lemma TypesPlain()
    ensures |Types| == 9 && Types[8] == "custom"
    ensures forall k :: 0 <= k < |Types| ==> Types[k] != [] && '/' !in Types[k] && ' ' !in Types[k]
    ensures forall k :: 0 <= k < 8 ==> Types[k] != "custom"
  {
  }

  /** For a type other than `custom` (with no slash, as every listed one)
      the branch name reads back as its parts: the type before the first
      slash, and after it the first non-empty name answer with no space
      left in it; an interrupted prompt gives "". */
  lemma BranchNameParts(t: string, customAnswers: seq<string>, nameAnswers: seq<string>)
    requires '/' !in t && t != "custom"
    ensures var b := GetBranchName(Some(t), customAnswers, nameAnswers);
            var n := Prompted(nameAnswers, ValidateName);
            (b == [] <==> n.None?)
            && (n.Some? ==> IndexOf(b, '/') == |t| && b[..|t|] == t
                            && b[|t| + 1..] == GetName(n.value) && ' ' !in b[|t| + 1..])
  {
    var n := Prompted(nameAnswers, ValidateName);
    if n.Some? {
      SlashParts(t, GetName(n.value));
    }
  }

  /** `type/name` for a type without a slash splits back at its first slash. */
  lemma SlashParts(t: string, name: string)
    requires '/' !in t
    ensures var b := t + "/" + name;
            IndexOf(b, '/') == |t| && b[..|t|] == t && b[|t| + 1..] == name
  {
    IndexOfAfter(t, '/', name);
    var b := t + "/" + name;
    assert b == t + ['/'] + name;
    assert b[|t| + 1..] == name;
  }

  /** A custom type takes the first non-empty custom answer. */
  lemma CustomBranchName(customAnswers: seq<string>, nameAnswers: seq<string>)
    ensures var c := Prompted(customAnswers, ValidateType);
            var n := Prompted(nameAnswers, ValidateName);
            GetBranchName(Some("custom"), customAnswers, nameAnswers)
              == if c.None? || n.None? then "" else c.value + "/" + GetName(n.value)
    ensures var c := Prompted(customAnswers, ValidateType);
            c.Some? ==> c.value != [] && c.value in customAnswers
  {
  }

  /** An illustration of a gap in `validateName`, which refuses only "": a
      name answer of blanks passes it and leaves `feat/`, a branch with an
      empty name. */
  lemma BlankNameAccepted()
    ensures GetBranchName(Some("feat"), [], ["", "  "]) == "feat/"
  {
    assert Trim("  ") == [];
  }
}
