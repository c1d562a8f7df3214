/** The `init` command of the TypeScript tool: the repository's name and
    description from the command line, its URLs, the check that neither
    the repository nor the folder exists, and the steps that create, fill
    and push it. GitHub's list of repositories, the folders that exist and
    how far the external calls get are parameters. */
module InitRepo {
  import opened Text
  import CommitTs

  datatype Settings = Settings(username: string, key: string, protocol: string)

  /** The words after the command: `process.argv.splice(3)`. */
  function NameWords(argv: seq<string>): seq<string> {
    if |argv| <= 3 then [] else argv[3..]
  }

  /** The description: the words joined by spaces. */
  function Description(words: seq<string>): string {
    Join(words, " ")
  }

  /** The repository's name: the description with spaces as dashes, in
      lower case. */
  function RepoName(words: seq<string>): (r: string)
    ensures |r| == |Description(words)|
    ensures ' ' !in r && forall i :: 0 <= i < |r| ==> !('A' <= r[i] <= 'Z')
  {
    var r := ToLower(ReplaceChar(Description(words), ' ', '-'));
    assert forall i :: 0 <= i < |r| ==> r[i] != ' ';
    r
  }

  /** Words without spaces, dashes or capitals give a name that splits
      back into them at the dashes. */
  lemma RepoNameWords(words: seq<string>)
    requires Separated(words, ' ') && Separated(words, '-')
    requires forall k, i :: 0 <= k < |words| && 0 <= i < |words[k]| ==> !('A' <= words[k][i] <= 'Z')
    ensures words != [] ==> Split(RepoName(words), '-') == words
  {
    if words != [] {
      DashJoin(words);
      var d := Join(words, "-");
      LowerPlain(d, words);
      JoinSplit(words, '-');
    }
  }

  /** Joining by spaces and turning spaces into dashes joins by dashes. */
  lemma {:induction false} DashJoin(words: seq<string>)
    requires Separated(words, ' ')
    ensures ReplaceChar(Join(words, " "), ' ', '-') == Join(words, "-")
  {
    if |words| == 1 {
      ReplacePlain(words[0]);
    } else if |words| > 1 {
      assert Separated(words[1..], ' ') by {
        assert forall k :: 0 <= k < |words[1..]| ==> words[1..][k] == words[k + 1];
      }
      DashJoin(words[1..]);
      ReplacePlain(words[0]);
      ReplaceCat(words[0] + " ", Join(words[1..], " "));
      ReplaceCat(words[0], " ");
    }
  }

  /** Replacing commutes with concatenation. */
  lemma ReplaceCat(a: string, b: string)
    ensures ReplaceChar(a + b, ' ', '-') == ReplaceChar(a, ' ', '-') + ReplaceChar(b, ' ', '-')
  {
    var l := ReplaceChar(a + b, ' ', '-');
    var r := ReplaceChar(a, ' ', '-') + ReplaceChar(b, ' ', '-');
    assert |l| == |r|;
    assert forall i :: 0 <= i < |l| ==> l[i] == r[i] by {
      forall i | 0 <= i < |l|
        ensures l[i] == r[i]
      {
        if i < |a| {
          assert (a + b)[i] == a[i];
        } else {
          assert (a + b)[i] == b[i - |a|];
        }
      }
    }
  }

  lemma ReplacePlain(w: string)
    requires ' ' !in w
    ensures ReplaceChar(w, ' ', '-') == w
  {
  }

  /** Text without capitals keeps its case. */
  lemma LowerPlain(d: string, words: seq<string>)
    requires d == Join(words, "-")
    requires forall k, i :: 0 <= k < |words| && 0 <= i < |words[k]| ==> !('A' <= words[k][i] <= 'Z')
    ensures ToLower(d) == d
  {
    NoCapitals(words);
  }

  lemma {:induction false} NoCapitals(words: seq<string>)
    requires forall k, i :: 0 <= k < |words| && 0 <= i < |words[k]| ==> !('A' <= words[k][i] <= 'Z')
    ensures forall i :: 0 <= i < |Join(words, "-")| ==> !('A' <= Join(words, "-")[i] <= 'Z')
  {
    if |words| > 1 {
      NoCapitals(words[1..]);
      var a := words[0] + "-";
      var b := Join(words[1..], "-");
      assert Join(words, "-") == a + b;
      assert forall i :: 0 <= i < |a| ==> !('A' <= a[i] <= 'Z');
    }
  }

  /** The URL the remote points at: SSH for the `SSH` protocol, else HTTPS. */
  function RepoUrl(s: Settings, repoName: string): string {
    if s.protocol == "SSH" then "git@github.com:" + s.username + "/" + repoName + ".git"
    else "https://github.com/" + s.username + "/" + repoName + ".git"
  }

  /** The repository's page. */
  function WebUrl(s: Settings, repoName: string): string {
    "https://github.com/" + s.username + "/" + repoName
  }

  /** Over HTTPS the remote is the page with `.git` after it; over SSH it
      names the same path after the host. */
  lemma UrlsAgree(s: Settings, repoName: string)
    ensures s.protocol != "SSH" ==> RepoUrl(s, repoName) == WebUrl(s, repoName) + ".git"
    ensures s.protocol == "SSH" ==>
              RepoUrl(s, repoName) == "git@github.com:" + WebUrl(s, repoName)[19..] + ".git"
  {
    var path := s.username + "/" + repoName;
    assert WebUrl(s, repoName) == "https://github.com/" + path;
    assert |"https://github.com/"| == 19;
    assert WebUrl(s, repoName)[19..] == path;
  }

  /** `checkIfRepoExists`: a repository of that name is in the list. */
  function CheckIfRepoExists(repoName: string, repos: seq<string>): (r: bool)
    ensures r <==> repoName in repos
  {
    CommitTs.FirstIndex(repos, repoName) != -1
  }

  /** The request that creates the repository. */
  datatype RepoRequest = RepoRequest(name: string, description: string, homepage: string, isPrivate: bool)

  /** One thing `initRepo` does, in order. */
  datatype Step =
    | MakeDir(dir: string)
    | ChangeDir(dir: string)
    | Create(request: RepoRequest)
    | Run(command: string)
    | WriteReadme(text: string)
    | Log(line: string)

  /** How `initRepo` ends: a message before anything is made, the list of
      repositories not fetched, or the steps it took; `complete` is false
      when a call threw or rejected and the remaining steps were not
      taken. */
  datatype InitOutcome = Refused(message: string) | ListFailed | Ran(steps: seq<Step>, complete: bool)

  /** Every step once all external calls succeed; `stdout` and `stderr`
      are those of `git remote add`. */
  function AllSteps(s: Settings, words: seq<string>, stderr: string, stdout: string): seq<Step> {
    var repoName := RepoName(words);
    StepsOf(repoName, Description(words), RepoUrl(s, repoName), WebUrl(s, repoName), stderr, stdout)
  }

  /** The steps for a given name, description and pair of URLs. */
  function StepsOf(repoName: string, description: string, repoUrl: string, webUrl: string,
                   stderr: string, stdout: string): seq<Step> {
    [MakeDir(repoName), ChangeDir(repoName),
     Create(RepoRequest(repoName, description, repoUrl, false)),
     Run("git init"),
     WriteReadme("# " + description),
     Run("git add ."), Log("Add"),
     Run("git commit -m \"Initial commit\""), Log("Commit"),
     Run("git remote add origin " + repoUrl), Log(stderr), Log(stdout), Log("Remote"),
     Run("git push -u origin master"),
     Log("Repository created at " + webUrl)]
  }

  /** The number of calls after the checks that can throw or reject:
      `mkdirSync`, `chdir`, the request, `git init`, `writeFileSync` and
      the four later commands. */
  const Calls: nat := 9

  /** How many steps of `AllSteps` are taken up to and including each
      call that can throw or reject. */
  function CallEnd(k: nat): (r: nat)
    requires k < Calls
    ensures k < r <= 14 && r <= k + 6
  {
    [1, 2, 3, 4, 5, 6, 8, 10, 14][k]
  }

  /** The steps in order: folder made and entered, repository created with
      the lowered name, the description and the remote URL, and the last
      line naming the page; each call where `CallEnd` puts it, and only
      printed lines between two calls and after the last. */
  lemma AllStepsShape(s: Settings, words: seq<string>, stderr: string, stdout: string)
    ensures var all := AllSteps(s, words, stderr, stdout);
            var repoName := RepoName(words);
            |all| == 15 && all[0] == MakeDir(repoName) && all[1] == ChangeDir(repoName)
            && all[2] == Create(RepoRequest(repoName, Description(words), RepoUrl(s, repoName), false))
            && all[4] == WriteReadme("# " + Description(words))
            && all[14] == Log("Repository created at " + WebUrl(s, repoName))
            && (forall k :: 0 <= k < Calls ==> !all[CallEnd(k) - 1].Log?)
            && (forall k, i :: 0 <= k < Calls - 1 && CallEnd(k) <= i < CallEnd(k + 1) - 1 ==> all[i].Log?)
            && forall i :: CallEnd(Calls - 1) <= i < |all| ==> all[i].Log?
  {
    var repoName := RepoName(words);
    var description, repoUrl, webUrl := Description(words), RepoUrl(s, repoName), WebUrl(s, repoName);
    StepsOfShape(repoName, description, repoUrl, webUrl, stderr, stdout);
    assert AllSteps(s, words, stderr, stdout) == StepsOf(repoName, description, repoUrl, webUrl, stderr, stdout);
  }

  lemma StepsOfShape(repoName: string, description: string, repoUrl: string, webUrl: string,
                     stderr: string, stdout: string)
    ensures var all := StepsOf(repoName, description, repoUrl, webUrl, stderr, stdout);
            |all| == 15 && all[0] == MakeDir(repoName) && all[1] == ChangeDir(repoName)
            && all[2] == Create(RepoRequest(repoName, description, repoUrl, false))
            && all[4] == WriteReadme("# " + description)
            && all[14] == Log("Repository created at " + webUrl)
            && (forall k :: 0 <= k < Calls ==> !all[CallEnd(k) - 1].Log?)
            && (forall k, i :: 0 <= k < Calls - 1 && CallEnd(k) <= i < CallEnd(k + 1) - 1 ==> all[i].Log?)
            && forall i :: CallEnd(Calls - 1) <= i < |all| ==> all[i].Log?
  {
    CallsAmongLogs(StepsOf(repoName, description, repoUrl, webUrl, stderr, stdout));
  }

  /** Fifteen steps with calls at the positions `CallEnd` names and printed
      lines elsewhere. */
  lemma CallsAmongLogs(all: seq<Step>)
    requires |all| == 15
    requires !all[0].Log? && !all[1].Log? && !all[2].Log? && !all[3].Log? && !all[4].Log?
    requires !all[5].Log? && !all[7].Log? && !all[9].Log? && !all[13].Log?
    requires all[6].Log? && all[8].Log? && all[10].Log? && all[11].Log? && all[12].Log? && all[14].Log?
    ensures forall k :: 0 <= k < Calls ==> !all[CallEnd(k) - 1].Log?
    ensures forall k, i :: 0 <= k < Calls - 1 && CallEnd(k) <= i < CallEnd(k + 1) - 1 ==> all[i].Log?
    ensures forall i :: CallEnd(Calls - 1) <= i < |all| ==> all[i].Log?
  {
    forall k | 0 <= k < Calls
      ensures !all[CallEnd(k) - 1].Log?
    {
      assert CallEnd(k) - 1 in {0, 1, 2, 3, 4, 5, 7, 9, 13};
    }
    forall k, i | 0 <= k < Calls - 1 && CallEnd(k) <= i < CallEnd(k + 1) - 1
      ensures all[i].Log?
    {
      assert i in {6, 8, 10, 11, 12};
    }
  }

  /** `initRepo`: no words is refused; a list request that rejects ends
      the command; an existing repository or folder is refused; otherwise
      the steps through the first call that throws or rejects (`succeeded`
      calls return, in order), all of them when none does. `repos` is the
      list of names, `None` when `GET /user/repos` rejected. */
  function InitRepo(argv: seq<string>, s: Settings, repos: Option<seq<string>>, dirs: set<string>,
                    succeeded: nat, stderr: string, stdout: string): InitOutcome
  {
    var words := NameWords(argv);
    if words == [] then Refused("Please provide a repository name")
    else if repos.None? then ListFailed
    else
      var repoName := RepoName(words);
      if CheckIfRepoExists(repoName, repos.value) then Refused("Repository already exists")
      else if repoName in dirs then Refused("Directory already exists")
      else
        var all := AllSteps(s, words, stderr, stdout);
        if succeeded >= Calls then Ran(all, true)
        else Ran(all[..CallEnd(succeeded)], false)
  }

  /** The refusals, in order, and the run: a prefix of all the steps that
      starts by making the folder, is all of them exactly when every call
      returns, and otherwise ends with the call that threw or rejected. */
  lemma InitRepoOutcome(argv: seq<string>, s: Settings, repos: Option<seq<string>>, dirs: set<string>,
                        succeeded: nat, stderr: string, stdout: string)
    ensures var r := InitRepo(argv, s, repos, dirs, succeeded, stderr, stdout);
            var words := NameWords(argv);
            var repoName := RepoName(words);
            && (|argv| <= 3 ==> r == Refused("Please provide a repository name"))
            && (|argv| > 3 && repos.None? ==> r == ListFailed)
            && (|argv| > 3 && repos.Some? && repoName in repos.value ==> r == Refused("Repository already exists"))
            && (|argv| > 3 && repos.Some? && repoName !in repos.value && repoName in dirs ==>
                  r == Refused("Directory already exists"))
            && (r.Ran? <==> |argv| > 3 && repos.Some? && repoName !in repos.value && repoName !in dirs)
            && (r.Ran? ==> r.steps <= AllSteps(s, words, stderr, stdout) && |r.steps| >= 1
                           && r.steps[0] == MakeDir(repoName)
                           && |r.steps| == (if succeeded >= Calls then 15 else CallEnd(succeeded))
                           && (r.complete <==> succeeded >= Calls)
                           && (r.complete <==> r.steps == AllSteps(s, words, stderr, stdout))
                           && (!r.complete ==> !r.steps[|r.steps| - 1].Log?))
  {
    var words := NameWords(argv);
    if |argv| > 3 {
      assert words != [];
    }
    AllStepsShape(s, words, stderr, stdout);
  }
}
