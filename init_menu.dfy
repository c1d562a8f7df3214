/** The `init` menu of the TypeScript tool: a folder named after the
    repository (with a counter while the name is taken), a README, the
    request that creates the repository on GitHub, the remote taken from
    the reply, and one shell command that commits and pushes. The answers
    to the three questions, the folders that exist, GitHub's reply and the
    shell's success are parameters. */
module InitMenu {
  import opened Text

  /** `name.replace(/ /g, "-")`: the folder's base name. */
  function FolderBase(name: string): (r: string)
    ensures ' ' !in r && |r| == |name|
  {
    ReplaceChar(name, ' ', '-')
  }

  /** The `k`-th candidate folder: the base, then `base(1)`, `base(2)`, ... */
  function Candidate(base: string, k: nat): string {
    if k == 0 then base else base + "(" + NatToString(k) + ")"
  }

  /** A candidate shows its number between the parentheses. */
  lemma CandidateNumber(base: string, k: nat)
    requires k > 0
    ensures var c := Candidate(base, k);
            c[..|base|] == base && c[|base|] == '(' && c[|c| - 1] == ')' && c[|base| + 1..|c| - 1] == NatToString(k)
  {
  }

  /** Different numbers give different candidates. */
  lemma CandidatesDiffer(base: string, i: nat, j: nat)
    requires i != j
    ensures Candidate(base, i) != Candidate(base, j)
  {
    if i > 0 && j > 0 && Candidate(base, i) == Candidate(base, j) {
      CandidateNumber(base, i);
      CandidateNumber(base, j);
      NatToStringValue(i);
      NatToStringValue(j);
    }
  }

  /** The candidates before the `n`-th. */
  function Tried(base: string, n: nat): set<string> {
    if n == 0 then {} else Tried(base, n - 1) + {Candidate(base, n - 1)}
  }

  lemma {:induction false} NotTried(base: string, n: nat, m: nat)
    requires m >= n
    ensures Candidate(base, m) !in Tried(base, n)
  {
    if n > 0 {
      NotTried(base, n - 1, m);
      CandidatesDiffer(base, n - 1, m);
    }
  }

  /** Trying one more existing candidate leaves fewer untried folders. */
  lemma Shrinks(base: string, existing: set<string>, n: nat)
    requires Tried(base, n) <= existing && Candidate(base, n) in existing
    ensures Tried(base, n + 1) <= existing
    ensures |existing - Tried(base, n + 1)| < |existing - Tried(base, n)|
  {
    NotTried(base, n, n);
    assert existing - Tried(base, n + 1) == (existing - Tried(base, n)) - {Candidate(base, n)};
  }

  /** `k` is the number `getFolderName` settles on: the first candidate
      that does not exist. */
  predicate FirstFree(base: string, existing: set<string>, k: nat) {
    Candidate(base, k) !in existing && forall j :: 0 <= j < k ==> Candidate(base, j) in existing
  }

  /** There is only one first free candidate. */
  lemma FirstFreeUnique(base: string, existing: set<string>, k: nat, m: nat)
    requires FirstFree(base, existing, k) && FirstFree(base, existing, m)
    ensures k == m
  {
  }

  /** The numbered names printed while the first `n` candidates exist. */
  function Numbered(base: string, n: nat): (r: seq<string>)
    ensures |r| == n
  {
    if n == 0 then [] else Numbered(base, n - 1) + [Candidate(base, n)]
  }

  lemma {:induction false} NumberedAt(base: string, n: nat)
    ensures forall j :: 0 <= j < n ==> Numbered(base, n)[j] == Candidate(base, j + 1)
  {
    if n > 0 {
      NumberedAt(base, n - 1);
    }
  }

  lemma {:induction false} TriedAll(base: string, n: nat)
    ensures forall j :: 0 <= j < n ==> Candidate(base, j) in Tried(base, n)
  {
    if n > 0 {
      TriedAll(base, n - 1);
    }
  }

  /** `getFolderName`: try the base and then the numbered names until one
      does not exist, printing each numbered name tried. */
  method GetFolderName(base: string, existing: set<string>) returns (folder: string, printed: seq<string>)
    ensures FirstFree(base, existing, |printed|) && folder == Candidate(base, |printed|)
    ensures forall j :: 0 <= j < |printed| ==> printed[j] == Candidate(base, j + 1)
  {
    folder := base;
    printed := [];
    var i := 1;
    while folder in existing
      invariant i >= 1 && folder == Candidate(base, i - 1) && printed == Numbered(base, i - 1)
      invariant Tried(base, i - 1) <= existing
      decreases |existing - Tried(base, i - 1)|
    {
      Shrinks(base, existing, i - 1);
      folder := Candidate(base, i);
      printed := printed + [folder];
      i := i + 1;
    }
    TriedAll(base, i - 1);
    NumberedAt(base, i - 1);
  }

  /** The README written into the new folder: the name as a heading, then
      the description. */
  function Readme(name: string, description: string): string {
    "# " + name + "\n" + description
  }

  /** A name without a newline is the README's first line, and the
      description the rest. */
  lemma ReadmeLines(name: string, description: string)
    requires '\n' !in name
    ensures var r := Readme(name, description);
            IndexOf(r, '\n') == |name| + 2 && r[..|name| + 2] == "# " + name && r[|name| + 3..] == description
  {
    var r := Readme(name, description);
    assert r == ("# " + name) + ['\n'] + description;
    IndexOfAfter("# " + name, '\n', description);
  }

  /** The body of the `POST /user/repos` request and its token header. */
  datatype RepoRequest = RepoRequest(name: string, description: string, isPrivate: bool, authorization: string)

  /** The request as the source sends it: the body is a constant, whatever
      was answered. */
  function RequestAsWritten(name: string, description: string, privateRepo: bool, key: string): (r: RepoRequest)
    ensures r.authorization == "token " + key
  {
    RepoRequest("super", "super", true, "token " + key)
  }

  /** The answers do not reach GitHub: any two sets of answers send the same
      request. */
  lemma RequestIgnoresAnswers(n1: string, d1: string, p1: bool, n2: string, d2: string, p2: bool, key: string)
    ensures RequestAsWritten(n1, d1, p1, key) == RequestAsWritten(n2, d2, p2, key)
    ensures RequestAsWritten("my-project", "notes", false, key).name != "my-project"
    ensures RequestAsWritten("my-project", "notes", false, key).isPrivate
  {
  }

  /** The request the prompts ask for: the repository's name, description
      and visibility as answered. */
  function Request(name: string, description: string, privateRepo: bool, key: string): (r: RepoRequest)
    ensures r.authorization == "token " + key
  {
    RepoRequest(name, description, privateRepo, "token " + key)
  }

  /** The answers reach GitHub: different answers send different requests. */
  lemma RequestCarriesAnswers(name: string, description: string, privateRepo: bool, key: string)
    ensures var r := Request(name, description, privateRepo, key);
            r.name == name && r.description == description && r.isPrivate == privateRepo
    ensures forall n, d, p :: Request(n, d, p, key) == Request(name, description, privateRepo, key)
              ==> n == name && d == description && p == privateRepo
  {
  }

  /** The reply's URLs; a field the reply lacks is `None`. */
  datatype RepoReply = RepoReply(sshUrl: Option<string>, cloneUrl: Option<string>)

  /** A template string shows a missing field as `undefined`. */
  function Shown(v: Option<string>): string {
    if v.Some? then v.value else "undefined"
  }

  /** The remote: the SSH URL for the `SSH` protocol setting, else the
      HTTPS clone URL. */
  function Remote(protocol: string, reply: RepoReply): (r: string)
    ensures protocol == "SSH" ==> r == Shown(reply.sshUrl)
    ensures protocol != "SSH" ==> r == Shown(reply.cloneUrl)
  {
    if protocol == "SSH" then Shown(reply.sshUrl) else Shown(reply.cloneUrl)
  }

  /** The command that makes the first commit and pushes it. */
  function InitCommand(remote: string): string {
    "git init && git add . && git commit -m \"Initial commit\" && git remote add origin " + remote + " && git push -u origin master"
  }

  /** The remote sits between the fixed front and back of the command, so
      it reads back from it. */
  lemma InitCommandRemote(remote: string)
    ensures var c := InitCommand(remote);
            var front := "git init && git add . && git commit -m \"Initial commit\" && git remote add origin ";
            c[..|front|] == front && c[|front|..|c| - 29] == remote && c[|c| - 29..] == " && git push -u origin master"
  {
    Between("git init && git add . && git commit -m \"Initial commit\" && git remote add origin ", remote, " && git push -u origin master");
  }

  /** What `showInitMenu` did: the folder it chose, the numbered names it
      printed, whether the folder was made, the README written (`None`
      when a file-system call threw first), the request sent (`None` when
      none was), the command run (`None` when none ran) and whether it
      ended with the success message. */
  datatype InitRun = InitRun(folder: string, printed: seq<string>, made: bool, readme: Option<string>,
                             request: Option<RepoRequest>, command: Option<string>, succeeded: bool)

  /** `showInitMenu` after the questions: folder, README, request, remote,
      command. `mkdirOk`, `chdirOk` and `writeOk` say whether `mkdirSync`,
      `chdir` and `writeFileSync` returned rather than threw; a throw, a
      missing or unreadable reply or a failing command ends in the
      `catch` with the spinner's failure mark, and nothing after it runs.
      `asWritten` selects the request as sent or as the prompts ask for. */
  method ShowInitMenu(name: string, description: string, privateRepo: bool, key: string, protocol: string,
                      existing: set<string>, mkdirOk: bool, chdirOk: bool, writeOk: bool,
                      reply: Option<RepoReply>, gitOk: bool, asWritten: bool)
    returns (r: InitRun)
    ensures FirstFree(FolderBase(name), existing, |r.printed|) && r.folder == Candidate(FolderBase(name), |r.printed|)
    ensures forall j :: 0 <= j < |r.printed| ==> r.printed[j] == Candidate(FolderBase(name), j + 1)
    ensures r.made <==> mkdirOk
    ensures r.readme == if mkdirOk && chdirOk && writeOk then Some(Readme(name, description)) else None
    ensures r.request == if !(mkdirOk && chdirOk && writeOk) then None
                         else if asWritten then Some(RequestAsWritten(name, description, privateRepo, key))
                         else Some(Request(name, description, privateRepo, key))
    ensures r.command == if !(mkdirOk && chdirOk && writeOk) || reply.None? then None
                         else Some(InitCommand(Remote(protocol, reply.value)))
    ensures r.succeeded <==> mkdirOk && chdirOk && writeOk && reply.Some? && gitOk
  {
    var folder, printed := GetFolderName(FolderBase(name), existing);
    if !mkdirOk {
      return InitRun(folder, printed, false, None, None, None, false);
    }
    if !chdirOk || !writeOk {
      return InitRun(folder, printed, true, None, None, None, false);
    }
    var readme := Readme(name, description);
    var request := if asWritten then RequestAsWritten(name, description, privateRepo, key)
                   else Request(name, description, privateRepo, key);
    if reply.None? {
      return InitRun(folder, printed, true, Some(readme), Some(request), None, false);
    }
    var command := InitCommand(Remote(protocol, reply.value));
    r := InitRun(folder, printed, true, Some(readme), Some(request), Some(command), gitOk);
  }
}
