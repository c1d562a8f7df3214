/** Start-up checks of the git installation: the version reported by
    `git --version` against the minimum 2.20.0, the per-distribution install
    hint on Linux, the error texts, and the `user.name` / `user.email` check.
    Every `git` run is replaced by its exit status and its standard output. */
module GitCheck {
  import opened Text

  const MinGitVersion: string := "2.20.0"

  datatype GitError = NotInstalled | VersionNotSupported(current: string, min: string)

  /** `Result<(), GitError>`. */
  datatype GitStatus = GitOk | GitErr(error: GitError)

  /** Every piece parsed as a `u32`; `None` when some piece does not parse,
      where each `parse().unwrap()` of the source panics. */
  function ParseParts(parts: seq<string>): (r: Option<seq<nat>>)
    ensures r.Some? ==> |r.value| == |parts|
  {
    if parts == [] then Some([])
    else
      match ParseUnsigned(parts[0], 0x1_0000_0000)
      case None => None
      case Some(n) =>
        match ParseParts(parts[1..])
        case None => None
        case Some(ns) => Some([n] + ns)
  }

  /** The components are the pieces' values, and the parse fails exactly
      when some piece is not a `u32`. */
  lemma {:induction false} ParsePartsMeaning(parts: seq<string>)
    ensures var r := ParseParts(parts);
            r.Some? ==> forall k :: 0 <= k < |parts| ==> ParseUnsigned(parts[k], 0x1_0000_0000) == Some(r.value[k])
    ensures ParseParts(parts).None? <==> exists k :: 0 <= k < |parts| && ParseUnsigned(parts[k], 0x1_0000_0000).None?
  {
    if parts != [] {
      ParsePartsMeaning(parts[1..]);
      assert forall k :: 1 <= k < |parts| ==> parts[k] == parts[1..][k - 1];
      if ParseUnsigned(parts[0], 0x1_0000_0000).None? {
        assert ParseUnsigned(parts[0], 0x1_0000_0000).None?;
      } else if ParseParts(parts[1..]).None? {
        var k :| 0 <= k < |parts[1..]| && ParseUnsigned(parts[1..][k], 0x1_0000_0000).None?;
        assert ParseUnsigned(parts[k + 1], 0x1_0000_0000).None?;
      }
    }
  }

  /** Lexicographic `>=` on version components of equal length. */
  predicate LexGe(a: seq<nat>, b: seq<nat>)
    requires |a| == |b|
  {
    a == [] || a[0] > b[0] || (a[0] == b[0] && LexGe(a[1..], b[1..]))
  }

  /** The first differing component decides, and equal versions compare `>=`. */
  lemma {:induction false} LexGeFirstDifference(a: seq<nat>, b: seq<nat>)
    requires |a| == |b|
    ensures LexGe(a, b) <==> (a == b || exists k :: 0 <= k < |a| && a[..k] == b[..k] && a[k] > b[k])
  {
    if a != [] {
      LexGeFirstDifference(a[1..], b[1..]);
      if a[0] == b[0] {
        if a[1..] != b[1..] && LexGe(a[1..], b[1..]) {
          var k :| 0 <= k < |a| - 1 && a[1..][..k] == b[1..][..k] && a[1..][k] > b[1..][k];
          assert a[..k + 1] == [a[0]] + a[1..][..k];
          assert b[..k + 1] == [b[0]] + b[1..][..k];
        }
        if a == b {
          assert a[1..] == b[1..];
        }
        if (exists k :: 0 <= k < |a| && a[..k] == b[..k] && a[k] > b[k]) {
          var k :| 0 <= k < |a| && a[..k] == b[..k] && a[k] > b[k];
          assert k > 0;
          assert a[1..][..k - 1] == a[1..k] && b[1..][..k - 1] == b[1..k];
          assert a[1..k] == a[..k][1..];
        }
        if a[1..] == b[1..] {
          assert a == [a[0]] + a[1..] && b == [b[0]] + b[1..];
        }
      } else if a[0] > b[0] {
        assert a[..0] == b[..0];
      } else {
        assert forall k :: 0 < k <= |a| ==> a[..k][0] == a[0] && b[..k][0] == b[0];
      }
    }
  }

  lemma {:induction false} LexGeSkip(a: seq<nat>, b: seq<nat>, i: nat)
    requires |a| == |b| && i <= |a| && a[..i] == b[..i]
    ensures LexGe(a, b) == LexGe(a[i..], b[i..])
    decreases i
  {
    if i > 0 {
      assert a[0] == a[..i][0] && b[0] == b[..i][0];
      assert a[1..][..i - 1] == a[1..i] == a[..i][1..];
      assert b[1..][..i - 1] == b[1..i] == b[..i][1..];
      LexGeSkip(a[1..], b[1..], i - 1);
      assert a[1..][i - 1..] == a[i..];
      assert b[1..][i - 1..] == b[i..];
    }
  }

  /** The `for` loop comparing the three components with early returns. */
  method VersionAtLeast(version: seq<nat>, min: seq<nat>) returns (ok: bool)
    requires |version| == 3 && |min| == 3
    ensures ok == LexGe(version, min)
  {
    for i := 0 to 3
      invariant version[..i] == min[..i]
    {
      if version[i] < min[i] {
        LexGeSkip(version, min, i);
        assert version[i..][0] == version[i] && min[i..][0] == min[i];
        return false;
      } else if version[i] > min[i] {
        LexGeSkip(version, min, i);
        assert version[i..][0] == version[i] && min[i..][0] == min[i];
        return true;
      }
      assert version[..i + 1] == version[..i] + [version[i]];
      assert min[..i + 1] == min[..i] + [min[i]];
    }
    LexGeSkip(version, min, 3);
    return true;
  }

  /** Each number rendered in decimal, as `git --version` prints the components. */
  function Rendered(ns: seq<nat>): (r: seq<string>)
    ensures |r| == |ns| && forall k :: 0 <= k < |ns| ==> r[k] == NatToString(ns[k])
  {
    if ns == [] then [] else [NatToString(ns[0])] + Rendered(ns[1..])
  }

  /** Rendered components below 2^32 parse back to the same numbers. */
  lemma {:induction false} ParseRenderedParts(ns: seq<nat>)
    requires forall k :: 0 <= k < |ns| ==> ns[k] < 0x1_0000_0000
    ensures ParseParts(Rendered(ns)) == Some(ns)
  {
    if ns != [] {
      ParseRendered(ns[0], 0x1_0000_0000);
      ParseRenderedParts(ns[1..]);
      ParsePartsCons(NatToString(ns[0]), Rendered(ns[1..]), ns[0], ns[1..]);
      assert ns == [ns[0]] + ns[1..];
    }
  }

  /** One parsed piece in front of parsed pieces. */
  lemma ParsePartsCons(p: string, rest: seq<string>, n: nat, ns: seq<nat>)
    requires ParseUnsigned(p, 0x1_0000_0000) == Some(n) && ParseParts(rest) == Some(ns)
    ensures ParseParts([p] + rest) == Some([n] + ns)
  {
    assert ([p] + rest)[1..] == rest;
  }

  /** The minimum version splits into three components. */
  lemma MinVersionSplit()
    ensures Split(MinGitVersion, '.') == ["2", "20", "0"]
  {
    assert Join(["2", "20", "0"], ".") == MinGitVersion;
    JoinSplit(["2", "20", "0"], '.');
  }

  lemma MinVersionRendered()
    ensures Rendered([2, 20, 0]) == ["2", "20", "0"]
  {
    assert NatToString(20) == "20";
  }

  /** The minimum version parses to its three components. */
  lemma MinVersionParts()
    ensures ParseParts(Split(MinGitVersion, '.')) == Some([2, 20, 0])
  {
    MinVersionSplit();
    MinComponentsParse();
  }

  lemma MinComponentsParse()
    ensures ParseParts(["2", "20", "0"]) == Some([2, 20, 0])
  {
    MinVersionRendered();
    ParseRenderedParts([2, 20, 0]);
  }

  /** `validate_git_install` given the status and output of `git --version`. */
  function GitInstallStatus(success: bool, stdout: string): Checked<GitStatus> {
    if !success then Returns(GitErr(NotInstalled))
    else
      var s := Trim(stdout);
      if s == [] then Returns(GitErr(NotInstalled))
      else
        var version := Last(Split(s, ' '));
        match ParseParts(Split(version, '.'))
        case None => Panics
        case Some(v) =>
          if |v| == 3 && LexGe(v, [2, 20, 0]) then Returns(GitOk)
          else Returns(GitErr(VersionNotSupported(version, MinGitVersion)))
  }

  /** `validate_git_install`. */
  method ValidateGitInstall(success: bool, stdout: string) returns (r: Checked<GitStatus>)
    ensures r == GitInstallStatus(success, stdout)
  {
    if !success {
      return Returns(GitErr(NotInstalled));
    }
    var s := Trim(stdout);
    if |s| == 0 {
      return Returns(GitErr(NotInstalled));
    }
    var version := Last(Split(s, ' '));
    var parsed := ParseParts(Split(version, '.'));
    if parsed.None? {
      return Panics;
    }
    var versionParts := parsed.value;
    MinVersionParts();
    var minParts := ParseParts(Split(MinGitVersion, '.')).value;
    if |versionParts| != 3 || |minParts| != 3 {
      return Returns(GitErr(VersionNotSupported(version, MinGitVersion)));
    }
    var ok := VersionAtLeast(versionParts, minParts);
    if ok {
      return Returns(GitOk);
    }
    return Returns(GitErr(VersionNotSupported(version, MinGitVersion)));
  }

  /** NotInstalled exactly when git failed or printed only whitespace. */
  lemma NotInstalledIff(success: bool, stdout: string)
    ensures GitInstallStatus(success, stdout) == Returns(GitErr(NotInstalled))
            <==> !success || Trim(stdout) == []
  {
  }

  /** A run that has output and parses is accepted exactly when it has three
      components at least 2.20.0; otherwise it is refused with the reported
      version and the minimum. */
  lemma SupportedIff(stdout: string)
    requires Trim(stdout) != []
    ensures var version := Last(Split(Trim(stdout), ' '));
            var parsed := ParseParts(Split(version, '.'));
            parsed.Some? ==>
              && (GitInstallStatus(true, stdout) == Returns(GitOk)
                  <==> |parsed.value| == 3 && LexGe(parsed.value, [2, 20, 0]))
              && (GitInstallStatus(true, stdout) != Returns(GitOk)
                  ==> GitInstallStatus(true, stdout) == Returns(GitErr(VersionNotSupported(version, "2.20.0"))))
  {
  }

  lemma GitVersionWords(version: string)
    ensures "git version " + version == "git" + [' '] + ("version" + [' '] + version)
  {
    var w := "version" + [' '];
    assert "git version " == "git" + [' '] + w;
    assert "git version " + version == "git" + [' '] + (w + version);
  }

  /** The version word of `git version X.Y.Z` output. */
  lemma VersionWords(version: string)
    requires version != [] && IsDigit(version[0]) && IsDigit(version[|version| - 1]) && ' ' !in version
    ensures var out := "git version " + version;
            Trim(out) == out && Trim(out + "\n") == out && Last(Split(Trim(out), ' ')) == version
  {
    TrimClean("git version " + version);
    VersionLastWord(version);
  }

  lemma VersionLastWord(version: string)
    requires ' ' !in version
    ensures Last(Split("git version " + version, ' ')) == version
  {
    GitVersionWords(version);
    assert ' ' !in "git" && ' ' !in "version";
    SplitThree("git", "version", version, ' ');
  }

  /** Output `git version V` is accepted exactly when `V` has three
      components at least 2.20.0, and refused with `V` as printed otherwise. */
  lemma VersionStatus(version: string, ns: seq<nat>)
    requires version != [] && IsDigit(version[0]) && IsDigit(version[|version| - 1]) && ' ' !in version
    requires ParseParts(Split(version, '.')) == Some(ns)
    ensures GitInstallStatus(true, "git version " + version)
            == if |ns| == 3 && LexGe(ns, [2, 20, 0]) then Returns(GitOk)
               else Returns(GitErr(VersionNotSupported(version, MinGitVersion)))
  {
    VersionWords(version);
    StatusOfParsed("git version " + version, version, ns);
  }

  /** The same with the newline `git --version` ends its output with. */
  lemma VersionStatusNewline(version: string, ns: seq<nat>)
    requires version != [] && IsDigit(version[0]) && IsDigit(version[|version| - 1]) && ' ' !in version
    requires ParseParts(Split(version, '.')) == Some(ns)
    ensures GitInstallStatus(true, "git version " + version + "\n")
            == if |ns| == 3 && LexGe(ns, [2, 20, 0]) then Returns(GitOk)
               else Returns(GitErr(VersionNotSupported(version, MinGitVersion)))
  {
    VersionWords(version);
    StatusOfParsed("git version " + version + "\n", version, ns);
  }

  /** Rendered components joined by `.` parse back to the components. */
  lemma VersionComponents(version: string, ns: seq<nat>)
    requires version == Join(Rendered(ns), ".")
    requires ns != [] && forall k :: 0 <= k < |ns| ==> ns[k] < 0x1_0000_0000
    ensures ParseParts(Split(version, '.')) == Some(ns)
  {
    RenderedNoDot(ns);
    JoinSplit(Rendered(ns), '.');
    ParseRenderedParts(ns);
  }

  /** The status once the version word and its components are known. */
  lemma StatusOfParsed(out: string, version: string, ns: seq<nat>)
    requires Trim(out) != [] && Last(Split(Trim(out), ' ')) == version
    requires ParseParts(Split(version, '.')) == Some(ns)
    ensures GitInstallStatus(true, out)
            == if |ns| == 3 && LexGe(ns, [2, 20, 0]) then Returns(GitOk)
               else Returns(GitErr(VersionNotSupported(version, MinGitVersion)))
  {
  }

  /** The rendered version `a.b.c` as `git --version` prints it. */
  function VersionText(ns: seq<nat>): string {
    Join(Rendered(ns), ".")
  }

  /** A rendered version is digits and dots, starting and ending with a digit. */
  lemma {:induction false} VersionTextShape(ns: seq<nat>)
    requires ns != []
    ensures var v := VersionText(ns);
            v != [] && IsDigit(v[0]) && IsDigit(v[|v| - 1])
            && forall i :: 0 <= i < |v| ==> IsDigit(v[i]) || v[i] == '.'
  {
    var v := VersionText(ns);
    var p := NatToString(ns[0]);
    if |ns| == 1 {
      assert v == p;
    } else {
      VersionTextShape(ns[1..]);
      assert Rendered(ns)[1..] == Rendered(ns[1..]);
      var w := VersionText(ns[1..]);
      assert v == p + "." + w;
      assert v[|v| - 1] == w[|w| - 1];
      assert forall i :: |p| + 1 <= i < |v| ==> v[i] == w[i - |p| - 1];
    }
  }

  /** Any printed three-component version of `u32`s is accepted exactly
      when it is at least 2.20.0, and refused with the printed version
      otherwise. */
  lemma ThreeComponentStatus(ns: seq<nat>)
    requires |ns| == 3 && forall k :: 0 <= k < |ns| ==> ns[k] < 0x1_0000_0000
    ensures GitInstallStatus(true, "git version " + VersionText(ns) + "\n")
            == if LexGe(ns, [2, 20, 0]) then Returns(GitOk)
               else Returns(GitErr(VersionNotSupported(VersionText(ns), MinGitVersion)))
  {
    VersionTextShape(ns);
    VersionComponents(VersionText(ns), ns);
    VersionStatusNewline(VersionText(ns), ns);
  }

  /** A rendered component holds no `.`. */
  lemma RenderedNoDot(ns: seq<nat>)
    ensures forall k :: 0 <= k < |ns| ==> '.' !in Rendered(ns)[k]
  {
    forall k | 0 <= k < |ns|
      ensures '.' !in Rendered(ns)[k]
    {
      var p := NatToString(ns[k]);
      assert forall i :: 0 <= i < |p| ==> p[i] != '.';
    }
  }

  lemma Components245()
    ensures ParseParts(Split("2.45", '.')) == Some([2, 45])
  {
    assert NatToString(45) == "45";
    assert Rendered([2, 45]) == ["2", "45"];
    VersionComponents("2.45", [2, 45]);
  }

  /** A two-component version is refused without comparing it. */
  lemma ShortVersionRefused()
    ensures GitInstallStatus(true, "git version " + "2.45") == Returns(GitErr(VersionNotSupported("2.45", "2.20.0")))
  {
    Components245();
    VersionStatus("2.45", [2, 45]);
  }

  /** Output whose last word is no version (it starts with neither a digit
      nor `+` and holds no `.`) makes the parse of that word panic. */
  lemma TrailingWordPanics(p: string, w: string)
    requires p != [] && !IsWhitespace(p[0])
    requires w != [] && ' ' !in w && '.' !in w && !IsWhitespace(w[|w| - 1]) && !IsDigit(w[0]) && w[0] != '+'
    ensures GitInstallStatus(true, p + " " + w) == Panics
  {
    var out := p + " " + w;
    assert out[0] == p[0] && out[|out| - 1] == w[|w| - 1];
    TrimClean(out);
    SplitLast(p, ' ', w);
    SplitWithout(w, '.');
    NoVersionWord(w);
  }

  lemma NoVersionWord(w: string)
    requires w != [] && !IsDigit(w[0]) && w[0] != '+'
    ensures ParseParts([w]) == None
  {
    assert ParseUnsigned(w, 0x1_0000_0000) == None;
  }

  /** Apple's git prints "git version 2.39.3 (Apple Git-145)": the last word
      is "Git-145)" and parsing it panics. */
  lemma AppleVersionPanics()
    ensures GitInstallStatus(true, "git version 2.39.3 (Apple" + " " + "Git-145)") == Panics
  {
    TrailingWordPanics("git version 2.39.3 (Apple", "Git-145)");
  }

  /** The distribution's package-manager command, if it has one. */
  function InstallCommand(distro: string): (r: Option<string>)
    ensures r.Some? <==> distro in {"ubuntu", "debian", "fedora", "centos", "rhel", "arch", "manjaro", "alpine"}
  {
    match distro
    case "ubuntu" => Some("sudo apt install git")
    case "debian" => Some("sudo apt install git")
    case "fedora" => Some("sudo dnf install git")
    case "centos" => Some("sudo dnf install git")
    case "rhel" => Some("sudo dnf install git")
    case "arch" => Some("sudo pacman -S git")
    case "manjaro" => Some("sudo pacman -S git")
    case "alpine" => Some("apk add git")
    case _ => None
  }

  /** The distribution families share one command each. */
  lemma InstallCommandFamilies()
    ensures InstallCommand("ubuntu") == InstallCommand("debian") == Some("sudo apt install git")
    ensures InstallCommand("fedora") == InstallCommand("centos") == InstallCommand("rhel") == Some("sudo dnf install git")
    ensures InstallCommand("arch") == InstallCommand("manjaro") == Some("sudo pacman -S git")
    ensures InstallCommand("alpine") == Some("apk add git")
    ensures InstallCommand("\"centos\"") == None
  {
  }

  /** The first line with the given prefix (`lines().find(starts_with)`). */
  function FindLine(lines: seq<string>, prefix: string): (r: Option<string>)
    ensures r.Some? ==> r.value in lines && StartsWith(r.value, prefix)
    ensures r.Some? ==> exists k :: (0 <= k < |lines| && lines[k] == r.value
                                     && forall j :: 0 <= j < k ==> !StartsWith(lines[j], prefix))
    ensures r.None? <==> forall k :: 0 <= k < |lines| ==> !StartsWith(lines[k], prefix)
  {
    if lines == [] then None
    else if StartsWith(lines[0], prefix) then Some(lines[0])
    else
      var r := FindLine(lines[1..], prefix);
      assert forall k :: 1 <= k < |lines| ==> lines[k] == lines[1..][k - 1];
      if r.Some? then
        var k :| 0 <= k < |lines[1..]| && lines[1..][k] == r.value
                 && forall j :: 0 <= j < k ==> !StartsWith(lines[1..][j], prefix);
        assert lines[k + 1] == r.value;
        r
      else r
  }

  /** The hint when the distribution is unknown or /etc/os-release is unreadable. */
  function GenericLinuxHint(): string {
    "\n" + Spaces(12) + "$b$cr `error`: $b `git` is not installed.\n"
    + Spaces(12) + "\n"
    + Spaces(12) + "You can download it from the official website:\n"
    + Spaces(12) + "$b ` `$u `https://git-scm.com/download/linux`\n"
    + Spaces(12)
  }

  /** The hint naming a package-manager command. */
  function PackageManagerHint(cmd: string): string {
    "\n" + Spaces(8) + "$b$cr `error`: $b `git` is not installed.\n"
    + "\n"
    + Spaces(8) + "You can install it using your package manager:\n"
    + Spaces(8) + "$i ` " + cmd + "`\n"
    + "\n"
    + Spaces(8) + "Or you can download it from the official website:\n"
    + Spaces(8) + "$b ` `$u `https://git-scm.com/download/linux`\n"
    + Spaces(8)
  }

  /** Which of the two hints `get_git_installation_instructions` gives. */
  datatype InstallHint = GenericHint | PackageManager(cmd: string)

  function HintText(h: InstallHint): string {
    match h
    case GenericHint => GenericLinuxHint()
    case PackageManager(cmd) => PackageManagerHint(cmd)
  }

  /** The hint chosen from the contents of /etc/os-release (`None` when it
      cannot be read): the value after the last `=` of the first `ID=` line
      picks the command; no such line panics. */
  function InstallHintFor(osRelease: Option<string>): (r: Checked<InstallHint>)
    ensures osRelease.None? ==> r == Returns(GenericHint)
    ensures osRelease.Some? && FindLine(Lines(osRelease.value), "ID=").None? ==> r == Panics
    ensures osRelease.Some? && FindLine(Lines(osRelease.value), "ID=").Some? ==>
              var distro := Last(Split(FindLine(Lines(osRelease.value), "ID=").value, '='));
              r == Returns(if InstallCommand(distro).Some? then PackageManager(InstallCommand(distro).value)
                           else GenericHint)
  {
    match osRelease
    case None => Returns(GenericHint)
    case Some(text) =>
      match FindLine(Lines(text), "ID=")
      case None => Panics
      case Some(line) =>
        match InstallCommand(Last(Split(line, '=')))
        case Some(cmd) => Returns(PackageManager(cmd))
        case None => Returns(GenericHint)
  }

  /** `get_git_installation_instructions` on Linux. */
  function InstallInstructions(osRelease: Option<string>): (r: Checked<string>)
    ensures InstallHintFor(osRelease).Panics? <==> r.Panics?
    ensures r.Returns? ==> r.value == HintText(InstallHintFor(osRelease).value)
  {
    match InstallHintFor(osRelease)
    case Panics => Panics
    case Returns(h) => Returns(HintText(h))
  }

  /** A first line `ID=<distro>` decides the hint by the distribution. */
  lemma IdLineDecides(distro: string, rest: string)
    requires '\n' !in distro && '=' !in distro && (distro == [] || distro[|distro| - 1] != '\r')
    ensures InstallHintFor(Some("ID=" + distro + "\n" + rest))
            == Returns(if InstallCommand(distro).Some? then PackageManager(InstallCommand(distro).value) else GenericHint)
  {
    var line := "ID=" + distro;
    assert line[|line| - 1] != '\r';
    LinesCons(line, rest);
    assert StartsWith(line, "ID=");
    assert line == "ID" + ['='] + distro;
    SplitTwo("ID", distro, '=');
  }

  /** A first line that is not an `ID=` line is passed over. */
  lemma OtherLineSkipped(line: string, rest: string)
    requires '\n' !in line && !StartsWith(StripCR(line), "ID=")
    ensures InstallHintFor(Some(line + "\n" + rest)) == InstallHintFor(Some(rest))
  {
    LinesCons(line, rest);
  }

  /** An Ubuntu os-release picks apt. */
  lemma UbuntuInstructions()
    ensures InstallHintFor(Some("NAME=Ubuntu" + "\n" + ("ID=" + "ubuntu" + "\n" + "VERSION_ID=22.04")))
            == Returns(PackageManager("sudo apt install git"))
  {
    assert StripCR("NAME=Ubuntu") == "NAME=Ubuntu";
    assert "NAME=Ubuntu"[0] != "ID="[0];
    OtherLineSkipped("NAME=Ubuntu", "ID=" + "ubuntu" + "\n" + "VERSION_ID=22.04");
    IdLineDecides("ubuntu", "VERSION_ID=22.04");
  }

  /** A quoted ID, as CentOS writes it, names no known distribution. */
  lemma QuotedIdInstructions()
    ensures InstallHintFor(Some("ID=" + "\"centos\"" + "\n" + "VERSION_ID=\"7\"")) == Returns(GenericHint)
  {
    IdLineDecides("\"centos\"", "VERSION_ID=\"7\"");
  }

  /** An os-release without an ID line makes the lookup panic. */
  lemma MissingIdPanics()
    ensures InstallHintFor(Some("NAME=Nix")) == Panics
  {
    LinesSingle("NAME=Nix");
    assert !StartsWith("NAME=Nix", "ID=");
  }

  /** `GitError::to_string`, given the install hint of the platform. */
  function ErrorMessage(e: GitError, hint: string): string {
    match e
    case NotInstalled =>
      "\n" + Spaces(20) + "$b$cr `error`: $b `git` is not installed.\n"
      + Spaces(20) + "\n"
      + Spaces(20) + hint
    case VersionNotSupported(current, min) =>
      VersionHead() + min + VersionMiddle() + current + "\n\n" + Spaces(20) + hint + "\n" + Spaces(16)
  }

  function VersionHead(): string {
    "\n" + Spaces(20) + "$b$cr `error`: $b `git` version not supported.\n"
    + Spaces(20) + "You need at least version "
  }

  function VersionMiddle(): string {
    ", you are currently using version "
  }

  /** The version message names the minimum first and the current version second. */
  lemma MinimumBeforeCurrent(current: string, min: string, hint: string)
    ensures var m := ErrorMessage(VersionNotSupported(current, min), hint);
            var k := |VersionHead()|;
            At(m, k, min) && At(m, k + |min| + |VersionMiddle()|, current)
  {
    var m := ErrorMessage(VersionNotSupported(current, min), hint);
    var k := |VersionHead()|;
    assert m[k..k + |min|] == min;
    assert m[k + |min| + |VersionMiddle()|..k + |min| + |VersionMiddle()| + |current|] == current;
  }

  datatype GitConfigStatus = ConfigOk | NameNotFound | EmailNotFound

  /** `check_git_config` given the runs of `git config user.name` and
      `git config user.email`: the name is checked first. */
  function CheckGitConfig(nameOk: bool, name: string, emailOk: bool, email: string): (r: GitConfigStatus)
    ensures r == NameNotFound <==> !nameOk || Trim(name) == []
    ensures r == EmailNotFound <==> nameOk && Trim(name) != [] && (!emailOk || Trim(email) == [])
    ensures r == ConfigOk <==> nameOk && Trim(name) != [] && emailOk && Trim(email) != []
  {
    if !nameOk || |Trim(name)| == 0 then NameNotFound
    else if !emailOk || |Trim(email)| == 0 then EmailNotFound
    else ConfigOk
  }
}
