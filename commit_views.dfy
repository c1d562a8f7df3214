/** The commit menu of the Rust tool: the command-line flags, the choice
    between a fancy (emoji-labelled) and a plain message, and the menu
    routing. Prompt answers are parameters; `None` stands for a prompt that
    failed. */
module CommitViews {
  import opened Text
  import Config

  /** The three flags `commit` understands. */
  datatype CommitOptions = CommitOptions(noPush: bool, skipFancy: bool, forceFancy: bool)

  /** `CommitOptions::new`: each flag is set by its exact argument, wherever
      it is and however often it occurs. */
  method NewCommitOptions(args: seq<string>) returns (o: CommitOptions)
    ensures o.noPush <==> "--no-push" in args
    ensures o.skipFancy <==> "--skip-fancy" in args
    ensures o.forceFancy <==> "--force-fancy" in args
  {
    var noPush, skipFancy, forceFancy := false, false, false;
    var i := 0;
    while i < |args|
      invariant 0 <= i <= |args|
      invariant noPush <==> "--no-push" in args[..i]
      invariant skipFancy <==> "--skip-fancy" in args[..i]
      invariant forceFancy <==> "--force-fancy" in args[..i]
    {
      assert args[..i + 1] == args[..i] + [args[i]];
      var arg := args[i];
      if arg == "--no-push" {
        noPush := true;
      }
      if arg == "--skip-fancy" {
        skipFancy := true;
      }
      if arg == "--force-fancy" {
        forceFancy := true;
      }
      i := i + 1;
    }
    assert args[..i] == args;
    o := CommitOptions(noPush, skipFancy, forceFancy);
  }

  /** The order of the arguments does not matter: options depend only on
      which arguments occur. */
  lemma OptionsIgnoreOrder(a: seq<string>, b: seq<string>)
    requires forall x :: x in a <==> x in b
    ensures ("--no-push" in a <==> "--no-push" in b) && ("--skip-fancy" in a <==> "--skip-fancy" in b)
    ensures "--force-fancy" in a <==> "--force-fancy" in b
  {
  }

  /** Whether the message gets an emoji label: the configured default,
      switched on by `--force-fancy` and then off by `--skip-fancy`. */
  function FancyMode(configFancy: bool, o: CommitOptions): bool {
    var fancy := if o.forceFancy then true else configFancy;
    if o.skipFancy then false else fancy
  }

  /** `--skip-fancy` wins over `--force-fancy`; without either flag the
      configuration decides. */
  lemma FancyModeIff(configFancy: bool, o: CommitOptions)
    ensures FancyMode(configFancy, o) <==> !o.skipFancy && (o.forceFancy || configFancy)
    ensures o.skipFancy ==> !FancyMode(configFancy, o)
    ensures !o.skipFancy && !o.forceFancy ==> FancyMode(configFancy, o) == configFancy
  {
  }

  /** The commit message, or the error printed before `exit(1)`. */
  datatype MessageOutcome = Message(text: string) | Aborted(error: string)

  /** `ask_commit_message`: in fancy mode the chosen label's emoji, a
      space, the message, a blank line and the description; otherwise the
      message alone. The first prompt that fails ends it. */
  method AskCommitMessage(o: CommitOptions, configFancy: bool, icon: Option<Config.CommitLabel>,
                          msg: Option<string>, description: Option<string>) returns (r: MessageOutcome)
    ensures FancyMode(configFancy, o) && icon.Some? && msg.Some? && description.Some? ==>
              r == Message(icon.value.emoji + " " + msg.value + "\n\n" + description.value)
    ensures FancyMode(configFancy, o) && icon.None? ==> r == Aborted("Error getting commit icon")
    ensures FancyMode(configFancy, o) && icon.Some? && msg.None? ==> r == Aborted("Error getting commit message")
    ensures FancyMode(configFancy, o) && icon.Some? && msg.Some? && description.None? ==>
              r == Aborted("Error getting commit description")
    ensures !FancyMode(configFancy, o) && msg.Some? ==> r == Message(msg.value)
    ensures !FancyMode(configFancy, o) && msg.None? ==> r == Aborted("Error getting commit message")
  {
    var message := "";
    var fancy := configFancy;
    if o.forceFancy {
      fancy := true;
    }
    if o.skipFancy {
      fancy := false;
    }
    if fancy {
      if icon.None? {
        return Aborted("Error getting commit icon");
      }
      message := message + icon.value.emoji;
      if msg.None? {
        return Aborted("Error getting commit message");
      }
      message := message + (" " + msg.value);
      if description.None? {
        return Aborted("Error getting commit description");
      }
      message := message + ("\n\n" + description.value);
      assert message == icon.value.emoji + " " + msg.value + "\n\n" + description.value;
    } else {
      if msg.None? {
        return Aborted("Error getting commit message");
      }
      message := msg.value;
    }
    return Message(message);
  }

  /** The subject line git takes from a fancy message is the label's
      display with the message as its name, and the description follows
      after a blank line. */
  lemma FancySubject(emoji: string, msg: string, description: string)
    requires '\n' !in emoji && '\n' !in msg && '\r' !in msg
    ensures var text := emoji + " " + msg + "\n\n" + description;
            |Lines(text)| >= 2 && Lines(text)[0] == Config.LabelDisplay(Config.CommitLabel(msg, emoji))
            && Lines(text)[1] == []
  {
    var line := Config.LabelDisplay(Config.CommitLabel(msg, emoji));
    SubjectLine(emoji, msg);
    FancyText(line, description);
    LinesCons(line, "\n" + description);
    BlankLine(description);
  }

  lemma SubjectLine(emoji: string, msg: string)
    requires '\n' !in emoji && '\n' !in msg && '\r' !in msg
    ensures var line := emoji + " " + msg;
            line == Config.LabelDisplay(Config.CommitLabel(msg, emoji)) && '\n' !in line && StripCR(line) == line
  {
    var line := emoji + " " + msg;
    assert msg != [] ==> line[|line| - 1] == msg[|msg| - 1];
  }

  lemma FancyText(line: string, description: string)
    ensures line + "\n\n" + description == line + "\n" + ("\n" + description)
  {
  }

  lemma BlankLine(description: string)
    ensures Lines("\n" + description) == [[]] + Lines(description)
  {
    LinesCons([], description);
    assert [] + "\n" + description == "\n" + description;
  }

  /** What the menu leads to. */
  datatype MenuRoute = SpecificFiles | AllFiles | InvalidOption

  /** The two entries of the commit menu. */
  function MenuOptions(): seq<string> {
    ["Commit specific files", "Commit all files"]
  }

  /** `commit_menu`'s `match choice`. */
  function RouteOf(choice: string): MenuRoute {
    if choice == "Commit specific files" then SpecificFiles
    else if choice == "Commit all files" then AllFiles
    else InvalidOption
  }

  /** Each menu entry reaches its own handler, so "Invalid option" is
      printed only for an answer the menu does not offer. */
  lemma MenuRoutes(choice: string)
    ensures choice in MenuOptions() ==> RouteOf(choice) != InvalidOption
    ensures RouteOf(MenuOptions()[0]) == SpecificFiles && RouteOf(MenuOptions()[1]) == AllFiles
    ensures RouteOf(choice) != InvalidOption ==> choice in MenuOptions()
  {
  }
}
