# tiny-git-helper, modelled in Dafny

tiny-git-helper (`tgh`) is a command-line helper that wraps everyday Git and
GitHub work behind interactive terminal menus. It exists in two halves: a Rust
program and an older TypeScript program. This project models the logic of both
halves that can be stated without a terminal, a network or a subprocess, and
proves what that logic promises.

From the Rust program it models:

- the raw-mode line editor behind the text and password prompts (`LineEditor`,
  a class `Editor` holding the buffer and the cursor, one method per key);
- the inline markup printer and its effect stack (`Markup`);
- the SGR colour wrappers (`Out`);
- the git version check, the Linux install hints and the `user.name` and
  `user.email` check (`GitCheck`);
- the stored configuration: its enums, the validation, the token check and
  update, the paths, the metadata fallback, the daily update check, the
  commit labels, and the two replies of the OAuth device flow (`Config`);
- `git status -s` parsing, the commit steps and their success text (`CommitFiles`);
- the commit menu's flags and message building (`CommitViews`);
- the shared file-selection validator (`Selection`);
- the `diff` command (`Diff`) and the `history` command (`History`).

From the TypeScript program it models:

- the commit menu (`CommitTs`);
- the console spinner (`Spinner`, a class holding the frame counter and the
  row count it updates);
- the branch-name prompt (`BranchName`) and the commit-message prompt (`CommitMessage`);
- the prompts that ask again until an answer validates (`Prompt`);
- the `init` menu (`InitMenu`) and the `init` command (`InitRepo`);
- the clone menu (`CloneMenu`, a class `Clone` holding the list that `listRepos` rebuilds).

`Text` holds the string primitives both halves use: trim, split, join,
replace, and decimal rendering and parsing.

Every `git` run, prompt answer, file read, HTTP reply and clock reading is a
parameter: its output, exit status or value is passed in. A Rust `unwrap` or
`expect` that can fail on such an input, or a JavaScript index past the end
that would throw, is modelled as an explicit `Panics` outcome rather than
excluded by a precondition.

`history` prints its lines directly, and the markup `printer` returns
nothing.

## Model

| member | source | states |
|---|---|---|
| Out.Sgr | src/utils/out.rs:33-61 | every wrapper opens with `ESC [ params m`: three characters around the parameters, starting with ESC and `[`, ending with `m` |
| Out.Wrap | src/utils/out.rs:33-61 | a wrapped message is the opening sequence, the message and the three-character reset |
| Out.Unwrap | src/utils/out.rs:33-61 | whatever it reads back is exactly the message the text wraps |
| Out.UnwrapWrap | src/utils/out.rs:33-61 | round trip: unwrapping a wrapped message gives the message back |
| Out.WrapInjective | src/utils/out.rs:33-61 | one wrapper around two messages gives the same text only for the same message |
| Out.FormatsRecoverMessage | src/utils/out.rs:33-47 | each of the four formatters is its fixed SGR prefix, the message verbatim and the reset |
| Out.ErrorRecovers | src/utils/out.rs:33-35 | `format_error` is bold red (`1;31`) and the message reads back from it |
| Out.SuccessRecovers | src/utils/out.rs:37-39 | `format_success` is bold green (`1;32`) and the message reads back from it |
| Out.DimRecovers | src/utils/out.rs:41-43 | `format_dim` is faint (`2`) and the message reads back from it |
| Out.BoldRecovers | src/utils/out.rs:45-47 | `format_bold` is bold (`1`) and the message reads back from it |
| Out.ErrorIsNotSuccess | src/utils/out.rs:33-39 | an error text is never a success text, whatever the two messages |
| Out.ColorCode | src/utils/out.rs:49-59 | every colour's SGR foreground code lies between 30 and 37 |
| Out.ColorCodesDistinct | src/utils/out.rs:49-59 | two colours have the same code exactly when they are the same colour |
| Out.FormatColorRecovers | src/utils/out.rs:49-62 | the colour's code reads back from characters 2-3 of the text, and the message from inside the wrapper |
| Out.ClearScreen | src/utils/out.rs:20-23 | `clear_screen` writes ED 2 (`ESC[2J`), then CUP (`ESC[H`), then `println!`'s newline |
| Out.Println | src/utils/out.rs:12-31 | the printers write the formatted line and then one newline |
| Diff.DiffFilesClean | src/modules/diff/functions.rs:1-24 | empty output gives no files; every listed file is a non-empty newline-free piece of the output |
| Diff.DiffFilesOfNames | src/modules/diff/functions.rs:1-24 | when git prints one name per line, `get_diff_files` gives back exactly those names, in order |
| Diff.NameLinesSplit | src/modules/diff/functions.rs:16 | splitting the name lines at `\n` gives the names and then one empty piece |
| Diff.NonEmptyKeeps | src/modules/diff/functions.rs:17-21 | the filter keeps every non-empty name and drops the one empty piece |
| Diff.InDiffIff | src/modules/diff/functions.rs:26-29 | a file is in the diff exactly when git lists its exact name |
| Diff.DiffArgsFiles | src/modules/diff/views.rs:55-70 | the `git diff` arguments start `diff --color`, then `--minimal --compact-summary` unless extended, and end with exactly the files |
| Diff.DiffArgs | src/modules/diff/views.rs:55-70 | the loop of `arg` calls builds exactly that argument list |
| Diff.ShowDiff | src/modules/diff/views.rs:3-53 | outside a repository, only the error; a named file outside the diff, "File not in diff"; a failed selector, its error; an empty file list, "No changes"; otherwise `git diff` on the named file, the selection or every changed file, in that order of precedence |
| Diff.DiffSelectionValidated | src/modules/diff/functions.rs:31-41 | the diff selector refuses a choice exactly when it is empty |
| Selection.ValidateFileSelectionIff | src/modules/commit/views.rs:225-235 | a selection is refused exactly when it is empty, always with "You must select at least one file" |
| Prompt.Prompted | src/utils/BranchName.ts:49-54 | an input prompt with a validator keeps asking: the answer taken is one typed and accepted, and there is none exactly when every answer was refused |
| Prompt.PromptedFirst | src/utils/BranchName.ts:62-70 | the answer taken is the first accepted one; every earlier answer was refused |
| BranchName.ValidateName | src/utils/BranchName.ts:89-94 | only the empty answer is refused, with "Name cannot be empty" |
| BranchName.ValidateType | src/utils/BranchName.ts:96-101 | only the empty answer is refused, with "Type cannot be empty" |
| BranchName.DashRuns | src/utils/BranchName.ts:71 | `replace(/\ +/g, "-")` leaves no space, never lengthens the text, and gives "" only for "" |
| BranchName.DashRunsPlain | src/utils/BranchName.ts:71 | text without spaces is left as it is |
| BranchName.DashRunsIdempotent | src/utils/BranchName.ts:71 | turning space runs into dashes twice is the same as doing it once |
| BranchName.DashRun | src/utils/BranchName.ts:71 | a run of any length of spaces before a word becomes one dash |
| BranchName.DashWords | src/utils/BranchName.ts:71 | words separated by single spaces come out separated by dashes |
| BranchName.WordThenRun | src/utils/BranchName.ts:71 | a word, a space run and the rest: the word, one dash, then the rest converted |
| BranchName.GetName | src/utils/BranchName.ts:62-72 | the normalised name contains no space |
| BranchName.GetNameEmpty | src/utils/BranchName.ts:71 | the name is empty exactly when the answer is all whitespace, and otherwise starts with the first non-blank character |
| BranchName.GetBranchType | src/utils/BranchName.ts:36-60 | a listed type other than `custom` is taken as chosen; `custom` takes the first non-empty custom answer; an interrupted prompt gives no type |
| BranchName.TypesPlain | src/utils/BranchName.ts:12-22 | the nine types are non-empty words without a slash or a space, and only the last is `custom` |
| BranchName.BranchNameParts | src/utils/BranchName.ts:25-34 | `type/name` for a non-custom type splits back at its first slash into the type and the space-free name; an interrupted prompt gives "" |
| BranchName.SlashParts | src/utils/BranchName.ts:30 | `type/name` for a type without a slash reads back as type and name |
| BranchName.CustomBranchName | src/utils/BranchName.ts:25-60 | a custom type is the first non-empty custom answer, and the branch name is "" when either prompt is interrupted |
| BranchName.BlankNameAccepted | src/utils/BranchName.ts:68-94 | a name of blanks passes `validateName` (only "" is refused) and leaves the branch name `feat/` |
| CommitMessage.FirstNamed | src/utils/CommitMessage.ts:88 | `filter(...)[0]`: the index found holds a label of that name and no earlier label has it; nothing is found exactly when no label has the name |
| CommitMessage.LabelNamesDistinct | src/utils/CommitMessage.ts:12-56 | the table has 43 labels, no two share a name, and no shortcode holds a space |
| CommitMessage.GetLabel | src/utils/CommitMessage.ts:77-90 | the label found is in the table, carries the chosen name and is the only label with it; a name not in the table finds none |
| CommitMessage.ValidateHeading | src/utils/CommitMessage.ts:132-137 | only the empty heading is refused, with "Heading cannot be empty" |
| CommitMessage.ComposeFancy | src/utils/CommitMessage.ts:63-67 | a labelled title is the shortcode, one space and the heading, and each reads back from it |
| CommitMessage.PlainMessage | src/utils/CommitMessage.ts:68-71 | without labels, the title is the first non-empty heading answer and the description is empty; an interrupted prompt gives an empty title |
| CommitMessage.ListedLabelFound | src/utils/CommitMessage.ts:12-56 | every name in the table finds its own label |
| CommitMessage.FancyMessage | src/utils/CommitMessage.ts:59-103 | with a known label and a heading, the title is the label's shortcode, a space and a non-empty heading, and its first space is the one after the shortcode; the description is as answered |
| CommitMessage.FancyEmpty | src/utils/CommitMessage.ts:72-74 | an interrupted prompt or an unknown label (whose destructuring throws) gives the empty title and description |
| Spinner.Frames | src/utils/Spinner.ts:18-23 | one dash off a terminal; ten braille frames on a Unicode terminal; four ASCII strokes otherwise; each frame is one character |
| Spinner.MarksDiffer | src/utils/Spinner.ts:24-25 | the tick and the cross are single characters, and they differ in both character sets |
| Spinner.StripEscapes | src/utils/Spinner.ts:87 | removing the escape sequences never lengthens the text |
| Spinner.StripPlain | src/utils/Spinner.ts:87 | text without an escape character is left as it is |
| Spinner.StripSgr | src/utils/Spinner.ts:87 | an SGR colour sequence in front of a text does not count towards its rows |
| Spinner.CeilDivLeast | src/utils/Spinner.ts:90 | `Math.ceil(len / columns)` is the fewest widths that cover the length |
| Spinner.RowsBounds | src/utils/Spinner.ts:90 | a line takes at least one row, no more rows than it has characters, and exactly one row when it fits the width |
| Spinner.RowsOf | src/utils/Spinner.ts:89-92 | the `reduce` counts at least one row per line |
| Spinner.RowsOfFitting | src/utils/Spinner.ts:85-93 | lines that fit the width take one row each |
| Spinner.RowsOfBounds | src/utils/Spinner.ts:85-93 | the row count lies between the number of lines and the number of lines plus characters |
| Spinner.CounterUp | src/utils/Spinner.ts:62-67 | the first `n` spins count the frame counter up from 0 to `n` |
| Spinner.CounterPeriodic | src/utils/Spinner.ts:50-55 | after the first spin, the counter repeats every `n` spins |
| Spinner.SpinsGoRound | src/utils/Spinner.ts:50-70 | the frame drawn is always a valid frame; spins 0 to n-1 draw frames 0 to n-1; each spin draws what the spin `n` later draws |
| Spinner.ClearAlternates | src/utils/Spinner.ts:95-104 | `clear` writes 2n-1 pieces for `n` rows, alternating erase-row and cursor-up, starting and ending with an erase |
| Spinner.Spinner.constructor | src/utils/Spinner.ts:16-33 | the frame set and marks follow the terminal and Unicode tests; the counter and line count start at 0 and nothing has been written |
| Spinner.Spinner.Update | src/utils/Spinner.ts:50-55 | past the last frame, the counter goes back to 0, so it indexes a frame; nothing else changes |
| Spinner.Spinner.Clear | src/utils/Spinner.ts:95-104 | `clear` writes the first-column move and the erase and up sequences for the drawn rows, then forgets them |
| Spinner.Spinner.Write | src/utils/Spinner.ts:77-83 | on a terminal, a redraw first clears what was drawn; the text is then written |
| Spinner.Spinner.Render | src/utils/Spinner.ts:69-75 | on a terminal: hide the cursor, clear, draw `frame message`, remember its rows; elsewhere: the frame line ending in a newline |
| Spinner.Spinner.Spin | src/utils/Spinner.ts:62-67 | one spin draws the updated frame and leaves the counter one past it; on a terminal the rows remembered are those of the frame drawn, elsewhere they are unchanged |
| Spinner.Spinner.Stop | src/utils/Spinner.ts:106-114 | the mark and the message replace the frame with a newline; on a terminal the cursor is shown again and no rows are remembered; the frame counter is unchanged |
| Spinner.Spinner.Success | src/utils/Spinner.ts:40-43 | stop with the tick: the text written, no rows remembered on a terminal, the frame counter unchanged |
| Spinner.Spinner.Fail | src/utils/Spinner.ts:45-48 | stop with the cross: the text written, no rows remembered on a terminal, the frame counter unchanged |
| InitMenu.FolderBase | src/modules/init.ts:32 | the folder's base name has no space and as many characters as the repository name |
| InitMenu.CandidateNumber | src/modules/init.ts:70 | the k-th numbered folder is the base, `(`, the decimal digits of k and `)` |
| InitMenu.CandidatesDiffer | src/modules/init.ts:66-75 | different counter values give different folder names |
| InitMenu.Shrinks | src/modules/init.ts:69-73 | each existing name tried leaves fewer untried existing folders, so the loop ends |
| InitMenu.FirstFreeUnique | src/modules/init.ts:66-75 | only one counter value names the first free folder |
| InitMenu.NumberedAt | src/modules/init.ts:71 | the j-th name printed is the (j+1)-th numbered folder |
| InitMenu.TriedAll | src/modules/init.ts:69 | every candidate before the n-th has been tried |
| InitMenu.GetFolderName | src/modules/init.ts:66-75 | `getFolderName` returns the first candidate that does not exist, after every earlier one existed, and prints each numbered name it tried, in order |
| InitMenu.ReadmeLines | src/modules/init.ts:36 | for a name without a newline, the README's first line is `# name` and the rest is the description |
| InitMenu.RequestAsWritten | src/modules/init.ts:37-47 | the request carries `token` and the stored key as its authorization |
| InitMenu.RequestIgnoresAnswers | src/modules/init.ts:42-46 | as written, every set of answers sends the same body: name "super", private, whatever was asked |
| InitMenu.Request | src/modules/init.ts:13-29 | the corrected request carries the token header |
| InitMenu.RequestCarriesAnswers | src/modules/init.ts:13-29 | the corrected request carries the name, description and visibility answered, so different answers send different requests |
| InitMenu.Remote | src/modules/init.ts:49-54 | the remote is the SSH URL for the `SSH` protocol and the HTTPS clone URL otherwise, shown as `undefined` when the reply lacks it |
| InitMenu.InitCommandRemote | src/modules/init.ts:55-57 | the remote sits between the fixed `git init ... remote add origin ` front and the ` && git push -u origin master` back, and reads back from the command |
| InitMenu.ShowInitMenu | src/modules/init.ts:12-64 | the folder is the first free candidate; a throwing `mkdirSync`, `chdir` or `writeFileSync` ends in the `catch` with no README, request or command after it; otherwise the README and the request are as above, and the command is built from the reply's remote; no reply means no command; success exactly when the file-system calls returned, a reply came and the shell command succeeded |
| InitRepo.RepoName | src/init.ts:17 | the repository name is as long as the description and has no space and no capital letter |
| InitRepo.RepoNameWords | src/init.ts:16-17 | words without spaces, dashes or capitals give a name that splits back into them at the dashes |
| InitRepo.DashJoin | src/init.ts:17 | joining by spaces and then replacing spaces by dashes is joining by dashes |
| InitRepo.UrlsAgree | src/init.ts:18-22 | over HTTPS the remote is the page URL plus `.git`; over SSH it names the same owner/name path after `git@github.com:` |
| InitRepo.CheckIfRepoExists | src/init.ts:58-72 | true exactly when a listed repository has that name |
| InitRepo.AllStepsShape | src/init.ts:33-55 | the 15 steps: make and enter the folder, create the repository with the lowered name, the description and the remote URL, write the README, ..., and last the line naming the page; the nine calls that can throw or reject sit where `CallEnd` puts them, with only printed lines between them and after the last |
| InitRepo.InitRepoOutcome | src/init.ts:10-56 | no words: "Please provide a repository name"; a rejected `GET /user/repos` ends the command before anything is made; an existing repository, then an existing folder, are refused; otherwise the steps run in order from making the folder, all of them exactly when every call returns, and otherwise stopping at the call that threw or rejected |
| CloneMenu.Insert | src/modules/clone.ts:52 | placing an entry into the sorted list adds exactly one entry |
| CloneMenu.InsertFrom | src/modules/clone.ts:52 | placing an entry adds that entry and nothing else |
| CloneMenu.InsertSorted | src/modules/clone.ts:52 | placing an entry into a list sorted latest-first keeps it sorted |
| CloneMenu.InsertAtEnd | src/modules/clone.ts:52 | an entry no more recent than the end of a sorted list goes last, as a stable sort puts it |
| CloneMenu.SortByTime | src/modules/clone.ts:52 | the sort keeps the number of entries |
| CloneMenu.SortByTimeSorted | src/modules/clone.ts:52 | `sort((a, b) => b.lastUpdated - a.lastUpdated)` orders the entries latest push first |
| CloneMenu.SortByTimeKeepsSorted | src/modules/clone.ts:52 | a list already in order is left as it is, because the sort is stable |
| CloneMenu.SortByTimeIdempotent | src/modules/clone.ts:45-53 | sorting again after each push changes nothing already sorted: sorting twice is sorting once |
| CloneMenu.CountNamedInsert | src/modules/clone.ts:52 | placing an entry adds one occurrence of its name and none of any other name |
| CloneMenu.SortByTimeCounts | src/modules/clone.ts:52 | the sort is a permutation: every name is kept as often as it occurs |
| CloneMenu.NamesCount | src/modules/clone.ts:54-58 | the names read off the entries occur as often as the entries carrying them |
| CloneMenu.EntriesCount | src/modules/clone.ts:46-51 | every repository pushes one entry carrying its name |
| CloneMenu.RepoNamesOfEntries | src/modules/clone.ts:46-62 | the names in the reply's order are the names of the entries pushed for it, in the same order |
| CloneMenu.WithoutCount | src/modules/clone.ts:55-57 | the filter drops the user's own name and keeps every other name exactly as often as it occurs |
| CloneMenu.WithoutEntriesNames | src/modules/clone.ts:54-58 | the second loop reads the names from the sorted entries, in order, without the user's |
| CloneMenu.RepoListMembers | src/modules/clone.ts:41-65 | every repository other than the user's is offered as often as the reply lists it, the user's never; under "Last updated" the order is the sorted one, latest push first |
| CloneMenu.Find | src/modules/clone.ts:70-72 | `data.find`: a result is in the reply and carries the name; there is none exactly when no repository has that name |
| CloneMenu.FindFirst | src/modules/clone.ts:70-72 | the repository found is the first one of that name |
| CloneMenu.CloneUrl | src/modules/clone.ts:66-77 | a URL is cloned only for a non-empty choice that names a repository, and it is that repository's HTTPS URL under the `HTTPS` setting and its SSH URL otherwise, and non-empty |
| CloneMenu.SortedList | src/modules/clone.ts:45-53 | the push-and-re-sort loop yields the stable latest-first sort of all the entries |
| CloneMenu.Clone.constructor | src/modules/clone.ts:25 | the list starts empty |
| CloneMenu.Clone.ListRepos | src/modules/clone.ts:41-78 | `listRepos` rebuilds the list from empty as `RepoList` describes and picks the URL as `CloneUrl` describes |
| CommitTs.RemoveFirstSpaceAt | src/modules/commit.ts:101 | `replace(" ", "")` with a string pattern cuts out the first space only, and leaves text without a space as it is |
| CommitTs.ComparisonFront | src/modules/commit.ts:102-106 | the colour is decided by the first two characters, compared with M, A, D and `??` in that order |
| CommitTs.StatusLineColor | src/modules/commit.ts:100-107 | a status entry `XY path` takes its colour from the index letter X, or from the work-tree letter Y when X is a space: `?? path` is white and ` M path` yellow |
| CommitTs.StatusLineFront | src/modules/commit.ts:101 | what is left of a status entry once its first space is gone |
| CommitTs.StatusEntriesOfLines | src/modules/commit.ts:83-84 | the status entries are the non-empty lines in order: one line per entry gives the entries back |
| CommitTs.SliceFrom | src/modules/commit.ts:117 | JavaScript `slice(3)`: the text after its first three characters, or "" for a shorter text |
| CommitTs.SliceStatus | src/modules/commit.ts:116-118 | a status entry loses its two letters and the space, leaving the path |
| CommitTs.StripStatus | src/modules/commit.ts:116-118 | the first loop replaces every entry in place by its `slice(3)`, and changes nothing else |
| CommitTs.AddCommands | src/modules/commit.ts:119-121 | one `git add` per entry, in order |
| CommitTs.CommitFiles | src/modules/commit.ts:109-143 | an empty selection runs nothing and reports "Error: No files selected."; otherwise the entries are stripped in place and added, the commit-and-push runs, and the report is the file count followed by "files" on success, or git's error words |
| CommitTs.CommitAllMessageWords | src/modules/commit.ts:49-50 | words given after the command are the message's space-separated words, in order |
| CommitTs.AskCommitMessage | src/modules/commit.ts:145-159 | the message is the first non-empty answer, after every earlier answer was refused as empty; none while only empty answers come |
| CommitTs.CommitAllFiles | src/modules/commit.ts:46-79 | the message comes from the arguments, or else from the prompt; the one command adds everything, commits with it and pushes; the report is git's change summary on success and its error words on failure |
| CommitTs.FirstIndex | src/modules/commit.ts:61 | JavaScript `indexOf`: the first index holding the word, or -1 exactly when it is absent |
| CommitTs.Clamp | src/modules/commit.ts:63 | a JavaScript slice index: negative counts from the end, and both ends clamp to the array |
| CommitTs.SuccessSummaryOfWords | src/modules/commit.ts:60-65 | for git's `N files changed, ...`, the summary is the two words before "changed,", commas removed |
| CommitTs.SummaryBefore | src/modules/commit.ts:61-63 | the slice takes the two words before the first "changed," |
| CommitTs.SuccessSummaryWithoutChanged | src/modules/commit.ts:60-65 | without "changed,", `indexOf` gives -1 and the slice takes the third- and second-last words |
| CommitTs.KeptWindow | src/modules/commit.ts:74 | `splice(3).slice(0, 6)` keeps the fourth to the ninth word |
| CommitTs.ErrorSummaryOfWords | src/modules/commit.ts:71-74 | for output on one line, the error summary is the fourth to the ninth word |
| CommitTs.ErrorSummaryTwoLines | src/modules/commit.ts:71 | the newline between two lines of git's output counts as one space between words |
| CommitTs.NewlineToSpace | src/modules/commit.ts:71 | `replace(/\n/g, " ")` turns the one newline between two lines into a space |
| History.LogArgsShape | src/modules/history/views.rs:13-47 | `git log` gets nine arguments: the fixed flags, `-limit` (10 by default, reading back as the limit given) and `--author=` with the author (empty by default); the branch and file options do not reach the call |
| History.ParseRendersBack | src/modules/history/views.rs:51-62 | a line whose four fields do not hold the separator parses back into its commit |
| History.ParseOfParts | src/modules/history/views.rs:54-60 | with four or more pieces, the fields are the first four; further pieces are dropped |
| History.UnderscoreSubjectMisparsed | src/modules/history/views.rs:42-60 | as written, a subject holding `_` (such as `fix_typo`) shifts the fields: the subject loses its second half, which becomes the date, and the date becomes the author |
| History.ParseCommitFixedRoundTrip | src/modules/history/views.rs:42-60 | with the unit separator between the fields, every commit, including one with `_` in its subject, parses back from its line |
| History.CommitLineParts | src/modules/history/views.rs:64-71 | the printed line starts with the dimmed `(hash)`, from which the hash reads back, and ends with the author in blue |
| History.CommitLineJoined | src/modules/history/views.rs:70 | the printed line is the dimmed hash, the subject and green date between the fixed separators, and the blue author |
| History.CommitHistory | src/modules/history/views.rs:49-71 | every line is parsed before anything is printed, so a line with fewer than four fields panics before any output; otherwise one printed line per commit, in log order |
| History.ParseLog | src/modules/history/views.rs:51-62 | the parse loop panics exactly when some line has fewer than four fields, and otherwise gives one commit per line, in order |
| History.PrintCommits | src/modules/history/views.rs:64-71 | one printed line per commit, in order |
| History.GlueRemoves | src/modules/history/functions.rs:15 | `split(" ").collect::<String>()` glues the pieces back together, which removes every space |
| History.RemoveAround | src/modules/history/functions.rs:15 | removing a character around one occurrence of it keeps the text before and cleans the text after |
| History.GetCurrentBranch | src/modules/history/functions.rs:1-20 | the result has no space and no star; it is "" when no line starts with `*`, and otherwise is the last such line with its spaces and then its stars removed |
| CommitFiles.TrimSpaceFront | src/functions/commit.rs:66 | a leading space does not survive the trim |
| CommitFiles.FileOfDisplay | src/functions/commit.rs:7-11 | round trip: a file with a two-letter status and a trimmed name is read back from its `Display` line by the status-line parse |
| CommitFiles.DisplayParts | src/functions/commit.rs:7-11 | `Display` writes the status, one space and the name |
| CommitFiles.GetFilesToCommit | src/functions/commit.rs:42-72 | one file per status line, in order, with the first two characters as status and the trimmed rest as the name; it panics exactly when some line is shorter than two characters |
| CommitFiles.FilesOfLines | src/functions/commit.rs:55-69 | the loop over the lines gives exactly that list, or panics on the first short line |
| CommitFiles.AreFilesIffLines | src/functions/commit.rs:27-41 | there are files to commit exactly when the status output has a line |
| CommitFiles.ValidCommitIff | src/functions/commit.rs:13-25 | a commit goes ahead exactly in a repository with changed files, and outside a repository the repository error comes first |
| CommitFiles.FileNames | src/functions/commit.rs:78-82 | the names handed to `git add` are the files' names, in order |
| CommitFiles.CommitFilesRun | src/functions/commit.rs:74-131 | add, then commit, then push unless `no_push`, each only after the one before succeeded; a failure is reported as "Failed to add files", "Failed to commit files" or "Failed to push files", for the step that failed |
| CommitFiles.SuccessMessageCount | src/functions/commit.rs:137-142 | the success line names the count, which reads back from it, with "file" for one and "files" otherwise |
| CommitFiles.MessageParts | src/functions/commit.rs:141 | the success line is the fixed 22-character prefix, the digits and the noun |
| CommitFiles.OneFile | src/functions/commit.rs:138-139 | one file gives "Successfully commited 1 file" |
| CommitFiles.CommitSpecificFiles | src/functions/commit.rs:146-157 | `git add` gets the chosen files' names in selection order, then the commit with the message, then the push unless `--no-push`, each only after the one before succeeded; the success line counts the files and appears exactly when every step succeeded |
| CommitFiles.CommitAllFiles | src/functions/commit.rs:132-145 | every file of the status output is added under its trimmed name, then the commit with the message, then the push unless `--no-push`, each only after the one before succeeded; the success line appears exactly when every step succeeded and counts the status lines; a short status line panics before anything runs |
| CommitViews.NewCommitOptions | src/modules/commit/views.rs:54-78 | each flag is set exactly when its argument occurs, wherever and however often |
| CommitViews.OptionsIgnoreOrder | src/modules/commit/views.rs:60-70 | the options depend only on which arguments occur, not on their order |
| CommitViews.FancyModeIff | src/modules/commit/views.rs:122-130 | `--skip-fancy` wins over `--force-fancy`; without either flag, the configuration decides |
| CommitViews.AskCommitMessage | src/modules/commit/views.rs:115-194 | fancy: the label's emoji, a space, the message, a blank line and the description; plain: the message alone; the first failing prompt aborts with its own error |
| CommitViews.FancySubject | src/modules/commit/views.rs:132-175 | git's subject line of a fancy message is the label display with the message as its name, followed by a blank line |
| CommitViews.SubjectLine | src/modules/commit/views.rs:140-154 | emoji, space and message make one line without a newline, shown as the label's display |
| CommitViews.BlankLine | src/modules/commit/views.rs:168 | the `\n\n` before the description leaves an empty second line |
| CommitViews.MenuRoutes | src/modules/commit/views.rs:21-46 | each of the two menu entries reaches its own handler; "Invalid option" is only for an answer the menu does not offer |
| LineEditor.Initial | src/view/input.rs:32-35 | the prompt starts with an empty buffer, the cursor at 0 and nothing painted |
| LineEditor.Mask | src/view/input.rs:233 | `"*".repeat(n)`: exactly `n` asterisks |
| LineEditor.Repaint | src/view/input.rs:228-235 | a character key paints the buffer as it is in text mode, and as one asterisk per character in password mode |
| LineEditor.Painted | src/view/input.rs:137 | Backspace and Ctrl-U paint the buffer itself as written, and the masked drawing in the corrected repaint |
| LineEditor.LastWhitespace | src/view/input.rs:60 | `rfind(char::is_whitespace)`: the index found holds whitespace and none comes after it; -1 when there is none |
| LineEditor.FirstWhitespace | src/view/input.rs:91 | `find(char::is_whitespace)`: the index found holds whitespace and none comes before it; -1 when there is none |
| LineEditor.WordStart | src/view/input.rs:47-66 | Alt-B in text mode moves back, strictly unless at 0, to just after a whitespace or to 0, over no whitespace but the one it first steps over |
| LineEditor.WordEnd | src/view/input.rs:77-97 | Alt-F in text mode moves forward, strictly unless at the end, onto a whitespace or to the end, over no whitespace after the first |
| LineEditor.WordDeleteFrom | src/view/input.rs:147-158 | the deleted word starts at the last whitespace before the cursor, or at 0 when there is none |
| LineEditor.AfterInsert | src/view/input.rs:225-241 | a character is inserted at the cursor, which moves past it; the rest of the buffer is kept on both sides; the repaint is the drawing of the new buffer |
| LineEditor.AfterBackspace | src/view/input.rs:197-210 | at column 0 nothing changes; otherwise the character before the cursor goes, the cursor moves back, and the new buffer is painted |
| LineEditor.AfterLeft | src/view/input.rs:211-217 | Left moves one back, stopping at 0; the text is untouched |
| LineEditor.AfterRight | src/view/input.rs:218-224 | Right moves one forward, stopping at the end; the text is untouched |
| LineEditor.AfterKillLine | src/view/input.rs:126-144 | Ctrl-U removes everything before the cursor and puts the cursor at 0 |
| LineEditor.AfterKillWord | src/view/input.rs:145-178 | Ctrl-W/Ctrl-H: in text mode, the word before the cursor goes, from the last whitespace and including it; in password mode, the whole buffer goes; the buffer is repainted as it is |
| LineEditor.AfterWordBack | src/view/input.rs:43-74 | Alt-B goes to the start of the word in text mode, and to the start of the line for a password |
| LineEditor.AfterWordForward | src/view/input.rs:75-105 | Alt-F goes to the end of the word in text mode, and to the end of the line for a password |
| LineEditor.Step | src/view/input.rs:38-251 | Enter returns the buffer, Esc Cancel and Ctrl-C Exit, and only these end the loop; every other handled key does what its transition states; other keys and modifiers change nothing |
| LineEditor.Run | src/view/input.rs:32-251 | the key loop fed a finite list of events: while it waits for more, the cursor stays within the buffer |
| LineEditor.StepShowsBuffer | src/view/input.rs:38-251 | every key keeps the painted text a drawing of the buffer |
| LineEditor.RunShowsBuffer | src/view/input.rs:38-251 | after any keys, the painted text is a drawing of the buffer |
| LineEditor.RunKeepsMask | src/view/input.rs:228-235 | with the corrected (masked) repaint, after any keys a password is drawn only as asterisks |
| LineEditor.Typed | src/view/input.rs:225 | typing a text is one plain character key per character |
| LineEditor.TypingAppends | src/view/input.rs:225-241 | typing at the end of the buffer appends the characters in order and leaves the cursor after the last |
| LineEditor.InsertAtEnd | src/view/input.rs:226-227 | a character typed at the end of the buffer is appended |
| LineEditor.HelpScenario | src/view/input.rs:194-241 | typing "help", two Backspaces, "y" and Enter returns "hey" |
| LineEditor.TypingFromEmpty | src/view/input.rs:225-241 | typing into an empty prompt gives the typed text, the cursor at its end, and its drawing |
| LineEditor.RunPrefix | src/view/input.rs:38-251 | running two key sequences one after the other is running their concatenation |
| LineEditor.BackspaceShowsPassword | src/view/input.rs:197-210 | as written, a password prompt typed "pw" then Backspace paints "p", the password itself; the masked repaint paints "*" |
| LineEditor.KillLineShowsPassword | src/view/input.rs:126-144 | as written, Ctrl-U in a password prompt paints the rest of the password as it is |
| LineEditor.Editor.constructor | src/view/input.rs:29-35 | a fresh editor satisfies the invariant and starts in the initial state |
| LineEditor.Editor.Insert | src/view/input.rs:225-241 | the buffer and the cursor change in place exactly as a character key's transition states |
| LineEditor.Editor.DeleteBackward | src/view/input.rs:197-210 | in place, as the Backspace transition states |
| LineEditor.Editor.MoveLeft | src/view/input.rs:211-217 | in place, as the Left transition states |
| LineEditor.Editor.MoveRight | src/view/input.rs:218-224 | in place, as the Right transition states |
| LineEditor.Editor.KillLine | src/view/input.rs:126-144 | in place, as the Ctrl-U transition states |
| LineEditor.Editor.KillWord | src/view/input.rs:145-178 | in place, as the Ctrl-W transition states |
| LineEditor.Editor.WordBack | src/view/input.rs:43-74 | in place, as the Alt-B transition states |
| LineEditor.Editor.WordForward | src/view/input.rs:75-105 | in place, as the Alt-F transition states |
| LineEditor.Editor.Handle | src/view/input.rs:39-250 | one event changes the editor exactly as `Step` states, and reports the result when the event ends the prompt |
| LineEditor.GetUserTextInput | src/view/input.rs:29-257 | the loop returns what `Run` gives with the repaint as written, and the painted text stays a drawing of the buffer |
| Markup.LookupCode | src/view/mod.rs:49-71 | every effect has exactly one code: its code looks it up, and no other code names it |
| Markup.DollarFrom | src/view/mod.rs:44-47 | the scan for the end of a code stops at the next `$` or the end of the token, never before a `$` |
| Markup.DollarFromSkips | src/view/mod.rs:44-47 | no `$` lies between the code's start and where the scan stops |
| Markup.PiecesNonEmpty | src/view/mod.rs:37-42 | each code holds at least the character it starts with, since that one is taken unconditionally |
| Markup.Collect | src/view/mod.rs:49-71 | unrecognised codes are dropped, so a token yields at most one effect per code |
| Markup.DecodeSplit | src/view/mod.rs:32-77 | a well-formed token `$c1$c2...` decodes to the effects of its `$`-separated codes, in order |
| Markup.PiecesAreSplit | src/view/mod.rs:35-74 | when no two `$` touch, the codes scanned are exactly the `$`-separated pieces |
| Markup.DecodeExamples | src/view/mod.rs:50-55 | `$b$cr` is bold then red foreground; `$bold` is no code and gives nothing |
| Markup.DecodeBold | src/view/mod.rs:50 | `$b` is the bold group |
| Markup.ScanCode | src/view/mod.rs:39-47 | the inner loop reads the code from its first character up to the next `$` or the end |
| Markup.MatchStep | src/view/mod.rs:49-73 | after each code the effects kept plus those still to come are the token's decoding |
| Markup.MatchEffect | src/view/mod.rs:32-77 | `match_effect` returns the token's decoding: its recognised codes' effects in order |
| Markup.ActiveApplies | src/view/mod.rs:81-95 | applying effects adds them, in order, to those in force on the terminal |
| Markup.ActiveApply | src/view/mod.rs:84-92 | one applied effect joins those in force |
| Markup.ActiveReplay | src/view/mod.rs:79-96 | after `set_new_effects` the effects in force are exactly the stacked ones, bottom group first |
| Markup.ActiveOutput | src/view/mod.rs:193-198 | printed text and a new line leave the effects in force alone |
| Markup.SetNewEffects | src/view/mod.rs:79-96 | `set_new_effects` sends a reset and then every stacked effect from the bottom group up |
| Markup.SpaceFrom | src/view/mod.rs:139-142 | the token ends at the first space after the `$`, or the end of the text |
| Markup.SkipSpaces | src/view/mod.rs:164-173 | the indentation skipped after a newline is all spaces and stops at a non-space |
| Markup.ReadToken | src/view/mod.rs:136-145 | the `$` token read is the text from the `$` up to the first space |
| Markup.SkipIndent | src/view/mod.rs:164-173 | the indent loop stops exactly where the spaces after the newline end |
| Markup.Printer | src/view/mod.rs:122-201 | `printer` sends exactly the commands of the markup's meaning: tokens push and replay, backticks pop and replay, `&>` indents, a panic when a `$` has no space after it |
| Markup.Prints | src/view/mod.rs:193 | plain text is printed one command per character |
| Markup.ScanExtends | src/view/mod.rs:122-201 | the printer only appends to what it has sent, and a finished run ends with a new line |
| Markup.ScanKeepsActive | src/view/mod.rs:122-201 | whatever was pushed and popped, the effects in force at the end are the groups still open |
| Markup.PrinterEnd | src/view/mod.rs:198 | a finished print ends with one new line, and unclosed spans are still in force after it |
| Markup.ScanPlainTo | src/view/mod.rs:193 | a stretch without markup characters is printed character by character |
| Markup.ScanPlain | src/view/mod.rs:193-198 | text without markup characters is printed verbatim, then a new line |
| Markup.PrinterPlain | src/view/mod.rs:122-201 | `printer` on text without markup prints it as it is and opens nothing |
| Markup.ScanNoDollar | src/view/mod.rs:136-151 | only a `$` can make the printer panic: text without one always finishes |
| Markup.BoldSpan | src/view/mod.rs:136-161 | `$b ` opens bold (the character after the space is skipped), the text is printed and the backtick resets |
| Markup.BoldOpens | src/view/mod.rs:136-151 | a `$b ` token pushes the bold group, replays it and skips two characters |
| Markup.BoldCloses | src/view/mod.rs:154-161 | the closing backtick pops the group and resets before the final new line |
| Markup.BoldHello | src/view/mod.rs:122-201 | "$b `hello`" prints hello in bold and resets afterwards |
| Markup.DollarWithoutSpace | src/view/mod.rs:139-145 | a `$` token with no space after it makes the printer panic |
| Markup.NewlineIndent | src/view/mod.rs:164-173 | a newline swallows the indentation after it |
| Markup.AmpersandsAndEmptyPop | src/view/mod.rs:154-191 | `&>` prints four spaces, `&` with any other character prints nothing, a final `&` ends the text, and a backtick with nothing open only resets |
| Config.RanksOrder | src/config/defines.rs:3-26 | the derived order of each enum is its declaration order (LastUpdated before Alphabetical, SSH before HTTPS, NORMAL through GRAY), and different variants have different positions |
| Config.InRange | src/config/defines.rs:3-26 | every value lies between the first and the last variant of its enum, so the range guards accept every value |
| Config.ValidateConfigFile | src/config/utils.rs:84-127 | a config file is valid exactly when it can be read, is non-empty, decodes, and has a non-empty user name; the range and `fancy` guards never refuse |
| Config.CheckToken | src/config/github.rs:5-17 | the token check passes exactly when the file exists, validates and holds a non-empty token |
| Config.CheckTokenIff | src/config/github.rs:5-17 | spelled out: the check passes exactly when the file exists, is readable and non-empty, decodes, and has both a user name and a token |
| Config.UpdatedTokenChecks | src/config/github.rs:155-168 | after a login the token check passes exactly when the user name is set and the new token is non-empty |
| Config.UpdateToken | src/config/github.rs:155-168 | `update_token` gives the same record with only the token replaced |
| Config.UpdateTokenOnly | src/config/github.rs:155-168 | the latest update wins, storing the same token changes nothing, and the user name is kept |
| Config.PathsInConfigDir | src/config/utils.rs:3-29 | the config and metadata files both lie in the directory `handle_config_folder` creates, under different names |
| Config.ReadMetadata | src/config/utils.rs:67-82 | an unreadable metadata file gives the defaults and saves them; undecodable contents give the defaults without saving; otherwise the decoded metadata |
| Config.TruncDivAtLeast | src/config/utils.rs:340 | a quotient truncated toward zero reaches `k >= 1` exactly when the dividend reaches `k` times the divisor |
| Config.ShouldCheckIff | src/config/utils.rs:332-347 | an update check is due exactly when at least 86400 whole seconds have passed since `last_checked`; a clock behind it never makes it due |
| Config.LabelDisplay | src/config/utils.rs:147-151 | a label displays as its emoji, one space and its name, so its length is theirs plus one |
| Config.LabelDisplayParts | src/config/utils.rs:147-151 | the display splits back into the emoji, the space and the name at the first space |
| Config.LabelDisplayInjective | src/config/utils.rs:147-151 | two labels with space-free emoji display alike only when they are equal |
| Config.LabelsEnds | src/config/utils.rs:153-330 | `get_labels` gives 43 labels, from "Initial commit" to "Move/rename repository" |
| Config.LabelsLedBySpace | src/config/utils.rs:228-310 | the upgrade, downgrade and revert labels begin with a space |
| Config.Values | src/config/github.rs:38-41 | the value of every field is taken, so the values are as many as the fields |
| Config.ValuesCons | src/config/github.rs:40 | a field with a second piece contributes that piece, in front of the values of the rest |
| Config.ValuesPanic | src/config/github.rs:40 | any field without the separator makes the whole collection panic |
| Config.DeviceCodeRoundTrip | src/config/github.rs:37-47 | a device-code reply with plain values is read back field by field, and the verification URL comes back decoded |
| Config.ParseValues | src/config/github.rs:43-47 | once five values are known, the device code, lifetime, interval, user code and decoded URL are taken by position |
| Config.DeviceFieldsRead | src/config/github.rs:37-41 | the `&`-joined fields of a reply with plain values split back into their values |
| Config.FieldsSplitBack | src/config/github.rs:37-39 | five fields without `&` or quotes come back from their join once quotes are removed |
| Config.FieldPlain | src/config/github.rs:40 | `name=value` for a key and a plain value splits at `=` into the two |
| Config.DecodeEncode | src/config/github.rs:47 | decoding `%3A` and `%2F` undoes their encoding for a URL without `%` |
| Config.TokenRoundTrip | src/config/github.rs:91-102 | a well-formed access-token reply gives the token back |
| Config.MentionsToken | src/config/github.rs:91 | a token reply names `access_token`, so the poll stops |
| Config.PendingKeepsPolling | src/config/github.rs:91 | a reply that does not mention `access_token` gives no token and keeps the poll going |
| Config.FirstValue | src/config/github.rs:92-102 | the token taken is the value of the first member of the stripped reply |
| Config.ObjectFields | src/config/github.rs:92-98 | stripping braces, quotes and slashes from a three-member object and splitting at commas gives its `key:value` pieces |
| Config.ExtractOf | src/config/github.rs:91-102 | once the fields and their values are known, the token is the first value |
| GitCheck.ParseParts | src/config/git.rs:99-104 | each dot piece is parsed as a `u32`; a successful parse keeps one component per piece |
| GitCheck.ParsePartsMeaning | src/config/git.rs:99-104 | the components are the pieces' values, and the parse fails (the `unwrap` panics) exactly when some piece is not a `u32` |
| GitCheck.LexGeFirstDifference | src/config/git.rs:120-131 | the version is at least the minimum exactly when they are equal or the first differing component is larger |
| GitCheck.LexGeSkip | src/config/git.rs:120-129 | after equal leading components the comparison is decided by the rest |
| GitCheck.VersionAtLeast | src/config/git.rs:120-131 | the early-return loop over three components answers exactly the lexicographic `>=` |
| GitCheck.Rendered | src/config/git.rs:98-104 | each component is printed in decimal, one piece per component |
| GitCheck.ParseRenderedParts | src/config/git.rs:99-104 | components below 2^32 printed in decimal parse back to themselves |
| GitCheck.MinVersionParts | src/config/git.rs:1 | the minimum "2.20.0" parses to the three components 2, 20, 0 |
| GitCheck.ValidateGitInstall | src/config/git.rs:82-132 | `validate_git_install` gives NotInstalled for a failed run or blank output, refuses a version without three components or below 2.20.0 with the version printed and the minimum, accepts otherwise, and panics on a non-numeric piece |
| GitCheck.NotInstalledIff | src/config/git.rs:86-96 | NotInstalled exactly when git failed or printed only whitespace |
| GitCheck.SupportedIff | src/config/git.rs:98-131 | output that has a last word and parses is accepted exactly when it has three components at least 2.20.0, and otherwise refused with that word and "2.20.0" |
| GitCheck.VersionWords | src/config/git.rs:93-98 | the last word of `git version V`, trimmed and with its newline, is `V` |
| GitCheck.VersionStatus | src/config/git.rs:98-131 | output `git version V` is accepted exactly when `V` has three components at least 2.20.0 |
| GitCheck.VersionStatusNewline | src/config/git.rs:92-131 | the same holds for the output with its final newline |
| GitCheck.VersionComponents | src/config/git.rs:99-104 | rendered components joined by dots split and parse back to the components |
| GitCheck.StatusOfParsed | src/config/git.rs:113-131 | once the version word and its components are known, three components at least the minimum are accepted and anything else refused |
| GitCheck.VersionTextShape | src/config/git.rs:98 | a printed version is digits and dots that starts and ends with a digit |
| GitCheck.ThreeComponentStatus | src/config/git.rs:82-132 | any printed three-component version of `u32`s is accepted exactly when it is at least 2.20.0 |
| GitCheck.ShortVersionRefused | src/config/git.rs:113-118 | a two-component version is refused without being compared |
| GitCheck.TrailingWordPanics | src/config/git.rs:98-104 | output whose last word is not a number panics in the parse |
| GitCheck.AppleVersionPanics | src/config/git.rs:98-104 | "git version 2.39.3 (Apple Git-145)" panics, since its last word is "Git-145)" |
| GitCheck.InstallCommand | src/config/git.rs:191-213 | exactly the eight listed distributions have a package-manager command |
| GitCheck.InstallCommandFamilies | src/config/git.rs:191-203 | ubuntu and debian use apt, fedora, centos and rhel use dnf, arch and manjaro use pacman, alpine uses apk, and a quoted name matches none |
| GitCheck.FindLine | src/config/git.rs:183-186 | the line found is the first one with the prefix, and none is found exactly when no line has it |
| GitCheck.InstallHintFor | src/config/git.rs:166-213 | an unreadable os-release gives the generic hint, no `ID=` line panics, and otherwise the text after the last `=` of the first `ID=` line picks the command or the generic hint |
| GitCheck.InstallInstructions | src/config/git.rs:166-229 | the instructions are the chosen hint's text, and panic exactly when the lookup does |
| GitCheck.IdLineDecides | src/config/git.rs:183-213 | a first line `ID=<distro>` decides the hint by that distribution |
| GitCheck.OtherLineSkipped | src/config/git.rs:183-185 | a line that does not start with `ID=` is passed over |
| GitCheck.UbuntuInstructions | src/config/git.rs:183-193 | an Ubuntu os-release picks apt |
| GitCheck.QuotedIdInstructions | src/config/git.rs:191-212 | a quoted ID such as `"centos"` matches no distribution and gives the generic hint |
| GitCheck.MissingIdPanics | src/config/git.rs:183-186 | an os-release without an `ID=` line panics |
| GitCheck.MinimumBeforeCurrent | src/config/git.rs:66-74 | the unsupported-version message names the minimum first and the current version second |
| GitCheck.CheckGitConfig | src/config/git.rs:140-164 | NameNotFound exactly when the name run failed or printed blanks, EmailNotFound exactly when the name is there and the email is not, and Ok exactly when both are there |

## Left out

- Terminal effects are not modelled: raw mode, cursor moves to `prompt.len() + 2 + cursor`, line clears, the panic hook, `clean_up`, `print` and `console.clear`. The editor keeps the text it painted last as an abstract string.
- Exit statuses are not modelled as processes that end. Where the program calls `process::exit`, the model returns a message or a failure outcome instead. This applies to src/functions/commit.rs:18, 23, 97, 112, 127, 144 and 156, to src/modules/commit/views.rs:32, 144, 158, 172, 187 and 219, and to src/modules/diff/views.rs:50.
- The spawn failure of `command.output().unwrap()` at src/config/git.rs:86 and 144 is not modelled. Without a `git` binary, `validate_git_install` panics instead of returning NotInstalled. The model starts from a run that took place and has an exit status.
- The `String::from_utf8(..).unwrap()` calls on git's output are not modelled, since output is taken as text and only ASCII is modelled. The panic on invalid UTF-8 is therefore missing.
- Text outside ASCII is not modelled. input.rs and mod.rs mix byte lengths with character positions, and JavaScript's `trim` and `toLowerCase` treat more characters than the ASCII whitespace and capitals the model uses.
- The Windows, macOS and other-platform install texts at src/config/git.rs:4-33 are left out. The model is the Linux build, whose hint comes from /etc/os-release.
- Progress output is left out, along with the spinner's timer, the terminal tests and its colouring. In the Rust view the spinner is a background thread (src/view/spinner.rs). The TypeScript `Spinner` takes whether the output is a terminal and shows Unicode as parameters, and records the texts it writes before chalk colours them.
- Spinner.RowsOf: needs a width of at least one column. When `process.stderr.columns` is undefined or 0, the source divides to NaN or Infinity; that case is not modelled.
- Concurrency is left out: the Rust spinner thread and its `Arc<Mutex<bool>>`, and the TypeScript timer loop.
- HTTP, the clipboard and the OAuth poll loop (src/config/github.rs:81-119) are left out. The two replies are inputs, and the model states how each is parsed.
- Config: a token reply whose scope holds a comma is not covered by TokenRoundTrip, because the source splits the stripped reply at commas.
- JSON decoding (serde_json) and time parsing (chrono) are left out. A decoded config or metadata is an `Option` input, and instants are integers in nanoseconds.
- `read_config`'s panic on an unreadable file is not modelled. `save_config_file`, `save_metadata_file`, `handle_config_folder` and the home-directory lookup are file I/O; only the paths they use are modelled.
- src/config/update.rs is left out: it relies on self_update and semver, which are not part of this model.
- The interactive prompts (inquire and inquirer, src/config/config.rs, the settings menus) are left out. Their answers are parameters, and a prompt that fails or is interrupted is `None`.
- The TypeScript prompts' interruption is modelled as a list of answers that runs out. The prompt library's own behaviour is not part of this model.
- The fuzzy search behind the suggestion lists (the `fuzzy` package) is left out. The answer chosen is a parameter.
- The chalk colour wrappers and the colour choice of the TypeScript tool are left out. CommitTs gives the colour of a status entry as an abstract colour name.
- src/modules/commit.ts: a `git add` that rejects inside the loop is left out. Each call is taken to succeed, and only the final commit's outcome is modelled.
- src/modules/clone.ts: a rejection of the `git clone` call is left out. The model ends with the URL chosen.
- Only the first page of `GET /user/repos` is modelled, as the source requests it. Each `pushed_at` is taken already read as a number, so an unparsable date (NaN in JavaScript) is not modelled.
- `ask_files_to_commit` (src/modules/commit/views.rs:195-224) is modelled only through its validator (`Selection`). It is a prompt, and its retry after an empty selection, whose answer it discards, cannot be reached once the validator refuses an empty selection.
- The help texts and the command dispatch (src/main.rs, src/app.ts, src/help.ts, the `views` modules) are left out. They are pure printing.
- src/modules/branch.ts, src/clone.ts, src/commit.ts and app.js are left out. They repeat rules modelled elsewhere, or interleave them with git checkout and stash commands.
- Config.Labels: the emoji are written as code points. The source file's emoji bytes are garbled by a wrong decoding, and the ones the garbling lost were restored from the bytes that survived.

## Findings

| source | as written | input that shows it | evidently intended | confidence | as-written member | corrected member |
|---|---|---|---|---|---|---|
| src/view/input.rs:137, 204 | after Backspace and Ctrl-U the prompt prints the buffer itself, even in password mode | a password prompt holding "pw", then Backspace: "p" is shown | the password stays masked, as after a character key (input.rs:233) | not executed | LineEditor.BackspaceShowsPassword, LineEditor.KillLineShowsPassword (Run with AsWritten) | LineEditor.RunKeepsMask (Run with Masked) |
| src/modules/history/views.rs:42-60 | the `%h_%s_%cr_%an` log line is split at every `_` | a subject "fix_bug": the message becomes "fix", the date "bug" and the author the date | fields set apart by a character no field holds: the log format `%h%x1f%s%x1f%cr%x1f%an`, split at the unit separator | not executed | History.UnderscoreSubjectMisparsed | History.ParseCommitFixedRoundTrip |
| src/modules/init.ts:42-46 | the request that creates the repository sends the constant name "super", the description "super" and `private: true` | any answers, such as the name "my-project", the description "notes" and a public repository | the name, description and visibility the prompts asked for | not executed | InitMenu.RequestIgnoresAnswers | InitMenu.RequestCarriesAnswers |
