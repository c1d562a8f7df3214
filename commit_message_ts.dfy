/** The commit-message prompt of the TypeScript tool: a label from a fixed
    table of names and emoji shortcodes, a heading that may not be empty
    and a free description. The prompts' answers are parameters; the
    label list's fuzzy search is left out, and an interrupted prompt has no
    answer. */
module CommitMessage {
  import opened Text
  import opened Prompt

  datatype Label = Label(name: string, emoji: string)

  /** The labels offered, in order (their names kept as written). The
      table is written as its names and its shortcodes, each in three
      stretches, so that its properties are checked stretch by stretch. */
  const Labels: seq<Label> := Zip(LabelNames, Shortcodes)

  const LabelNames: seq<string> := NamesFront + NamesMiddle + NamesBack
  const Shortcodes: seq<string> := CodesFront + CodesMiddle + CodesBack

  /** The names of labels 0 to 14. */
  const NamesFront: seq<string> := [
    "Initial commit",
    "Version tag",
    "New feature",
    "Bug fix",
    "Metadata",
    "Documentation",
    "Documenting source code",
    "Performance",
    "Cosmetic",
    "Tests",
    "Adding a test",
    "Make a test pass",
    "General update",
    "Improve format/structure",
    "Refactor code"
  ]

  /** Their shortcodes, in the same order. */
  const CodesFront: seq<string> := [
    ":tada:",
    ":bookmark:",
    ":sparkles:",
    ":bug:",
    ":card_index:",
    ":books:",
    ":bulb:",
    ":racehorse:",
    ":lipstick:",
    ":rotating_light:",
    ":white_check_mark:",
    ":heavy_check_mark:",
    ":zap:",
    ":art:",
    ":hammer:"
  ]

  /** The names of labels 15 to 28. */
  const NamesMiddle: seq<string> := [
    "Removing code/files",
    "Continuous Integration",
    "Security",
    "Upgrading dependencies",
    "Downgrading dependencies",
    "Lint",
    "Translation",
    "Text",
    "Critical hotfix",
    "Deploying stuff",
    "Fixingon MacOS",
    "Fixingon Linux",
    "Fixingon Windows",
    "Work in progress"
  ]

  /** Their shortcodes, in the same order. */
  const CodesMiddle: seq<string> := [
    ":fire:",
    ":green_heart:",
    ":lock:",
    ":arrow_up:",
    ":arrow_down:",
    ":shirt:",
    ":alien:",
    ":pencil:",
    ":ambulance:",
    ":rocket:",
    ":apple:",
    ":penguin:",
    ":checkered_flag:",
    ":construction:"
  ]

  /** The names of labels 29 to 42. */
  const NamesBack: seq<string> := [
    "Adding CI build system",
    "Analytics or tracking code",
    "Removing a dependency",
    "Adding a dependency",
    "Docker",
    "Configuration files",
    "Package.json in JS",
    "Merging branches",
    "Bad code/need improv.",
    "Reverting changes",
    "Breaking changes",
    "Code review changes",
    "Accessibility",
    "Move/rename repository"
  ]

  /** Their shortcodes, in the same order. */
  const CodesBack: seq<string> := [
    ":construction_worker:",
    ":chart_with_upwards_trend:",
    ":heavy_minus_sign:",
    ":heavy_plus_sign:",
    ":whale:",
    ":wrench:",
    ":package:",
    ":twisted_rightwards_arrows:",
    ":hankey:",
    ":rewind:",
    ":boom:",
    ":ok_hand:",
    ":wheelchair:",
    ":truck:"
  ]

  /** The labels pairing each name with the shortcode at its place. */
  function Zip(names: seq<string>, codes: seq<string>): (r: seq<Label>)
    requires |names| == |codes|
    ensures |r| == |names|
    ensures forall k :: 0 <= k < |r| ==> r[k] == Label(names[k], codes[k])
  {
    if names == [] then [] else [Label(names[0], codes[0])] + Zip(names[1..], codes[1..])
  }

  /** The index of the first label with this name, if any. */
  function FirstNamed(labels: seq<Label>, name: string): (r: Option<nat>)
    ensures r.Some? ==> r.value < |labels| && labels[r.value].name == name
                        && forall j :: 0 <= j < r.value ==> labels[j].name != name
    ensures r.None? <==> forall j :: 0 <= j < |labels| ==> labels[j].name != name
  {
    if labels == [] then None
    else if labels[0].name == name then Some(0)
    else
      match FirstNamed(labels[1..], name)
      case None => None
      case Some(i) => Some(i + 1)
  }

  /** No two strings of `ss` are equal. */
  predicate Apart(ss: seq<string>) {
    forall i, j :: 0 <= i < j < |ss| ==> ss[i] != ss[j]
  }

  /** No string of `a` is a string of `b`. */
  predicate Across(a: seq<string>, b: seq<string>) {
    forall i, j :: 0 <= i < |a| && 0 <= j < |b| ==> a[i] != b[j]
  }

  /** No string of `ss` holds a space. */
  predicate Spaceless(ss: seq<string>) {
    forall k :: 0 <= k < |ss| ==> ' ' !in ss[k]
  }

  /** Two runs of distinct strings, with none in both, joined. */
  lemma ApartAppend(a: seq<string>, b: seq<string>)
    requires Apart(a) && Apart(b) && Across(a, b)
    ensures Apart(a + b)
  {
    var c := a + b;
    forall i, j | 0 <= i < j < |c|
      ensures c[i] != c[j]
    {
      if j < |a| {
        assert c[i] == a[i] && c[j] == a[j];
      } else if i >= |a| {
        assert c[i] == b[i - |a|] && c[j] == b[j - |a|];
      } else {
        assert c[i] == a[i] && c[j] == b[j - |a|];
      }
    }
  }

  lemma AcrossAppend(a: seq<string>, b: seq<string>, c: seq<string>)
    requires Across(a, c) && Across(b, c)
    ensures Across(a + b, c)
  {
    var ab := a + b;
    forall i, j | 0 <= i < |ab| && 0 <= j < |c|
      ensures ab[i] != c[j]
    {
      if i < |a| {
        assert ab[i] == a[i];
      } else {
        assert ab[i] == b[i - |a|];
      }
    }
  }

  lemma SpacelessAppend(a: seq<string>, b: seq<string>)
    requires Spaceless(a) && Spaceless(b)
    ensures Spaceless(a + b)
  {
    var c := a + b;
    forall k | 0 <= k < |c|
      ensures ' ' !in c[k]
    {
      if k < |a| {
        assert c[k] == a[k];
      } else {
        assert c[k] == b[k - |a|];
      }
    }
  }

  lemma FrontApart()
    ensures |NamesFront| == |CodesFront| == 15 && Apart(NamesFront)
  {
  }

  lemma FrontSpaceless()
    ensures Spaceless(CodesFront)
  {
  }

  lemma MiddleApart()
    ensures |NamesMiddle| == |CodesMiddle| == 14 && Apart(NamesMiddle)
  {
  }

  lemma MiddleSpaceless()
    ensures Spaceless(CodesMiddle)
  {
  }

  lemma BackApart()
    ensures |NamesBack| == |CodesBack| == 14 && Apart(NamesBack)
  {
  }

  lemma BackSpaceless()
    ensures Spaceless(CodesBack)
  {
  }

  lemma FrontMiddleAcross()
    ensures Across(NamesFront, NamesMiddle)
  {
  }

  lemma FrontBackAcross()
    ensures Across(NamesFront, NamesBack)
  {
  }

  lemma MiddleBackAcross()
    ensures Across(NamesMiddle, NamesBack)
  {
  }

  /** There are 43 labels; no two share a name, and no shortcode holds a
      space. */
  lemma LabelNamesDistinct()
    ensures |Labels| == 43
    ensures forall i, j :: 0 <= i < j < |Labels| ==> Labels[i].name != Labels[j].name
    ensures forall k :: 0 <= k < |Labels| ==> ' ' !in Labels[k].emoji
  {
    FrontApart();
    MiddleApart();
    BackApart();
    FrontSpaceless();
    MiddleSpaceless();
    BackSpaceless();
    FrontMiddleAcross();
    FrontBackAcross();
    MiddleBackAcross();
    ApartAppend(NamesFront, NamesMiddle);
    AcrossAppend(NamesFront, NamesMiddle, NamesBack);
    ApartAppend(NamesFront + NamesMiddle, NamesBack);
    SpacelessAppend(CodesFront, CodesMiddle);
    SpacelessAppend(CodesFront + CodesMiddle, CodesBack);
    assert Apart(LabelNames) && Spaceless(Shortcodes);
  }

  /** `getLabel`: `labels.filter(...)[0]`, the label of that name, which
      the table holds at most once; `None` for a name not in the table,
      where destructuring `undefined` throws. */
  function GetLabel(chosen: string): (r: Option<Label>)
    ensures r.Some? ==> r.value in Labels && r.value.name == chosen
    ensures r.Some? ==> forall j :: 0 <= j < |Labels| && Labels[j].name == chosen ==> Labels[j] == r.value
    ensures r.None? <==> forall j :: 0 <= j < |Labels| ==> Labels[j].name != chosen
  {
    LabelNamesDistinct();
    match FirstNamed(Labels, chosen)
    case None => None
    case Some(i) => Some(Labels[i])
  }

  /** `validateHeading`: only the empty heading is refused. */
  function ValidateHeading(input: string): (r: Validation)
    ensures r.Reject? <==> input == []
    ensures r.Reject? ==> r.message == "Heading cannot be empty"
  {
    if input == [] then Reject("Heading cannot be empty") else Accept
  }

  /** A commit message as `getCommitMessage` returns it. */
  datatype Message = Message(title: string, description: string)

  /** `getCommitMessage`: with a label, its shortcode, a space and the
      heading, and the description; without, the heading alone; both empty
      when a prompt is interrupted or the label is unknown. `description`
      is the description prompt's answer (`|| ""` changes nothing). */
  function GetCommitMessage(fancy: bool, chosen: Option<string>, headingAnswers: seq<string>, description: Option<string>)
    : Message
  {
    var l := if fancy && chosen.Some? then GetLabel(chosen.value) else None;
    Compose(fancy, l, Prompted(headingAnswers, ValidateHeading), description)
  }

  /** The `try` block once the label is looked up and the prompts answered. */
  function Compose(fancy: bool, l: Option<Label>, heading: Option<string>, description: Option<string>): Message {
    if fancy then
      if l.None? || heading.None? || description.None? then Message("", "")
      else Message(l.value.emoji + " " + heading.value, description.value)
    else if heading.None? then Message("", "")
    else Message(heading.value, "")
  }

  /** A labelled title reads back: the shortcode, a space, the heading. */
  lemma ComposeFancy(l: Label, h: string, d: string)
    ensures var m := Compose(true, Some(l), Some(h), Some(d));
            m == Message(l.emoji + " " + h, d)
            && m.title[..|l.emoji|] == l.emoji && m.title[|l.emoji|] == ' ' && m.title[|l.emoji| + 1..] == h
  {
    var t := l.emoji + " " + h;
    assert t[..|l.emoji|] == l.emoji;
    assert t[|l.emoji| + 1..] == h;
  }

  /** The title is empty exactly when no message was given; a plain title
      is the first non-empty heading answer and has no description. */
  lemma PlainMessage(headingAnswers: seq<string>, chosen: Option<string>, description: Option<string>)
    ensures var m := GetCommitMessage(false, chosen, headingAnswers, description);
            var h := Prompted(headingAnswers, ValidateHeading);
            m.description == []
            && (h.None? ==> m.title == [])
            && (h.Some? ==> m.title == h.value && m.title != [] && m.title in headingAnswers)
  {
  }

  /** Every listed name finds its own label. */
  lemma ListedLabelFound(k: nat)
    requires k < |Labels|
    ensures GetLabel(Labels[k].name) == Some(Labels[k])
  {
  }

  /** A labelled title is the label's shortcode, a space, then the heading,
      so the heading reads back from behind the shortcode. */
  lemma FancyMessage(chosen: string, headingAnswers: seq<string>, description: string)
    requires GetLabel(chosen).Some? && Prompted(headingAnswers, ValidateHeading).Some?
    ensures var m := GetCommitMessage(true, Some(chosen), headingAnswers, Some(description));
            var h := Prompted(headingAnswers, ValidateHeading).value;
            var e := GetLabel(chosen).value.emoji;
            m == Message(e + " " + h, description) && m.title != []
            && m.title[..|e|] == e && m.title[|e|] == ' ' && m.title[|e| + 1..] == h && h != []
            && IndexOf(m.title, ' ') == |e|
  {
    var l := GetLabel(chosen).value;
    var h := Prompted(headingAnswers, ValidateHeading).value;
    ComposeFancy(l, h, description);
    LabelNamesDistinct();
    IndexOfAfter(l.emoji, ' ', h);
    assert l.emoji + [' '] + h == l.emoji + " " + h;
  }

  /** An interrupted prompt or an unknown label gives the empty message. */
  lemma FancyEmpty(chosen: Option<string>, headingAnswers: seq<string>, description: Option<string>)
    requires chosen.None? || GetLabel(chosen.value).None? || Prompted(headingAnswers, ValidateHeading).None? || description.None?
    ensures GetCommitMessage(true, chosen, headingAnswers, description) == Message("", "")
  {
  }
}
