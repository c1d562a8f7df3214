/** The inline markup printer of the terminal views: `$codes ` opens a group
    of visual effects, a backtick closes the latest group, `&>` is a tab of
    four spaces and a newline swallows the indentation after it. The terminal
    is modelled as the list of commands sent to it. */
module Markup {
  import opened Text

  datatype Attribute = Bold | Italic | Underlined | Dim

  /** The colours the markup can name. */
  datatype Color = Red | Green | Blue | Yellow | Magenta | Cyan | White

  datatype VisualEffect =
    | SetAttribute(attribute: Attribute)
    | SetForegroundColor(fg: Color)
    | SetBackgroundColor(bg: Color)

  /** A terminal command: reset every attribute and colour, apply one effect,
      print text, or print a newline and move to the start of the next line. */
  datatype Command = Reset | Apply(effect: VisualEffect) | Print(text: string) | NextLine

  /** A finished print with the groups still open at the end, or a panic
      after the commands sent so far. */
  datatype PrintResult =
    | Done(out: seq<Command>, open: seq<seq<VisualEffect>>)
    | Panicked(out: seq<Command>)

  /** The effect named by one code of a `$` token, if any: `b`, `i`, `u`
      and `s` name the attributes, `c` or `b` followed by a colour letter a
      foreground or background colour. */
  function Lookup(code: string): Option<VisualEffect> {
    if |code| == 1 then
      match AttributeOf(code[0])
      case Some(a) => Some(SetAttribute(a))
      case None => None
    else if |code| == 2 && code[0] == 'c' then
      match ColorOf(code[1])
      case Some(c) => Some(SetForegroundColor(c))
      case None => None
    else if |code| == 2 && code[0] == 'b' then
      match ColorOf(code[1])
      case Some(c) => Some(SetBackgroundColor(c))
      case None => None
    else None
  }

  function AttributeOf(c: char): Option<Attribute> {
    match c
    case 'b' => Some(Bold)
    case 'i' => Some(Italic)
    case 'u' => Some(Underlined)
    case 's' => Some(Dim)
    case _ => None
  }

  function ColorOf(c: char): Option<Color> {
    match c
    case 'r' => Some(Red)
    case 'g' => Some(Green)
    case 'b' => Some(Blue)
    case 'y' => Some(Yellow)
    case 'm' => Some(Magenta)
    case 'c' => Some(Cyan)
    case 'w' => Some(White)
    case _ => None
  }

  function ColorLetter(c: Color): char {
    match c
    case Red => 'r'
    case Green => 'g'
    case Blue => 'b'
    case Yellow => 'y'
    case Magenta => 'm'
    case Cyan => 'c'
    case White => 'w'
  }

  /** The code that names an effect: the inverse of `Lookup`. */
  function Code(e: VisualEffect): string {
    match e
    case SetAttribute(Bold) => "b"
    case SetAttribute(Italic) => "i"
    case SetAttribute(Underlined) => "u"
    case SetAttribute(Dim) => "s"
    case SetForegroundColor(c) => ['c', ColorLetter(c)]
    case SetBackgroundColor(c) => ['b', ColorLetter(c)]
  }

  /** Every effect has exactly one code: looking up its code gives it back,
      and no other code gives it. */
  lemma LookupCode(e: VisualEffect, code: string)
    ensures Lookup(Code(e)) == Some(e)
    ensures Lookup(code) == Some(e) ==> code == Code(e)
  {
  }

  /** The first `$` at or after `k`, or the length. */
  function DollarFrom(e: string, k: nat): (j: nat)
    ensures k <= |e| ==> k <= j <= |e|
    ensures k > |e| ==> j == k
    ensures j < |e| ==> e[j] == '$'
    decreases |e| - k
  {
    if k >= |e| || e[k] == '$' then k else DollarFrom(e, k + 1)
  }

  /** No `$` lies between `k` and the one `DollarFrom` finds. */
  lemma {:induction false} DollarFromSkips(e: string, k: nat)
    ensures forall m :: k <= m < DollarFrom(e, k) ==> e[m] != '$'
    decreases |e| - k
  {
    if k < |e| && e[k] != '$' {
      DollarFromSkips(e, k + 1);
    }
  }

  /** The codes of a `$` token as its scanner cuts them, from index `i`:
      a piece takes its first character unconditionally and then runs to
      the next `$`, which is skipped. */
  function Pieces(e: string, i: nat): seq<string>
    decreases |e| - i
  {
    if i >= |e| then []
    else
      var j := DollarFrom(e, i + 1);
      [e[i..j]] + Pieces(e, j + 1)
  }

  /** Every code holds at least the character it starts with. */
  lemma {:induction false} PiecesNonEmpty(e: string, i: nat)
    ensures forall k :: 0 <= k < |Pieces(e, i)| ==> Pieces(e, i)[k] != []
    decreases |e| - i
  {
    if i < |e| {
      var j := DollarFrom(e, i + 1);
      PiecesNonEmpty(e, j + 1);
      PiecesStep(e, i);
      var p := Pieces(e, j + 1);
      assert forall k :: 1 <= k < |Pieces(e, i)| ==> Pieces(e, i)[k] == p[k - 1];
    }
  }

  /** The recognised effects among the codes, in order; the others are dropped. */
  function Collect(codes: seq<string>): (r: seq<VisualEffect>)
    ensures |r| <= |codes|
  {
    if codes == [] then []
    else
      var rest := Collect(codes[1..]);
      match Lookup(codes[0])
      case Some(e) => [e] + rest
      case None => rest
  }

  /** The effect group of a `$` token (its first character is the `$`). */
  function Decode(effect: string): seq<VisualEffect> {
    Collect(Pieces(effect, 1))
  }

  /** A well-formed token `$c1$c2...$cn` decodes its `$`-separated codes in
      order, dropping the unrecognised ones. */
  lemma DecodeSplit(e: string)
    requires |e| >= 2 && e[0] == '$' && e[1] != '$' && e[|e| - 1] != '$'
    requires forall m :: 1 <= m < |e| - 1 ==> !DoubleDollar(e, m)
    ensures Decode(e) == Collect(Split(e[1..], '$'))
  {
    PiecesAreSplit(e, 1);
  }

  /** An illustration of `DecodeSplit` and `Collect`: `$b$cr`, the token
      that opens the program's error messages (src/config/git.rs:52), is
      bold then red; `$bold` names nothing, as unknown codes are dropped. */
  lemma DecodeExamples()
    ensures Decode("$b$cr") == [SetAttribute(Bold), SetForegroundColor(Red)]
    ensures Decode("$bold") == []
  {
    assert DollarFrom("$b$cr", 2) == 2;
    assert DollarFrom("$b$cr", 4) == 5;
    assert "$b$cr"[1..2] == "b" && "$b$cr"[3..5] == "cr";
    assert Pieces("$b$cr", 1) == ["b", "cr"];
    assert DollarFrom("$bold", 2) == 5;
    assert "$bold"[1..5] == "bold";
    assert Pieces("$bold", 1) == ["bold"];
  }

  /** A `$` at `m` followed by another. */
  predicate DoubleDollar(e: string, m: nat)
    requires m + 1 < |e|
  {
    e[m] == '$' && e[m + 1] == '$'
  }

  /** When no two `$` touch and none ends the token, its codes are exactly
      the `$`-separated pieces of the text after the leading `$`. */
  lemma {:induction false} PiecesAreSplit(e: string, i: nat)
    requires 1 <= i < |e| && e[i] != '$' && e[|e| - 1] != '$'
    requires forall m :: i <= m < |e| - 1 ==> !DoubleDollar(e, m)
    ensures Pieces(e, i) == Split(e[i..], '$')
    decreases |e| - i
  {
    var j := DollarFrom(e, i + 1);
    if j == |e| {
      LastPiece(e, i);
    } else {
      NextPieceStarts(e, i, j);
      PiecesAreSplit(e, j + 1);
      PiecesCut(e, i, j);
      SplitCut(e, i, j);
      Combine(e[i..j], Pieces(e, i), Pieces(e, j + 1), Split(e[i..], '$'), Split(e[j + 1..], '$'));
    }
  }

  /** Two sequences with the same head and equal tails are equal. */
  lemma Combine<T>(x: T, p: seq<T>, p1: seq<T>, s: seq<T>, s1: seq<T>)
    requires p == [x] + p1 && s == [x] + s1 && p1 == s1
    ensures p == s
  {
  }

  /** The `$` that ends an inner code is followed by the next code's first character. */
  lemma NextPieceStarts(e: string, i: nat, j: nat)
    requires 1 <= i < |e| && e[i] != '$' && e[|e| - 1] != '$'
    requires j == DollarFrom(e, i + 1) && j < |e|
    requires forall m :: i <= m < |e| - 1 ==> !DoubleDollar(e, m)
    ensures j + 1 < |e| && e[j + 1] != '$'
  {
    assert j < |e| - 1;
    assert !DoubleDollar(e, j);
  }

  /** Splitting at the `$` that ends an inner code takes that code and continues after it. */
  lemma SplitCut(e: string, i: nat, j: nat)
    requires i < |e| && e[i] != '$' && j == DollarFrom(e, i + 1) && j < |e|
    ensures Split(e[i..], '$') == [e[i..j]] + Split(e[j + 1..], '$')
  {
    DollarIndex(e, i, j);
    SliceOfSlice(e, i, j);
    SplitShift(e[i..], e[i..j], e[j + 1..], j - i);
  }

  lemma SliceOfSlice<T>(s: seq<T>, i: nat, j: nat)
    requires i <= j < |s|
    ensures s[i..][..j - i] == s[i..j] && s[i..][j - i + 1..] == s[j + 1..]
  {
  }

  /** The cut at the first `$`, with the two sides named. */
  lemma SplitShift(t: string, x: string, y: string, k: nat)
    requires k < |t| && IndexOf(t, '$') == k && t[..k] == x && t[k + 1..] == y
    ensures Split(t, '$') == [x] + Split(y, '$')
  {
    SplitStep(t, '$', k);
  }

  lemma DollarIndex(e: string, i: nat, j: nat)
    requires i < |e| && e[i] != '$' && j == DollarFrom(e, i + 1) && j < |e|
    ensures IndexOf(e[i..], '$') == j - i
  {
    var t := e[i..];
    DollarFromSkips(e, i + 1);
    assert forall m :: 0 <= m < j - i ==> t[m] == e[i + m];
    IndexOfAt(t, '$', j - i);
  }

  /** A token tail without `$` is a single code. */
  lemma LastPiece(e: string, i: nat)
    requires i < |e| && DollarFrom(e, i + 1) == |e| && e[i] != '$'
    ensures Pieces(e, i) == Split(e[i..], '$')
  {
    var t := e[i..];
    PiecesStep(e, i);
    DollarFromSkips(e, i + 1);
    assert '$' !in t by {
      assert forall m :: 0 <= m < |t| ==> t[m] == e[i + m];
    }
    SplitWithout(t, '$');
    assert e[i..|e|] == t;
  }

  lemma PiecesCut(e: string, i: nat, j: nat)
    requires i < |e| && j == DollarFrom(e, i + 1)
    ensures Pieces(e, i) == [e[i..j]] + Pieces(e, j + 1)
  {
    PiecesStep(e, i);
  }

  lemma PiecesStep(e: string, i: nat)
    requires i < |e|
    ensures Pieces(e, i) == [e[i..DollarFrom(e, i + 1)]] + Pieces(e, DollarFrom(e, i + 1) + 1)
  {
  }

  lemma SplitStep(t: string, d: char, j: nat)
    requires j < |t| && IndexOf(t, d) == j
    ensures Split(t, d) == [t[..j]] + Split(t[j + 1..], d)
  {
  }

  /** The effects of a recognised code, none for an unrecognised one. */
  function Found(code: string): seq<VisualEffect> {
    match Lookup(code)
    case Some(e) => [e]
    case None => []
  }

  /** One code off the front of the remaining codes. */
  lemma DecodeStep(effect: string, start: nat, i: nat)
    requires start < |effect| && i == DollarFrom(effect, start + 1)
    ensures Collect(Pieces(effect, start)) == Found(effect[start..i]) + Collect(Pieces(effect, i + 1))
  {
    PiecesStep(effect, start);
    var p := Pieces(effect, i + 1);
    assert ([effect[start..i]] + p)[1..] == p;
  }

  lemma DollarFromStep(e: string, k: nat)
    requires k < |e| && e[k] != '$'
    ensures DollarFrom(e, k) == DollarFrom(e, k + 1)
  {
  }

  lemma SliceExtend<T>(s: seq<T>, a: nat, b: nat)
    requires a <= b < |s|
    ensures s[a..b] + [s[b]] == s[a..b + 1]
  {
  }

  /** The inner loop of `match_effect`: one code, from its first character
      (taken whatever it is) up to the next `$` or the end. */
  method ScanCode(effect: string, start: nat) returns (special: string, i: nat)
    requires start < |effect|
    ensures i == DollarFrom(effect, start + 1) && special == effect[start..i]
  {
    special := [effect[start]];
    SliceExtend(effect, start, start);
    i := start + 1;
    while i < |effect| && effect[i] != '$'
      invariant start < i <= |effect|
      invariant special == effect[start..i]
      invariant DollarFrom(effect, start + 1) == DollarFrom(effect, i)
    {
      DollarFromStep(effect, i);
      SliceExtend(effect, start, i);
      special := special + [effect[i]];
      i := i + 1;
    }
  }

  /** The loop step of `match_effect`: keeping the effect of the code just
      read keeps the effects found plus those still to come. */
  lemma MatchStep(effect: string, before: seq<VisualEffect>, start: nat, i: nat)
    requires start < |effect| && i == DollarFrom(effect, start + 1)
    requires before + Collect(Pieces(effect, start)) == Decode(effect)
    ensures before + Found(effect[start..i]) + Collect(Pieces(effect, i + 1)) == Decode(effect)
  {
    DecodeStep(effect, start, i);
    Assoc(before, Found(effect[start..i]), Collect(Pieces(effect, i + 1)));
  }

  /** `match_effect`: scan a `$` token into its effect group. */
  method MatchEffect(effect: string) returns (effects: seq<VisualEffect>)
    ensures effects == Decode(effect)
  {
    effects := [];
    var i := 1;
    while i < |effect|
      invariant 1 <= i <= |effect| + 1
      invariant effects + Collect(Pieces(effect, i)) == Decode(effect)
      decreases |effect| + 1 - i
    {
      var start := i;
      var special;
      special, i := ScanCode(effect, start);
      MatchStep(effect, effects, start, i);
      ghost var before := effects;
      var e := Lookup(special);
      if e.Some? {
        effects := effects + [e.value];
      }
      assert effects == before + Found(special);
      i := i + 1;
    }
  }

  /** All groups' effects, bottom group first. */
  function Flatten(stack: seq<seq<VisualEffect>>): seq<VisualEffect> {
    if stack == [] then [] else Flatten(stack[..|stack| - 1]) + stack[|stack| - 1]
  }

  function Applies(es: seq<VisualEffect>): seq<Command> {
    if es == [] then [] else Applies(es[..|es| - 1]) + [Apply(es[|es| - 1])]
  }

  /** What `set_new_effects` sends: a reset, then every stacked effect
      from the bottom group to the top. */
  function Replay(stack: seq<seq<VisualEffect>>): seq<Command> {
    [Reset] + Applies(Flatten(stack))
  }

  /** The effects in force on the terminal after a command list: those
      applied since the last reset, in order. */
  function Active(cmds: seq<Command>): seq<VisualEffect>
    decreases |cmds|
  {
    if cmds == [] then []
    else
      var init := cmds[..|cmds| - 1];
      match cmds[|cmds| - 1]
      case Reset => []
      case Apply(e) => Active(init) + [e]
      case Print(_) => Active(init)
      case NextLine => Active(init)
  }

  /** Applying effects after a list adds them to what is in force. */
  lemma {:induction false} ActiveApplies(cmds: seq<Command>, es: seq<VisualEffect>)
    ensures Active(cmds + Applies(es)) == Active(cmds) + es
    decreases |es|
  {
    if es == [] {
      assert cmds + Applies(es) == cmds;
    } else {
      var init, e := es[..|es| - 1], es[|es| - 1];
      assert es == init + [e];
      ApplyAppend(init, e);
      ActiveApplies(cmds, init);
      Assoc(cmds, Applies(init), [Apply(e)]);
      ActiveApply(cmds + Applies(init), e);
    }
  }

  /** One applied effect joins those in force. */
  lemma ActiveApply(cmds: seq<Command>, e: VisualEffect)
    ensures Active(cmds + [Apply(e)]) == Active(cmds) + [e]
  {
    assert (cmds + [Apply(e)])[..|cmds|] == cmds;
  }

  /** After a replay the effects in force are exactly the stacked ones. */
  lemma ActiveReplay(cmds: seq<Command>, stack: seq<seq<VisualEffect>>)
    ensures Active(cmds + Replay(stack)) == Flatten(stack)
  {
    ActiveApplies(cmds + [Reset], Flatten(stack));
    assert cmds + Replay(stack) == (cmds + [Reset]) + Applies(Flatten(stack));
  }

  /** Text and a newline do not change the effects in force. */
  lemma ActiveOutput(cmds: seq<Command>, c: Command)
    requires c.Print? || c.NextLine?
    ensures Active(cmds + [c]) == Active(cmds)
  {
    assert (cmds + [c])[..|cmds|] == cmds;
  }

  /** `set_new_effects`. */
  method SetNewEffects(effects: seq<seq<VisualEffect>>) returns (cmds: seq<Command>)
    ensures cmds == Replay(effects)
  {
    cmds := [Reset];
    for g := 0 to |effects|
      invariant cmds == [Reset] + Applies(Flatten(effects[..g]))
    {
      var group := effects[g];
      ghost var before := cmds;
      for k := 0 to |group|
        invariant cmds == before + Applies(group[..k])
      {
        ApplyAppend(group[..k], group[k]);
        assert group[..k + 1] == group[..k] + [group[k]];
        cmds := cmds + [Apply(group[k])];
      }
      assert group[..|group|] == group;
      FlattenStep(effects, g);
      AppliesConcat(Flatten(effects[..g]), group);
    }
    assert effects[..|effects|] == effects;
  }

  lemma FlattenStep(stack: seq<seq<VisualEffect>>, g: nat)
    requires g < |stack|
    ensures Flatten(stack[..g + 1]) == Flatten(stack[..g]) + stack[g]
  {
    assert stack[..g + 1][..g] == stack[..g];
  }

  lemma {:induction false} AppliesConcat(a: seq<VisualEffect>, b: seq<VisualEffect>)
    ensures Applies(a + b) == Applies(a) + Applies(b)
    decreases |b|
  {
    if b == [] {
      assert a + b == a;
    } else {
      var init, e := b[..|b| - 1], b[|b| - 1];
      AppliesConcat(a, init);
      assert a + b == (a + init) + [e];
      ApplyAppend(a + init, e);
    }
  }

  lemma ApplyAppend(es: seq<VisualEffect>, e: VisualEffect)
    ensures Applies(es + [e]) == Applies(es) + [Apply(e)]
  {
    assert (es + [e])[..|es|] == es;
  }

  /** The first space at or after `k`, or the length when there is none. */
  function SpaceFrom(s: string, k: nat): (j: nat)
    requires k <= |s|
    ensures k <= j <= |s|
    ensures forall m :: k <= m < j ==> s[m] != ' '
    ensures j < |s| ==> s[j] == ' '
    decreases |s| - k
  {
    if k == |s| || s[k] == ' ' then k else SpaceFrom(s, k + 1)
  }

  /** The first non-space at or after `k`, or the length. */
  function SkipSpaces(s: string, k: nat): (j: nat)
    requires k <= |s|
    ensures k <= j <= |s|
    ensures forall m :: k <= m < j ==> s[m] == ' '
    ensures j < |s| ==> s[j] != ' '
    decreases |s| - k
  {
    if k == |s| || s[k] != ' ' then k else SkipSpaces(s, k + 1)
  }

  /** The printer from index `i` with the open groups `stack`, having sent `out`. */
  function Scan(content: string, i: nat, stack: seq<seq<VisualEffect>>, out: seq<Command>): PrintResult
    decreases |content| - i
  {
    if i >= |content| then Done(out + [NextLine], stack)
    else
      var c := content[i];
      if c == '$' then
        var j := SpaceFrom(content, i);
        if j == |content| then Panicked(out)
        else
          var pushed := stack + [Decode(content[i..j])];
          Scan(content, j + 2, pushed, out + Replay(pushed))
      else if c == '`' then
        var popped := if stack == [] then [] else stack[..|stack| - 1];
        Scan(content, i + 1, popped, out + Replay(popped))
      else if c == '\n' then
        Scan(content, SkipSpaces(content, i + 1), stack, out + [NextLine])
      else if c == '&' then
        if i + 1 >= |content| then Done(out + [NextLine], stack)
        else Scan(content, i + 2, stack, if content[i + 1] == '>' then out + [Print("    ")] else out)
      else Scan(content, i + 1, stack, out + [Print([c])])
  }

  /** What `printer(content)` sends to the terminal. */
  function PrintMarkup(content: string): PrintResult {
    Scan(content, 0, [], [])
  }

  /** `printer`. */
  method Printer(content: string) returns (r: PrintResult)
    ensures r == PrintMarkup(content)
  {
    var n := |content|;
    var effects: seq<seq<VisualEffect>> := [];
    var out: seq<Command> := [];
    var i := 0;
    while i < n
      invariant i <= n + 1
      invariant Scan(content, i, effects, out) == PrintMarkup(content)
      decreases n + 1 - i
    {
      var c := content[i];
      if c == '$' {
        var special;
        special, i := ReadToken(content, i);
        if i == n {
          return Panicked(out);
        }
        var effect := MatchEffect(special);
        effects := effects + [effect];
        var cmds := SetNewEffects(effects);
        out := out + cmds;
        i := i + 2;
      } else if c == '`' {
        if effects != [] {
          effects := effects[..|effects| - 1];
        }
        var cmds := SetNewEffects(effects);
        out := out + cmds;
        i := i + 1;
      } else if c == '\n' {
        out := out + [NextLine];
        i := i + 1;
        i := SkipIndent(content, i);
      } else if c == '&' {
        i := i + 1;
        if i >= n {
          break;
        }
        if content[i] == '>' {
          out := out + [Print("    ")];
        }
        i := i + 1;
      } else {
        out := out + [Print([c])];
        i := i + 1;
      }
    }
    return Done(out + [NextLine], effects);
  }

  /** The `$` token from `start` up to the next space. */
  method ReadToken(content: string, start: nat) returns (special: string, i: nat)
    requires start < |content|
    ensures i == SpaceFrom(content, start) && special == content[start..i]
  {
    var n := |content|;
    i := start;
    special := "";
    while i < n && content[i] != ' '
      invariant start <= i <= n
      invariant special == content[start..i]
      invariant SpaceFrom(content, start) == SpaceFrom(content, i)
    {
      special := special + [content[i]];
      i := i + 1;
    }
  }

  /** Past the spaces that start a line. */
  method SkipIndent(content: string, after: nat) returns (i: nat)
    requires after <= |content|
    ensures i == SkipSpaces(content, after)
  {
    var n := |content|;
    i := after;
    while i < n && content[i] == ' '
      invariant after <= i <= n
      invariant SkipSpaces(content, i) == SkipSpaces(content, after)
    {
      i := i + 1;
    }
  }

  /** The text of `s` printed one character at a time. */
  function Prints(s: string): (r: seq<Command>)
    ensures |r| == |s|
  {
    if s == [] then [] else [Print([s[0]])] + Prints(s[1..])
  }

  /** No character of `s` is markup. */
  predicate Plain(s: string) {
    forall k :: 0 <= k < |s| ==> s[k] !in "$`\n&"
  }

  /** `r` starts with `out`, and, when finished, ends with a newline added after it. */
  predicate Extends(r: PrintResult, out: seq<Command>) {
    |out| <= |r.out| && r.out[..|out|] == out
    && (r.Done? ==> |r.out| > |out| && r.out[|r.out| - 1] == NextLine)
  }

  /** The printer only appends to what it has sent, and a finished print
      ends with exactly the one newline added after the content. */
  lemma {:induction false} ScanExtends(content: string, i: nat, stack: seq<seq<VisualEffect>>, out: seq<Command>)
    ensures Extends(Scan(content, i, stack, out), out)
    decreases |content| - i
  {
    if i < |content| {
      var c := content[i];
      if c == '$' {
        var j := SpaceFrom(content, i);
        if j < |content| {
          var pushed := stack + [Decode(content[i..j])];
          ScanExtends(content, j + 2, pushed, out + Replay(pushed));
          Prefix(out, Replay(pushed), Scan(content, j + 2, pushed, out + Replay(pushed)));
        }
      } else if c == '`' {
        var popped := if stack == [] then [] else stack[..|stack| - 1];
        ScanExtends(content, i + 1, popped, out + Replay(popped));
        Prefix(out, Replay(popped), Scan(content, i + 1, popped, out + Replay(popped)));
      } else if c == '\n' {
        var k := SkipSpaces(content, i + 1);
        ScanExtends(content, k, stack, out + [NextLine]);
        Prefix(out, [NextLine], Scan(content, k, stack, out + [NextLine]));
      } else if c == '&' {
        if i + 1 < |content| {
          var more: seq<Command> := if content[i + 1] == '>' then [Print("    ")] else [];
          assert out + more == if content[i + 1] == '>' then out + [Print("    ")] else out;
          ScanExtends(content, i + 2, stack, out + more);
          Prefix(out, more, Scan(content, i + 2, stack, out + more));
        }
      } else {
        ScanExtends(content, i + 1, stack, out + [Print([c])]);
        Prefix(out, [Print([c])], Scan(content, i + 1, stack, out + [Print([c])]));
      }
    }
  }

  lemma Prefix(out: seq<Command>, more: seq<Command>, r: PrintResult)
    requires Extends(r, out + more)
    ensures Extends(r, out)
  {
    assert r.out[..|out|] == (out + more)[..|out|];
  }

  /** Whatever was pushed and popped, the effects in force at the end of a
      finished print are exactly the groups left open, bottom to top: every
      push and pop replays the stack, and text and newlines leave it alone. */
  lemma {:induction false} ScanKeepsActive(content: string, i: nat, stack: seq<seq<VisualEffect>>, out: seq<Command>)
    requires Active(out) == Flatten(stack)
    ensures var r := Scan(content, i, stack, out);
            r.Done? ==> Active(r.out) == Flatten(r.open)
    decreases |content| - i
  {
    if i >= |content| {
      ActiveOutput(out, NextLine);
    } else {
      var c := content[i];
      if c == '$' {
        var j := SpaceFrom(content, i);
        if j < |content| {
          var pushed := stack + [Decode(content[i..j])];
          ActiveReplay(out, pushed);
          ScanKeepsActive(content, j + 2, pushed, out + Replay(pushed));
        }
      } else if c == '`' {
        var popped := if stack == [] then [] else stack[..|stack| - 1];
        ActiveReplay(out, popped);
        ScanKeepsActive(content, i + 1, popped, out + Replay(popped));
      } else if c == '\n' {
        ActiveOutput(out, NextLine);
        ScanKeepsActive(content, SkipSpaces(content, i + 1), stack, out + [NextLine]);
      } else if c == '&' {
        if i + 1 >= |content| {
          ActiveOutput(out, NextLine);
        } else if content[i + 1] == '>' {
          ActiveOutput(out, Print("    "));
          ScanKeepsActive(content, i + 2, stack, out + [Print("    ")]);
        } else {
          ScanKeepsActive(content, i + 2, stack, out);
        }
      } else {
        ActiveOutput(out, Print([c]));
        ScanKeepsActive(content, i + 1, stack, out + [Print([c])]);
      }
    }
  }

  /** A finished `printer` call ends with one newline, and the spans left
      unclosed are still in force at the end. */
  lemma PrinterEnd(content: string)
    ensures var r := PrintMarkup(content);
            r.Done? ==> r.out != [] && r.out[|r.out| - 1] == NextLine && Active(r.out) == Flatten(r.open)
  {
    ScanExtends(content, 0, [], []);
    assert Extends(PrintMarkup(content), []);
    ScanKeepsActive(content, 0, [], []);
  }

  /** A stretch without markup characters is printed one character at a time. */
  lemma {:induction false} ScanPlainTo(content: string, i: nat, k: nat, stack: seq<seq<VisualEffect>>, out: seq<Command>)
    requires i <= k <= |content| && Plain(content[i..k])
    ensures Scan(content, i, stack, out) == Scan(content, k, stack, out + Prints(content[i..k]))
    decreases k - i
  {
    if i < k {
      var rest := content[i + 1..k];
      assert content[i..k][0] == content[i];
      assert content[i..k][1..] == rest;
      assert Plain(rest) by {
        assert forall m :: 0 <= m < |rest| ==> rest[m] == content[i..k][m + 1];
      }
      ScanPlainTo(content, i + 1, k, stack, out + [Print([content[i]])]);
      assert out + Prints(content[i..k]) == out + [Print([content[i]])] + Prints(rest);
    } else {
      assert out + Prints(content[i..k]) == out;
    }
  }

  /** Text without markup characters is printed verbatim, then a newline. */
  lemma ScanPlain(content: string, i: nat, stack: seq<seq<VisualEffect>>, out: seq<Command>)
    requires i <= |content| && Plain(content[i..])
    ensures Scan(content, i, stack, out) == Done(out + Prints(content[i..]) + [NextLine], stack)
  {
    assert content[i..|content|] == content[i..];
    ScanPlainTo(content, i, |content|, stack, out);
  }

  /** `printer` on text without markup prints it as it is. */
  lemma PrinterPlain(content: string)
    requires Plain(content)
    ensures PrintMarkup(content) == Done(Prints(content) + [NextLine], [])
  {
    ScanPlain(content, 0, [], []);
    assert content[0..] == content;
    assert [] + Prints(content) == Prints(content);
  }

  /** Without a `$` still to come the printer cannot panic. */
  lemma {:induction false} ScanNoDollar(content: string, i: nat, stack: seq<seq<VisualEffect>>, out: seq<Command>)
    requires forall k :: i <= k < |content| ==> content[k] != '$'
    ensures Scan(content, i, stack, out).Done?
    decreases |content| - i
  {
    if i < |content| {
      var c := content[i];
      if c == '`' {
        var popped := if stack == [] then [] else stack[..|stack| - 1];
        ScanNoDollar(content, i + 1, popped, out + Replay(popped));
      } else if c == '\n' {
        ScanNoDollar(content, SkipSpaces(content, i + 1), stack, out + [NextLine]);
      } else if c == '&' {
        if i + 1 < |content| {
          ScanNoDollar(content, i + 2, stack, if content[i + 1] == '>' then out + [Print("    ")] else out);
        }
      } else {
        ScanNoDollar(content, i + 1, stack, out + [Print([c])]);
      }
    }
  }

  /** `$b` is the bold group. */
  lemma DecodeBold()
    ensures Decode("$b") == [SetAttribute(Bold)]
  {
    assert DollarFrom("$b", 2) == 2;
    assert "$b"[1..2] == "b";
    assert Pieces("$b", 1) == ["b"];
  }

  /** A bold span: `$b ` opens the group (the character after the space is
      skipped with it), the text is printed, and the closing backtick resets. */
  lemma BoldSpan(text: string)
    requires Plain(text)
    ensures PrintMarkup("$b `" + text + "`") ==
            Done([Reset, Apply(SetAttribute(Bold))] + Prints(text) + [Reset, NextLine], [])
  {
    var c := "$b `" + text + "`";
    var g := [[SetAttribute(Bold)]];
    var o := [Reset, Apply(SetAttribute(Bold))];
    var k := 4 + |text|;
    BoldOpens(text);
    assert c[4..k] == text;
    ScanPlainTo(c, 4, k, g, o);
    BoldCloses(text, o + Prints(text));
    Assoc(o, Prints(text), [Reset, NextLine]);
  }

  /** `$b ` followed by one more character pushes the bold group and replays it. */
  lemma BoldOpens(text: string)
    ensures var c := "$b `" + text + "`";
            Scan(c, 0, [], []) == Scan(c, 4, [[SetAttribute(Bold)]], [Reset, Apply(SetAttribute(Bold))])
  {
    var c := "$b `" + text + "`";
    assert c[0] == '$' && c[1] == 'b' && c[2] == ' ';
    assert SpaceFrom(c, 0) == 2;
    assert c[0..2] == "$b";
    ScanToken(c, 0, [], []);
    DecodeBold();
    BoldReplay();
  }

  /** A `$` token with a space after it pushes its group, replays the
      stack and skips the space and the character after it. */
  lemma ScanToken(content: string, i: nat, stack: seq<seq<VisualEffect>>, out: seq<Command>)
    requires i < |content| && content[i] == '$' && SpaceFrom(content, i) < |content|
    ensures var j := SpaceFrom(content, i);
            var pushed := stack + [Decode(content[i..j])];
            Scan(content, i, stack, out) == Scan(content, j + 2, pushed, out + Replay(pushed))
  {
  }

  /** Pushing the bold group onto nothing replays a reset and bold. */
  lemma BoldReplay()
    ensures [] + [[SetAttribute(Bold)]] == [[SetAttribute(Bold)]]
    ensures [] + Replay([[SetAttribute(Bold)]]) == [Reset, Apply(SetAttribute(Bold))]
  {
    assert Flatten([[SetAttribute(Bold)]]) == [SetAttribute(Bold)];
  }

  /** The closing backtick pops the bold group, resets, and ends the text. */
  lemma BoldCloses(text: string, out: seq<Command>)
    ensures var c := "$b `" + text + "`";
            Scan(c, 4 + |text|, [[SetAttribute(Bold)]], out) == Done(out + [Reset, NextLine], [])
  {
    var c := "$b `" + text + "`";
    var k := 4 + |text|;
    assert c[k] == '`' && k + 1 == |c|;
    assert Replay([]) == [Reset];
    assert Scan(c, k, [[SetAttribute(Bold)]], out) == Scan(c, k + 1, [], out + [Reset]);
    assert out + [Reset] + [NextLine] == out + [Reset, NextLine];
  }

  /** An illustration of `BoldSpan`, the formatter's usage example:
      `"$b `hello`"` prints "hello" in bold and resets afterwards. */
  lemma BoldHello()
    ensures PrintMarkup("$b `" + "hello" + "`") ==
            Done([Reset, Apply(SetAttribute(Bold))] + [Print("h"), Print("e"), Print("l"), Print("l"), Print("o")] + [Reset, NextLine], [])
  {
    PlainHello();
    BoldSpan("hello");
  }

  lemma PlainHello()
    ensures Plain("hello")
    ensures Prints("hello") == [Print("h"), Print("e"), Print("l"), Print("l"), Print("o")]
  {
  }

  /** A `$` with no space after it makes the printer panic. */
  lemma DollarWithoutSpace()
    ensures PrintMarkup("ok $b").Panicked?
  {
    assert SpaceFrom("ok $b", 3) == 5;
  }

  /** A newline swallows the indentation after it. */
  lemma NewlineIndent()
    ensures PrintMarkup("a\n   b") == Done([Print("a"), NextLine, Print("b"), NextLine], [])
  {
    assert SkipSpaces("a\n   b", 2) == 5;
  }

  /** `&>` is four spaces, `&` and any other character print nothing, and a
      final `&` ends the text; a backtick with nothing open only resets. */
  lemma AmpersandsAndEmptyPop()
    ensures PrintMarkup("&>x&y&") == Done([Print("    "), Print("x"), NextLine], [])
    ensures PrintMarkup("`a") == Done([Reset, Print("a"), NextLine], [])
  {
    assert Replay([]) == [Reset];
  }
}
