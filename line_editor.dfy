/** The raw-mode line editor behind `text` and `password` prompts: a loop
    over key events that edits a line buffer and a cursor, and ends on
    Enter (the text), Esc (Cancel) or Ctrl-C (Exit). */
module LineEditor {
  import opened Text

  datatype TextInputType = TextInput | PasswordInput

  datatype ReturnType = Cancel | Exit

  /** What the prompt returns: the typed text, or why there is none. */
  datatype Outcome = Ok(text: string) | Err(reason: ReturnType)

  datatype KeyCode = Char(c: char) | Backspace | Left | Right | Enter | Esc | OtherKey

  /** The modifier set of a key event; the editor reacts only to exactly
      none, exactly Control or exactly Alt. */
  datatype KeyModifiers = NoModifier | Control | Alt | OtherModifiers

  datatype Event = Key(code: KeyCode, modifiers: KeyModifiers) | OtherEvent

  /** The edited line, the cursor (a byte index into it) and the text last
      painted after the prompt. */
  datatype State = State(input: string, cursor: nat, shown: string)

  datatype Transition = Continue(next: State) | Finish(outcome: Outcome)

  /** A finished prompt, or the state it waits in when the events run out. */
  datatype RunResult = Finished(outcome: Outcome) | Waiting(state: State)

  predicate Valid(st: State) {
    st.cursor <= |st.input|
  }

  function Initial(): (st: State)
    ensures Valid(st) && st.input == [] && st.shown == []
  {
    State([], 0, [])
  }

  /** `n` asterisks: how a password of length `n` is drawn. */
  function Mask(n: nat): (r: string)
    ensures |r| == n
    ensures forall i :: 0 <= i < n ==> r[i] == '*'
  {
    if n == 0 then [] else Mask(n - 1) + ['*']
  }

  /** How Backspace and Ctrl-U repaint: as the program does, with the
      buffer itself, or masked like a character insert. */
  datatype Repainting = AsWritten | Masked

  /** The text drawn after the prompt for a given buffer. */
  function Repaint(kind: TextInputType, input: string): (r: string)
    ensures |r| == |input|
    ensures kind == PasswordInput ==> forall i :: 0 <= i < |r| ==> r[i] == '*'
    ensures kind == TextInput ==> r == input
  {
    if kind == PasswordInput then Mask(|input|) else input
  }

  /** What Backspace and Ctrl-U draw for the new buffer. */
  function Painted(mode: Repainting, kind: TextInputType, input: string): (r: string)
    ensures |r| == |input|
    ensures mode == AsWritten ==> r == input
    ensures mode == Masked ==> r == Repaint(kind, input)
  {
    if mode == Masked then Repaint(kind, input) else input
  }

  /** `rfind(char::is_whitespace)`: the last whitespace index, or -1. */
  function LastWhitespace(s: string): (r: int)
    ensures -1 <= r < |s|
    ensures r >= 0 ==> IsWhitespace(s[r])
    ensures forall j :: r < j < |s| ==> !IsWhitespace(s[j])
  {
    if s == [] then -1
    else if IsWhitespace(s[|s| - 1]) then |s| - 1
    else LastWhitespace(s[..|s| - 1])
  }

  /** `find(char::is_whitespace)`: the first whitespace index, or -1. */
  function FirstWhitespace(s: string): (r: int)
    ensures -1 <= r < |s|
    ensures r >= 0 ==> IsWhitespace(s[r])
    ensures forall j :: 0 <= j < |s| && (r == -1 || j < r) ==> !IsWhitespace(s[j])
  {
    if s == [] then -1
    else if IsWhitespace(s[0]) then 0
    else
      var k := FirstWhitespace(s[1..]);
      if k == -1 then -1 else k + 1
  }

  /** Alt-B in text mode: step back over one whitespace just before the
      cursor, then go to just after the previous whitespace, or to 0. */
  function WordStart(s: string, cursor: nat): (r: nat)
    requires cursor <= |s|
    ensures r <= cursor
    ensures cursor > 0 ==> r < cursor
    ensures r > 0 ==> IsWhitespace(s[r - 1])
    ensures forall j :: r <= j < cursor - 1 ==> !IsWhitespace(s[j])
  {
    var c := if cursor > 0 && IsWhitespace(s[cursor - 1]) then cursor - 1 else cursor;
    var p := LastWhitespace(s[..c]);
    if p >= 0 then p + 1 else 0
  }

  /** Alt-F in text mode: step over one whitespace under the cursor, then go
      to the next whitespace, or to the end. */
  function WordEnd(s: string, cursor: nat): (r: nat)
    requires cursor <= |s|
    ensures cursor <= r <= |s|
    ensures cursor < |s| ==> cursor < r
    ensures r < |s| ==> IsWhitespace(s[r])
    ensures forall j :: cursor < j < r ==> !IsWhitespace(s[j])
  {
    var c := if cursor < |s| && IsWhitespace(s[cursor]) then cursor + 1 else cursor;
    var p := FirstWhitespace(s[c..]);
    if p >= 0 then c + p else |s|
  }

  /** Ctrl-W / Ctrl-H in text mode: where the deleted word starts, which is
      the last whitespace before the cursor (itself deleted), or 0. */
  function WordDeleteFrom(s: string, cursor: nat): (r: nat)
    requires cursor <= |s|
    ensures r <= cursor
    ensures (exists j :: 0 <= j < cursor && IsWhitespace(s[j])) ==>
              r < cursor && IsWhitespace(s[r]) && forall j :: r < j < cursor ==> !IsWhitespace(s[j])
    ensures (forall j :: 0 <= j < cursor ==> !IsWhitespace(s[j])) ==> r == 0
  {
    var p := LastWhitespace(s[..cursor]);
    assert forall j :: 0 <= j < cursor ==> s[..cursor][j] == s[j];
    if p >= 0 then p else 0
  }

  /** A printable key: `c` is inserted at the cursor, which moves past it. */
  function AfterInsert(kind: TextInputType, st: State, c: char): (r: State)
    requires Valid(st)
    ensures Valid(r)
    ensures |r.input| == |st.input| + 1 && r.cursor == st.cursor + 1
    ensures r.input[..st.cursor] == st.input[..st.cursor]
    ensures r.input[st.cursor] == c
    ensures r.input[st.cursor + 1..] == st.input[st.cursor..]
    ensures r.shown == Repaint(kind, r.input)
  {
    var input := st.input[..st.cursor] + [c] + st.input[st.cursor..];
    assert input[st.cursor + 1..] == st.input[st.cursor..];
    State(input, st.cursor + 1, Repaint(kind, input))
  }

  /** Backspace: the character before the cursor goes; nothing at column 0. */
  function AfterBackspace(kind: TextInputType, mode: Repainting, st: State): (r: State)
    requires Valid(st)
    ensures Valid(r)
    ensures st.cursor == 0 ==> r == st
    ensures st.cursor > 0 ==>
              && |r.input| == |st.input| - 1
              && r.cursor == st.cursor - 1
              && r.input[..r.cursor] == st.input[..r.cursor]
              && r.input[r.cursor..] == st.input[st.cursor..]
              && r.shown == Painted(mode, kind, r.input)
  {
    if st.cursor > 0 then
      var c := st.cursor - 1;
      var input := st.input[..c] + st.input[c + 1..];
      assert input[..c] == st.input[..c];
      assert input[c..] == st.input[c + 1..];
      State(input, c, Painted(mode, kind, input))
    else st
  }

  /** Left: one back, clamped at 0; the text is untouched. */
  function AfterLeft(st: State): (r: State)
    requires Valid(st)
    ensures Valid(r) && r.input == st.input && r.shown == st.shown
    ensures r.cursor == if st.cursor > 0 then st.cursor - 1 else 0
  {
    if st.cursor > 0 then st.(cursor := st.cursor - 1) else st
  }

  /** Right: one forward, clamped at the end; the text is untouched. */
  function AfterRight(st: State): (r: State)
    requires Valid(st)
    ensures Valid(r) && r.input == st.input && r.shown == st.shown
    ensures r.cursor == if st.cursor < |st.input| then st.cursor + 1 else |st.input|
  {
    if st.cursor < |st.input| then st.(cursor := st.cursor + 1) else st
  }

  /** Ctrl-U: everything before the cursor goes and the cursor goes to 0. */
  function AfterKillLine(kind: TextInputType, mode: Repainting, st: State): (r: State)
    requires Valid(st)
    ensures Valid(r) && r.cursor == 0
    ensures st.input == st.input[..st.cursor] + r.input
    ensures r.shown == Painted(mode, kind, r.input)
  {
    var input := st.input[st.cursor..];
    State(input, 0, Painted(mode, kind, input))
  }

  /** Ctrl-W / Ctrl-H: in text mode the word before the cursor (from the last
      whitespace before it) goes; in password mode the whole buffer goes.
      The buffer is repainted as it is, which for a password is empty. */
  function AfterKillWord(kind: TextInputType, st: State): (r: State)
    requires Valid(st)
    ensures Valid(r)
    ensures kind == PasswordInput ==> r.input == [] && r.cursor == 0
    ensures kind == TextInput ==>
              && r.cursor == WordDeleteFrom(st.input, st.cursor)
              && r.input[..r.cursor] == st.input[..r.cursor]
              && r.input[r.cursor..] == st.input[st.cursor..]
    ensures r.shown == r.input && r.shown == Repaint(kind, r.input)
  {
    if kind == PasswordInput then State([], 0, [])
    else
      var from := WordDeleteFrom(st.input, st.cursor);
      var input := st.input[..from] + st.input[st.cursor..];
      assert input[..from] == st.input[..from];
      assert input[from..] == st.input[st.cursor..];
      State(input, from, input)
  }

  /** Alt-B: to the start of the word (text) or of the line (password). */
  function AfterWordBack(kind: TextInputType, st: State): (r: State)
    requires Valid(st)
    ensures Valid(r) && r.input == st.input && r.shown == st.shown
    ensures r.cursor == if kind == TextInput then WordStart(st.input, st.cursor) else 0
  {
    st.(cursor := if kind == TextInput then WordStart(st.input, st.cursor) else 0)
  }

  /** Alt-F: to the end of the word (text) or of the line (password). */
  function AfterWordForward(kind: TextInputType, st: State): (r: State)
    requires Valid(st)
    ensures Valid(r) && r.input == st.input && r.shown == st.shown
    ensures r.cursor == if kind == TextInput then WordEnd(st.input, st.cursor) else |st.input|
  {
    st.(cursor := if kind == TextInput then WordEnd(st.input, st.cursor) else |st.input|)
  }

  /** One iteration of the key loop: each handled key and what it does. */
  function Step(kind: TextInputType, mode: Repainting, st: State, ev: Event): (r: Transition)
    requires Valid(st)
    ensures r.Continue? ==> Valid(r.next)
    ensures r.Finish? <==> ev in {Key(Enter, NoModifier), Key(Esc, NoModifier), Key(Char('c'), Control)}
    ensures ev == Key(Enter, NoModifier) ==> r == Finish(Ok(st.input))
    ensures ev == Key(Esc, NoModifier) ==> r == Finish(Err(Cancel))
    ensures ev == Key(Char('c'), Control) ==> r == Finish(Err(Exit))
    ensures ev.Key? && ev.modifiers == NoModifier && ev.code.Char? ==> r == Continue(AfterInsert(kind, st, ev.code.c))
    ensures ev == Key(Backspace, NoModifier) ==> r == Continue(AfterBackspace(kind, mode, st))
    ensures ev == Key(Left, NoModifier) ==> r == Continue(AfterLeft(st))
    ensures ev == Key(Right, NoModifier) ==> r == Continue(AfterRight(st))
    ensures ev == Key(Char('a'), Control) ==> r == Continue(st.(cursor := 0))
    ensures ev == Key(Char('e'), Control) ==> r == Continue(st.(cursor := |st.input|))
    ensures ev == Key(Char('u'), Control) ==> r == Continue(AfterKillLine(kind, mode, st))
    ensures ev == Key(Char('w'), Control) || ev == Key(Char('h'), Control) ==> r == Continue(AfterKillWord(kind, st))
    ensures ev == Key(Char('b'), Alt) ==> r == Continue(AfterWordBack(kind, st))
    ensures ev == Key(Char('f'), Alt) ==> r == Continue(AfterWordForward(kind, st))
    ensures ev in {OtherEvent, Key(OtherKey, NoModifier)} || (ev.Key? && ev.modifiers == OtherModifiers) ==> r == Continue(st)
  {
    match ev
    case OtherEvent => Continue(st)
    case Key(code, mods) =>
      match mods
      case Alt =>
        if code == Char('b') then Continue(AfterWordBack(kind, st))
        else if code == Char('f') then Continue(AfterWordForward(kind, st))
        else Continue(st)
      case Control =>
        if code == Char('c') then Finish(Err(Exit))
        else if code == Char('a') then Continue(st.(cursor := 0))
        else if code == Char('e') then Continue(st.(cursor := |st.input|))
        else if code == Char('u') then Continue(AfterKillLine(kind, mode, st))
        else if code == Char('h') || code == Char('w') then Continue(AfterKillWord(kind, st))
        else Continue(st)
      case NoModifier =>
        (match code
         case Esc => Finish(Err(Cancel))
         case Enter => Finish(Ok(st.input))
         case Backspace => Continue(AfterBackspace(kind, mode, st))
         case Left => Continue(AfterLeft(st))
         case Right => Continue(AfterRight(st))
         case Char(c) => Continue(AfterInsert(kind, st, c))
         case OtherKey => Continue(st))
      case OtherModifiers => Continue(st)
  }

  /** The key loop fed a finite sequence of events. */
  function Run(kind: TextInputType, mode: Repainting, st: State, events: seq<Event>): (r: RunResult)
    requires Valid(st)
    ensures r.Waiting? ==> Valid(r.state)
    decreases |events|
  {
    if events == [] then Waiting(st)
    else
      match Step(kind, mode, st, events[0])
      case Finish(o) => Finished(o)
      case Continue(next) => Run(kind, mode, next, events[1..])
  }

  /** The painted text is always the buffer, either masked (as a character
      key draws it) or, after Backspace or Ctrl-U in the program as written,
      as it is. */
  predicate ShowsBuffer(kind: TextInputType, mode: Repainting, st: State) {
    st.shown == Repaint(kind, st.input) || (mode == AsWritten && st.shown == st.input)
  }

  /** Every key keeps the painted text a drawing of the buffer. */
  lemma StepShowsBuffer(kind: TextInputType, mode: Repainting, st: State, ev: Event)
    requires Valid(st) && ShowsBuffer(kind, mode, st)
    ensures var r := Step(kind, mode, st, ev);
            r.Continue? ==> ShowsBuffer(kind, mode, r.next)
  {
  }

  /** After any sequence of keys the painted text is a drawing of the buffer. */
  lemma {:induction false} RunShowsBuffer(kind: TextInputType, mode: Repainting, st: State, events: seq<Event>)
    requires Valid(st) && ShowsBuffer(kind, mode, st)
    ensures var r := Run(kind, mode, st, events);
            r.Waiting? ==> ShowsBuffer(kind, mode, r.state)
    decreases |events|
  {
    if events != [] {
      StepShowsBuffer(kind, mode, st, events[0]);
      match Step(kind, mode, st, events[0])
      case Finish(_) =>
      case Continue(next) => RunShowsBuffer(kind, mode, next, events[1..]);
    }
  }

  /** With the masked repaint, after any sequence of keys the painted text
      is the buffer masked in password mode: a password is never drawn. */
  lemma {:induction false} RunKeepsMask(kind: TextInputType, st: State, events: seq<Event>)
    requires Valid(st) && st.shown == Repaint(kind, st.input)
    ensures var r := Run(kind, Masked, st, events);
            r.Waiting? ==> r.state.shown == Repaint(kind, r.state.input)
    ensures var r := Run(kind, Masked, st, events);
            r.Waiting? && kind == PasswordInput ==>
              forall i :: 0 <= i < |r.state.shown| ==> r.state.shown[i] == '*'
    decreases |events|
  {
    if events != [] {
      match Step(kind, Masked, st, events[0])
      case Finish(_) =>
      case Continue(next) => RunKeepsMask(kind, next, events[1..]);
    }
  }

  /** The key events of typing `cs`, one plain character key each. */
  function Typed(cs: string): (r: seq<Event>)
    ensures |r| == |cs|
    ensures cs != [] ==> r[0] == Key(Char(cs[0]), NoModifier)
  {
    if cs == [] then [] else [Key(Char(cs[0]), NoModifier)] + Typed(cs[1..])
  }

  /** Running from a state whose first event continues. */
  lemma RunStep(kind: TextInputType, mode: Repainting, st: State, events: seq<Event>, next: State)
    requires Valid(st) && events != [] && Step(kind, mode, st, events[0]) == Continue(next)
    ensures Run(kind, mode, st, events) == Run(kind, mode, next, events[1..])
  {
  }

  /** Typing a first character inserts it and leaves the rest to type. */
  lemma TypeFirst(kind: TextInputType, mode: Repainting, st: State, cs: string)
    requires Valid(st) && cs != []
    ensures Run(kind, mode, st, Typed(cs)) == Run(kind, mode, AfterInsert(kind, st, cs[0]), Typed(cs[1..]))
  {
    var evs := Typed(cs);
    RunStep(kind, mode, st, evs, AfterInsert(kind, st, cs[0]));
    assert evs[1..] == Typed(cs[1..]);
  }

  /** Typing characters with nothing else in between appends them in order
      and leaves the cursor after the last. */
  lemma {:induction false} TypingAppends(kind: TextInputType, mode: Repainting, st: State, cs: string)
    requires Valid(st) && st.cursor == |st.input| && st.shown == Repaint(kind, st.input)
    ensures Run(kind, mode, st, Typed(cs)) == Waiting(State(st.input + cs, |st.input| + |cs|, Repaint(kind, st.input + cs)))
    decreases |cs|
  {
    if cs == [] {
      assert st.input + cs == st.input;
    } else {
      var c := cs[0];
      InsertAtEnd(kind, st, c);
      TypeFirst(kind, mode, st, cs);
      TypingAppends(kind, mode, AfterInsert(kind, st, c), cs[1..]);
      Assoc(st.input, [c], cs[1..]);
      assert [c] + cs[1..] == cs;
    }
  }

  /** A character typed at the end of the buffer is appended to it. */
  lemma InsertAtEnd(kind: TextInputType, st: State, c: char)
    requires Valid(st) && st.cursor == |st.input|
    ensures AfterInsert(kind, st, c) == State(st.input + [c], |st.input| + 1, Repaint(kind, st.input + [c]))
  {
    assert st.input[..st.cursor] == st.input && st.input[st.cursor..] == [];
  }

  /** From "help" with the cursor at the end: Backspace, Backspace, "y", Enter. */
  lemma HelpTail(kind: TextInputType, mode: Repainting)
    ensures Run(kind, mode, State("help", 4, Repaint(kind, "help")),
                [Key(Backspace, NoModifier), Key(Backspace, NoModifier), Key(Char('y'), NoModifier), Key(Enter, NoModifier)])
            == Finished(Ok("hey"))
  {
    var tail := [Key(Backspace, NoModifier), Key(Backspace, NoModifier), Key(Char('y'), NoModifier), Key(Enter, NoModifier)];
    var s4 := State("help", 4, Repaint(kind, "help"));
    var s5 := AfterBackspace(kind, mode, s4);
    RunStep(kind, mode, s4, tail, s5);
    var s6 := AfterBackspace(kind, mode, s5);
    RunStep(kind, mode, s5, tail[1..], s6);
    assert s6.input == "he";
    var s7 := AfterInsert(kind, s6, 'y');
    RunStep(kind, mode, s6, tail[2..], s7);
    assert s7.input == "hey";
  }

  /** An illustration of `Run` and `TypingAppends` together, the editor's
      usage example: "h", "e", "l", "p", Backspace, Backspace, "y", Enter
      yields "hey". */
  lemma HelpScenario(kind: TextInputType, mode: Repainting)
    ensures Run(kind, mode, Initial(), Typed("help") + [Key(Backspace, NoModifier), Key(Backspace, NoModifier)]
                                        + Typed("y") + [Key(Enter, NoModifier)]) == Finished(Ok("hey"))
  {
    var bs, enter, y := Key(Backspace, NoModifier), Key(Enter, NoModifier), Key(Char('y'), NoModifier);
    assert Typed("y") == [y];
    var tail := [bs, bs, y, enter];
    var evs := Typed("help") + [bs, bs] + Typed("y") + [enter];
    assert evs == Typed("help") + tail;
    var s4 := State("help", 4, Repaint(kind, "help"));
    HelpTyped(kind, mode);
    RunPrefix(kind, mode, Initial(), Typed("help"), tail);
    assert Run(kind, mode, Initial(), evs) == Run(kind, mode, s4, tail);
    HelpTail(kind, mode);
  }

  /** Typing into an empty prompt leaves the typed text, the cursor at its
      end, and its drawing. */
  lemma TypingFromEmpty(kind: TextInputType, mode: Repainting, cs: string)
    ensures Run(kind, mode, Initial(), Typed(cs)) == Waiting(State(cs, |cs|, Repaint(kind, cs)))
  {
    TypingAppends(kind, mode, Initial(), cs);
    assert Initial().input + cs == cs;
  }

  /** Typing "help" into an empty prompt. */
  lemma HelpTyped(kind: TextInputType, mode: Repainting)
    ensures Run(kind, mode, Initial(), Typed("help")) == Waiting(State("help", 4, Repaint(kind, "help")))
  {
    TypingFromEmpty(kind, mode, "help");
  }

  /** Running two event sequences one after the other. */
  lemma {:induction false} RunPrefix(kind: TextInputType, mode: Repainting, st: State, first: seq<Event>, rest: seq<Event>)
    requires Valid(st)
    ensures var r := Run(kind, mode, st, first);
            Run(kind, mode, st, first + rest) == if r.Finished? then r else Run(kind, mode, r.state, rest)
    decreases |first|
  {
    if first == [] {
      assert first + rest == rest;
    } else {
      assert (first + rest)[0] == first[0];
      assert (first + rest)[1..] == first[1..] + rest;
      match Step(kind, mode, st, first[0])
      case Finish(_) =>
      case Continue(next) => RunPrefix(kind, mode, next, first[1..], rest);
    }
  }

  /** As written, a password prompt that was typed "pw" and then got one
      Backspace draws "p": the password itself. The masked repaint draws
      "*" instead. */
  lemma BackspaceShowsPassword()
    ensures Run(PasswordInput, AsWritten, Initial(), Typed("pw") + [Key(Backspace, NoModifier)])
            == Waiting(State("p", 1, "p"))
    ensures Run(PasswordInput, Masked, Initial(), Typed("pw") + [Key(Backspace, NoModifier)])
            == Waiting(State("p", 1, "*"))
  {
    TypeThenBackspace(AsWritten);
    TypeThenBackspace(Masked);
  }

  /** Typing "pw" into a password prompt and pressing Backspace. */
  lemma TypeThenBackspace(mode: Repainting)
    ensures Run(PasswordInput, mode, Initial(), Typed("pw") + [Key(Backspace, NoModifier)])
            == Waiting(AfterBackspace(PasswordInput, mode, State("pw", 2, Mask(2))))
  {
    var bs := [Key(Backspace, NoModifier)];
    TypingFromEmpty(PasswordInput, mode, "pw");
    RunPrefix(PasswordInput, mode, Initial(), Typed("pw"), bs);
    var st := State("pw", 2, Mask(2));
    RunStep(PasswordInput, mode, st, bs, AfterBackspace(PasswordInput, mode, st));
  }

  /** Ctrl-U as written draws the rest of a password as it is. */
  lemma KillLineShowsPassword(st: State)
    requires Valid(st)
    ensures Step(PasswordInput, AsWritten, st, Key(Char('u'), Control)).next.shown == st.input[st.cursor..]
  {
  }

  /** The editor object of one prompt: the line buffer and the cursor that
      the key loop updates in place, and the text it painted last. */
  class Editor {
    const kind: TextInputType
    const mode: Repainting
    var input: string
    var cursor: nat
    var shown: string

    ghost predicate Inv()
      reads this
    {
      cursor <= |input| && ShowsBuffer(kind, mode, State(input, cursor, shown))
    }

    function Current(): State
      reads this
    {
      State(input, cursor, shown)
    }

    constructor (kind: TextInputType, mode: Repainting)
      ensures Inv() && this.kind == kind && this.mode == mode && Current() == Initial()
    {
      this.kind := kind;
      this.mode := mode;
      input, cursor, shown := [], 0, [];
    }

    method Insert(c: char)
      requires Inv()
      modifies this
      ensures Inv() && Current() == AfterInsert(kind, old(Current()), c)
    {
      input := input[..cursor] + [c] + input[cursor..];
      cursor := cursor + 1;
      shown := Repaint(kind, input);
    }

    method DeleteBackward()
      requires Inv()
      modifies this
      ensures Inv() && Current() == AfterBackspace(kind, mode, old(Current()))
    {
      if cursor > 0 {
        cursor := cursor - 1;
        input := input[..cursor] + input[cursor + 1..];
        shown := Painted(mode, kind, input);
      }
    }

    method MoveLeft()
      requires Inv()
      modifies this
      ensures Inv() && Current() == AfterLeft(old(Current()))
    {
      if cursor > 0 {
        cursor := cursor - 1;
      }
    }

    method MoveRight()
      requires Inv()
      modifies this
      ensures Inv() && Current() == AfterRight(old(Current()))
    {
      if cursor < |input| {
        cursor := cursor + 1;
      }
    }

    method KillLine()
      requires Inv()
      modifies this
      ensures Inv() && Current() == AfterKillLine(kind, mode, old(Current()))
    {
      input := input[cursor..];
      cursor := 0;
      shown := Painted(mode, kind, input);
    }

    method KillWord()
      requires Inv()
      modifies this
      ensures Inv() && Current() == AfterKillWord(kind, old(Current()))
    {
      if kind == TextInput {
        var pos := LastWhitespace(input[..cursor]);
        if pos >= 0 {
          input := input[..pos] + input[cursor..];
          cursor := pos;
        } else {
          input := input[cursor..];
          cursor := 0;
        }
      } else {
        cursor := 0;
        input := [];
      }
      shown := input;
    }

    method WordBack()
      requires Inv()
      modifies this
      ensures Inv() && Current() == AfterWordBack(kind, old(Current()))
    {
      match kind
      case TextInput =>
        if cursor > 0 && IsWhitespace(input[cursor - 1]) {
          cursor := cursor - 1;
        }
        var pos := LastWhitespace(input[..cursor]);
        if pos >= 0 {
          cursor := pos + 1;
        } else {
          cursor := 0;
        }
      case PasswordInput =>
        cursor := 0;
    }

    method WordForward()
      requires Inv()
      modifies this
      ensures Inv() && Current() == AfterWordForward(kind, old(Current()))
    {
      match kind
      case TextInput =>
        if cursor < |input| && IsWhitespace(input[cursor]) {
          cursor := cursor + 1;
        }
        var pos := FirstWhitespace(input[cursor..]);
        if pos >= 0 {
          cursor := cursor + pos;
        } else {
          cursor := |input|;
        }
      case PasswordInput =>
        cursor := |input|;
    }

    /** Dispatch one event as the key loop does; `done` is the prompt's
        result when the event ends it. */
    method Handle(ev: Event) returns (done: Option<Outcome>)
      requires Inv()
      modifies this
      ensures Inv()
      ensures Step(kind, mode, old(Current()), ev) == if done.Some? then Finish(done.value) else Continue(Current())
    {
      done := None;
      match ev
      case OtherEvent =>
      case Key(code, mods) =>
        match mods
        case Alt =>
          if code == Char('b') {
            WordBack();
          } else if code == Char('f') {
            WordForward();
          }
        case Control =>
          if code == Char('c') {
            done := Some(Err(Exit));
          } else if code == Char('a') {
            cursor := 0;
          } else if code == Char('e') {
            cursor := |input|;
          } else if code == Char('u') {
            KillLine();
          } else if code == Char('h') || code == Char('w') {
            KillWord();
          }
        case NoModifier =>
          match code {
            case Esc => done := Some(Err(Cancel));
            case Enter => done := Some(Ok(input));
            case Backspace => DeleteBackward();
            case Left => MoveLeft();
            case Right => MoveRight();
            case Char(c) => Insert(c);
            case OtherKey =>
          }
        case OtherModifiers =>
    }
  }

  /** `get_user_text_input`: run the key loop of one prompt over `events`,
      repainting as the program does. */
  method GetUserTextInput(kind: TextInputType, events: seq<Event>) returns (r: RunResult)
    ensures r == Run(kind, AsWritten, Initial(), events)
    ensures r.Waiting? ==> ShowsBuffer(kind, AsWritten, r.state)
  {
    var editor := new Editor(kind, AsWritten);
    var i := 0;
    while i < |events|
      invariant 0 <= i <= |events|
      invariant editor.Inv() && editor.kind == kind && editor.mode == AsWritten
      invariant Run(kind, AsWritten, editor.Current(), events[i..]) == Run(kind, AsWritten, Initial(), events)
    {
      var done := editor.Handle(events[i]);
      if done.Some? {
        return Finished(done.value);
      }
      i := i + 1;
    }
    RunShowsBuffer(kind, AsWritten, Initial(), events);
    return Waiting(editor.Current());
  }
}
