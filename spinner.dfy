/** The console spinner of the TypeScript tool: its frame sets, the frame
    counter that wraps around, the count of screen rows a line takes, and
    the text it writes to draw, clear and stop. The timer, the terminal
    tests and the colouring are left to the caller: whether the output is
    a terminal, whether it shows Unicode and its width are parameters, and
    `written` holds the texts handed to `write`, before colouring. */
module Spinner {
  import opened Text
  import Out

  /** The frames: one dash off a terminal, ten braille dots on a Unicode
      terminal, and four ASCII strokes on any other. */
  function Frames(isTTY: bool, unicode: bool): (r: seq<string>)
    ensures |r| == if !isTTY then 1 else if unicode then 10 else 4
    ensures forall k :: 0 <= k < |r| ==> |r[k]| == 1
  {
    if !isTTY then ["-"]
    else if unicode then
      ["\U{280B}", "\U{2819}", "\U{2839}", "\U{2838}", "\U{283C}", "\U{2834}", "\U{2826}", "\U{2827}", "\U{2807}", "\U{280F}"]
    else ["-", "\\", "|", "/"]
  }

  /** The success mark: a heavy check mark, or a square root sign. */
  function Tick(unicode: bool): string {
    if unicode then "\U{2714}" else "\U{221A}"
  }

  /** The failure mark: a heavy multiplication sign, or a times sign. */
  function Cross(unicode: bool): string {
    if unicode then "\U{2716}" else "\U{00D7}"
  }

  /** The two marks differ, so success and failure read apart. */
  lemma MarksDiffer(unicode: bool)
    ensures Tick(unicode) != Cross(unicode) && |Tick(unicode)| == 1 && |Cross(unicode)| == 1
  {
  }

  /** `replace(/\u001b[^m]*?m/g, "")`: every escape character up to and
      including the next `m` goes; an escape with no `m` after it stays. */
  function StripEscapes(s: string): (r: string)
    ensures |r| <= |s|
    decreases |s|
  {
    if s == [] then []
    else if s[0] == Out.Esc && 'm' in s[1..] then StripEscapes(s[IndexOf(s[1..], 'm') + 2..])
    else [s[0]] + StripEscapes(s[1..])
  }

  /** Text without escapes is not changed. */
  lemma {:induction false} StripPlain(s: string)
    requires Out.Esc !in s
    ensures StripEscapes(s) == s
    decreases |s|
  {
    if s != [] {
      StripPlain(s[1..]);
      assert s == [s[0]] + s[1..];
    }
  }

  /** An SGR sequence in front of a text does not count. */
  lemma StripSgr(params: string, s: string)
    requires 'm' !in params
    ensures StripEscapes(Out.Sgr(params) + s) == StripEscapes(s)
  {
    var t := Out.Sgr(params) + s;
    var rest := t[1..];
    assert rest == ['['] + params + "m" + s;
    assert ['['] + params + "m" + s == (['['] + params) + ['m'] + s;
    IndexOfAfter(['['] + params, 'm', s);
    assert t[|params| + 3..] == s;
  }
  /** `Math.ceil(len / columns)`: how many widths it takes to cover `len`. */
  function CeilDiv(len: nat, columns: nat): nat
    requires columns >= 1
    decreases len
  {
    if len == 0 then 0 else if len <= columns then 1 else 1 + CeilDiv(len - columns, columns)
  }

  /** The rows one line takes, `max(1, ceil(len / columns))`. */
  function Rows(len: nat, columns: nat): nat
    requires columns >= 1
  {
    if CeilDiv(len, columns) < 1 then 1 else CeilDiv(len, columns)
  }

  /** The ceiling is the fewest widths that cover the length. */
  lemma {:induction false} CeilDivLeast(len: nat, columns: nat)
    requires columns >= 1
    ensures var r := CeilDiv(len, columns);
            len <= r * columns && (len == 0 || (r - 1) * columns < len)
    decreases len
  {
    var r := CeilDiv(len, columns);
    if len > columns {
      CeilDivLeast(len - columns, columns);
      var r' := CeilDiv(len - columns, columns);
      assert r * columns == r' * columns + columns;
      assert (r - 1) * columns == r' * columns;
      assert r' >= 1;
      assert (r' - 1) * columns == r' * columns - columns;
    }
  }

  /** A line takes at least one row, and no more than it has characters,
      once it has any. */
  lemma {:induction false} RowsBounds(len: nat, columns: nat)
    requires columns >= 1
    ensures 1 <= Rows(len, columns) <= (if len == 0 then 1 else len)
    ensures len <= columns ==> Rows(len, columns) == 1
    decreases len
  {
    if len > columns {
      RowsBounds(len - columns, columns);
    }
  }

  /** `getLines`' `reduce` over the lines. */
  function RowsOf(lines: seq<string>, columns: nat): (r: nat)
    requires columns >= 1
    ensures r >= |lines|
  {
    if lines == [] then 0 else RowsOf(lines[..|lines| - 1], columns) + Rows(|lines[|lines| - 1]|, columns)
  }

  /** `getLines`: escapes removed, the rows of each `\n`-line summed. */
  function GetLines(str: string, columns: nat): nat
    requires columns >= 1
  {
    RowsOf(Split(StripEscapes(str), '\n'), columns)
  }

  /** Lines that fit in the width take one row each. */
  lemma {:induction false} RowsOfFitting(lines: seq<string>, columns: nat)
    requires columns >= 1 && forall k :: 0 <= k < |lines| ==> |lines[k]| <= columns
    ensures RowsOf(lines, columns) == |lines|
  {
    if lines != [] {
      RowsOfFitting(lines[..|lines| - 1], columns);
      RowsBounds(|lines[|lines| - 1]|, columns);
    }
  }

  /** The characters of all lines. */
  function Total(lines: seq<string>): nat {
    if lines == [] then 0 else Total(lines[..|lines| - 1]) + |lines[|lines| - 1]|
  }

  /** At least one row per line, and no more rows than characters and lines
      together. */
  lemma {:induction false} RowsOfBounds(lines: seq<string>, columns: nat)
    requires columns >= 1
    ensures |lines| <= RowsOf(lines, columns) <= |lines| + Total(lines)
  {
    if lines != [] {
      RowsOfBounds(lines[..|lines| - 1], columns);
      RowsBounds(|lines[|lines| - 1]|, columns);
    }
  }

  /** The frame counter after `update`: back to 0 once past the last frame. */
  function Wrapped(c: nat, n: nat): nat {
    if n < c + 1 then 0 else c
  }

  /** The frame counter after a `spin`: updated, then one more. */
  function Next(c: nat, n: nat): nat {
    Wrapped(c, n) + 1
  }

  /** The frame counter after `k` spins from a fresh spinner. */
  function Counter(k: nat, n: nat): nat {
    if k == 0 then 0 else Next(Counter(k - 1, n), n)
  }

  /** The frame spin number `k` (from 0) draws. */
  function Drawn(k: nat, n: nat): nat {
    Wrapped(Counter(k, n), n)
  }

  /** The first `n` spins count up to `n`. */
  lemma {:induction false} CounterUp(k: nat, n: nat)
    requires k <= n
    ensures Counter(k, n) == k
  {
    if k > 0 {
      CounterUp(k - 1, n);
    }
  }

  /** After the first spin the counter repeats every `n` spins. */
  lemma {:induction false} CounterPeriodic(k: nat, n: nat)
    requires n >= 1 && k >= 1
    ensures Counter(k + n, n) == Counter(k, n)
  {
    if k == 1 {
      CounterUp(n, n);
      CounterUp(1, n);
    } else {
      CounterPeriodic(k - 1, n);
    }
  }

  /** The frames go round: spins 0 to `n - 1` draw frames 0 to `n - 1`, and
      every spin draws the frame `n` spins later draws again, so spin `k`
      draws frame `k mod n`. */
  lemma SpinsGoRound(k: nat, n: nat)
    requires n >= 1
    ensures Drawn(k, n) < n
    ensures k < n ==> Drawn(k, n) == k
    ensures Drawn(k + n, n) == Drawn(k, n)
  {
    if k < n {
      CounterUp(k, n);
    }
    if k == 0 {
      CounterUp(n, n);
    } else {
      CounterPeriodic(k, n);
    }
  }

  const HideCursor: string := [Out.Esc] + "[?25l"
  const ShowCursor: string := [Out.Esc] + "[?25h"
  /** Cursor to the first column. */
  const Home: string := [Out.Esc] + "[1G"
  /** Cursor one row up. */
  const Up: string := [Out.Esc] + "[1A"
  /** Erase the row and go to its first column. */
  const EraseRow: string := [Out.Esc] + "[2K" + [Out.Esc] + "[1G"

  /** What `clear` writes for `n` drawn rows: to the first column, then
      erase a row and go up, `n` times, without going up before the first. */
  function ClearText(n: nat): seq<string> {
    [Home] + ClearRows(n)
  }

  function ClearRows(n: nat): seq<string> {
    if n == 0 then [] else ClearRows(n - 1) + (if n - 1 > 0 then [Up] else []) + [EraseRow]
  }

  /** `clear` erases `n` rows and goes up between them, one row fewer:
      erase, up, erase, up, ..., erase. */
  lemma {:induction false} ClearAlternates(n: nat)
    ensures |ClearRows(n)| == if n == 0 then 0 else 2 * n - 1
    ensures forall i :: 0 <= i < |ClearRows(n)| ==> ClearRows(n)[i] == if i % 2 == 0 then EraseRow else Up
  {
    if n > 0 {
      ClearAlternates(n - 1);
    }
  }

  class Spinner {
    const isTTY: bool
    const frames: seq<string>
    const tick: string
    const cross: string
    const message: string
    var currentFrame: nat
    var lines: nat
    var written: seq<string>

    constructor (message: string, isTTY: bool, unicode: bool)
      ensures this.message == message && this.isTTY == isTTY
      ensures frames == Frames(isTTY, unicode) && tick == Tick(unicode) && cross == Cross(unicode)
      ensures currentFrame == 0 && lines == 0 && written == []
    {
      this.message := message;
      this.isTTY := isTTY;
      frames := Frames(isTTY, unicode);
      tick := Tick(unicode);
      cross := Cross(unicode);
      currentFrame, lines, written := 0, 0, [];
    }

    /** `update`: back to the first frame once past the last. */
    method Update()
      modifies this
      ensures currentFrame == Wrapped(old(currentFrame), |frames|)
      ensures frames != [] ==> currentFrame < |frames|
      ensures lines == old(lines) && written == old(written)
    {
      if |frames| - 1 < currentFrame {
        currentFrame := 0;
      }
    }

    /** `clear`: the rows drawn last are erased and forgotten. */
    method Clear()
      modifies this
      ensures written == old(written) + ClearText(old(lines)) && lines == 0
      ensures currentFrame == old(currentFrame)
    {
      written := written + [Home];
      var i := 0;
      while i < lines
        invariant 0 <= i <= lines
        invariant written == old(written) + [Home] + ClearRows(i)
        invariant lines == old(lines) && currentFrame == old(currentFrame)
      {
        if i > 0 {
          written := written + [Up];
        }
        written := written + [EraseRow];
        i := i + 1;
      }
      lines := 0;
    }

    /** `write`: on a terminal a redraw first clears what was drawn. */
    method Write(str: string, clear: bool)
      modifies this
      ensures written == old(written) + (if clear && isTTY then ClearText(old(lines)) else []) + [str]
      ensures lines == (if clear && isTTY then 0 else old(lines)) && currentFrame == old(currentFrame)
    {
      if clear && isTTY {
        Clear();
      }
      written := written + [str];
    }

    /** The text of one frame. */
    function FrameText(k: nat): string
      reads this
      requires k < |frames|
    {
      frames[k] + " " + message
    }

    /** `render`: the current frame and the message; on a terminal the
        cursor is hidden and the old frame cleared, elsewhere a newline
        ends it. */
    method Render(columns: nat)
      requires columns >= 1 && currentFrame < |frames|
      modifies this
      ensures currentFrame == old(currentFrame)
      ensures isTTY ==> written == old(written) + [HideCursor] + ClearText(old(lines)) + [FrameText(currentFrame)]
                        && lines == GetLines(FrameText(currentFrame), columns)
      ensures !isTTY ==> written == old(written) + [FrameText(currentFrame) + "\n"] && lines == old(lines)
    {
      var str := frames[currentFrame] + " " + message;
      if isTTY {
        Write(HideCursor, false);
      } else {
        str := str + "\n";
      }
      Write(str, true);
      if isTTY {
        lines := GetLines(str, columns);
      }
    }

    /** `spin`: update, draw the frame, count on. */
    method Spin(columns: nat)
      requires columns >= 1 && frames != []
      modifies this
      ensures currentFrame == Next(old(currentFrame), |frames|)
      ensures var k := Wrapped(old(currentFrame), |frames|);
              k < |frames|
              && (isTTY ==> written == old(written) + [HideCursor] + ClearText(old(lines)) + [FrameText(k)])
              && (!isTTY ==> written == old(written) + [FrameText(k) + "\n"])
              && lines == (if isTTY then GetLines(FrameText(k), columns) else old(lines))
    {
      Update();
      Render(columns);
      currentFrame := currentFrame + 1;
    }

    /** `stop`: the mark and the message replace the frame; on a terminal
        the cursor is shown again. */
    method Stop(symbol: string)
      modifies this
      ensures written == old(written) + (if isTTY then ClearText(old(lines)) else [])
                         + [symbol + " " + message + "\n"] + (if isTTY then [ShowCursor] else [])
      ensures lines == (if isTTY then 0 else old(lines)) && currentFrame == old(currentFrame)
    {
      Write(symbol + " " + message + "\n", true);
      if isTTY {
        Write(ShowCursor, false);
      }
    }

    /** `success`: stop with the tick. */
    method Success()
      modifies this
      ensures written == old(written) + (if isTTY then ClearText(old(lines)) else [])
                         + [tick + " " + message + "\n"] + (if isTTY then [ShowCursor] else [])
      ensures lines == (if isTTY then 0 else old(lines)) && currentFrame == old(currentFrame)
    {
      Stop(tick);
    }

    /** `fail`: stop with the cross. */
    method Fail()
      modifies this
      ensures written == old(written) + (if isTTY then ClearText(old(lines)) else [])
                         + [cross + " " + message + "\n"] + (if isTTY then [ShowCursor] else [])
      ensures lines == (if isTTY then 0 else old(lines)) && currentFrame == old(currentFrame)
    {
      Stop(cross);
    }
  }
}
