/** The SGR (Select Graphic Rendition, ECMA-48 section 8.3.117) wrappers
    used for coloured console messages. */
module Out {
  import opened Text

  const Esc: char := '\U{001B}'

  /** The control sequence `ESC [ params m`. */
  function Sgr(params: string): (r: string)
    ensures |r| == |params| + 3 && r[0] == Esc && r[1] == '[' && r[|r| - 1] == 'm'
  {
    [Esc, '['] + params + "m"
  }

  /** `ESC [ m`: reset every attribute; it closes every wrapper. */
  function Off(): string {
    Sgr("")
  }

  /** A message between an opening sequence and the reset. */
  function Wrap(open: string, message: string): (r: string)
    ensures |r| == |open| + |message| + 3
  {
    open + message + Off()
  }

  /** The message back out of a wrapped string, if it is wrapped by `open`. */
  function Unwrap(s: string, open: string): (r: Option<string>)
    ensures r.Some? ==> s == Wrap(open, r.value)
  {
    var n := |s| - |open| - |Off()|;
    if n >= 0 && s[..|open|] == open && s[|open| + n..] == Off() then
      assert s == s[..|open|] + s[|open|..|open| + n] + s[|open| + n..];
      Some(s[|open|..|open| + n])
    else None
  }

  /** Unwrapping a wrapped message gives the message back. */
  lemma UnwrapWrap(open: string, message: string)
    ensures Unwrap(Wrap(open, message), open) == Some(message)
  {
    var s := Wrap(open, message);
    assert s[..|open|] == open;
    assert s[|open|..|open| + |message|] == message;
    assert s[|open| + |message|..] == Off();
  }

  /** The same wrapper on two messages gives the same text only for the same message. */
  lemma WrapInjective(open: string, a: string, b: string)
    requires Wrap(open, a) == Wrap(open, b)
    ensures a == b
  {
    UnwrapWrap(open, a);
    UnwrapWrap(open, b);
  }

  /** `format_error`: bold red. */
  function FormatError(message: string): string {
    Wrap(Sgr("1;31"), message)
  }

  /** `format_success`: bold green. */
  function FormatSuccess(message: string): string {
    Wrap(Sgr("1;32"), message)
  }

  /** `format_dim`: faint. */
  function FormatDim(message: string): string {
    Wrap(Sgr("2"), message)
  }

  /** `format_bold`: bold. */
  function FormatBold(message: string): string {
    Wrap(Sgr("1"), message)
  }

  /** Each of the four wrappers is its fixed prefix, the message verbatim
      and the reset, so the message can be read back from it. */
  lemma FormatsRecoverMessage(message: string)
    ensures Unwrap(FormatError(message), [Esc] + "[1;31m") == Some(message)
    ensures Unwrap(FormatSuccess(message), [Esc] + "[1;32m") == Some(message)
    ensures Unwrap(FormatDim(message), [Esc] + "[2m") == Some(message)
    ensures Unwrap(FormatBold(message), [Esc] + "[1m") == Some(message)
  {
    ErrorRecovers(message);
    SuccessRecovers(message);
    DimRecovers(message);
    BoldRecovers(message);
  }

  lemma ErrorRecovers(message: string)
    ensures Unwrap(FormatError(message), [Esc] + "[1;31m") == Some(message)
  {
    assert Sgr("1;31") == [Esc] + "[1;31m";
    UnwrapWrap(Sgr("1;31"), message);
  }

  lemma SuccessRecovers(message: string)
    ensures Unwrap(FormatSuccess(message), [Esc] + "[1;32m") == Some(message)
  {
    assert Sgr("1;32") == [Esc] + "[1;32m";
    UnwrapWrap(Sgr("1;32"), message);
  }

  lemma DimRecovers(message: string)
    ensures Unwrap(FormatDim(message), [Esc] + "[2m") == Some(message)
  {
    assert Sgr("2") == [Esc] + "[2m";
    UnwrapWrap(Sgr("2"), message);
  }

  lemma BoldRecovers(message: string)
    ensures Unwrap(FormatBold(message), [Esc] + "[1m") == Some(message)
  {
    assert Sgr("1") == [Esc] + "[1m";
    UnwrapWrap(Sgr("1"), message);
  }

  /** The error and the success wrappers never give the same text. */
  lemma ErrorIsNotSuccess(a: string, b: string)
    ensures FormatError(a) != FormatSuccess(b)
  {
    assert FormatError(a)[5] == '1' && FormatSuccess(b)[5] == '2';
  }

  datatype Color = Red | Green | Yellow | Blue | Magenta | Cyan | White | Black

  /** The SGR foreground parameter of a colour. */
  function ColorCode(c: Color): (n: nat)
    ensures 30 <= n <= 37
  {
    match c
    case Red => 31
    case Green => 32
    case Yellow => 33
    case Blue => 34
    case Magenta => 35
    case Cyan => 36
    case White => 37
    case Black => 30
  }

  /** The eight colours have eight distinct codes. */
  lemma ColorCodesDistinct(a: Color, b: Color)
    ensures ColorCode(a) == ColorCode(b) <==> a == b
  {
  }

  /** `format_color`. */
  function FormatColor(message: string, color: Color): string {
    Wrap(Sgr(NatToString(ColorCode(color))), message)
  }

  /** The colour of a `format_color` text can be read back from its code,
      and so can the message. */
  lemma FormatColorRecovers(message: string, color: Color)
    ensures var s := FormatColor(message, color);
            ParseUnsigned(s[2..4], 0x1_0000_0000) == Some(ColorCode(color))
            && Unwrap(s, Sgr(NatToString(ColorCode(color)))) == Some(message)
  {
    var code := NatToString(ColorCode(color));
    assert |code| == 2 by {
      assert ColorCode(color) / 10 == 3;
      assert code == NatToString(3) + [DigitChar(ColorCode(color) % 10)];
    }
    var s := FormatColor(message, color);
    assert s[2..4] == code;
    ParseRendered(ColorCode(color), 0x1_0000_0000);
    UnwrapWrap(Sgr(code), message);
  }

  /** `clear_screen`'s output: erase the whole display (ED 2), home the
      cursor (CUP), then the newline of `println!`. */
  function ClearScreen(): (r: string)
    ensures |r| == 8 && r[..4] == [Esc] + "[2J" && r[4..7] == [Esc] + "[H" && r[7..] == "\n"
  {
    [Esc] + "[2J" + [Esc] + "[H" + "\n"
  }

  /** `print_error` and the other printers write the formatted line and a newline. */
  function Println(line: string): (r: string)
    ensures |r| == |line| + 1 && r[..|line|] == line && r[|line|..] == "\n"
  {
    line + "\n"
  }
}
