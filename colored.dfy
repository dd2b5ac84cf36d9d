/**
 * ANSI colouring helpers of `colored.py`: a bold wrapper and a colour
 * wrapper that looks its colour up in a fixed table of seven names.
 */
module Colored {
  import opened Types

  /** Escape sequence that switches bold on (ESC [ 1 m). */
  const BoldStart: string := "\U{1B}[1m"
  /** Escape sequence that resets all attributes (ESC [ 0 m). */
  const BoldEnd: string := "\U{1B}[0m"

  /** The keys of the colour table. */
  datatype Color = Red | Green | Yellow | Blue | Magenta | Cyan | Reset

  /** The dictionary key under which each colour is stored. */
  function Name(c: Color): (name: string)
  {
    match c
    case Red => "red"
    case Green => "green"
    case Yellow => "yellow"
    case Blue => "blue"
    case Magenta => "magenta"
    case Cyan => "cyan"
    case Reset => "reset"
  }

  /** The escape prefix stored for each colour. */
  function Code(c: Color): (code: string)
  {
    match c
    case Red => "\U{1B}[31m"
    case Green => "\U{1B}[32m"
    case Yellow => "\U{1B}[33m"
    case Blue => "\U{1B}[94m"
    case Magenta => "\U{1B}[95m"
    case Cyan => "\U{1B}[96m"
    case Reset => "\U{1B}[0m"
  }

  /** The only names the colour table accepts. */
  const ColorNames: set<string> := {"red", "green", "yellow", "blue", "magenta", "cyan", "reset"}

  /** What `COLORS_DICT[color]` raises on a name outside the table. */
  datatype ColorError = KeyError(key: string)

  /** Dictionary lookup of a colour name; `None` is the `KeyError` case. */
  function Lookup(name: string): (r: Option<Color>)
    ensures r.Some? <==> name in ColorNames
    ensures r.Some? ==> Name(r.value) == name
  {
    if name == "red" then Some(Red)
    else if name == "green" then Some(Green)
    else if name == "yellow" then Some(Yellow)
    else if name == "blue" then Some(Blue)
    else if name == "magenta" then Some(Magenta)
    else if name == "cyan" then Some(Cyan)
    else if name == "reset" then Some(Reset)
    else None
  }

  /** Wraps `text` between the bold switch and the attribute reset. */
  function Bold(text: string): (r: string)
    ensures |r| == |text| + |BoldStart| + |BoldEnd|
    ensures r[..|BoldStart|] == BoldStart
    ensures r[|BoldStart|..|r| - |BoldEnd|] == text
    ensures r[|r| - |BoldEnd|..] == BoldEnd
  {
    BoldStart + text + BoldEnd
  }

  /** Undoes `Bold`: the text between the two escapes, if `r` has both. */
  function Unbold(r: string): (t: Option<string>)
    ensures t.Some? ==> Bold(t.value) == r
  {
    if |r| >= |BoldStart| + |BoldEnd| && r[..|BoldStart|] == BoldStart && r[|r| - |BoldEnd|..] == BoldEnd
    then
      var t := r[|BoldStart|..|r| - |BoldEnd|];
      assert r == r[..|BoldStart|] + t + r[|r| - |BoldEnd|..];
      Some(t)
    else None
  }

  lemma {:induction false} UnboldBold(text: string)
    ensures Unbold(Bold(text)) == Some(text)
  {
    var r := Bold(text);
    assert r[..|BoldStart|] == BoldStart;
    assert r[|r| - |BoldEnd|..] == BoldEnd;
  }

  /** The plain (not bold) colour wrapping of a colour already looked up. */
  function Paint(s: string, c: Color): (r: string)
  {
    Code(c) + s + Code(Reset)
  }

  /**
   * `colored(string, color, text_bold=True)`: looks the colour up, wraps the
   * string in its code and the reset code, and in bold when asked.
   */
  function ColoredText(s: string, color: string, textBold: bool := true): (r: Result<string, ColorError>)
    ensures r.Success? <==> color in ColorNames
    ensures r.Failure? ==> r.error == KeyError(color)
  {
    match Lookup(color)
    case None => Failure(KeyError(color))
    case Some(c) => Success(if textBold then Bold(Paint(s, c)) else Paint(s, c))
  }

  /** Number of characters `ColoredText` adds around its text. */
  function Overhead(c: Color, textBold: bool): (n: nat)
  {
    |Code(c)| + |Code(Reset)| + (if textBold then |BoldStart| + |BoldEnd| else 0)
  }

  /** Recovers the coloured text from an output of `ColoredText`. */
  function Strip(r: string, color: string, textBold: bool): (text: Option<string>)
  {
    match Lookup(color)
    case None => None
    case Some(c) =>
      var inner := if textBold then Unbold(r) else Some(r);
      match inner
      case None => None
      case Some(p) =>
        if |p| >= |Code(c)| + |Code(Reset)| && p[..|Code(c)|] == Code(c) && p[|p| - |Code(Reset)|..] == Code(Reset)
        then Some(p[|Code(c)|..|p| - |Code(Reset)|])
        else None
  }

  /** Without bold, the output is the colour code, the text and the reset code. */
  lemma ColoredPlain(s: string, c: Color)
    ensures ColoredText(s, Name(c), false) == Success(Code(c) + s + "\U{1B}[0m")
  {
    assert Lookup(Name(c)) == Some(c);
  }

  /** Bold output is `bold` applied to the plain output, and bold is the default. */
  lemma ColoredBoldIsBoldOfPlain(s: string, color: string)
    requires color in ColorNames
    ensures ColoredText(s, color, true).value == Bold(ColoredText(s, color, false).value)
    ensures ColoredText(s, color) == ColoredText(s, color, true)
  {
  }

  /** The output length is the text length plus a constant fixed by colour and boldness. */
  lemma {:induction false} ColoredLength(s: string, color: string, textBold: bool)
    requires color in ColorNames
    ensures |ColoredText(s, color, textBold).value| == |s| + Overhead(Lookup(color).value, textBold)
  {
  }

  /** Stripping the fixed prefix and suffix recovers the text, and only outputs strip. */
  lemma {:induction false} StripColored(s: string, r: string, color: string, textBold: bool)
    ensures ColoredText(s, color, textBold) == Success(r) ==> Strip(r, color, textBold) == Some(s)
    ensures Strip(r, color, textBold) == Some(s) ==> ColoredText(s, color, textBold) == Success(r)
  {
    match Lookup(color)
    case None =>
    case Some(c) =>
      var p := Paint(s, c);
      assert p[..|Code(c)|] == Code(c) && p[|p| - |Code(Reset)|..] == Code(Reset);
      assert p[|Code(c)|..|p| - |Code(Reset)|] == s;
      if textBold {
        UnboldBold(p);
      }
      if Strip(r, color, textBold) == Some(s) {
        var q := if textBold then Unbold(r).value else r;
        assert q == q[..|Code(c)|] + s + q[|q| - |Code(Reset)|..];
        assert q == p;
      }
  }
}
