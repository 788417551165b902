/**
 * The integer logic of the console wrapper: the sixteen console colours and
 * their 4-bit codes, the packed text attribute word, the attribute
 * arithmetic of `set_foreground` / `set_background`, the trailing CR LF trim
 * of `read_line` and the window size of a screen buffer.
 */
module Console {
  import opened Ints
  import opened Errors
  import opened Utf16
  import opened WideCodec

  /** The console colours, in the order of their codes 0 to 15. */
  datatype Color =
    | Black | DarkBlue | DarkGreen | DarkCyan | DarkRed | DarkMagenta | DarkYellow | Gray
    | DarkGray | Blue | Green | Cyan | Red | Magenta | Yellow | White

  /** The discriminant of a colour (`color as u16`). */
  function Code(c: Color): (v: bv16)
    ensures v < 16
  {
    match c
    case Black => 0
    case DarkBlue => 1
    case DarkGreen => 2
    case DarkCyan => 3
    case DarkRed => 4
    case DarkMagenta => 5
    case DarkYellow => 6
    case Gray => 7
    case DarkGray => 8
    case Blue => 9
    case Green => 10
    case Cyan => 11
    case Red => 12
    case Magenta => 13
    case Yellow => 14
    case White => 15
  }

  /** `Color::from_u16`: the colour of the low four bits; higher bits are ignored. */
  function FromU16(value: bv16): (c: Color)
    ensures Code(c) == value & 0xF
  {
    var n := (value & 0xF) as int;
    match n
    case 0 => Black
    case 1 => DarkBlue
    case 2 => DarkGreen
    case 3 => DarkCyan
    case 4 => DarkRed
    case 5 => DarkMagenta
    case 6 => DarkYellow
    case 7 => Gray
    case 8 => DarkGray
    case 9 => Blue
    case 10 => Green
    case 11 => Cyan
    case 12 => Red
    case 13 => Magenta
    case 14 => Yellow
    case _ => White
  }

  /** Reading a colour back from its own code gives the same colour. */
  lemma FromCode(c: Color)
    ensures FromU16(Code(c)) == c
  {
    var d := FromU16(Code(c));
    assert Code(d) == Code(c) & 0xF == Code(c);
    CodeInjective(c, d);
  }

  lemma CodeInjective(c: Color, d: Color)
    requires Code(c) == Code(d)
    ensures c == d
  {
  }

  /** A foreground and background colour pair. */
  datatype TextAttribute = TextAttribute(foreground: Color, background: Color)
  {
    /** `to_u16`: the foreground in bits 0-3 and the background in bits 4-7. */
    function ToU16(): (r: bv16)
      ensures r & 0xF == Code(foreground)
      ensures r >> 4 == Code(background)
    {
      Code(foreground) | (Code(background) << 4)
    }
  }

  /** `TextAttribute::default_colors`: gray on black. */
  function DefaultColors(): (a: TextAttribute)
    ensures a.ToU16() == 0x07
  {
    TextAttribute(Gray, Black)
  }

  /** Both colours can be read back from the packed word. */
  lemma AttributeRoundTrip(a: TextAttribute)
    ensures FromU16(a.ToU16()) == a.foreground
    ensures FromU16(a.ToU16() >> 4) == a.background
  {
    var r := a.ToU16();
    FromCode(a.foreground);
    FromCode(a.background);
    assert (r >> 4) & 0xF == Code(a.background);
    CodeInjective(FromU16(r), a.foreground);
    CodeInjective(FromU16(r >> 4), a.background);
  }

  lemma WhiteOnDarkBlue()
    ensures TextAttribute(White, DarkBlue).ToU16() == 0x1F
  {
  }

  /**
   * The attribute word `set_foreground` hands to the console, given the
   * current attribute word: the new foreground with the current background.
   */
  function SetForeground(attributes: bv16, color: Color): (r: bv16)
    ensures r & 0xF == Code(color)
    ensures r >> 4 == (attributes >> 4) & 0xF
  {
    TextAttribute(color, FromU16((attributes >> 4) & 0xF)).ToU16()
  }

  /** The same for `set_background`: the current foreground with the new background. */
  function SetBackground(attributes: bv16, color: Color): (r: bv16)
    ensures r & 0xF == attributes & 0xF
    ensures r >> 4 == Code(color)
  {
    TextAttribute(FromU16(attributes & 0xF), color).ToU16()
  }

  /** Setting the foreground leaves the background colour as it was, and vice versa. */
  lemma SetKeepsOther(attributes: bv16, color: Color)
    ensures FromU16(SetForeground(attributes, color)) == color
    ensures FromU16(SetForeground(attributes, color) >> 4) == FromU16(attributes >> 4)
    ensures FromU16(SetBackground(attributes, color)) == FromU16(attributes)
    ensures FromU16(SetBackground(attributes, color) >> 4) == color
  {
    AttributeRoundTrip(TextAttribute(color, FromU16((attributes >> 4) & 0xF)));
    AttributeRoundTrip(TextAttribute(FromU16(attributes & 0xF), color));
    SameNibble(attributes >> 4);
    SameNibble(attributes);
  }

  lemma SameNibble(v: bv16)
    ensures FromU16(v & 0xF) == FromU16(v)
  {
    assert (v & 0xF) & 0xF == v & 0xF;
    CodeInjective(FromU16(v & 0xF), FromU16(v));
  }

  // ------------------------------------------------------------------
  // read_line

  predicate EndsWithCrLf(units: seq<U16>)
  {
    |units| >= 2 && units[|units| - 2] == 0x0D && units[|units| - 1] == 0x0A
  }

  /** The units `read_line` keeps of what the console returned: all of them,
      or all but a final CR LF pair. */
  function TrimCrLf(units: seq<U16>): (r: seq<U16>)
    ensures r <= units && |units| - 2 <= |r|
    ensures |r| < |units| <==> EndsWithCrLf(units)
    ensures |r| < |units| ==> |r| == |units| - 2
  {
    var len := |units|;
    var end := if EndsWithCrLf(units) then len - 2 else len;
    units[..end]
  }

  /** `read_line` after the console call: the trimmed units decoded by `from_wide`. */
  function ReadLine(units: seq<U16>): Result<string>
  {
    FromWide(TrimCrLf(units))
  }

  /** A line typed as `s` followed by Enter reads back as `s`. */
  lemma ReadLineTyped(s: string)
    requires '\0' !in s
    ensures ReadLine(Encode(s) + [0x0D, 0x0A]) == Ok(s)
  {
    var units := Encode(s) + [0x0D, 0x0A];
    assert TrimCrLf(units) == Encode(s);
    FromWideAppendZero(Encode(s));
    FromWideToWideNulFree(s);
  }

  /** Without a final CR LF the units are decoded as they are. */
  lemma ReadLineUntrimmed(units: seq<U16>)
    requires !EndsWithCrLf(units)
    ensures ReadLine(units) == FromWide(units)
  {
    assert units[..|units|] == units;
  }

  // ------------------------------------------------------------------
  // Screen buffer window

  /** The visible window of `ScreenBufferInfo`, edges inclusive. */
  datatype Window = Window(left: I16, top: I16, right: I16, bottom: I16)
  {
    /** `window_width`: `right - left + 1`, in 16-bit arithmetic. */
    function Width(): (w: I16)
      ensures (left + w - 1 - right) % 0x1_0000 == 0
      ensures -0x8000 <= right - left + 1 < 0x8000 ==> left + w - 1 == right
    {
      WrapI16(right - left + 1)
    }

    /** `window_height`: `bottom - top + 1`, in 16-bit arithmetic. */
    function Height(): (h: I16)
      ensures (top + h - 1 - bottom) % 0x1_0000 == 0
      ensures -0x8000 <= bottom - top + 1 < 0x8000 ==> top + h - 1 == bottom
    {
      WrapI16(bottom - top + 1)
    }
  }

  /** A window whose edges are in order and whose span fits in an `i16` has
      a positive size, and the size is the number of columns or rows. */
  lemma WindowSizePositive(w: Window)
    requires w.left <= w.right && w.right - w.left < 0x7FFF
    requires w.top <= w.bottom && w.bottom - w.top < 0x7FFF
    ensures 1 <= w.Width() == w.right - w.left + 1
    ensures 1 <= w.Height() == w.bottom - w.top + 1
  {
  }
}
