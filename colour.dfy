// PietDotNet.Colour: the twenty colours of a Piet program, black and white
// and the eighteen hued ones (six hues in three lightness levels).
module Colours {
  import opened CSharp

  type HueIndex = h: int | 0 <= h < 6
  type LightnessIndex = l: int | 0 <= l < 3

  /**
   * The sealed class has exactly twenty instances; each is identified by its
   * hue and lightness, or is black or white.
   */
  datatype Colour = Black | White | Hued(hue: HueIndex, lightness: LightnessIndex)

  const RedLight: Colour := Hued(0, 0)
  const Red: Colour := Hued(0, 1)
  const RedDark: Colour := Hued(0, 2)
  const YellowLight: Colour := Hued(1, 0)
  const Yellow: Colour := Hued(1, 1)
  const YellowDark: Colour := Hued(1, 2)
  const GreenLight: Colour := Hued(2, 0)
  const Green: Colour := Hued(2, 1)
  const GreenDark: Colour := Hued(2, 2)
  const CyanLight: Colour := Hued(3, 0)
  const Cyan: Colour := Hued(3, 1)
  const CyanDark: Colour := Hued(3, 2)
  const BlueLight: Colour := Hued(4, 0)
  const Blue: Colour := Hued(4, 1)
  const BlueDark: Colour := Hued(4, 2)
  const MagentaLight: Colour := Hued(5, 0)
  const Magenta: Colour := Hued(5, 1)
  const MagentaDark: Colour := Hued(5, 2)

  /** `Colour.All`, in the order of the colours' indices. */
  const All: seq<Colour> := [
    Black, White,
    RedLight, Red, RedDark,
    YellowLight, Yellow, YellowDark,
    GreenLight, Green, GreenDark,
    CyanLight, Cyan, CyanDark,
    BlueLight, Blue, BlueDark,
    MagentaLight, Magenta, MagentaDark]

  /** The human readable names of the colours, in index order. */
  const Names: seq<string> := [
    "black", "white",
    "light red", "red", "dark red",
    "light yellow", "yellow", "dark yellow",
    "light green", "green", "dark green",
    "light cyan", "cyan", "dark cyan",
    "light blue", "blue", "dark blue",
    "light magenta", "magenta", "dark magenta"]

  /** `Colour.Index`: the position of the colour in `All`. */
  function Index(c: Colour): (i: int)
    ensures 0 <= i < |All| && All[i] == c
  {
    match c
    case Black => 0
    case White => 1
    case Hued(h, l) => 2 + 3 * h + l
  }

  /** `Colour.Hue`: -1 for black and white. */
  function Hue(c: Colour): (h: int)
    ensures -1 <= h < 6
    ensures h == -1 <==> c == Black || c == White
  {
    if c.Hued? then c.hue else -1
  }

  /** `Colour.Lightness`: int.MaxValue for black, int.MinValue for white. */
  function Lightness(c: Colour): (l: Int32)
    ensures c.Hued? <==> 0 <= l < 3
    ensures l == MaxInt32 <==> c == Black
    ensures l == MinInt32 <==> c == White
  {
    match c
    case Black => 0x7FFF_FFFF
    case White => -0x8000_0000
    case Hued(_, l) => l
  }

  /** `Colour.RgbCode`: the hexadecimal RGB code of each of the twenty colours. */
  function RgbCode(c: Colour): (rgb: int)
    ensures 0 <= rgb <= 0xFFFFFF
  {
    match c
    case Black => 0x000000
    case White => 0xFFFFFF
    case Hued(0, 0) => 0xFFC0C0
    case Hued(0, 1) => 0xFF0000
    case Hued(0, 2) => 0xC00000
    case Hued(1, 0) => 0xFFFFC0
    case Hued(1, 1) => 0xFFFF00
    case Hued(1, 2) => 0xC0C000
    case Hued(2, 0) => 0xC0FFC0
    case Hued(2, 1) => 0x00FF00
    case Hued(2, 2) => 0x00C000
    case Hued(3, 0) => 0xC0FFFF
    case Hued(3, 1) => 0x00FFFF
    case Hued(3, 2) => 0x00C0C0
    case Hued(4, 0) => 0xC0C0FF
    case Hued(4, 1) => 0x0000FF
    case Hued(4, 2) => 0x0000C0
    case Hued(5, 0) => 0xFFC0FF
    case Hued(5, 1) => 0xFF00FF
    case Hued(5, 2) => 0xC000C0
  }

  function Name(c: Colour): (name: string)
    ensures |name| > 0
  {
    Names[Index(c)]
  }

  /** `IsBlackOrWhite`: decided by the hue alone. */
  predicate IsBlackOrWhite(c: Colour)
    ensures IsBlackOrWhite(c) <==> !c.Hued?
  {
    Hue(c) == -1
  }

  /** `NotBlackOrWhite`. */
  predicate NotBlackOrWhite(c: Colour)
    ensures NotBlackOrWhite(c) <==> c.Hued?
  {
    !IsBlackOrWhite(c)
  }

  /** `IsBlack`: decided by the lightness alone. */
  predicate IsBlack(c: Colour)
    ensures IsBlack(c) <==> c == Black
  {
    Lightness(c) == MaxInt32
  }

  /** `IsWhite`: decided by the lightness alone. */
  predicate IsWhite(c: Colour)
    ensures IsWhite(c) <==> c == White
  {
    Lightness(c) == MinInt32
  }

  /** `All` lists every colour exactly once, so the index identifies a colour. */
  lemma AllListsEachColourOnce()
    ensures |All| == 20
    ensures forall c: Colour :: c in All
    ensures forall i, j :: 0 <= i < j < |All| ==> All[i] != All[j]
  {
    forall c: Colour ensures c in All {
      assert All[Index(c)] == c;
    }
  }

  /** No two colours share an RGB code, so a bitmap pixel names at most one colour. */
  lemma RgbCodeInjective(a: Colour, b: Colour)
    requires RgbCode(a) == RgbCode(b)
    ensures a == b
  {
  }
}
