// PietDotNet.Delta: the older interpreter's name for a command (hue and lightness change), normalised with `Mod`.
module Deltas {
  import opened CSharp
  import opened Colours
  import ModExtensions
  import Commands

  datatype Delta = Delta(hue: HueIndex, lightness: LightnessIndex)

  /** The public constructor: both components are reduced with `Mod`. */
  function New(hue: Int32, lightness: Int32): (d: Delta)
    ensures d.hue == hue % 6 && d.lightness == lightness % 3
  {
    Delta(ModExtensions.Mod(hue, 6, Int).value, ModExtensions.Mod(lightness, 3, Int).value)
  }

  /** A whole turn of hue and of lightness gives the same value. */
  lemma NewPeriodic(hue: Int32, lightness: Int32)
    requires hue + 6 <= MaxInt32 && lightness + 3 <= MaxInt32
    ensures New(hue + 6, lightness + 3) == New(hue, lightness)
  {
    AddMultiple(hue, 1, 6);
    AddMultiple(lightness, 1, 3);
  }

  /** `None` is the struct's default value. */
  const None: Delta := Delta(0, 0)
  const Push: Delta := Delta(0, 1)
  const Pop: Delta := Delta(0, 2)
  const Add: Delta := Delta(1, 0)
  const Subtract: Delta := Delta(1, 1)
  const Multiply: Delta := Delta(1, 2)
  const Divide: Delta := Delta(2, 0)
  const Mod: Delta := Delta(2, 1)
  const Not: Delta := Delta(2, 2)
  const Greater: Delta := Delta(3, 0)
  const Pointer: Delta := Delta(3, 1)
  const Switch: Delta := Delta(3, 2)
  const Duplicate: Delta := Delta(4, 0)
  const Roll: Delta := Delta(4, 1)
  const InInt: Delta := Delta(4, 2)
  const InChr: Delta := Delta(5, 0)
  const OutInt: Delta := Delta(5, 1)
  const OutChr: Delta := Delta(5, 2)

  /** Each named value is what the private constructor makes of its two arguments. */
  lemma ConstantsAreNormalised()
    ensures None == New(0, 0)
    ensures Push == New(0, 1)
    ensures Pop == New(0, 2)
    ensures Add == New(1, 0)
    ensures Subtract == New(1, 1)
    ensures Multiply == New(1, 2)
    ensures Divide == New(2, 0)
    ensures Mod == New(2, 1)
    ensures Not == New(2, 2)
    ensures Greater == New(3, 0)
    ensures Pointer == New(3, 1)
    ensures Switch == New(3, 2)
    ensures Duplicate == New(4, 0)
    ensures Roll == New(4, 1)
    ensures InInt == New(4, 2)
    ensures InChr == New(5, 0)
    ensures OutInt == New(5, 1)
    ensures OutChr == New(5, 2)
  {
  }

  /** `Equals`: component-wise comparison. */
  predicate Equals(d: Delta, other: Delta)
    ensures Equals(d, other) <==> d == other
  {
    d.hue == other.hue && d.lightness == other.lightness
  }

  /** `operator ==`. */
  predicate Eq(l: Delta, r: Delta)
    ensures Eq(l, r) <==> l == r
  {
    Equals(l, r)
  }

  /** `operator !=`. */
  predicate Neq(l: Delta, r: Delta)
    ensures Neq(l, r) <==> l != r
  {
    !Eq(l, r)
  }

  /** `GetHashCode`: `(Hue << 2) + Lightness`. */
  function HashCode(d: Delta): (h: Int32)
    ensures 0 <= h < 24
    ensures h / 4 == d.hue && h % 4 == d.lightness
  {
    d.hue * 4 + d.lightness
  }

  /** The eighteen constants are all the values there are. */
  lemma ConstantsCoverAllValues(d: Delta)
    ensures d == None || d == Push || d == Pop || d == Add || d == Subtract || d == Multiply
         || d == Divide || d == Mod || d == Not || d == Greater || d == Pointer || d == Switch
         || d == Duplicate || d == Roll || d == InInt || d == InChr || d == OutInt || d == OutChr
  {
  }

  /** The eighteen constants, in order of hue and then lightness. */
  const All := [None, Push, Pop, Add, Subtract, Multiply, Divide, Mod, Not,
                  Greater, Pointer, Switch, Duplicate, Roll, InInt, InChr, OutInt, OutChr]

  /** The eighteen constants are pairwise distinct: each sits at the position its hue and lightness give. */
  lemma ConstantsDistinct()
    ensures forall i, j :: 0 <= i < j < |All| ==> All[i] != All[j]
  {
    forall i | 0 <= i < |All| ensures All[i].hue * 3 + All[i].lightness == i {}
  }

  /** Distinct values never share a hash code. */
  lemma HashCodeInjective(d: Delta, e: Delta)
    requires HashCode(d) == HashCode(e)
    ensures d == e
  {
  }

  /** The constructor normalises exactly as `Command`'s does. */
  lemma NewAgreesWithCommand(hue: Int32, lightness: Int32)
    ensures New(hue, lightness).hue == Commands.New(hue, lightness).hue
    ensures New(hue, lightness).lightness == Commands.New(hue, lightness).lightness
  {
  }
}
