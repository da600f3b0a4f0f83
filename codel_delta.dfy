// PietDotNet.CodelDelta: a third copy of the normalised hue and lightness change, with `Mod`.
module CodelDeltas {
  import opened CSharp
  import opened Colours
  import ModExtensions
  import Commands

  datatype CodelDelta = CodelDelta(hue: HueIndex, lightness: LightnessIndex)

  /** The public constructor: both components are reduced with `Mod`. */
  function New(hue: Int32, lightness: Int32): (d: CodelDelta)
    ensures d.hue == hue % 6 && d.lightness == lightness % 3
  {
    CodelDelta(ModExtensions.Mod(hue, 6, Int).value, ModExtensions.Mod(lightness, 3, Int).value)
  }

  /** A whole turn of hue and of lightness gives the same value. */
  lemma NewPeriodic(hue: Int32, lightness: Int32)
    requires hue + 6 <= MaxInt32 && lightness + 3 <= MaxInt32
    ensures New(hue + 6, lightness + 3) == New(hue, lightness)
  {
    AddMultiple(hue, 1, 6);
    AddMultiple(lightness, 1, 3);
  }

  /** `None` is the struct's default value. */
  const None: CodelDelta := CodelDelta(0, 0)
  const Push: CodelDelta := CodelDelta(0, 1)
  const Pop: CodelDelta := CodelDelta(0, 2)
  const Add: CodelDelta := CodelDelta(1, 0)
  const Subtract: CodelDelta := CodelDelta(1, 1)
  const Multiply: CodelDelta := CodelDelta(1, 2)
  const Divide: CodelDelta := CodelDelta(2, 0)
  const Mod: CodelDelta := CodelDelta(2, 1)
  const Not: CodelDelta := CodelDelta(2, 2)
  const Greater: CodelDelta := CodelDelta(3, 0)
  const Pointer: CodelDelta := CodelDelta(3, 1)
  const Switch: CodelDelta := CodelDelta(3, 2)
  const Duplicate: CodelDelta := CodelDelta(4, 0)
  const Roll: CodelDelta := CodelDelta(4, 1)
  const InInt: CodelDelta := CodelDelta(4, 2)
  const InChr: CodelDelta := CodelDelta(5, 0)
  const OutInt: CodelDelta := CodelDelta(5, 1)
  const OutChr: CodelDelta := CodelDelta(5, 2)

  /** Each named value is what the private constructor makes of its two arguments. */
  lemma ConstantsAreNormalised()
    ensures None == New(0, 0)
    ensures Push == New(0, 1)
    ensures Pop == New(0, 2)
    ensures Add == New(1, 0)
    ensures Subtract == New(1, 1)
    ensures Multiply == New(1, 2)
    ensures Divide == New(2, 0)
    ensures Mod == New(2, 1)
    ensures Not == New(2, 2)
    ensures Greater == New(3, 0)
    ensures Pointer == New(3, 1)
    ensures Switch == New(3, 2)
    ensures Duplicate == New(4, 0)
    ensures Roll == New(4, 1)
    ensures InInt == New(4, 2)
    ensures InChr == New(5, 0)
    ensures OutInt == New(5, 1)
    ensures OutChr == New(5, 2)
  {
  }

  /** `Equals`: component-wise comparison. */
  predicate Equals(d: CodelDelta, other: CodelDelta)
    ensures Equals(d, other) <==> d == other
  {
    d.hue == other.hue && d.lightness == other.lightness
  }

  /** `operator ==`. */
  predicate Eq(l: CodelDelta, r: CodelDelta)
    ensures Eq(l, r) <==> l == r
  {
    Equals(l, r)
  }

  /** `operator !=`. */
  predicate Neq(l: CodelDelta, r: CodelDelta)
    ensures Neq(l, r) <==> l != r
  {
    !Eq(l, r)
  }

  /** `GetHashCode`: `(Hue << 2) + Lightness`. */
  function HashCode(d: CodelDelta): (h: Int32)
    ensures 0 <= h < 24
    ensures h / 4 == d.hue && h % 4 == d.lightness
  {
    d.hue * 4 + d.lightness
  }

  /** The eighteen constants are all the values there are. */
  lemma ConstantsCoverAllValues(d: CodelDelta)
    ensures d == None || d == Push || d == Pop || d == Add || d == Subtract || d == Multiply
         || d == Divide || d == Mod || d == Not || d == Greater || d == Pointer || d == Switch
         || d == Duplicate || d == Roll || d == InInt || d == InChr || d == OutInt || d == OutChr
  {
  }

  /** The eighteen constants, in order of hue and then lightness. */
  const All := [None, Push, Pop, Add, Subtract, Multiply, Divide, Mod, Not,
                  Greater, Pointer, Switch, Duplicate, Roll, InInt, InChr, OutInt, OutChr]

  /** The eighteen constants are pairwise distinct: each sits at the position its hue and lightness give. */
  lemma ConstantsDistinct()
    ensures forall i, j :: 0 <= i < j < |All| ==> All[i] != All[j]
  {
    forall i | 0 <= i < |All| ensures All[i].hue * 3 + All[i].lightness == i {}
  }

  /** Distinct values never share a hash code. */
  lemma HashCodeInjective(d: CodelDelta, e: CodelDelta)
    requires HashCode(d) == HashCode(e)
    ensures d == e
  {
  }

  /** The constructor normalises exactly as `Command`'s does. */
  lemma NewAgreesWithCommand(hue: Int32, lightness: Int32)
    ensures New(hue, lightness).hue == Commands.New(hue, lightness).hue
    ensures New(hue, lightness).lightness == Commands.New(hue, lightness).lightness
  {
  }
}
