// PietDotNet.Command: a command is the hue and lightness change between two
// consecutive colour blocks, normalised to 0..5 and 0..2.
module Commands {
  import opened Exceptions
  import opened CSharp
  import opened Colours
  import NumberExtensions

  /** The readonly struct; the type of its fields keeps them normalised. */
  datatype Command = Command(hue: HueIndex, lightness: LightnessIndex)

  /**
   * The private constructor: both components are reduced with `Modulo`, so
   * any pair of ints gives a normalised command.
   */
  function New(hue: Int32, lightness: Int32): (c: Command)
    ensures c.hue == hue % 6 && c.lightness == lightness % 3
  {
    Command(NumberExtensions.Modulo(hue, 6, Int).value, NumberExtensions.Modulo(lightness, 3, Int).value)
  }

  /** `None` is the struct's default value. */
  const None: Command := Command(0, 0)
  const Push: Command := Command(0, 1)
  const Pop: Command := Command(0, 2)
  const Add: Command := Command(1, 0)
  const Subtract: Command := Command(1, 1)
  const Multiply: Command := Command(1, 2)
  const Divide: Command := Command(2, 0)
  const Modulo: Command := Command(2, 1)
  const Not: Command := Command(2, 2)
  const Greater: Command := Command(3, 0)
  const Rotate: Command := Command(3, 1)
  const Switch: Command := Command(3, 2)
  const Duplicate: Command := Command(4, 0)
  const Roll: Command := Command(4, 1)
  const InInt: Command := Command(4, 2)
  const InChr: Command := Command(5, 0)
  const OutInt: Command := Command(5, 1)
  const OutChr: Command := Command(5, 2)

  /** Each named value is what the private constructor makes of its two arguments. */
  lemma ConstantsAreNormalised()
    ensures None == New(0, 0)
    ensures Push == New(0, 1)
    ensures Pop == New(0, 2)
    ensures Add == New(1, 0)
    ensures Subtract == New(1, 1)
    ensures Multiply == New(1, 2)
    ensures Divide == New(2, 0)
    ensures Modulo == New(2, 1)
    ensures Not == New(2, 2)
    ensures Greater == New(3, 0)
    ensures Rotate == New(3, 1)
    ensures Switch == New(3, 2)
    ensures Duplicate == New(4, 0)
    ensures Roll == New(4, 1)
    ensures InInt == New(4, 2)
    ensures InChr == New(5, 0)
    ensures OutInt == New(5, 1)
    ensures OutChr == New(5, 2)
  {
  }

  /** `Equals`: component-wise comparison. */
  predicate Equals(c: Command, other: Command)
    ensures Equals(c, other) <==> c == other
  {
    c.hue == other.hue && c.lightness == other.lightness
  }

  /** `GetHashCode`: `(Hue << 2) + Lightness`. */
  function HashCode(c: Command): (h: Int32)
    ensures 0 <= h < 24
    ensures h / 4 == c.hue && h % 4 == c.lightness
  {
    c.hue * 4 + c.lightness
  }

  /** Distinct commands never share a hash code. */
  lemma HashCodeInjective(c: Command, d: Command)
    requires HashCode(c) == HashCode(d)
    ensures c == d
  {
  }

  /** The `Names` dictionary. */
  const Names: map<Command, string> := map[
    None := "NONE", Push := "PUSH", Pop := "POP",
    Add := "ADD", Subtract := "SUB", Multiply := "MUL",
    Divide := "DIV", Modulo := "MOD", Not := "NOT",
    Greater := "GT", Rotate := "ROT", Switch := "SWI",
    Duplicate := "DUP", Roll := "ROL", InInt := "INi",
    InChr := "INc", OutInt := "OUTi", OutChr := "OUTc"]

  /** The eighteen named commands, in order of hue and then lightness. */
  const All := [None, Push, Pop, Add, Subtract, Multiply, Divide, Modulo, Not,
                  Greater, Rotate, Switch, Duplicate, Roll, InInt, InChr, OutInt, OutChr]

  /** The eighteen named commands are pairwise distinct: each sits at the position its hue and lightness give. */
  lemma CommandsDistinct()
    ensures forall i, j :: 0 <= i < j < |All| ==> All[i] != All[j]
  {
    forall i | 0 <= i < |All| ensures All[i].hue * 3 + All[i].lightness == i {}
  }

  /** Every command is one of the eighteen and has a name. */
  lemma EveryCommandIsNamed(c: Command)
    ensures c in Names
    ensures c == None || c == Push || c == Pop || c == Add || c == Subtract || c == Multiply
         || c == Divide || c == Modulo || c == Not || c == Greater || c == Rotate || c == Switch
         || c == Duplicate || c == Roll || c == InInt || c == InChr || c == OutInt || c == OutChr
  {
  }

  /** `Name`: the dictionary lookup never misses and never gives an empty name. */
  function Name(c: Command): (name: string)
    ensures |name| > 0
  {
    EveryCommandIsNamed(c);
    Names[c]
  }

  /**
   * `Command.Delta(current, previous)`: defined only between two hued
   * colours; otherwise it throws InvalidOperationException. The command is
   * the change of hue modulo 6 and of lightness modulo 3 (see `DeltaLeadsTo`).
   */
  function Delta(current: Colour, previous: Colour): (r: Result<Command>)
    ensures r.Err? <==> IsBlackOrWhite(current) || IsBlackOrWhite(previous)
    ensures r.Err? ==> r.error == InvalidOperation
    ensures r.Ok? ==> r.value.hue == (current.hue - previous.hue) % 6
    ensures r.Ok? ==> r.value.lightness == (current.lightness - previous.lightness) % 3
  {
    if IsBlackOrWhite(current) || IsBlackOrWhite(previous) then Err(InvalidOperation)
    else
      var h := Hue(current) - Hue(previous);
      var l := Lightness(current) - Lightness(previous);
      Ok(New(h, l))
  }

  /** `Colour.operator -`: `l - r` is the command for moving from `r` to `l`. */
  function Minus(l: Colour, r: Colour): (c: Result<Command>)
    ensures c.Ok? <==> l.Hued? && r.Hued?
    ensures c.Ok? ==> c.value == New(l.hue - r.hue, l.lightness - r.lightness)
  {
    Delta(l, r)
  }

  /**
   * For hued colours the command determines the current colour from the
   * previous one: two moves from one colour that give the same command end
   * on the same colour.
   */
  lemma DeltaDeterminesColour(previous: Colour, a: Colour, b: Colour)
    requires Delta(a, previous).Ok? && Delta(a, previous) == Delta(b, previous)
    ensures a == b
  {
    DeltaLeadsTo(a, previous);
    DeltaLeadsTo(b, previous);
  }

  /** Moving back undoes a move: the two commands add up to no change. */
  lemma DeltaAntisymmetric(a: Colour, b: Colour)
    requires a.Hued? && b.Hued?
    ensures (Delta(a, b).value.hue + Delta(b, a).value.hue) % 6 == 0
    ensures (Delta(a, b).value.lightness + Delta(b, a).value.lightness) % 3 == 0
  {
    HueChangesCancel(a, b);
    LightnessChangesCancel(a, b);
  }

  /** The hue half of `DeltaAntisymmetric`. */
  lemma HueChangesCancel(a: Colour, b: Colour)
    requires a.Hued? && b.Hued?
    ensures (Delta(a, b).value.hue + Delta(b, a).value.hue) % 6 == 0
  {
    NegatedChanges(a.hue, b.hue, 6);
  }

  /** The lightness half of `DeltaAntisymmetric`. */
  lemma LightnessChangesCancel(a: Colour, b: Colour)
    requires a.Hued? && b.Hued?
    ensures (Delta(a, b).value.lightness + Delta(b, a).value.lightness) % 3 == 0
  {
    NegatedChanges(a.lightness, b.lightness, 3);
  }

  /** The changes from `y` to `x` and from `x` to `y`, modulo `m`, make a whole turn. */
  lemma NegatedChanges(x: int, y: int, m: int)
    requires m > 0
    ensures ((x - y) % m + (y - x) % m) % m == 0
  {
    var i, j := (x - y) / m, (y - x) / m;
    var p, q := (x - y) % m, (y - x) % m;
    assert x - y == m * i + p;
    assert y - x == m * j + q;
    assert p + q == m * -(i + j) + 0;
    RemainderUnique(p + q, m, -(i + j), 0);
  }

  /** Applying the command to the previous colour's hue and lightness gives the current colour. */
  lemma DeltaLeadsTo(a: Colour, b: Colour)
    requires a.Hued? && b.Hued?
    ensures Delta(a, b).Ok?
    ensures (b.hue + Delta(a, b).value.hue) % 6 == a.hue
    ensures (b.lightness + Delta(a, b).value.lightness) % 3 == a.lightness
  {
    var d := Delta(a, b).value;
    ChangeLeadsTo(a.hue, b.hue, d.hue, 6);
    ChangeLeadsTo(a.lightness, b.lightness, d.lightness, 3);
  }

  /** Staying on one colour gives no command. */
  lemma DeltaOfSameColourIsNone(c: Colour)
    requires c.Hued?
    ensures Delta(c, c) == Ok(None)
  {
  }

  /** The commands the unit tests derive from pairs of hued colours. */
  lemma MinusExamples()
    ensures Minus(Red, RedDark) == Ok(Pop)
    ensures Minus(Red, GreenLight) == Ok(Roll)
  {
    assert Minus(Red, RedDark).value == New(0, -1);
    assert Minus(Red, GreenLight).value == New(-2, 1);
  }
}
