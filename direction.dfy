// PietDotNet.Direction: the (DP, CC) pair a pointer converts to.
module Directions {
  import opened Exceptions
  import opened CSharp
  import opened DirectionPointers
  import opened CodelChoosers

  /** The struct; the guarding constructor keeps both fields defined. */
  datatype Direction = Direction(dp: DP, cc: CC)

  /**
   * The constructor: `Guard.DefinedEnum` rejects a value of either enum
   * that has no name, and otherwise both are stored unchanged.
   */
  function New(dp: DirectionPointer, cc: CodelChooser): (r: Result<Direction>)
    ensures r.Ok? <==> 0 <= dp < 4 && 0 <= cc < 2
    ensures r.Err? ==> r.error == UndefinedEnum
    ensures r.Ok? ==> r.value.dp == dp && r.value.cc == cc
  {
    if 0 <= dp < 4 && 0 <= cc < 2 then Ok(Direction(dp, cc)) else Err(UndefinedEnum)
  }

  /** `Equals`: component-wise comparison. */
  predicate Equals(d: Direction, other: Direction)
    ensures Equals(d, other) <==> d == other
  {
    d.dp == other.dp && d.cc == other.cc
  }

  /** `GetHashCode`: `(int)DP | ((int)CC << 3)`; the two fields occupy separate bits. */
  function HashCode(d: Direction): (h: Int32)
    ensures h == d.dp as int + 8 * d.cc as int
  {
    ((d.dp as bv32) | ((d.cc as bv32) << 3)) as int
  }

  /** Different values never share a hash code. */
  lemma HashCodeInjective(d: Direction, e: Direction)
    requires HashCode(d) == HashCode(e)
    ensures d == e
  {
    FieldsFromHash(HashCode(d), d.dp as int, d.cc as int);
    FieldsFromHash(HashCode(e), e.dp as int, e.cc as int);
  }

  /** A hash code gives back the direction pointer in its low three bits and the chooser above them. */
  lemma FieldsFromHash(h: int, dp: int, cc: int)
    requires 0 <= dp < 4 && h == dp + 8 * cc
    ensures dp == h % 8 && cc == h / 8
  {
  }
}
