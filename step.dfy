// PietDotNet.Step: a point and a direction pointer, one step of a pointer's
// route across white colour blocks.
module Steps {
  import opened CSharp
  import opened DirectionPointers
  import opened PointExtensions

  /** The struct; the constructor stores both arguments as given. */
  datatype Step = Step(point: Point, dp: DirectionPointer)

  /** The values `Equals(object)` may be handed: a boxed step, or anything else. */
  datatype Boxed = BoxedStep(step: Step) | BoxedOther

  /** `Equals(Step)`: same point and same direction pointer. */
  predicate Equals(s: Step, other: Step)
    ensures Equals(s, other) <==> s == other
  {
    s.point == other.point && s.dp == other.dp
  }

  /** `Equals(object)`: false for anything that is not a step. */
  predicate EqualsObject(s: Step, obj: Boxed)
    ensures EqualsObject(s, obj) <==> obj == BoxedStep(s)
  {
    match obj
    case BoxedStep(other) => Equals(s, other)
    case BoxedOther => false
  }

  /**
   * `GetHashCode`, as the 32-bit pattern of the `int` it returns: the
   * point's hash code XOR the direction pointer's shifted 16 bits up, so the
   * low 16 bits are the point's. `Point.GetHashCode` belongs to System.Drawing
   * and is taken as a parameter; the enum's hash code is its value.
   */
  function HashCode(s: Step, pointHash: Point -> bv32): (h: bv32)
    ensures h & 0xFFFF == pointHash(s.point) & 0xFFFF
  {
    var d := (if s.dp < 0 then s.dp as int + 0x1_0000_0000 else s.dp as int) as bv32;
    ShiftedKeepsLowBits(pointHash(s.point), d);
    pointHash(s.point) ^ (d << 16)
  }

  /** XOR with a value shifted 16 bits up leaves the low 16 bits alone. */
  lemma ShiftedKeepsLowBits(a: bv32, d: bv32)
    ensures (a ^ (d << 16)) & 0xFFFF == a & 0xFFFF
  {
  }

  /** Equal steps have equal hash codes, whatever the point hash. */
  lemma EqualStepsHashEqually(s: Step, other: Step, pointHash: Point -> bv32)
    requires EqualsObject(s, BoxedStep(other))
    ensures HashCode(s, pointHash) == HashCode(other, pointHash)
  {
  }
}
