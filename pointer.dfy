// PietDotNet.Pointer: the immutable pointer, a position together with the
// direction pointer and the codel chooser.
module Pointers {
  import opened Exceptions
  import opened CSharp
  import opened Codels
  import DirectionPointers
  import CodelChoosers
  import Directions
  type DirectionPointer = DirectionPointers.DirectionPointer
  type CodelChooser = CodelChoosers.CodelChooser

  /** The readonly struct; its enum fields may in principle hold any `int`. */
  datatype Pointer = Pointer(position: Codel, dp: DirectionPointer, cc: CodelChooser)

  /** `Pointer.Initial`, the default struct: (0, 0), pointing right, choosing left. */
  const Initial: Pointer := Pointer(Codel(0, 0), DirectionPointers.Right, CodelChoosers.Left)

  /** Both enum fields hold named values. */
  predicate Defined(p: Pointer)
  {
    0 <= p.dp < 4 && 0 <= p.cc < 2
  }

  /**
   * `SingleStep`: the position moves one codel along DP (see `Codels.Step`);
   * DP and CC stay. `Codel.Next` throws for an undefined DP.
   */
  function SingleStep(p: Pointer): (r: Result<Pointer>)
    ensures r.Ok? <==> 0 <= p.dp < 4
    ensures r.Err? ==> r.error == ArgumentOutOfRange
    ensures r.Ok? ==> r.value.dp == p.dp && r.value.cc == p.cc
    ensures r.Ok? ==> r.value.position == Step(p.position, p.dp)
  {
    var position :- Codels.Next(p.position, p.dp);
    Ok(Pointer(position, p.dp, p.cc))
  }

  /** `Move(position)`: only the position changes. */
  function Move(p: Pointer, position: Codel): (r: Pointer)
    ensures r.position == position && r.dp == p.dp && r.cc == p.cc
  {
    Pointer(position, p.dp, p.cc)
  }

  /** `Rotate(rotate)`: only DP changes, turned clockwise `rotate` quarters (anticlockwise if negative). */
  function Rotate(p: Pointer, rotate: Int64): (r: Pointer)
    ensures r.position == p.position && r.cc == p.cc
    ensures r.dp as int == (p.dp as int + rotate) % 4
  {
    Pointer(p.position, DirectionPointers.Rotate(p.dp, rotate), p.cc)
  }

  /** `Switch(switch)`: only CC changes, toggled `switch` times. */
  function Switch(p: Pointer, switch: Int64): (r: Pointer)
    ensures r.position == p.position && r.dp == p.dp
    ensures r.cc as int == (p.cc as int + switch) % 2
  {
    Pointer(p.position, p.dp, CodelChoosers.Switch(p.cc, switch))
  }

  /** `Equals`: position, DP and CC all equal. */
  predicate Equals(p: Pointer, other: Pointer)
    ensures Equals(p, other) <==> p == other
  {
    Codels.Equals(p.position, other.position) && p.dp == other.dp && p.cc == other.cc
  }

  /**
   * The implicit conversion to `Direction`, through its guarding
   * constructor: defined for a pointer whose enum fields are named.
   */
  function ToDirection(p: Pointer): (r: Result<Directions.Direction>)
    ensures r.Ok? <==> Defined(p)
    ensures r.Ok? ==> r.value.dp == p.dp && r.value.cc == p.cc
  {
    Directions.New(p.dp, p.cc)
  }

  /**
   * Every pointer the operations build from `Initial` has named enum values:
   * the initial one does, and each operation keeps it so.
   */
  lemma OperationsKeepDefined(p: Pointer, position: Codel, k: Int64)
    requires Defined(p)
    ensures Defined(Initial)
    ensures SingleStep(p).Ok? && Defined(SingleStep(p).value)
    ensures Defined(Move(p, position)) && Defined(Rotate(p, k)) && Defined(Switch(p, k))
  {
  }

  /** A step followed by a half turn and another step lands on the start, facing back. */
  lemma StepAndReturn(p: Pointer)
    requires Defined(p)
    ensures SingleStep(p).Ok?
    ensures SingleStep(Rotate(SingleStep(p).value, 2)).Ok?
    ensures SingleStep(Rotate(SingleStep(p).value, 2)).value.position == p.position
  {
    var dp: DirectionPointers.DP := p.dp;
    StepBack(p.position, dp);
  }
}
