// PietDotNet.Codel: a position on the canvas, and the step to a neighbour.
module Codels {
  import opened Exceptions
  import opened CSharp
  import opened DirectionPointers

  /** The readonly struct of two `int` coordinates; y grows downwards. */
  datatype Codel = Codel(x: Int32, y: Int32)

  /**
   * The coordinate that grows when moving along `dp`: x to the right, y
   * downwards, -x to the left and -y to the top.
   */
  function Along(c: Codel, dp: DP): int
  {
    match dp
    case 0 => c.x as int
    case 1 => c.y as int
    case 2 => -(c.x as int)
    case 3 => -(c.y as int)
  }

  /** The direction a quarter turn clockwise from `dp` (see `ClockwiseIsRotate`). */
  function Clockwise(dp: DP): DP
  {
    (dp + 1) % 4
  }

  lemma ClockwiseIsRotate(dp: DP)
    ensures Clockwise(dp) == Rotate(dp, 1)
  {
  }

  /** A codel whose neighbours do not wrap around the `int` range. */
  predicate Interior(c: Codel)
  {
    MinInt32 < c.x < MaxInt32 && MinInt32 < c.y < MaxInt32
  }

  /**
   * `Next` for a defined direction: one unchecked `int` step along `dp`.
   * Away from the `int` limits this goes exactly one unit forward along `dp`
   * and keeps the coordinate across it.
   */
  function Step(c: Codel, dp: DP): (r: Codel)
    ensures Interior(c) ==> Along(r, dp) == Along(c, dp) + 1
    ensures Interior(c) ==> Along(r, Clockwise(dp)) == Along(c, Clockwise(dp))
  {
    WrapStep(c.x);
    WrapStep(c.y);
    match dp
    case 0 => Codel(Wrap(c.x + 1, Int), c.y)
    case 2 => Codel(Wrap(c.x - 1, Int), c.y)
    case 3 => Codel(c.x, Wrap(c.y - 1, Int))
    case 1 => Codel(c.x, Wrap(c.y + 1, Int))
  }

  /**
   * `Codel.Next(dp)`: a value of the enum outside the four named ones
   * throws ArgumentOutOfRangeException.
   */
  function Next(c: Codel, dp: DirectionPointer): (r: Result<Codel>)
    ensures r.Err? <==> !(0 <= dp < 4)
    ensures r.Err? ==> r.error == ArgumentOutOfRange
    ensures r.Ok? ==> r.value == Step(c, dp)
  {
    if 0 <= dp < 4 then Ok(Step(c, dp)) else Err(ArgumentOutOfRange)
  }

  /**
   * Every step changes exactly one coordinate; away from the `int` limits it
   * changes it by exactly one.
   */
  lemma StepIsUnit(c: Codel, dp: DP)
    ensures (Step(c, dp).x == c.x) != (Step(c, dp).y == c.y)
    ensures Interior(c) ==> Abs(Step(c, dp).x - c.x) + Abs(Step(c, dp).y - c.y) == 1
  {
    WrapStep(c.x);
    WrapStep(c.y);
  }

  /** The unit tests' moves from (1, 1) in the four directions. */
  lemma NextExamples()
    ensures Next(Codel(1, 1), Right) == Ok(Codel(2, 1))
    ensures Next(Codel(1, 1), Left) == Ok(Codel(0, 1))
    ensures Next(Codel(1, 1), Top) == Ok(Codel(1, 0))
    ensures Next(Codel(1, 1), Down) == Ok(Codel(1, 2))
    ensures Next(Codel(1, 1), 4) == Err(ArgumentOutOfRange)
  {
  }

  /** A step back in the opposite direction returns to the start, even across the `int` limits. */
  lemma StepBack(c: Codel, dp: DP)
    ensures Step(Step(c, dp), Rotate(dp, 2)) == c
  {
    StepBackTo(c, dp, Rotate(dp, 2));
  }

  lemma StepBackTo(c: Codel, dp: DP, back: DP)
    requires back as int == (dp as int + 2) % 4
    ensures Step(Step(c, dp), back) == c
  {
    match dp
    case 0 =>
      assert back == 2;
      WrapStepBack(c.x);
    case 1 =>
      assert back == 3;
      WrapStepBack(c.y);
    case 2 =>
      assert back == 0;
      WrapStepBack(c.x);
    case 3 =>
      assert back == 1;
      WrapStepBack(c.y);
  }

  /** `Equals`: component-wise comparison. */
  predicate Equals(c: Codel, other: Codel)
    ensures Equals(c, other) <==> c == other
  {
    c.x == other.x && c.y == other.y
  }
}
