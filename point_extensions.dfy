// System.Drawing.PointExtensions: `Next` on a `System.Drawing.Point`, the
// position type the slide-route steps are recorded in.
module PointExtensions {
  import opened Exceptions
  import opened CSharp
  import opened DirectionPointers
  import Codels

  /** `System.Drawing.Point`: two `int` coordinates; y grows downwards. */
  datatype Point = Point(x: Int32, y: Int32)

  /**
   * `point.Next(dp)`: one unchecked `int` step along a defined direction; any
   * other value of the enum throws InvalidOperationException.
   */
  function Next(point: Point, dp: DirectionPointer): (r: Result<Point>)
    ensures r.Err? <==> !(0 <= dp < 4)
    ensures r.Err? ==> r.error == InvalidOperation
    ensures r.Ok? && dp == Right ==> r.value == Point(Wrap(point.x + 1, Int), point.y)
    ensures r.Ok? && dp == Left ==> r.value == Point(Wrap(point.x - 1, Int), point.y)
    ensures r.Ok? && dp == Top ==> r.value == Point(point.x, Wrap(point.y - 1, Int))
    ensures r.Ok? && dp == Down ==> r.value == Point(point.x, Wrap(point.y + 1, Int))
  {
    match dp
    case 0 => Ok(Point(Wrap(point.x + 1, Int), Wrap(point.y + 0, Int)))
    case 2 => Ok(Point(Wrap(point.x - 1, Int), Wrap(point.y + 0, Int)))
    case 3 => Ok(Point(Wrap(point.x + 0, Int), Wrap(point.y - 1, Int)))
    case 1 => Ok(Point(Wrap(point.x + 0, Int), Wrap(point.y + 1, Int)))
    case _ => Err(InvalidOperation)
  }

  /**
   * Moving a point and moving the codel with the same coordinates agree on
   * every defined direction; only the exception for an undefined one differs.
   */
  lemma NextAgreesWithCodel(point: Point, dp: DirectionPointer)
    ensures Next(point, dp).Ok? <==> Codels.Next(Codels.Codel(point.x, point.y), dp).Ok?
    ensures Next(point, dp).Ok? ==>
      var c := Codels.Next(Codels.Codel(point.x, point.y), dp).value;
      Next(point, dp).value == Point(c.x, c.y)
  {
  }

  /** A step in the opposite direction undoes a step, even across the `int` limits. */
  lemma NextThenBack(point: Point, dp: DP)
    ensures Next(point, dp).Ok?
    ensures Next(Next(point, dp).value, Rotate(dp, 2)) == Ok(point)
  {
    NextBackTo(point, dp, Rotate(dp, 2));
  }

  lemma NextBackTo(point: Point, dp: DP, back: DP)
    requires back as int == (dp as int + 2) % 4
    ensures Next(point, dp).Ok?
    ensures Next(Next(point, dp).value, back) == Ok(point)
  {
    match dp
    case 0 =>
      assert back == 2;
      WrapStepBack(point.x);
    case 1 =>
      assert back == 3;
      WrapStepBack(point.y);
    case 2 =>
      assert back == 0;
      WrapStepBack(point.x);
    case 3 =>
      assert back == 1;
      WrapStepBack(point.y);
  }

  /** The unit tests' moves from the origin, and an undefined direction. */
  lemma NextExamples()
    ensures Next(Point(0, 0), Top) == Ok(Point(0, -1))
    ensures Next(Point(0, 0), Right) == Ok(Point(1, 0))
    ensures Next(Point(0, 0), Down) == Ok(Point(0, 1))
    ensures Next(Point(0, 0), Left) == Ok(Point(-1, 0))
    ensures Next(Point(0, 0), 7) == Err(InvalidOperation)
  {
  }
}
