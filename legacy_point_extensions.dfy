// The older System.Drawing.PointExtensions (src/PietDotNet/PointExtensions.cs):
// the same `Next`, written as a switch statement.
module LegacyPointExtensions {
  import opened Exceptions
  import opened CSharp
  import opened DirectionPointers
  import PointExtensions

  type Point = PointExtensions.Point

  /** `point.Next(dp)`, one `return` per defined direction, else InvalidOperationException. */
  function Next(point: Point, dp: DirectionPointer): (r: Result<Point>)
    ensures r.Err? <==> !(0 <= dp < 4)
    ensures r.Err? ==> r.error == InvalidOperation
  {
    if dp == Right then Ok(PointExtensions.Point(Wrap(point.x + 1, Int), Wrap(point.y + 0, Int)))
    else if dp == Left then Ok(PointExtensions.Point(Wrap(point.x - 1, Int), Wrap(point.y + 0, Int)))
    else if dp == Top then Ok(PointExtensions.Point(Wrap(point.x + 0, Int), Wrap(point.y - 1, Int)))
    else if dp == Down then Ok(PointExtensions.Point(Wrap(point.x + 0, Int), Wrap(point.y + 1, Int)))
    else Err(InvalidOperation)
  }

  /** The old and the new extension give the same result on every input. */
  lemma NextAgrees(point: Point, dp: DirectionPointer)
    ensures Next(point, dp) == PointExtensions.Next(point, dp)
  {
  }

  /** A step in the opposite direction undoes a step. */
  lemma NextThenBack(point: Point, dp: DP)
    ensures Next(point, dp).Ok?
    ensures Next(Next(point, dp).value, Rotate(dp, 2)) == Ok(point)
  {
    NextAgrees(point, dp);
    PointExtensions.NextThenBack(point, dp);
    NextAgrees(Next(point, dp).value, Rotate(dp, 2));
  }
}
