// PietDotNet.DirectionPointer: the enum of the four directions and its
// Rotate extension.
module DirectionPointers {
  import opened CSharp

  /**
   * The C# enum: an `int` that may hold any value, of which 0..3 are the
   * named ones (right, down, left, top, clockwise).
   */
  newtype DirectionPointer = x: int | -0x8000_0000 <= x <= 0x7FFF_FFFF

  const Right: DirectionPointer := 0
  const Down: DirectionPointer := 1
  const Left: DirectionPointer := 2
  const Top: DirectionPointer := 3

  /** The defined values of the enum. */
  type DP = dp: DirectionPointer | 0 <= dp < 4

  /**
   * `dp.Rotate(rotate)`: the sum is taken in unchecked `long`, reduced with
   * C#'s `%` twice around adding 4.
   */
  function Rotate(dp: DirectionPointer, rotate: Int64): (r: DP)
    ensures r as int == (dp as int + rotate) % 4
  {
    var val := Wrap(dp as int + rotate, Long);
    var reduced := RemT(val, 4);
    var shifted := reduced + 4;
    var result := RemT(shifted, 4);
    WrapKeepsLowBits(dp as int + rotate, Long);
    RemTAgainstEuclidean(val, 4);
    RemTAgainstEuclidean(shifted, 4);
    result as DirectionPointer
  }

  /** Four quarter turns bring a defined direction back to itself. */
  lemma FourQuarterTurns(dp: DP)
    ensures Rotate(Rotate(Rotate(Rotate(dp, 1), 1), 1), 1) == dp
  {
    var half := Rotate(Rotate(dp, 1), 1);
    RotateCompose(dp, 1, 1);
    RotateCompose(half, 1, 1);
    RotateCompose(dp, 2, 2);
    RotateFullTurn(dp, 4);
  }

  /** A quarter turn clockwise is one step along right, down, left, top. */
  lemma RotateClockwise()
    ensures Rotate(Right, 1) == Down && Rotate(Down, 1) == Left
    ensures Rotate(Left, 1) == Top && Rotate(Top, 1) == Right
  {
  }

  /** Rotating back by the same amount restores the pointer. */
  lemma RotateInverse(dp: DP, k: Int64)
    requires k != MinInt64
    ensures Rotate(Rotate(dp, k), -k) == dp
  {
    var r := Rotate(dp, k);
    UndoModFour(dp as int, k, r as int);
  }

  /** Arithmetic behind `RotateInverse`, kept apart from `Rotate` itself. */
  lemma UndoModFour(x: int, k: int, r: int)
    requires 0 <= x < 4 && r == (x + k) % 4
    ensures (r + -k) % 4 == x
  {
    ModOfSum(x + k, -k, 4);
  }

  /** Two rotations make one by the (wrapped) sum of their amounts. */
  lemma RotateCompose(dp: DirectionPointer, a: Int64, b: Int64)
    ensures Rotate(Rotate(dp, a), b) == Rotate(dp, Wrap(a + b, Long))
  {
    var c := Wrap(a + b, Long);
    WrapKeepsLowBits(a + b, Long);
    SumModFour(dp as int, a, b, c);
  }

  /** Arithmetic behind `RotateCompose`, kept apart from `Rotate` itself. */
  lemma SumModFour(x: int, a: int, b: int, c: int)
    requires c % 4 == (a + b) % 4
    ensures ((x + a) % 4 + b) % 4 == (x + c) % 4
  {
    ModOfSum(x + a, b, 4);
    ModOfSum(c, x, 4);
    ModOfSum(a + b, x, 4);
  }

  /** Four quarter turns, or any multiple of four, change nothing. */
  lemma RotateFullTurn(dp: DP, k: Int64)
    requires k % 4 == 0
    ensures Rotate(dp, k) == dp
  {
    ModOfSum(k, dp as int, 4);
  }

  /** Turning a pointer down by a whole turn, as the unit tests do. */
  lemma RotateDownFullTurnExamples()
    ensures Rotate(Down, 4) == Down && Rotate(Down, -4) == Down
  {
  }

  /** Turning a pointer down by five quarters either way, as the unit tests do. */
  lemma RotateDownPastTurnExamples()
    ensures Rotate(Down, -5) == Right && Rotate(Down, 5) == Left
  {
  }

  /** Turning a pointer left by zero and three quarters, as the unit tests do. */
  lemma RotateLeftExamples()
    ensures Rotate(Left, 0) == Left && Rotate(Left, 3) == Down
  {
    assert Rotate(Left, 0) as int == 2 % 4;
    assert Rotate(Left, 3) as int == 5 % 4;
  }
}
