// PietDotNet.CodelChooser: the enum of the two chooser values and its
// Toggle and Switch extensions.
module CodelChoosers {
  import opened CSharp

  /** The C# enum: an `int` of which 0 (left) and 1 (right) are named. */
  newtype CodelChooser = x: int | -0x8000_0000 <= x <= 0x7FFF_FFFF

  const Left: CodelChooser := 0
  const Right: CodelChooser := 1

  /** The defined values of the enum. */
  type CC = cc: CodelChooser | 0 <= cc < 2

  /**
   * `cc.Switch(switch)`: bit 0 of the unchecked `long` sum picks the side.
   * An even sum gives left and an odd one right.
   */
  function Switch(cc: CodelChooser, switch: Int64): (r: CC)
    ensures r == if (cc as int + switch) % 2 == 0 then Left else Right
  {
    var value := Wrap(cc as int + switch, Long);
    WrapKeepsLowBits(cc as int + switch, Long);
    UnsignedKeepsLowBits(value, Long);
    if Unsigned(value, Long) % 2 == 0 then Left else Right
  }

  /** `cc.Toggle()`: the other side. */
  function Toggle(cc: CC): (r: CC)
    ensures r != cc
  {
    Switch(cc, 1)
  }

  /** Toggling twice gives the chooser back. */
  lemma ToggleInvolution(cc: CC)
    ensures Toggle(Toggle(cc)) == cc
  {
  }

  /** Two switches make one by the (wrapped) sum of their amounts. */
  lemma SwitchCompose(cc: CodelChooser, a: Int64, b: Int64)
    ensures Switch(Switch(cc, a), b) == Switch(cc, Wrap(a + b, Long))
  {
    var c := Wrap(a + b, Long);
    var first := Switch(cc, a);
    assert first as int == (cc as int + a) % 2;
    ModOfSum(cc as int + a, b, 2);
    WrapKeepsLowBits(a + b, Long);
    ModOfSum(c, cc as int, 2);
    ModOfSum(a + b, cc as int, 2);
  }

  /** Switching by an even amount keeps a defined chooser. */
  lemma SwitchEven(cc: CC, k: Int64)
    requires k % 2 == 0
    ensures Switch(cc, k) == cc
  {
    ModOfSum(k, cc as int, 2);
  }

  /** The values the unit tests pin down. */
  lemma SwitchExamples()
    ensures Switch(Left, 3) == Right && Switch(Left, 4) == Left
    ensures Switch(Right, 3) == Left && Switch(Right, 4) == Right
  {
  }
}
