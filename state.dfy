// PietDotNet.State: the immutable interpreter state, the pointer, the stack
// and the colour block the pointer is in. Every operation returns a new
// state that differs from the old one in a single part.
module States {
  import opened Exceptions
  import opened CSharp
  import opened Codels
  import opened Pointers
  import opened Stacks
  import Colours
  import ColourBlocks
  import Programs
  import DirectionPointers
  import CodelChoosers

  /** The private constructor `State(pointer, stack, block)` and its three get-only properties. */
  datatype State = State(pointer: Pointer, stack: Stack, block: ColourBlocks.ColourBlock)

  /** `Colour`: the current block's colour, Black on `Border`. */
  function Colour(s: State): (c: Colours.Colour)
    ensures s.block.Border? ==> c == Colours.Black
    ensures s.block.Block? ==> c == s.block.colour
  {
    ColourBlocks.ColourOf(s.block)
  }

  /** `Value`: the current block's value widened to `long`. */
  function Value(s: State): (v: Int64)
    ensures s.block.Border? ==> v == 0
  {
    ColourBlocks.Value(s.block) as Int64
  }

  /** The value of a state whose block was built from a set of codels is the number of those codels. */
  lemma ValueCountsCodels(s: State, colour: Colours.Colour, members: set<Codel>)
    requires ColourBlocks.Describes(s.block, colour, members)
    ensures Value(s) as int == |members| && Colour(s) == colour
  {
  }

  /**
   * `State.Initial(program)`: the initial pointer, the empty stack and the
   * block selected at the default codel (0, 0). Selecting a block fills
   * cache cells of the program, never changes a filled one, and fails only
   * for a block of more than `int.MaxValue` codels.
   */
  method Initial(program: Programs.Program) returns (r: Result<State>)
    requires program.Valid()
    modifies program.rows
    ensures program.Valid()
    ensures r.Ok? ==> r.value.pointer == Pointers.Initial && r.value.stack == Empty
    ensures program.At(Codel(0, 0)) == Colours.Black ==> r == Ok(State(Pointers.Initial, Empty, ColourBlocks.Border))
    ensures program.At(Codel(0, 0)) != Colours.Black ==>
      (r.Ok? <==> |program.Component(Codel(0, 0))| <= MaxInt32) && (r.Err? ==> r.error == Overflow)
    ensures program.At(Codel(0, 0)) != Colours.Black && r.Ok? ==>
      ColourBlocks.Describes(r.value.block, program.At(Codel(0, 0)), program.Component(Codel(0, 0)))
    ensures forall c :: program.OnCanvas(c) && old(program.Cached(c)).Some? ==>
      program.Cached(c) == old(program.Cached(c))
  {
    var block := program.SelectBlock(Codel(0, 0));
    if block.Err? {
      return Err(block.error);
    }
    r := Ok(State(Pointers.Initial, Empty, block.value));
  }

  /** `SelectBlock(block)`: only the block changes. */
  function SelectBlock(s: State, block: ColourBlocks.ColourBlock): (r: State)
    ensures r.pointer == s.pointer && r.stack == s.stack && r.block == block
  {
    State(s.pointer, s.stack, block)
  }

  /** `With(pointer, stack)`: pointer and stack change, the block stays. */
  function WithPointerAndStack(s: State, pointer: Pointer, stack: Stack): (r: State)
    ensures r.pointer == pointer && r.stack == stack && r.block == s.block
  {
    State(pointer, stack, s.block)
  }

  /** `With(pointer)`: only the pointer changes. */
  function WithPointer(s: State, pointer: Pointer): (r: State)
    ensures r.pointer == pointer && r.stack == s.stack && r.block == s.block
  {
    State(pointer, s.stack, s.block)
  }

  /** `With(stack)`: only the stack changes. */
  function WithStack(s: State, stack: Stack): (r: State)
    ensures r.pointer == s.pointer && r.stack == stack && r.block == s.block
  {
    State(s.pointer, stack, s.block)
  }

  /** Setting pointer and stack at once is setting them one after the other, in either order. */
  lemma WithOverloadsAgree(s: State, pointer: Pointer, stack: Stack)
    ensures WithPointerAndStack(s, pointer, stack) == WithStack(WithPointer(s, pointer), stack)
    ensures WithPointerAndStack(s, pointer, stack) == WithPointer(WithStack(s, stack), pointer)
  {
  }

  /**
   * `PointerLeaves(block)`: the pointer leaves the given block past its
   * edge; stack and the state's own block stay. Leaving fails as
   * `ColourBlock.Leave` does (no edge table on `Border`, an undefined DP).
   */
  function PointerLeaves(s: State, block: ColourBlocks.ColourBlock): (r: Result<State>)
    ensures r.Ok? <==> ColourBlocks.Leave(block, s.pointer).Ok?
    ensures r.Err? ==> r.error == ColourBlocks.Leave(block, s.pointer).error
    ensures r.Ok? ==> r.value.stack == s.stack && r.value.block == s.block
    ensures r.Ok? ==> r.value.pointer.dp == s.pointer.dp && r.value.pointer.cc == s.pointer.cc
  {
    var pointer :- ColourBlocks.Leave(block, s.pointer);
    Ok(WithPointer(s, pointer))
  }

  /** Leaving a block built from codels inside the `int` range lands past all of them along DP. */
  lemma PointerLeavesBlock(s: State, colour: Colours.Colour, codels: seq<Codel>)
    requires 0 < |codels| <= MaxInt32 && Pointers.Defined(s.pointer)
    requires forall m :: m in codels ==> Interior(m)
    ensures PointerLeaves(s, ColourBlocks.New(colour, codels).value).Ok?
    ensures var q := PointerLeaves(s, ColourBlocks.New(colour, codels).value).value.pointer;
      q.position !in codels && forall m :: m in codels ==> Along(m, s.pointer.dp) < Along(q.position, s.pointer.dp)
  {
    var dp: DirectionPointers.DP := s.pointer.dp;
    var cc: CodelChoosers.CC := s.pointer.cc;
    var e := ColourBlocks.EdgeAt(ColourBlocks.New(colour, codels).value.edges, dp, cc);
    assert ColourBlocks.Furthest(ColourBlocks.Members(codels), e, dp, cc);
    ColourBlocks.LeaveExits(colour, codels, s.pointer);
  }

  /** `SingleStep`: the pointer moves one codel along DP; DP, CC, stack and block stay. */
  function SingleStep(s: State): (r: Result<State>)
    ensures r.Ok? <==> 0 <= s.pointer.dp < 4
    ensures r.Err? ==> r.error == ArgumentOutOfRange
    ensures r.Ok? ==> r.value.stack == s.stack && r.value.block == s.block
    ensures r.Ok? ==> r.value.pointer.position == Step(s.pointer.position, s.pointer.dp)
    ensures r.Ok? ==> r.value.pointer.dp == s.pointer.dp && r.value.pointer.cc == s.pointer.cc
  {
    var pointer :- Pointers.SingleStep(s.pointer);
    Ok(WithPointer(s, pointer))
  }

  /** `Rotate`: DP turns one quarter clockwise; everything else stays. */
  function Rotate(s: State): (r: State)
    ensures r.stack == s.stack && r.block == s.block
    ensures r.pointer.position == s.pointer.position && r.pointer.cc == s.pointer.cc
    ensures r.pointer.dp as int == (s.pointer.dp as int + 1) % 4
  {
    WithPointer(s, Pointers.Rotate(s.pointer, 1))
  }

  /** `Switch`: CC toggles once; everything else stays. */
  function Switch(s: State): (r: State)
    ensures r.stack == s.stack && r.block == s.block
    ensures r.pointer.position == s.pointer.position && r.pointer.dp == s.pointer.dp
    ensures r.pointer.cc as int == (s.pointer.cc as int + 1) % 2
  {
    WithPointer(s, Pointers.Switch(s.pointer, 1))
  }

  /** Two quarter turns make a half turn; everything but DP stays. */
  lemma HalfTurn(s: State)
    requires 0 <= s.pointer.dp < 4
    ensures var t := Rotate(Rotate(s));
      t.pointer.dp as int == (s.pointer.dp as int + 2) % 4 &&
      t.pointer.position == s.pointer.position && t.pointer.cc == s.pointer.cc &&
      t.stack == s.stack && t.block == s.block
  {
    var once := Rotate(s);
    var twice := Rotate(once);
    QuarterTurns(s.pointer.dp as int, once.pointer.dp as int, twice.pointer.dp as int);
  }

  /** Two quarter turns on a direction in 0..3 add two to it, modulo four. */
  lemma QuarterTurns(d0: int, d1: int, d2: int)
    requires 0 <= d0 < 4
    requires d1 == (d0 + 1) % 4 && d2 == (d1 + 1) % 4
    ensures d2 == (d0 + 2) % 4
  {
  }

  /** Four quarter turns give back a state whose DP is named. */
  lemma FourTurnsCancel(s: State)
    requires 0 <= s.pointer.dp < 4
    ensures Rotate(Rotate(Rotate(Rotate(s)))) == s
  {
    DirectionPointers.FourQuarterTurns(s.pointer.dp);
  }

  /** Two toggles give back a state whose CC is named. */
  lemma TwoSwitchesCancel(s: State)
    requires 0 <= s.pointer.cc < 2
    ensures Switch(Switch(s)) == s
  {
    var once := Switch(s);
    var twice := Switch(once);
    assert twice.pointer == s.pointer;
  }

  /** A step, a half turn and another step bring the pointer back to where it was, facing the other way. */
  lemma StepTurnStep(s: State)
    requires 0 <= s.pointer.dp < 4
    ensures SingleStep(s).Ok? && SingleStep(Rotate(Rotate(SingleStep(s).value))).Ok?
    ensures SingleStep(Rotate(Rotate(SingleStep(s).value))).value.pointer.position == s.pointer.position
    ensures SingleStep(Rotate(Rotate(SingleStep(s).value))).value.stack == s.stack
  {
    var dp: DirectionPointers.DP := s.pointer.dp;
    var there := SingleStep(s).value;
    HalfTurn(there);
    var back: DirectionPointers.DP := Rotate(Rotate(there)).pointer.dp;
    StepBackTo(s.pointer.position, dp, back);
  }
}
