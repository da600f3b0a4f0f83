// PietDotNet.Interpreter (the older run loop): it moves the pointer from
// colour block to colour block, retries up to eight times when black codels
// or the edge stop it, and runs the command the colour change names, until
// the command budget is spent or no way out is left. The mutable State it
// drives is not part of this model: a World answers, for a block and a
// pointer, where leaving the block ends up.
module Interpreters {
  import opened Exceptions
  import opened CSharp
  import Colours
  import Deltas
  import DirectionPointers
  import CodelChoosers
  import Stacks
  import StackCommands
  import ModExtensions
  import InOuts

  type DP = DirectionPointers.DP
  type CC = CodelChoosers.CC

  /** The colour of a block the pointer can stand in. */
  type Hued = c: Colours.Colour | c.Hued? witness Colours.Red

  /** Where an attempt to leave a block ends: in another block, on black or the edge, or on white. */
  datatype Exit = Enters(block: nat) | Blocked | Slides

  /**
   * The program as the run loop sees it: the colour and the number of codels
   * of each block, and where leaving a block along a DP and CC ends.
   */
  datatype World = World(colour: nat -> Hued, size: nat -> Int64, exit: (nat, DP, CC) -> Exit)

  /** The eighteen private command methods the dictionary dispatches to. */
  datatype Action =
    | None | Push | Pop | Add | Subtract | Multiply | Divide | Mod | Not
    | Greater | Pointer | Switch | Duplicate | Roll | InInt | InChr | OutInt | OutChr

  /** `commands`: the dictionary from the delta of the last two blocks to the method that runs it. */
  const Table: map<Deltas.Delta, Action> := map[
    Deltas.None := Action.None, Deltas.Push := Action.Push, Deltas.Pop := Action.Pop,
    Deltas.Add := Action.Add, Deltas.Subtract := Action.Subtract, Deltas.Multiply := Action.Multiply,
    Deltas.Divide := Action.Divide, Deltas.Mod := Action.Mod, Deltas.Not := Action.Not,
    Deltas.Greater := Action.Greater, Deltas.Pointer := Action.Pointer, Deltas.Switch := Action.Switch,
    Deltas.Duplicate := Action.Duplicate, Deltas.Roll := Action.Roll, Deltas.InInt := Action.InInt,
    Deltas.InChr := Action.InChr, Deltas.OutInt := Action.OutInt, Deltas.OutChr := Action.OutChr]

  /** `commands.TryGetValue(delta, ...)`, or the InvalidOperationException `Execute` throws. */
  function Lookup(delta: Deltas.Delta): (r: Result<Action>)
    ensures r.Ok? <==> delta in Table
    ensures r.Ok? ==> r.value == Table[delta]
    ensures r.Err? ==> r.error == InvalidOperation
  {
    if delta in Table then Ok(Table[delta]) else Err(InvalidOperation)
  }

  /** The table has an entry for every delta: `Execute` never throws for want of one. */
  lemma TableCoversEveryDelta(delta: Deltas.Delta)
    ensures Lookup(delta).Ok?
  {
    Deltas.ConstantsCoverAllValues(delta);
  }

  /** The table sends each named delta to the method of the same name, and no two deltas to one method. */
  lemma TableIsOneToOne(d: Deltas.Delta, e: Deltas.Delta)
    requires d in Table && e in Table && Table[d] == Table[e]
    ensures d == e
  {
  }

  /** `state.Delta`: the change of hue and of lightness from the block left to the block entered. */
  function Delta(world: World, from: nat, to: nat): (d: Deltas.Delta)
    ensures d.hue == (world.colour(to).hue - world.colour(from).hue) % 6
    ensures d.lightness == (world.colour(to).lightness - world.colour(from).lightness) % 3
  {
    Deltas.New(world.colour(to).hue - world.colour(from).hue, world.colour(to).lightness - world.colour(from).lightness)
  }

  /** Staying in one block is no command. */
  lemma SameBlockIsNone(world: World, block: nat)
    ensures Delta(world, block, block) == Deltas.None
    ensures Lookup(Delta(world, block, block)) == Ok(Action.None)
  {
  }

  // ----- The commands -----

  /** What a command sees and changes: the stack (top first), DP, CC and the input and output. */
  datatype Machine = Machine(stack: seq<Int64>, dp: DP, cc: CC,
                             ints: seq<Option<Int64>>, chars: seq<Option<Char16>>, written: seq<InOuts.Output>)

  /** The number of items a command pops; with fewer on the stack it is logged and skipped. */
  function Operands(action: Action): nat
  {
    match action
    case Pop | Not | Pointer | Switch | Duplicate | OutInt | OutChr => 1
    case Add | Subtract | Multiply | Divide | Mod | Greater | Roll => 2
    case None | Push | InInt | InChr => 0
  }

  /** The stack commands' guards: too few items, a zero divisor, a divisor below one, a depth out of range. */
  predicate Skipped(action: Action, stack: seq<Int64>)
  {
    |stack| < Operands(action) ||
    (action == Divide && stack[0] == 0) ||
    (action == Mod && stack[0] < 1) ||
    (action == Roll && (stack[1] < 0 || stack[1] > |stack| - 2))
  }

  /**
   * `stack.Roll((int)roll, depth)`: the top `depth` items rolled `roll`
   * times, each roll burying the top item `depth` deep; the number of rolls
   * is first truncated to `int`.
   */
  function Rolled(items: seq<Int64>, depth: nat, roll: Int64): (r: seq<Int64>)
    requires depth <= |items|
    ensures |r| == |items| && r[depth..] == items[depth..]
  {
    if depth == 0 then items else StackCommands.Rotated(items, depth, Wrap(roll, Int))
  }

  /**
   * What running `action` does; `value` is the number of codels of the block
   * just left. A command whose guard fails leaves everything as it was; the
   * only exception is the OverflowException of long.MinValue / -1.
   */
  function Effect(action: Action, value: Int64, m: Machine): (r: Result<Machine>)
    ensures r.Err? <==> action == Divide && |m.stack| >= 2 && m.stack[0] == -1 && m.stack[1] == MinInt64
    ensures r.Err? ==> r.error == Overflow
    ensures r.Ok? && action !in {InInt, InChr, OutInt, OutChr} ==>
      r.value.ints == m.ints && r.value.chars == m.chars && r.value.written == m.written
  {
    var s := m.stack;
    if Skipped(action, s) then Ok(m)
    else
      match action
      case None => Ok(m)
      case Push => Ok(m.(stack := [value] + s))
      case Pop => Ok(m.(stack := s[1..]))
      case Add => Ok(m.(stack := [Wrap(s[1] as int + s[0], Long)] + s[2..]))
      case Subtract => Ok(m.(stack := [Wrap(s[1] as int - s[0], Long)] + s[2..]))
      case Multiply => Ok(m.(stack := [Wrap(s[1] as int * s[0], Long)] + s[2..]))
      case Divide =>
        var quotient :- Div(s[1], s[0], Long);
        Ok(m.(stack := [quotient] + s[2..]))
      case Mod => Ok(m.(stack := [ModExtensions.Mod(s[1], s[0], Long).value] + s[2..]))
      case Not => Ok(m.(stack := [if s[0] == 0 then 1 else 0] + s[1..]))
      case Greater => Ok(m.(stack := [if s[1] > s[0] then 1 else 0] + s[2..]))
      case Pointer => Ok(m.(stack := s[1..], dp := DirectionPointers.Rotate(m.dp, s[0])))
      case Switch => Ok(m.(stack := s[1..], cc := CodelChoosers.Switch(m.cc, s[0])))
      case Duplicate => Ok(m.(stack := [s[0]] + s))
      case Roll => Ok(m.(stack := Rolled(s[2..], s[1], s[0])))
      case InInt =>
        var input := InOuts.Head(m.ints);
        var read := m.(ints := InOuts.Tail(m.ints));
        if input.None? then Ok(read) else Ok(read.(stack := [input.value] + s))
      case InChr =>
        var input := InOuts.Head(m.chars);
        var read := m.(chars := InOuts.Tail(m.chars));
        if input.None? then Ok(read) else Ok(read.(stack := [input.value as Int64] + s))
      case OutInt => Ok(m.(stack := s[1..], written := m.written + [InOuts.Number(s[0])]))
      case OutChr => Ok(m.(stack := s[1..], written := m.written + [InOuts.Character(s[0] % 0x1_0000)]))
  }

  /**
   * A command other than reading input leaves the machine exactly as it was
   * if and only if its guard fails (or it is `None`); reading input always
   * consumes an answer.
   */
  lemma UnchangedExactlyWhenSkipped(action: Action, value: Int64, m: Machine)
    requires action !in {InInt, InChr}
    ensures Effect(action, value, m) == Ok(m) <==> Skipped(action, m.stack) || action == Action.None
  {
    if !Skipped(action, m.stack) && action != Action.None && Effect(action, value, m).Ok? {
      var n := Effect(action, value, m).value;
      if action in {Push, Duplicate} {
        assert |n.stack| == |m.stack| + 1;
      } else if action in {Pop, Not, Pointer, Switch, OutInt, OutChr} {
        assert |n.stack| == |m.stack| - (if action == Not then 0 else 1);
        if action == Not {
          assert n.stack[0] != m.stack[0];
        }
      } else {
        assert |n.stack| == |m.stack| - (if action == Roll then 2 else 1);
      }
    }
  }

  /** A read that gets no value pushes nothing; it still takes the answer off the queue. */
  lemma NoInputPushesNothing(value: Int64, m: Machine)
    ensures InOuts.Head(m.ints).None? ==>
      Effect(InInt, value, m) == Ok(m.(ints := InOuts.Tail(m.ints)))
    ensures InOuts.Head(m.chars).None? ==>
      Effect(InChr, value, m) == Ok(m.(chars := InOuts.Tail(m.chars)))
    ensures InOuts.Head(m.ints).Some? ==>
      Effect(InInt, value, m).value.stack == [InOuts.Head(m.ints).value] + m.stack
  {
  }

  /** The function of the same name over the immutable stack. */
  function Counterpart(action: Action, stack: Stacks.Stack): Result<Stacks.Stack>
  {
    match action
    case Pop => Stacks.Pop(stack)
    case Add => StackCommands.Add(stack)
    case Subtract => StackCommands.Subtract(stack)
    case Multiply => StackCommands.Multiply(stack)
    case Divide => StackCommands.Divide(stack)
    case Mod => StackCommands.Modulo(stack)
    case Not => StackCommands.Not(stack)
    case Greater => StackCommands.Greater(stack)
    case Duplicate => StackCommands.Duplicate(stack)
    case _ => Err(NotSupportedDelta)
  }

  /**
   * Where the older interpreter does not skip `Pop`, `Not`, `Greater` or
   * `Duplicate`, it computes what the immutable stack's `StackCommands`
   * compute.
   */
  lemma LogicAgreesWithStackCommands(action: Action, value: Int64, m: Machine)
    requires action in {Pop, Not, Greater, Duplicate}
    requires !Skipped(action, m.stack)
    ensures var r := Counterpart(action, Stacks.FromItems(m.stack));
      r.Ok? && Stacks.Items(r.value) == Effect(action, value, m).value.stack
  {
  }

  /** The same for addition, which wraps around as `unchecked` `long` does. */
  lemma AddAgreesWithStackCommands(value: Int64, m: Machine)
    requires !Skipped(Add, m.stack)
    ensures var r := Counterpart(Add, Stacks.FromItems(m.stack));
      r.Ok? && Stacks.Items(r.value) == Effect(Add, value, m).value.stack
  {
    var s := m.stack;
    var stack := Stacks.FromItems(s);
    assert Stacks.Items(stack) == s && Stacks.Count(stack) >= 2;
    assert Effect(Add, value, m).value.stack == [Wrap(s[1] as int + s[0], Long)] + s[2..];
  }

  /** The same for subtraction. */
  lemma SubtractAgreesWithStackCommands(value: Int64, m: Machine)
    requires !Skipped(Subtract, m.stack)
    ensures var r := Counterpart(Subtract, Stacks.FromItems(m.stack));
      r.Ok? && Stacks.Items(r.value) == Effect(Subtract, value, m).value.stack
  {
    var s := m.stack;
    var stack := Stacks.FromItems(s);
    assert Stacks.Items(stack) == s && Stacks.Count(stack) >= 2;
    assert Effect(Subtract, value, m).value.stack == [Wrap(s[1] as int - s[0], Long)] + s[2..];
  }

  /** The same for multiplication. */
  lemma MultiplyAgreesWithStackCommands(value: Int64, m: Machine)
    requires !Skipped(Multiply, m.stack)
    ensures var r := Counterpart(Multiply, Stacks.FromItems(m.stack));
      r.Ok? && Stacks.Items(r.value) == Effect(Multiply, value, m).value.stack
  {
    var s := m.stack;
    var stack := Stacks.FromItems(s);
    assert Stacks.Items(stack) == s && Stacks.Count(stack) >= 2;
    assert Effect(Multiply, value, m).value.stack == [Wrap(s[1] as int * s[0], Long)] + s[2..];
  }

  /** Division agrees too, where the older interpreter neither skips it nor overflows. */
  lemma DivideAgreesWithStackCommands(value: Int64, m: Machine)
    requires !Skipped(Divide, m.stack) && Effect(Divide, value, m).Ok?
    ensures var r := Counterpart(Divide, Stacks.FromItems(m.stack));
      r.Ok? && Stacks.Items(r.value) == Effect(Divide, value, m).value.stack
  {
  }

  /** And so does the modulo, for the positive divisors the older interpreter lets through. */
  lemma ModAgreesWithStackCommands(value: Int64, m: Machine)
    requires !Skipped(Mod, m.stack)
    ensures var r := Counterpart(Mod, Stacks.FromItems(m.stack));
      r.Ok? && Stacks.Items(r.value) == Effect(Mod, value, m).value.stack
  {
    var s := m.stack;
    ModExtensions.ModIsModulo(s[1], s[0], Long);
    var r := StackCommands.Modulo(Stacks.FromItems(s)).value;
    assert Stacks.Items(r)[1..] == s[2..];
    assert Stacks.Items(r) == [Stacks.Items(r)[0]] + Stacks.Items(r)[1..];
  }

  /** With a roll count that fits in an `int`, the older `Roll` rolls as `StackCommands.Roll` does. */
  lemma RollAgreesWithStackCommands(value: Int64, m: Machine)
    requires !Skipped(Roll, m.stack) && Fits(m.stack[0], Int)
    ensures StackCommands.RollItems(m.stack) == Ok(Effect(Roll, value, m).value.stack)
  {
  }

  // ----- Leaving a block past black codels -----

  /** The DP after `i` failed attempts: every second attempt turns it a quarter clockwise. */
  function AttemptDP(dp: DP, i: nat): DP
    requires i <= 8
  {
    DirectionPointers.Rotate(dp, i / 2)
  }

  /** The CC after `i` failed attempts: the first and every second attempt after it toggles it. */
  function AttemptCC(cc: CC, i: nat): CC
    requires i <= 8
  {
    CodelChoosers.Switch(cc, (i + 1) / 2)
  }

  /** One retry of `OnBlack(retryCount)`: toggle CC on an even count, rotate DP on an odd one. */
  function Turn(dp: DP, cc: CC, retryCount: nat): (DP, CC)
  {
    if retryCount % 2 == 0 then (dp, CodelChoosers.Toggle(cc)) else (DirectionPointers.Rotate(dp, 1), cc)
  }

  /** Counting down from eight, retry `j + 1` turns attempt `j` into attempt `j + 1`. */
  lemma AttemptStep(dp: DP, cc: CC, j: nat)
    requires j < 8
    ensures (AttemptDP(dp, j + 1), AttemptCC(cc, j + 1)) == Turn(AttemptDP(dp, j), AttemptCC(cc, j), 8 - j)
  {
    if j % 2 == 0 {
      assert (8 - j) % 2 == 0;
      assert (j + 1) / 2 == j / 2 && (j + 2) / 2 == (j + 1) / 2 + 1;
      CodelChoosers.SwitchCompose(cc, (j + 1) / 2, 1);
    } else {
      assert (8 - j) % 2 == 1;
      assert (j + 1) / 2 == j / 2 + 1 && (j + 2) / 2 == (j + 1) / 2;
      DirectionPointers.RotateCompose(dp, j / 2, 1);
    }
  }

  /** Before any retry DP and CC are as they were; the first retry toggles CC, the second rotates DP; after all eight they are back. */
  lemma AttemptsComeBack(dp: DP, cc: CC)
    ensures AttemptDP(dp, 0) == dp && AttemptCC(cc, 0) == cc
    ensures AttemptDP(dp, 1) == dp && AttemptCC(cc, 1) == CodelChoosers.Toggle(cc)
    ensures AttemptDP(dp, 2) == DirectionPointers.Rotate(dp, 1) && AttemptCC(cc, 2) == CodelChoosers.Toggle(cc)
    ensures AttemptDP(dp, 8) == dp && AttemptCC(cc, 8) == cc
  {
    CodelChoosers.SwitchEven(cc, 0);
    CodelChoosers.SwitchEven(cc, 4);
    DirectionPointers.RotateFullTurn(dp, 0);
    DirectionPointers.RotateFullTurn(dp, 4);
  }

  /** How `OnBlack` ends: in another block, boxed in after all attempts, or on white. */
  datatype Escape = Escaped(block: nat, dp: DP, cc: CC) | Stuck(dp: DP, cc: CC) | Sliding

  /**
   * `OnBlack(retryCount)`: on an even count toggle CC, on an odd one rotate
   * DP, count down and try to leave again; black again starts over with the
   * smaller count, and a count of 0 gives up.
   */
  function Retry(world: World, block: nat, dp: DP, cc: CC, retryCount: nat): Escape
    decreases retryCount
  {
    if retryCount == 0 then Stuck(dp, cc)
    else
      var (d, c) := Turn(dp, cc, retryCount);
      match world.exit(block, d, c)
      case Blocked => Retry(world, block, d, c, retryCount - 1)
      case Slides => Sliding
      case Enters(next) => Escaped(next, d, c)
  }

  /**
   * Along any chain of pointers in which each follows from the one before
   * by one retry, the retries from position `j` give up exactly when every
   * later pointer is blocked, and then they end on the last one.
   */
  lemma {:induction false} RetryAlong(world: World, block: nat, chain: seq<(DP, CC)>, j: nat)
    requires |chain| == 9 && j <= 8
    requires forall k :: j <= k < 8 ==> chain[k + 1] == Turn(chain[k].0, chain[k].1, 8 - k)
    ensures var e := Retry(world, block, chain[j].0, chain[j].1, 8 - j);
      e.Stuck? <==> forall i :: j < i <= 8 ==> world.exit(block, chain[i].0, chain[i].1) == Blocked
    ensures var e := Retry(world, block, chain[j].0, chain[j].1, 8 - j);
      e.Stuck? ==> e == Stuck(chain[8].0, chain[8].1)
    decreases 8 - j
  {
    if j < 8 {
      RetryAlong(world, block, chain, j + 1);
    }
  }

  /** The pointers of the eight attempts, in the order `OnBlack` tries them. */
  function Attempts(dp: DP, cc: CC): (chain: seq<(DP, CC)>)
    ensures |chain| == 9
  {
    seq(9, i requires 0 <= i < 9 => (AttemptDP(dp, i), AttemptCC(cc, i)))
  }

  /** Reading one attempt off the chain. */
  lemma AttemptAt(dp: DP, cc: CC, chain: seq<(DP, CC)>, i: nat)
    requires chain == Attempts(dp, cc) && i < 9
    ensures chain[i].0 == AttemptDP(dp, i) && chain[i].1 == AttemptCC(cc, i)
  {
  }

  /**
   * `OnBlack()` returns false exactly when all eight attempts are blocked,
   * and then DP and CC are as they were before the first retry.
   */
  lemma BoxedIn(world: World, block: nat, dp: DP, cc: CC)
    ensures Retry(world, block, dp, cc, 8).Stuck? <==>
      forall i :: 0 < i <= 8 ==> world.exit(block, AttemptDP(dp, i), AttemptCC(cc, i)) == Blocked
    ensures Retry(world, block, dp, cc, 8).Stuck? ==> Retry(world, block, dp, cc, 8) == Stuck(dp, cc)
  {
    var chain := Attempts(dp, cc);
    forall k | 0 <= k < 8
      ensures chain[k + 1] == Turn(chain[k].0, chain[k].1, 8 - k)
    {
      AttemptStep(dp, cc, k);
    }
    RetryAlong(world, block, chain, 0);
    AttemptsComeBack(dp, cc);
    assert chain[0] == (dp, cc) && chain[8] == (dp, cc);
    if Retry(world, block, dp, cc, 8).Stuck? {
      forall i | 0 < i <= 8
        ensures world.exit(block, AttemptDP(dp, i), AttemptCC(cc, i)) == Blocked
      {
        AttemptAt(dp, cc, chain, i);
      }
    } else {
      var i :| 0 < i <= 8 && world.exit(block, chain[i].0, chain[i].1) != Blocked;
      AttemptAt(dp, cc, chain, i);
    }
  }

  /** `Traverse`: leave the block; on black retry, on white give up (sliding is not implemented). */
  function Traversal(world: World, block: nat, dp: DP, cc: CC): Escape
  {
    match world.exit(block, dp, cc)
    case Enters(next) => Escaped(next, dp, cc)
    case Slides => Sliding
    case Blocked => Retry(world, block, dp, cc, 8)
  }

  /** What `Execute` does: the command of the last delta, or the exception. */
  function Next(world: World, previous: nat, current: nat, m: Machine): Result<Machine>
  {
    var action :- Lookup(Delta(world, previous, current));
    Effect(action, world.size(previous), m)
  }

  /** Executing in the block the pointer already stood in changes nothing. */
  lemma NextInSameBlock(world: World, block: nat, m: Machine)
    ensures Next(world, block, block, m) == Ok(m)
  {
    SameBlockIsNone(world, block);
  }

  // ----- The interpreter -----

  class Interpreter {
    const world: World
    const io: InOuts.InOut
    const MaxCommands: Int64
    var stack: seq<Int64>
    var dp: DP
    var cc: CC
    var previous: nat
    var current: nat
    var executing: bool
    var Commands: Int64

    /** `Interpreter(program, io, logger, maxCommands)`: an empty stack in the first block, DP right, CC left. */
    constructor (world: World, start: nat, io: InOuts.InOut, maxCommands: Int64)
      ensures this.world == world && this.io == io && MaxCommands == maxCommands
      ensures stack == [] && dp == DirectionPointers.Right && cc == CodelChoosers.Left
      ensures previous == start && current == start && executing && Commands == 0
    {
      this.world := world;
      this.io := io;
      MaxCommands := maxCommands;
      stack := [];
      dp := DirectionPointers.Right;
      cc := CodelChoosers.Left;
      previous := start;
      current := start;
      executing := true;
      Commands := 0;
    }

    /** What the commands see and change. */
    function Snapshot(): Machine
      reads this, io
    {
      Machine(stack, dp, cc, io.ints, io.chars, io.written)
    }

    /** `state.Value`: the number of codels of the block just left. */
    function Value(): Int64
      reads this
    {
      world.size(previous)
    }

    /** `Run()`: traverse and execute while executing. */
    method Run() returns (r: Result<()>)
      requires executing && Commands == 0 && previous == current
      modifies this, io
      ensures r.Ok? ==> !executing && 1 <= Commands && (Commands <= MaxCommands || Commands == 1)
      ensures r.Ok? ==> Commands >= MaxCommands || Traversal(world, current, dp, cc).Stuck?
    {
      while executing
        invariant previous == current && 0 <= Commands
        invariant executing ==> Commands < MaxCommands || Commands == 0
        invariant Commands <= MaxCommands || Commands <= 1
        invariant !executing ==> 1 <= Commands
        invariant !executing ==> Commands >= MaxCommands || Traversal(world, current, dp, cc).Stuck?
        decreases executing, MaxCommands - Commands
      {
        ghost var before, dp0, cc0 := Traversal(world, current, dp, cc), dp, cc;
        var traversed :- Traverse();
        if before.Stuck? {
          BoxedIn(world, current, dp0, cc0);
          assert Traversal(world, current, dp, cc) == before;
        }
        NextInSameBlock(world, current, Snapshot());
        var executed :- Execute();
      }
      return Ok(());
    }

    /** `Traverse()`: into the next block, through `OnBlack` when black or the edge is in the way. */
    method Traverse() returns (r: Result<()>)
      modifies this`current, this`dp, this`cc, this`executing
      ensures var t := Traversal(world, old(current), old(dp), old(cc));
        (r.Err? <==> t.Sliding?) && (r.Err? ==> r.error == NotImplemented)
      ensures var t := Traversal(world, old(current), old(dp), old(cc));
        t.Escaped? ==> current == t.block && dp == t.dp && cc == t.cc &&
                       executing == (old(executing) || world.exit(old(current), old(dp), old(cc)).Blocked?)
      ensures var t := Traversal(world, old(current), old(dp), old(cc));
        t.Stuck? ==> current == old(current) && dp == t.dp && cc == t.cc && !executing
    {
      var exit := world.exit(current, dp, cc);
      if exit.Slides? {
        return Err(NotImplemented);
      }
      if exit.Blocked? {
        var escaped :- OnBlack();
        executing := escaped;
        return Ok(());
      }
      assert Traversal(world, current, dp, cc) == Escaped(exit.block, dp, cc);
      current := exit.block;
      return Ok(());
    }

    /** `OnBlack()`: eight attempts to leave, alternately toggling CC and rotating DP. */
    method OnBlack() returns (r: Result<bool>)
      modifies this`current, this`dp, this`cc
      ensures var e := Retry(world, old(current), old(dp), old(cc), 8);
        (r.Err? <==> e.Sliding?) && (r.Err? ==> r.error == NotImplemented) && (r == Ok(true) <==> e.Escaped?)
      ensures var e := Retry(world, old(current), old(dp), old(cc), 8);
        e.Escaped? ==> current == e.block && dp == e.dp && cc == e.cc
      ensures var e := Retry(world, old(current), old(dp), old(cc), 8);
        e.Stuck? ==> current == old(current) && dp == e.dp && cc == e.cc
    {
      var retryCount := 8;
      while retryCount > 0
        invariant 0 <= retryCount <= 8 && current == old(current)
        invariant Retry(world, current, dp, cc, retryCount) == Retry(world, old(current), old(dp), old(cc), 8)
      {
        // `(retryCount & 1) == 0` on a non-negative count
        if retryCount % 2 == 0 {
          cc := CodelChoosers.Toggle(cc);
        } else {
          dp := DirectionPointers.Rotate(dp, 1);
        }
        retryCount := retryCount - 1;
        var exit := world.exit(current, dp, cc);
        if exit.Slides? {
          return Err(NotImplemented);
        }
        if exit.Enters? {
          current := exit.block;
          return Ok(true);
        }
      }
      return Ok(false);
    }

    /** `Execute()`: run the command of the delta, then count it against the budget. */
    method Execute() returns (r: Result<()>)
      requires Commands < MaxCommands || Commands == 0
      modifies this, io
      ensures var next := Next(world, old(previous), old(current), old(Snapshot()));
        (r.Ok? <==> next.Ok?) && (r.Err? ==> r.error == next.error)
      ensures r.Ok? ==> Snapshot() == Next(world, old(previous), old(current), old(Snapshot())).value
      ensures r.Ok? ==> previous == old(current) && current == old(current)
      ensures r.Ok? ==> Commands == old(Commands) + 1 && executing == (old(executing) && Commands < MaxCommands)
    {
      var action :- Lookup(Delta(world, previous, current));
      var invoked :- Invoke(action);
      previous := current;
      Commands := Commands + 1;
      if Commands >= MaxCommands {
        executing := false;
      }
      r := Ok(());
    }

    /** `command.Invoke(this)`: the method the dictionary names. */
    method Invoke(action: Action) returns (r: Result<()>)
      modifies this`stack, this`dp, this`cc, io
      ensures var next := Effect(action, old(Value()), old(Snapshot()));
        (r.Ok? <==> next.Ok?) && (r.Err? ==> r.error == next.error) && (r.Ok? ==> Snapshot() == next.value)
    {
      r := Ok(());
      match action {
        case None => NoCommand();
        case Push => Push();
        case Pop => Pop();
        case Add => Add();
        case Subtract => Subtract();
        case Multiply => Multiply();
        case Divide => r := Divide();
        case Mod => Mod();
        case Not => Not();
        case Greater => Greater();
        case Pointer => Pointer();
        case Switch => Switch();
        case Duplicate => Duplicate();
        case Roll => Roll();
        case InInt => InInt();
        case InChr => InChr();
        case OutInt => OutInt();
        case OutChr => OutChr();
      }
    }

    /** `None()`: does nothing. */
    method NoCommand()
      ensures Snapshot() == Effect(Action.None, Value(), Snapshot()).value
    {
    }

    /** `Push()`: pushes the value of the block just left. */
    method Push()
      modifies this`stack
      ensures Snapshot() == Effect(Action.Push, old(Value()), old(Snapshot())).value
    {
      stack := [Value()] + stack;
    }

    /** `Pop()`: discards the top. */
    method Pop()
      modifies this`stack
      ensures Snapshot() == Effect(Action.Pop, old(Value()), old(Snapshot())).value
    {
      if |stack| < 1 {
        return;
      }
      stack := stack[1..];
    }

    /** `Add()`: second plus top, in unchecked `long`. */
    method Add()
      modifies this`stack
      ensures Snapshot() == Effect(Action.Add, old(Value()), old(Snapshot())).value
    {
      if |stack| < 2 {
        return;
      }
      var first, second := stack[0], stack[1];
      stack := [Wrap(second as int + first, Long)] + stack[2..];
    }

    /** `Subtract()`: second minus top, in unchecked `long`. */
    method Subtract()
      modifies this`stack
      ensures Snapshot() == Effect(Action.Subtract, old(Value()), old(Snapshot())).value
    {
      if |stack| < 2 {
        return;
      }
      var first, second := stack[0], stack[1];
      stack := [Wrap(second as int - first, Long)] + stack[2..];
    }

    /** `Multiply()`: second times top, in unchecked `long`. */
    method Multiply()
      modifies this`stack
      ensures Snapshot() == Effect(Action.Multiply, old(Value()), old(Snapshot())).value
    {
      if |stack| < 2 {
        return;
      }
      var first, second := stack[0], stack[1];
      stack := [Wrap(second as int * first, Long)] + stack[2..];
    }

    /** `Divide()`: second divided by top, truncated; a zero top is logged and skipped. */
    method Divide() returns (r: Result<()>)
      modifies this`stack
      ensures var next := Effect(Action.Divide, old(Value()), old(Snapshot()));
        (r.Ok? <==> next.Ok?) && (r.Err? ==> r.error == next.error) && (r.Ok? ==> Snapshot() == next.value)
    {
      if |stack| < 2 || stack[0] == 0 {
        return Ok(());
      }
      var numerator, denumerator := stack[0], stack[1];
      var result :- Div(denumerator, numerator, Long);
      stack := [result] + stack[2..];
      return Ok(());
    }

    /** `Mod()`: second modulo top; a top below one is logged and skipped. */
    method Mod()
      modifies this`stack
      ensures Snapshot() == Effect(Action.Mod, old(Value()), old(Snapshot())).value
    {
      if |stack| < 2 || stack[0] < 1 {
        return;
      }
      var first, second := stack[0], stack[1];
      stack := [ModExtensions.Mod(second, first, Long).value] + stack[2..];
    }

    /** `Not()`: 1 for a zero top, 0 otherwise. */
    method Not()
      modifies this`stack
      ensures Snapshot() == Effect(Action.Not, old(Value()), old(Snapshot())).value
    {
      if |stack| < 1 {
        return;
      }
      var value := stack[0];
      stack := [if value == 0 then 1 else 0] + stack[1..];
    }

    /** `Greater()`: 1 when second is greater than top, 0 otherwise. */
    method Greater()
      modifies this`stack
      ensures Snapshot() == Effect(Action.Greater, old(Value()), old(Snapshot())).value
    {
      if |stack| < 2 {
        return;
      }
      var first, second := stack[0], stack[1];
      stack := [if second > first then 1 else 0] + stack[2..];
    }

    /** `Pointer()`: pops the top and rotates DP that many quarter turns. */
    method Pointer()
      modifies this`stack, this`dp
      ensures Snapshot() == Effect(Action.Pointer, old(Value()), old(Snapshot())).value
    {
      if |stack| < 1 {
        return;
      }
      var value := stack[0];
      stack := stack[1..];
      dp := DirectionPointers.Rotate(dp, value);
    }

    /** `Switch()`: pops the top and toggles CC that many times. */
    method Switch()
      modifies this`stack, this`cc
      ensures Snapshot() == Effect(Action.Switch, old(Value()), old(Snapshot())).value
    {
      if |stack| < 1 {
        return;
      }
      var value := stack[0];
      stack := stack[1..];
      cc := CodelChoosers.Switch(cc, value);
    }

    /** `Duplicate()`: pushes a copy of the top. */
    method Duplicate()
      modifies this`stack
      ensures Snapshot() == Effect(Action.Duplicate, old(Value()), old(Snapshot())).value
    {
      if |stack| < 1 {
        return;
      }
      var value := stack[0];
      stack := [value] + stack;
    }

    /** `Roll()`: pops the number of rolls and the depth and rolls the items below; a bad depth is skipped. */
    method Roll()
      modifies this`stack
      ensures Snapshot() == Effect(Action.Roll, old(Value()), old(Snapshot())).value
    {
      if |stack| < 2 || stack[1] < 0 || stack[1] > |stack| - 2 {
        return;
      }
      var roll, depth := stack[0], stack[1];
      stack := Rolled(stack[2..], depth, roll);
    }

    /** `InInt()`: pushes the number read, if there is one. */
    method InInt()
      modifies this`stack, io
      ensures Snapshot() == Effect(Action.InInt, old(Value()), old(Snapshot())).value
    {
      var input := io.InInt();
      if input.None? {
        return;
      }
      stack := [input.value] + stack;
    }

    /** `InChr()`: pushes the character read, if there is one. */
    method InChr()
      modifies this`stack, io
      ensures Snapshot() == Effect(Action.InChr, old(Value()), old(Snapshot())).value
    {
      var input := io.InChr();
      if input.None? {
        return;
      }
      stack := [input.value as Int64] + stack;
    }

    /** `OutInt()`: pops the top and writes it as a number. */
    method OutInt()
      modifies this`stack, io
      ensures Snapshot() == Effect(Action.OutInt, old(Value()), old(Snapshot())).value
    {
      if |stack| < 1 {
        return;
      }
      var value := stack[0];
      stack := stack[1..];
      io.OutNumber(value);
    }

    /** `OutChr()`: pops the top and writes it as a character, its low sixteen bits. */
    method OutChr()
      modifies this`stack, io
      ensures Snapshot() == Effect(Action.OutChr, old(Value()), old(Snapshot())).value
    {
      if |stack| < 1 {
        return;
      }
      var value := stack[0];
      stack := stack[1..];
      io.OutCharacter(value % 0x1_0000);
    }
  }
}
