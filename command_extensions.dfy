// PietDotNet.CommandExtensions: the eighteen Piet commands over the
// interpreter state, the dictionary that dispatches them, and the policy
// that a failing command leaves the state as it was.
module CommandExtensions {
  import opened Exceptions
  import opened CSharp
  import Stacks
  import StackCommands
  import NumberExtensions
  import Must
  import Pointers
  import States
  import Commands
  import InOuts
  import Colours
  import ColourBlocks
  import Codels

  type State = States.State

  /** `t` has the pointer and the block of `s`: only the stack may differ. */
  predicate StackOnly(s: State, t: State)
  {
    t.pointer == s.pointer && t.block == s.block
  }

  /** `None`: the state unchanged. */
  function None(s: State): (r: State)
    ensures r == s
  {
    s
  }

  /** `Push`: pushes the value of the current block, its number of codels. */
  function Push(s: State): (r: State)
    ensures StackOnly(s, r) && Stacks.Items(r.stack) == [States.Value(s)] + Stacks.Items(s.stack)
  {
    States.WithStack(s, Stacks.Push(s.stack, States.Value(s)))
  }

  /** `Pop`: discards the top item. */
  function Pop(s: State): (r: Result<State>)
    ensures r.Ok? <==> Stacks.Count(s.stack) >= 1
    ensures r.Err? ==> r.error == InsufficientStackSize
    ensures r.Ok? ==> StackOnly(s, r.value) && Stacks.Items(r.value.stack) == Stacks.Items(s.stack)[1..]
  {
    var popped :- Stacks.Pop(s.stack);
    Ok(States.WithStack(s, popped))
  }

  /** `Add`: second plus top, wrapped to `long`. */
  function Add(s: State): (r: Result<State>)
    ensures r.Ok? <==> Stacks.Count(s.stack) >= 2
    ensures r.Err? ==> r.error == InsufficientStackSize
    ensures var xs := Stacks.Items(s.stack);
      r.Ok? ==> StackOnly(s, r.value) && Stacks.Items(r.value.stack) == [Wrap(xs[1] as int + xs[0], Long)] + xs[2..]
  {
    var stack :- StackCommands.Add(s.stack);
    Ok(States.WithStack(s, stack))
  }

  /** `Subtract`: second minus top, wrapped to `long`. */
  function Subtract(s: State): (r: Result<State>)
    ensures r.Ok? <==> Stacks.Count(s.stack) >= 2
    ensures r.Err? ==> r.error == InsufficientStackSize
    ensures var xs := Stacks.Items(s.stack);
      r.Ok? ==> StackOnly(s, r.value) && Stacks.Items(r.value.stack) == [Wrap(xs[1] as int - xs[0], Long)] + xs[2..]
  {
    var stack :- StackCommands.Subtract(s.stack);
    Ok(States.WithStack(s, stack))
  }

  /** `Multiply`: second times top, wrapped to `long`. */
  function Multiply(s: State): (r: Result<State>)
    ensures r.Ok? <==> Stacks.Count(s.stack) >= 2
    ensures r.Err? ==> r.error == InsufficientStackSize
    ensures var xs := Stacks.Items(s.stack);
      r.Ok? ==> StackOnly(s, r.value) && Stacks.Items(r.value.stack) == [Wrap(xs[1] as int * xs[0], Long)] + xs[2..]
  {
    var stack :- StackCommands.Multiply(s.stack);
    Ok(States.WithStack(s, stack))
  }

  /** `Divide`: second divided by top, truncated; a zero top throws. */
  function Divide(s: State): (r: Result<State>)
    ensures Stacks.Count(s.stack) < 2 ==> r == Err(InsufficientStackSize)
    ensures var xs := Stacks.Items(s.stack);
      Stacks.Count(s.stack) >= 2 ==> (r.Err? <==> xs[0] == 0 || (xs[1] == MinInt64 && xs[0] == -1))
    ensures Stacks.Count(s.stack) >= 2 && Stacks.Items(s.stack)[0] == 0 ==> r == Err(DivideByZero)
    ensures var xs := Stacks.Items(s.stack);
      r.Ok? ==> StackOnly(s, r.value) && Stacks.Items(r.value.stack) == [Quot(xs[1], xs[0])] + xs[2..]
  {
    var stack :- StackCommands.Divide(s.stack);
    Ok(States.WithStack(s, stack))
  }

  /**
   * `Modulo`: second modulo top as `StackCommands.Modulo` computes it, never
   * negative unless both are; a zero top throws.
   */
  function Modulo(s: State): (r: Result<State>)
    ensures Stacks.Count(s.stack) < 2 ==> r == Err(InsufficientStackSize)
    ensures var xs := Stacks.Items(s.stack);
      Stacks.Count(s.stack) >= 2 ==> (r.Err? <==> xs[0] == 0 || (xs[1] == MinInt64 && xs[0] == -1))
    ensures Stacks.Count(s.stack) >= 2 && Stacks.Items(s.stack)[0] == 0 ==> r == Err(DivideByZero)
    ensures var xs := Stacks.Items(s.stack);
      r.Ok? ==> StackOnly(s, r.value) && |Stacks.Items(r.value.stack)| == |xs| - 1 && Stacks.Items(r.value.stack)[1..] == xs[2..]
    ensures var xs := Stacks.Items(s.stack);
      r.Ok? && (xs[0] > 0 || xs[1] >= 0) ==> Stacks.Items(r.value.stack)[0] == xs[1] % xs[0]
    ensures var xs := Stacks.Items(s.stack);
      r.Ok? ==> Stacks.Items(r.value.stack)[0] == NumberExtensions.Modulo(xs[1], xs[0], Long).value
  {
    var stack :- StackCommands.Modulo(s.stack);
    Ok(States.WithStack(s, stack))
  }

  /** `Not`: 1 for a zero top and 0 otherwise. */
  function Not(s: State): (r: Result<State>)
    ensures r.Ok? <==> Stacks.Count(s.stack) >= 1
    ensures r.Err? ==> r.error == InsufficientStackSize
    ensures var xs := Stacks.Items(s.stack);
      r.Ok? ==> StackOnly(s, r.value) && Stacks.Items(r.value.stack) == [if xs[0] == 0 then 1 else 0] + xs[1..]
  {
    var stack :- StackCommands.Not(s.stack);
    Ok(States.WithStack(s, stack))
  }

  /** `Greater`: 1 when second exceeds top and 0 otherwise. */
  function Greater(s: State): (r: Result<State>)
    ensures r.Ok? <==> Stacks.Count(s.stack) >= 2
    ensures r.Err? ==> r.error == InsufficientStackSize
    ensures var xs := Stacks.Items(s.stack);
      r.Ok? ==> StackOnly(s, r.value) && Stacks.Items(r.value.stack) == [if xs[1] > xs[0] then 1 else 0] + xs[2..]
  {
    var stack :- StackCommands.Greater(s.stack);
    Ok(States.WithStack(s, stack))
  }

  /**
   * `Rotate`: reads the top (`First`, which throws first on an empty stack),
   * turns DP clockwise that many quarters and pops it.
   */
  function Rotate(s: State): (r: Result<State>)
    ensures r.Ok? <==> Stacks.Count(s.stack) >= 1
    ensures r.Err? ==> r.error == InsufficientStackSize
    ensures r.Ok? ==> r.value.block == s.block && Stacks.Items(r.value.stack) == Stacks.Items(s.stack)[1..]
    ensures r.Ok? ==> r.value.pointer.position == s.pointer.position && r.value.pointer.cc == s.pointer.cc
    ensures r.Ok? ==> r.value.pointer.dp as int == (s.pointer.dp as int + Stacks.Items(s.stack)[0]) % 4
  {
    var turns :- StackCommands.First(s.stack);
    var popped := Stacks.Pop(s.stack).value;
    Ok(States.WithPointerAndStack(s, Pointers.Rotate(s.pointer, turns), popped))
  }

  /** `Switch`: reads the top, toggles CC that many times and pops it. */
  function Switch(s: State): (r: Result<State>)
    ensures r.Ok? <==> Stacks.Count(s.stack) >= 1
    ensures r.Err? ==> r.error == InsufficientStackSize
    ensures r.Ok? ==> r.value.block == s.block && Stacks.Items(r.value.stack) == Stacks.Items(s.stack)[1..]
    ensures r.Ok? ==> r.value.pointer.position == s.pointer.position && r.value.pointer.dp == s.pointer.dp
    ensures r.Ok? ==> r.value.pointer.cc as int == (s.pointer.cc as int + Stacks.Items(s.stack)[0]) % 2
  {
    var toggles :- StackCommands.First(s.stack);
    var popped := Stacks.Pop(s.stack).value;
    Ok(States.WithPointerAndStack(s, Pointers.Switch(s.pointer, toggles), popped))
  }

  /** `Duplicate`: pushes a copy of the top. */
  function Duplicate(s: State): (r: Result<State>)
    ensures r.Ok? <==> Stacks.Count(s.stack) >= 1
    ensures r.Err? ==> r.error == InsufficientStackSize
    ensures var xs := Stacks.Items(s.stack);
      r.Ok? ==> StackOnly(s, r.value) && Stacks.Items(r.value.stack) == [xs[0]] + xs
  {
    var stack :- StackCommands.Duplicate(s.stack);
    Ok(States.WithStack(s, stack))
  }

  /** What `Roll` makes of a state: the stack rolled as `StackCommands.Roll` rolls it. */
  function Rolled(s: State): (r: Result<State>)
    ensures r.Ok? <==> StackCommands.RollItems(Stacks.Items(s.stack)).Ok?
    ensures r.Err? ==> r.error == StackCommands.RollItems(Stacks.Items(s.stack)).error
    ensures r.Ok? ==>
      StackOnly(s, r.value) && Stacks.Items(r.value.stack) == StackCommands.RollItems(Stacks.Items(s.stack)).value
  {
    var items :- StackCommands.RollItems(Stacks.Items(s.stack));
    Ok(States.WithStack(s, Stacks.FromItems(items)))
  }

  /**
   * `Rolled` runs the corrected roll. Where the depth fits in an `int` and
   * `i + roll` does not overflow, it gives exactly what the source's
   * `Stack.Roll()` (`StackCommands.RollAsWritten`) gives.
   */
  lemma RolledAgreesWithSource(s: State)
    requires Stacks.Count(s.stack) >= 2
    requires var xs := Stacks.Items(s.stack); Fits(xs[1], Int) && xs[0] as int + xs[1] <= MaxInt64
    ensures var source := StackCommands.RollAsWritten(s.stack);
      (Rolled(s).Ok? <==> source.Ok?) &&
      (source.Err? ==> Rolled(s).error == source.error) &&
      (source.Ok? ==> Rolled(s).value == States.WithStack(s, source.value))
  {
    var source := StackCommands.RollAsWritten(s.stack);
    StackCommands.RollAsWrittenAgrees(s.stack);
    if source.Ok? {
      Stacks.ItemsDetermineStack(source.value, Stacks.FromItems(Stacks.Items(source.value)));
    }
  }

  /** `Roll`: the state with its stack rolled. */
  method Roll(s: State) returns (r: Result<State>)
    ensures r == Rolled(s)
  {
    var rolled := StackCommands.Roll(s.stack);
    if rolled.Err? {
      return Err(rolled.error);
    }
    Stacks.ItemsDetermineStack(rolled.value, Stacks.FromItems(Stacks.Items(rolled.value)));
    r := Ok(States.WithStack(s, rolled.value));
  }

  /** What `InInt` and `InChr` make of a state, given what `HasInput` made of the answer read. */
  function PushedInput(s: State, input: Result<Int64>): (r: Result<State>)
    ensures r.Ok? <==> input.Ok?
    ensures r.Err? ==> r.error == input.error
    ensures r.Ok? ==> StackOnly(s, r.value) && Stacks.Items(r.value.stack) == [input.value] + Stacks.Items(s.stack)
  {
    var value :- input;
    Ok(States.WithStack(s, Stacks.Push(s.stack, value)))
  }

  /** `InInt`: reads a `long?` and pushes it; no value throws InvalidInput. */
  method InInt(s: State, io: InOuts.InOut) returns (r: Result<State>)
    modifies io
    ensures r == PushedInput(s, Must.HasInputLong(InOuts.Head(old(io.ints))))
    ensures io.ints == InOuts.Tail(old(io.ints))
    ensures io.chars == old(io.chars) && io.written == old(io.written)
  {
    var input := io.InInt();
    r := PushedInput(s, Must.HasInputLong(input));
  }

  /** `InChr`: reads a `char?` and pushes its code; no value throws InvalidInput. */
  method InChr(s: State, io: InOuts.InOut) returns (r: Result<State>)
    modifies io
    ensures r == PushedInput(s, Must.HasInputChar(InOuts.Head(old(io.chars))))
    ensures io.chars == InOuts.Tail(old(io.chars))
    ensures io.ints == old(io.ints) && io.written == old(io.written)
  {
    var input := io.InChr();
    r := PushedInput(s, Must.HasInputChar(input));
  }

  /** The low 16 bits of a `long`, as the unchecked `(char)` cast keeps them. */
  function ToChar(value: Int64): (c: Char16)
    ensures c == value % 0x1_0000
    ensures 0 <= value < 0x1_0000 ==> c == value
  {
    value % 0x1_0000
  }

  /**
   * What `OutInt` and `OutChr` write: the top item, once `Peek` has
   * succeeded. An empty stack throws before anything is written.
   */
  function Written(e: Executable, s: State): (w: seq<InOuts.Output>)
    ensures Stacks.Count(s.stack) == 0 ==> w == []
    ensures Stacks.Count(s.stack) >= 1 && e == DoOutInt ==> w == [InOuts.Number(Stacks.Items(s.stack)[0])]
    ensures Stacks.Count(s.stack) >= 1 && e == DoOutChr ==> w == [InOuts.Character(ToChar(Stacks.Items(s.stack)[0]))]
    ensures e != DoOutInt && e != DoOutChr ==> w == []
  {
    match Stacks.Peek(s.stack)
    case Err(_) => []
    case Ok(value) =>
      if e == DoOutInt then [InOuts.Number(value)]
      else if e == DoOutChr then [InOuts.Character(ToChar(value))]
      else []
  }

  /** `OutInt`: peeks the top, writes it as a number and pops it. */
  method OutInt(s: State, io: InOuts.InOut) returns (r: Result<State>)
    modifies io
    ensures r == Pop(s)
    ensures io.written == old(io.written) + Written(DoOutInt, s)
    ensures io.ints == old(io.ints) && io.chars == old(io.chars)
  {
    var value := Stacks.Peek(s.stack);
    if value.Err? {
      return Err(value.error);
    }
    io.OutNumber(value.value);
    r := Pop(s);
  }

  /** `OutChr`: peeks the top, writes it cast to `char` and pops it. */
  method OutChr(s: State, io: InOuts.InOut) returns (r: Result<State>)
    modifies io
    ensures r == Pop(s)
    ensures io.written == old(io.written) + Written(DoOutChr, s)
    ensures io.ints == old(io.ints) && io.chars == old(io.chars)
  {
    var value := Stacks.Peek(s.stack);
    if value.Err? {
      return Err(value.error);
    }
    io.OutCharacter(ToChar(value.value));
    r := Pop(s);
  }

  /** The entries of the dispatch dictionary: one per command function. */
  datatype Executable =
    | DoNone | DoPush | DoPop | DoAdd | DoSubtract | DoMultiply | DoDivide | DoModulo | DoNot
    | DoGreater | DoRotate | DoSwitch | DoDuplicate | DoRoll | DoInInt | DoInChr | DoOutInt | DoOutChr

  /** The `commands` dictionary. */
  const Table: map<Commands.Command, Executable> := map[
    Commands.None := DoNone, Commands.Push := DoPush, Commands.Pop := DoPop,
    Commands.Add := DoAdd, Commands.Subtract := DoSubtract, Commands.Multiply := DoMultiply,
    Commands.Divide := DoDivide, Commands.Modulo := DoModulo, Commands.Not := DoNot,
    Commands.Greater := DoGreater, Commands.Rotate := DoRotate, Commands.Switch := DoSwitch,
    Commands.Duplicate := DoDuplicate, Commands.Roll := DoRoll, Commands.InInt := DoInInt,
    Commands.InChr := DoInChr, Commands.OutInt := DoOutInt, Commands.OutChr := DoOutChr]

  /**
   * The state a dictionary entry produces, or what it throws, given the
   * answers the next `InInt` and `InChr` reads would get. Only `Rotate` and
   * `Switch` touch the pointer, and then not its position; `None` and
   * `Push` never throw.
   */
  function Outcome(e: Executable, s: State, number: Option<Int64>, character: Option<Char16>): (r: Result<State>)
    ensures e == DoNone || e == DoPush ==> r.Ok?
    ensures r.Ok? && e != DoRotate && e != DoSwitch ==> StackOnly(s, r.value)
    ensures r.Ok? ==> r.value.pointer.position == s.pointer.position && r.value.block == s.block
  {
    match e
    case DoNone => Ok(None(s))
    case DoPush => Ok(Push(s))
    case DoPop => Pop(s)
    case DoAdd => Add(s)
    case DoSubtract => Subtract(s)
    case DoMultiply => Multiply(s)
    case DoDivide => Divide(s)
    case DoModulo => Modulo(s)
    case DoNot => Not(s)
    case DoGreater => Greater(s)
    case DoRotate => Rotate(s)
    case DoSwitch => Switch(s)
    case DoDuplicate => Duplicate(s)
    case DoRoll => Rolled(s)
    case DoInInt => PushedInput(s, Must.HasInputLong(number))
    case DoInChr => PushedInput(s, Must.HasInputChar(character))
    case DoOutInt => Pop(s)
    case DoOutChr => Pop(s)
  }

  /**
   * `Execute`: looks the command up in the dictionary and runs the entry;
   * a command without an entry throws NotSupportedDelta.
   */
  method Execute(cmd: Commands.Command, s: State, io: InOuts.InOut) returns (r: Result<State>)
    modifies io
    ensures cmd !in Table ==> r == Err(NotSupportedDelta) && unchanged(io)
    ensures cmd in Table ==> r == Outcome(Table[cmd], s, InOuts.Head(old(io.ints)), InOuts.Head(old(io.chars)))
    ensures cmd in Table ==> io.ints == if Table[cmd] == DoInInt then InOuts.Tail(old(io.ints)) else old(io.ints)
    ensures cmd in Table ==> io.chars == if Table[cmd] == DoInChr then InOuts.Tail(old(io.chars)) else old(io.chars)
    ensures cmd in Table ==> io.written == old(io.written) + Written(Table[cmd], s)
  {
    if cmd !in Table {
      return Err(NotSupportedDelta);
    }
    match Table[cmd]
    case DoNone => r := Ok(None(s));
    case DoPush => r := Ok(Push(s));
    case DoPop => r := Pop(s);
    case DoAdd => r := Add(s);
    case DoSubtract => r := Subtract(s);
    case DoMultiply => r := Multiply(s);
    case DoDivide => r := Divide(s);
    case DoModulo => r := Modulo(s);
    case DoNot => r := Not(s);
    case DoGreater => r := Greater(s);
    case DoRotate => r := Rotate(s);
    case DoSwitch => r := Switch(s);
    case DoDuplicate => r := Duplicate(s);
    case DoRoll => r := Roll(s);
    case DoInInt => r := InInt(s, io);
    case DoInChr => r := InChr(s, io);
    case DoOutInt => r := OutInt(s, io);
    case DoOutChr => r := OutChr(s, io);
  }

  /** The `catch` clauses of `TryExecute`: Terminated is rethrown, anything else gives the input state back. */
  function Recovered(executed: Result<State>, s: State): (r: Result<State>)
    ensures r.Err? <==> executed.Err? && executed.error == Terminated
    ensures r.Err? ==> r.error == Terminated
    ensures executed.Ok? ==> r == executed
    ensures executed.Err? && executed.error != Terminated ==> r == Ok(s)
  {
    match executed
    case Ok(_) => executed
    case Err(error) => if error == Terminated then executed else Ok(s)
  }

  /** `TryExecute`: `Execute` with its exceptions caught; logging is left out. */
  method TryExecute(cmd: Commands.Command, s: State, io: InOuts.InOut) returns (r: Result<State>)
    modifies io
    ensures cmd in Table ==> r == Recovered(Outcome(Table[cmd], s, InOuts.Head(old(io.ints)), InOuts.Head(old(io.chars))), s)
    ensures cmd in Table ==> io.written == old(io.written) + Written(Table[cmd], s)
    ensures r.Err? ==> r.error == Terminated
  {
    var executed := Execute(cmd, s, io);
    r := Recovered(executed, s);
  }

  /** The dictionary has an entry for every command, so `Execute` never throws NotSupportedDelta. */
  lemma TableCoversEveryCommand(cmd: Commands.Command)
    ensures cmd in Table
  {
    Commands.EveryCommandIsNamed(cmd);
  }

  /**
   * No entry throws NotSupportedDelta or Terminated, and none changes the
   * current block.
   */
  lemma OutcomeKeepsBlock(e: Executable, s: State, number: Option<Int64>, character: Option<Char16>)
    ensures Outcome(e, s, number, character).Err? ==> Outcome(e, s, number, character).error !in {NotSupportedDelta, Terminated}
    ensures Outcome(e, s, number, character).Ok? ==> Outcome(e, s, number, character).value.block == s.block
  {
  }

  /** A command that throws leaves `TryExecute` with the state it was given. */
  lemma FailedCommandKeepsState(e: Executable, s: State, number: Option<Int64>, character: Option<Char16>)
    requires Outcome(e, s, number, character).Err?
    ensures Recovered(Outcome(e, s, number, character), s) == Ok(s)
  {
    OutcomeKeepsBlock(e, s, number, character);
  }

  /** `Push` pushes the number of codels of the block the state is in. */
  lemma PushPushesBlockSize(s: State, colour: Colours.Colour, members: set<Codels.Codel>)
    requires ColourBlocks.Describes(s.block, colour, members)
    ensures Stacks.Items(Push(s).stack)[0] as int == |members|
  {
    States.ValueCountsCodels(s, colour, members);
  }

  /** `Pop` undoes `Push` and `Duplicate`. */
  lemma PopUndoesPush(s: State)
    ensures Pop(Push(s)) == Ok(s)
    ensures Duplicate(s).Ok? ==> Pop(Duplicate(s).value) == Ok(s)
  {
    Stacks.ItemsDetermineStack(Pop(Push(s)).value.stack, s.stack);
    if Duplicate(s).Ok? {
      Stacks.ItemsDetermineStack(Pop(Duplicate(s).value).value.stack, s.stack);
    }
  }

  /** Rotating by a top of 1 is popping it and turning the state once, and likewise for switching. */
  lemma OneTurnIsStateTurn(s: State)
    requires Stacks.Count(s.stack) >= 1 && Stacks.Items(s.stack)[0] == 1
    ensures Rotate(s) == Ok(States.Rotate(Pop(s).value))
    ensures Switch(s) == Ok(States.Switch(Pop(s).value))
  {
  }

  /** A number read by `InInt` is written back by `OutInt`, which leaves the state as it was before the read. */
  lemma InIntThenOutInt(s: State, n: Int64)
    ensures PushedInput(s, Must.HasInputLong(Some(n))).Ok?
    ensures var t := PushedInput(s, Must.HasInputLong(Some(n))).value;
      Written(DoOutInt, t) == [InOuts.Number(n)] && Pop(t) == Ok(s)
  {
    var t := PushedInput(s, Must.HasInputLong(Some(n))).value;
    Stacks.ItemsDetermineStack(Pop(t).value.stack, s.stack);
  }

  /** A character read by `InChr` is written back unchanged by `OutChr`, which leaves the state as it was before the read. */
  lemma InChrThenOutChr(s: State, c: Char16)
    ensures PushedInput(s, Must.HasInputChar(Some(c))).Ok?
    ensures var t := PushedInput(s, Must.HasInputChar(Some(c))).value;
      Written(DoOutChr, t) == [InOuts.Character(c)] && Pop(t) == Ok(s)
  {
    var t := PushedInput(s, Must.HasInputChar(Some(c))).value;
    Stacks.ItemsDetermineStack(Pop(t).value.stack, s.stack);
  }

  /** `OutChr` writes only the low 16 bits: 65 and 65601 are both written as 'A'. */
  lemma OutChrTruncates(s: State)
    requires Stacks.Count(s.stack) >= 1 && Stacks.Items(s.stack)[0] == 0x1_0041
    ensures Written(DoOutChr, s) == [InOuts.Character(0x41)]
  {
  }
}
