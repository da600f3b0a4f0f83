# Piet interpreter core, modelled in Dafny

This project models the deterministic core of piet.net, a C# interpreter
for Piet. Piet is an esoteric language whose programs are bitmaps.

The model covers these parts:

- **Colours and commands.** A program is a grid of 20 colours (black, white and 18 hued colours). Moving from one colour block to the next executes the command named by the change of hue (modulo 6) and of lightness (modulo 3). There are three copies of that command type: `Command`, and the older `Delta` and `CodelDelta`.
- **Cursor geometry.** The direction pointer (DP) rotates modulo 4, and the codel chooser (CC) toggles by parity. Codels and points step one unit in a direction. The value types built from these are `Pointer`, `Direction`, `Edge` and `Step`.
- **The stack and its commands.** `Stack` is an immutable cons list. `StackCommands` holds the arithmetic, logic and roll commands with their exact error conditions, and `Must` holds the guards. `CommandExtensions` dispatches the 18 commands over an immutable `State`; a failed command leaves the state unchanged.
- **Colour blocks.** `Program` finds the 4-connected block of same-coloured codels with a breadth-first flood fill and caches it cell by cell. `ColourBlock` keeps the 8 extreme codels, one per (DP, CC), and leaves the block past them. `Border` is the shared sentinel block.
- **The binary format** (`IO/Binary.cs`). After an 8-byte header, the colour grid is packed as base-20 digits, 11 codels per 48-bit group. A loader and a writer are proved against one specification.
- **The run loop** of an older `Interpreter.cs`. It keeps a command budget, retries eight times when black codels or the edge block the way out (alternately toggling CC and rotating DP), and runs each command behind its guard.

C# integer widths are explicit. `CSharp.Wrap` models unchecked `int`/`long` wrap-around, and `CSharp.Quot`/`CSharp.RemT` model C#'s truncating `/` and `%`. A thrown exception is an `Err` of the `Exceptions.Error` value named after it.

The pure parts are datatypes, functions and lemmas. The parts that update state are imperative, and each is proved against a specification function:
- the program's block cache (`Programs.Program`, a class over jagged arrays);
- the flood fill;
- the binary loader's loops;
- the interpreter (`Interpreters.Interpreter`, a class);
- the input/output queues (`InOuts.InOut`).

## Model

| member | source | states |
|---|---|---|
| NumberExtensions.IsEven | src/PietDotNet/Extensions/NumberExtensions.cs:5 | `(number & 1) == 0` holds exactly for even numbers, negative ones included |
| NumberExtensions.Modulo | src/PietDotNet/Extensions/NumberExtensions.cs:7-16 | fails exactly for a zero modulus (DivideByZero) or MinValue modulo -1; the result fits the width; for a positive modulus or a non-negative n it is the mathematical n mod modulus, in [0, modulus) |
| NumberExtensions.ModuloExamples | src/PietDotNet/Extensions/NumberExtensions.cs:14-15 | -42 mod 5 is 3, 42 mod -11 is 9, -42 mod -11 is -20 (no range guarantee for a negative modulus), -7 mod 6 is 5 |
| NumberExtensions.ModuloOverloadsAgree | src/PietDotNet/Extensions/NumberExtensions.cs:7-16 | the `int` and `long` overloads agree for every positive modulus |
| NumberExtensions.ModuloOverloadsDiffer | src/PietDotNet/Extensions/NumberExtensions.cs:10 | with modulus int.MinValue the `int` overload wraps around where the `long` one does not |
| ModExtensions.Mod | src/PietDotNet/Extensions/ModExtensions.cs:5-14 | fails exactly for a zero modulus or MinValue modulo -1; for a positive modulus or a non-negative n it is the mathematical n mod modulus |
| ModExtensions.ModIsModulo | src/PietDotNet/Extensions/ModExtensions.cs:7-8 | `Mod` equals `NumberExtensions.Modulo` on every input and width, errors included |
| ModExtensions.ModIdempotent | src/PietDotNet/Extensions/ModExtensions.cs:5-9 | reducing twice by the same positive modulus gives the same result as reducing once |
| Colours.Index | src/PietDotNet/Colour.cs:9-46 | the index of a colour is its position in `All` |
| Colours.Hue | src/PietDotNet/Colour.cs:9-34 | the hue is in -1..5, and it is -1 exactly for black and white |
| Colours.Lightness | src/PietDotNet/Colour.cs:9-34 | the lightness is in 0..2 exactly for hued colours; int.MaxValue exactly for black, int.MinValue exactly for white |
| Colours.RgbCode | src/PietDotNet/Colour.cs:9-34 | every RGB code is a 24-bit value |
| Colours.Name | src/PietDotNet/Colour.cs:9-34 | every colour has a non-empty name |
| Colours.IsBlackOrWhite | src/PietDotNet/Colour.cs:75 | holds exactly for black and white |
| Colours.NotBlackOrWhite | src/PietDotNet/Colour.cs:72 | holds exactly for the hued colours, the negation of `IsBlackOrWhite` |
| Colours.IsBlack | src/PietDotNet/Colour.cs:78 | holds exactly for black |
| Colours.IsWhite | src/PietDotNet/Colour.cs:81 | holds exactly for white |
| Colours.AllListsEachColourOnce | src/PietDotNet/Colour.cs:37-46 | `All` has 20 entries, contains every colour, and has no repeats |
| Colours.RgbCodeInjective | src/PietDotNet/Colour.cs:9-34 | two colours with the same RGB code are the same colour |
| Commands.New | src/PietDotNet/Command.cs:29-33 | the hue is reduced modulo 6 and the lightness modulo 3, so every pair of ints gives a normalised command |
| Commands.ConstantsAreNormalised | src/PietDotNet/Command.cs:5-27 | each of the 18 named commands is the constructor applied to its (hue, lightness); None is (0, 0) |
| Commands.Equals | src/PietDotNet/Command.cs:51 | component-wise equality is value equality |
| Commands.HashCode | src/PietDotNet/Command.cs:54 | the hash is in 0..23 and gives back the hue (hash / 4) and the lightness (hash % 4) |
| Commands.HashCodeInjective | src/PietDotNet/Command.cs:54 | distinct commands have distinct hashes |
| Commands.CommandsDistinct | src/PietDotNet/Command.cs:5-27 | the 18 named commands are pairwise distinct |
| Commands.EveryCommandIsNamed | src/PietDotNet/Command.cs:68-88 | every command is one of the 18 constants and is a key of `Names` |
| Commands.Name | src/PietDotNet/Command.cs:42 | the lookup in `Names` never misses, and every name is non-empty |
| Commands.Delta | src/PietDotNet/Command.cs:57-66 | fails with InvalidOperation exactly when either colour is black or white; otherwise the hue change is taken modulo 6 and the lightness change modulo 3 |
| Commands.Minus | src/PietDotNet/Colour.cs:103 | `l - r` is defined exactly for two hued colours, and is the normalised difference from `r` to `l` |
| Commands.DeltaDeterminesColour | src/PietDotNet/Command.cs:57-66 | from a given colour, equal commands lead to equal colours |
| Commands.DeltaAntisymmetric | src/PietDotNet/Command.cs:63-65 | the commands from a to b and from b to a add up to no change in hue (mod 6) and in lightness (mod 3) |
| Commands.HueChangesCancel | src/PietDotNet/Command.cs:63 | the hue half of the antisymmetry |
| Commands.LightnessChangesCancel | src/PietDotNet/Command.cs:64 | the lightness half of the antisymmetry |
| Commands.DeltaLeadsTo | src/PietDotNet/Command.cs:57-66 | adding the command to the previous colour's hue and lightness gives the current colour |
| Commands.DeltaOfSameColourIsNone | src/PietDotNet/Command.cs:57-66 | staying on one hued colour gives None |
| Commands.MinusExamples | src/PietDotNet/Colour.cs:103 | Red - RedDark is Pop and Red - GreenLight is Roll |
| Deltas.New | src/PietDotNet/Delta.cs:35-39 | the hue is reduced modulo 6 and the lightness modulo 3 |
| Deltas.NewPeriodic | src/PietDotNet/Delta.cs:35-39 | adding 6 to the hue and 3 to the lightness gives the same value |
| Deltas.ConstantsAreNormalised | src/PietDotNet/Delta.cs:11-33 | each of the 18 constants is the constructor applied to its (hue, lightness); None is (0, 0) |
| Deltas.Equals | src/PietDotNet/Delta.cs:57 | component-wise equality is value equality |
| Deltas.Eq | src/PietDotNet/Delta.cs:62 | `==` is value equality |
| Deltas.Neq | src/PietDotNet/Delta.cs:63 | `!=` is its negation |
| Deltas.HashCode | src/PietDotNet/Delta.cs:60 | the hash is in 0..23 and gives back the hue and the lightness |
| Deltas.ConstantsCoverAllValues | src/PietDotNet/Delta.cs:11-33 | every value is one of the 18 constants |
| Deltas.ConstantsDistinct | src/PietDotNet/Delta.cs:11-33 | the 18 constants are pairwise distinct |
| Deltas.HashCodeInjective | src/PietDotNet/Delta.cs:60 | distinct values have distinct hashes |
| Deltas.NewAgreesWithCommand | src/PietDotNet/Delta.cs:35-39 | normalising with `Mod` gives the same hue and lightness as `Command`'s constructor, which uses `Modulo` |
| CodelDeltas.New | src/PietDotNet/CodelDelta.cs:31-35 | the hue is reduced modulo 6 and the lightness modulo 3 |
| CodelDeltas.NewPeriodic | src/PietDotNet/CodelDelta.cs:31-35 | adding 6 to the hue and 3 to the lightness gives the same value |
| CodelDeltas.ConstantsAreNormalised | src/PietDotNet/CodelDelta.cs:7-29 | each of the 18 constants is the constructor applied to its (hue, lightness); None is (0, 0) |
| CodelDeltas.Equals | src/PietDotNet/CodelDelta.cs:50 | component-wise equality is value equality |
| CodelDeltas.Eq | src/PietDotNet/CodelDelta.cs:55 | `==` is value equality |
| CodelDeltas.Neq | src/PietDotNet/CodelDelta.cs:56 | `!=` is its negation |
| CodelDeltas.HashCode | src/PietDotNet/CodelDelta.cs:53 | the hash is in 0..23 and gives back the hue and the lightness |
| CodelDeltas.ConstantsCoverAllValues | src/PietDotNet/CodelDelta.cs:7-29 | every value is one of the 18 constants |
| CodelDeltas.ConstantsDistinct | src/PietDotNet/CodelDelta.cs:7-29 | the 18 constants are pairwise distinct |
| CodelDeltas.HashCodeInjective | src/PietDotNet/CodelDelta.cs:53 | distinct values have distinct hashes |
| CodelDeltas.NewAgreesWithCommand | src/PietDotNet/CodelDelta.cs:31-35 | normalises exactly as `Command`'s constructor does |
| DirectionPointers.Rotate | src/PietDotNet/DirectionPointer.cs:14-21 | the result is always one of the four defined directions: DP plus the count, modulo 4, for negative counts too |
| DirectionPointers.FourQuarterTurns | src/PietDotNet/DirectionPointer.cs:14-21 | four quarter turns bring a defined direction back to itself |
| DirectionPointers.RotateClockwise | src/PietDotNet/DirectionPointer.cs:5-8 | +1 goes clockwise: right, down, left, top, right |
| DirectionPointers.RotateInverse | src/PietDotNet/DirectionPointer.cs:14-21 | rotating by k and then by -k gives back a defined direction |
| DirectionPointers.RotateCompose | src/PietDotNet/DirectionPointer.cs:16-19 | rotating by a and then by b is rotating by the wrapped sum a + b |
| DirectionPointers.RotateFullTurn | src/PietDotNet/DirectionPointer.cs:16-19 | rotating by a multiple of 4 changes nothing |
| DirectionPointers.RotateDownFullTurnExamples | src/PietDotNet/DirectionPointer.cs:14-21 | down rotated by 4 or by -4 stays down |
| DirectionPointers.RotateDownPastTurnExamples | src/PietDotNet/DirectionPointer.cs:14-21 | down rotated by -5 is right, and by 5 is left |
| DirectionPointers.RotateLeftExamples | src/PietDotNet/DirectionPointer.cs:14-21 | left rotated by 0 is left, and by 3 is down |
| CodelChoosers.Switch | src/PietDotNet/CodelChooser.cs:12-17 | the result depends only on the parity of CC plus the count: even gives left and odd gives right, for negative counts too |
| CodelChoosers.Toggle | src/PietDotNet/CodelChooser.cs:11 | toggling always changes a defined chooser |
| CodelChoosers.ToggleInvolution | src/PietDotNet/CodelChooser.cs:11 | toggling twice is the identity |
| CodelChoosers.SwitchCompose | src/PietDotNet/CodelChooser.cs:14-16 | switching by a and then by b is switching by the wrapped sum a + b |
| CodelChoosers.SwitchEven | src/PietDotNet/CodelChooser.cs:15 | an even count keeps a defined chooser |
| CodelChoosers.SwitchExamples | src/PietDotNet/CodelChooser.cs:12-17 | from either side, 3 switches flip the chooser and 4 keep it |
| Codels.ClockwiseIsRotate | src/PietDotNet/DirectionPointer.cs:14-21 | the direction a quarter turn clockwise is `Rotate(dp, 1)` |
| Codels.Step | src/PietDotNet/Codel.cs:27-32 | away from the `int` limits, a step moves exactly one unit forward along DP and keeps the coordinate across it |
| Codels.Next | src/PietDotNet/Codel.cs:27-34 | fails with ArgumentOutOfRange exactly for an undefined direction; otherwise it is the unit step |
| Codels.StepIsUnit | src/PietDotNet/Codel.cs:29-32 | a step changes exactly one coordinate, and away from the limits it changes it by exactly 1 |
| Codels.NextExamples | src/PietDotNet/Codel.cs:27-34 | from (1, 1): right (2, 1), left (0, 1), top (1, 0), down (1, 2); direction 4 fails |
| Codels.StepBack | src/PietDotNet/Codel.cs:29-32 | a step followed by a step in the opposite direction gives back the codel |
| Codels.StepBackTo | src/PietDotNet/Codel.cs:29-32 | the same, with the opposite direction given as DP + 2 modulo 4 |
| Codels.Equals | src/PietDotNet/Codel.cs:43 | component-wise equality is value equality |
| PointExtensions.Next | src/PietDotNet/Extensions/PointExtensions.cs:9-19 | fails with InvalidOperation exactly for an undefined direction; right is x + 1, left x - 1, top y - 1, down y + 1, in unchecked `int` |
| PointExtensions.NextAgreesWithCodel | src/PietDotNet/Extensions/PointExtensions.cs:13-16 | succeeds exactly when `Codel.Next` does, and moves to the same coordinates |
| PointExtensions.NextThenBack | src/PietDotNet/Extensions/PointExtensions.cs:13-16 | a step and then a step in the opposite direction give back the point |
| PointExtensions.NextBackTo | src/PietDotNet/Extensions/PointExtensions.cs:13-16 | the same, with the opposite direction given as DP + 2 modulo 4 |
| PointExtensions.NextExamples | src/PietDotNet/Extensions/PointExtensions.cs:9-19 | from (0, 0): top (0, -1), right (1, 0), down (0, 1), left (-1, 0); direction 7 fails |
| LegacyPointExtensions.Next | src/PietDotNet/PointExtensions.cs:7-18 | fails with InvalidOperation exactly for an undefined direction |
| LegacyPointExtensions.NextAgrees | src/PietDotNet/PointExtensions.cs:9-16 | gives the same result as the newer `Next` on every input, errors included |
| LegacyPointExtensions.NextThenBack | src/PietDotNet/PointExtensions.cs:11-14 | a step and then a step in the opposite direction give back the point |
| Pointers.SingleStep | src/PietDotNet/Pointer.cs:21-24 | fails exactly for an undefined DP; otherwise the position is stepped along DP and DP and CC stay |
| Pointers.Move | src/PietDotNet/Pointer.cs:27-30 | only the position changes |
| Pointers.Rotate | src/PietDotNet/Pointer.cs:33-36 | only DP changes, to DP + k modulo 4 |
| Pointers.Switch | src/PietDotNet/Pointer.cs:39-42 | only CC changes, to CC + k modulo 2 |
| Pointers.Equals | src/PietDotNet/Pointer.cs:51-56 | equal exactly when position, DP and CC are equal |
| Pointers.ToDirection | src/PietDotNet/Pointer.cs:66 | the conversion succeeds exactly for a defined DP and CC and keeps both |
| Pointers.OperationsKeepDefined | src/PietDotNet/Pointer.cs:8-42 | `Initial` is defined (position (0, 0), DP right, CC left), and stepping, moving, rotating and switching keep a pointer defined |
| Pointers.StepAndReturn | src/PietDotNet/Pointer.cs:21-36 | a step, a half turn and another step come back to the starting position |
| Directions.New | src/PietDotNet/Direction.cs:8-12 | fails with UndefinedEnum exactly when DP or CC is undefined; otherwise keeps both |
| Directions.Equals | src/PietDotNet/Direction.cs:24 | component-wise equality is value equality |
| Directions.HashCode | src/PietDotNet/Direction.cs:27 | the hash is DP + 8 * CC |
| Directions.HashCodeInjective | src/PietDotNet/Direction.cs:27 | distinct directions have distinct hashes |
| Edges.New | src/PietDotNet/Edge.cs:10-14 | fails with UndefinedEnum exactly when DP or CC is undefined; otherwise keeps both |
| Edges.Equals | src/PietDotNet/Edge.cs:26 | component-wise equality is value equality |
| Edges.HashCode | src/PietDotNet/Edge.cs:29 | the hash is DP + 8 * CC |
| Edges.HashCodeInjective | src/PietDotNet/Edge.cs:29 | distinct edges have distinct hashes |
| Steps.Equals | src/PietDotNet/Step.cs:26 | component-wise equality is value equality |
| Steps.EqualsObject | src/PietDotNet/Step.cs:23 | a boxed object equals a step exactly when it is a step with the same fields |
| Steps.HashCode | src/PietDotNet/Step.cs:29 | the low 16 bits of the hash are those of the point's hash |
| Steps.EqualStepsHashEqually | src/PietDotNet/Step.cs:23-29 | steps that are equal have equal hashes |
| Stacks.Count | src/PietDotNet/Stack.cs:18-84 | the count is the number of items, and zero exactly for the empty stack |
| Stacks.Push | src/PietDotNet/Stack.cs:33 | the new value goes on top of the old items |
| Stacks.PushBool | src/PietDotNet/Stack.cs:36 | true pushes 1 and false pushes 0 |
| Stacks.Pop | src/PietDotNet/Stack.cs:21-93 | fails with InsufficientStackSize exactly on the empty stack; otherwise it drops the top item |
| Stacks.Peek | src/PietDotNet/Stack.cs:30-90 | fails with InsufficientStackSize exactly on the empty stack; otherwise it returns the top item |
| Stacks.PopN | src/PietDotNet/Stack.cs:24-27 | succeeds exactly for 0 <= repeat <= Count and drops that many items; a negative count or too few items fail |
| Stacks.ItemAt | src/PietDotNet/Stack.cs:70-78 | the i-th item of the top-first enumeration |
| Stacks.FromItems | src/PietDotNet/Stack.cs:33 | builds the stack whose top-first items are the given sequence |
| Stacks.ItemsDetermineStack | src/PietDotNet/Stack.cs:47-94 | two stacks with the same items are the same stack |
| Stacks.PushThenPop | src/PietDotNet/Stack.cs:33-65 | after a push, `Peek` gives the value and `Pop` gives back the old stack |
| Stacks.PopNAdds | src/PietDotNet/Stack.cs:24-27 | popping a items and then b items is popping a + b items |
| Stacks.Enumerate | src/PietDotNet/Stack.cs:68-78 | the loop yields exactly the items, top first |
| Stacks.StackExamples | src/PietDotNet/Stack.cs:13-93 | pushing 0..5 enumerates 5, 4, 3, 2, 1, 0; pop and peek of a pushed value; booleans push 1 and 0; popping or peeking the empty stack fails |
| Must.HasAny | src/PietDotNet/Validation/Must.cs:6-11 | passes the stack through exactly when it has at least one item, and fails with InsufficientStackSize otherwise |
| Must.HasMultiple | src/PietDotNet/Validation/Must.cs:14-19 | passes the stack through exactly when it has at least two items, and fails with InsufficientStackSize otherwise |
| Must.HasInputLong | src/PietDotNet/Validation/Must.cs:21-24 | returns the value exactly when there is one, and fails with InvalidInput otherwise |
| Must.HasInputChar | src/PietDotNet/Validation/Must.cs:26-29 | returns the character's code (0..0xFFFF) exactly when there is one, and fails with InvalidInput otherwise |
| Must.GuardsNest | src/PietDotNet/Validation/Must.cs:6-19 | a stack that passes `HasMultiple` passes `HasAny` |
| StackCommands.First | src/PietDotNet/StackCommands.cs:114 | succeeds exactly on a stack of at least one item and returns the top item; otherwise InsufficientStackSize |
| StackCommands.Second | src/PietDotNet/StackCommands.cs:115 | succeeds exactly on a stack of at least two items and returns the item below the top; otherwise InsufficientStackSize |
| StackCommands.Add | src/PietDotNet/StackCommands.cs:12-15 | fails with InsufficientStackSize exactly below two items; otherwise the two top items are replaced by their sum wrapped to 64 bits and the rest stays |
| StackCommands.Subtract | src/PietDotNet/StackCommands.cs:21-23 | as `Add`, with second minus top |
| StackCommands.Multiply | src/PietDotNet/StackCommands.cs:28-30 | as `Add`, with the wrapped product |
| StackCommands.Divide | src/PietDotNet/StackCommands.cs:40-42 | below two items InsufficientStackSize; with two, it fails exactly for a zero divisor (DivideByZero) or long.MinValue / -1; otherwise the quotient truncated toward zero replaces the two items |
| StackCommands.Modulo | src/PietDotNet/StackCommands.cs:54-56 | the same failures as `Divide`; otherwise one item fewer, the rest kept, and on top `second.Modulo(top)`: for a positive divisor the remainder in 0..divisor-1, for a non-negative dividend the non-negative remainder whatever the divisor's sign (42 modulo -11 is 9) |
| StackCommands.Not | src/PietDotNet/StackCommands.cs:61-63 | fails with InsufficientStackSize exactly on the empty stack; otherwise the top becomes 1 if it was 0 and 0 otherwise |
| StackCommands.Greater | src/PietDotNet/StackCommands.cs:69-71 | fails exactly below two items; otherwise the two items are replaced by 1 when second > top and 0 otherwise |
| StackCommands.Duplicate | src/PietDotNet/StackCommands.cs:74-75 | fails exactly on the empty stack; otherwise a copy of the top lies on top of all the old items |
| StackCommands.ArithmeticExamples | test/PietDotNet.UnitTests/StackCommandsTest.cs:45-101 | 17 and 25 add to 42, subtract to -8, multiply to 425; one item is too few |
| StackCommands.DivisionExamples | test/PietDotNet.UnitTests/StackCommandsTest.cs:107-167 | 42 / 14 is 3, dividing by zero fails, -42 mod 5 is 3, 42 mod -11 is 9 |
| StackCommands.LogicExamples | test/PietDotNet.UnitTests/StackCommandsTest.cs:172-249 | every comparison, negation and duplication case of the unit tests (42 over 17 and 42 over 42, Not of 0 and of 42, Duplicate of 42, and InsufficientStackSize for Not and Duplicate on an empty stack and Greater on one item), plus 17 under 42 and Not of 17 |
| StackCommands.AddWrapsAround | src/PietDotNet/StackCommands.cs:12-15 | long.MaxValue + 1 gives long.MinValue |
| StackCommands.Rotated | src/PietDotNet/StackCommands.cs:101-111 | a rotation of the top `depth` items keeps the length and every item below `depth` |
| StackCommands.RotatedByMultiple | src/PietDotNet/StackCommands.cs:99 | rolling by a multiple of the depth leaves the items unchanged, which justifies the early return |
| StackCommands.RotatedIsSplice | src/PietDotNet/StackCommands.cs:101-111 | the rotation is the items from `roll mod depth` to `depth`, then the ones before, then the rest |
| StackCommands.RotatedIsPermutation | src/PietDotNet/StackCommands.cs:101-111 | rolling only reorders: the multiset of items is kept |
| StackCommands.RotatedOnce | src/PietDotNet/StackCommands.cs:101-111 | one roll buries the top item at the given depth and lifts the ones above it by one |
| StackCommands.RotatedRoundTrip | src/PietDotNet/StackCommands.cs:101-111 | rolling by `-roll` undoes rolling by `roll` |
| StackCommands.RollItems | src/PietDotNet/StackCommands.cs:90-112 | fails only with InsufficientStackSize or NegativeDepth; a result holds the items below the two operands, reordered: the same multiset |
| StackCommands.Roll | src/PietDotNet/StackCommands.cs:90-112 | the loop's result is the one `RollItems` gives: InsufficientStackSize below two items, NegativeDepth, InsufficientStackSize for a depth beyond the stack, unchanged for depth 0 or a roll that is a multiple of the depth, else the rotation |
| StackCommands.RollWithin | src/PietDotNet/StackCommands.cs:101-111 | the pushes of the loop leave exactly the rotation of the items |
| StackCommands.RollExamples | test/PietDotNet.UnitTests/Stack_command_specs.cs:283-370 | the unit tests' roll cases: too few items, negative depth, depth too large, zero depth, zero rolls, one roll up and one roll down |
| StackCommands.IndexAsWritten | src/PietDotNet/StackCommands.cs:106 | the index computed by the source lies in 0..depth-1 |
| StackCommands.IndexAsWrittenIs | src/PietDotNet/StackCommands.cs:106 | that index is the 64-bit wrapped `i + roll` reduced modulo `depth` |
| StackCommands.IndexWithoutOverflow | src/PietDotNet/StackCommands.cs:106 | without overflow the index is `(i + roll) mod depth` |
| StackCommands.PushIndexed | src/PietDotNet/StackCommands.cs:103-110 | the pushes add exactly `n` items |
| StackCommands.PushIndexedItems | src/PietDotNet/StackCommands.cs:103-110 | after the pushes item `j` is item `index(j)` of the popped-from stack and the old stack lies below |
| StackCommands.RollAsWritten | src/PietDotNet/StackCommands.cs:90-112 | the code as written: fails below two items, and its result has two items fewer than the input |
| StackCommands.PushedAsWrittenRotates | src/PietDotNet/StackCommands.cs:103-110 | without overflow in `i + roll` the pushes as written build the rotation |
| StackCommands.RollAsWrittenAgrees | src/PietDotNet/StackCommands.cs:90-112 | where the depth fits in an `int` and `i + roll` does not overflow, the code as written agrees with `RollItems` |
| StackCommands.RollAsWrittenRotates | src/PietDotNet/StackCommands.cs:90-112 | within those bounds and a depth within the stack, the code as written returns the rotation |
| StackCommands.RollAsWrittenDuplicatesAnItem | src/PietDotNet/StackCommands.cs:106 | rolling [10, 20, 30] by long.MaxValue as written gives [20, 20, 30]: an item is lost and another doubled |
| StackCommands.RotatedByMaxValue | src/PietDotNet/StackCommands.cs:90-112 | the intended roll by long.MaxValue rotates [10, 20, 30] to [20, 30, 10] |
| StackCommands.RollAsWrittenTruncatesDepth | src/PietDotNet/StackCommands.cs:94 | a depth of 2^32 + 3 over a three-item stack is truncated to 3 and the roll goes ahead as written |
| StackCommands.RollRejectsDepthBeyondStack | src/PietDotNet/StackCommands.cs:94-98 | the intended check rejects that depth with InsufficientStackSize |
| CommandExtensions.None | src/PietDotNet/CommandExtensions.cs:41 | the state comes back unchanged |
| CommandExtensions.Push | src/PietDotNet/CommandExtensions.cs:47-50 | only the stack changes, and the block's value lies on top of the old items |
| CommandExtensions.Pop | src/PietDotNet/CommandExtensions.cs:53-56 | fails with InsufficientStackSize exactly on an empty stack; otherwise only the stack changes, losing its top |
| CommandExtensions.Add | src/PietDotNet/CommandExtensions.cs:59-62 | fails exactly below two items; otherwise only the stack changes, to the wrapped sum on the rest |
| CommandExtensions.Subtract | src/PietDotNet/CommandExtensions.cs:65-68 | as `Add`, with second minus top |
| CommandExtensions.Multiply | src/PietDotNet/CommandExtensions.cs:71-74 | as `Add`, with the wrapped product |
| CommandExtensions.Divide | src/PietDotNet/CommandExtensions.cs:80-83 | below two items InsufficientStackSize; a zero top DivideByZero; fails exactly then or for long.MinValue / -1; otherwise the truncated quotient replaces the two items and nothing else changes |
| CommandExtensions.Modulo | src/PietDotNet/CommandExtensions.cs:89-92 | the failures of `Divide`; otherwise only the stack changes: one item fewer, the rest kept, and on top `second.Modulo(top)`, the Euclidean remainder when the top is positive or the second is not negative |
| CommandExtensions.Not | src/PietDotNet/CommandExtensions.cs:95-98 | fails exactly on an empty stack; otherwise the top becomes 1 for 0 and 0 otherwise |
| CommandExtensions.Greater | src/PietDotNet/CommandExtensions.cs:101-104 | fails exactly below two items; otherwise 1 when second > top, else 0, replaces the two |
| CommandExtensions.Rotate | src/PietDotNet/CommandExtensions.cs:107-114 | fails exactly on an empty stack; otherwise the top is popped, position and CC stay, and DP turns by the top modulo 4 |
| CommandExtensions.Switch | src/PietDotNet/CommandExtensions.cs:117-124 | fails exactly on an empty stack; otherwise the top is popped, position and DP stay, and CC toggles by the top modulo 2 |
| CommandExtensions.Duplicate | src/PietDotNet/CommandExtensions.cs:127-130 | fails exactly on an empty stack; otherwise a copy of the top is pushed |
| CommandExtensions.Rolled | src/PietDotNet/CommandExtensions.cs:142-145 | fails exactly when the corrected roll `StackCommands.RollItems` fails, with the same exception; otherwise only the stack changes, to the rolled items (see the Findings for where the source's own roll differs) |
| CommandExtensions.RolledAgreesWithSource | src/PietDotNet/CommandExtensions.cs:142-145 | where the depth fits in an `int` and `i + roll` does not overflow, `Rolled` gives exactly what the source's `Stack.Roll()` gives, error or state |
| CommandExtensions.Roll | src/PietDotNet/CommandExtensions.cs:142-145 | the method's result is `Rolled` of the state, the corrected roll |
| CommandExtensions.PushedInput | src/PietDotNet/CommandExtensions.cs:153-164 | succeeds exactly when a value was read, pushing it and changing nothing else; otherwise it fails as the read did |
| CommandExtensions.InInt | src/PietDotNet/CommandExtensions.cs:153-157 | consumes one number answer and pushes it, failing with InvalidInput when there was none; characters and output are untouched |
| CommandExtensions.InChr | src/PietDotNet/CommandExtensions.cs:160-164 | consumes one character answer and pushes its code, failing with InvalidInput when there was none |
| CommandExtensions.ToChar | src/PietDotNet/CommandExtensions.cs:177 | the `(char)` cast keeps the value modulo 2^16, and leaves values in 0..0xFFFF unchanged |
| CommandExtensions.Written | src/PietDotNet/CommandExtensions.cs:167-180 | nothing is written from an empty stack; `OutInt` writes the top as a number, `OutChr` its low 16 bits as a character, other commands nothing |
| CommandExtensions.OutInt | src/PietDotNet/CommandExtensions.cs:167-172 | the result is `Pop` of the state and the output grows by the written number; the input queues stay |
| CommandExtensions.OutChr | src/PietDotNet/CommandExtensions.cs:175-180 | the result is `Pop` of the state and the output grows by the written character |
| CommandExtensions.Execute | src/PietDotNet/CommandExtensions.cs:32-202 | a command without an entry throws NotSupportedDelta and touches no I/O; otherwise the result is the entry's outcome (`Roll` through the corrected `Rolled`) and only the entry's own queue and output change |
| CommandExtensions.Recovered | src/PietDotNet/CommandExtensions.cs:21-29 | fails exactly when the command threw Terminated; any other exception gives back the input state |
| CommandExtensions.TryExecute | src/PietDotNet/CommandExtensions.cs:13-30 | the recovered outcome of the entry (`Roll` through the corrected `Rolled`), with its output written; the only exception let through is Terminated |
| CommandExtensions.TableCoversEveryCommand | src/PietDotNet/CommandExtensions.cs:182-202 | every one of the 18 commands has an entry |
| CommandExtensions.Outcome | src/PietDotNet/CommandExtensions.cs:182-202 | the entries `None` and `Push` never throw; an entry's result keeps the pointer's position and the block, and only `Rotate` and `Switch` change the pointer at all |
| CommandExtensions.OutcomeKeepsBlock | src/PietDotNet/CommandExtensions.cs:41-180 | no command throws NotSupportedDelta or Terminated, and none changes the current block |
| CommandExtensions.FailedCommandKeepsState | src/PietDotNet/CommandExtensions.cs:25-29 | a command that throws leaves `TryExecute` with the state it was given |
| CommandExtensions.PushPushesBlockSize | src/PietDotNet/CommandExtensions.cs:47-50 | `Push` pushes the number of codels of the current block |
| CommandExtensions.PopUndoesPush | src/PietDotNet/CommandExtensions.cs:47-130 | `Pop` after `Push` or `Duplicate` gives back the original state |
| CommandExtensions.OneTurnIsStateTurn | src/PietDotNet/CommandExtensions.cs:107-124 | a top of 1 rotates or switches exactly as the state's single turn, after popping |
| CommandExtensions.InIntThenOutInt | src/PietDotNet/CommandExtensions.cs:153-172 | a number read and written back comes out unchanged, and the state is as before the read |
| CommandExtensions.InChrThenOutChr | src/PietDotNet/CommandExtensions.cs:160-180 | a character read and written back comes out unchanged, and the state is as before the read |
| CommandExtensions.OutChrTruncates | src/PietDotNet/CommandExtensions.cs:177 | 0x10041 is written as the character 0x41 |
| ColourBlocks.ColourOf | src/PietDotNet/ColourBlock.Border.cs:6-9 | `Border` is black; any other block has its own colour |
| ColourBlocks.Value | src/PietDotNet/ColourBlock.cs:46 | `Border` has value 0 |
| ColourBlocks.HasColour | src/PietDotNet/ColourBlock.cs:40 | true exactly when the block's colour is a hue, neither black nor white |
| ColourBlocks.IsBlackBlock | src/PietDotNet/ColourBlock.cs:41 | true exactly when the block's colour is black |
| ColourBlocks.IsWhiteBlock | src/PietDotNet/ColourBlock.cs:42 | true exactly when the block's colour is white |
| ColourBlocks.Where | src/PietDotNet/ColourBlock.cs:29-36 | the filtered line holds exactly the codels with that coordinate |
| ColourBlocks.MinOf | src/PietDotNet/ColourBlock.cs:22-24 | a lower bound of the coordinates that some codel attains |
| ColourBlocks.MaxOf | src/PietDotNet/ColourBlock.cs:23-25 | an upper bound of the coordinates that some codel attains |
| ColourBlocks.FirstMin | src/PietDotNet/ColourBlock.cs:29-36 | the default codel (0, 0) for no codels; otherwise a member with the least coordinate |
| ColourBlocks.FirstMax | src/PietDotNet/ColourBlock.cs:29-36 | the default codel for no codels; otherwise a member with the greatest coordinate |
| ColourBlocks.InitEdges | src/PietDotNet/ColourBlock.cs:20-38 | every entry of the edge table is a codel of the block: no `FirstOrDefault` falls back to its default |
| ColourBlocks.EdgesAreFurthest | src/PietDotNet/ColourBlock.cs:20-38 | every entry of the edge table is the member furthest along its DP and then along its CC's side |
| ColourBlocks.TableFurthest | src/PietDotNet/ColourBlock.cs:27-37 | eight entries each furthest for their own (DP, CC) make the whole table furthest |
| ColourBlocks.RightEdges | src/PietDotNet/ColourBlock.cs:29-30 | the two DP-right entries are the furthest codels for CC left and right |
| ColourBlocks.RightLine | src/PietDotNet/ColourBlock.cs:29-30 | on the rightmost column the two picked codels are members that bound the column |
| ColourBlocks.DownEdges | src/PietDotNet/ColourBlock.cs:31-32 | the two DP-down entries are the furthest codels for CC left and right |
| ColourBlocks.DownLine | src/PietDotNet/ColourBlock.cs:31-32 | on the bottom row the two picked codels are members that bound the row |
| ColourBlocks.LeftEdges | src/PietDotNet/ColourBlock.cs:33-34 | the two DP-left entries are the furthest codels for CC left and right |
| ColourBlocks.LeftLine | src/PietDotNet/ColourBlock.cs:33-34 | on the leftmost column the two picked codels are members that bound the column |
| ColourBlocks.TopEdges | src/PietDotNet/ColourBlock.cs:35-36 | the two DP-up entries are the furthest codels for CC left and right |
| ColourBlocks.TopLine | src/PietDotNet/ColourBlock.cs:35-36 | on the top row the two picked codels are members that bound the row |
| ColourBlocks.RightFurthest | src/PietDotNet/ColourBlock.cs:29-30 | the greatest x, then the least y for CC left and the greatest for CC right, is furthest right |
| ColourBlocks.DownFurthest | src/PietDotNet/ColourBlock.cs:31-32 | the greatest y, then the greatest x for CC left and the least for CC right, is furthest down |
| ColourBlocks.LeftFurthest | src/PietDotNet/ColourBlock.cs:33-34 | the least x, then the greatest y for CC left and the least for CC right, is furthest left |
| ColourBlocks.TopFurthest | src/PietDotNet/ColourBlock.cs:35-36 | the least y, then the least x for CC left and the greatest for CC right, is furthest up |
| ColourBlocks.LineEdges | src/PietDotNet/ColourBlock.cs:29-36 | the codels picked first by least and by greatest coordinate lie on the line and bound it |
| ColourBlocks.FurthestUnique | src/PietDotNet/ColourBlock.cs:20-38 | at most one codel is furthest for a (DP, CC) |
| ColourBlocks.New | src/PietDotNet/ColourBlock.cs:13-18 | succeeds exactly for 1..int.MaxValue codels, with the given colour, the count as value and the furthest codel as each edge; too many codels give Overflow and none InvalidOperation |
| ColourBlocks.DistinctCount | src/PietDotNet/ColourBlock.cs:16 | distinct codels are as many as the set they form |
| ColourBlocks.NewDescribes | src/PietDotNet/ColourBlock.cs:13-18 | a block built from distinct codels has their colour, their number as value and the furthest codels as edges |
| ColourBlocks.DescribesUnique | src/PietDotNet/ColourBlock.cs:13-38 | two blocks built from the same colour and codels are equal |
| ColourBlocks.BitOr | src/PietDotNet/ColourBlock.cs:70 | the OR is at most the sum of its operands |
| ColourBlocks.Index | src/PietDotNet/ColourBlock.cs:70 | CC or-ed with DP shifted left one bit, in 32-bit two's complement; for a named DP and CC it is CC + 2 DP |
| ColourBlocks.SmallOr | src/PietDotNet/ColourBlock.cs:70 | the OR of a bit and an even number below 8 is their sum |
| ColourBlocks.IndexInjective | src/PietDotNet/ColourBlock.cs:70 | distinct named pointers select distinct table entries |
| ColourBlocks.Edge | src/PietDotNet/ColourBlock.cs:54 | `Border` gives NullReference; on a block it succeeds exactly for an index in 0..7, giving that entry, and IndexOutOfRange otherwise |
| ColourBlocks.Leave | src/PietDotNet/ColourBlock.cs:48-52 | succeeds exactly when the edge exists and DP is named; the pointer keeps DP and CC and stands one step past the edge |
| ColourBlocks.LeaveExits | src/PietDotNet/ColourBlock.cs:48-52 | leaving a block puts the pointer on a codel outside it, beyond every member along DP |
| ColourBlocks.StepPastFurthest | src/PietDotNet/ColourBlock.cs:50 | one step along DP from the furthest codel lands outside the block |
| ColourBlocks.Enumerate | src/PietDotNet/ColourBlock.cs:60-66 | `Border` gives ArgumentNull, as LINQ's `Select` on its null table throws; a block enumerates eight pointers, the i-th standing on edge i |
| ColourBlocks.EnumerateAgreesWithIndex | src/PietDotNet/ColourBlock.cs:60-70 | the i-th enumerated pointer is named and selects entry i of the table |
| ColourBlocks.BorderFacts | src/PietDotNet/ColourBlock.Border.cs:5-9 | `Border` is black, has value 0, has no colour, and has no edge to give or leave by |
| ColourBlocks.SingleCodelEdges | src/PietDotNet/ColourBlock.cs:13-38 | a block of one codel has that codel as all eight edges |
| Jagged.Array | src/PietDotNet/Extensions/Jagged.cs:5-14 | a negative first size, or a negative second size with rows to make, gives Overflow; otherwise `first` fresh, distinct rows, each of `second` default values |
| Programs.NeighboursAdjacent | src/PietDotNet/Program.cs:88-91 | away from the `int` limits, the four enqueued neighbours are exactly the adjacent codels |
| Programs.Program.At | src/PietDotNet/Program.cs:30 | a position off the canvas reads as Black |
| Programs.Program.OnCanvas | src/PietDotNet/Program.cs:54-60 | for a well-shaped grid, a position is on the canvas exactly when it indexes a cell of the grid |
| Programs.Program.ColouredOnCanvas | src/PietDotNet/Program.cs:30 | a position that is not black is on the canvas, away from the `int` limits |
| Programs.Program.constructor | src/PietDotNet/Program.cs:15-21 | `Width` is the number of columns, `Height` the length of the first one, and every cache cell starts empty |
| Programs.Program.SelectBlock | src/PietDotNet/Program.cs:39-51 | `Border` for a black position; otherwise the block of the position's codels, cached for each of them, or Overflow for a block over `int.MaxValue` codels; filled cache cells never change |
| Programs.Program.CachedBlock | src/PietDotNet/Program.cs:47-50 | a filled cache cell holds the block its codel belongs to, and every codel of that block holds the same block |
| Programs.Program.UncachedBlock | src/PietDotNet/Program.cs:99-102 | if one codel of a block is uncached, none of the block's codels is cached |
| Programs.Program.DetermineColourBlock | src/PietDotNet/Program.cs:66-104 | the block built from exactly the codels connected to the pointer by its colour, stored in all their cells, or Overflow |
| Programs.Program.NewBlock | src/PietDotNet/Program.cs:97 | succeeds exactly for at most `int.MaxValue` codels, with a block that describes them; otherwise Overflow |
| Programs.Program.BlockCodels | src/PietDotNet/Program.cs:66-95 | the filtered visited set is exactly the block of the pointer, listed once each |
| Programs.Program.FloodFill | src/PietDotNet/Program.cs:69-93 | the visited codels of the pointer's colour hold the pointer, lie in its block and are closed under same-coloured neighbours |
| Programs.Program.StoreBlock | src/PietDotNet/Program.cs:99-102 | the block goes into the cell of every listed codel and no other cell changes |
| Programs.Program.WriteBlock | src/PietDotNet/Program.cs:99-102 | after storing, every codel of the block has it cached, filled cells keep their blocks, and the cache stays sound |
| Programs.Program.Enumerate | src/PietDotNet/Program.cs:110-119 | the colours column by column, top to bottom |
| Programs.Program.ComponentOfItself | src/PietDotNet/Program.cs:73-92 | a coloured codel is in its own block, and the whole block has its colour and lies on the canvas |
| Programs.Program.ComponentClosed | src/PietDotNet/Program.cs:85-92 | a same-coloured neighbour of a block member is a member |
| Programs.Program.WalkBack | src/PietDotNet/Program.cs:85-92 | a walk read backwards is a walk |
| Programs.Program.WalkJoin | src/PietDotNet/Program.cs:85-92 | two walks that meet make one |
| Programs.Program.ComponentOfMember | src/PietDotNet/Program.cs:99-102 | every member of a block has that same block, so caching it in all of them is sound |
| Programs.Program.ClosedHoldsComponent | src/PietDotNet/Program.cs:75-93 | a set that holds the pointer and is closed under same-coloured neighbours holds the whole block |
| Programs.Program.WalkInside | src/PietDotNet/Program.cs:75-93 | every codel of a walk from a member of such a closed set is in the set |
| Programs.FlattenAt | src/PietDotNet/Program.cs:110-119 | in the enumeration the colour of (x, y) is at x * Height + y |
| Programs.Listed | src/PietDotNet/Program.cs:95 | the codels of the set, each once |
| States.Colour | src/PietDotNet/State.cs:22 | the block's colour, Black on `Border` |
| States.Value | src/PietDotNet/State.cs:23 | 0 on `Border` |
| States.ValueCountsCodels | src/PietDotNet/State.cs:23 | the value of a block built from a set of codels is their number, and its colour is theirs |
| States.Initial | src/PietDotNet/State.cs:5-9 | the initial pointer and empty stack, with `Border` when codel (0, 0) is black, else the block of (0, 0), or Overflow for an oversized block |
| States.SelectBlock | src/PietDotNet/State.cs:25-28 | only the block changes |
| States.WithPointerAndStack | src/PietDotNet/State.cs:35-38 | pointer and stack change, the block stays |
| States.WithPointer | src/PietDotNet/State.cs:40-43 | only the pointer changes |
| States.WithStack | src/PietDotNet/State.cs:45-48 | only the stack changes |
| States.WithOverloadsAgree | src/PietDotNet/State.cs:35-48 | setting pointer and stack at once is setting one and then the other, in either order |
| States.PointerLeaves | src/PietDotNet/State.cs:30 | fails exactly when leaving the block fails, with the same exception; stack, block, DP and CC stay |
| States.PointerLeavesBlock | src/PietDotNet/State.cs:30 | leaving a block puts the pointer past every codel of it along DP |
| States.SingleStep | src/PietDotNet/State.cs:31 | fails with ArgumentOutOfRange exactly for an unnamed DP; otherwise the position moves one codel along DP and nothing else changes |
| States.Rotate | src/PietDotNet/State.cs:32 | DP turns a quarter clockwise; nothing else changes |
| States.Switch | src/PietDotNet/State.cs:33 | CC toggles; nothing else changes |
| States.HalfTurn | src/PietDotNet/State.cs:32 | two rotations add two quarters to DP and change nothing else |
| States.QuarterTurns | src/PietDotNet/State.cs:32 | two quarter turns of a direction in 0..3 add two to it modulo four |
| States.FourTurnsCancel | src/PietDotNet/State.cs:32 | four rotations give back the state |
| States.TwoSwitchesCancel | src/PietDotNet/State.cs:33 | two switches give back the state |
| States.StepTurnStep | src/PietDotNet/State.cs:31-32 | a step, a half turn and a step bring the pointer back to its position, with the stack unchanged |
| InOuts.Head | src/PietDotNet/IO/InOut.cs:5-6 | an empty queue answers null; otherwise its first answer |
| InOuts.Tail | src/PietDotNet/IO/InOut.cs:5-6 | an empty queue stays empty; otherwise the first answer is removed |
| InOuts.InOut.constructor | src/PietDotNet/IO/InOut.cs:3-10 | the given answer queues and nothing written |
| InOuts.InOut.InInt | src/PietDotNet/IO/InOut.cs:5 | the next number answer, consumed; nothing else changes |
| InOuts.InOut.InChr | src/PietDotNet/IO/InOut.cs:6 | the next character answer, consumed; nothing else changes |
| InOuts.InOut.OutNumber | src/PietDotNet/IO/InOut.cs:8 | a number is appended to the output; the queues stay |
| InOuts.InOut.OutCharacter | src/PietDotNet/IO/InOut.cs:9 | a character is appended to the output; the queues stay |
| Binary.ElevenDigitsFit | src/PietDotNet/IO/Binary.cs:9-11 | eleven base-20 digits fit in the 48 bits of a six-byte group |
| Binary.LittleEndian | src/PietDotNet/IO/Binary.cs:63-64 | writing a number gives exactly `count` bytes |
| Binary.ValueOfLittleEndian | src/PietDotNet/IO/Binary.cs:63-64 | reading back `count` written bytes gives the number modulo 256^count |
| Binary.ValueOfSmall | src/PietDotNet/IO/Binary.cs:63-64 | a number below 256^count is read back unchanged |
| Binary.Int32Bytes | src/PietDotNet/IO/Binary.cs:63-64 | an `int` is written as four bytes |
| Binary.SignedUnsigned | src/PietDotNet/IO/Binary.cs:23-24 | reading the two's-complement bits of an `int` gives it back |
| Binary.ReadUInt32 | src/PietDotNet/IO/Binary.cs:33 | succeeds exactly when four bytes remain, below 2^32; otherwise EndOfStream |
| Binary.ReadUInt16 | src/PietDotNet/IO/Binary.cs:34 | succeeds exactly when two bytes remain, below 2^16; otherwise EndOfStream |
| Binary.ReadInt32 | src/PietDotNet/IO/Binary.cs:23-24 | succeeds exactly when four bytes remain; otherwise EndOfStream |
| Binary.Int32RoundTrip | src/PietDotNet/IO/Binary.cs:23-24 | an `int` written anywhere in a stream is read back from there |
| Binary.IndexAt | src/PietDotNet/IO/Binary.cs:73 | each stored digit is the colour's index, below 20, and looking it up in `Colour.All` gives the colour back |
| Binary.PackedAppend | src/PietDotNet/IO/Binary.cs:72-73 | packing one more digit multiplies by 20 and adds it |
| Binary.PackedBound | src/PietDotNet/IO/Binary.cs:72-73 | `n` base-20 digits pack below 20^n |
| Binary.PackedDigit | src/PietDotNet/IO/Binary.cs:72-73 | digit `k` of a packed value, counted from the most significant, is the `k`-th digit packed |
| Binary.Padding | src/PietDotNet/IO/Binary.cs:85-88 | a short group is padded to eleven digits, keeping its own digits first |
| Binary.GroupAt | src/PietDotNet/IO/Binary.cs:69-82 | buffer `g` packs digits `11g` to `11g + 10` |
| Binary.EncodedGroupsLength | src/PietDotNet/IO/Binary.cs:69-91 | there is one buffer per started group of eleven codels |
| Binary.EncodedGroupAt | src/PietDotNet/IO/Binary.cs:69-91 | the buffer of the group holding digit `p` packs eleven digits, digit `p mod 11` of which is digit `p` |
| Binary.GroupBytes | src/PietDotNet/IO/Binary.cs:77-78 | a group is written as six bytes |
| Binary.SerializedAt | src/PietDotNet/IO/Binary.cs:69-91 | group `g` sits at bytes `6g` to `6g + 5` |
| Binary.Joined | src/PietDotNet/IO/Binary.cs:35 | the joined buffer fits in 48 bits |
| Binary.OrOfDisjointBits | src/PietDotNet/IO/Binary.cs:35 | the OR of a `uint` and a `ushort` shifted past it is their sum |
| Binary.SplitBuffer | src/PietDotNet/IO/Binary.cs:77-78 | a 48-bit buffer is its low 32 bits plus its high 16 bits shifted up |
| Binary.ReadGroup | src/PietDotNet/IO/Binary.cs:33-35 | succeeds exactly when six bytes remain; otherwise EndOfStream |
| Binary.GroupRoundTrip | src/PietDotNet/IO/Binary.cs:33-35 | a group written anywhere in a stream reads back as its buffer |
| Binary.Header | src/PietDotNet/IO/Binary.cs:63-64 | the header is eight bytes |
| Binary.Run | src/PietDotNet/IO/Binary.cs:69-82 | fewer than eleven codels remain packed after the loop |
| Binary.Pad | src/PietDotNet/IO/Binary.cs:85-88 | padding shifts the short buffer up by the missing digits |
| Binary.SaveBytes | src/PietDotNet/IO/Binary.cs:57-93 | the bytes start with the header, then six bytes per group: one group for each whole eleven codels and at most one more |
| Binary.Save | src/PietDotNet/IO/Binary.cs:57-93 | the bytes written are those of `SaveBytes` on the program's width, height and codels in enumeration order |
| Binary.SaveCodels | src/PietDotNet/IO/Binary.cs:66-91 | the header followed by the serialized whole groups and the closing group |
| Binary.Close | src/PietDotNet/IO/Binary.cs:83-91 | the padded short group is written after the others when the buffer is not zero |
| Binary.Push | src/PietDotNet/IO/Binary.cs:71-81 | the loop body advances the packing by one codel, writing a full group |
| Binary.ShiftedPads | src/PietDotNet/IO/Binary.cs:85-88 | shifting the buffer `n` times appends `n` zero digits |
| Binary.RunPacksGroups | src/PietDotNet/IO/Binary.cs:69-82 | after `k` whole groups and fewer than eleven more codels the whole groups are written and the rest is packed in the buffer |
| Binary.SavedGroups | src/PietDotNet/IO/Binary.cs:66-91 | the groups written are the whole groups, then the padded rest only when its packed value is not zero |
| Binary.PackedZero | src/PietDotNet/IO/Binary.cs:83 | a packed value is zero exactly when every digit is zero |
| Binary.BlackIsZero | src/PietDotNet/IO/Binary.cs:73 | a colour's index is zero exactly for black |
| Binary.RestOfIndices | src/PietDotNet/IO/Binary.cs:83-91 | the rest's digits are the indices of the codels after the last whole group |
| Binary.SaveAgreesWithEncoded | src/PietDotNet/IO/Binary.cs:57-93 | `Save` writes the format's bytes unless the codels after the last whole group are all black |
| Binary.SaveDropsBlackTail | src/PietDotNet/IO/Binary.cs:83-91 | when those codels are all black, the output is one group short of the format |
| Binary.SavedBlackCodelFailsToLoad | src/PietDotNet/IO/Binary.cs:83-91 | a one-codel black program saves as the header alone, which fails to load with EndOfStream |
| Binary.GroupCount | src/PietDotNet/IO/Binary.cs:31-52 | the number of groups is the least whose eleven codels each cover `width * height` |
| Binary.Buffers | src/PietDotNet/IO/Binary.cs:31-35 | one buffer per group read |
| Binary.Digit | src/PietDotNet/IO/Binary.cs:38-50 | each unpacked digit is below 20 |
| Binary.Grid | src/PietDotNet/IO/Binary.cs:40-47 | the grid has `width` columns of `height` colours |
| Binary.Decode | src/PietDotNet/IO/Binary.cs:15-55 | fails only with EndOfStream, Overflow or IndexOutOfRange; a result is a non-empty rectangular grid of at most `int.MaxValue` cells (a larger product is Overflow, see Left out) |
| Binary.ReadSerialized | src/PietDotNet/IO/Binary.cs:33-35 | group `g` of serialized buffers reads back after the header |
| Binary.BuffersOfSerialized | src/PietDotNet/IO/Binary.cs:31-35 | reading back serialized groups gives the buffers written |
| Binary.EncodedGroupsFit | src/PietDotNet/IO/Binary.cs:9-11 | every buffer of the format fits in the six bytes of its group |
| Binary.DigitOfEncoded | src/PietDotNet/IO/Binary.cs:38-50 | every digit the format stores is unpacked from its buffer |
| Binary.HeaderRoundTrip | src/PietDotNet/IO/Binary.cs:23-24 | the width is read back from offset 0 and the height from offset 4 |
| Binary.CodelOfEncoded | src/PietDotNet/IO/Binary.cs:38-50 | each codel is unpacked from the format's buffers at its position |
| Binary.GridAt | src/PietDotNet/IO/Binary.cs:40-47 | codel (x, y) of the grid is the stored codel `x * height + y` |
| Binary.GridOfEncoded | src/PietDotNet/IO/Binary.cs:31-52 | the grid unpacked from the format's buffers is the program's |
| Binary.DecodeGrid | src/PietDotNet/IO/Binary.cs:15-55 | a stream with a sound header and enough groups decodes to the grid its buffers hold |
| Binary.LoadEncoded | src/PietDotNet/IO/Binary.cs:15-93 | loading what the format holds for a program gives the program back |
| Binary.EncodedStream | src/PietDotNet/IO/Binary.cs:57-93 | the format's bytes start with the width and height and hold one readable group per started eleven codels |
| Binary.StreamOfGroups | src/PietDotNet/IO/Binary.cs:23-35 | a header and groups that fit read back as the dimensions and the buffers |
| Binary.CellOf | src/PietDotNet/IO/Binary.cs:40-42 | a position below `width * height` is cell `(pos / height, pos mod height)` |
| Binary.CellUnique | src/PietDotNet/IO/Binary.cs:40-42 | cell (x, y) is at one position only |
| Binary.DecodeShort | src/PietDotNet/IO/Binary.cs:31-34 | a stream whose groups end too early fails with EndOfStream |
| Binary.Unpack | src/PietDotNet/IO/Binary.cs:36-50 | the inner loop sets the cells of the group's eleven positions that lie inside the grid to their digits' colours and leaves the other cells alone |
| Binary.Store | src/PietDotNet/IO/Binary.cs:45-48 | only the cell at `pos` changes, to the colour |
| Binary.Columns | src/PietDotNet/IO/Binary.cs:54 | the columns of the filled arrays are the grid the buffers hold |
| Binary.Fill | src/PietDotNet/IO/Binary.cs:28-52 | fails with EndOfStream exactly when the stream holds too few groups; otherwise every cell holds its stored codel |
| Binary.Load | src/PietDotNet/IO/Binary.cs:15-55 | succeeds exactly when `Decode` does, failing with the same exception; otherwise a fresh, valid program whose columns are the decoded grid (products above `int.MaxValue` and the `int` wrap of the positions are not modelled, see Left out) |
| Interpreters.Lookup | src/PietDotNet/Interpreter.cs:132-145 | succeeds exactly for a delta in the dictionary, giving its command; otherwise InvalidOperation |
| Interpreters.TableCoversEveryDelta | src/PietDotNet/Interpreter.cs:453-473 | every delta has a command, so `Execute` never throws for want of one |
| Interpreters.TableIsOneToOne | src/PietDotNet/Interpreter.cs:453-473 | no two deltas map to the same command |
| Interpreters.Delta | src/PietDotNet/Interpreter.cs:132 | the hue change modulo 6 and the lightness change modulo 3 from the block left to the block entered |
| Interpreters.SameBlockIsNone | src/PietDotNet/Interpreter.cs:132-134 | staying in one block is the zero delta, whose command is `None` |
| Interpreters.Rolled | src/PietDotNet/Interpreter.cs:369-387 | rolling keeps the number of items and every item below the depth |
| Interpreters.Effect | src/PietDotNet/Interpreter.cs:148-451 | fails, with Overflow, exactly for long.MinValue divided by -1; commands other than reading and writing leave the I/O untouched |
| Interpreters.UnchangedExactlyWhenSkipped | src/PietDotNet/Interpreter.cs:148-451 | a command other than reading input leaves the machine as it was exactly when its guard fails or it is `None` |
| Interpreters.NoInputPushesNothing | src/PietDotNet/Interpreter.cs:395-421 | a read with no value only consumes the answer; a read with a value pushes it |
| Interpreters.LogicAgreesWithStackCommands | src/PietDotNet/Interpreter.cs:161-172 | where the guards pass, `Pop`, `Not`, `Greater` and `Duplicate` compute what the immutable stack commands compute |
| Interpreters.AddAgreesWithStackCommands | src/PietDotNet/Interpreter.cs:175-190 | where the guard passes, `Add` computes what `StackCommands.Add` computes |
| Interpreters.SubtractAgreesWithStackCommands | src/PietDotNet/Interpreter.cs:193-208 | where the guard passes, `Subtract` computes what `StackCommands.Subtract` computes |
| Interpreters.MultiplyAgreesWithStackCommands | src/PietDotNet/Interpreter.cs:211-226 | where the guard passes, `Multiply` computes what `StackCommands.Multiply` computes |
| Interpreters.DivideAgreesWithStackCommands | src/PietDotNet/Interpreter.cs:232-252 | where neither the guard nor overflow stops it, `Divide` computes what `StackCommands.Divide` computes |
| Interpreters.ModAgreesWithStackCommands | src/PietDotNet/Interpreter.cs:258-278 | for the positive divisors the guard lets through, `Mod` computes what `StackCommands.Modulo` computes |
| Interpreters.RollAgreesWithStackCommands | src/PietDotNet/Interpreter.cs:369-387 | where the guard passes and the roll count fits in an `int`, `Roll` rolls as `StackCommands.Roll` does |
| Interpreters.AttemptStep | src/PietDotNet/Interpreter.cs:90-101 | each retry, counting down from eight, turns one attempt's DP and CC into the next: CC toggles on an even count and DP rotates on an odd one |
| Interpreters.AttemptsComeBack | src/PietDotNet/Interpreter.cs:90-101 | the first retry toggles CC, the second also rotates DP, and after eight retries DP and CC are back where they started |
| Interpreters.RetryAlong | src/PietDotNet/Interpreter.cs:85-122 | along a chain of retries, the interpreter gives up exactly when every later attempt is blocked, and then stands at the chain's last pointer |
| Interpreters.Attempts | src/PietDotNet/Interpreter.cs:90-101 | the attempts are nine pointers, the start and one per retry |
| Interpreters.AttemptAt | src/PietDotNet/Interpreter.cs:90-101 | entry `i` of the chain is attempt `i` |
| Interpreters.BoxedIn | src/PietDotNet/Interpreter.cs:85-122 | `OnBlack` gives up exactly when all eight attempts are blocked, and then DP and CC are as they were |
| Interpreters.NextInSameBlock | src/PietDotNet/Interpreter.cs:130-148 | executing without changing blocks changes nothing |
| Interpreters.Interpreter.constructor | src/PietDotNet/Interpreter.cs:10-26 | an empty stack in the start block, DP right, CC left, executing, no commands counted |
| Interpreters.Interpreter.Run | src/PietDotNet/Interpreter.cs:29-37 | on a normal end the interpreter has stopped after at least one command, never more than the budget allows, and either the budget is spent or the block was boxed in |
| Interpreters.Interpreter.Traverse | src/PietDotNet/Interpreter.cs:44-72 | entering a block updates the current block, DP and CC; being boxed in stops execution; sliding into white fails with NotImplemented |
| Interpreters.Interpreter.OnBlack | src/PietDotNet/Interpreter.cs:85-122 | the loop's outcome is `Retry` from eight: true and the block entered, false and the original DP and CC, or NotImplemented on white |
| Interpreters.Interpreter.Execute | src/PietDotNet/Interpreter.cs:130-146 | fails exactly when the command does; otherwise the machine is the command's effect, the previous block becomes the current one, one more command is counted, and execution stops once the budget is reached |
| Interpreters.Interpreter.Invoke | src/PietDotNet/Interpreter.cs:453-473 | the machine after the command is its `Effect` |
| Interpreters.Interpreter.NoCommand | src/PietDotNet/Interpreter.cs:148 | the machine is unchanged |
| Interpreters.Interpreter.Push | src/PietDotNet/Interpreter.cs:154-158 | the machine is the effect of `Push` with the size of the block left |
| Interpreters.Interpreter.Pop | src/PietDotNet/Interpreter.cs:161-172 | the machine is the effect of `Pop` |
| Interpreters.Interpreter.Add | src/PietDotNet/Interpreter.cs:175-190 | the machine is the effect of `Add` |
| Interpreters.Interpreter.Subtract | src/PietDotNet/Interpreter.cs:193-208 | the machine is the effect of `Subtract` |
| Interpreters.Interpreter.Multiply | src/PietDotNet/Interpreter.cs:211-226 | the machine is the effect of `Multiply` |
| Interpreters.Interpreter.Divide | src/PietDotNet/Interpreter.cs:232-252 | fails exactly when `Effect` of `Divide` does; otherwise the machine is that effect |
| Interpreters.Interpreter.Mod | src/PietDotNet/Interpreter.cs:258-278 | the machine is the effect of `Mod` |
| Interpreters.Interpreter.Not | src/PietDotNet/Interpreter.cs:281-294 | the machine is the effect of `Not` |
| Interpreters.Interpreter.Greater | src/PietDotNet/Interpreter.cs:297-312 | the machine is the effect of `Greater` |
| Interpreters.Interpreter.Pointer | src/PietDotNet/Interpreter.cs:315-327 | the machine is the effect of `Pointer` |
| Interpreters.Interpreter.Switch | src/PietDotNet/Interpreter.cs:330-342 | the machine is the effect of `Switch` |
| Interpreters.Interpreter.Duplicate | src/PietDotNet/Interpreter.cs:345-357 | the machine is the effect of `Duplicate` |
| Interpreters.Interpreter.Roll | src/PietDotNet/Interpreter.cs:369-387 | the machine is the effect of `Roll` |
| Interpreters.Interpreter.InInt | src/PietDotNet/Interpreter.cs:395-407 | the machine is the effect of `InInt` on the answer queue |
| Interpreters.Interpreter.InChr | src/PietDotNet/Interpreter.cs:410-421 | the machine is the effect of `InChr` on the answer queue |
| Interpreters.Interpreter.OutInt | src/PietDotNet/Interpreter.cs:424-436 | the machine, output included, is the effect of `OutInt` |
| Interpreters.Interpreter.OutChr | src/PietDotNet/Interpreter.cs:439-451 | the machine, output included, is the effect of `OutChr` |
| CSharp.Wrap | src/PietDotNet/StackCommands.cs:12-15 | unchecked arithmetic gives a value of the width, and a value already in range stays unchanged |
| CSharp.Div | src/PietDotNet/StackCommands.cs:40-42 | C# division fails exactly for a zero divisor (DivideByZero) or the minimum divided by -1; otherwise it gives the truncated quotient, within the width |
| CSharp.QuotRemT | src/PietDotNet/StackCommands.cs:40-42 | the truncated quotient and remainder recompose the dividend |
| CSharp.Rem | src/PietDotNet/Extensions/NumberExtensions.cs:9 | C# `%` fails exactly as division does; otherwise it gives the truncated remainder |
| CSharp.RemT | src/PietDotNet/Extensions/NumberExtensions.cs:9 | the truncated remainder is smaller than the divisor in size and has the dividend's sign |
| CSharp.RemTAgainstEuclidean | src/PietDotNet/Extensions/NumberExtensions.cs:9-10 | a non-negative truncated remainder is the Euclidean one, and a negative one plus the divisor's size is |

## Left out

- Programs.Program.constructor: requires a non-empty grid of equal-length columns. On an empty array the source throws IndexOutOfRangeException reading `codels[0]`, and a ragged array would fail later, on the first out-of-range read. Both callers, `Binary.Load` and the bitmap loader, always build a non-empty rectangular grid.
- `Program.SelectBlock(State)` (Program.cs:33) is the position overload applied to `state.Pointer.Position`. Only the position overload is modelled.
- The `counter` of `DetermineColourBlock` is incremented and never read, so it is not modelled. `Programs.Listed` lists the visited set's codels in an unspecified order, because the order of a `HashSet` is unspecified; the edge table does not depend on that order.
- `Guard.NotNull` on programs, streams and colours is not modelled. Dafny values cannot be null.
- `ToString`, `Colour.Debug`, `Delta.ToString` and the debugger views are display only and not modelled. So is logging: `ILogger` calls in `TryExecute`, in the run loop and in the older interpreter's commands.
- `Codel.GetHashCode` and `Pointer.GetHashCode` are not modelled. They only place values in hash tables, and no modelled behaviour depends on them.
- `Binary.Load` and `Binary.Save` work on byte sequences in place of streams. `Flush` is not modelled.
- `Binary.Load`: null cells of the jagged array are modelled as Black. Within the products the model accepts (see the next two lines), every cell below `width * height` is written before the program is built, so no null cell can be read.
- Binary.Load: the source computes `size = width * height` (Binary.cs:29) and the positions `length + codel` and `length += 11` (Binary.cs:40 and Binary.cs:51) in unchecked `int`. The model instead fails with Overflow whenever the product exceeds `int.MaxValue`, standing for a jagged array too large to allocate. In the source a wrapped product that does get allocated reads no group and builds a program of null cells.
- Binary.Decode: for the same reason as `Binary.Load`, it gives Overflow for a product above `int.MaxValue`. It also gives a grid for a product within 10 of `int.MaxValue` whose last group straddles it, where the source's wrapped `pos` would make it throw IndexOutOfRangeException.
- `Binary.Save`: the `ulong` buffer never wraps. Eleven base-20 digits stay below 2^48, which `Binary.ElevenDigitsFit` proves, so unbounded `nat` arithmetic is exact.
- `InOuts.InOut` stands for `IInOut`/`InOut`, whose console implementations are not part of this model. Answers come from two queues of `long?` and `char?`, and output is appended to a sequence.
- Interpreters: the mutable `State` that the older `Interpreter.cs` drives is not part of this model. That covers `MoveForward`, `MoveAside`, `UpdateCurrent`, `ResetActive`, `OnColourBlock`, `RotateDP`, `SwitchCC` and the mutable `Stack` with `PopInt`, `PopChar` and `Roll(int, int)`. A `World` value stands for the program: each block's colour and size, and where leaving a block by a (DP, CC) ends up (another block, black or the edge, or white).
- Interpreters.Interpreter.Traverse: white is not modelled beyond its outcome. `OnWhite` and the white branch of `OnBlack` throw NotImplementedException, and the model gives NotImplemented there.
- Interpreters.Rolled: stands for the mutable `Stack.Roll(int, int)`, which is not part of this model. It rolls as `StackCommands.Rotated` does, with the number of rolls truncated to `int`. The `(int)` cast of the depth is not modelled: the guard already keeps the depth between 0 and `Count - 2`.
- Interpreters.Interpreter.Run: the source's default `ConsoleInOut` and `ConsoleLogger` are not modelled; the input/output is a parameter.
- CommandExtensions.Rolled: runs the corrected roll (`StackCommands.RollItems`, as the Findings describe), not the source's `Stack.Roll()` (`StackCommands.RollAsWritten`). The two differ for a depth above `int.MaxValue`, which the source truncates and the model rejects with InsufficientStackSize, and for a roll where `i + roll` overflows `long`, where the source loses an item and the model rotates. `CommandExtensions.RolledAgreesWithSource` proves they agree everywhere else.
- CommandExtensions.Roll: returns `Rolled`, so it runs the corrected roll, as the line above says.
- CommandExtensions.Execute: dispatches the Roll command to `Rolled`, the corrected roll.
- CommandExtensions.TryExecute: runs `Execute`, so the Roll command takes the corrected roll.
- Interpreters.Interpreter.constructor: the source's default `maxCommands = long.MaxValue` (Interpreter.cs:10) is not modelled; the command budget is always passed in.
- Interpreters.Effect: the older interpreter's `Stack.PopChar` is not part of this model. It is taken to cast the popped `long` to `char`, keeping its low 16 bits, as `CommandExtensions.ToChar` does.

## Findings

| source | as written | input that shows it | evidently intended | confidence | as-written member | corrected member |
|---|---|---|---|---|---|---|
| src/PietDotNet/StackCommands.cs:106 | the index `(i + roll).Modulo(depth)` adds in unchecked `long`, so a large roll wraps negative before the modulo | rolling [10, 20, 30] (depth 3) by long.MaxValue gives [20, 20, 30]: 10 is lost and 20 doubled | a rotation by `roll mod depth`, giving [20, 30, 10] (`StackCommands.RotatedByMaxValue`); a rotation is always a permutation (`StackCommands.RotatedIsPermutation`) | not executed | StackCommands.RollAsWrittenDuplicatesAnItem | StackCommands.Roll |
| src/PietDotNet/StackCommands.cs:94 | `(int)stack.Second()` truncates the depth to its low 32 bits before the range checks | depth 2^32 + 3 over three items is truncated to 3 and the roll goes ahead | the depth is compared as the `long` it is and rejected with InsufficientStackSize | not executed | StackCommands.RollAsWrittenTruncatesDepth | StackCommands.RollRejectsDepthBeyondStack |
| src/PietDotNet/IO/Binary.cs:83 | the short last group is written only when its packed buffer is not zero | a 1×1 program whose only codel is black saves as the header alone, and loading that fails with EndOfStream; in general the output is one group short whenever the codels after the last whole group are all black (`Binary.SaveDropsBlackTail`) | the last group is written whenever codels remain after the whole groups, so loading gives the program back; `Save` writes exactly that in every other case (`Binary.SaveAgreesWithEncoded`) | not executed | Binary.SavedBlackCodelFailsToLoad | Binary.LoadEncoded |
