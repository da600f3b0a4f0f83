// PietDotNet.StackCommands: the Piet instructions that only work on the
// stack. Each pops its operands from a stack and returns a new one; `long`
// arithmetic is unchecked and wraps around.
module StackCommands {
  import opened Exceptions
  import opened CSharp
  import opened Stacks
  import NumberExtensions

  /** `First`: the top item. */
  function First(stack: Stack): (r: Result<Int64>)
    ensures r.Ok? <==> Count(stack) >= 1
    ensures r.Err? ==> r.error == InsufficientStackSize
    ensures r.Ok? ==> r.value == Items(stack)[0]
  {
    Peek(stack)
  }

  /** `Second`: the item below the top. */
  function Second(stack: Stack): (r: Result<Int64>)
    ensures r.Ok? <==> Count(stack) >= 2
    ensures r.Err? ==> r.error == InsufficientStackSize
    ensures r.Ok? ==> r.value == Items(stack)[1]
  {
    var below :- Pop(stack);
    Peek(below)
  }

  /** `Add`: pops two items and pushes their sum, wrapped to `long`. */
  function Add(stack: Stack): (r: Result<Stack>)
    ensures r.Ok? <==> Count(stack) >= 2
    ensures r.Err? ==> r.error == InsufficientStackSize
    ensures r.Ok? ==> Items(r.value) == [Wrap(Items(stack)[1] as int + Items(stack)[0], Long)] + Items(stack)[2..]
  {
    var updated :- PopN(stack, 2);
    Ok(Push(updated, Wrap(Second(stack).value as int + First(stack).value, Long)))
  }

  /** `Subtract`: pops two items and pushes second minus first, wrapped to `long`. */
  function Subtract(stack: Stack): (r: Result<Stack>)
    ensures r.Ok? <==> Count(stack) >= 2
    ensures r.Err? ==> r.error == InsufficientStackSize
    ensures r.Ok? ==> Items(r.value) == [Wrap(Items(stack)[1] as int - Items(stack)[0], Long)] + Items(stack)[2..]
  {
    var updated :- PopN(stack, 2);
    Ok(Push(updated, Wrap(Second(stack).value as int - First(stack).value, Long)))
  }

  /** `Multiply`: pops two items and pushes their product, wrapped to `long`. */
  function Multiply(stack: Stack): (r: Result<Stack>)
    ensures r.Ok? <==> Count(stack) >= 2
    ensures r.Err? ==> r.error == InsufficientStackSize
    ensures r.Ok? ==> Items(r.value) == [Wrap(Items(stack)[1] as int * Items(stack)[0], Long)] + Items(stack)[2..]
  {
    var updated :- PopN(stack, 2);
    Ok(Push(updated, Wrap(Second(stack).value as int * First(stack).value, Long)))
  }

  /**
   * `Divide`: pops two items and pushes second / first, truncated toward
   * zero. A zero divisor throws DivideByZeroException, and
   * long.MinValue / -1 an OverflowException.
   */
  function Divide(stack: Stack): (r: Result<Stack>)
    ensures Count(stack) < 2 ==> r == Err(InsufficientStackSize)
    ensures Count(stack) >= 2 ==>
      (r.Err? <==> Items(stack)[0] == 0 || (Items(stack)[1] == MinInt64 && Items(stack)[0] == -1))
    ensures Count(stack) >= 2 && Items(stack)[0] == 0 ==> r == Err(DivideByZero)
    ensures r.Ok? ==> Items(r.value) == [Quot(Items(stack)[1], Items(stack)[0])] + Items(stack)[2..]
  {
    var updated :- PopN(stack, 2);
    var quotient :- Div(Second(stack).value, First(stack).value, Long);
    Ok(Push(updated, quotient))
  }

  /**
   * `Modulo`: pops two items and pushes `second.Modulo(first)`: the
   * truncated remainder, plus the divisor when that remainder is negative.
   * It is never negative unless both operands are, so 42 modulo -11 is 9
   * and not of the divisor's sign; a zero divisor throws DivideByZeroException.
   */
  function Modulo(stack: Stack): (r: Result<Stack>)
    ensures Count(stack) < 2 ==> r == Err(InsufficientStackSize)
    ensures Count(stack) >= 2 ==>
      (r.Err? <==> Items(stack)[0] == 0 || (Items(stack)[1] == MinInt64 && Items(stack)[0] == -1))
    ensures Count(stack) >= 2 && Items(stack)[0] == 0 ==> r == Err(DivideByZero)
    ensures r.Ok? ==> Count(r.value) == Count(stack) - 1 && Items(r.value)[1..] == Items(stack)[2..]
    ensures r.Ok? && Items(stack)[0] > 0 ==>
      Items(r.value)[0] == Items(stack)[1] % Items(stack)[0] && 0 <= Items(r.value)[0] < Items(stack)[0]
    ensures r.Ok? && Items(stack)[1] >= 0 ==> Items(r.value)[0] == Items(stack)[1] % Items(stack)[0]
    ensures r.Ok? ==> Items(r.value)[0] == NumberExtensions.Modulo(Items(stack)[1], Items(stack)[0], Long).value
  {
    var updated :- PopN(stack, 2);
    var modulo :- NumberExtensions.Modulo(Second(stack).value, First(stack).value, Long);
    Ok(Push(updated, modulo))
  }

  /** `Not`: replaces the top with 1 if it was 0 and with 0 otherwise. */
  function Not(stack: Stack): (r: Result<Stack>)
    ensures r.Ok? <==> Count(stack) >= 1
    ensures r.Err? ==> r.error == InsufficientStackSize
    ensures r.Ok? ==> Items(r.value) == [if Items(stack)[0] == 0 then 1 else 0] + Items(stack)[1..]
  {
    var updated :- Pop(stack);
    Ok(PushBool(updated, First(stack).value == 0))
  }

  /** `Greater`: pops two items and pushes 1 if second > first, else 0. */
  function Greater(stack: Stack): (r: Result<Stack>)
    ensures r.Ok? <==> Count(stack) >= 2
    ensures r.Err? ==> r.error == InsufficientStackSize
    ensures r.Ok? ==> Items(r.value) == [if Items(stack)[1] > Items(stack)[0] then 1 else 0] + Items(stack)[2..]
  {
    var updated :- PopN(stack, 2);
    Ok(PushBool(updated, Second(stack).value > First(stack).value))
  }

  /** `Duplicate`: pushes a copy of the top item. */
  function Duplicate(stack: Stack): (r: Result<Stack>)
    ensures r.Ok? <==> Count(stack) >= 1
    ensures r.Err? ==> r.error == InsufficientStackSize
    ensures r.Ok? ==> Items(r.value) == [Items(stack)[0]] + Items(stack)
  {
    var top :- Peek(stack);
    Ok(Push(stack, top))
  }

  /** The unit tests' arithmetic cases. */
  lemma ArithmeticExamples()
    ensures Add(Push(Push(Empty, 17), 25)) == Ok(Push(Empty, 42))
    ensures Subtract(Push(Push(Empty, 17), 25)) == Ok(Push(Empty, -8))
    ensures Multiply(Push(Push(Empty, 17), 25)) == Ok(Push(Empty, 425))
    ensures Add(Push(Empty, 42)) == Err(InsufficientStackSize)
  {
  }

  /** The unit tests' division cases. */
  lemma DivisionExamples()
    ensures Divide(Push(Push(Empty, 42), 14)) == Ok(Push(Empty, 3))
    ensures Divide(Push(Push(Empty, 42), 0)) == Err(DivideByZero)
    ensures Modulo(Push(Push(Empty, -42), 5)) == Ok(Push(Empty, 3))
    ensures Modulo(Push(Push(Empty, 42), -11)) == Ok(Push(Empty, 9))
  {
    NumberExtensions.ModuloExamples();
  }

  /** The unit tests' comparison, negation and duplication cases. */
  lemma LogicExamples()
    ensures Greater(Push(Push(Empty, 42), 17)) == Ok(Push(Empty, 1))
    ensures Greater(Push(Push(Empty, 17), 42)) == Ok(Push(Empty, 0))
    ensures Not(Push(Empty, 0)) == Ok(Push(Empty, 1))
    ensures Greater(Push(Push(Empty, 42), 42)) == Ok(Push(Empty, 0))
    ensures Not(Push(Empty, 17)) == Ok(Push(Empty, 0))
    ensures Not(Push(Empty, 42)) == Ok(Push(Empty, 0))
    ensures Duplicate(Push(Empty, 42)) == Ok(Push(Push(Empty, 42), 42))
    ensures Not(Empty) == Err(InsufficientStackSize)
    ensures Greater(Push(Empty, 42)) == Err(InsufficientStackSize)
    ensures Duplicate(Empty) == Err(InsufficientStackSize)
  {
  }

  /** Unchecked `long` addition wraps past long.MaxValue. */
  lemma AddWrapsAround()
    ensures Add(Push(Push(Empty, MaxInt64), 1)) == Ok(Push(Empty, MinInt64))
  {
    WrapPastMaxValue(MaxInt64 + 1);
  }

  // ----- Roll -----

  /**
   * Rolling the top `depth` items `roll` times: item `j` of the result is
   * item `(j + roll) mod depth` of the input; the items below `depth` stay.
   */
  function Rotated(items: seq<Int64>, depth: nat, roll: int): (r: seq<Int64>)
    requires 0 < depth <= |items|
    ensures |r| == |items| && r[depth..] == items[depth..]
  {
    seq(depth, j requires 0 <= j < depth => items[(j + roll) % depth]) + items[depth..]
  }

  /**
   * What `Roll` does to the items of a stack, top first, or what it throws:
   * only the two operands are lost, and the rest is reordered.
   */
  function RollItems(items: seq<Int64>): (r: Result<seq<Int64>>)
    ensures r.Err? ==> r.error in {InsufficientStackSize, NegativeDepth}
    ensures r.Ok? ==> |items| >= 2 && multiset(r.value) == multiset(items[2..])
  {
    if |items| < 2 then Err(InsufficientStackSize)
    else if items[1] < 0 then Err(NegativeDepth)
    else if items[1] > |items| - 2 then Err(InsufficientStackSize)
    else if items[1] == 0 then Ok(items[2..])
    else
      RotatedIsPermutation(items[2..], items[1], items[0]);
      Ok(Rotated(items[2..], items[1], items[0]))
  }

  /** The items of a resulting stack, or the exception. */
  function ItemsOf(r: Result<Stack>): Result<seq<Int64>>
  {
    match r
    case Ok(stack) => Ok(Items(stack))
    case Err(error) => Err(error)
  }

  /** Where `i + roll` lands modulo `depth`, given `shift == roll mod depth`. */
  lemma ShiftIndex(i: int, roll: int, depth: int, shift: int)
    requires 0 <= i < depth && shift == roll % depth
    ensures (i + roll) % depth == if i + shift < depth then i + shift else i + shift - depth
  {
    var q := roll / depth;
    assert roll == depth * q + shift;
    if i + shift < depth {
      RemainderUnique(i + roll, depth, q, i + shift);
    } else {
      assert i + roll == depth * (q + 1) + (i + shift - depth);
      RemainderUnique(i + roll, depth, q + 1, i + shift - depth);
    }
  }

  /** A roll by a multiple of the depth leaves the items as they were. */
  lemma RotatedByMultiple(items: seq<Int64>, depth: nat, roll: int)
    requires 0 < depth <= |items| && roll % depth == 0
    ensures Rotated(items, depth, roll) == items
  {
    var r := Rotated(items, depth, roll);
    forall j | 0 <= j < depth
      ensures r[j] == items[j]
    {
      ShiftIndex(j, roll, depth, 0);
    }
  }

  /**
   * A rotation is a splice: the items from `roll mod depth` up to `depth`,
   * then the ones before them, then the rest.
   */
  lemma RotatedIsSplice(items: seq<Int64>, depth: nat, roll: int)
    requires 0 < depth <= |items|
    ensures Rotated(items, depth, roll)
      == items[roll % depth..depth] + items[..roll % depth] + items[depth..]
  {
    var s := roll % depth;
    var r := Rotated(items, depth, roll);
    var t := items[s..depth] + items[..s] + items[depth..];
    forall j | 0 <= j < |items|
      ensures r[j] == t[j]
    {
      if j < depth {
        ShiftIndex(j, roll, depth, s);
      }
    }
  }

  /** Rolling only reorders the items: the result is a permutation. */
  lemma RotatedIsPermutation(items: seq<Int64>, depth: nat, roll: int)
    requires 0 < depth <= |items|
    ensures multiset(Rotated(items, depth, roll)) == multiset(items)
  {
    var s := roll % depth;
    RotatedIsSplice(items, depth, roll);
    var front, middle, rest := items[..s], items[s..depth], items[depth..];
    assert items == front + middle + rest;
    calc {
      multiset(Rotated(items, depth, roll));
      multiset(middle + front + rest);
      multiset(middle) + multiset(front) + multiset(rest);
      multiset(front + middle + rest);
    }
  }

  /**
   * One roll buries the top item `depth` deep and brings the items above it
   * up by one place.
   */
  lemma RotatedOnce(items: seq<Int64>, depth: nat)
    requires 0 < depth <= |items|
    ensures Rotated(items, depth, 1) == items[1..depth] + [items[0]] + items[depth..]
  {
    RotatedIsSplice(items, depth, 1);
    if depth == 1 {
      assert 1 % depth == 0;
    } else {
      assert 1 % depth == 1;
    }
  }

  /** A negative roll rolls in the opposite direction: `-roll` undoes `roll`. */
  lemma RotatedRoundTrip(items: seq<Int64>, depth: nat, roll: int)
    requires 0 < depth <= |items|
    ensures Rotated(Rotated(items, depth, roll), depth, -roll) == items
  {
    var once := Rotated(items, depth, roll);
    var twice := Rotated(once, depth, -roll);
    forall j | 0 <= j < depth
      ensures twice[j] == items[j]
    {
      var p := (j - roll) % depth;
      assert twice[j] == once[p];
      ChangeLeadsTo(j, roll, p, depth);
    }
  }

  /** Item `i` of a rotation, given `shift == roll mod depth`, without a remainder left. */
  lemma RotatedAt(items: seq<Int64>, depth: nat, roll: int, shift: int, i: int)
    requires 0 <= i < depth <= |items| && shift == roll % depth
    ensures Rotated(items, depth, roll)[i] == items[if i + shift < depth then i + shift else i + shift - depth]
  {
    ShiftIndex(i, roll, depth, shift);
  }

  /**
   * `Roll`, with the depth compared as the `long` it is and the index
   * `i + roll mod depth` reduced without overflow.
   */
  method Roll(stack: Stack) returns (r: Result<Stack>)
    ensures ItemsOf(r) == RollItems(Items(stack))
  {
    var popped := PopN(stack, 2);
    if popped.Err? {
      return Err(popped.error);
    }
    var updated := popped.value;
    var depth := Second(stack).value;
    var roll := First(stack).value;
    if depth < 0 {
      return Err(NegativeDepth);
    }
    if depth > Count(updated) {
      return Err(InsufficientStackSize);
    }
    if depth == 0 {
      return Ok(updated);
    }
    var shift := NumberExtensions.Modulo(roll, depth, Long).value;
    if shift == 0 {
      RotatedByMultiple(Items(updated), depth, roll);
      return Ok(updated);
    }
    var rolled := RollWithin(updated, depth, roll, shift);
    return Ok(rolled);
  }

  /**
   * The loop of `Roll`: on the stack without the two operands, it pushes,
   * for `i` from `depth - 1` down to 0, the item `(i + roll) mod depth`
   * places below the top onto the stack with `depth` items popped.
   */
  method RollWithin(updated: Stack, depth: nat, roll: int, shift: int) returns (rolled: Stack)
    requires 0 < depth <= Count(updated) && shift == roll % depth
    ensures Items(rolled) == Rotated(Items(updated), depth, roll)
  {
    ghost var target := Rotated(Items(updated), depth, roll);
    rolled := PopN(updated, depth).value;
    var i := depth;
    while i > 0
      invariant 0 <= i <= depth
      invariant Items(rolled) == target[i..]
    {
      i := i - 1;
      var index := i + shift;
      if index >= depth {
        index := index - depth;
      }
      RotatedAt(Items(updated), depth, roll, shift, i);
      assert target[i..] == [target[i]] + target[i + 1..];
      rolled := Push(rolled, ItemAt(updated, index));
    }
  }

  /** The unit tests' `Roll` cases, on the items a stack holds top first. */
  lemma RollExamples()
    ensures RollItems([42]) == Err(InsufficientStackSize)
    ensures RollItems([1, -1, 42]) == Err(NegativeDepth)
    ensures RollItems([1, 2, 42]) == Err(InsufficientStackSize)
    ensures RollItems([1, 0, 17, 42]) == Ok([17, 42])
    ensures RollItems([0, 2, 17, 42]) == Ok([17, 42])
    ensures RollItems([1, 3, 42, 17, 69, 666]) == Ok([17, 69, 42, 666])
    ensures RollItems([-1, 3, 42, 17, 69, 666]) == Ok([69, 42, 17, 666])
  {
    assert [0, 2, 17, 42][2..] == [17, 42];
    RotatedByMultiple([17, 42], 2, 0);
    assert [1, 3, 42, 17, 69, 666][2..] == [42, 17, 69, 666];
    RotatedPlusOnce([42, 17, 69, 666]);
    assert [-1, 3, 42, 17, 69, 666][2..] == [42, 17, 69, 666];
    RotatedMinusOnce([42, 17, 69, 666]);
  }

  lemma RotatedPlusOnce(items: seq<Int64>)
    requires |items| == 4
    ensures Rotated(items, 3, 1) == [items[1], items[2], items[0], items[3]]
  {
    var r := Rotated(items, 3, 1);
    assert r[0] == items[1] && r[1] == items[2] && r[2] == items[0];
  }

  lemma RotatedMinusOnce(items: seq<Int64>)
    requires |items| == 4
    ensures Rotated(items, 3, -1) == [items[2], items[0], items[1], items[3]]
  {
    var r := Rotated(items, 3, -1);
    assert r[0] == items[2] && r[1] == items[0] && r[2] == items[1];
  }

  // ----- Roll as written -----

  /**
   * The index the source computes: `(int)(i + roll).Modulo(depth)`, where
   * `i + roll` is an unchecked `long` addition.
   */
  function IndexAsWritten(i: int, roll: Int64, depth: Int32): (index: int)
    requires 0 <= i && 0 < depth
    ensures 0 <= index < depth
  {
    Wrap(NumberExtensions.Modulo(Wrap(i + roll, Long), depth, Long).value, Int)
  }

  /** The index as written is the wrapped sum reduced modulo `depth`. */
  lemma IndexAsWrittenIs(i: int, roll: Int64, depth: Int32)
    requires 0 <= i && 0 < depth
    ensures IndexAsWritten(i, roll, depth) == Wrap(i + roll, Long) % depth
  {
  }

  /** Without overflow the index as written is `(i + roll) mod depth`. */
  lemma IndexWithoutOverflow(i: int, roll: Int64, depth: Int32)
    requires 0 <= i && 0 < depth && i + roll <= MaxInt64
    ensures IndexAsWritten(i, roll, depth) == (i + roll) % depth
  {
  }

  /**
   * The source's `foreach`, for `i` from `n - 1` down to 0: pushes
   * `updated.Pop(index(i)).Peek()`, so the item for 0 ends on top.
   */
  function PushIndexed(rolled: Stack, updated: Stack, index: nat -> nat, n: nat): (r: Stack)
    requires forall i :: 0 <= i < n ==> index(i) < Count(updated)
    ensures Count(r) == Count(rolled) + n
    decreases n
  {
    if n == 0 then rolled
    else PushIndexed(Push(rolled, ItemAt(updated, index(n - 1))), updated, index, n - 1)
  }

  /** After the pushes, item `j < n` is item `index(j)` of `updated`; below them lies `rolled`. */
  lemma {:induction false} PushIndexedItems(rolled: Stack, updated: Stack, index: nat -> nat, n: nat)
    requires forall i :: 0 <= i < n ==> index(i) < Count(updated)
    ensures Items(PushIndexed(rolled, updated, index, n))[n..] == Items(rolled)
    ensures forall j :: 0 <= j < n ==>
      Items(PushIndexed(rolled, updated, index, n))[j] == Items(updated)[index(j)]
    decreases n
  {
    if n > 0 {
      var value := ItemAt(updated, index(n - 1));
      var below := Push(rolled, value);
      PushIndexedItems(below, updated, index, n - 1);
      var pushed := Items(PushIndexed(below, updated, index, n - 1));
      assert pushed == Items(PushIndexed(rolled, updated, index, n));
      assert pushed[n - 1..] == [value] + Items(rolled);
      assert pushed[n..] == pushed[n - 1..][1..];
      assert pushed[n - 1] == Items(updated)[index(n - 1)];
    }
  }

  /** Three pushes onto an emptied stack, given the three indices. */
  lemma PushIndexedThree(updated: Stack, index: nat -> nat, n: nat, i0: nat, i1: nat, i2: nat)
    requires n == 3 == Count(updated) && index(0) == i0 && index(1) == i1 && index(2) == i2
    requires i0 < 3 && i1 < 3 && i2 < 3
    ensures Items(PushIndexed(PopN(updated, n).value, updated, index, n))
      == [Items(updated)[i0], Items(updated)[i1], Items(updated)[i2]]
  {
    var rolled := PopN(updated, n).value;
    PushedItem(rolled, updated, index, n, 0);
    PushedItem(rolled, updated, index, n, 1);
    PushedItem(rolled, updated, index, n, 2);
  }

  /** One instance of `PushIndexedItems`: item `j` after the pushes. */
  lemma PushedItem(rolled: Stack, updated: Stack, index: nat -> nat, n: nat, j: nat)
    requires forall i :: 0 <= i < n ==> index(i) < Count(updated)
    requires j < n
    ensures Items(PushIndexed(rolled, updated, index, n))[j] == Items(updated)[index(j)]
  {
    PushIndexedItems(rolled, updated, index, n);
  }

  /**
   * `Roll` as written: the depth is `(int)stack.Second()`, which truncates
   * a `long` to its low 32 bits, and the indices come from `IndexAsWritten`.
   */
  function RollAsWritten(stack: Stack): (r: Result<Stack>)
    ensures Count(stack) < 2 ==> r == Err(InsufficientStackSize)
    ensures r.Ok? ==> Count(r.value) == Count(stack) - 2
  {
    var updated :- PopN(stack, 2);
    var depth := Wrap(Second(stack).value, Int);
    var roll := First(stack).value;
    if depth < 0 then Err(NegativeDepth)
    else if depth > Count(updated) then Err(InsufficientStackSize)
    else if depth == 0 || NumberExtensions.Modulo(roll, depth, Long).value == 0 then Ok(updated)
    else Ok(PushIndexed(PopN(updated, depth).value, updated, i => IndexAsWritten(i, roll, depth), depth))
  }

  /** Without overflow, item `j` of a rotation is the item at the index as written for `j`. */
  lemma RotatedAtIndexAsWritten(items: seq<Int64>, depth: Int32, roll: Int64, j: nat)
    requires j < depth <= |items| && roll as int + depth <= MaxInt64
    ensures Rotated(items, depth, roll)[j] == items[IndexAsWritten(j, roll, depth)]
  {
    IndexWithoutOverflow(j, roll, depth);
  }

  /** Without overflow in `i + roll`, the pushes as written build the rotation. */
  lemma PushedAsWrittenRotates(updated: Stack, depth: Int32, roll: Int64)
    requires 0 < depth <= Count(updated) && roll as int + depth <= MaxInt64
    ensures Items(PushIndexed(PopN(updated, depth).value, updated, i => IndexAsWritten(i, roll, depth), depth))
      == Rotated(Items(updated), depth, roll)
  {
    var index: nat -> nat := i => IndexAsWritten(i, roll, depth);
    var rolled := PopN(updated, depth).value;
    var pushed := Items(PushIndexed(rolled, updated, index, depth));
    PushIndexedItems(rolled, updated, index, depth);
    var target := Rotated(Items(updated), depth, roll);
    forall j | 0 <= j < depth
      ensures pushed[j] == target[j]
    {
      RotatedAtIndexAsWritten(Items(updated), depth, roll, j);
    }
    assert pushed[depth..] == Items(updated)[depth..] == target[depth..];
    SameFromPrefix(pushed, target, depth);
  }

  /** Two sequences that agree below `n` and from `n` on are equal. */
  lemma SameFromPrefix(a: seq<Int64>, b: seq<Int64>, n: nat)
    requires n <= |a| == |b| && a[n..] == b[n..]
    requires forall j :: 0 <= j < n ==> a[j] == b[j]
    ensures a == b
  {
    assert forall j :: n <= j < |a| ==> a[j] == a[n..][j - n];
  }

  /**
   * Where neither the depth needs truncating nor `i + roll` overflows, the
   * code as written does what `RollItems` says.
   */
  lemma RollAsWrittenAgrees(stack: Stack)
    requires Count(stack) >= 2
    requires Fits(Items(stack)[1], Int) && Items(stack)[0] as int + Items(stack)[1] <= MaxInt64
    ensures ItemsOf(RollAsWritten(stack)) == RollItems(Items(stack))
  {
    if 0 < Items(stack)[1] <= Count(stack) - 2 {
      RollAsWrittenRotates(stack);
    }
  }

  /** Within range, without truncation or overflow, the code as written rotates. */
  lemma RollAsWrittenRotates(stack: Stack)
    requires Count(stack) >= 2 && 0 < Items(stack)[1] <= Count(stack) - 2
    requires Fits(Items(stack)[1], Int) && Items(stack)[0] as int + Items(stack)[1] <= MaxInt64
    ensures ItemsOf(RollAsWritten(stack)) == Ok(Rotated(Items(stack)[2..], Items(stack)[1], Items(stack)[0]))
  {
    var updated := PopN(stack, 2).value;
    var depth := Items(stack)[1];
    var roll := Items(stack)[0];
    assert Items(updated) == Items(stack)[2..];
    RollAsWrittenUnfolds(stack);
    if roll % depth == 0 {
      RotatedByMultiple(Items(updated), depth, roll);
    } else {
      PushedAsWrittenRotates(updated, depth, roll);
    }
  }

  /** Within range and without truncation, what the code as written returns. */
  lemma RollAsWrittenUnfolds(stack: Stack)
    requires Count(stack) >= 2 && 0 < Items(stack)[1] <= Count(stack) - 2 && Fits(Items(stack)[1], Int)
    ensures var updated, depth, roll := PopN(stack, 2).value, Items(stack)[1], Items(stack)[0];
      RollAsWritten(stack)
        == if roll % depth == 0 then Ok(updated)
           else Ok(PushIndexed(PopN(updated, depth).value, updated, i => IndexAsWritten(i, roll, depth), depth))
  {
    var depth := Items(stack)[1];
    var roll := Items(stack)[0];
    assert First(stack).value == roll && Wrap(Second(stack).value, Int) == depth;
    assert NumberExtensions.Modulo(roll, depth, Long).value == roll % depth;
  }

  /**
   * With 3 items to roll by long.MaxValue, `i + roll` overflows for
   * `i == 1` and `i == 2`: as written the roll pushes item 1 twice and
   * loses item 0, where a rotation by `long.MaxValue mod 3 == 1` is meant.
   */
  lemma RollAsWrittenDuplicatesAnItem()
    ensures ItemsOf(RollAsWritten(Push(Push(Push(Push(Push(Empty, 30), 20), 10), 3), MaxInt64))) == Ok([20, 20, 30])
  {
    var stack := Push(Push(Push(Push(Push(Empty, 30), 20), 10), 3), MaxInt64);
    var updated := PopN(stack, 2).value;
    assert Items(updated) == [10, 20, 30];
    assert First(stack).value == MaxInt64 && Wrap(Second(stack).value, Int) == 3;
    ModuloOfMaxValue();
    assert RollAsWritten(stack) == Ok(PushIndexed(PopN(updated, 3).value, updated, i => IndexAsWritten(i, MaxInt64, 3), 3));
    OverflowingPushes(updated);
  }

  /** The pushes as written when 3 items are rolled by long.MaxValue. */
  lemma OverflowingPushes(updated: Stack)
    requires Items(updated) == [10, 20, 30]
    ensures Items(PushIndexed(PopN(updated, 3).value, updated, i => IndexAsWritten(i, MaxInt64, 3), 3)) == [20, 20, 30]
  {
    var index: nat -> nat := i => IndexAsWritten(i, MaxInt64, 3);
    assert index(0) == IndexAsWritten(0, MaxInt64, 3);
    assert index(1) == IndexAsWritten(1, MaxInt64, 3);
    assert index(2) == IndexAsWritten(2, MaxInt64, 3);
    OverflowingIndices();
    assert Count(updated) == 3;
    PushIndexedThree(updated, index, 3, 1, 1, 2);
  }

  /** long.MaxValue is 1 modulo 3. */
  lemma ModuloOfMaxValue()
    ensures NumberExtensions.Modulo(MaxInt64, 3, Long) == Ok(1)
  {
  }

  /** `(int)(i + long.MaxValue).Modulo(3)` for `i` = 0, 1, 2; and `long.MaxValue.Modulo(3)`. */
  lemma OverflowingIndices()
    ensures IndexAsWritten(0, MaxInt64, 3) == 1
    ensures IndexAsWritten(1, MaxInt64, 3) == 1
    ensures IndexAsWritten(2, MaxInt64, 3) == 2
  {
    IndexAsWrittenIs(0, MaxInt64, 3);
    IndexAsWrittenIs(1, MaxInt64, 3);
    IndexAsWrittenIs(2, MaxInt64, 3);
    WrapPastMaxValue(MaxInt64 + 1);
    WrapPastMaxValue(MaxInt64 + 2);
  }

  /** Past long.MaxValue an unchecked sum comes back 2^64 lower. */
  lemma WrapPastMaxValue(x: int)
    requires MaxInt64 < x <= 2 * MaxInt64
    ensures Wrap(x, Long) == x - 0x1_0000_0000_0000_0000
  {
    RemainderUnique(x - MinInt64, 0x1_0000_0000_0000_0000, 1, x - MinInt64 - 0x1_0000_0000_0000_0000);
  }

  /** Rolled by long.MaxValue, three items rotate once: nothing is lost. */
  lemma RotatedByMaxValue()
    ensures RollItems([MaxInt64, 3, 10, 20, 30]) == Ok([20, 30, 10])
  {
    assert [MaxInt64, 3, 10, 20, 30][2..] == [10, 20, 30];
    var r := Rotated([10, 20, 30], 3, MaxInt64);
    assert r[0] == 20 && r[1] == 30 && r[2] == 10;
    assert r == [20, 30, 10];
  }

  /**
   * A depth of 2^32 + 3 is truncated to 3 by the `(int)` cast: as written a
   * three-item stack is rolled, where the depth exceeds the stack.
   */
  lemma RollAsWrittenTruncatesDepth()
    ensures ItemsOf(RollAsWritten(Push(Push(Push(Push(Push(Empty, 30), 20), 10), 0x1_0000_0003), 1))) == Ok([20, 30, 10])
  {
    var stack := Push(Push(Push(Push(Push(Empty, 30), 20), 10), 0x1_0000_0003), 1);
    var updated := PopN(stack, 2).value;
    assert Items(updated) == [10, 20, 30];
    assert First(stack).value == 1;
    TruncatedDepth();
    assert RollAsWritten(stack) == Ok(PushIndexed(PopN(updated, 3).value, updated, i => IndexAsWritten(i, 1, 3), 3));
    TruncatedPushes(updated);
  }

  /** The pushes as written for three items rolled once. */
  lemma TruncatedPushes(updated: Stack)
    requires Items(updated) == [10, 20, 30]
    ensures Items(PushIndexed(PopN(updated, 3).value, updated, i => IndexAsWritten(i, 1, 3), 3)) == [20, 30, 10]
  {
    PushedAsWrittenRotates(updated, 3, 1);
    RotatedThreeOnce(Items(updated));
  }

  /** Three items rotated once. */
  lemma RotatedThreeOnce(items: seq<Int64>)
    requires items == [10, 20, 30]
    ensures Rotated(items, 3, 1) == [20, 30, 10]
  {
    RotatedOnce(items, 3);
    assert items[1..3] == [20, 30] && items[3..] == [];
  }

  /** A depth of 2^32 + 3 exceeds a stack of three items. */
  lemma RollRejectsDepthBeyondStack()
    ensures RollItems([1, 0x1_0000_0003, 10, 20, 30]) == Err(InsufficientStackSize)
  {
  }

  /** `(int)` keeps the low 32 bits of 2^32 + 3, and one roll of 3 items is not a multiple of 3. */
  lemma TruncatedDepth()
    ensures Wrap(0x1_0000_0003, Int) == 3
    ensures NumberExtensions.Modulo(1, 3, Long) == Ok(1)
  {
    RemainderUnique(0x1_0000_0003 - MinInt32, 0x1_0000_0000, 1, 3 - MinInt32);
  }
}
