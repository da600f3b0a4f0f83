// PietDotNet.Stack: the immutable stack of `long` values, a linked list of
// nodes that each keep the stack below them.
module Stacks {
  import opened Exceptions
  import opened CSharp

  /** `EmptyStack` and `NonEmptyStack(previous, value)`. */
  datatype Stack = Empty | NonEmpty(previous: Stack, value: Int64)

  /** The items from top to bottom: the order enumeration yields them in. */
  function Items(s: Stack): seq<Int64>
  {
    match s
    case Empty => []
    case NonEmpty(previous, value) => [value] + Items(previous)
  }

  /** `Count`: 0 for the empty stack, one more than the stack below otherwise. */
  function Count(s: Stack): (n: nat)
    ensures n == |Items(s)|
    ensures n == 0 <==> s.Empty?
  {
    match s
    case Empty => 0
    case NonEmpty(previous, _) => Count(previous) + 1
  }

  /** `Push(integer)`: a new node on top of this stack. */
  function Push(s: Stack, integer: Int64): (r: Stack)
    ensures Items(r) == [integer] + Items(s)
    ensures Count(r) == Count(s) + 1
  {
    NonEmpty(s, integer)
  }

  /** `Push(boolean)`: 1 for true and 0 for false. */
  function PushBool(s: Stack, boolean: bool): (r: Stack)
    ensures Items(r) == [if boolean then 1 else 0] + Items(s)
  {
    Push(s, if boolean then 1 else 0)
  }

  /** `Pop()`: the stack below the top; the empty stack throws InsufficientStackSize. */
  function Pop(s: Stack): (r: Result<Stack>)
    ensures r.Ok? <==> Count(s) >= 1
    ensures r.Err? ==> r.error == InsufficientStackSize
    ensures r.Ok? ==> Items(r.value) == Items(s)[1..] && Count(r.value) == Count(s) - 1
  {
    match s
    case Empty => Err(InsufficientStackSize)
    case NonEmpty(previous, _) => Ok(previous)
  }

  /** `Peek()`: the top item; the empty stack throws InsufficientStackSize. */
  function Peek(s: Stack): (r: Result<Int64>)
    ensures r.Ok? <==> Count(s) >= 1
    ensures r.Err? ==> r.error == InsufficientStackSize
    ensures r.Ok? ==> r.value == Items(s)[0]
  {
    match s
    case Empty => Err(InsufficientStackSize)
    case NonEmpty(_, value) => Ok(value)
  }

  /**
   * `Pop(repeat)`: `repeat` single pops. A count larger than the stack, or a
   * negative one (which never reaches 0), runs into the empty stack.
   */
  function PopN(s: Stack, repeat: int): (r: Result<Stack>)
    ensures r.Ok? <==> 0 <= repeat <= Count(s)
    ensures r.Err? ==> r.error == InsufficientStackSize
    ensures r.Ok? ==> Items(r.value) == Items(s)[repeat..] && Count(r.value) == Count(s) - repeat
    decreases s
  {
    if repeat == 0 then Ok(s)
    else
      match s
      case Empty => Err(InsufficientStackSize)
      case NonEmpty(previous, _) => PopN(previous, repeat - 1)
  }

  /** `Pop(i).Peek()`: the item `i` places below the top. */
  function ItemAt(s: Stack, i: nat): (v: Int64)
    requires i < Count(s)
    ensures v == Items(s)[i]
  {
    Peek(PopN(s, i).value).value
  }

  /** The stack that holds the given items, top first. */
  function FromItems(items: seq<Int64>): (s: Stack)
    ensures Items(s) == items && Count(s) == |items|
  {
    if items == [] then Empty else Push(FromItems(items[1..]), items[0])
  }

  /** Two stacks with the same items are the same stack. */
  lemma {:induction false} ItemsDetermineStack(a: Stack, b: Stack)
    requires Items(a) == Items(b)
    ensures a == b
  {
    if a.NonEmpty? {
      assert Items(a)[1..] == Items(a.previous);
      ItemsDetermineStack(a.previous, b.previous);
    }
  }

  /** A pushed item is the one peeked and popped again, and pops back to the stack it was pushed on. */
  lemma PushThenPop(s: Stack, v: Int64)
    ensures Peek(Push(s, v)) == Ok(v)
    ensures Pop(Push(s, v)) == Ok(s)
  {
  }

  /** Popping `a` items and then `b` more pops `a + b` items. */
  lemma {:induction false} PopNAdds(s: Stack, a: nat, b: nat)
    requires a + b <= Count(s)
    ensures PopN(s, a).Ok? && PopN(PopN(s, a).value, b) == PopN(s, a + b)
    decreases a
  {
    if a > 0 {
      PopNAdds(s.previous, a - 1, b);
    }
  }

  /**
   * `GetEnumerator`: walks from this node down through `previous` and
   * yields each value, so the items come top first.
   */
  method Enumerate(s: Stack) returns (items: seq<Int64>)
    ensures items == Items(s)
  {
    items := [];
    var current := s;
    while current.NonEmpty?
      invariant items + Items(current) == Items(s)
      decreases current
    {
      items := items + [current.value];
      current := current.previous;
    }
  }

  /** The unit tests' enumeration order, pushes, pops and peeks. */
  lemma StackExamples()
    ensures Items(Push(Push(Push(Push(Push(Push(Empty, 0), 1), 2), 3), 4), 5)) == [5, 4, 3, 2, 1, 0]
    ensures Pop(Push(Push(Empty, 3), 17)) == Ok(Push(Empty, 3))
    ensures Peek(Push(Push(Empty, 3), 17)) == Ok(17)
    ensures Items(PushBool(Empty, true)) == [1] && Items(PushBool(Empty, false)) == [0]
    ensures Pop(Empty) == Err(InsufficientStackSize) && Peek(Empty) == Err(InsufficientStackSize)
  {
  }
}
