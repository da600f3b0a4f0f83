// PietDotNet.Validation.Must: guards that return their input or throw.
module Must {
  import opened Exceptions
  import opened CSharp
  import opened Stacks

  /** `HasAny`: the same stack when it holds an item, else InsufficientStackSize. */
  function HasAny(stack: Stack): (r: Result<Stack>)
    ensures r.Ok? <==> Count(stack) >= 1
    ensures r.Ok? ==> r.value == stack
    ensures r.Err? ==> r.error == InsufficientStackSize
  {
    if Count(stack) >= 1 then Ok(stack) else Err(InsufficientStackSize)
  }

  /** `HasMultiple`: the same stack when it holds two items or more, else InsufficientStackSize. */
  function HasMultiple(stack: Stack): (r: Result<Stack>)
    ensures r.Ok? <==> Count(stack) >= 2
    ensures r.Ok? ==> r.value == stack
    ensures r.Err? ==> r.error == InsufficientStackSize
  {
    if Count(stack) >= 2 then Ok(stack) else Err(InsufficientStackSize)
  }

  /** `HasInput(long?)`: the value when there is one, else InvalidInput. */
  function HasInputLong(value: Option<Int64>): (r: Result<Int64>)
    ensures r.Ok? <==> value.Some?
    ensures r.Ok? ==> r.value == value.value
    ensures r.Err? ==> r.error == InvalidInput
  {
    match value
    case Some(v) => Ok(v)
    case None => Err(InvalidInput)
  }

  /** `HasInput(char?)`: the character's code, widened to `long`, else InvalidInput. */
  function HasInputChar(value: Option<Char16>): (r: Result<Int64>)
    ensures r.Ok? <==> value.Some?
    ensures r.Ok? ==> r.value == value.value && 0 <= r.value < 0x1_0000
    ensures r.Err? ==> r.error == InvalidInput
  {
    match value
    case Some(c) => Ok(c as int)
    case None => Err(InvalidInput)
  }

  /** A stack with two items passes both guards, and one that passes `HasMultiple` passes `HasAny`. */
  lemma GuardsNest(stack: Stack)
    ensures HasMultiple(stack).Ok? ==> HasAny(stack) == HasMultiple(stack)
  {
  }
}
