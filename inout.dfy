// PietDotNet.IO.InOut: the interpreter's collaborator for the input and
// output commands. The model replaces the console by two queues of answers
// given in advance and a record of everything written.
module InOuts {
  import opened Exceptions
  import opened CSharp

  /** One call of `Out(long)` or `Out(char)`. */
  datatype Output = Number(n: Int64) | Character(c: Char16)

  /** The next answer of a queue: `null` once the queue has run dry. */
  function Head<T>(queue: seq<Option<T>>): (r: Option<T>)
    ensures queue == [] ==> r == None
    ensures queue != [] ==> r == queue[0]
  {
    if queue == [] then None else queue[0]
  }

  /** A queue once its next answer has been given. */
  function Tail<T>(queue: seq<Option<T>>): (r: seq<Option<T>>)
    ensures queue == [] ==> r == []
    ensures queue != [] ==> [queue[0]] + r == queue
  {
    if queue == [] then [] else queue[1..]
  }

  /**
   * An `InOut` whose reads answer from queues. A `None` in a queue is a
   * read that gets no value (a line that is not a `long`), and an empty
   * queue answers `None` for ever, as the console does at end of input.
   */
  class InOut {
    var ints: seq<Option<Int64>>
    var chars: seq<Option<Char16>>
    var written: seq<Output>

    constructor (ints: seq<Option<Int64>>, chars: seq<Option<Char16>>)
      ensures this.ints == ints && this.chars == chars && written == []
    {
      this.ints := ints;
      this.chars := chars;
      written := [];
    }

    /** `InInt()`: the next integer answer, or `null`. */
    method InInt() returns (r: Option<Int64>)
      modifies this
      ensures r == Head(old(ints)) && ints == Tail(old(ints))
      ensures chars == old(chars) && written == old(written)
    {
      r := Head(ints);
      ints := Tail(ints);
    }

    /** `InChr()`: the next character answer, or `null`. */
    method InChr() returns (r: Option<Char16>)
      modifies this
      ensures r == Head(old(chars)) && chars == Tail(old(chars))
      ensures ints == old(ints) && written == old(written)
    {
      r := Head(chars);
      chars := Tail(chars);
    }

    /** `Out(long)`: writes a number. */
    method OutNumber(n: Int64)
      modifies this
      ensures written == old(written) + [Number(n)]
      ensures ints == old(ints) && chars == old(chars)
    {
      written := written + [Number(n)];
    }

    /** `Out(char)`: writes a character. */
    method OutCharacter(c: Char16)
      modifies this
      ensures written == old(written) + [Character(c)]
      ensures ints == old(ints) && chars == old(chars)
    {
      written := written + [Character(c)];
    }
  }
}
