// System.NumberExtensions: evenness and a modulo whose result is never
// negative for a positive modulus.
module NumberExtensions {
  import opened Exceptions
  import opened CSharp

  /**
   * `(number & 1) == 0` tests bit 0 of the two's-complement pattern, which
   * is clear exactly for even numbers, negative ones included.
   */
  predicate IsEven(number: Int32): (even: bool)
    ensures even <==> number % 2 == 0
  {
    UnsignedKeepsLowBits(number, Int);
    Unsigned(number, Int) % 2 == 0
  }

  /**
   * `n.Modulo(modulo)` for the `int` (w == Int) and `long` (w == Long)
   * overloads: C#'s truncating `%`, then the modulus added to a negative
   * remainder, with unchecked wrap-around.
   */
  function Modulo(n: int, modulo: int, w: Width): (r: Result<int>)
    requires Fits(n, w) && Fits(modulo, w)
    ensures r.Err? <==> modulo == 0 || (n == Min(w) && modulo == -1)
    ensures modulo == 0 ==> r == Err(DivideByZero)
    ensures r.Ok? ==> Fits(r.value, w)
    ensures r.Ok? && (modulo > 0 || n >= 0) ==> r.value == n % modulo
    ensures r.Ok? && modulo < 0 && n < 0 ==>
      r.value == if n % modulo == 0 then 0 else Wrap(n % modulo + 2 * modulo, w)
  {
    var result :- Rem(n, modulo, w);
    RemTAgainstEuclidean(n, modulo);
    if result >= 0 then Ok(result) else Ok(Wrap(result + modulo, w))
  }

  /** The values the unit tests pin down, and one with a negative modulus. */
  lemma ModuloExamples()
    ensures Modulo(-42, 5, Long) == Ok(3)
    ensures Modulo(42, -11, Long) == Ok(9)
    ensures Modulo(-42, -11, Long) == Ok(-20)
    ensures Modulo(-7, 6, Int) == Ok(5)
  {
  }

  /**
   * The two overloads agree for every positive modulus; with a negative
   * modulus they may not (see `ModuloOverloadsDiffer`).
   */
  lemma ModuloOverloadsAgree(n: Int32, modulo: Int32)
    requires modulo > 0
    ensures Modulo(n, modulo, Int) == Modulo(n, modulo, Long)
  {
  }

  /** `result + modulo` overflows `int` but not `long`. */
  lemma ModuloOverloadsDiffer()
    ensures Modulo(-5, MinInt32, Int) == Ok(0x7FFF_FFFB)
    ensures Modulo(-5, MinInt32, Long) == Ok(-0x8000_0005)
  {
  }
}
