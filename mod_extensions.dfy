// System.ModExtensions: the same non-negative modulo under another name.
module ModExtensions {
  import opened Exceptions
  import opened CSharp
  import NumberExtensions

  /** `n.Mod(mod)` for the `int` (w == Int) and `long` (w == Long) overloads. */
  function Mod(n: int, mod: int, w: Width): (r: Result<int>)
    requires Fits(n, w) && Fits(mod, w)
    ensures r.Err? <==> mod == 0 || (n == Min(w) && mod == -1)
    ensures r.Ok? && (mod > 0 || n >= 0) ==> r.value == n % mod
  {
    var result :- Rem(n, mod, w);
    RemTAgainstEuclidean(n, mod);
    if result < 0 then Ok(Wrap(result + mod, w)) else Ok(result)
  }

  /** `Mod` and `NumberExtensions.Modulo` compute the same thing on every input. */
  lemma ModIsModulo(n: int, mod: int, w: Width)
    requires Fits(n, w) && Fits(mod, w)
    ensures Mod(n, mod, w) == NumberExtensions.Modulo(n, mod, w)
  {
  }

  /** Reducing twice by the same positive modulus changes nothing. */
  lemma ModIdempotent(n: int, mod: int, w: Width)
    requires Fits(n, w) && Fits(mod, w) && mod > 0
    ensures Mod(n, mod, w).Ok? && Mod(Mod(n, mod, w).value, mod, w) == Mod(n, mod, w)
  {
    var r := Mod(n, mod, w).value;
    assert r == n % mod;
    RemainderUnique(r, mod, 0, r);
  }
}
