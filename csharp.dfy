// The fixed-width integer arithmetic of C# that the interpreter relies on:
// unchecked wrap-around, truncating casts, and `/` and `%` that truncate
// toward zero (Dafny's own `/` and `%` are Euclidean).
module CSharp {
  import opened Exceptions

  const MinInt32: int := -0x8000_0000
  const MaxInt32: int := 0x7FFF_FFFF
  const MinInt64: int := -0x8000_0000_0000_0000
  const MaxInt64: int := 0x7FFF_FFFF_FFFF_FFFF

  /** C#'s `int`. */
  type Int32 = x: int | -0x8000_0000 <= x <= 0x7FFF_FFFF
  /** C#'s `long`. */
  type Int64 = x: int | -0x8000_0000_0000_0000 <= x <= 0x7FFF_FFFF_FFFF_FFFF

  /** C#'s `char`: a UTF-16 code unit. */
  type Char16 = c: int | 0 <= c < 0x1_0000

  /** The two signed widths the source computes in. */
  datatype Width = Int | Long

  function Bits(w: Width): nat { if w == Int then 32 else 64 }

  function Modulus(w: Width): (m: nat)
    ensures m > 0
  {
    if w == Int then 0x1_0000_0000 else 0x1_0000_0000_0000_0000
  }

  function Min(w: Width): int { if w == Int then MinInt32 else MinInt64 }
  function Max(w: Width): int { if w == Int then MaxInt32 else MaxInt64 }

  predicate Fits(x: int, w: Width) { Min(w) <= x <= Max(w) }

  /**
   * Unchecked two's-complement truncation to `w`: the value of width `w`
   * that agrees with `x` modulo 2^Bits(w) (see `WrapDifference`).
   */
  function Wrap(x: int, w: Width): (r: int)
    ensures Fits(r, w)
    ensures Fits(x, w) ==> r == x
  {
    if w == Int then
      if Fits(x, w) then
        RemainderUnique(x - MinInt32, 0x1_0000_0000, 0, x - MinInt32);
        MinInt32 + (x - MinInt32) % 0x1_0000_0000
      else
        MinInt32 + (x - MinInt32) % 0x1_0000_0000
    else if Fits(x, w) then
      RemainderUnique(x - MinInt64, 0x1_0000_0000_0000_0000, 0, x - MinInt64);
      MinInt64 + (x - MinInt64) % 0x1_0000_0000_0000_0000
    else
      MinInt64 + (x - MinInt64) % 0x1_0000_0000_0000_0000
  }

  /** Truncation changes a value by a multiple of 2^Bits(w). */
  lemma WrapDifference(x: int, w: Width)
    ensures Wrap(x, w) == x - Modulus(w) * ((x - Min(w)) / Modulus(w))
  {
  }

  /** The bit pattern of `x` at width `w`, read as an unsigned number. */
  function Unsigned(x: int, w: Width): (u: nat)
    ensures u < Modulus(w)
  {
    if w == Int then x % 0x1_0000_0000 else x % 0x1_0000_0000_0000_0000
  }

  /** The unsigned reading differs from `x` by a multiple of 2^Bits(w). */
  lemma UnsignedDifference(x: int, w: Width)
    ensures Unsigned(x, w) == x - Modulus(w) * (x / Modulus(w))
  {
  }

  function Abs(x: int): nat { if x < 0 then -x else x }

  /** Mathematical division truncated toward zero. */
  function Quot(n: int, d: int): (q: int)
    requires d != 0
  {
    if n >= 0 then
      if d > 0 then n / d else -(n / -d)
    else
      if d > 0 then -(-n / d) else -n / -d
  }

  /** The remainder that goes with `Quot`: it takes the sign of `n`. */
  function RemT(n: int, d: int): (r: int)
    requires d != 0
    ensures Abs(r) < Abs(d)
    ensures r == 0 || (r < 0 <==> n < 0)
  {
    if n >= 0 then n % d else -(-n % d)
  }

  /** `Quot` and `RemT` in terms of absolute values. */
  lemma QuotRemTOfAbs(n: int, d: int)
    requires d != 0
    ensures Quot(n, d) == if (n < 0) == (d < 0) then Abs(n) / Abs(d) else -(Abs(n) / Abs(d))
    ensures RemT(n, d) == if n < 0 then -(Abs(n) % Abs(d)) else Abs(n) % Abs(d)
  {
    var a, b := Abs(n), Abs(d);
    assert a % d == a % b && a / d == if d < 0 then -(a / b) else a / b by {
      var q, r := a / b, a % b;
      assert a == b * q + r && 0 <= r < b;
      if d < 0 {
        assert a == d * -q + r;
        RemainderUnique(a, d, -q, r);
        assert a / d == -q;
      }
    }
  }

  /** `Quot` and `RemT` divide `n` by `d`. */
  lemma QuotRemT(n: int, d: int)
    requires d != 0
    ensures n == d * Quot(n, d) + RemT(n, d)
  {
    QuotRemTOfAbs(n, d);
    var q := Abs(n) / Abs(d);
    var m := Abs(n) % Abs(d);
    assert Abs(n) == Abs(d) * q + m;
  }

  /**
   * C#'s `n / d` on width `w`: throws on a zero divisor, and on the one
   * quotient that does not fit (MinValue / -1).
   */
  function Div(n: int, d: int, w: Width): (r: Result<int>)
    requires Fits(n, w) && Fits(d, w)
    ensures r.Err? <==> d == 0 || (n == Min(w) && d == -1)
    ensures d == 0 ==> r == Err(DivideByZero)
    ensures r.Ok? ==> Fits(r.value, w) && r.value == Quot(n, d)
  {
    if d == 0 then Err(DivideByZero)
    else if n == Min(w) && d == -1 then Err(Overflow)
    else
      QuotFits(n, d, w);
      Ok(Quot(n, d))
  }

  lemma QuotFits(n: int, d: int, w: Width)
    requires Fits(n, w) && Fits(d, w) && d != 0
    requires !(n == Min(w) && d == -1)
    ensures Fits(Quot(n, d), w)
  {
    var a, b := Abs(n), Abs(d);
    QuotientBounds(a, b);
    var q: int := a / b;
    QuotRemTOfAbs(n, d);
    assert Quot(n, d) == if (n < 0) == (d < 0) then q else -q;
  }

  /** Dividing by 1 or more never grows a number, and by 2 or more shrinks a positive one. */
  lemma QuotientBounds(a: nat, b: nat)
    requires b >= 1
    ensures 0 <= a / b <= a
    ensures b >= 2 && a > 0 ==> a / b < a
  {
    var q, r := a / b, a % b;
    assert a == b * q + r && 0 <= r < b;
    if q < 0 {
      ScaleMonotone(b, q, -1);
      assert false;
    }
    ScaleMonotone(q, 1, b);
    if b >= 2 && a > 0 && q >= a {
      ScaleMonotone(q, 2, b);
      assert false;
    }
  }

  /** Multiplying by a non-negative factor keeps an inequality. */
  lemma ScaleMonotone(k: int, x: int, y: int)
    requires k >= 0 && x <= y
    ensures k * x <= k * y
  {
    var d := y - x;
    assert k * y == k * x + k * d;
  }

  /**
   * C#'s `n % d` on width `w`: throws on a zero divisor and, like the
   * division it goes with, on MinValue % -1.
   */
  function Rem(n: int, d: int, w: Width): (r: Result<int>)
    requires Fits(n, w) && Fits(d, w)
    ensures r.Err? <==> d == 0 || (n == Min(w) && d == -1)
    ensures d == 0 ==> r == Err(DivideByZero)
    ensures r.Ok? ==> Fits(r.value, w) && r.value == RemT(n, d)
  {
    if d == 0 then Err(DivideByZero)
    else if n == Min(w) && d == -1 then Err(Overflow)
    else Ok(RemT(n, d))
  }

  /** Euclidean division has only one remainder. */
  lemma RemainderUnique(n: int, d: int, q: int, r: int)
    requires d != 0 && n == d * q + r && 0 <= r < Abs(d)
    ensures r == n % d
  {
    var f, e := n / d, n % d;
    assert n == d * f + e;
    var k := q - f;
    assert d * k == e - r;
  }

  /**
   * The truncating remainder equals the Euclidean one when it is not
   * negative, and falls short of it by exactly |d| when it is.
   */
  lemma RemTAgainstEuclidean(n: int, d: int)
    requires d != 0
    ensures RemT(n, d) >= 0 ==> RemT(n, d) == n % d
    ensures RemT(n, d) < 0 ==> RemT(n, d) + Abs(d) == n % d
  {
    var q, r := Quot(n, d), RemT(n, d);
    QuotRemT(n, d);
    if r >= 0 {
      RemainderUnique(n, d, q, r);
    } else if d > 0 {
      assert n == d * (q - 1) + (r + d);
      RemainderUnique(n, d, q - 1, r + d);
    } else {
      assert n == d * (q + 1) + (r - d);
      RemainderUnique(n, d, q + 1, r - d);
    }
  }

  /** Adding a multiple of the divisor does not change the remainder. */
  lemma AddMultiple(x: int, k: int, d: int)
    requires d > 0
    ensures (x + d * k) % d == x % d
  {
    assert x == d * (x / d) + x % d;
    assert x + d * k == d * (x / d + k) + x % d;
    RemainderUnique(x + d * k, d, x / d + k, x % d);
  }

  /** Reducing one summand first does not change the remainder of a sum. */
  lemma ModOfSum(a: int, b: int, d: int)
    requires d > 0
    ensures (a % d + b) % d == (a + b) % d
  {
    assert a == d * (a / d) + a % d;
    AddMultiple(a % d + b, a / d, d);
  }

  /** Adding `x - y` modulo `m` to `y` gives `x` back. */
  lemma ChangeLeadsTo(x: int, y: int, p: int, m: int)
    requires m > 0 && 0 <= x < m && p == (x - y) % m
    ensures (y + p) % m == x
  {
    var q := (x - y) / m;
    assert x - y == m * q + p;
    RemainderUnique(y + p, m, -q, x);
  }

  /** Adding a multiple of 4 keeps the remainders modulo 4 and 2. */
  lemma SameLowBits(x: int, y: int, k: int)
    requires y == x + 4 * k
    ensures y % 4 == x % 4 && y % 2 == x % 2
  {
    AddMultiple(x, k, 4);
    AddMultiple(x, 2 * k, 2);
  }

  /** Truncating to a width keeps the low two bits: modulo 4 and 2 nothing changes. */
  lemma WrapKeepsLowBits(x: int, w: Width)
    ensures Wrap(x, w) % 4 == x % 4 && Wrap(x, w) % 2 == x % 2
  {
    var k := (x - Min(w)) / Modulus(w);
    WrapDifference(x, w);
    if w == Int {
      SameLowBits(x, Wrap(x, w), -0x4000_0000 * k);
    } else {
      SameLowBits(x, Wrap(x, w), -0x4000_0000_0000_0000 * k);
    }
  }

  /** The unsigned reading of a bit pattern has the same low two bits as `x`. */
  lemma UnsignedKeepsLowBits(x: int, w: Width)
    ensures Unsigned(x, w) % 4 == x % 4 && Unsigned(x, w) % 2 == x % 2
  {
    var k := x / Modulus(w);
    UnsignedDifference(x, w);
    if w == Int {
      SameLowBits(x, Unsigned(x, w), -0x4000_0000 * k);
    } else {
      SameLowBits(x, Unsigned(x, w), -0x4000_0000_0000_0000 * k);
    }
  }

  /** An unchecked `int` increment or decrement only wraps at the limits. */
  lemma WrapStep(x: Int32)
    ensures Wrap(x + 1, Int) == if x == MaxInt32 then MinInt32 else x + 1
    ensures Wrap(x - 1, Int) == if x == MinInt32 then MaxInt32 else x - 1
  {
    WrapDifference(x + 1, Int);
    WrapDifference(x - 1, Int);
  }

  /** An unchecked `int` step forth and back, or back and forth, returns to `x`. */
  lemma WrapStepBack(x: Int32)
    ensures Wrap(Wrap(x + 1, Int) - 1, Int) == x
    ensures Wrap(Wrap(x - 1, Int) + 1, Int) == x
  {
    WrapStep(x);
    WrapStep(Wrap(x + 1, Int));
    WrapStep(Wrap(x - 1, Int));
  }
}
