/** The .NET numeric conversions the drawing and scaling code relies on, over exact reals.

    `Math.Round`, `Convert.ToInt32` and `Convert.ToInt64` round to the nearest integer and
    break ties towards the even neighbour; `Convert.ToInt32` throws `OverflowException`
    outside the 32-bit range. C# integer division truncates towards zero, while Dafny's `/`
    is Euclidean, so the model spells the C# operators out. */
module Numeric {
  import opened Wrappers

  const MaxInt32: int := 0x7FFF_FFFF
  const MinInt32: int := -0x8000_0000
  const MaxInt64: int := 0x7FFF_FFFF_FFFF_FFFF
  const MinInt64: int := -0x8000_0000_0000_0000

  /** The integer nearest to `x`, ties going to the even neighbour. */
  function RoundHalfEven(x: real): (r: int)
    ensures r as real - 0.5 <= x <= r as real + 0.5
    ensures x == r as real + 0.5 || x == r as real - 0.5 ==> r % 2 == 0
  {
    var f := x.Floor;
    var d := x - f as real;
    if d < 0.5 then f
    else if d > 0.5 then f + 1
    else if f % 2 == 0 then f
    else f + 1
  }

  /** The two ensures of `RoundHalfEven` determine it: no other integer is as close with
      the same tie rule. */
  lemma RoundHalfEvenUnique(x: real, k: int)
    requires k as real - 0.5 <= x <= k as real + 0.5
    requires x == k as real + 0.5 || x == k as real - 0.5 ==> k % 2 == 0
    ensures k == RoundHalfEven(x)
  {
  }

  /** Rounding never reverses the order of two values. */
  lemma RoundHalfEvenMonotone(x: real, y: real)
    requires x <= y
    ensures RoundHalfEven(x) <= RoundHalfEven(y)
  {
  }

  /** Rounding a value that lies between two integers stays between them. */
  lemma RoundHalfEvenBetween(a: int, b: int, x: real)
    requires a as real <= x <= b as real
    ensures a <= RoundHalfEven(x) <= b
  {
    RoundHalfEvenMonotone(a as real, x);
    RoundHalfEvenMonotone(x, b as real);
    RoundHalfEvenUnique(a as real, a);
    RoundHalfEvenUnique(b as real, b);
  }

  /** The saturation `if (v > int.MaxValue) v = int.MaxValue;` written before a conversion. */
  function ClampToMaxInt32(x: real): (r: real)
    ensures r <= MaxInt32 as real
    ensures r == x || (x > MaxInt32 as real && r == MaxInt32 as real)
  {
    if x > MaxInt32 as real then MaxInt32 as real else x
  }

  /** `Convert.ToInt32` of a floating-point value. */
  function ToInt32(x: real): (r: Result<int>)
    ensures r.Ok? <==> MinInt32 <= RoundHalfEven(x) <= MaxInt32
    ensures r.Ok? ==> r.value == RoundHalfEven(x)
    ensures r.Err? ==> r.fault == Overflow
  {
    var n := RoundHalfEven(x);
    if MinInt32 <= n <= MaxInt32 then Ok(n) else Err(Overflow)
  }

  /** `Convert.ToInt64` of a floating-point value. */
  function ToInt64(x: real): (r: Result<int>)
    ensures r.Ok? <==> MinInt64 <= RoundHalfEven(x) <= MaxInt64
    ensures r.Ok? ==> r.value == RoundHalfEven(x)
    ensures r.Err? ==> r.fault == Overflow
  {
    var n := RoundHalfEven(x);
    if MinInt64 <= n <= MaxInt64 then Ok(n) else Err(Overflow)
  }

  /** On exact values the saturation does what it is there for: a clamped value converts
      without an overflow unless it is below the 32-bit range. */
  lemma ClampedConversionSucceeds(x: real)
    requires x >= MinInt32 as real
    ensures ToInt32(ClampToMaxInt32(x)).Ok?
  {
    RoundHalfEvenBetween(MinInt32, MaxInt32, ClampToMaxInt32(x));
  }

  /** C#'s `a / 2` on `int`: the quotient truncated towards zero. */
  function HalfTowardZero(a: int): (r: int)
    ensures a >= 0 ==> 0 <= 2 * r <= a < 2 * r + 2
    ensures a < 0 ==> 2 * r - 2 < a <= 2 * r <= 0
  {
    if a >= 0 then a / 2 else -((-a) / 2)
  }

  /** `Math.Floor(a / (float)b)` for integers with `b != 0`. */
  function FloorDiv(a: int, b: int): (r: int)
    requires b != 0
    ensures b > 0 ==> r * b <= a < r * b + b
    ensures b < 0 ==> r * b >= a > r * b + b
  {
    if b > 0 then a / b else (-a) / (-b)
  }

  /** `Math.Ceiling(a / (float)b)` for integers with `b != 0`. */
  function CeilDiv(a: int, b: int): (r: int)
    requires b != 0
    ensures b > 0 ==> r * b - b < a <= r * b
    ensures b < 0 ==> r * b - b > a >= r * b
  {
    -FloorDiv(-a, b)
  }

  /** Rounding an integer-valued float gives that integer back, so converting the result of
      `Math.Floor` or `Math.Ceiling` is exact. */
  lemma RoundInteger(n: int)
    ensures RoundHalfEven(n as real) == n
  {
    RoundHalfEvenUnique(n as real, n);
  }

  /** The product of two non-negative integers is non-negative. */
  lemma MulNonNegative(a: int, b: int)
    requires a >= 0 && b >= 0
    ensures a * b >= 0
  {
  }

  /** Euclidean division is unique. */
  lemma DivModUnique(k: int, p: int, q: int, r: int)
    requires p > 0 && 0 <= r < p && k == q * p + r
    ensures k / p == q && k % p == r
  {
    var q' := k / p;
    var r' := k % p;
    assert k == q' * p + r';
    assert (q - q') * p == r' - r;
    if q > q' {
      MulNonNegative(q - q' - 1, p);
      assert false;
    } else if q < q' {
      MulNonNegative(q' - q - 1, p);
      assert false;
    }
  }
}
