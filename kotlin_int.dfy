/** Kotlin `Int` arithmetic as the countdown clock uses it.

    Kotlin's `/` and `%` on `Int` truncate toward zero, while Dafny's are
    Euclidean (the remainder is never negative). The two agree on
    non-negative operands and differ as soon as the dividend is negative,
    which is exactly what happens once the countdown passes zero. */
module KotlinInt {

  function Abs(x: int): nat
  {
    if x < 0 then -x else x
  }

  /** Kotlin's `a / b`: the quotient rounded toward zero. The remainder it
      leaves is smaller than the divisor and carries the dividend's sign. */
  function TDiv(a: int, b: int): (q: int)
    requires b != 0
    ensures Abs(a - b * q) < Abs(b)
    ensures a >= 0 ==> a - b * q >= 0
    ensures a <= 0 ==> a - b * q <= 0
  {
    var n := Abs(a) / Abs(b);
    TruncationFacts(a, b, n);
    if (a < 0) == (b < 0) then n else -n
  }

  lemma DivFacts(x: nat, y: nat)
    requires y > 0
    ensures x == y * (x / y) + x % y && 0 <= x % y < y
  {
  }

  /** The facts about `|a| / |b|` that make `TDiv` truncate. */
  lemma TruncationFacts(a: int, b: int, n: int)
    requires b != 0 && n == Abs(a) / Abs(b)
    ensures (a < 0) == (b < 0) ==> Abs(a - b * n) < Abs(b) && (a >= 0 ==> a - b * n >= 0) && (a <= 0 ==> a - b * n <= 0)
    ensures (a < 0) != (b < 0) ==> Abs(a + b * n) < Abs(b) && (a >= 0 ==> a + b * n >= 0) && (a <= 0 ==> a + b * n <= 0)
  {
    DivFacts(Abs(a), Abs(b));
    var m := Abs(b) * n;
    assert b * n == if b < 0 then -m else m by {
      if b < 0 {
        assert b * n == -((-b) * n);
      }
    }
  }

  /** Kotlin's `a % b`: what is left of `a` after `b * (a / b)`. */
  function TRem(a: int, b: int): (r: int)
    requires b != 0
    ensures b * TDiv(a, b) + r == a
    ensures Abs(r) < Abs(b)
    ensures a >= 0 ==> r >= 0
    ensures a <= 0 ==> r <= 0
  {
    a - b * TDiv(a, b)
  }

  /** Truncation is symmetric about zero: negating the dividend negates the
      quotient (Euclidean division is not: -1 / 10 is -1 in Dafny, 0 in Kotlin). */
  lemma TDivOdd(a: int, b: int)
    requires b != 0
    ensures TDiv(-a, b) == -TDiv(a, b)
    ensures TRem(-a, b) == -TRem(a, b)
  {
  }

  /** On a non-negative dividend and a positive divisor Kotlin and Dafny agree. */
  lemma TDivNonNegative(a: int, b: int)
    requires a >= 0 && b > 0
    ensures TDiv(a, b) == a / b && TRem(a, b) == a % b
  {
  }

  const IntMin: int := -0x8000_0000
  const IntMax: int := 0x7FFF_FFFF

  /** `x` is representable as a Kotlin (32-bit) `Int`. */
  predicate IsInt(x: int)
  {
    IntMin <= x <= IntMax
  }
}
