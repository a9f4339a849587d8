/**
 Go's numeric operators where they differ from Dafny's: integer `/` and `%`
 truncate toward zero, and float64 division by zero yields an infinity or NaN
 instead of failing. Rounding of float64 is not modelled: finite quotients are
 exact reals.
 */
module GoNumeric {

  function Abs(x: int): nat
  {
    if x < 0 then -x else x
  }

  /** Go's `a / b` on integers: the quotient truncated toward zero. */
  function Quo(a: int, b: int): (q: int)
    requires b != 0
    ensures a >= 0 && b > 0 ==> q >= 0
  {
    if (a < 0) == (b < 0) then Abs(a) / Abs(b) else -(Abs(a) / Abs(b))
  }

  /** Go's `a % b` on integers: the remainder takes the sign of the dividend. */
  function Rem(a: int, b: int): (r: int)
    requires b != 0
    ensures a >= 0 ==> r >= 0
  {
    if a < 0 then -(Abs(a) % Abs(b)) else Abs(a) % Abs(b)
  }

  /**
   The laws Go states for integer division: `a == b * (a / b) + a % b`, the
   remainder is smaller than the divisor in magnitude and has the sign of the
   dividend.
   */
  lemma QuoRem(a: int, b: int)
    requires b != 0
    ensures a == b * Quo(a, b) + Rem(a, b)
    ensures Abs(Rem(a, b)) < Abs(b)
    ensures Rem(a, b) == 0 || (Rem(a, b) < 0 <==> a < 0)
  {
  }

  /** For operands of the same sign Go and Dafny agree. */
  lemma QuoRemNatural(a: nat, b: int)
    requires b > 0
    ensures Quo(a, b) == a / b && Rem(a, b) == a % b
  {
  }

  /** The outcome of a float64 division whose operands are finite. */
  datatype Float = Finite(value: real) | PosInf | NegInf | NaN

  /** Go's `a / b` on float64 values, with exact arithmetic for the finite case. */
  function Div(a: real, b: real): (q: Float)
    ensures q.Finite? <==> b != 0.0
    ensures q == PosInf <==> b == 0.0 && a > 0.0
    ensures q == NegInf <==> b == 0.0 && a < 0.0
    ensures q == NaN <==> b == 0.0 && a == 0.0
    ensures q.Finite? ==> q.value == a / b
  {
    if b != 0.0 then Finite(a / b)
    else if a > 0.0 then PosInf
    else if a < 0.0 then NegInf
    else NaN
  }

  /** `100 * part / whole` lies in `[0, 100]`, and is 100 when `part == whole`. */
  lemma PercentageBounds(part: nat, whole: nat)
    requires 0 < whole && part <= whole
    ensures 0.0 <= (part * 100) as real / whole as real <= 100.0
    ensures part == whole ==> (part * 100) as real / whole as real == 100.0
  {
    var x, y := (part * 100) as real, whole as real;
    assert x == 100.0 * part as real;
    QuotientBetween(x, y, 0.0, 100.0);
    if part == whole {
      QuotientBetween(x, y, 100.0, 100.0);
    }
  }

  lemma QuotientBetween(x: real, y: real, lo: real, hi: real)
    requires y > 0.0 && lo * y <= x <= hi * y
    ensures lo <= x / y <= hi
  {
    QuotientTimesDivisor(x, y);
  }

  lemma QuotientTimesDivisor(x: real, y: real)
    requires y != 0.0
    ensures (x / y) * y == x
  {
  }

  const NanosPerSecond: real := 1_000_000_000.0

  /** `time.Duration.Seconds()` for a duration of `ns` nanoseconds. */
  function Seconds(ns: int): (s: real)
    ensures s * NanosPerSecond == ns as real
  {
    ns as real / NanosPerSecond
  }
}
