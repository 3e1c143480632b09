/**
 Exact integer division with a rounding mode (backend/src/money/decimal.ts, `roundDiv`).
 BigInt division truncates toward zero while Dafny's is Euclidean, so the truncating
 quotient is written out. What a rounding mode means is stated on the real quotient,
 independently of how the code finds it.
 */
module Rounding {
  import opened Wrappers

  datatype RoundingMode = HalfEven | HalfUp | Floor | Ceil

  datatype MoneyError =
    | DivisionByZero
    | InvalidDecimal
    | NegativeTotal
    | NoWeights
    | NegativeWeight
    | ZeroWeightSum
    | DriftDetected

  /** BigInt `a / b`: the quotient truncated toward zero. */
  function TruncDiv(a: int, b: int): int
    requires b != 0
  {
    if (a < 0) == (b < 0) then Abs(a) / Abs(b) else -(Abs(a) / Abs(b))
  }

  /** BigInt `a % b`: the remainder that goes with TruncDiv; it has the sign of `a`. */
  function TruncRem(a: int, b: int): int
    requires b != 0
  {
    a - b * TruncDiv(a, b)
  }

  function Abs(a: int): nat {
    if a < 0 then -a else a
  }

  function RoundDiv(num: int, den: int, mode: RoundingMode): Result<int, MoneyError> {
    if den == 0 then
      Err(DivisionByZero)
    else
      var n := if den < 0 then -num else num;
      var d := if den < 0 then -den else den;
      Ok(Settle(TruncDiv(n, d), TruncRem(n, d), d, mode))
  }

  /** Where a truncated quotient goes, given the remainder it left over the positive divisor `d`. */
  function Settle(quotient: int, remainder: int, d: int, mode: RoundingMode): int {
    if remainder == 0 then
      quotient
    else
      var remainderIsNegative := remainder < 0;
      var absRemainder := if remainderIsNegative then -remainder else remainder;
      var roundAwayFromZero :=
        match mode
        case Floor => remainderIsNegative
        case Ceil => !remainderIsNegative
        case HalfUp => absRemainder * 2 >= d
        case HalfEven =>
          if absRemainder * 2 > d then true
          else if absRemainder * 2 < d then false
          else TruncRem(quotient, 2) != 0;
      if !roundAwayFromZero then quotient
      else if remainderIsNegative then quotient - 1
      else quotient + 1
  }

  // ----- what the modes mean

  /** The exact quotient. */
  ghost function Quotient(num: int, den: int): real
    requires den != 0
  {
    num as real / den as real
  }

  ghost function AbsReal(x: real): real {
    if x < 0.0 then -x else x
  }

  /** `q` is what `mode` makes of the real number `x`. */
  ghost predicate Rounds(x: real, mode: RoundingMode, q: int) {
    match mode
    case Floor => q as real <= x < (q + 1) as real
    case Ceil => (q - 1) as real < x <= q as real
    case HalfUp =>
      && AbsReal(x - q as real) <= 0.5
      && (AbsReal(x - q as real) == 0.5 ==> AbsReal(x) < AbsReal(q as real))
    case HalfEven =>
      && AbsReal(x - q as real) <= 0.5
      && (AbsReal(x - q as real) == 0.5 ==> q % 2 == 0)
  }

  /** The bridge from BigInt division to exact arithmetic, for every sign combination. */
  lemma {:induction false} TruncDivRem(a: int, b: int)
    requires b != 0
    ensures a == b * TruncDiv(a, b) + TruncRem(a, b)
    ensures Abs(TruncRem(a, b)) < Abs(b)
    ensures TruncRem(a, b) != 0 ==> (TruncRem(a, b) < 0 <==> a < 0)
  {
    var q, r := Abs(a) / Abs(b), Abs(a) % Abs(b);
    assert Abs(a) == Abs(b) * q + r;
    if a < 0 {
      assert TruncRem(a, b) == -r;
    } else {
      assert TruncRem(a, b) == r;
    }
  }

  /** Clearing the denominator of a normalised quotient. */
  lemma {:induction false} QuotientSplit(n: int, d: int, q: int, r: int)
    requires d > 0 && n == d * q + r
    ensures Quotient(n, d) - q as real == r as real / d as real
    ensures Quotient(n, d) * d as real == n as real
  {
    assert n as real == d as real * q as real + r as real;
  }

  lemma {:induction false} QuotientScales(num: int, den: int, k: int)
    requires den != 0 && k != 0
    ensures den * k != 0 && Quotient(num * k, den * k) == Quotient(num, den)
  {
    var x := Quotient(num, den);
    assert x * den as real == num as real;
    assert x * (den * k) as real == (num * k) as real by {
      assert (den * k) as real == den as real * k as real;
      assert (num * k) as real == num as real * k as real;
      assert x * (den as real * k as real) == x * den as real * k as real;
    }
  }

  lemma {:induction false} QuotientIs(num: int, den: int, x: real)
    requires den != 0 && x * den as real == num as real
    ensures Quotient(num, den) == x
  {
    var y := Quotient(num, den);
    assert y * den as real == num as real;
    assert (x - y) * den as real == 0.0;
  }

  lemma {:induction false} QuotientNegates(num: int, den: int)
    requires den != 0
    ensures Quotient(-num, den) == -Quotient(num, den)
  {
    var x := Quotient(num, den);
    assert x * den as real == num as real;
    QuotientIs(-num, den, -x);
  }

  /** A fraction compared with a number of halves. */
  lemma {:induction false} FractionVersusHalves(r: int, d: int, halves: int)
    requires d > 0
    ensures r as real / d as real < halves as real / 2.0 <==> 2 * r < halves * d
    ensures r as real / d as real == halves as real / 2.0 <==> 2 * r == halves * d
  {
    var f, c := r as real / d as real, halves as real / 2.0;
    var gap := f - c;
    assert f * d as real == r as real;
    assert 2.0 * (gap * d as real) == (2 * r - halves * d) as real;
    if gap > 0.0 {
      assert gap * d as real > 0.0;
    } else if gap < 0.0 {
      assert gap * d as real < 0.0;
    }
  }

  /** `r / d` compared with the bounds the rounding modes care about. */
  lemma {:induction false} FractionBounds(r: int, d: int)
    requires d > 0
    ensures r as real / d as real > 0.0 <==> r > 0
    ensures r as real / d as real < 0.0 <==> r < 0
    ensures r as real / d as real < 1.0 <==> r < d
    ensures r as real / d as real > -1.0 <==> r > -d
    ensures r as real / d as real < 0.5 <==> 2 * r < d
    ensures r as real / d as real > 0.5 <==> 2 * r > d
    ensures r as real / d as real < -0.5 <==> 2 * r < -d
    ensures r as real / d as real > -0.5 <==> 2 * r > -d
  {
    FractionVersusHalves(r, d, 0);
    FractionVersusHalves(r, d, 1);
    FractionVersusHalves(r, d, -1);
    FractionVersusHalves(r, d, 2);
    FractionVersusHalves(r, d, -2);
  }

  /** A rounding mode names at most one integer ... */
  lemma {:induction false} RoundsUnique(x: real, mode: RoundingMode, p: int, q: int)
    requires Rounds(x, mode, p) && Rounds(x, mode, q)
    ensures p == q
  {
    RoundsOrdered(x, x, mode, p, q);
    RoundsOrdered(x, x, mode, q, p);
  }

  /** ... and never reverses an order. */
  lemma {:induction false} RoundsOrdered(x: real, y: real, mode: RoundingMode, p: int, q: int)
    requires x <= y && Rounds(x, mode, p) && Rounds(y, mode, q)
    ensures p <= q
  {
  }

  /** `roundDiv` computes exactly what the mode means of the exact quotient, or fails on a zero denominator only. */
  lemma {:induction false} RoundDivCorrect(num: int, den: int, mode: RoundingMode)
    ensures den == 0 ==> RoundDiv(num, den, mode) == Err(DivisionByZero)
    ensures den != 0 ==> RoundDiv(num, den, mode).Ok?
    ensures den != 0 ==> forall q :: RoundDiv(num, den, mode) == Ok(q) <==> Rounds(Quotient(num, den), mode, q)
  {
    if den != 0 {
      RoundDivRounds(num, den, mode);
      forall q | Rounds(Quotient(num, den), mode, q)
        ensures RoundDiv(num, den, mode) == Ok(q)
      {
        RoundDivIs(num, den, mode, q);
      }
    }
  }

  lemma {:induction false} RoundDivIs(num: int, den: int, mode: RoundingMode, q: int)
    requires den != 0 && Rounds(Quotient(num, den), mode, q)
    ensures RoundDiv(num, den, mode) == Ok(q)
  {
    RoundDivRounds(num, den, mode);
    RoundsUnique(Quotient(num, den), mode, q, RoundDiv(num, den, mode).value);
  }

  lemma {:induction false} RoundDivRounds(num: int, den: int, mode: RoundingMode)
    requires den != 0
    ensures RoundDiv(num, den, mode).Ok?
    ensures Rounds(Quotient(num, den), mode, RoundDiv(num, den, mode).value)
  {
    NormalisedRoundDiv(if den < 0 then -num else num, Abs(den), mode);
    QuotientScales(num, den, -1);
  }

  lemma {:induction false} NormalisedRoundDiv(n: int, d: int, mode: RoundingMode)
    requires d > 0
    ensures Rounds(Quotient(n, d), mode, Settle(TruncDiv(n, d), TruncRem(n, d), d, mode))
  {
    var q, r := TruncDiv(n, d), TruncRem(n, d);
    TruncDivRem(n, d);
    QuotientSplit(n, d, q, r);
    FractionBounds(r, d);
    assert q < 0 ==> r <= 0 by {
      if r > 0 { assert n >= 0; }
    }
    assert q > 0 ==> r >= 0 by {
      if r < 0 { assert n < 0; }
    }
    SettleRounds(q, r, d, r as real / d as real, mode);
  }

  lemma {:induction false} SettleRounds(q: int, r: int, d: int, f: real, mode: RoundingMode)
    requires -1.0 < f < 1.0 && (q < 0 ==> r <= 0) && (q > 0 ==> r >= 0)
    requires f > 0.0 <==> r > 0
    requires f < 0.0 <==> r < 0
    requires f < 0.5 <==> 2 * r < d
    requires f > 0.5 <==> 2 * r > d
    requires f < -0.5 <==> 2 * r < -d
    requires f > -0.5 <==> 2 * r > -d
    ensures Rounds(q as real + f, mode, Settle(q, r, d, mode))
  {
    TruncDivRem(q, 2);
  }

  // ----- laws, each a consequence of what the modes mean

  /** Monotone in the exact quotient, whatever the signs of the denominators. */
  lemma {:induction false} RoundDivMonotone(num1: int, den1: int, num2: int, den2: int, mode: RoundingMode)
    requires den1 != 0 && den2 != 0
    requires Quotient(num1, den1) <= Quotient(num2, den2)
    ensures RoundDiv(num1, den1, mode).Ok? && RoundDiv(num2, den2, mode).Ok?
    ensures RoundDiv(num1, den1, mode).value <= RoundDiv(num2, den2, mode).value
  {
    RoundDivRounds(num1, den1, mode);
    RoundDivRounds(num2, den2, mode);
    RoundsOrdered(Quotient(num1, den1), Quotient(num2, den2), mode,
                  RoundDiv(num1, den1, mode).value, RoundDiv(num2, den2, mode).value);
  }

  /** In the numerator: monotone over a positive denominator, antitone over a negative one. */
  lemma {:induction false} RoundDivMonotoneInNumerator(num1: int, num2: int, den: int, mode: RoundingMode)
    requires den != 0 && num1 <= num2
    ensures RoundDiv(num1, den, mode).Ok? && RoundDiv(num2, den, mode).Ok?
    ensures den > 0 ==> RoundDiv(num1, den, mode).value <= RoundDiv(num2, den, mode).value
    ensures den < 0 ==> RoundDiv(num2, den, mode).value <= RoundDiv(num1, den, mode).value
  {
    var x1, x2 := Quotient(num1, den), Quotient(num2, den);
    assert x1 * den as real == num1 as real && x2 * den as real == num2 as real;
    if den > 0 {
      assert x1 <= x2;
      RoundDivMonotone(num1, den, num2, den, mode);
    } else {
      assert x2 <= x1;
      RoundDivMonotone(num2, den, num1, den, mode);
    }
  }

  /** Scaling numerator and denominator by the same nonzero factor changes nothing. */
  lemma {:induction false} RoundDivScaleInvariant(num: int, den: int, k: int, mode: RoundingMode)
    requires k != 0
    ensures RoundDiv(num * k, den * k, mode) == RoundDiv(num, den, mode)
  {
    if den != 0 {
      QuotientScales(num, den, k);
      RoundDivRounds(num, den, mode);
      RoundDivIs(num * k, den * k, mode, RoundDiv(num, den, mode).value);
    } else {
      assert den * k == 0;
    }
  }

  /** The mode that treats a number as `mode` treats its negation. */
  function Mirror(mode: RoundingMode): RoundingMode {
    match mode
    case Floor => Ceil
    case Ceil => Floor
    case _ => mode
  }

  /** The half modes are odd; Floor and Ceil are each other's duals. */
  lemma {:induction false} RoundDivMirrors(num: int, den: int, mode: RoundingMode)
    requires den != 0
    ensures RoundDiv(num, den, mode).Ok? && RoundDiv(-num, den, Mirror(mode)).Ok?
    ensures RoundDiv(-num, den, Mirror(mode)).value == -RoundDiv(num, den, mode).value
  {
    RoundDivRounds(num, den, mode);
    var x, v := Quotient(num, den), RoundDiv(num, den, mode).value;
    QuotientNegates(num, den);
    RoundsMirrors(x, mode, v);
    RoundDivIs(-num, den, Mirror(mode), -v);
  }

  lemma {:induction false} RoundsMirrors(x: real, mode: RoundingMode, q: int)
    requires Rounds(x, mode, q)
    ensures Rounds(-x, Mirror(mode), -q)
  {
  }

  /** An exact quotient is returned unchanged in every mode. */
  lemma {:induction false} RoundDivExact(q: int, den: int, mode: RoundingMode)
    requires den != 0
    ensures RoundDiv(q * den, den, mode) == Ok(q)
  {
    QuotientIs(q * den, den, q as real);
    RoundDivIs(q * den, den, mode, q);
  }

  /** In Floor mode over a positive denominator the code agrees with Dafny's own division. */
  lemma {:induction false} FloorIsDivision(num: int, den: int)
    requires den > 0
    ensures RoundDiv(num, den, Floor) == Ok(num / den)
    ensures num - num / den * den == num % den
  {
    QuotientSplit(num, den, num / den, num % den);
    FractionBounds(num % den, den);
    RoundDivIs(num, den, Floor, num / den);
  }

  lemma {:induction false} CeilIsNext(num: int, den: int)
    requires den > 0 && num % den != 0
    ensures RoundDiv(num, den, Ceil) == Ok(num / den + 1)
  {
    QuotientSplit(num, den, num / den, num % den);
    FractionBounds(num % den, den);
    RoundDivIs(num, den, Ceil, num / den + 1);
  }
}
