/**
 Exact decimals: the storage envelope, half-even quantisation and guarded addition.

 A decimal is a sign, a coefficient and a power of ten, as in the source's arithmetic library, so two
 decimals can be the same number written differently. Numbers are compared through `Scaled`, the
 integer a decimal becomes once enough fractional places are kept.
 */
module Decimals {
  import opened Common
  import opened Arithmetic

  datatype Decimal = Finite(negative: bool, coefficient: nat, exponent: int) | NonFinite

  datatype NumericError =
    | InvalidDecimalFormat
    | InvalidScale
    | OutOfRange
    | NonFiniteValue
    | AmountMustBePositive
    | InvalidCurrency
    | UnsupportedCurrency
    | CurrencyMismatch

  datatype Spec = Spec(precision: nat, scale: nat)

  const MONEY_STORAGE := Spec(24, 4)
  const EXCHANGE_RATE := Spec(24, 12)
  const RATIO := Spec(18, 10)
  const QUANTITY := Spec(24, 8)
  const UNIT_PRICE := Spec(24, 8)

  /** Digits carried by the calculation context. */
  const CONTEXT_DIGITS: nat := 50

  const ZERO := Finite(false, 0, 0)

  /** An envelope the calculation context can serve: every declared one is. */
  predicate Served(spec: Spec) {
    spec.scale < spec.precision && spec.precision < CONTEXT_DIGITS
  }

  lemma DeclaredSpecsAreServed()
    ensures Served(MONEY_STORAGE) && Served(EXCHANGE_RATE) && Served(RATIO) && Served(QUANTITY) && Served(UNIT_PRICE)
  {
  }

  /** How many decimal digits a coefficient is written with. */
  function Digits(n: nat): (d: nat)
    ensures d >= 1
  {
    if n < 10 then 1 else 1 + Digits(n / 10)
  }

  function Scale(v: Decimal): nat
    requires v.Finite?
  {
    if v.exponent < 0 then -v.exponent else 0
  }

  function IntegerDigits(v: Decimal): int
    requires v.Finite?
  {
    if v.coefficient == 0 then 1
    else if Digits(v.coefficient) + v.exponent < 1 then 1
    else Digits(v.coefficient) + v.exponent
  }

  function ValidateDecimal(v: Decimal, spec: Spec): Result<Decimal, NumericError> {
    if v.NonFinite? then Err(NonFiniteValue)
    else if Scale(v) > spec.scale then Err(InvalidScale)
    else if IntegerDigits(v) > spec.precision - spec.scale then Err(OutOfRange)
    else Ok(if v.coefficient == 0 then ZERO else v)
  }

  /** The integer `v * 10^places`. */
  function Scaled(v: Decimal, places: nat): int
    requires v.Finite? && v.exponent + places >= 0
  {
    var m := v.coefficient * Pow10(v.exponent + places);
    if v.negative then -m else m
  }

  /** Equal as numbers, however they are written. */
  ghost predicate SameNumber(a: Decimal, b: Decimal) {
    && a.Finite? && b.Finite?
    && exists places: nat :: a.exponent + places >= 0 && b.exponent + places >= 0 && Scaled(a, places) == Scaled(b, places)
  }

  // ---- Powers and digits -------------------------------------------------------------------

  lemma {:induction false} DigitsBound(n: nat)
    ensures n < Pow10(Digits(n))
    ensures n > 0 ==> Pow10(Digits(n) - 1) <= n
  {
    if n >= 10 {
      DigitsBound(n / 10);
    }
  }

  /** A positive number has at most `k` digits exactly when it is below the `k`-th power of ten. */
  lemma DigitsExactly(n: nat, k: nat)
    requires n > 0
    ensures Digits(n) <= k <==> n < Pow10(k)
  {
  }

  /** The digits of `v` left of the point number at most `k` exactly when `v` is below `10^k`. */
  lemma IntegerDigitsExactly(v: Decimal, k: nat, places: nat)
    requires v.Finite? && v.exponent + places >= 0 && k >= 1
    ensures IntegerDigits(v) <= k <==> Magnitude(Scaled(v, places)) < Pow10(k + places)
  {
    var e := v.exponent + places;
    assert Magnitude(Scaled(v, places)) == v.coefficient * Pow10(e) by {
      MulIsMonotone(0, v.coefficient, Pow10(e));
    }
    if v.coefficient > 0 {
      if k + places >= e {
        DigitsExactly(v.coefficient, k + places - e);
        Pow10Adds(k + places - e, e);
        MulIsStrict(v.coefficient, Pow10(k + places - e), Pow10(e));
      } else {
        Pow10Grows(k + places, e);
        MulIsMonotone(1, v.coefficient, Pow10(e));
      }
    }
  }

  /** What the envelope check means: the number fits a column of that precision and scale. */
  lemma ValidateExactly(v: Decimal, spec: Spec)
    requires v.Finite? && spec.scale < spec.precision
    ensures Scale(v) > spec.scale ==> ValidateDecimal(v, spec) == Err(InvalidScale)
    ensures Scale(v) <= spec.scale ==>
              if Magnitude(Scaled(v, spec.scale)) < Pow10(spec.precision)
              then ValidateDecimal(v, spec).Ok? && SameNumber(ValidateDecimal(v, spec).value, v)
                   && ValidateDecimal(v, spec).value.exponent >= -(spec.scale as int)
              else ValidateDecimal(v, spec) == Err(OutOfRange)
  {
    if Scale(v) <= spec.scale {
      IntegerDigitsExactly(v, spec.precision - spec.scale, spec.scale);
      assert Scaled(ZERO, spec.scale) == 0;
      if v.coefficient == 0 {
        assert Scaled(v, spec.scale) == 0;
      }
    }
  }

  /** The number fits in so many digits, so many of them behind the point. */
  ghost predicate FitsIn(v: Decimal, precision: nat, scale: nat) {
    v.Finite? && Scale(v) <= scale && Magnitude(Scaled(v, scale)) < Pow10(precision)
  }

  /** The declared envelopes, each with its own digits: money, rates of exchange, ratios, quantities and unit prices. */
  lemma DeclaredEnvelopes(v: Decimal)
    ensures ValidateDecimal(v, MONEY_STORAGE).Ok? <==> FitsIn(v, 24, 4)
    ensures ValidateDecimal(v, EXCHANGE_RATE).Ok? <==> FitsIn(v, 24, 12)
    ensures ValidateDecimal(v, RATIO).Ok? <==> FitsIn(v, 18, 10)
    ensures ValidateDecimal(v, QUANTITY).Ok? <==> FitsIn(v, 24, 8)
    ensures ValidateDecimal(v, UNIT_PRICE).Ok? <==> FitsIn(v, 24, 8)
  {
    if v.Finite? {
      ValidateExactly(v, MONEY_STORAGE);
      ValidateExactly(v, EXCHANGE_RATE);
      ValidateExactly(v, RATIO);
      ValidateExactly(v, QUANTITY);
      ValidateExactly(v, UNIT_PRICE);
    }
  }

  lemma ScaledShifts(v: Decimal, places: nat, more: nat)
    requires v.Finite? && v.exponent + places >= 0
    ensures Scaled(v, places + more) == Scaled(v, places) * Pow10(more)
  {
    Pow10Adds(v.exponent + places, more);
    MulAssociates(v.coefficient, Pow10(v.exponent + places), Pow10(more));
    MulNegates(v.coefficient * Pow10(v.exponent + places), Pow10(more));
  }

  lemma SameNumberAnywhere(a: Decimal, b: Decimal, places: nat)
    requires SameNumber(a, b) && a.exponent + places >= 0 && b.exponent + places >= 0
    ensures Scaled(a, places) == Scaled(b, places)
  {
    var k: nat :| a.exponent + k >= 0 && b.exponent + k >= 0 && Scaled(a, k) == Scaled(b, k);
    if k <= places {
      ScaledShifts(a, k, places - k);
      ScaledShifts(b, k, places - k);
    } else {
      ScaledShifts(a, places, k - places);
      ScaledShifts(b, places, k - places);
      MulIsStrict(Scaled(a, places), Scaled(b, places), Pow10(k - places));
    }
  }

  // ---- Half-even rounding ------------------------------------------------------------------

  /** `n / d` rounded to the nearest integer, a tie going to the even one. */
  function RoundHalfEven(n: nat, d: nat): nat
    requires d > 0
  {
    var q, r := n / d, n % d;
    if 2 * r < d || (2 * r == d && q % 2 == 0) then q else q + 1
  }

  function RoundSigned(n: int, d: nat): int
    requires d > 0
  {
    if n < 0 then -(RoundHalfEven(-n, d) as int) else RoundHalfEven(n, d)
  }

  /** Decimal quantisation under the calculation context; None is the trapped invalid operation. */
  function Quantized(v: Decimal, scale: nat): Option<Decimal>
    requires v.Finite?
  {
    var shift := v.exponent + scale;
    if v.coefficient == 0 then Some(Finite(v.negative, 0, -(scale as int)))
    else if Digits(v.coefficient) + shift > CONTEXT_DIGITS then None
    else
      var r := if shift >= 0 then v.coefficient * Pow10(shift) else RoundHalfEven(v.coefficient, Pow10(-shift));
      if Digits(r) > CONTEXT_DIGITS then None else Some(Finite(v.negative, r, -(scale as int)))
  }

  function QuantizeExact(v: Decimal, scale: nat, spec: Spec): Result<Decimal, NumericError> {
    if v.NonFinite? then Err(NonFiniteValue)
    else match Quantized(v, scale)
      case None => Err(OutOfRange)
      case Some(q) => ValidateDecimal(q, spec)
  }

  function AddExact(left: Decimal, right: Decimal, spec: Spec): Result<Decimal, NumericError> {
    if ValidateDecimal(left, spec).Err? then ValidateDecimal(left, spec)
    else if ValidateDecimal(right, spec).Err? then ValidateDecimal(right, spec)
    else ValidateDecimal(ContextSum(left, right), spec)
  }

  function SubtractExact(left: Decimal, right: Decimal, spec: Spec): Result<Decimal, NumericError> {
    if ValidateDecimal(left, spec).Err? then ValidateDecimal(left, spec)
    else if ValidateDecimal(right, spec).Err? then ValidateDecimal(right, spec)
    else ValidateDecimal(ContextSum(left, Negated(right)), spec)
  }

  function Negated(v: Decimal): Decimal {
    match v
    case NonFinite => NonFinite
    case Finite(n, c, e) => Finite(!n, c, e)
  }

  /** The exact sum, cut to the context's digits by half-even rounding when it is longer than that. */
  function ContextSum(left: Decimal, right: Decimal): Decimal
    requires left.Finite? && right.Finite?
  {
    var e := if left.exponent <= right.exponent then left.exponent else right.exponent;
    var n := SignedAt(left, e) + SignedAt(right, e);
    var m := Magnitude(n);
    var excess := Digits(m) - CONTEXT_DIGITS;
    if excess <= 0 then Finite(n < 0, m, e)
    else Finite(n < 0, RoundHalfEven(m, Pow10(excess)), e + excess)
  }

  /** `v` as a multiple of `10^e`. */
  function SignedAt(v: Decimal, e: int): int
    requires v.Finite? && e <= v.exponent
  {
    var m := v.coefficient * Pow10(v.exponent - e);
    if v.negative then -m else m
  }

  lemma RoundHalfEvenIsNearest(m: nat, d: nat, j: int)
    requires d > 0
    ensures var r := RoundHalfEven(m, d);
            && Magnitude(m - r * d) <= Magnitude(m - j * d)
            && (j != r && Magnitude(m - r * d) == Magnitude(m - j * d) ==> r % 2 == 0)
  {
    var q, rest := m / d, m % d;
    DivModFacts(m, d);
    MulDistributes(q, 1, d);
    MulDistributes(q, 2, d);
    if j < q {
      MulIsMonotone(j, q - 1, d);
    } else if j > q + 1 {
      MulIsMonotone(q + 2, j, d);
    }
    MulDistributes(q, 1, d);
    var qd, jd := q * d, j * d;
    assert j < q ==> jd <= qd - d;
    assert j > q + 1 ==> jd >= qd + 2 * d;
    assert j == q ==> jd == qd;
    assert j == q + 1 ==> jd == qd + d;
    NearestCase(m, d, qd, rest, jd, q, j);
  }

  /** The case analysis behind the previous lemma, with the products named. */
  lemma NearestCase(m: nat, d: nat, qd: int, rest: int, jd: int, q: nat, j: int)
    requires d > 0 && m == qd + rest && 0 <= rest < d
    requires j < q ==> jd <= qd - d
    requires j > q + 1 ==> jd >= qd + 2 * d
    requires j == q ==> jd == qd
    requires j == q + 1 ==> jd == qd + d
    ensures var up := !(2 * rest < d || (2 * rest == d && q % 2 == 0));
            var r, rd := if up then q + 1 else q, if up then qd + d else qd;
            && Magnitude(m - rd) <= Magnitude(m - jd)
            && (j != r && Magnitude(m - rd) == Magnitude(m - jd) ==> r % 2 == 0)
  {
  }

  /** No multiple of `d` is nearer to `n` than the rounded one, and only an even one wins a tie. */
  lemma RoundSignedIsNearest(n: int, d: nat, k: int)
    requires d > 0
    ensures var r := RoundSigned(n, d);
            && Magnitude(n - r * d) <= Magnitude(n - k * d)
            && (k != r && Magnitude(n - r * d) == Magnitude(n - k * d) ==> r % 2 == 0)
  {
    if n < 0 {
      RoundHalfEvenIsNearest(-n, d, -k);
      MulNegates(k, d);
      MulNegates(RoundHalfEven(-n, d), d);
    } else {
      RoundHalfEvenIsNearest(n, d, k);
    }
  }

  lemma RoundSignedIsMonotone(m: int, n: int, d: nat)
    requires d > 0 && m <= n
    ensures RoundSigned(m, d) <= RoundSigned(n, d)
  {
    var a, b := RoundSigned(m, d), RoundSigned(n, d);
    if b < a {
      RoundSignedIsNearest(m, d, b);
      RoundSignedIsNearest(n, d, a);
      MulIsMonotone(b + 1, a, d);
      MulDistributes(b, 1, d);
      var ad, bd := a * d, b * d;
      assert false;
    }
  }

  lemma RoundSignedIsOdd(n: int, d: nat)
    requires d > 0
    ensures RoundSigned(-n, d) == -RoundSigned(n, d)
  {
  }

  lemma RoundSignedOfMultiple(k: int, d: nat)
    requires d > 0
    ensures RoundSigned(k * d, d) == k
  {
    if k < 0 {
      MulNegates(k, d);
      MulIsStrict(k, 0, d);
      DivModUnique(-(k * d), d, -k, 0);
    } else {
      MulIsMonotone(0, k, d);
      DivModUnique(k * d, d, k, 0);
    }
  }

  lemma RoundHalfEvenIgnoresCommonFactor(m: nat, d: nat, f: nat)
    requires d > 0 && f > 0
    ensures d * f > 0 && m * f >= 0 && RoundHalfEven(m * f, d * f) == RoundHalfEven(m, d)
  {
    var q, r := m / d, m % d;
    DivModFacts(m, d);
    MulIsStrict(0, d, f);
    MulIsMonotone(0, m, f);
    MulDistributes(q * d, r, f);
    MulAssociates(q, d, f);
    MulIsMonotone(0, r, f);
    MulIsStrict(r, d, f);
    DivModUnique(m * f, d * f, q, r * f);
    MulIsStrict(2 * r, d, f);
    MulAssociates(2, r, f);
  }

  /** Keeping more places first does not change what rounding gives. */
  lemma RoundSignedIgnoresCommonFactor(n: int, d: nat, f: nat)
    requires d > 0 && f > 0
    ensures d * f > 0 && RoundSigned(n * f, d * f) == RoundSigned(n, d)
  {
    MulIsStrict(n, 0, f);
    if n < 0 {
      RoundHalfEvenIgnoresCommonFactor(-n, d, f);
      MulNegates(n, f);
    } else {
      RoundHalfEvenIgnoresCommonFactor(n, d, f);
    }
  }

  // ---- Quantisation ------------------------------------------------------------------------

  /** `v` rounded half-even to a multiple of `10^-scale`, with no limit on digits. */
  function RoundedAt(v: Decimal, scale: nat): int
    requires v.Finite?
  {
    var places := if Scale(v) <= scale then scale else Scale(v);
    RoundSigned(Scaled(v, places), Pow10(places - scale))
  }

  lemma RoundedAtPlaces(v: Decimal, scale: nat, places: nat)
    requires v.Finite? && scale <= places && v.exponent + places >= 0
    ensures RoundedAt(v, scale) == RoundSigned(Scaled(v, places), Pow10(places - scale))
  {
    var least := if Scale(v) <= scale then scale else Scale(v);
    ScaledShifts(v, least, places - least);
    Pow10Adds(least - scale, places - least);
    RoundSignedIgnoresCommonFactor(Scaled(v, least), Pow10(least - scale), Pow10(places - least));
  }

  /** The coefficient quantisation computes is the rounded magnitude. */
  lemma QuantizedCoefficient(v: Decimal, scale: nat)
    requires v.Finite?
    ensures var shift := v.exponent + scale;
            Magnitude(RoundedAt(v, scale))
            == if shift >= 0 then v.coefficient * Pow10(shift) else RoundHalfEven(v.coefficient, Pow10(-shift))
    ensures v.negative ==> RoundedAt(v, scale) <= 0
    ensures !v.negative ==> RoundedAt(v, scale) >= 0
  {
  }

  lemma RoundingKeepsMultiplesBelow(n: nat, d: nat, k: nat)
    requires d > 0 && k * d <= n
    ensures k <= RoundHalfEven(n, d)
  {
    RoundSignedOfMultiple(k, d);
    RoundSignedIsMonotone(k * d, n, d);
  }

  /** Too many digits for the context means the rounded number really is that large. */
  lemma ContextLimitMeansLarge(v: Decimal, scale: nat)
    requires v.Finite? && v.coefficient > 0
    requires Digits(v.coefficient) + v.exponent + scale > CONTEXT_DIGITS
    ensures Magnitude(RoundedAt(v, scale)) >= Pow10(CONTEXT_DIGITS)
  {
    QuantizedCoefficient(v, scale);
    LongCoefficientIsLarge(v.coefficient, v.exponent + scale, CONTEXT_DIGITS);
  }

  lemma LongCoefficientIsLarge(c: nat, shift: int, limit: nat)
    requires c > 0 && Digits(c) + shift > limit
    ensures (if shift >= 0 then c * Pow10(shift) else RoundHalfEven(c, Pow10(-shift))) >= Pow10(limit)
  {
    var d := Digits(c);
    DigitsBound(c);
    Pow10Grows(limit, d - 1 + shift);
    if shift >= 0 {
      ShiftedUpIsLarge(c, d - 1, shift);
    } else {
      ShiftedDownIsLarge(c, d - 1 + shift, -shift);
    }
  }

  lemma ShiftedUpIsLarge(c: nat, k: nat, shift: nat)
    requires Pow10(k) <= c
    ensures c * Pow10(shift) >= Pow10(k + shift)
  {
    MulIsMonotone(Pow10(k), c, Pow10(shift));
    Pow10Adds(k, shift);
  }

  lemma ShiftedDownIsLarge(c: nat, k: nat, shift: nat)
    requires Pow10(k + shift) <= c
    ensures RoundHalfEven(c, Pow10(shift)) >= Pow10(k)
  {
    Pow10Adds(k, shift);
    RoundingKeepsMultiplesBelow(c, Pow10(shift), Pow10(k));
  }

  lemma ZeroRoundsToZero(v: Decimal, scale: nat)
    requires v.Finite? && v.coefficient == 0
    ensures RoundedAt(v, scale) == 0
  {
  }

  lemma ValidateRounded(negative: bool, r: nat, scale: nat, spec: Spec)
    requires scale <= spec.scale < spec.precision
    ensures var q := Finite(negative, r, -(scale as int));
            ValidateDecimal(q, spec) == if r < Pow10(spec.precision - spec.scale + scale) then Ok(if r == 0 then ZERO else q) else Err(OutOfRange)
    ensures Scaled(Finite(negative, r, -(scale as int)), scale) == if negative then -(r as int) else r
    ensures Scaled(ZERO, scale) == 0
  {
    IntegerDigitsExactly(Finite(negative, r, -(scale as int)), spec.precision - spec.scale, scale);
    assert Pow10(0) == 1 && r * 1 == r;
  }

  /**
   Quantisation gives the half-even rounding at that scale whenever the rounded number fits the
   envelope, and reports OUT_OF_RANGE in exactly the other cases: the calculation context never
   refuses a number the envelope would take.
   */
  lemma QuantizeExactly(v: Decimal, scale: nat, spec: Spec)
    requires v.Finite? && scale <= spec.scale && Served(spec)
    ensures if Magnitude(RoundedAt(v, scale)) < Pow10(spec.precision - spec.scale + scale)
            then QuantizeExact(v, scale, spec).Ok?
                 && QuantizeExact(v, scale, spec).value.Finite?
                 && QuantizeExact(v, scale, spec).value.exponent + scale >= 0
                 && Scaled(QuantizeExact(v, scale, spec).value, scale) == RoundedAt(v, scale)
                 && (RoundedAt(v, scale) != 0 ==> QuantizeExact(v, scale, spec).value == Finite(v.negative, Magnitude(RoundedAt(v, scale)), -(scale as int)))
            else QuantizeExact(v, scale, spec) == Err(OutOfRange)
  {
    var r := Magnitude(RoundedAt(v, scale));
    var limit := spec.precision - spec.scale + scale;
    QuantizedCoefficient(v, scale);
    Pow10Grows(limit, CONTEXT_DIGITS);
    if v.coefficient == 0 {
      ZeroRoundsToZero(v, scale);
      assert ValidateDecimal(Finite(v.negative, 0, -(scale as int)), spec) == Ok(ZERO);
    } else if Digits(v.coefficient) + v.exponent + scale > CONTEXT_DIGITS {
      ContextLimitMeansLarge(v, scale);
    } else {
      if r > 0 {
        DigitsExactly(r, CONTEXT_DIGITS);
      }
      if Digits(r) <= CONTEXT_DIGITS {
        assert Quantized(v, scale) == Some(Finite(v.negative, r, -(scale as int)));
        ValidateRounded(v.negative, r, scale, spec);
      }
    }
  }

  /** No multiple of `10^-scale` is nearer to `v`, and a tie goes to the even one. */
  lemma QuantizeIsNearest(v: Decimal, scale: nat, spec: Spec, k: int, places: nat)
    requires v.Finite? && scale <= spec.scale && Served(spec)
    requires QuantizeExact(v, scale, spec).Ok?
    requires scale <= places && v.exponent + places >= 0
    ensures QuantizeExact(v, scale, spec).value.Finite? && QuantizeExact(v, scale, spec).value.exponent + scale >= 0
    ensures var r := Scaled(QuantizeExact(v, scale, spec).value, scale);
            var step := Pow10(places - scale);
            && Magnitude(Scaled(v, places) - r * step) <= Magnitude(Scaled(v, places) - k * step)
            && (k != r && Magnitude(Scaled(v, places) - r * step) == Magnitude(Scaled(v, places) - k * step) ==> r % 2 == 0)
  {
    QuantizeExactly(v, scale, spec);
    RoundedAtPlaces(v, scale, places);
    RoundSignedIsNearest(Scaled(v, places), Pow10(places - scale), k);
  }

  lemma QuantizeIsMonotone(a: Decimal, b: Decimal, scale: nat, spec: Spec, places: nat)
    requires a.Finite? && b.Finite? && scale <= spec.scale && Served(spec)
    requires scale <= places && a.exponent + places >= 0 && b.exponent + places >= 0
    requires Scaled(a, places) <= Scaled(b, places)
    requires QuantizeExact(a, scale, spec).Ok? && QuantizeExact(b, scale, spec).Ok?
    ensures QuantizeExact(a, scale, spec).value.Finite? && QuantizeExact(b, scale, spec).value.Finite?
    ensures QuantizeExact(a, scale, spec).value.exponent + scale >= 0 && QuantizeExact(b, scale, spec).value.exponent + scale >= 0
    ensures Scaled(QuantizeExact(a, scale, spec).value, scale) <= Scaled(QuantizeExact(b, scale, spec).value, scale)
  {
    QuantizeExactly(a, scale, spec);
    QuantizeExactly(b, scale, spec);
    RoundedAtPlaces(a, scale, places);
    RoundedAtPlaces(b, scale, places);
    RoundSignedIsMonotone(Scaled(a, places), Scaled(b, places), Pow10(places - scale));
  }

  lemma QuantizeIsOdd(v: Decimal, scale: nat, spec: Spec)
    requires v.Finite? && scale <= spec.scale && Served(spec)
    ensures QuantizeExact(v, scale, spec).Ok? <==> QuantizeExact(Negated(v), scale, spec).Ok?
    ensures QuantizeExact(v, scale, spec).Ok? ==> SameNumber(QuantizeExact(Negated(v), scale, spec).value, Negated(QuantizeExact(v, scale, spec).value))
  {
    var places := if Scale(v) <= scale then scale else Scale(v);
    QuantizeExactly(v, scale, spec);
    QuantizeExactly(Negated(v), scale, spec);
    assert Scaled(Negated(v), places) == -Scaled(v, places);
    RoundSignedIsOdd(Scaled(v, places), Pow10(places - scale));
    if QuantizeExact(v, scale, spec).Ok? {
      var q, n := QuantizeExact(v, scale, spec).value, QuantizeExact(Negated(v), scale, spec).value;
      assert Scaled(Negated(q), scale) == -Scaled(q, scale) == Scaled(n, scale);
    }
  }

  /** A number that needs no more than `scale` places is returned unchanged, if it fits. */
  lemma QuantizeKeepsExact(v: Decimal, scale: nat, spec: Spec)
    requires v.Finite? && scale <= spec.scale && Served(spec) && v.exponent + scale >= 0
    requires Magnitude(Scaled(v, scale)) < Pow10(spec.precision - spec.scale + scale)
    ensures QuantizeExact(v, scale, spec).Ok? && SameNumber(QuantizeExact(v, scale, spec).value, v)
    ensures QuantizeExact(v, scale, spec).value.exponent + scale >= 0
  {
    RoundedAtPlaces(v, scale, scale);
    assert Pow10(0) == 1 && Scaled(v, scale) * 1 == Scaled(v, scale);
    RoundSignedOfMultiple(Scaled(v, scale), 1);
    QuantizeExactly(v, scale, spec);
  }

  lemma QuantizeIsIdempotent(v: Decimal, scale: nat, spec: Spec)
    requires v.Finite? && scale <= spec.scale && Served(spec) && QuantizeExact(v, scale, spec).Ok?
    ensures QuantizeExact(QuantizeExact(v, scale, spec).value, scale, spec) == QuantizeExact(v, scale, spec)
  {
  }

  // ---- Addition ----------------------------------------------------------------------------

  /** Two numbers of the envelope are added exactly: their sum never reaches the context's digits. */
  lemma SumIsExact(a: Decimal, b: Decimal, spec: Spec)
    requires a.Finite? && b.Finite? && Served(spec)
    requires Scale(a) <= spec.scale && Scale(b) <= spec.scale
    requires Magnitude(Scaled(a, spec.scale)) < Pow10(spec.precision) && Magnitude(Scaled(b, spec.scale)) < Pow10(spec.precision)
    ensures ContextSum(a, b).Finite? && ContextSum(a, b).exponent + spec.scale >= 0 && Scale(ContextSum(a, b)) <= spec.scale
    ensures Scaled(ContextSum(a, b), spec.scale) == Scaled(a, spec.scale) + Scaled(b, spec.scale)
  {
    var e := if a.exponent <= b.exponent then a.exponent else b.exponent;
    var n := SignedAt(a, e) + SignedAt(b, e);
    var m := Magnitude(n);
    var up := Pow10(e + spec.scale);
    SignedAtScales(a, e, spec.scale);
    SignedAtScales(b, e, spec.scale);
    MulDistributes(SignedAt(a, e), SignedAt(b, e), up);
    MagnitudeOfProduct(n, up);
    MulNegates(m, up);
    SmallSumFits(n, up, Scaled(a, spec.scale), Scaled(b, spec.scale), spec.precision);
    assert ContextSum(a, b) == Finite(n < 0, m, e);
  }

  lemma SmallSumFits(n: int, up: int, x: int, y: int, precision: nat)
    requires up >= 1 && n * up == x + y && precision < CONTEXT_DIGITS
    requires Magnitude(x) < Pow10(precision) && Magnitude(y) < Pow10(precision)
    ensures Digits(Magnitude(n)) <= CONTEXT_DIGITS
  {
    var m := Magnitude(n);
    MagnitudeOfProduct(n, up);
    MulIsMonotone(1, up, m);
    Pow10Grows(precision, CONTEXT_DIGITS);
    if m > 0 {
      DigitsExactly(m, CONTEXT_DIGITS);
    }
  }

  lemma SignedAtScales(v: Decimal, e: int, places: nat)
    requires v.Finite? && e <= v.exponent && e + places >= 0
    ensures SignedAt(v, e) * Pow10(e + places) == Scaled(v, places)
  {
    var c, p, q := v.coefficient, Pow10(v.exponent - e), Pow10(e + places);
    Pow10Adds(v.exponent - e, e + places);
    MulAssociates(c, p, q);
    MulNegates(c * p, q);
  }
}
