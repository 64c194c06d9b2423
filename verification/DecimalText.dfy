/**
 The plain-decimal text form: what is accepted, and what is printed.

 Accepted text is a numeral: an optional sign where signs are allowed, digits without a leading zero,
 and optionally a point followed by digits. Printing always produces such a numeral, with a fixed
 number of fractional digits and never a negative zero, and the two directions undo each other.
 */
module DecimalText {
  import opened Common
  import opened Arithmetic
  import opened Decimals

  datatype Numeral = Numeral(negative: bool, whole: string, fraction: Option<string>)

  predicate IsDigit(c: char) {
    '0' <= c <= '9'
  }

  predicate AllDigits(s: string) {
    forall i :: 0 <= i < |s| ==> IsDigit(s[i])
  }

  function DigitValue(c: char): (d: nat)
    requires IsDigit(c)
    ensures d < 10
  {
    c as int - '0' as int
  }

  function DigitChar(d: nat): (c: char)
    requires d < 10
    ensures IsDigit(c) && DigitValue(c) == d
  {
    "0123456789"[d]
  }

  lemma DigitCharInverts(c: char)
    requires IsDigit(c)
    ensures DigitChar(DigitValue(c)) == c
  {
  }

  // ---- Numerals as text --------------------------------------------------------------------

  predicate WellFormed(n: Numeral, signed: bool) {
    && (n.negative ==> signed)
    && n.whole != "" && AllDigits(n.whole) && (|n.whole| > 1 ==> n.whole[0] != '0')
    && (n.fraction.Some? ==> n.fraction.value != "" && AllDigits(n.fraction.value))
  }

  function FractionText(n: Numeral): string {
    match n.fraction
    case None => ""
    case Some(f) => f
  }

  function Unparse(n: Numeral): string {
    (if n.negative then "-" else "") + (n.whole + PointText(n))
  }

  function DotIndex(s: string): (i: nat)
    ensures i <= |s|
    ensures forall j :: 0 <= j < i ==> s[j] != '.'
    ensures i < |s| ==> s[i] == '.'
  {
    if s == "" || s[0] == '.' then 0 else 1 + DotIndex(s[1..])
  }

  /** The full match of the source's two patterns, signed and unsigned. */
  function Match(text: string, signed: bool): Option<Numeral> {
    var negative := signed && text != "" && text[0] == '-';
    var body := if negative then text[1..] else text;
    var dot := DotIndex(body);
    var n := Numeral(negative, body[..dot], if dot < |body| then Some(body[dot + 1..]) else None);
    if WellFormed(n, signed) then Some(n) else None
  }

  lemma DotIndexIsFirst(s: string, i: nat)
    requires i <= |s| && (forall j :: 0 <= j < i ==> s[j] != '.') && (i < |s| ==> s[i] == '.')
    ensures DotIndex(s) == i
  {
  }

  /** What a match says about the text behind the sign. */
  lemma MatchParts(text: string, signed: bool, n: Numeral)
    requires Match(text, signed) == Some(n)
    ensures WellFormed(n, signed) && (n.negative ==> text != "" && text[0] == '-')
    ensures var body, dot := if n.negative then text[1..] else text, |n.whole|;
            && dot <= |body| && n.whole == body[..dot] && (dot < |body| ==> body[dot] == '.')
            && n.fraction == if dot < |body| then Some(body[dot + 1..]) else None
  {
  }

  lemma BodyRejoins(n: Numeral, body: string)
    requires |n.whole| <= |body| && n.whole == body[..|n.whole|] && (|n.whole| < |body| ==> body[|n.whole|] == '.')
    requires n.fraction == if |n.whole| < |body| then Some(body[|n.whole| + 1..]) else None
    ensures n.whole + PointText(n) == body
  {
    SplitsAtPoint(body, |n.whole|);
  }

  lemma MatchedIsUnparsed(text: string, signed: bool, n: Numeral)
    requires Match(text, signed) == Some(n)
    ensures WellFormed(n, signed) && text == Unparse(n)
  {
    MatchParts(text, signed, n);
    BodyRejoins(n, if n.negative then text[1..] else text);
    assert n.negative ==> text == "-" + text[1..];
  }

  lemma SplitsAtPoint(body: string, i: nat)
    requires i <= |body| && (i < |body| ==> body[i] == '.')
    ensures body == body[..i] + (if i < |body| then "." + body[i + 1..] else "")
  {
    assert i < |body| ==> body[i..] == "." + body[i + 1..];
  }

  /** Text matches exactly when it is the writing of a well-formed numeral, and then of one only. */
  lemma MatchesExactlyNumerals(text: string, signed: bool, n: Numeral)
    ensures Match(text, signed) == Some(n) <==> WellFormed(n, signed) && text == Unparse(n)
  {
    if Match(text, signed) == Some(n) {
      MatchedIsUnparsed(text, signed, n);
    }
    if WellFormed(n, signed) && text == Unparse(n) {
      UnparseMatches(n, signed);
    }
  }

  function PointText(n: Numeral): string {
    if n.fraction.Some? then "." + n.fraction.value else ""
  }

  lemma BodySplits(n: Numeral, signed: bool)
    requires WellFormed(n, signed)
    ensures var body := n.whole + PointText(n);
            && body != "" && body[0] != '-'
            && DotIndex(body) == |n.whole| && body[..|n.whole|] == n.whole
            && (n.fraction.Some? <==> |n.whole| < |body|)
            && (n.fraction.Some? ==> body[|n.whole| + 1..] == n.fraction.value)
  {
    var body := n.whole + PointText(n);
    WholeThenPoint(n.whole, PointText(n));
    assert IsDigit(n.whole[0]);
    DotIndexIsFirst(body, |n.whole|);
    assert n.fraction.Some? ==> PointText(n)[1..] == n.fraction.value;
  }

  lemma WholeThenPoint(whole: string, rest: string)
    requires AllDigits(whole) && (rest != "" ==> rest[0] == '.')
    ensures var body := whole + rest;
            && body[..|whole|] == whole && body[|whole|..] == rest && (forall j :: 0 <= j < |whole| ==> body[j] != '.')
            && (rest != "" ==> body[|whole|] == '.' && body[|whole| + 1..] == rest[1..])
  {
    var body := whole + rest;
    forall j | 0 <= j < |whole| ensures body[j] != '.' {
      assert body[j] == whole[j] && IsDigit(whole[j]);
    }
  }

  lemma UnparseMatches(n: Numeral, signed: bool)
    requires WellFormed(n, signed)
    ensures Match(Unparse(n), signed) == Some(n)
  {
    BodySplits(n, signed);
    SignSplits(n, n.whole + PointText(n));
    MatchReads(Unparse(n), signed, n, n.whole + PointText(n));
  }

  lemma MatchReads(text: string, signed: bool, n: Numeral, body: string)
    requires WellFormed(n, signed) && n.negative == (signed && text != "" && text[0] == '-')
    requires body == if n.negative then text[1..] else text
    requires DotIndex(body) == |n.whole| && body[..|n.whole|] == n.whole && (n.fraction.Some? <==> |n.whole| < |body|)
    requires n.fraction.Some? ==> body[|n.whole| + 1..] == n.fraction.value
    ensures Match(text, signed) == Some(n)
  {
  }

  lemma SignSplits(n: Numeral, body: string)
    requires body == n.whole + PointText(n) && body != "" && body[0] != '-'
    ensures var text := Unparse(n);
            if n.negative then text != "" && text[0] == '-' && text[1..] == body else text == body
  {
    if n.negative {
      assert Unparse(n) == "-" + body && ("-" + body)[1..] == body;
    } else {
      assert Unparse(n) == body;
    }
  }

  // ---- Digit strings as numbers ------------------------------------------------------------

  function Number(s: string): nat
    requires AllDigits(s)
  {
    if s == "" then 0 else 10 * Number(s[..|s| - 1]) + DigitValue(s[|s| - 1])
  }

  /** `n` written in at least one digit, with no leading zero. */
  function DigitString(n: nat): (s: string)
    ensures s != "" && AllDigits(s) && Number(s) == n
    ensures |s| > 1 ==> s[0] != '0'
    ensures s[0] == '0' ==> n == 0
  {
    if n < 10 then [DigitChar(n)]
    else
      var s := DigitString(n / 10) + [DigitChar(n % 10)];
      assert s[..|s| - 1] == DigitString(n / 10);
      s
  }

  function Zeros(k: nat): (s: string)
    ensures |s| == k && AllDigits(s)
    ensures forall i :: 0 <= i < k ==> s[i] == '0'
  {
    seq(k, i => '0')
  }

  /** The last `width` digits of `n`, with leading zeros where `n` is short. */
  function LowDigits(n: nat, width: nat): (s: string)
    ensures |s| == width && AllDigits(s)
  {
    if width == 0 then "" else LowDigits(n / 10, width - 1) + [DigitChar(n % 10)]
  }

  /** What is left of `n` once its last `width` digits are dropped. */
  function HighPart(n: nat, width: nat): nat {
    if width == 0 then n else HighPart(n / 10, width - 1)
  }

  lemma {:induction false} NumberConcatenates(a: string, b: string)
    requires AllDigits(a) && AllDigits(b)
    ensures AllDigits(a + b) && Number(a + b) == Number(a) * Pow10(|b|) + Number(b)
  {
    if b == "" {
      assert a + b == a;
    } else {
      var most, last := b[..|b| - 1], b[|b| - 1];
      NumberConcatenates(a, most);
      assert (a + b)[..|a + b| - 1] == a + most;
      MulAssociates(Number(a), Pow10(|most|), 10);
      MulDistributes(Number(a) * Pow10(|most|), Number(most), 10);
    }
  }

  lemma LowDigitsNumber(n: nat, width: nat)
    requires width > 0
    ensures Number(LowDigits(n, width)) == 10 * Number(LowDigits(n / 10, width - 1)) + n % 10
  {
  }

  /** High part and low digits are the two halves of a number. */
  lemma {:induction false} HalvesRebuild(n: nat, width: nat)
    ensures n == HighPart(n, width) * Pow10(width) + Number(LowDigits(n, width))
  {
    if width > 0 {
      HalvesRebuild(n / 10, width - 1);
      LowDigitsNumber(n, width);
      MulByTen(HighPart(n, width), Pow10(width - 1));
    }
  }

  lemma NumberExtends(s: string, c: char)
    requires AllDigits(s) && IsDigit(c)
    ensures AllDigits(s + [c]) && Number(s + [c]) == 10 * Number(s) + DigitValue(c)
  {
    assert (s + [c])[..|s|] == s;
  }

  /** One more digit behind a number. */
  lemma DigitBehind(m: nat, d: nat, width: nat)
    requires d < 10
    ensures HighPart(10 * m + d, width + 1) == HighPart(m, width)
    ensures LowDigits(10 * m + d, width + 1) == LowDigits(m, width) + [DigitChar(d)]
  {
    DivModUnique(10 * m + d, 10, m, d);
  }

  /** A number whose last digits are given, without the very last one. */
  lemma WithoutLastDigit(n: nat, whole: nat, most: string, last: char)
    requires AllDigits(most) && IsDigit(last) && n == whole * Pow10(|most| + 1) + Number(most + [last])
    ensures whole * Pow10(|most|) + Number(most) >= 0
    ensures n == 10 * (whole * Pow10(|most|) + Number(most)) + DigitValue(last)
  {
    MulIsMonotone(0, whole, Pow10(|most|));
    MulByTen(whole, Pow10(|most|));
    NumberExtends(most, last);
  }

  lemma {:induction false} HalvesAreUnique(n: nat, whole: nat, digits: string)
    requires AllDigits(digits) && n == whole * Pow10(|digits|) + Number(digits)
    ensures HighPart(n, |digits|) == whole && LowDigits(n, |digits|) == digits
  {
    if digits != "" {
      var most, last := digits[..|digits| - 1], digits[|digits| - 1];
      assert digits == most + [last];
      WithoutLastDigit(n, whole, most, last);
      var m: nat := whole * Pow10(|most|) + Number(most);
      HalvesAreUnique(m, whole, most);
      DigitBehind(m, DigitValue(last), |most|);
      DigitCharInverts(last);
    }
  }

  lemma {:induction false} NumberOfZeros(k: nat)
    ensures Number(Zeros(k)) == 0
  {
    if k > 0 {
      assert Zeros(k)[..k - 1] == Zeros(k - 1);
      NumberOfZeros(k - 1);
    }
  }

  lemma {:induction false} LeadingDigitMakesItLarge(s: string)
    requires AllDigits(s) && s != "" && s[0] != '0'
    ensures Number(s) >= Pow10(|s| - 1)
  {
    var n := |s| - 1;
    if n == 0 {
      assert s[..n] == "";
    } else {
      LeadingDigitMakesItLarge(s[..n]);
    }
  }

  lemma CanonicalExtends(most: string, last: char)
    requires AllDigits(most) && IsDigit(last) && Number(most) > 0 && DigitString(Number(most)) == most
    ensures AllDigits(most + [last]) && DigitString(Number(most + [last])) == most + [last]
  {
    NumberExtends(most, last);
    DigitCharInverts(last);
    DivModUnique(Number(most + [last]), 10, Number(most), DigitValue(last));
  }

  /** A digit string without a leading zero is how its number is written. */
  lemma {:induction false} DigitStringIsCanonical(s: string)
    requires AllDigits(s) && s != "" && (|s| > 1 ==> s[0] != '0')
    ensures DigitString(Number(s)) == s
  {
    var most, last := s[..|s| - 1], s[|s| - 1];
    assert s == most + [last];
    if most == "" {
      NumberExtends("", last);
      DigitCharInverts(last);
      assert s == [last];
    } else {
      LeadingDigitMakesItLarge(most);
      DigitStringIsCanonical(most);
      CanonicalExtends(most, last);
    }
  }

  // ---- Parsing and printing ----------------------------------------------------------------

  /** The decimal a numeral denotes, digit for digit. */
  function Denotes(n: Numeral): Decimal
    requires WellFormed(n, true)
  {
    Finite(n.negative, Number(n.whole + FractionText(n)), -(|FractionText(n)| as int))
  }

  function ParseExactDecimal(text: string, spec: Spec, maximumInputScale: Option<nat>, signed: bool): Result<Decimal, NumericError> {
    match Match(text, signed)
    case None => Err(InvalidDecimalFormat)
    case Some(n) =>
      var accepted := if maximumInputScale.Some? then maximumInputScale.value else spec.scale;
      if |FractionText(n)| > accepted then Err(InvalidScale)
      else ValidateDecimal(Denotes(n), spec)
  }

  /** The fixed-point numeral of `units` units of `10^-scale`. */
  function FixedNumeral(negative: bool, units: nat, scale: nat): Numeral {
    Numeral(negative, DigitString(HighPart(units, scale)), if scale == 0 then None else Some(LowDigits(units, scale)))
  }

  function FixedText(negative: bool, units: nat, scale: nat): string {
    Unparse(FixedNumeral(negative, units, scale))
  }

  function CanonicalDecimal(v: Decimal, scale: nat, spec: Spec): Result<string, NumericError> {
    match ValidateDecimal(v, spec)
    case Err(e) => Err(e)
    case Ok(valid) =>
      if Scale(valid) > scale then Err(InvalidScale)
      else Ok(FixedText(valid.negative, Magnitude(Scaled(valid, scale)), scale))
  }

  /** Printing fails as validation does, or because the value is finer than the scale. */
  lemma PrintingAnswers(v: Decimal, scale: nat, spec: Spec)
    ensures var printed := CanonicalDecimal(v, scale, spec);
            && (ValidateDecimal(v, spec).Err? ==> printed == Err(ValidateDecimal(v, spec).error))
            && (ValidateDecimal(v, spec).Ok? ==>
                  if v.coefficient > 0 && v.exponent < -(scale as int) then printed == Err(InvalidScale) else printed.Ok?)
  {
  }

  // ---- Round trips -------------------------------------------------------------------------

  /** It has exactly `scale` fractional digits and denotes those units. */
  lemma FixedNumeralDenotes(negative: bool, units: nat, scale: nat)
    ensures var n := FixedNumeral(negative, units, scale);
            && WellFormed(n, negative) && |FractionText(n)| == scale
            && Denotes(n) == Finite(negative, units, -(scale as int))
  {
    var n := FixedNumeral(negative, units, scale);
    HalvesRebuild(units, scale);
    NumberConcatenates(n.whole, FractionText(n));
  }

  /** Printing depends only on the number: it is the fixed-point numeral for its count of units. */
  lemma CanonicalForm(v: Decimal, scale: nat, spec: Spec)
    requires v.Finite? && Scale(v) <= scale <= spec.scale < spec.precision
    requires Magnitude(Scaled(v, scale)) < Pow10(spec.precision - spec.scale + scale)
    ensures CanonicalDecimal(v, scale, spec) == Ok(FixedText(Scaled(v, scale) < 0, Magnitude(Scaled(v, scale)), scale))
  {
    IntegerDigitsExactly(v, spec.precision - spec.scale, scale);
    assert Scaled(ZERO, scale) == 0;
    ZeroScales(v, scale);
  }

  lemma ParsedNumeral(n: Numeral, scale: nat, spec: Spec, maximumInputScale: Option<nat>, negative: bool, units: nat,
                      signed: bool)
    requires scale <= spec.scale < spec.precision && units < Pow10(spec.precision - spec.scale + scale)
    requires maximumInputScale.Some? ==> scale <= maximumInputScale.value
    requires WellFormed(n, signed) && |FractionText(n)| == scale && Denotes(n) == Finite(negative, units, -(scale as int))
    ensures Match(Unparse(n), signed) == Some(n)
    ensures ParseExactDecimal(Unparse(n), spec, maximumInputScale, signed)
            == Ok(if units == 0 then ZERO else Finite(negative, units, -(scale as int)))
  {
    UnparseMatches(n, signed);
    ValidateRounded(negative, units, scale, spec);
  }

  /**
   Printing then parsing gives the number back, for every number of the envelope with at most `scale`
   fractional digits; what is printed is an accepted numeral of exactly `scale` fractional digits, with
   no sign on zero.
   */
  lemma ParsingUndoesPrinting(v: Decimal, scale: nat, spec: Spec, maximumInputScale: Option<nat>)
    requires v.Finite? && Scale(v) <= scale <= spec.scale < spec.precision
    requires Magnitude(Scaled(v, scale)) < Pow10(spec.precision - spec.scale + scale)
    requires maximumInputScale.Some? ==> scale <= maximumInputScale.value
    ensures CanonicalDecimal(v, scale, spec).Ok?
    ensures var text := CanonicalDecimal(v, scale, spec).value;
            && (exists n :: Match(text, true) == Some(n) && |FractionText(n)| == scale && (n.negative <==> Scaled(v, scale) < 0))
            && ParseExactDecimal(text, spec, maximumInputScale, true).Ok?
            && SameNumber(ParseExactDecimal(text, spec, maximumInputScale, true).value, v)
            && (Scaled(v, scale) >= 0 ==> ParseExactDecimal(text, spec, maximumInputScale, false) == ParseExactDecimal(text, spec, maximumInputScale, true))
  {
    CanonicalForm(v, scale, spec);
    var negative, units := Scaled(v, scale) < 0, Magnitude(Scaled(v, scale));
    var n := FixedNumeral(negative, units, scale);
    FixedNumeralDenotes(negative, units, scale);
    ParsedNumeral(n, scale, spec, maximumInputScale, negative, units, true);
    ParsedNumeral(n, scale, spec, maximumInputScale, negative, units, negative);
    ValidateRounded(negative, units, scale, spec);
  }

  lemma ZeroScales(v: Decimal, scale: nat)
    requires v.Finite? && Scale(v) <= scale
    ensures v.coefficient == 0 <==> Scaled(v, scale) == 0
    ensures v.coefficient > 0 ==> (v.negative <==> Scaled(v, scale) < 0)
  {
  }

  /** The numeral with its fraction padded with zeros to exactly `scale` digits. */
  function Padded(n: Numeral, scale: nat): Numeral
    requires |FractionText(n)| <= scale
  {
    n.(fraction := if scale == 0 then None else Some(FractionText(n) + Zeros(scale - |FractionText(n)|)))
  }

  lemma ShiftedSum(w: int, t: int, a: int, b: int)
    ensures (w * a + t) * b == w * (a * b) + t * b
  {
  }

  lemma UnitsOfNumeral(n: Numeral, scale: nat)
    requires WellFormed(n, true) && |FractionText(n)| <= scale
    ensures Denotes(n).exponent + scale >= 0
    ensures var f, k := FractionText(n), scale - |FractionText(n)|;
            Magnitude(Scaled(Denotes(n), scale)) == Number(n.whole) * Pow10(scale) + Number(f) * Pow10(k)
  {
    var f, k := FractionText(n), scale - |FractionText(n)|;
    var c := Number(n.whole + f);
    NumberConcatenates(n.whole, f);
    Pow10Adds(|f|, k);
    ShiftedSum(Number(n.whole), Number(f), Pow10(|f|), Pow10(k));
    MagnitudeScaled(Denotes(n), scale);
  }

  lemma MagnitudeScaled(v: Decimal, places: nat)
    requires v.Finite? && v.exponent + places >= 0
    ensures Magnitude(Scaled(v, places)) == v.coefficient * Pow10(v.exponent + places)
  {
    MulIsMonotone(0, v.coefficient, Pow10(v.exponent + places));
  }

  lemma PaddedUnits(n: Numeral, scale: nat)
    requires WellFormed(n, true) && |FractionText(n)| <= scale
    ensures Denotes(n).exponent + scale >= 0
    ensures var tail := FractionText(n) + Zeros(scale - |FractionText(n)|);
            && AllDigits(tail) && Magnitude(Scaled(Denotes(n), scale)) == Number(n.whole) * Pow10(scale) + Number(tail)
  {
    var f, k := FractionText(n), scale - |FractionText(n)|;
    UnitsOfNumeral(n, scale);
    NumberConcatenates(f, Zeros(k));
    NumberOfZeros(k);
  }

  lemma PaddedNumeral(n: Numeral, tail: string, scale: nat, units: nat)
    requires WellFormed(n, true) && AllDigits(tail) && |tail| == scale
    requires units == Number(n.whole) * Pow10(scale) + Number(tail)
    ensures FixedNumeral(n.negative, units, scale) == n.(fraction := if scale == 0 then None else Some(tail))
  {
    HalvesAreUnique(units, Number(n.whole), tail);
    DigitStringIsCanonical(n.whole);
  }

  /** The numeral without the sign a zero loses. */
  function Unsigned(n: Numeral): Numeral
    requires WellFormed(n, true)
  {
    if n.negative && Denotes(n).coefficient == 0 then n.(negative := false) else n
  }

  lemma NumeralOfUnits(n: Numeral, scale: nat, negative: bool)
    requires WellFormed(n, true) && |FractionText(n)| <= scale
    ensures Denotes(n).exponent + scale >= 0
    ensures FixedNumeral(negative, Magnitude(Scaled(Denotes(n), scale)), scale) == Padded(n, scale).(negative := negative)
  {
    PaddedUnits(n, scale);
    var tail := FractionText(n) + Zeros(scale - |FractionText(n)|);
    PaddedNumeral(n.(negative := negative), tail, scale, Magnitude(Scaled(Denotes(n), scale)));
  }

  lemma PrintedPadded(n: Numeral, scale: nat, spec: Spec)
    requires WellFormed(n, true) && |FractionText(n)| <= scale <= spec.scale < spec.precision
    requires ValidateDecimal(Denotes(n), spec).Ok?
    ensures CanonicalDecimal(ValidateDecimal(Denotes(n), spec).value, scale, spec) == Ok(Unparse(Padded(Unsigned(n), scale)))
  {
    PrintedAs(Denotes(n), scale, spec);
    PaddedText(n, scale);
  }

  lemma PaddedText(n: Numeral, scale: nat)
    requires WellFormed(n, true) && |FractionText(n)| <= scale
    ensures Denotes(n).exponent + scale >= 0
    ensures FixedText(n.negative && Denotes(n).coefficient > 0, Magnitude(Scaled(Denotes(n), scale)), scale)
            == Unparse(Padded(Unsigned(n), scale))
  {
    NumeralOfUnits(n, scale, Unsigned(n).negative);
    PaddingIsUnsigned(n, scale);
  }

  lemma PaddingIsUnsigned(n: Numeral, scale: nat)
    requires WellFormed(n, true) && |FractionText(n)| <= scale
    ensures Padded(n, scale).(negative := Unsigned(n).negative) == Padded(Unsigned(n), scale)
    ensures Unsigned(n).negative == (n.negative && Denotes(n).coefficient > 0)
  {
  }

  /**
   Parsing then printing gives the text back, zero-padded to the fixed scale, exactly when the text is
   not a signed zero; a signed zero loses its sign. Unsigned input can never be one.
   */
  lemma PrintingUndoesParsing(text: string, n: Numeral, scale: nat, spec: Spec, maximumInputScale: Option<nat>,
                              signed: bool)
    requires scale <= spec.scale < spec.precision
    requires Match(text, signed) == Some(n) && |FractionText(n)| <= scale
    requires ParseExactDecimal(text, spec, maximumInputScale, signed).Ok?
    ensures var printed := CanonicalDecimal(ParseExactDecimal(text, spec, maximumInputScale, signed).value, scale, spec);
            && printed == Ok(Unparse(Padded(Unsigned(n), scale)))
            && (printed == Ok(Unparse(Padded(n, scale))) <==> !(n.negative && Denotes(n).coefficient == 0))
            && (!signed ==> Unsigned(n) == n)
  {
    PrintedPadded(n, scale, spec);
    PaddedShape(n, scale);
    PaddedShape(Unsigned(n), scale);
  }

  lemma PrintedAs(d: Decimal, scale: nat, spec: Spec)
    requires d.Finite? && Scale(d) <= scale <= spec.scale < spec.precision && ValidateDecimal(d, spec).Ok?
    ensures CanonicalDecimal(ValidateDecimal(d, spec).value, scale, spec)
            == Ok(FixedText(d.negative && d.coefficient > 0, Magnitude(Scaled(d, scale)), scale))
  {
    ZeroScales(d, scale);
    IntegerDigitsExactly(d, spec.precision - spec.scale, scale);
    assert Scaled(ZERO, scale) == 0;
    CanonicalForm(ValidateDecimal(d, spec).value, scale, spec);
  }

  lemma PaddedShape(n: Numeral, scale: nat)
    requires WellFormed(n, true) && |FractionText(n)| <= scale
    ensures Unparse(Padded(n, scale)) != "" && (Unparse(Padded(n, scale))[0] == '-' <==> n.negative)
  {
  }
}
