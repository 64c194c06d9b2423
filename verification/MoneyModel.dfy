/**
 Currency-labelled money: strict parsing, the storage column, the API text and exact arithmetic.

 Stored amounts are `NUMERIC(24,4)` columns, held here as whole counts of ten-thousandths.
 */
module MoneyModel {
  import opened Common
  import opened Arithmetic
  import opened Decimals
  import opened DecimalText

  datatype Currency = Currency(code: string, accountingScale: nat)

  const MMK := Currency("MMK", 0)
  const JPY := Currency("JPY", 0)
  const USD := Currency("USD", 2)

  predicate CurrencyShaped(code: string) {
    |code| == 3 && forall i :: 0 <= i < 3 ==> 'A' <= code[i] <= 'Z'
  }

  function RequireCurrency(code: string): (r: Result<Currency, NumericError>)
    ensures r.Ok? ==> r.value.code == code && r.value.accountingScale <= 2
  {
    if !CurrencyShaped(code) then Err(InvalidCurrency)
    else if code == "MMK" then Ok(MMK)
    else if code == "JPY" then Ok(JPY)
    else if code == "USD" then Ok(USD)
    else Err(UnsupportedCurrency)
  }

  predicate Supported(code: string) {
    code == "MMK" || code == "JPY" || code == "USD"
  }

  datatype Money = Money(amount: Decimal, currency: Currency)

  /** Construction validates the amount against the storage envelope. */
  function NewMoney(amount: Decimal, currency: Currency): Result<Money, NumericError> {
    match ValidateDecimal(amount, MONEY_STORAGE)
    case Err(e) => Err(e)
    case Ok(a) => Ok(Money(a, currency))
  }

  function ParseOrdinary(amount: string, code: string): Result<Money, NumericError> {
    match RequireCurrency(code)
    case Err(e) => Err(e)
    case Ok(currency) =>
      match ParseExactDecimal(amount, MONEY_STORAGE, Some(currency.accountingScale), false)
      case Err(e) => Err(e)
      case Ok(parsed) =>
        if parsed.NonFinite? || parsed.negative || parsed.coefficient == 0 then Err(AmountMustBePositive)
        else NewMoney(parsed, currency)
  }

  function FromCalculated(amount: Decimal, currency: Currency): Result<Money, NumericError> {
    match QuantizeExact(amount, currency.accountingScale, MONEY_STORAGE)
    case Err(e) => Err(e)
    case Ok(a) => NewMoney(a, currency)
  }

  function ToApi(m: Money): Result<string, NumericError> {
    CanonicalDecimal(m.amount, m.currency.accountingScale, MONEY_STORAGE)
  }

  function ToStorageAmount(m: Money): Result<Decimal, NumericError> {
    QuantizeExact(m.amount, MONEY_STORAGE.scale, MONEY_STORAGE)
  }

  /** The outcome of a calculation as money. */
  function Calculated(amount: Result<Decimal, NumericError>, currency: Currency): Result<Money, NumericError> {
    match amount
    case Err(e) => Err(e)
    case Ok(v) => FromCalculated(v, currency)
  }

  function Add(a: Money, b: Money): Result<Money, NumericError> {
    if a.currency != b.currency then Err(CurrencyMismatch)
    else Calculated(AddExact(a.amount, b.amount, MONEY_STORAGE), a.currency)
  }

  function Subtract(a: Money, b: Money): Result<Money, NumericError> {
    if a.currency != b.currency then Err(CurrencyMismatch)
    else Calculated(SubtractExact(a.amount, b.amount, MONEY_STORAGE), a.currency)
  }

  /** The first amount, in ten-thousandths, that no longer fits the storage column. */
  const AMOUNT_LIMIT: int := 1_000_000_000_000_000_000_000_000

  lemma AmountLimit()
    ensures AMOUNT_LIMIT == Pow10(24)
  {
    assert Pow10(6) == 1_000_000;
    Pow10Adds(6, 6);
    Pow10Adds(12, 12);
  }

  // ---- Units -------------------------------------------------------------------------------

  /** What construction guarantees of every money value with a registered currency. */
  ghost predicate Valid(m: Money) {
    && m.amount.Finite? && Scale(m.amount) <= 4 && m.currency.accountingScale <= 2
    && Magnitude(Scaled(m.amount, 4)) < Pow10(24)
  }

  /** Ten-thousandths of a unit of currency. */
  ghost function Units(m: Money): int
    requires Valid(m)
  {
    Scaled(m.amount, 4)
  }

  /** Ten-thousandths in the smallest amount a currency keeps accounts in. */
  function Step(currency: Currency): (s: int)
    requires currency.accountingScale <= 2
    ensures s >= 1
  {
    Pow10(4 - currency.accountingScale)
  }

  ghost predicate AtScale(units: int, currency: Currency)
    requires currency.accountingScale <= 2
  {
    units % Step(currency) == 0
  }

  lemma NewMoneyIsValid(amount: Decimal, currency: Currency)
    requires amount.Finite? && currency.accountingScale <= 2
    ensures NewMoney(amount, currency).Ok? <==> Scale(amount) <= 4 && Magnitude(Scaled(amount, 4)) < Pow10(24)
    ensures NewMoney(amount, currency).Ok? ==>
              Valid(NewMoney(amount, currency).value) && Units(NewMoney(amount, currency).value) == Scaled(amount, 4)
  {
    if Scale(amount) <= 4 {
      IntegerDigitsExactly(amount, 20, 4);
      ZeroScales(amount, 4);
      assert Scaled(ZERO, 4) == 0;
    }
  }

  /** Rounding to a coarser scale leaves exactly the multiples of the step alone. */
  lemma RoundedUnits(v: Decimal, scale: nat)
    requires v.Finite? && Scale(v) <= 4 && scale <= 4
    ensures Scaled(v, 4) % Pow10(4 - scale) == 0 <==> RoundedAt(v, scale) * Pow10(4 - scale) == Scaled(v, 4)
  {
    var units, step := Scaled(v, 4), Pow10(4 - scale);
    RoundedAtPlaces(v, scale, 4);
    DivModFacts(units, step);
    if units % step == 0 {
      RoundSignedOfMultiple(units / step, step);
    } else if RoundedAt(v, scale) * step == units {
      DivModUnique(units, step, RoundedAt(v, scale), 0);
    }
  }

  /** A number at the currency's scale, within the envelope, makes valid money worth as many steps. */
  lemma CoarseIsValid(q: Decimal, currency: Currency)
    requires currency.accountingScale <= 2 && q.Finite? && Scale(q) <= currency.accountingScale
    requires Magnitude(Scaled(q, currency.accountingScale)) < Pow10(20 + currency.accountingScale)
    ensures NewMoney(q, currency).Ok? && Valid(NewMoney(q, currency).value)
    ensures Units(NewMoney(q, currency).value) == Scaled(q, currency.accountingScale) * Step(currency)
    ensures NewMoney(q, currency).value.currency == currency && Scale(NewMoney(q, currency).value.amount) <= currency.accountingScale
  {
    var s := currency.accountingScale;
    var r := Scaled(q, s);
    ScaledShifts(q, s, 4 - s);
    MagnitudeOfProduct(r, Step(currency));
    Pow10Adds(20 + s, 4 - s);
    MulIsStrict(Magnitude(r), Pow10(20 + s), Step(currency));
    NewMoneyIsValid(q, currency);
  }

  /**
   Quantising a number of the envelope to a currency's scale: what comes back is worth the rounded
   number, and it is the number itself exactly when that is a multiple of the currency's step.
   */
  lemma FromCalculatedExactly(v: Decimal, currency: Currency)
    requires v.Finite? && Scale(v) <= 4 && currency.accountingScale <= 2
    ensures var r := RoundedAt(v, currency.accountingScale);
            var m := FromCalculated(v, currency);
            && (Magnitude(r) >= Pow10(20 + currency.accountingScale) ==> m == Err(OutOfRange))
            && (Magnitude(r) < Pow10(20 + currency.accountingScale) ==>
                  && m.Ok? && Valid(m.value) && m.value.currency == currency
                  && Units(m.value) == r * Step(currency)
                  && Scale(m.value.amount) <= currency.accountingScale
                  && (Units(m.value) == Scaled(v, 4) <==> AtScale(Scaled(v, 4), currency)))
  {
    var s := currency.accountingScale;
    QuantizeExactly(v, s, MONEY_STORAGE);
    RoundedUnits(v, s);
    if Magnitude(RoundedAt(v, s)) < Pow10(20 + s) {
      CoarseIsValid(QuantizeExact(v, s, MONEY_STORAGE).value, currency);
    }
  }

  // ---- The storage column ------------------------------------------------------------------

  /** The decimal a `NUMERIC(24,4)` column holding `units` ten-thousandths gives back. */
  function Column(units: nat): Decimal {
    Finite(false, units, -4)
  }

  /** What the column keeps of a decimal already at its scale. */
  function StoredUnits(stored: Decimal): int {
    if stored.Finite? && stored.exponent == -4 && !stored.negative then stored.coefficient else 0
  }

  /** The amount and the currency code a submitted text is stored as. */
  function Submitted(amount: string, code: string): Result<(int, string), NumericError> {
    match ParseOrdinary(amount, code)
    case Err(e) => Err(e)
    case Ok(m) =>
      match ToStorageAmount(m)
      case Err(e) => Err(e)
      case Ok(stored) => Ok((StoredUnits(stored), m.currency.code))
  }

  /** Whatever is accepted is stored exactly, under the currency it was submitted in. */
  lemma SubmittedIsExact(amount: string, code: string)
    requires Submitted(amount, code).Ok?
    ensures Submitted(amount, code).value.1 == code
    ensures StoredExact(Submitted(amount, code).value.0, code)
  {
    SubmittedTextIsPrintedBack(amount, code);
  }

  lemma ColumnUnits(units: nat)
    ensures Scale(Column(units)) == 4 && Scaled(Column(units), 4) == units
  {
  }

  function StepOf(code: string): (s: int)
    ensures s >= 1
  {
    if code == "USD" then 100 else 10_000
  }

  lemma StepOfCurrency(code: string)
    requires Supported(code)
    ensures StepOf(code) == Step(RequireCurrency(code).value)
  {
  }

  /** The amounts whose stored form the API can show without changing them. */
  predicate StoredExact(units: int, code: string) {
    Supported(code) && 0 < units < AMOUNT_LIMIT && units % StepOf(code) == 0
  }

  /** Building money from the stored column changes the amount or fails in exactly the other cases. */
  lemma RepresentationIsExact(units: nat, code: string)
    requires Supported(code) && 0 < units < Pow10(24)
    ensures StoredExact(units, code) <==>
            (var m := FromCalculated(Column(units), RequireCurrency(code).value);
             m.Ok? && SameNumber(m.value.amount, Column(units)))
  {
    var c := RequireCurrency(code).value;
    AmountLimit();
    StepOfCurrency(code);
    ColumnUnits(units);
    FromCalculatedExactly(Column(units), c);
    if FromCalculated(Column(units), c).Ok? && SameNumber(FromCalculated(Column(units), c).value.amount, Column(units)) {
      SameNumberAnywhere(FromCalculated(Column(units), c).value.amount, Column(units), 4);
    }
    if AtScale(units, c) {
      AtScaleFits(units, c);
    }
  }

  lemma AtScaleFits(units: int, c: Currency)
    requires c.accountingScale <= 2 && Magnitude(units) < Pow10(24) && AtScale(units, c)
    ensures forall v: Decimal :: v.Finite? && Scale(v) <= 4 && Scaled(v, 4) == units ==>
              Magnitude(RoundedAt(v, c.accountingScale)) < Pow10(20 + c.accountingScale)
  {
    var s := c.accountingScale;
    forall v: Decimal | v.Finite? && Scale(v) <= 4 && Scaled(v, 4) == units
      ensures Magnitude(RoundedAt(v, s)) < Pow10(20 + s)
    {
      RoundedUnits(v, s);
      MagnitudeOfProduct(RoundedAt(v, s), Step(c));
      Pow10Adds(20 + s, 4 - s);
      MulIsStrict(Magnitude(RoundedAt(v, s)), Pow10(20 + s), Step(c));
    }
  }

  /**
   Every accepted submission is stored without rounding, and what the API later prints from the column
   is the submitted text, padded with zeros to the currency's scale.
   */
  lemma SubmittedTextIsPrintedBack(amount: string, code: string)
    requires ParseOrdinary(amount, code).Ok?
    ensures var m := ParseOrdinary(amount, code).value;
            && Valid(m) && StoredExact(Units(m), code)
            && ToStorageAmount(m) == Ok(Column(Units(m)))
            && (var shown := FromCalculated(Column(Units(m)), m.currency);
                && shown.Ok? && SameNumber(shown.value.amount, m.amount)
                && exists n :: Match(amount, false) == Some(n) && |FractionText(n)| <= m.currency.accountingScale
                               && ToApi(shown.value) == Ok(Unparse(Padded(n, m.currency.accountingScale))))
  {
    var m := ParseOrdinary(amount, code).value;
    var c, n := m.currency, Match(amount, false).value;
    var s := c.accountingScale;
    var parsed := ParseExactDecimal(amount, MONEY_STORAGE, Some(s), false).value;
    assert parsed == Denotes(n);
    NewMoneyIsValid(parsed, c);
    assert m.amount == parsed;
    AmountLimit();
    StepOfCurrency(code);
    ParsedUnits(m);
    StorageIsExact(m);
    ColumnUnits(Units(m));
    AtScaleFits(Units(m), c);
    FromCalculatedExactly(Column(Units(m)), c);
    var shown := FromCalculated(Column(Units(m)), c).value;
    assert Scaled(shown.amount, 4) == Scaled(m.amount, 4);
    SameText(shown.amount, m.amount, s);
    PrintingUndoesParsing(amount, n, s, MONEY_STORAGE, Some(s), false);
  }

  /** The same, from the submitted pair to the text shown for the stored column. */
  lemma SubmittedIsShown(amount: string, code: string)
    requires Submitted(amount, code).Ok?
    ensures Submitted(amount, code).value.1 == code && StoredExact(Submitted(amount, code).value.0, code)
    ensures var currency := RequireCurrency(code).value;
            var shown := FromCalculated(Column(Submitted(amount, code).value.0), currency);
            && shown.Ok?
            && exists n :: Match(amount, false) == Some(n) && |FractionText(n)| <= currency.accountingScale
                           && ToApi(shown.value) == Ok(Unparse(Padded(n, currency.accountingScale)))
  {
    SubmittedTextIsPrintedBack(amount, code);
  }

  lemma ParsedUnits(m: Money)
    requires Valid(m) && Scale(m.amount) <= m.currency.accountingScale && !m.amount.negative && m.amount.coefficient > 0
    ensures 0 < Units(m) && AtScale(Units(m), m.currency)
  {
    var s := m.currency.accountingScale;
    ZeroScales(m.amount, 4);
    ScaledShifts(m.amount, s, 4 - s);
    DivModUnique(Units(m), Step(m.currency), Scaled(m.amount, s), 0);
  }

  lemma StorageIsExact(m: Money)
    requires Valid(m) && 0 < Units(m)
    ensures ToStorageAmount(m) == Ok(Column(Units(m)))
  {
    RoundedAtPlaces(m.amount, 4, 4);
    assert Pow10(0) == 1 && Units(m) * 1 == Units(m);
    RoundSignedOfMultiple(Units(m), 1);
    QuantizeExactly(m.amount, 4, MONEY_STORAGE);
    ZeroScales(m.amount, 4);
  }

  /** Numbers that are equal print alike. */
  lemma SameText(a: Decimal, b: Decimal, scale: nat)
    requires a.Finite? && b.Finite? && Scale(a) <= scale <= 2 && Scale(b) <= scale
    requires Scaled(a, 4) == Scaled(b, 4) && Magnitude(Scaled(a, 4)) < Pow10(24)
    ensures SameNumber(a, b) && CanonicalDecimal(a, scale, MONEY_STORAGE) == CanonicalDecimal(b, scale, MONEY_STORAGE)
  {
    SameNumberAnywhere(a, b, scale);
    ScaledShifts(a, scale, 4 - scale);
    MagnitudeOfProduct(Scaled(a, scale), Pow10(4 - scale));
    Pow10Adds(20 + scale, 4 - scale);
    MulIsStrict(Magnitude(Scaled(a, scale)), Pow10(20 + scale), Pow10(4 - scale));
    CanonicalForm(a, scale, MONEY_STORAGE);
    CanonicalForm(b, scale, MONEY_STORAGE);
  }

  // ---- Arithmetic --------------------------------------------------------------------------

  /**
   Addition of amounts kept at their currency's scale is exact: it fails exactly when the sum leaves
   the envelope and otherwise returns the sum itself.
   */
  lemma AddIsExact(a: Money, b: Money)
    requires Valid(a) && Valid(b) && a.currency == b.currency
    requires AtScale(Units(a), a.currency) && AtScale(Units(b), b.currency)
    ensures IsExactly(Add(a, b), a.currency, Units(a) + Units(b)) && AtScale(Units(a) + Units(b), a.currency)
  {
    SumOfMultiples(Units(a), Units(b), Step(a.currency));
    SumInEnvelope(a.amount, b.amount, a.currency);
  }

  lemma SubtractIsExact(a: Money, b: Money)
    requires Valid(a) && Valid(b) && a.currency == b.currency
    requires AtScale(Units(a), a.currency) && AtScale(Units(b), b.currency)
    ensures IsExactly(Subtract(a, b), a.currency, Units(a) - Units(b)) && AtScale(Units(a) - Units(b), a.currency)
  {
    DifferenceAtScale(a, b);
    NegatedUnits(b);
    SubtractionNegates(a.amount, b.amount);
    SumInEnvelope(a.amount, Negated(b.amount), a.currency);
  }

  lemma NegatedUnits(m: Money)
    requires Valid(m)
    ensures Negated(m.amount).Finite? && Scale(Negated(m.amount)) <= 4 && Scaled(Negated(m.amount), 4) == -Units(m)
  {
  }

  lemma DifferenceAtScale(a: Money, b: Money)
    requires Valid(a) && Valid(b) && a.currency == b.currency
    requires AtScale(Units(a), a.currency) && AtScale(Units(b), b.currency)
    ensures AtScale(Units(a) - Units(b), a.currency)
  {
    SumOfMultiples(0, Units(b), Step(a.currency));
    SumOfMultiples(Units(a), -Units(b), Step(a.currency));
  }

  lemma SumOfMultiples(x: int, y: int, step: int)
    requires step > 0 && x % step == 0 && (y % step == 0 || (-y) % step == 0)
    ensures (x + y) % step == 0 && y % step == 0 && (-y) % step == 0
  {
    DivModFacts(x, step);
    DivModFacts(y, step);
    DivModFacts(-y, step);
    var p := x / step;
    var q := if y % step == 0 then y / step else -(-y / step);
    MulNegates(-y / step, step);
    MulNegates(q, step);
    MulDistributes(p, q, step);
    DivModUnique(x + y, step, p + q, 0);
    DivModUnique(y, step, q, 0);
    DivModUnique(-y, step, -q, 0);
  }

  lemma ValidateAccepts(v: Decimal)
    requires v.Finite? && Scale(v) <= 4 && Magnitude(Scaled(v, 4)) < Pow10(24)
    ensures ValidateDecimal(v, MONEY_STORAGE).Ok? && ValidateDecimal(Negated(v), MONEY_STORAGE).Ok?
  {
    IntegerDigitsExactly(v, 20, 4);
  }

  /** Validating a number at the storage scale: itself, or nothing when it leaves the envelope. */
  lemma ValidatedExactly(total: Decimal, units: int)
    requires total.Finite? && Scale(total) <= 4 && Scaled(total, 4) == units
    ensures Magnitude(units) >= Pow10(24) ==> ValidateDecimal(total, MONEY_STORAGE) == Err(OutOfRange)
    ensures Magnitude(units) < Pow10(24) ==> HoldsUnits(ValidateDecimal(total, MONEY_STORAGE), units)
  {
    ValidateExactly(total, MONEY_STORAGE);
    if Magnitude(units) < Pow10(24) {
      SameNumberAnywhere(ValidateDecimal(total, MONEY_STORAGE).value, total, 4);
    }
  }

  predicate HoldsUnits(r: Result<Decimal, NumericError>, units: int) {
    r.Ok? && r.value.Finite? && Scale(r.value) <= 4 && Scaled(r.value, 4) == units
  }

  /** Adding two amounts of the envelope gives their exact sum, or nothing when it leaves the envelope. */
  lemma ExactSum(x: Decimal, y: Decimal)
    requires x.Finite? && y.Finite? && Scale(x) <= 4 && Scale(y) <= 4
    requires Magnitude(Scaled(x, 4)) < Pow10(24) && Magnitude(Scaled(y, 4)) < Pow10(24)
    ensures var sum := Scaled(x, 4) + Scaled(y, 4);
            && (Magnitude(sum) >= Pow10(24) ==> AddExact(x, y, MONEY_STORAGE) == Err(OutOfRange))
            && (Magnitude(sum) < Pow10(24) ==> HoldsUnits(AddExact(x, y, MONEY_STORAGE), sum))
  {
    ValidateAccepts(x);
    ValidateAccepts(y);
    SumIsExact(x, y, MONEY_STORAGE);
    ValidatedExactly(ContextSum(x, y), Scaled(x, 4) + Scaled(y, 4));
  }

  /** Subtracting is adding the negated amount. */
  lemma SubtractionNegates(x: Decimal, y: Decimal)
    requires x.Finite? && y.Finite? && Scale(x) <= 4 && Scale(y) <= 4
    requires Magnitude(Scaled(x, 4)) < Pow10(24) && Magnitude(Scaled(y, 4)) < Pow10(24)
    ensures SubtractExact(x, y, MONEY_STORAGE) == AddExact(x, Negated(y), MONEY_STORAGE)
  {
    ValidateAccepts(x);
    ValidateAccepts(y);
  }

  /** The exact amount in the currency, or the envelope's error. */
  ghost predicate IsExactly(r: Result<Money, NumericError>, currency: Currency, units: int) {
    if Magnitude(units) < Pow10(24)
    then r.Ok? && Valid(r.value) && r.value.currency == currency && Units(r.value) == units
    else r == Err(OutOfRange)
  }

  /** A sum at the currency's scale makes money worth exactly the sum. */
  lemma SumInEnvelope(x: Decimal, y: Decimal, currency: Currency)
    requires x.Finite? && y.Finite? && Scale(x) <= 4 && Scale(y) <= 4 && currency.accountingScale <= 2
    requires Magnitude(Scaled(x, 4)) < Pow10(24) && Magnitude(Scaled(y, 4)) < Pow10(24)
    requires AtScale(Scaled(x, 4) + Scaled(y, 4), currency)
    ensures IsExactly(Calculated(AddExact(x, y, MONEY_STORAGE), currency), currency, Scaled(x, 4) + Scaled(y, 4))
  {
    ExactSum(x, y);
    CalculatedExactly(AddExact(x, y, MONEY_STORAGE), currency, Scaled(x, 4) + Scaled(y, 4));
  }

  lemma CalculatedExactly(added: Result<Decimal, NumericError>, currency: Currency, sum: int)
    requires currency.accountingScale <= 2 && AtScale(sum, currency)
    requires if Magnitude(sum) < Pow10(24) then HoldsUnits(added, sum) else added == Err(OutOfRange)
    ensures IsExactly(Calculated(added, currency), currency, sum)
  {
    if Magnitude(sum) < Pow10(24) {
      AtScaleFits(sum, currency);
      FromCalculatedExactly(added.value, currency);
    }
  }

  /** Amounts of different currencies are never added or subtracted, and nothing else is called a mismatch. */
  lemma CurrenciesDoNotMix(a: Money, b: Money)
    ensures a.currency != b.currency <==> Add(a, b) == Err(CurrencyMismatch)
    ensures a.currency != b.currency <==> Subtract(a, b) == Err(CurrencyMismatch)
  {
  }

  /** Three currencies are registered, with their scales; any other three capital letters are not supported. */
  lemma RegisteredCurrencies(code: string)
    ensures RequireCurrency(code)
            == if code == "MMK" || code == "JPY" then Ok(Currency(code, 0)) else if code == "USD" then Ok(Currency(code, 2))
               else if |code| == 3 && (forall c :: c in code ==> 'A' <= c <= 'Z') then Err(UnsupportedCurrency) else Err(InvalidCurrency)
  {
    if |code| == 3 {
      assert code[0] in code && code[1] in code && code[2] in code;
    }
  }

  /** The digits of a numeral, as one number. */
  function DigitsOf(n: Numeral): nat
    requires WellFormed(n, false)
  {
    Number(n.whole + FractionText(n))
  }

  lemma DigitsInEnvelope(v: Decimal, f: nat)
    requires v.Finite? && v.exponent == -(f as int) && f <= 4
    ensures ValidateDecimal(v, MONEY_STORAGE).Ok? <==> v.coefficient < Pow10(20 + f)
  {
    ValidateExactly(v, MONEY_STORAGE);
    MagnitudeScaled(v, 4);
    Pow10Adds(20 + f, 4 - f);
    MulIsStrict(v.coefficient, Pow10(20 + f), Pow10(4 - f));
  }

  lemma NumeralInEnvelope(n: Numeral)
    requires WellFormed(n, false) && |FractionText(n)| <= 4
    ensures ValidateDecimal(Denotes(n), MONEY_STORAGE).Ok? <==> DigitsOf(n) < Pow10(20 + |FractionText(n)|)
    ensures ValidateDecimal(Denotes(n), MONEY_STORAGE).Ok? ==>
              ValidateDecimal(Denotes(n), MONEY_STORAGE).value == if DigitsOf(n) == 0 then ZERO else Denotes(n)
  {
    DigitsInEnvelope(Denotes(n), |FractionText(n)|);
  }

  lemma ParsedWhen(amount: string, currency: Currency, n: Numeral)
    requires Match(amount, false) == Some(n) && RequireCurrency(currency.code) == Ok(currency)
    ensures ParseOrdinary(amount, currency.code).Ok? <==>
              |FractionText(n)| <= currency.accountingScale && 0 < DigitsOf(n) < Pow10(20 + |FractionText(n)|)
  {
    if |FractionText(n)| <= currency.accountingScale {
      NumeralInEnvelope(n);
      if ValidateDecimal(Denotes(n), MONEY_STORAGE).Ok? && DigitsOf(n) > 0 {
        NewMoneyAccepts(Denotes(n), currency);
      }
    }
  }

  lemma NewMoneyAccepts(v: Decimal, currency: Currency)
    requires ValidateDecimal(v, MONEY_STORAGE).Ok?
    ensures NewMoney(v, currency).Ok?
  {
  }

  /** The numerals accepted as an amount: at the currency's scale, more than zero, and within the storage column. */
  predicate Payable(n: Numeral, code: string) {
    && WellFormed(n, false) && |FractionText(n)| <= (if code == "USD" then 2 else 0)
    && 0 < DigitsOf(n) < Pow10(20 + |FractionText(n)|)
  }

  /** What is submitted has to be an acceptable numeral in one of the three currencies, and nothing else is asked. */
  lemma SubmissionAnswers(amount: string, code: string)
    ensures Submitted(amount, code).Ok? <==>
              (code == "MMK" || code == "JPY" || code == "USD") && exists n :: Payable(n, code) && amount == Unparse(n)
  {
    RegisteredCurrencies(code);
    if ParseOrdinary(amount, code).Ok? {
      SubmittedTextIsPrintedBack(amount, code);
      var n := Match(amount, false).value;
      MatchesExactlyNumerals(amount, false, n);
      ParsedWhen(amount, RequireCurrency(code).value, n);
      assert Payable(n, code);
    }
    if RequireCurrency(code).Ok? {
      forall n | Payable(n, code) && amount == Unparse(n) ensures ParseOrdinary(amount, code).Ok? {
        MatchesExactlyNumerals(amount, false, n);
        ParsedWhen(amount, RequireCurrency(code).value, n);
      }
    }
  }

  /** Subtracting what was added gives the first amount back, whenever the sum exists. */
  lemma AdditionIsUndone(a: Money, b: Money)
    requires Valid(a) && Valid(b) && a.currency == b.currency
    requires AtScale(Units(a), a.currency) && AtScale(Units(b), b.currency)
    requires Add(a, b).Ok?
    ensures Subtract(Add(a, b).value, b).Ok?
    ensures SameNumber(Subtract(Add(a, b).value, b).value.amount, a.amount)
  {
    AddIsExact(a, b);
    SubtractIsExact(Add(a, b).value, b);
    assert Scaled(Subtract(Add(a, b).value, b).value.amount, 4) == Scaled(a.amount, 4);
  }

  /** Addition of amounts finer than the currency's scale rounds, exactly when the sum is finer too. */
  lemma AddRoundsFinerSums(a: Money, b: Money)
    requires Valid(a) && Valid(b) && a.currency == b.currency && Add(a, b).Ok?
    ensures Valid(Add(a, b).value)
    ensures Units(Add(a, b).value) == Units(a) + Units(b) <==> AtScale(Units(a) + Units(b), a.currency)
  {
    AddedIsCalculated(a, b);
    SumRounds(AddExact(a.amount, b.amount, MONEY_STORAGE).value, a.currency, Units(a) + Units(b));
  }

  lemma AddedIsCalculated(a: Money, b: Money)
    requires Valid(a) && Valid(b) && Add(a, b).Ok?
    ensures HoldsUnits(AddExact(a.amount, b.amount, MONEY_STORAGE), Units(a) + Units(b))
    ensures Add(a, b) == FromCalculated(AddExact(a.amount, b.amount, MONEY_STORAGE).value, a.currency)
  {
    ExactSum(a.amount, b.amount);
  }

  lemma SumRounds(v: Decimal, currency: Currency, sum: int)
    requires v.Finite? && Scale(v) <= 4 && Scaled(v, 4) == sum && currency.accountingScale <= 2 && FromCalculated(v, currency).Ok?
    ensures var m := FromCalculated(v, currency).value;
            Valid(m) && (Units(m) == sum <==> AtScale(sum, currency))
  {
    FromCalculatedExactly(v, currency);
  }

  lemma HalfAYenIsMoney()
    ensures var a := NewMoney(Finite(false, 5, -1), JPY); a.Ok? && Valid(a.value) && Units(a.value) == 5_000
    ensures var b := NewMoney(Finite(false, 1, 0), JPY); b.Ok? && Valid(b.value) && Units(b.value) == 10_000
  {
    AmountLimit();
    assert Scaled(Finite(false, 5, -1), 4) == 5_000 && Scaled(Finite(false, 1, 0), 4) == 10_000;
    NewMoneyIsValid(Finite(false, 5, -1), JPY);
    NewMoneyIsValid(Finite(false, 1, 0), JPY);
  }

  /** Fifteen thousand ten-thousandths round to two whole units. */
  lemma OneAndAHalfRounds(v: Decimal)
    requires HoldsUnits(Ok(v), 15_000)
    ensures RoundedAt(v, 0) == 2
  {
    RoundedAtPlaces(v, 0, 4);
    assert Pow10(1) == 10 && Pow10(2) == 100 && Pow10(4) == 10_000;
  }

  lemma OneAndAHalfYen(v: Decimal, yen: Currency)
    requires HoldsUnits(Ok(v), 15_000) && yen.accountingScale == 0
    ensures FromCalculated(v, yen).Ok? && Valid(FromCalculated(v, yen).value)
    ensures Units(FromCalculated(v, yen).value) == 2 * Step(yen)
  {
    OneAndAHalfRounds(v);
    Pow10Grows(1, 20);
    FromCalculatedExactly(v, yen);
  }

  lemma AddedAsTwo(a: Money, b: Money)
    requires Valid(a) && Valid(b) && a.currency == b.currency && a.currency.accountingScale == 0
    requires Units(a) == 5_000 && Units(b) == 10_000
    ensures Add(a, b).Ok? && Valid(Add(a, b).value) && Units(Add(a, b).value) == 2 * Step(a.currency)
  {
    AmountLimit();
    ExactSum(a.amount, b.amount);
    OneAndAHalfYen(AddExact(a.amount, b.amount, MONEY_STORAGE).value, a.currency);
  }

  /** Half a yen and one yen make two: both are valid money, and their sum is not. */
  lemma HalfAYenRounds(a: Money, b: Money)
    requires NewMoney(Finite(false, 5, -1), JPY) == Ok(a) && NewMoney(Finite(false, 1, 0), JPY) == Ok(b)
    ensures Valid(a) && Valid(b) && Add(a, b).Ok? && Valid(Add(a, b).value)
    ensures Units(a) + Units(b) == 15_000 && Units(Add(a, b).value) == 20_000
  {
    HalfAYenIsMoney();
    AddedAsTwo(a, b);
    StepOfCurrency("JPY");
  }
}
