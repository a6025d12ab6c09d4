/** CurrencyNormaliser behind CurrencyTranslationEngine: balance-sheet items at the closing
    rate, income and cash-flow items at the period average. Amounts are rounded half-up. */
module Normaliser {
  import opened Wrappers
  import opened Text
  import opened Arithmetic
  import opened Decimals
  import opened Calendar
  import opened FxRates
  import FxAveraging

  datatype RateType = Identity | SpotRate | AverageRate

  datatype Translation = Translation(valueUsd: real, fxRateUsed: real, rateType: RateType)

  datatype TranslateError =
    | Lookup(failure: FxResult)
    | ZeroRate
    | MissingPeriodStart
    | UnknownStatement
    | BadPeriod(error: PeriodError)

  function Translate(table: RateTable, value: real, currency: string, statementType: string,
                     start: Option<Date>, end: Date): Result<Translation, TranslateError>
  {
    var statement := Upper(statementType);
    if Upper(currency) == "USD" then Ok(Translation(QuantiseMoneyHalfUp(value), 1.0, Identity))
    else if statement == "BS" then AtRate(value, ProviderSpot(table, currency, end), SpotRate)
    else if statement == "IS" || statement == "CF" then
      match start
      case None => Err(MissingPeriodStart)
      case Some(first) => AtRate(value, ProviderAverage(table, currency, first, end), AverageRate)
    else Err(UnknownStatement)
  }

  function AtRate(value: real, lookup: FxResult, rateType: RateType): Result<Translation, TranslateError>
  {
    match lookup
    case Rate(rate) =>
      if rate == 0.0 then Err(ZeroRate)
      else Ok(Translation(QuantiseMoneyHalfUp(value / rate), QuantiseRateHalfUp(rate), rateType))
    case _ => Err(Lookup(lookup))
  }

  predicate TenPlaces(table: RateTable)
  {
    forall currency, day :: currency in table && day in table[currency] ==> IsRate(table[currency][day])
  }

  /** The rate that Translate divides by. */
  function RateFor(table: RateTable, currency: string, statementType: string, start: Option<Date>, end: Date): FxResult
  {
    if Upper(statementType) == "BS" then ProviderSpot(table, currency, end)
    else if start.Some? then ProviderAverage(table, currency, start.value, end)
    else InvalidPeriod
  }

  lemma SpotIsPositive(table: RateTable, currency: string, day: Date)
    requires TenPlaces(table)
    ensures ProviderSpot(table, currency, day).Rate? ==>
              ProviderSpot(table, currency, day).value > 0.0 && IsRate(ProviderSpot(table, currency, day).value)
  {
    QuantiseRateFacts(1.0);
    if !IsDollar(currency) {
      QuantiseRateFacts(RateOn(RatesOf(table, Upper(currency)), day));
    }
  }

  lemma AverageIsPositive(table: RateTable, currency: string, start: Date, end: Date)
    requires TenPlaces(table)
    ensures ProviderAverage(table, currency, start, end).Rate? ==>
              ProviderAverage(table, currency, start, end).value > 0.0 && IsRate(ProviderAverage(table, currency, start, end).value)
  {
    QuantiseRateFacts(1.0);
    if !IsDollar(currency) && ProviderAverage(table, currency, start, end).Rate? {
      var _, _ := FxAveraging.AverageWithinResolvedRates(table, currency, start, end);
      var m := RatesOf(table, Upper(currency));
      QuantiseRateFacts(DaySum(m, start, end) / (end - start + 1) as real);
    }
  }

  predicate PositiveRate(lookup: FxResult)
  {
    lookup.Rate? ==> lookup.value > 0.0 && IsRate(lookup.value)
  }

  /** The dollars of t, times its rate, are within half a cent's worth of value. */
  predicate ConvertsBack(value: real, t: Translation)
  {
    var slack := 0.5 * MONEY_UNIT * t.fxRateUsed;
    -slack <= t.valueUsd * t.fxRateUsed - value <= slack
  }

  lemma AtRateIsFaithful(value: real, lookup: FxResult, rateType: RateType)
    requires PositiveRate(lookup)
    ensures var r := AtRate(value, lookup, rateType);
            && r != Err(ZeroRate)
            && (r.Ok? <==> lookup.Rate?)
            && (r.Ok? ==>
                  && lookup == Rate(r.value.fxRateUsed)
                  && IsMoney(r.value.valueUsd)
                  && ConvertsBack(value, r.value))
  {
    if lookup.Rate? {
      QuantiseRateFacts(lookup.value);
      DollarsConvertBack(value, lookup.value);
    }
  }

  lemma DollarsConvertBack(value: real, rate: real)
    requires rate > 0.0
    ensures var usd := QuantiseMoneyHalfUp(value / rate);
            var slack := 0.5 * MONEY_UNIT * rate;
            IsMoney(usd) && -slack <= usd * rate - value <= slack
  {
    var q := value / rate;
    QuantiseMoneyFacts(q);
    UndoDivision(value, rate, QuantiseMoneyHalfUp(q), 0.5 * MONEY_UNIT);
  }

  /** With rates stored to 10 places the zero-rate guard never fires, the stored rate is the
      very rate divided by, and multiplying the dollars back by it gives the reported value to
      within half a cent's worth of the foreign currency. */
  lemma TranslationIsFaithful(table: RateTable, value: real, currency: string, statementType: string,
                              start: Option<Date>, end: Date)
    requires TenPlaces(table) && !IsDollar(currency)
    ensures var r := Translate(table, value, currency, statementType, start, end);
            && r != Err(ZeroRate)
            && (r.Ok? ==>
                  && RateFor(table, currency, statementType, start, end) == Rate(r.value.fxRateUsed)
                  && IsMoney(r.value.valueUsd)
                  && ConvertsBack(value, r.value))
  {
    SpotIsPositive(table, currency, end);
    if start.Some? {
      AverageIsPositive(table, currency, start.value, end);
    }
    var r := Translate(table, value, currency, statementType, start, end);
    if r.Ok? || r == Err(ZeroRate) {
      AtRateIsFaithful(value, RateFor(table, currency, statementType, start, end), if Upper(statementType) == "BS" then SpotRate else AverageRate);
    }
  }

  /** The two passes: a balance-sheet figure depends on the rates of the six days up to the
      closing date alone, whatever the start of the period; an income or cash-flow figure on
      the rates from five days before the period to its end. */
  lemma DualPassDependsOnItsWindow(table: RateTable, other: RateTable, value: real, currency: string, statementType: string,
                                   start: Option<Date>, otherStart: Option<Date>, end: Date)
    ensures var m, w := RatesOf(table, Upper(currency)), RatesOf(other, Upper(currency));
            && (Upper(statementType) == "BS" && Window(m, end - MAX_LOOKBACK, end) == Window(w, end - MAX_LOOKBACK, end) ==>
                  Translate(table, value, currency, statementType, start, end)
                    == Translate(other, value, currency, statementType, otherStart, end))
            && (start.Some? && Window(m, start.value - MAX_LOOKBACK, end) == Window(w, start.value - MAX_LOOKBACK, end)
                && Upper(statementType) in {"IS", "CF"} ==>
                  Translate(table, value, currency, statementType, start, end)
                    == Translate(other, value, currency, statementType, start, end))
  {
    var m, w := RatesOf(table, Upper(currency)), RatesOf(other, Upper(currency));
    if Window(m, end - MAX_LOOKBACK, end) == Window(w, end - MAX_LOOKBACK, end) {
      FxAveraging.SpotDependsOnWindow(table, other, currency, end);
    }
    if start.Some? && Window(m, start.value - MAX_LOOKBACK, end) == Window(w, start.value - MAX_LOOKBACK, end) {
      FxAveraging.AverageDependsOnWindow(table, other, currency, start.value, end);
    }
  }

  /** Which calls are refused before any rate is looked up. */
  lemma RefusedCalls(table: RateTable, value: real, currency: string, statementType: string, start: Option<Date>, end: Date)
    ensures var r := Translate(table, value, currency, statementType, start, end);
            var foreign, statement := !IsDollar(currency), Upper(statementType);
            && (r == Err(UnknownStatement) <==> foreign && statement !in {"BS", "IS", "CF"})
            && (r == Err(MissingPeriodStart) <==> foreign && statement in {"IS", "CF"} && start.None?)
            && (!foreign ==> r.Ok? && r.value.fxRateUsed == 1.0 && r.value.rateType == Identity)
            && (r.Ok? && foreign ==> r.value.rateType == if statement == "BS" then SpotRate else AverageRate)
  {
  }

  /** Outflows are negated before translation; doing it after would give the same amount. */
  lemma TranslationKeepsSign(table: RateTable, value: real, currency: string, statementType: string,
                             start: Option<Date>, end: Date)
    ensures var pos := Translate(table, value, currency, statementType, start, end);
            var neg := Translate(table, -value, currency, statementType, start, end);
            if pos.Ok? then neg == Ok(pos.value.(valueUsd := -pos.value.valueUsd)) else neg == pos
  {
    MoneyIsOdd(value);
    var lookup := RateFor(table, currency, statementType, start, end);
    if lookup.Rate? && lookup.value != 0.0 {
      QuotientIsOdd(value, lookup.value);
      MoneyIsOdd(value / lookup.value);
    }
  }

  lemma MoneyIsOdd(x: real)
    ensures QuantiseMoneyHalfUp(-x) == -QuantiseMoneyHalfUp(x)
  {
    RoundingIsOdd(x * 100.0);
    assert -x * 100.0 == -(x * 100.0);
  }

  /** The amount before rounding: the value itself in dollars, else the value divided by the rate. */
  function ExactAmount(table: RateTable, value: real, currency: string, statementType: string,
                       start: Option<Date>, end: Date): real
  {
    if IsDollar(currency) then value
    else
      match RateFor(table, currency, statementType, start, end)
      case Rate(rate) => if rate == 0.0 then 0.0 else value / rate
      case _ => 0.0
  }

  /** The documented half-even amount comes out exactly when the exact amount is not a tie that
      half-even takes down. */
  lemma HalfEvenKeptIff(table: RateTable, value: real, currency: string, statementType: string,
                        start: Option<Date>, end: Date)
    requires Translate(table, value, currency, statementType, start, end).Ok?
    ensures var usd := Translate(table, value, currency, statementType, start, end).value.valueUsd;
            var exact := ExactAmount(table, value, currency, statementType, start, end);
            && usd == QuantiseMoneyHalfUp(exact)
            && (usd == QuantiseMoney(exact) <==> !TiesToEven(exact))
  {
    MoneyRoundingsAgreeIff(ExactAmount(table, value, currency, statementType, start, end));
  }
}
