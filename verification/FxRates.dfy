/** The stored closing rates and what the look-back makes of them. A rate is the number of
    foreign currency units for one US dollar. */
module FxRates {
  import opened Wrappers
  import opened Text
  import opened Decimals
  import opened Calendar

  const MAX_LOOKBACK: nat := 5

  // One currency's rows of daily_fx_rates against USD. The primary key
  // (rate_date, from_currency, to_currency) makes the rows of a currency a map.
  type Rates = map<Date, real>

  type RateTable = map<string, Rates>

  datatype DailyRate = DailyRate(onDate: Date, rate: real)

  datatype Context = Spot | WeightedAverage

  datatype FxResult =
    | Rate(value: real)
    | MissingRate(target: Date, context: Context)  // MissingFXRateException
    | NonPositiveRate(on: Date, context: Context)  // FXRateLookupError: data error
    | NoRates                                      // FXRateLookupError: nothing found
    | InvalidPeriod                                // ValueError: start after end

  function RatesOf(table: RateTable, currency: string): Rates
  {
    if currency in table then table[currency] else map[]
  }

  predicate IsDollar(currency: string)
  {
    Upper(currency) == "USD"
  }

  /** What a range query can see for a currency on a day: USD has rate 1 every day. */
  function Quote(table: RateTable, currency: string, day: Date): Option<real>
  {
    var rates := RatesOf(table, Upper(currency));
    if IsDollar(currency) then Some(QuantiseRate(1.0))
    else if day in rates then Some(rates[day])
    else None
  }

  /** get_rates_in_range: the quoted days of [start, end], oldest first. */
  function RatesInRange(table: RateTable, currency: string, start: Date, end: Date): (rows: seq<DailyRate>)
    ensures forall i, j :: 0 <= i < j < |rows| ==> rows[i].onDate < rows[j].onDate
    ensures forall i :: 0 <= i < |rows| ==>
      start <= rows[i].onDate <= end && Quote(table, currency, rows[i].onDate) == Some(rows[i].rate)
    ensures forall day :: start <= day <= end && Quote(table, currency, day).Some? ==>
      DailyRate(day, Quote(table, currency, day).value) in rows
    decreases end - start
  {
    if end < start then []
    else
      var earlier := RatesInRange(table, currency, start, end - 1);
      match Quote(table, currency, end)
      case Some(rate) => earlier + [DailyRate(end, rate)]
      case None => earlier
  }

  /** The rows of m between lo and hi, both included. */
  function Window(m: Rates, lo: Date, hi: Date): Rates
  {
    map day | day in m && lo <= day <= hi :: m[day]
  }

  // ---- the look-back ----

  /** The day whose rate is in force on `day`: the latest rate date of [day - back, day]. */
  function InForceDate(m: Rates, day: Date, back: nat): (found: Option<Date>)
    ensures found.Some? ==> found.value in m && day - back <= found.value <= day
    ensures found.Some? ==> forall u :: found.value < u <= day ==> u !in m
    ensures found.None? ==> forall u :: day - back <= u <= day ==> u !in m
    decreases back
  {
    if day in m then Some(day)
    else if back == 0 then None
    else InForceDate(m, day - 1, back - 1)
  }

  predicate Covered(m: Rates, day: Date)
  {
    InForceDate(m, day, MAX_LOOKBACK).Some?
  }

  /** The resolved rate of a day; 0 on a day no rate covers. */
  function RateOn(m: Rates, day: Date): real
  {
    match InForceDate(m, day, MAX_LOOKBACK)
    case Some(t) => m[t]
    case None => 0.0
  }

  predicate Usable(m: Rates, day: Date)
  {
    Covered(m, day) && RateOn(m, day) > 0.0
  }

  function FirstUnusable(m: Rates, start: Date, end: Date): (bad: Option<Date>)
    ensures bad.Some? ==> start <= bad.value <= end && !Usable(m, bad.value)
    ensures bad.Some? ==> forall day :: start <= day < bad.value ==> Usable(m, day)
    ensures bad.None? ==> forall day :: start <= day <= end ==> Usable(m, day)
    decreases end - start
  {
    if end < start then None
    else
      var earlier := FirstUnusable(m, start, end - 1);
      if earlier.Some? then earlier
      else if Usable(m, end) then None
      else Some(end)
  }

  lemma {:induction false} FirstUnusableStays(m: Rates, start: Date, day: Date, end: Date)
    requires day <= end && FirstUnusable(m, start, day).Some?
    ensures FirstUnusable(m, start, end) == FirstUnusable(m, start, day)
    decreases end - day
  {
    if day < end {
      FirstUnusableStays(m, start, day, end - 1);
    }
  }

  /** The sum of the resolved rates of the days of [start, end]. */
  function DaySum(m: Rates, start: Date, end: Date): real
    decreases end - start
  {
    if end < start then 0.0 else DaySum(m, start, end - 1) + RateOn(m, end)
  }

  function CoveredDays(m: Rates, start: Date, end: Date): (n: nat)
    ensures n <= if start <= end then end - start + 1 else 0
    decreases end - start
  {
    if end < start then 0
    else CoveredDays(m, start, end - 1) + if Covered(m, end) then 1 else 0
  }

  function Sum(values: seq<real>): real
  {
    if values == [] then 0.0 else Sum(values[..|values| - 1]) + values[|values| - 1]
  }

  lemma SumSnoc(values: seq<real>, x: real)
    ensures Sum(values + [x]) == Sum(values) + x
  {
    assert (values + [x])[..|values|] == values;
  }

  // ---- what each implementation should return, over the whole table ----

  function ProviderSpot(table: RateTable, currency: string, day: Date): FxResult
  {
    var m := RatesOf(table, Upper(currency));
    if IsDollar(currency) then Rate(1.0)
    else if !Covered(m, day) then MissingRate(day, Spot)
    else if RateOn(m, day) <= 0.0 then NonPositiveRate(day, Spot)
    else Rate(QuantiseRate(RateOn(m, day)))
  }

  function ProviderAverage(table: RateTable, currency: string, start: Date, end: Date): FxResult
  {
    if start > end then InvalidPeriod
    else if IsDollar(currency) then Rate(1.0)
    else StrictMean(RatesOf(table, Upper(currency)), start, end)
  }

  /** The mean over every day of the period, or the first day that has no usable rate. */
  function StrictMean(m: Rates, start: Date, end: Date): FxResult
    requires start <= end
  {
    match FirstUnusable(m, start, end)
    case Some(day) =>
      if Covered(m, day) then NonPositiveRate(day, WeightedAverage) else MissingRate(day, WeightedAverage)
    case None => Rate(QuantiseRate(DaySum(m, start, end) / (end - start + 1) as real))
  }

  function RepositorySpot(table: RateTable, currency: string, day: Date): FxResult
  {
    var m := RatesOf(table, Upper(currency));
    if IsDollar(currency) then Rate(1.0)
    else if !Covered(m, day) then NoRates
    else Rate(QuantiseRate(RateOn(m, day)))
  }

  function RepositoryAverage(table: RateTable, currency: string, start: Date, end: Date): FxResult
  {
    if IsDollar(currency) then Rate(1.0) else LenientMean(RatesOf(table, Upper(currency)), start, end)
  }

  /** The mean over the days that some rate covers. */
  function LenientMean(m: Rates, start: Date, end: Date): FxResult
  {
    if CoveredDays(m, start, end) == 0 then NoRates
    else Rate(QuantiseRate(DaySum(m, start, end) / CoveredDays(m, start, end) as real))
  }

  // ---- a fetched window resolves like the whole store ----

  /** Two stores that agree on [day - back, day] put the same date in force. */
  lemma InForceDependsOnWindow(m: Rates, w: Rates, day: Date, back: nat)
    requires forall u :: day - back <= u <= day ==> (u in m <==> u in w) && (u in m ==> m[u] == w[u])
    ensures InForceDate(m, day, back) == InForceDate(w, day, back)
    decreases back
  {
    if day !in m && back > 0 {
      InForceDependsOnWindow(m, w, day - 1, back - 1);
    }
  }

  lemma WindowResolvesAlike(m: Rates, lo: Date, hi: Date, day: Date)
    requires lo <= day - MAX_LOOKBACK && day <= hi
    ensures InForceDate(Window(m, lo, hi), day, MAX_LOOKBACK) == InForceDate(m, day, MAX_LOOKBACK)
    ensures RateOn(Window(m, lo, hi), day) == RateOn(m, day)
  {
    InForceDependsOnWindow(Window(m, lo, hi), m, day, MAX_LOOKBACK);
  }

  lemma {:induction false} SameDaysSameSums(m: Rates, w: Rates, start: Date, end: Date)
    requires forall day :: start <= day <= end ==>
      InForceDate(m, day, MAX_LOOKBACK) == InForceDate(w, day, MAX_LOOKBACK) && RateOn(m, day) == RateOn(w, day)
    ensures DaySum(m, start, end) == DaySum(w, start, end)
    ensures CoveredDays(m, start, end) == CoveredDays(w, start, end)
    ensures FirstUnusable(m, start, end) == FirstUnusable(w, start, end)
    decreases end - start
  {
    if start <= end {
      SameDaysSameSums(m, w, start, end - 1);
    }
  }

  /** Averaging the window fetched for a period is averaging the whole store. */
  lemma WindowAveragesAlike(m: Rates, start: Date, end: Date)
    ensures var w := Window(m, start - MAX_LOOKBACK, end);
            && LenientMean(w, start, end) == LenientMean(m, start, end)
            && (start <= end ==> StrictMean(w, start, end) == StrictMean(m, start, end))
  {
    var w := Window(m, start - MAX_LOOKBACK, end);
    forall day | start <= day <= end
      ensures InForceDate(m, day, MAX_LOOKBACK) == InForceDate(w, day, MAX_LOOKBACK) && RateOn(m, day) == RateOn(w, day)
    {
      WindowResolvesAlike(m, start - MAX_LOOKBACK, end, day);
    }
    SameDaysSameSums(m, w, start, end);
    if start <= end && FirstUnusable(m, start, end).Some? {
      WindowResolvesAlike(m, start - MAX_LOOKBACK, end, FirstUnusable(m, start, end).value);
    }
  }
}
