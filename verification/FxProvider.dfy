/** HistoricalFXRateProvider: spot and weighted-average rates with the five-day look-back,
    each from one range query. A missing rate is an error. */
module FxProvider {
  import opened Wrappers
  import opened Text
  import opened Decimals
  import opened Calendar
  import opened FxRates

  /** Later rows overwrite earlier rows of the same date. */
  function BuildRateMap(rows: seq<DailyRate>): Rates
  {
    if rows == [] then map[]
    else
      var last := rows[|rows| - 1];
      BuildRateMap(rows[..|rows| - 1])[last.onDate := last.rate]
  }

  predicate NoneAfter(rows: seq<DailyRate>, i: nat, day: Date)
  {
    forall j :: i < j < |rows| ==> rows[j].onDate != day
  }

  /** The last row of each date wins, and no other date is in the map. */
  lemma {:induction false} LastRowWins(rows: seq<DailyRate>, day: Date)
    ensures day !in BuildRateMap(rows) <==> forall i :: 0 <= i < |rows| ==> rows[i].onDate != day
    ensures day in BuildRateMap(rows) ==>
      exists i :: 0 <= i < |rows| && rows[i] == DailyRate(day, BuildRateMap(rows)[day]) && NoneAfter(rows, i, day)
  {
    if rows != [] {
      var front := rows[..|rows| - 1];
      LastRowWins(front, day);
      assert rows == front + [rows[|rows| - 1]];
      if rows[|rows| - 1].onDate != day && day in BuildRateMap(front) {
        var i :| 0 <= i < |front| && front[i] == DailyRate(day, BuildRateMap(front)[day]) && NoneAfter(front, i, day);
        assert rows[i] == DailyRate(day, BuildRateMap(rows)[day]) && NoneAfter(rows, i, day);
      }
    }
  }

  /** For a foreign currency the fetched map is the window of the stored rates. */
  lemma FetchedMapIsWindow(table: RateTable, currency: string, lo: Date, hi: Date)
    requires !IsDollar(currency)
    ensures BuildRateMap(RatesInRange(table, currency, lo, hi)) == Window(RatesOf(table, Upper(currency)), lo, hi)
  {
    var rows := RatesInRange(table, currency, lo, hi);
    var m := BuildRateMap(rows);
    var w := Window(RatesOf(table, Upper(currency)), lo, hi);
    forall day ensures (day in m <==> day in w) && (day in m ==> m[day] == w[day]) {
      LastRowWins(rows, day);
      if day in w {
        assert Quote(table, currency, day) == Some(w[day]);
        assert DailyRate(day, w[day]) in rows;
      }
      if day in m {
        var i :| 0 <= i < |rows| && rows[i] == DailyRate(day, m[day]);
        assert Quote(table, currency, day) == Some(rows[i].rate);
      }
    }
  }

  /** One range query, and its rows as a map. */
  method FetchRateMap(table: RateTable, currency: string, lo: Date, hi: Date)
    returns (rows: seq<DailyRate>, rateMap: Rates)
    requires !IsDollar(currency)
    ensures rateMap == Window(RatesOf(table, Upper(currency)), lo, hi)
    ensures rows == [] <==> rateMap == map[]
  {
    rows := RatesInRange(table, currency, lo, hi);
    rateMap := BuildRateMap(rows);
    FetchedMapIsWindow(table, currency, lo, hi);
    if rows != [] {
      LastRowWins(rows, rows[0].onDate);
    }
  }

  method ResolveWithLookback(m: Rates, target: Date, maxLookback: nat) returns (rate: Option<real>)
    ensures rate.Some? <==> InForceDate(m, target, maxLookback).Some?
    ensures rate.Some? ==> rate.value == m[InForceDate(m, target, maxLookback).value]
  {
    for delta := 0 to maxLookback + 1
      invariant forall u :: target - delta < u <= target ==> u !in m
    {
      var candidate := target - delta;
      if candidate in m {
        return Some(m[candidate]);
      }
    }
    return None;
  }

  method GetSpotRate(table: RateTable, currency: string, onDate: Date) returns (r: FxResult)
    ensures r == ProviderSpot(table, currency, onDate)
  {
    if Upper(currency) == "USD" {
      OneIsARate();
      return Rate(QuantiseRate(1.0));
    }
    var fetchStart := onDate - MAX_LOOKBACK;
    var _, rateMap := FetchRateMap(table, currency, fetchStart, onDate);
    WindowResolvesAlike(RatesOf(table, Upper(currency)), fetchStart, onDate, onDate);
    var rate := ResolveWithLookback(rateMap, onDate, MAX_LOOKBACK);
    if rate == None {
      return MissingRate(onDate, Spot);
    }
    if rate.value <= 0.0 {
      return NonPositiveRate(onDate, Spot);
    }
    return Rate(QuantiseRate(rate.value));
  }

  method GetWeightedAverageRate(table: RateTable, currency: string, start: Date, end: Date) returns (r: FxResult)
    ensures r == ProviderAverage(table, currency, start, end)
  {
    if start > end {
      return InvalidPeriod;
    }
    if Upper(currency) == "USD" {
      OneIsARate();
      return Rate(QuantiseRate(1.0));
    }
    var _, rateMap := FetchRateMap(table, currency, start - MAX_LOOKBACK, end);
    WindowAveragesAlike(RatesOf(table, Upper(currency)), start, end);
    r := AverageDays(rateMap, start, end);
  }

  /** resolved holds the positive rates of the days from start up to, not including, day. */
  predicate ResolvedUpTo(m: Rates, start: Date, day: Date, resolved: seq<real>)
  {
    && |resolved| == day - start
    && FirstUnusable(m, start, day - 1).None?
    && Sum(resolved) == DaySum(m, start, day - 1)
  }

  lemma OneMoreDay(m: Rates, start: Date, day: Date, resolved: seq<real>)
    requires start <= day && ResolvedUpTo(m, start, day, resolved) && Usable(m, day)
    ensures ResolvedUpTo(m, start, day + 1, resolved + [RateOn(m, day)])
  {
    SumSnoc(resolved, RateOn(m, day));
  }

  lemma StopsAt(m: Rates, start: Date, day: Date, end: Date, resolved: seq<real>)
    requires start <= day <= end && ResolvedUpTo(m, start, day, resolved) && !Usable(m, day)
    ensures StrictMean(m, start, end) ==
              if Covered(m, day) then NonPositiveRate(day, WeightedAverage) else MissingRate(day, WeightedAverage)
  {
    FirstUnusableStays(m, start, day, end);
  }

  lemma AllResolved(m: Rates, start: Date, end: Date, resolved: seq<real>)
    requires start <= end && ResolvedUpTo(m, start, end + 1, resolved)
    ensures |resolved| > 0 && StrictMean(m, start, end) == Rate(QuantiseRate(Sum(resolved) / |resolved| as real))
  {
  }

  /** The day-by-day loop of the average, over the fetched map. */
  method AverageDays(rateMap: Rates, start: Date, end: Date) returns (r: FxResult)
    requires start <= end
    ensures r == StrictMean(rateMap, start, end)
  {
    var resolved: seq<real> := [];
    var current := start;
    while current <= end
      invariant start <= current <= end + 1
      invariant ResolvedUpTo(rateMap, start, current, resolved)
    {
      var rate := ResolveWithLookback(rateMap, current, MAX_LOOKBACK);
      if rate == None {
        StopsAt(rateMap, start, current, end, resolved);
        return MissingRate(current, WeightedAverage);
      }
      if rate.value <= 0.0 {
        StopsAt(rateMap, start, current, end, resolved);
        return NonPositiveRate(current, WeightedAverage);
      }
      OneMoreDay(rateMap, start, current, resolved);
      resolved := resolved + [rate.value];
      current := current + 1;
    }
    AllResolved(rateMap, start, end, resolved);
    return Rate(QuantiseRate(Sum(resolved) / |resolved| as real));
  }

  lemma OneIsARate()
    ensures QuantiseRate(1.0) == 1.0
  {
    QuantiseRateFacts(1.0);
  }
}
