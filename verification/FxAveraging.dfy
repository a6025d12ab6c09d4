/** What the day-by-day average means: its weights, when it exists, its bounds, how it splits
    over the quarters of a year, and how the two implementations compare. */
module FxAveraging {
  import opened Wrappers
  import opened Text
  import opened Arithmetic
  import opened Decimals
  import opened Calendar
  import opened FxRates

  // ---- weights: each trading day counts for the days its rate is in force ----

  /** t is the latest rate date on or before day, at most five days back. */
  predicate InForce(m: Rates, t: Date, day: Date)
  {
    t in m && t <= day <= t + MAX_LOOKBACK && forall u :: t < u <= day ==> u !in m
  }

  function DaysInForce(m: Rates, t: Date, start: Date, end: Date): nat
    decreases end - start
  {
    if end < start then 0
    else DaysInForce(m, t, start, end - 1) + if InForce(m, t, end) then 1 else 0
  }

  /** The sum over the rate dates of [lo, hi] of rate times days in force. */
  function TradingDaySum(m: Rates, start: Date, end: Date, lo: Date, hi: Date): real
    decreases hi - lo
  {
    if hi < lo then 0.0
    else
      var here := if hi in m then Times(m[hi], DaysInForce(m, hi, start, end)) else 0.0;
      TradingDaySum(m, start, end, lo, hi - 1) + here
  }

  function TotalDaysInForce(m: Rates, start: Date, end: Date, lo: Date, hi: Date): nat
    decreases hi - lo
  {
    if hi < lo then 0
    else TotalDaysInForce(m, start, end, lo, hi - 1) + if hi in m then DaysInForce(m, hi, start, end) else 0
  }

  predicate AllCovered(m: Rates, start: Date, end: Date)
  {
    forall day :: start <= day <= end ==> Covered(m, day)
  }

  lemma {:induction false} LaterRateNotInForce(m: Rates, t: Date, start: Date, end: Date)
    requires end < t
    ensures DaysInForce(m, t, start, end) == 0
    decreases end - start
  {
    if start <= end {
      LaterRateNotInForce(m, t, start, end - 1);
    }
  }

  /** One more day adds its rate once, to the one trading day in force on it. */
  lemma {:induction false} OneMoreDay(m: Rates, start: Date, end: Date, lo: Date, hi: Date)
    requires start <= end && Covered(m, end)
    ensures var t := InForceDate(m, end, MAX_LOOKBACK).value;
            && TradingDaySum(m, start, end, lo, hi)
                 == TradingDaySum(m, start, end - 1, lo, hi) + (if lo <= t <= hi then m[t] else 0.0)
            && TotalDaysInForce(m, start, end, lo, hi)
                 == TotalDaysInForce(m, start, end - 1, lo, hi) + (if lo <= t <= hi then 1 else 0)
    decreases hi - lo
  {
    if lo <= hi {
      OneMoreDay(m, start, end, lo, hi - 1);
      var t := InForceDate(m, end, MAX_LOOKBACK).value;
      assert InForce(m, hi, end) <==> hi == t;
    }
  }

  /** The day-by-day sum is the sum over trading days of rate times days in force, and the
      days in force add up to the calendar days of the period. */
  lemma {:induction false} DaySumIsWeightedSum(m: Rates, start: Date, end: Date)
    requires AllCovered(m, start, end)
    ensures DaySum(m, start, end) == TradingDaySum(m, start, end, start - MAX_LOOKBACK, end)
    ensures TotalDaysInForce(m, start, end, start - MAX_LOOKBACK, end) == if start <= end then end - start + 1 else 0
    decreases end - start
  {
    if end < start {
      NothingInForce(m, start, end, start - MAX_LOOKBACK, end);
    } else {
      DaySumIsWeightedSum(m, start, end - 1);
      OneMoreDay(m, start, end, start - MAX_LOOKBACK, end);
      LaterRateNotInForce(m, end, start, end - 1);
    }
  }

  lemma {:induction false} NothingInForce(m: Rates, start: Date, end: Date, lo: Date, hi: Date)
    requires end < start
    ensures TradingDaySum(m, start, end, lo, hi) == 0.0
    ensures TotalDaysInForce(m, start, end, lo, hi) == 0
    decreases hi - lo
  {
    if lo <= hi {
      NothingInForce(m, start, end, lo, hi - 1);
    }
  }

  ghost predicate Consecutive(m: Rates, t: Date, u: Date)
  {
    t in m && u in m && t < u && forall x :: t < x < u ==> x !in m
  }

  /** The rate of t is superseded on u: by the next rate, or by its age when none comes within
      the look-back. */
  ghost predicate SupersededOn(m: Rates, t: Date, u: Date)
  {
    && t in m && t < u <= t + MAX_LOOKBACK + 1
    && (forall x :: t < x < u ==> x !in m)
    && (u in m || u == t + MAX_LOOKBACK + 1)
  }

  /** The number of days that [t, u) and [start, end] share. */
  function Overlap(t: Date, u: Date, start: Date, end: Date): nat
  {
    var first := if start < t then t else start;
    var last := if end < u then end else u - 1;
    if first <= last then last - first + 1 else 0
  }

  lemma {:induction false} WeightIsOverlap(m: Rates, t: Date, u: Date, start: Date, end: Date)
    requires SupersededOn(m, t, u)
    ensures DaysInForce(m, t, start, end) == Overlap(t, u, start, end)
    decreases end - start
  {
    if start <= end {
      WeightIsOverlap(m, t, u, start, end - 1);
      assert InForce(m, t, end) <==> t <= end < u;
    }
  }

  lemma {:induction false} NextWithin(m: Rates, t: Date, ahead: nat) returns (u: Date)
    ensures t < u <= t + ahead + 1 && (forall x :: t < x < u ==> x !in m) && (u in m || u == t + ahead + 1)
    decreases ahead
  {
    if ahead == 0 || t + 1 in m {
      u := t + 1;
    } else {
      u := NextWithin(m, t + 1, ahead - 1);
    }
  }

  /** Every rate date, in the period or before it, the last one or not, weighs exactly the days
      of the period from it up to the day on which it is superseded. */
  lemma WeightIsGap(m: Rates, t: Date, start: Date, end: Date) returns (u: Date)
    requires t in m
    ensures SupersededOn(m, t, u) && DaysInForce(m, t, start, end) == Overlap(t, u, start, end)
  {
    u := NextWithin(m, t, MAX_LOOKBACK);
    WeightIsOverlap(m, t, u, start, end);
  }

  // ---- existence: no gap of more than six days ----

  /** Some rate at most five days before the period opens, none of its gaps wider than six
      days, and a rate in its last six days. */
  ghost predicate NoWideGap(m: Rates, start: Date, end: Date)
  {
    && (exists t :: start - MAX_LOOKBACK <= t <= start && t in m)
    && (forall t, u :: Consecutive(m, t, u) && start - MAX_LOOKBACK <= t && u <= end ==> u - t <= MAX_LOOKBACK + 1)
    && (exists t :: end - MAX_LOOKBACK <= t <= end && t in m)
  }

  /** The rate dates around a day that has none: the nearest earlier and later ones. */
  lemma {:induction false} Neighbours(m: Rates, lo: Date, hi: Date, day: Date) returns (t: Date, u: Date)
    requires lo < day < hi && lo in m && hi in m && day !in m
    ensures lo <= t < day < u <= hi && Consecutive(m, t, u)
    decreases hi - lo
  {
    if x :| lo < x < hi && x in m {
      if x < day {
        t, u := Neighbours(m, x, hi, day);
      } else {
        t, u := Neighbours(m, lo, x, day);
      }
    } else {
      t, u := lo, hi;
    }
  }

  lemma CoveredIffNoWideGap(m: Rates, start: Date, end: Date)
    requires start <= end
    ensures AllCovered(m, start, end) <==> NoWideGap(m, start, end)
  {
    if AllCovered(m, start, end) {
      assert Covered(m, start) && Covered(m, end);
      forall t, u | Consecutive(m, t, u) && start - MAX_LOOKBACK <= t && u <= end
        ensures u - t <= MAX_LOOKBACK + 1
      {
        var sixth := t + MAX_LOOKBACK + 1;
        assert start <= sixth <= end ==> Covered(m, sixth);
      }
    }
    if NoWideGap(m, start, end) {
      forall day | start <= day <= end ensures Covered(m, day) {
        if !Covered(m, day) {
          var first :| start - MAX_LOOKBACK <= first <= start && first in m;
          var last :| end - MAX_LOOKBACK <= last <= end && last in m;
          assert first < day < last && day !in m;
          var _, _ := Neighbours(m, first, last, day);
          assert false;
        }
      }
    }
  }

  /** The provider's average exists exactly when the period is well formed, no gap is too
      wide, and every rate put in force by some day of it is positive. */
  lemma AverageExistsIff(table: RateTable, currency: string, start: Date, end: Date)
    ensures var m := RatesOf(table, Upper(currency));
            ProviderAverage(table, currency, start, end).Rate? <==>
              && start <= end
              && (IsDollar(currency) ||
                  (NoWideGap(m, start, end)
                   && forall t, day :: start <= day <= end && InForce(m, t, day) ==> m[t] > 0.0))
  {
    var m := RatesOf(table, Upper(currency));
    if start <= end && !IsDollar(currency) {
      CoveredIffNoWideGap(m, start, end);
      InForceIsUnique(m, start, end);
      if FirstUnusable(m, start, end).None? {
        forall day | start <= day <= end ensures Covered(m, day) {
          assert Usable(m, day);
        }
        forall t, day | start <= day <= end && InForce(m, t, day) ensures m[t] > 0.0 {
          assert Usable(m, day);
        }
      } else {
        var bad := FirstUnusable(m, start, end).value;
        if Covered(m, bad) {
          assert InForce(m, InForceDate(m, bad, MAX_LOOKBACK).value, bad);
        }
      }
    }
  }

  lemma InForceIsUnique(m: Rates, start: Date, end: Date)
    ensures forall t, day :: start <= day <= end && InForce(m, t, day) ==> InForceDate(m, day, MAX_LOOKBACK) == Some(t)
  {
  }

  /** A reported gap names the first uncovered day: no rate within five days of it, and every
      earlier day of the period resolves to a positive rate. */
  lemma GapIsFirstUncoveredDay(table: RateTable, currency: string, start: Date, end: Date, day: Date)
    ensures var m := RatesOf(table, Upper(currency));
            ProviderAverage(table, currency, start, end) == MissingRate(day, WeightedAverage) <==>
              && !IsDollar(currency)
              && start <= day <= end
              && (forall u :: day - MAX_LOOKBACK <= u <= day ==> u !in m)
              && (forall earlier :: start <= earlier < day ==> Covered(m, earlier) && RateOn(m, earlier) > 0.0)
  {
    var m := RatesOf(table, Upper(currency));
    if start <= day <= end && !Covered(m, day)
       && (forall earlier :: start <= earlier < day ==> Covered(m, earlier) && RateOn(m, earlier) > 0.0) {
      assert !Usable(m, day);
      forall earlier | start <= earlier < day ensures Usable(m, earlier) {}
    }
    if ProviderAverage(table, currency, start, end) == MissingRate(day, WeightedAverage) {
      forall earlier | start <= earlier < day ensures Covered(m, earlier) && RateOn(m, earlier) > 0.0 {
        assert Usable(m, earlier);
      }
    }
  }

  // ---- bounds ----

  /** The days of a period with the smallest and the largest resolved rate. */
  lemma {:induction false} ExtremeDays(m: Rates, start: Date, end: Date) returns (low: Date, high: Date)
    requires start <= end
    ensures start <= low <= end && start <= high <= end
    ensures forall day :: start <= day <= end ==> RateOn(m, low) <= RateOn(m, day) <= RateOn(m, high)
    decreases end - start
  {
    low, high := end, end;
    if start < end {
      var l, h := ExtremeDays(m, start, end - 1);
      low := if RateOn(m, l) <= RateOn(m, end) then l else end;
      high := if RateOn(m, h) >= RateOn(m, end) then h else end;
    }
  }

  lemma {:induction false} DaySumBounds(m: Rates, start: Date, end: Date, lo: real, hi: real)
    requires start <= end + 1
    requires forall day :: start <= day <= end ==> lo <= RateOn(m, day) <= hi
    ensures Times(lo, end - start + 1) <= DaySum(m, start, end) <= Times(hi, end - start + 1)
    decreases end - start
  {
    if start <= end {
      DaySumBounds(m, start, end - 1, lo, hi);
    }
  }

  /** With rates stored to 10 places, the rounded average lies between the smallest and the
      largest rate resolved in the period; in particular it is positive. */
  lemma AverageWithinResolvedRates(table: RateTable, currency: string, start: Date, end: Date) returns (low: Date, high: Date)
    requires !IsDollar(currency) && ProviderAverage(table, currency, start, end).Rate?
    requires forall t :: t in RatesOf(table, Upper(currency)) ==> IsRate(RatesOf(table, Upper(currency))[t])
    ensures var m := RatesOf(table, Upper(currency));
            && start <= low <= end && start <= high <= end
            && (forall day :: start <= day <= end ==> RateOn(m, low) <= RateOn(m, day) <= RateOn(m, high))
            && 0.0 < RateOn(m, low) <= ProviderAverage(table, currency, start, end).value <= RateOn(m, high)
  {
    var m := RatesOf(table, Upper(currency));
    low, high := ExtremeDays(m, start, end);
    assert Usable(m, low) && Usable(m, high);
    RoundedMeanBounds(m, start, end, RateOn(m, low), RateOn(m, high));
  }

  lemma RoundedMeanBounds(m: Rates, start: Date, end: Date, lo: real, hi: real)
    requires start <= end && IsRate(lo) && IsRate(hi)
    requires forall day :: start <= day <= end ==> lo <= RateOn(m, day) <= hi
    ensures lo <= QuantiseRate(DaySum(m, start, end) / (end - start + 1) as real) <= hi
  {
    DaySumBounds(m, start, end, lo, hi);
    MeanOfBounded(DaySum(m, start, end), end - start + 1, lo, hi);
  }

  lemma MeanOfBounded(total: real, n: nat, lo: real, hi: real)
    requires n > 0 && IsRate(lo) && IsRate(hi)
    requires Times(lo, n) <= total <= Times(hi, n)
    ensures lo <= QuantiseRate(total / n as real) <= hi
  {
    QuotientBounds(total, n, lo, hi);
    var avg := total / n as real;
    QuantiseRateMonotone(lo, avg);
    QuantiseRateMonotone(avg, hi);
    QuantiseRateFacts(lo);
    QuantiseRateFacts(hi);
  }

  // ---- a fiscal year and its quarters ----

  lemma {:induction false} DaySumSplits(m: Rates, start: Date, mid: Date, end: Date)
    requires start <= mid + 1 && mid <= end
    ensures DaySum(m, start, end) == DaySum(m, start, mid) + DaySum(m, mid + 1, end)
    decreases end - mid
  {
    if mid < end {
      DaySumSplits(m, start, mid, end - 1);
    }
  }

  predicate AllUsable(m: Rates, p: Period)
  {
    forall day :: p.start <= day <= p.end ==> Usable(m, day)
  }

  lemma AverageExistsIffAllUsable(table: RateTable, currency: string, p: Period)
    requires p.start <= p.end && !IsDollar(currency)
    ensures ProviderAverage(table, currency, p.start, p.end).Rate? <==> AllUsable(RatesOf(table, Upper(currency)), p)
  {
  }

  /** A year's average exists exactly when the averages of its four quarters do. */
  lemma YearExistsIffQuartersDo(table: RateTable, currency: string, fy: Period, q1: Period, q2: Period, q3: Period, q4: Period)
    requires Quarters(fy, q1, q2, q3, q4) && !IsDollar(currency)
    ensures ProviderAverage(table, currency, fy.start, fy.end).Rate? <==>
              && ProviderAverage(table, currency, q1.start, q1.end).Rate?
              && ProviderAverage(table, currency, q2.start, q2.end).Rate?
              && ProviderAverage(table, currency, q3.start, q3.end).Rate?
              && ProviderAverage(table, currency, q4.start, q4.end).Rate?
  {
    AverageExistsIffAllUsable(table, currency, fy);
    AverageExistsIffAllUsable(table, currency, q1);
    AverageExistsIffAllUsable(table, currency, q2);
    AverageExistsIffAllUsable(table, currency, q3);
    AverageExistsIffAllUsable(table, currency, q4);
    UsableSplits(RatesOf(table, Upper(currency)), fy, q1, q2, q3, q4);
  }

  lemma UsableSplits(m: Rates, fy: Period, q1: Period, q2: Period, q3: Period, q4: Period)
    requires Quarters(fy, q1, q2, q3, q4)
    ensures AllUsable(m, fy) <==> AllUsable(m, q1) && AllUsable(m, q2) && AllUsable(m, q3) && AllUsable(m, q4)
  {
  }

  /** a is the exact mean of the resolved rates of p. */
  predicate IsMean(a: real, m: Rates, p: Period)
    requires p.start <= p.end
  {
    Times(a, PeriodDays(p)) == DaySum(m, p.start, p.end)
  }

  /** a is the exact mean, x the rate the provider returns. */
  lemma AverageIsRoundedMean(table: RateTable, currency: string, p: Period) returns (a: real, x: real)
    requires !IsDollar(currency) && ProviderAverage(table, currency, p.start, p.end).Rate?
    ensures IsMean(a, RatesOf(table, Upper(currency)), p)
    ensures ProviderAverage(table, currency, p.start, p.end) == Rate(x)
    ensures -0.5 * RATE_UNIT <= x - a <= 0.5 * RATE_UNIT
  {
    var total := DaySum(RatesOf(table, Upper(currency)), p.start, p.end);
    QuotientTimes(total, PeriodDays(p));
    a := total / PeriodDays(p) as real;
    QuantiseRateFacts(a);
    x := QuantiseRate(a);
  }

  /** Adding up the quarter values x1 to x4, each once per day of its quarter. */
  function DayWeighted(fy: Period, q1: Period, x1: real, q2: Period, x2: real, q3: Period, x3: real, q4: Period, x4: real): real
    requires Quarters(fy, q1, q2, q3, q4)
  {
    Times(x1, PeriodDays(q1)) + Times(x2, PeriodDays(q2)) + Times(x3, PeriodDays(q3)) + Times(x4, PeriodDays(q4))
  }

  /** The exact mean of a year is the day-weighted mean of its quarters' exact means. */
  lemma YearIsWeightedMeanOfQuarters(m: Rates, fy: Period, q1: Period, q2: Period, q3: Period, q4: Period,
                                     a: real, a1: real, a2: real, a3: real, a4: real)
    requires Quarters(fy, q1, q2, q3, q4)
    requires IsMean(a, m, fy) && IsMean(a1, m, q1) && IsMean(a2, m, q2) && IsMean(a3, m, q3) && IsMean(a4, m, q4)
    ensures Times(a, PeriodDays(fy)) == DayWeighted(fy, q1, a1, q2, a2, q3, a3, q4, a4)
  {
    DaySumSplits(m, fy.start, q3.end, fy.end);
    DaySumSplits(m, fy.start, q2.end, q3.end);
    DaySumSplits(m, fy.start, q1.end, q2.end);
  }

  lemma YearOfUnits(h: real, fy: Period, q1: Period, q2: Period, q3: Period, q4: Period)
    requires Quarters(fy, q1, q2, q3, q4)
    ensures Times(h, PeriodDays(fy)) == DayWeighted(fy, q1, h, q2, h, q3, h, q4, h)
  {
    TimesSplits(h, PeriodDays(q1) + PeriodDays(q2) + PeriodDays(q3), PeriodDays(q4));
    TimesSplits(h, PeriodDays(q1) + PeriodDays(q2), PeriodDays(q3));
    TimesSplits(h, PeriodDays(q1), PeriodDays(q2));
  }

  /** Rounding the year's mean and the quarters' means by at most h each moves the two sides
      apart by at most 2h per day. */
  lemma RoundedMeans(m: Rates, fy: Period, q1: Period, q2: Period, q3: Period, q4: Period, h: real,
                     a: real, a1: real, a2: real, a3: real, a4: real, x: real, x1: real, x2: real, x3: real, x4: real)
    requires Quarters(fy, q1, q2, q3, q4)
    requires IsMean(a, m, fy) && IsMean(a1, m, q1) && IsMean(a2, m, q2) && IsMean(a3, m, q3) && IsMean(a4, m, q4)
    requires -h <= x - a <= h && -h <= x1 - a1 <= h && -h <= x2 - a2 <= h && -h <= x3 - a3 <= h && -h <= x4 - a4 <= h
    ensures var n := PeriodDays(fy);
            -Times(h + h, n) <= Times(x, n) - DayWeighted(fy, q1, x1, q2, x2, q3, x3, q4, x4) <= Times(h + h, n)
  {
    YearIsWeightedMeanOfQuarters(m, fy, q1, q2, q3, q4, a, a1, a2, a3, a4);
    YearOfUnits(h, fy, q1, q2, q3, q4);
    TimesOfSum(h, h, PeriodDays(fy));
    TimesNear(x, a, h, PeriodDays(fy));
    TimesNear(x1, a1, h, PeriodDays(q1));
    TimesNear(x2, a2, h, PeriodDays(q2));
    TimesNear(x3, a3, h, PeriodDays(q3));
    TimesNear(x4, a4, h, PeriodDays(q4));
  }

  /** The rounded average x of a year and the day-weighted mean of the rounded averages x1 to
      x4 of its quarters differ by at most one unit of the tenth place. */
  lemma YearAverageNearQuarterAverages(table: RateTable, currency: string, fy: Period, q1: Period, q2: Period, q3: Period, q4: Period)
    returns (x: real, x1: real, x2: real, x3: real, x4: real)
    requires Quarters(fy, q1, q2, q3, q4)
    requires !IsDollar(currency) && ProviderAverage(table, currency, fy.start, fy.end).Rate?
    ensures ProviderAverage(table, currency, fy.start, fy.end) == Rate(x)
    ensures ProviderAverage(table, currency, q1.start, q1.end) == Rate(x1)
    ensures ProviderAverage(table, currency, q2.start, q2.end) == Rate(x2)
    ensures ProviderAverage(table, currency, q3.start, q3.end) == Rate(x3)
    ensures ProviderAverage(table, currency, q4.start, q4.end) == Rate(x4)
    ensures -RATE_UNIT <= x - DayWeighted(fy, q1, x1, q2, x2, q3, x3, q4, x4) / PeriodDays(fy) as real <= RATE_UNIT
  {
    YearExistsIffQuartersDo(table, currency, fy, q1, q2, q3, q4);
    var a, a1, a2, a3, a4;
    a, x := AverageIsRoundedMean(table, currency, fy);
    a1, x1 := AverageIsRoundedMean(table, currency, q1);
    a2, x2 := AverageIsRoundedMean(table, currency, q2);
    a3, x3 := AverageIsRoundedMean(table, currency, q3);
    a4, x4 := AverageIsRoundedMean(table, currency, q4);
    RoundedMeans(RatesOf(table, Upper(currency)), fy, q1, q2, q3, q4, 0.5 * RATE_UNIT, a, a1, a2, a3, a4, x, x1, x2, x3, x4);
    NearQuotient(x, 0.5 * RATE_UNIT + 0.5 * RATE_UNIT, DayWeighted(fy, q1, x1, q2, x2, q3, x3, q4, x4), PeriodDays(fy));
  }

  /** On both calendars and for every year, the average of the derived fiscal year exists
      exactly when the averages of its four derived quarters do, and is then within 1e-10 of
      their day-weighted mean. */
  lemma DerivedYearMatchesQuarters(table: RateTable, currency: string, fiscalYear: int, standard: string)
    returns (fy: Period, q1: Period, q2: Period, q3: Period, q4: Period)
    requires DerivePeriodDates(fiscalYear, "FY", standard).Ok? && !IsDollar(currency)
    ensures DerivePeriodDates(fiscalYear, "FY", standard) == Ok(fy)
    ensures DerivePeriodDates(fiscalYear, "Q1", standard) == Ok(q1)
    ensures DerivePeriodDates(fiscalYear, "Q2", standard) == Ok(q2)
    ensures DerivePeriodDates(fiscalYear, "Q3", standard) == Ok(q3)
    ensures DerivePeriodDates(fiscalYear, "Q4", standard) == Ok(q4)
    ensures Quarters(fy, q1, q2, q3, q4)
    ensures ProviderAverage(table, currency, fy.start, fy.end).Rate? <==>
              && ProviderAverage(table, currency, q1.start, q1.end).Rate?
              && ProviderAverage(table, currency, q2.start, q2.end).Rate?
              && ProviderAverage(table, currency, q3.start, q3.end).Rate?
              && ProviderAverage(table, currency, q4.start, q4.end).Rate?
    ensures ProviderAverage(table, currency, fy.start, fy.end).Rate? ==>
              -RATE_UNIT
                <= ProviderAverage(table, currency, fy.start, fy.end).value
                   - DayWeighted(fy, q1, ProviderAverage(table, currency, q1.start, q1.end).value,
                                 q2, ProviderAverage(table, currency, q2.start, q2.end).value,
                                 q3, ProviderAverage(table, currency, q3.start, q3.end).value,
                                 q4, ProviderAverage(table, currency, q4.start, q4.end).value) / PeriodDays(fy) as real
                <= RATE_UNIT
  {
    fy, q1, q2, q3, q4 := DerivedQuarters(fiscalYear, standard);
    YearExistsIffQuartersDo(table, currency, fy, q1, q2, q3, q4);
    if ProviderAverage(table, currency, fy.start, fy.end).Rate? {
      var x, x1, x2, x3, x4 := YearAverageNearQuarterAverages(table, currency, fy, q1, q2, q3, q4);
    }
  }

  lemma DerivedQuarters(fiscalYear: int, standard: string) returns (fy: Period, q1: Period, q2: Period, q3: Period, q4: Period)
    requires DerivePeriodDates(fiscalYear, "FY", standard).Ok?
    ensures DerivePeriodDates(fiscalYear, "FY", standard) == Ok(fy)
    ensures DerivePeriodDates(fiscalYear, "Q1", standard) == Ok(q1)
    ensures DerivePeriodDates(fiscalYear, "Q2", standard) == Ok(q2)
    ensures DerivePeriodDates(fiscalYear, "Q3", standard) == Ok(q3)
    ensures DerivePeriodDates(fiscalYear, "Q4", standard) == Ok(q4)
    ensures Quarters(fy, q1, q2, q3, q4)
  {
    QuartersPartitionYear(fiscalYear, standard);
    fy := DerivePeriodDates(fiscalYear, "FY", standard).value;
    q1 := DerivePeriodDates(fiscalYear, "Q1", standard).value;
    q2 := DerivePeriodDates(fiscalYear, "Q2", standard).value;
    q3 := DerivePeriodDates(fiscalYear, "Q3", standard).value;
    q4 := DerivePeriodDates(fiscalYear, "Q4", standard).value;
  }

  // ---- only the fetched window matters ----

  /** Two tables with the same rows of the currency between five days before the period and
      its end give the same average or the same failure. */
  lemma AverageDependsOnWindow(table: RateTable, other: RateTable, currency: string, start: Date, end: Date)
    requires Window(RatesOf(table, Upper(currency)), start - MAX_LOOKBACK, end)
          == Window(RatesOf(other, Upper(currency)), start - MAX_LOOKBACK, end)
    ensures ProviderAverage(table, currency, start, end) == ProviderAverage(other, currency, start, end)
    ensures RepositoryAverage(table, currency, start, end) == RepositoryAverage(other, currency, start, end)
  {
    WindowAveragesAlike(RatesOf(table, Upper(currency)), start, end);
    WindowAveragesAlike(RatesOf(other, Upper(currency)), start, end);
  }

  lemma SpotDependsOnWindow(table: RateTable, other: RateTable, currency: string, day: Date)
    requires Window(RatesOf(table, Upper(currency)), day - MAX_LOOKBACK, day)
          == Window(RatesOf(other, Upper(currency)), day - MAX_LOOKBACK, day)
    ensures ProviderSpot(table, currency, day) == ProviderSpot(other, currency, day)
    ensures RepositorySpot(table, currency, day) == RepositorySpot(other, currency, day)
  {
    WindowResolvesAlike(RatesOf(table, Upper(currency)), day - MAX_LOOKBACK, day, day);
    WindowResolvesAlike(RatesOf(other, Upper(currency)), day - MAX_LOOKBACK, day, day);
  }

  // ---- the two implementations ----

  lemma {:induction false} AllCoveredCount(m: Rates, start: Date, end: Date)
    requires start <= end
    ensures AllCovered(m, start, end) <==> CoveredDays(m, start, end) == end - start + 1
    decreases end - start
  {
    if start < end {
      AllCoveredCount(m, start, end - 1);
      assert AllCovered(m, start, end) <==> AllCovered(m, start, end - 1) && Covered(m, end);
    } else {
      assert CoveredDays(m, start, end - 1) == 0;
    }
  }

  /** Exactly when the provider and the repository return the same average: the provider
      must succeed, and then the repository always agrees with it. On a foreign period the
      provider fails on a day no rate covers, where the repository averages the covered days;
      it fails on a rate that is not positive, where the repository uses the rate; and for
      USD they differ only on a period that ends before it starts. */
  lemma ProviderRefinedByRepository(table: RateTable, currency: string, start: Date, end: Date)
    ensures var m := RatesOf(table, Upper(currency));
            var provider := ProviderAverage(table, currency, start, end);
            var repository := RepositoryAverage(table, currency, start, end);
            && (provider.Rate? ==> repository == provider)
            && (IsDollar(currency) ==> (repository.Rate? && !provider.Rate? <==> start > end))
            && (!IsDollar(currency) ==>
                  (repository.Rate? && !provider.Rate? <==>
                     && 0 < CoveredDays(m, start, end)
                     && (CoveredDays(m, start, end) < end - start + 1
                         || exists day :: start <= day <= end && Covered(m, day) && RateOn(m, day) <= 0.0)))
  {
    var m := RatesOf(table, Upper(currency));
    if start <= end && !IsDollar(currency) {
      AllCoveredCount(m, start, end);
      if FirstUnusable(m, start, end).None? {
        forall day | start <= day <= end ensures Covered(m, day) && RateOn(m, day) > 0.0 {
          assert Usable(m, day);
        }
      } else {
        var bad := FirstUnusable(m, start, end).value;
        assert !Covered(m, bad) || RateOn(m, bad) <= 0.0;
      }
    }
  }

  /** The repository's "last row of the ascending list" and the provider's downward scan find
      the same rate; they part only on a rate that is not positive, which the provider refuses. */
  lemma SpotImplementationsAgree(table: RateTable, currency: string, day: Date)
    ensures var m := RatesOf(table, Upper(currency));
            var provider := ProviderSpot(table, currency, day);
            var repository := RepositorySpot(table, currency, day);
            && (provider.Rate? ==> repository == provider)
            && (repository.Rate? && !provider.Rate? <==> !IsDollar(currency) && Covered(m, day) && RateOn(m, day) <= 0.0)
            && (repository.NoRates? <==> provider == MissingRate(day, Spot))
  {
  }

  /** The repository really does return an average where the provider fails: one rate, on the
      first of eight days, covers only the first six. */
  lemma SkippedDaysAreReal()
    ensures var table: RateTable := map["EUR" := map[1 := 2.0]];
            && ProviderAverage(table, "EUR", 1, 8) == MissingRate(7, WeightedAverage)
            && RepositoryAverage(table, "EUR", 1, 8) == Rate(2.0)
  {
    var table: RateTable := map["EUR" := map[1 := 2.0]];
    var m: Rates := map[1 := 2.0];
    assert Upper("EUR") == "EUR";
    assert RatesOf(table, "EUR") == m;
    forall day | 1 <= day <= 6 ensures InForceDate(m, day, MAX_LOOKBACK) == Some(1) {}
    forall day | 7 <= day <= 8 ensures InForceDate(m, day, MAX_LOOKBACK) == None {}
    GapIsFirstUncoveredDay(table, "EUR", 1, 8, 7);
    assert DaySum(m, 1, 3) == 6.0 && CoveredDays(m, 1, 3) == 3;
    assert DaySum(m, 1, 6) == 12.0 && CoveredDays(m, 1, 6) == 6;
    assert DaySum(m, 1, 8) == 12.0 && CoveredDays(m, 1, 8) == 6;
    QuantiseRateFacts(2.0);
  }

  // ---- what comes out, to the last place ----

  /** A returned period average is the k-th multiple of the tenth place exactly for the k
      nearest to the mean over all days, the even one on a tie. */
  lemma AverageIsNearest(table: RateTable, currency: string, start: Date, end: Date, k: int)
    requires !IsDollar(currency) && ProviderAverage(table, currency, start, end).Rate?
    ensures var mean := DaySum(RatesOf(table, Upper(currency)), start, end) / (end - start + 1) as real;
            (ProviderAverage(table, currency, start, end) == Rate(k as real / 10000000000.0)) <==>
              NearestEven(mean * 10000000000.0, k)
  {
    QuantisedRateIs(DaySum(RatesOf(table, Upper(currency)), start, end) / (end - start + 1) as real, k);
  }

  /** When it fails, it is on the first day without a positive rate in force: a day without any
      rate in its look-back is a missing rate, any other a data error. */
  lemma AverageFailsAt(table: RateTable, currency: string, start: Date, end: Date, day: Date)
    requires !IsDollar(currency) && start <= day <= end
    ensures var m := RatesOf(table, Upper(currency));
            && (ProviderAverage(table, currency, start, end) == MissingRate(day, WeightedAverage) <==>
                  (forall u :: day - MAX_LOOKBACK <= u <= day ==> u !in m) && PositiveBefore(m, start, day))
            && (ProviderAverage(table, currency, start, end) == NonPositiveRate(day, WeightedAverage) <==>
                  (exists t :: InForce(m, t, day) && m[t] <= 0.0) && PositiveBefore(m, start, day))
  {
    var m := RatesOf(table, Upper(currency));
    UsableMeans(m, day);
    PositiveBeforeMeans(m, start, day);
    if PositiveBefore(m, start, day) && !Usable(m, day) {
      FirstUnusableIs(m, start, day, end);
    }
  }

  ghost predicate HasPositiveRate(m: Rates, day: Date)
  {
    exists t :: InForce(m, t, day) && m[t] > 0.0
  }

  ghost predicate PositiveBefore(m: Rates, start: Date, day: Date)
  {
    forall d :: start <= d < day ==> HasPositiveRate(m, d)
  }

  lemma PositiveBeforeMeans(m: Rates, start: Date, day: Date)
    ensures PositiveBefore(m, start, day) <==> forall d :: start <= d < day ==> Usable(m, d)
  {
    forall d ensures HasPositiveRate(m, d) <==> Usable(m, d) {
      UsableMeans(m, d);
    }
  }

  lemma UsableMeans(m: Rates, day: Date)
    ensures Usable(m, day) <==> HasPositiveRate(m, day)
    ensures Covered(m, day) && !Usable(m, day) <==> exists t :: InForce(m, t, day) && m[t] <= 0.0
    ensures Covered(m, day) <==> exists u :: day - MAX_LOOKBACK <= u <= day && u in m
  {
    if Covered(m, day) {
      assert InForce(m, InForceDate(m, day, MAX_LOOKBACK).value, day);
    }
  }

  lemma FirstUnusableIs(m: Rates, start: Date, day: Date, end: Date)
    requires start <= day <= end && !Usable(m, day)
    requires forall d :: start <= d < day ==> Usable(m, d)
    ensures FirstUnusable(m, start, end) == Some(day)
  {
    var bad := FirstUnusable(m, start, end);
    assert bad.Some?;
    assert bad.value <= day;
  }

  /** The repository's average: no rate when no day is covered, else the nearest multiple of the
      mean over the covered days. */
  lemma RepositoryAverageIsNearest(table: RateTable, currency: string, start: Date, end: Date, k: int)
    requires !IsDollar(currency)
    ensures var m := RatesOf(table, Upper(currency));
            var covered := |DaysCovered(m, start, end)|;
            if covered == 0 then RepositoryAverage(table, currency, start, end) == NoRates
            else (RepositoryAverage(table, currency, start, end) == Rate(k as real / 10000000000.0)) <==>
              NearestEven(DaySum(m, start, end) / covered as real * 10000000000.0, k)
  {
    var m := RatesOf(table, Upper(currency));
    CoveredDaysCount(m, start, end);
    if CoveredDays(m, start, end) > 0 {
      QuantisedRateIs(DaySum(m, start, end) / CoveredDays(m, start, end) as real, k);
    }
  }

  function DaysCovered(m: Rates, start: Date, end: Date): set<Date>
  {
    set day | start <= day <= end && Covered(m, day)
  }

  lemma DaysCoveredSnoc(m: Rates, start: Date, end: Date)
    requires start <= end
    ensures DaysCovered(m, start, end) ==
              if Covered(m, end) then DaysCovered(m, start, end - 1) + {end} else DaysCovered(m, start, end - 1)
    ensures end !in DaysCovered(m, start, end - 1)
  {
  }

  lemma {:induction false} CoveredDaysCount(m: Rates, start: Date, end: Date)
    ensures CoveredDays(m, start, end) == |DaysCovered(m, start, end)|
    decreases end - start
  {
    if end < start {
      assert DaysCovered(m, start, end) == {};
    } else {
      CoveredDaysCount(m, start, end - 1);
      DaysCoveredSnoc(m, start, end);
    }
  }

  /** The spot rate of both implementations: the nearest multiple of the latest rate of the six
      days up to the day. The provider alone refuses one that is not positive. */
  lemma SpotIsNearest(table: RateTable, currency: string, day: Date, t: Date, k: int)
    requires !IsDollar(currency) && InForce(RatesOf(table, Upper(currency)), t, day)
    ensures var rate := RatesOf(table, Upper(currency))[t];
            && (RepositorySpot(table, currency, day) == Rate(k as real / 10000000000.0) <==> NearestEven(rate * 10000000000.0, k))
            && if rate <= 0.0 then ProviderSpot(table, currency, day) == NonPositiveRate(day, Spot)
               else (ProviderSpot(table, currency, day) == Rate(k as real / 10000000000.0) <==> NearestEven(rate * 10000000000.0, k))
  {
    var m := RatesOf(table, Upper(currency));
    assert InForceDate(m, day, MAX_LOOKBACK) == Some(t);
    QuantisedRateIs(m[t], k);
  }

  /** Without one both fail; and the dollar is always at one. */
  lemma SpotWithoutRate(table: RateTable, currency: string, day: Date)
    ensures IsDollar(currency) ==>
              ProviderSpot(table, currency, day) == Rate(1.0) && RepositorySpot(table, currency, day) == Rate(1.0)
    ensures !IsDollar(currency) && (forall u :: day - MAX_LOOKBACK <= u <= day ==> u !in RatesOf(table, Upper(currency))) ==>
              ProviderSpot(table, currency, day) == MissingRate(day, Spot) && RepositorySpot(table, currency, day) == NoRates
  {
  }
}
