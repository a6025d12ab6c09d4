/** FXRateRepository: the table of daily closing rates, and its own spot and average. Unlike
    the provider it skips a day no rate covers, and does not check signs. */
module FxRepository {
  import opened Wrappers
  import opened Text
  import opened Decimals
  import opened Calendar
  import opened FxRates
  import FxProvider

  /** A row to upsert; FXRateCreate's own constructor rejects a rate that is not positive. */
  datatype RateCreate = RateCreate(date: Date, from: string, rate: real)

  predicate DistinctKeys(rows: seq<RateCreate>)
  {
    forall i, j :: 0 <= i < j < |rows| ==> (rows[i].date, Upper(rows[i].from)) != (rows[j].date, Upper(rows[j].from))
  }

  function UpsertOne(table: RateTable, row: RateCreate): RateTable
  {
    var currency := Upper(row.from);
    table[currency := RatesOf(table, currency)[row.date := row.rate]]
  }

  function UpsertAll(table: RateTable, rows: seq<RateCreate>): RateTable
  {
    if rows == [] then table
    else UpsertOne(UpsertAll(table, rows[..|rows| - 1]), rows[|rows| - 1])
  }

  predicate Holds(row: RateCreate, currency: string, day: Date)
  {
    Upper(row.from) == currency && row.date == day
  }

  /** After an upsert of distinct rows a currency's rate on a day is the one upserted for it, if
      there is one, and else what it was. */
  lemma {:induction false} UpsertMeans(table: RateTable, rows: seq<RateCreate>, currency: string, day: Date)
    requires DistinctKeys(rows)
    ensures var before, after := RatesOf(table, currency), RatesOf(UpsertAll(table, rows), currency);
            && (forall i :: 0 <= i < |rows| && Holds(rows[i], currency, day) ==> day in after && after[day] == rows[i].rate)
            && ((forall i :: 0 <= i < |rows| ==> !Holds(rows[i], currency, day)) ==>
                  (day in after <==> day in before) && (day in after ==> after[day] == before[day]))
  {
    if rows != [] {
      var n := |rows| - 1;
      UpsertMeans(table, rows[..n], currency, day);
      forall i | 0 <= i < n ensures rows[..n][i] == rows[i] {}
    }
  }

  /** Upserting the same rows again changes no rate. */
  lemma UpsertIsIdempotent(table: RateTable, rows: seq<RateCreate>, currency: string)
    requires DistinctKeys(rows)
    ensures RatesOf(UpsertAll(UpsertAll(table, rows), rows), currency) == RatesOf(UpsertAll(table, rows), currency)
  {
    var once, twice := UpsertAll(table, rows), UpsertAll(UpsertAll(table, rows), rows);
    var a, b := RatesOf(once, currency), RatesOf(twice, currency);
    forall day ensures (day in a <==> day in b) && (day in a ==> a[day] == b[day]) {
      UpsertMeans(table, rows, currency, day);
      UpsertMeans(once, rows, currency, day);
    }
  }

  class FXRateRepository {
    var table: RateTable

    constructor ()
      ensures table == map[]
    {
      table := map[];
    }

    method GetSpotRate(currency: string, onDate: Date) returns (r: FxResult)
      ensures r == RepositorySpot(table, currency, onDate)
    {
      var cur := Upper(currency);
      UpperIdempotent(currency);
      if cur == "USD" {
        FxProvider.OneIsARate();
        return Rate(QuantiseRate(1.0));
      }
      var rows := RatesInRange(table, cur, onDate - MAX_LOOKBACK, onDate);
      ghost var m := RatesOf(table, cur);
      ghost var found := InForceDate(m, onDate, MAX_LOOKBACK);
      if found.Some? {
        assert Quote(table, cur, found.value) == Some(m[found.value]);
        assert DailyRate(found.value, m[found.value]) in rows;
      }
      if rows == [] {
        return NoRates;
      }
      var latest := rows[|rows| - 1];
      assert Quote(table, cur, latest.onDate) == Some(latest.rate);
      return Rate(QuantiseRate(latest.rate));
    }

    method GetWeightedAverageRate(currency: string, start: Date, end: Date) returns (r: FxResult)
      ensures r == RepositoryAverage(table, currency, start, end)
    {
      var cur := Upper(currency);
      UpperIdempotent(currency);
      if cur == "USD" {
        FxProvider.OneIsARate();
        return Rate(QuantiseRate(1.0));
      }
      var rows, rateMap := FxProvider.FetchRateMap(table, cur, start - MAX_LOOKBACK, end);
      WindowAveragesAlike(RatesOf(table, cur), start, end);
      if rows == [] {
        EmptyMapCoversNothing(rateMap, start, end);
        return NoRates;
      }
      r := AverageCoveredDays(rateMap, start, end);
    }

    /** INSERT ... ON CONFLICT DO UPDATE. A statement that would touch one row twice fails
        and changes nothing. Returns the number of rows inserted or updated. */
    method BulkUpsert(rows: seq<RateCreate>) returns (affected: Result<nat, ()>)
      modifies this
      ensures affected.Ok? <==> DistinctKeys(rows)
      ensures affected.Ok? ==> affected.value == |rows| && table == UpsertAll(old(table), rows)
      ensures affected.Err? ==> table == old(table)
    {
      if !DistinctKeys(rows) {
        return Err(());
      }
      for i := 0 to |rows|
        invariant table == UpsertAll(old(table), rows[..i])
      {
        assert rows[..i + 1][..i] == rows[..i];
        table := UpsertOne(table, rows[i]);
      }
      assert rows[..|rows|] == rows;
      return Ok(|rows|);
    }
  }

  /** The day-by-day loop of the average, over the fetched map. */
  method AverageCoveredDays(rateMap: Rates, start: Date, end: Date) returns (r: FxResult)
    ensures r == LenientMean(rateMap, start, end)
  {
    var resolved: seq<real> := [];
    var current := start;
    while current <= end
      invariant if start <= end then start <= current <= end + 1 else current == start
      invariant |resolved| == CoveredDays(rateMap, start, current - 1)
      invariant Sum(resolved) == DaySum(rateMap, start, current - 1)
    {
      var rate := LookBack(rateMap, current);
      if rate.Some? {
        SumSnoc(resolved, rate.value);
        resolved := resolved + [rate.value];
      }
      current := current + 1;
    }
    if resolved == [] {
      return NoRates;
    }
    return Rate(QuantiseRate(Sum(resolved) / |resolved| as real));
  }

  /** The inner loop of the average: the nearest rate of the last six days, if any. */
  method LookBack(rateMap: Rates, current: Date) returns (rate: Option<real>)
    ensures rate.Some? <==> Covered(rateMap, current)
    ensures rate.Some? ==> rate.value == RateOn(rateMap, current)
  {
    rate := None;
    for lookback := 0 to MAX_LOOKBACK + 1
      invariant rate == None
      invariant forall u :: current - lookback < u <= current ==> u !in rateMap
    {
      var candidate := current - lookback;
      if candidate in rateMap {
        rate := Some(rateMap[candidate]);
        break;
      }
    }
  }

  lemma {:induction false} EmptyMapCoversNothing(m: Rates, start: Date, end: Date)
    requires m == map[]
    ensures CoveredDays(m, start, end) == 0
    decreases end - start
  {
    if start <= end {
      EmptyMapCoversNothing(m, start, end - 1);
    }
  }
}
