/** The ECB rate sync: fetch in batches and merge, convert quotes against the euro into rates
    against the dollar, and upsert them. */
module EcbSync {
  import opened Wrappers
  import opened Text
  import opened Arithmetic
  import opened Calendar
  import opened Decimals
  import opened FxRates
  import opened FxRepository
  import opened Normaliser

  // What the ECB publishes for the requested dates: units of a currency per euro.
  type Quotes = map<(string, string), real>

  // date -> currency -> quote, as the fetch returns it.
  type EcbData = map<string, map<string, real>>

  function Codes(currencies: seq<string>): set<string>
  {
    set c | c in currencies :: Upper(c)
  }

  /** The answer to one request: the quotes of the requested currencies, by date. A date with
      none of them is absent. */
  function Nested(quotes: Quotes, codes: set<string>): EcbData
  {
    var dates := set k | k in quotes && k.1 in codes :: k.0;
    map date | date in dates :: QuotesOn(quotes, codes, date)
  }

  function QuotesOn(quotes: Quotes, codes: set<string>, date: string): map<string, real>
  {
    map c | c in codes && (date, c) in quotes :: quotes[(date, c)]
  }

  function At(data: EcbData, date: string): map<string, real>
  {
    if date in data then data[date] else map[]
  }

  /** Merging one batch: each of its dates is created if new, then updated. */
  method MergeBatch(ecbData: EcbData, batchData: EcbData) returns (merged: EcbData)
    ensures merged.Keys == ecbData.Keys + batchData.Keys
    ensures forall date :: date in merged ==> merged[date] == At(ecbData, date) + At(batchData, date)
  {
    merged := ecbData;
    var todo := batchData.Keys;
    assert Merging(ecbData, batchData, todo, merged);
    while todo != {}
      invariant Merging(ecbData, batchData, todo, merged)
      decreases todo
    {
      var date :| date in todo;
      ghost var before := merged;
      if date !in merged {
        merged := merged[date := map[]];
      }
      merged := merged[date := merged[date] + batchData[date]];
      MergingStep(ecbData, batchData, todo, before, date);
      assert merged == before[date := At(before, date) + batchData[date]];
      todo := todo - {date};
    }
    MergingDone(ecbData, batchData, merged);
  }

  /** merged is ecbData with the dates of batchData folded in, except those still to do. */
  ghost predicate Merging(ecbData: EcbData, batchData: EcbData, todo: set<string>, merged: EcbData)
  {
    && todo <= batchData.Keys
    && (forall date :: date in merged <==> date in ecbData || (date in batchData && date !in todo))
    && (forall date :: date in merged ==> merged[date] == MergedSoFar(ecbData, batchData, todo, date))
  }

  function MergedSoFar(ecbData: EcbData, batchData: EcbData, todo: set<string>, date: string): map<string, real>
  {
    if date in batchData && date !in todo then At(ecbData, date) + batchData[date] else At(ecbData, date)
  }

  lemma MergingStep(ecbData: EcbData, batchData: EcbData, todo: set<string>, merged: EcbData, date: string)
    requires Merging(ecbData, batchData, todo, merged) && date in todo
    ensures Merging(ecbData, batchData, todo - {date}, merged[date := At(merged, date) + batchData[date]])
  {
    assert At(merged, date) == At(ecbData, date);
  }

  lemma MergingDone(ecbData: EcbData, batchData: EcbData, merged: EcbData)
    requires Merging(ecbData, batchData, {}, merged)
    ensures merged.Keys == ecbData.Keys + batchData.Keys
    ensures forall date :: date in merged ==> merged[date] == At(ecbData, date) + At(batchData, date)
  {
    forall date | date in merged ensures merged[date] == At(ecbData, date) + At(batchData, date) {
      assert At(ecbData, date) + map[] == At(ecbData, date);
    }
  }

  /** Fetching in batches of any size and merging gives what one request for all would. */
  method FetchAll(quotes: Quotes, currencies: seq<string>, batchSize: nat) returns (ecbData: EcbData)
    requires batchSize >= 1
    ensures ecbData == Nested(quotes, Codes(currencies))
  {
    ecbData := map[];
    var i := 0;
    while i < |currencies|
      invariant i <= |currencies|
      invariant ecbData == Nested(quotes, Codes(currencies[..i]))
      decreases |currencies| - i
    {
      var next := if i + batchSize <= |currencies| then i + batchSize else |currencies|;
      var batch := currencies[i..next];
      var batchData := Nested(quotes, Codes(batch));
      ghost var earlier := ecbData;
      ecbData := MergeBatch(ecbData, batchData);
      assert currencies[..next] == currencies[..i] + batch;
      CodesOfConcat(currencies[..i], batch);
      MergedIsNested(quotes, Codes(currencies[..i]), Codes(batch), ecbData);
      i := next;
    }
    assert currencies[..|currencies|] == currencies;
  }

  lemma CodesOfConcat(a: seq<string>, b: seq<string>)
    ensures Codes(a + b) == Codes(a) + Codes(b)
  {
  }

  lemma MergedIsNested(quotes: Quotes, a: set<string>, b: set<string>, merged: EcbData)
    requires merged.Keys == Nested(quotes, a).Keys + Nested(quotes, b).Keys
    requires forall date :: date in merged ==> merged[date] == At(Nested(quotes, a), date) + At(Nested(quotes, b), date)
    ensures merged == Nested(quotes, a + b)
  {
    forall date ensures date in merged <==> date in Nested(quotes, a + b) {
      DatesOf(quotes, a, date);
      DatesOf(quotes, b, date);
      DatesOf(quotes, a + b, date);
    }
    forall date | date in merged ensures merged[date] == QuotesOn(quotes, a + b, date) {
      AtIsQuotesOn(quotes, a, date);
      AtIsQuotesOn(quotes, b, date);
      assert QuotesOn(quotes, a, date) + QuotesOn(quotes, b, date) == QuotesOn(quotes, a + b, date);
    }
  }

  lemma DatesOf(quotes: Quotes, codes: set<string>, date: string)
    ensures date in Nested(quotes, codes) <==> exists c :: c in codes && (date, c) in quotes
  {
    if c :| c in codes && (date, c) in quotes {
      assert (date, c).1 in codes;
    }
  }

  lemma AtIsQuotesOn(quotes: Quotes, codes: set<string>, date: string)
    ensures At(Nested(quotes, codes), date) == QuotesOn(quotes, codes, date)
  {
    DatesOf(quotes, codes, date);
  }

  // ---- conversion ----

  datatype RateRow = RateRow(date: Date, currency: string, rate: real)

  /** The currencies to store a row for: all but the dollar. */
  function EmitCurrencies(targets: seq<string>): seq<string>
  {
    if targets == [] then []
    else
      var earlier := EmitCurrencies(targets[..|targets| - 1]);
      var last := Upper(targets[|targets| - 1]);
      if last != "USD" then earlier + [last] else earlier
  }

  /** The requested currencies in upper case, but the dollar. */
  lemma {:induction false} EmittedIff(targets: seq<string>, c: string)
    ensures c in EmitCurrencies(targets) <==> c != "USD" && exists i :: 0 <= i < |targets| && Upper(targets[i]) == c
  {
    if targets != [] {
      var n := |targets| - 1;
      EmittedIff(targets[..n], c);
      assert forall i :: 0 <= i < n ==> targets[..n][i] == targets[i];
    }
  }

  /** Units of the currency per dollar on a day with the given euro quotes, if they allow one. */
  function Convert(quotes: map<string, real>, currency: string): Option<real>
  {
    if "USD" !in quotes || quotes["USD"] <= 0.0 then None
    else if currency == "EUR" then Positive(QuantiseRate(1.0 / quotes["USD"]))
    else if currency !in quotes || quotes[currency] <= 0.0 then None
    else Positive(QuantiseRate(quotes[currency] / quotes["USD"]))
  }

  function Positive(rate: real): Option<real>
  {
    if rate <= 0.0 then None else Some(rate)
  }

  /** A converted rate is the cross rate: multiplied by the dollars of one euro it gives the
      units of the currency of one euro (one, for the euro itself) to within half a unit of the
      tenth place for each dollar. No rate comes out exactly when a quote is missing or not
      positive, or the cross rate rounds to zero. */
  lemma ConvertIsCrossRate(quotes: map<string, real>, currency: string)
    ensures var rate := Convert(quotes, currency);
            if Quoted(quotes, currency) then
              var usd, units := quotes["USD"], UnitsPerEuro(quotes, currency);
              && (rate.Some? <==> QuantiseRate(units / usd) > 0.0)
              && (rate.Some? ==> -(0.5 * RATE_UNIT * usd) <= rate.value * usd - units <= 0.5 * RATE_UNIT * usd)
            else rate.None?
  {
    if Quoted(quotes, currency) {
      var usd, units := quotes["USD"], UnitsPerEuro(quotes, currency);
      QuantiseRateFacts(units / usd);
      UndoDivision(units, usd, QuantiseRate(units / usd), 0.5 * RATE_UNIT);
    }
  }

  predicate Quoted(quotes: map<string, real>, currency: string)
  {
    "USD" in quotes && quotes["USD"] > 0.0 && (currency == "EUR" || (currency in quotes && quotes[currency] > 0.0))
  }

  function UnitsPerEuro(quotes: map<string, real>, currency: string): real
    requires Quoted(quotes, currency)
  {
    if currency == "EUR" then 1.0 else quotes[currency]
  }

  function ConvertDay(date: Date, quotes: map<string, real>, emit: seq<string>): seq<RateRow>
  {
    if emit == [] then []
    else
      var last := emit[|emit| - 1];
      var earlier := ConvertDay(date, quotes, emit[..|emit| - 1]);
      match Convert(quotes, last)
      case Some(rate) => earlier + [RateRow(date, last, rate)]
      case None => earlier
  }

  /** One row for each emitted currency that can be converted. */
  lemma {:induction false} DayRowsAre(date: Date, quotes: map<string, real>, emit: seq<string>, row: RateRow)
    ensures row in ConvertDay(date, quotes, emit) <==>
      row.date == date && row.currency in emit && Convert(quotes, row.currency) == Some(row.rate)
  {
    if emit != [] {
      var n := |emit| - 1;
      DayRowsAre(date, quotes, emit[..n], row);
      assert row.currency in emit <==> row.currency in emit[..n] || row.currency == emit[n];
    }
  }

  // date.fromisoformat: the date a key names, if it names one.
  type DateParser = string -> Option<Date>

  function ConvertDates(parse: DateParser, keys: seq<string>, ecbData: EcbData, emit: seq<string>): seq<RateRow>
    requires forall key :: key in keys ==> key in ecbData
  {
    if keys == [] then []
    else
      var last := keys[|keys| - 1];
      var earlier := ConvertDates(parse, keys[..|keys| - 1], ecbData, emit);
      match parse(last)
      case Some(date) => earlier + ConvertDay(date, ecbData[last], emit)
      case None => earlier
  }

  /** keys are the dictionary's keys, in its iteration order. */
  ghost predicate Lists(keys: seq<string>, ecbData: EcbData)
  {
    && (forall key :: key in keys <==> key in ecbData)
    && (forall i, j :: 0 <= i < j < |keys| ==> keys[i] != keys[j])
  }

  lemma NextKey(parse: DateParser, keys: seq<string>, ecbData: EcbData, emit: seq<string>, i: nat)
    requires i < |keys| && forall key :: key in keys ==> key in ecbData
    ensures var earlier := ConvertDates(parse, keys[..i], ecbData, emit);
            ConvertDates(parse, keys[..i + 1], ecbData, emit) ==
              match parse(keys[i])
              case Some(date) => earlier + ConvertDay(date, ecbData[keys[i]], emit)
              case None => earlier
  {
    assert keys[..i + 1][..i] == keys[..i];
  }

  lemma NextCurrency(date: Date, quotes: map<string, real>, emit: seq<string>, j: nat)
    requires j < |emit|
    ensures var earlier := ConvertDay(date, quotes, emit[..j]);
            ConvertDay(date, quotes, emit[..j + 1]) ==
              match Convert(quotes, emit[j])
              case Some(rate) => earlier + [RateRow(date, emit[j], rate)]
              case None => earlier
  {
    assert emit[..j + 1][..j] == emit[..j];
  }

  method ConvertEcbToUsdConvention(parse: DateParser, keys: seq<string>, ecbData: EcbData, targets: seq<string>) returns (rows: seq<RateRow>)
    requires Lists(keys, ecbData)
    ensures rows == ConvertDates(parse, keys, ecbData, EmitCurrencies(targets))
  {
    rows := [];
    var emit := EmitCurrencies(targets);
    for i := 0 to |keys|
      invariant rows == ConvertDates(parse, keys[..i], ecbData, emit)
    {
      NextKey(parse, keys, ecbData, emit, i);
      var quotes, date := ecbData[keys[i]], parse(keys[i]);
      if "USD" in quotes && quotes["USD"] > 0.0 && date.Some? {
        var today := ConvertQuotes(date.value, quotes, emit);
        rows := rows + today;
      } else if date.Some? {
        NoAnchorNoRows(date.value, quotes, emit);
      }
    }
    assert keys[..|keys|] == keys;
  }

  /** The inner loop: the rows of one date. */
  method ConvertQuotes(date: Date, quotes: map<string, real>, emit: seq<string>) returns (rows: seq<RateRow>)
    ensures rows == ConvertDay(date, quotes, emit)
  {
    rows := [];
    for j := 0 to |emit|
      invariant rows == ConvertDay(date, quotes, emit[..j])
    {
      NextCurrency(date, quotes, emit, j);
      var rate := Convert(quotes, emit[j]);
      if rate.Some? {
        rows := rows + [RateRow(date, emit[j], rate.value)];
      }
    }
    assert emit[..|emit|] == emit;
  }

  lemma {:induction false} NoAnchorNoRows(date: Date, quotes: map<string, real>, emit: seq<string>)
    requires "USD" !in quotes || quotes["USD"] <= 0.0
    ensures ConvertDay(date, quotes, emit) == []
  {
    if emit != [] {
      NoAnchorNoRows(date, quotes, emit[..|emit| - 1]);
    }
  }

  /** The i-th key names the row's date, and its quotes convert to the row's rate. */
  predicate Yields(parse: DateParser, keys: seq<string>, ecbData: EcbData, i: nat, row: RateRow)
    requires i < |keys| && keys[i] in ecbData
  {
    parse(keys[i]) == Some(row.date) && Convert(ecbData[keys[i]], row.currency) == Some(row.rate)
  }

  /** Which rows come out: one for each parseable date and emitted currency that can be
      converted, with exactly the converted rate. */
  lemma {:induction false} RowsAre(parse: DateParser, keys: seq<string>, ecbData: EcbData, emit: seq<string>, row: RateRow)
    requires forall i :: 0 <= i < |keys| ==> keys[i] in ecbData
    ensures row in ConvertDates(parse, keys, ecbData, emit) <==>
      row.currency in emit && exists i :: 0 <= i < |keys| && Yields(parse, keys, ecbData, i, row)
  {
    if keys != [] {
      var n := |keys| - 1;
      var front := keys[..n];
      RowsAre(parse, front, ecbData, emit, row);
      forall i | 0 <= i < n ensures Yields(parse, front, ecbData, i, row) <==> Yields(parse, keys, ecbData, i, row) {}
      if parse(keys[n]).Some? {
        var today := ConvertDay(parse(keys[n]).value, ecbData[keys[n]], emit);
        DayRowsAre(parse(keys[n]).value, ecbData[keys[n]], emit, row);
        assert row in today <==> row.currency in emit && Yields(parse, keys, ecbData, n, row);
      }
    }
  }

  predicate DistinctCodes(currencies: seq<string>)
  {
    forall i, j :: 0 <= i < j < |currencies| ==> currencies[i] != currencies[j]
  }

  /** No two keys name the same date. */
  predicate OneKeyPerDate(parse: DateParser, keys: seq<string>)
  {
    forall i, j :: 0 <= i < j < |keys| && parse(keys[i]).Some? ==> parse(keys[i]) != parse(keys[j])
  }

  predicate DistinctRows(rows: seq<RateRow>)
  {
    forall i, j :: 0 <= i < j < |rows| ==> rows[i].date != rows[j].date || rows[i].currency != rows[j].currency
  }

  /** No currency is emitted twice and converts. */
  predicate NoRepeat(quotes: map<string, real>, emit: seq<string>)
  {
    forall i, j :: 0 <= i < j < |emit| && emit[i] == emit[j] ==> Convert(quotes, emit[i]).None?
  }

  lemma DistinctSnoc(rows: seq<RateRow>, row: RateRow)
    ensures DistinctRows(rows + [row]) <==>
      DistinctRows(rows) && forall i :: 0 <= i < |rows| ==> rows[i].date != row.date || rows[i].currency != row.currency
  {
    if DistinctRows(rows + [row]) {
      assert forall i :: 0 <= i < |rows| ==> (rows + [row])[i] == rows[i];
      assert (rows + [row])[|rows|] == row;
    }
  }

  lemma {:induction false} DayRowsDistinctIff(date: Date, quotes: map<string, real>, emit: seq<string>)
    ensures DistinctRows(ConvertDay(date, quotes, emit)) <==> NoRepeat(quotes, emit)
  {
    if emit != [] {
      var n := |emit| - 1;
      var front, last := emit[..n], emit[n];
      DayRowsDistinctIff(date, quotes, front);
      var rows := ConvertDay(date, quotes, front);
      assert NoRepeat(quotes, emit) <==> NoRepeat(quotes, front) && (last in front ==> Convert(quotes, last).None?) by {
        NoRepeatSnoc(quotes, emit);
      }
      match Convert(quotes, last) {
        case None =>
        case Some(rate) =>
          DistinctSnoc(rows, RateRow(date, last, rate));
          DayRowsAre(date, quotes, front, RateRow(date, last, rate));
          forall i | 0 <= i < |rows|
            ensures rows[i].date == date && (rows[i].currency == last ==> rows[i] == RateRow(date, last, rate))
          {
            DayRowsAre(date, quotes, front, rows[i]);
          }
      }
    }
  }

  lemma NoRepeatSnoc(quotes: map<string, real>, emit: seq<string>)
    requires emit != []
    ensures var n := |emit| - 1;
            NoRepeat(quotes, emit) <==> NoRepeat(quotes, emit[..n]) && (emit[n] in emit[..n] ==> Convert(quotes, emit[n]).None?)
  {
    var n := |emit| - 1;
    assert forall i :: 0 <= i < n ==> emit[..n][i] == emit[i];
    if NoRepeat(quotes, emit) && emit[n] in emit[..n] {
      var i :| 0 <= i < n && emit[..n][i] == emit[n];
    }
  }

  /** The i-th key names a date and its quotes convert the currency. */
  predicate Converts(parse: DateParser, keys: seq<string>, ecbData: EcbData, i: nat, currency: string)
    requires i < |keys| && keys[i] in ecbData
  {
    parse(keys[i]).Some? && Convert(ecbData[keys[i]], currency).Some?
  }

  /** Some emitted currency converts under the i-th key and under an earlier key for its date. */
  ghost predicate Repeats(parse: DateParser, keys: seq<string>, ecbData: EcbData, emit: seq<string>, i: nat)
    requires i < |keys| && forall key :: key in keys ==> key in ecbData
  {
    exists k, c :: 0 <= k < i && c in emit && parse(keys[k]) == parse(keys[i])
      && Converts(parse, keys, ecbData, k, c) && Converts(parse, keys, ecbData, i, c)
  }

  /** The i-th key adds no second row for a date and currency. */
  ghost predicate NoClashAt(parse: DateParser, keys: seq<string>, ecbData: EcbData, emit: seq<string>, i: nat)
    requires i < |keys| && forall key :: key in keys ==> key in ecbData
  {
    parse(keys[i]).Some? ==> NoRepeat(ecbData[keys[i]], emit) && !Repeats(parse, keys, ecbData, emit, i)
  }

  ghost predicate NoClash(parse: DateParser, keys: seq<string>, ecbData: EcbData, emit: seq<string>)
    requires forall key :: key in keys ==> key in ecbData
  {
    forall i :: 0 <= i < |keys| ==> NoClashAt(parse, keys, ecbData, emit, i)
  }

  lemma DistinctConcat(a: seq<RateRow>, b: seq<RateRow>)
    ensures DistinctRows(a + b) <==> DistinctRows(a) && DistinctRows(b) && !Meet(a, b)
  {
    var ab := a + b;
    if DistinctRows(ab) {
      assert forall i :: 0 <= i < |a| ==> ab[i] == a[i];
      forall i, j | 0 <= i < j < |b| ensures b[i].date != b[j].date || b[i].currency != b[j].currency {
        assert ab[|a| + i] == b[i] && ab[|a| + j] == b[j];
      }
      forall i, j | 0 <= i < |a| && 0 <= j < |b| ensures a[i].date != b[j].date || a[i].currency != b[j].currency {
        assert ab[i] == a[i] && ab[|a| + j] == b[j];
      }
    }
  }

  /** Some row of a and some row of b are for one date and currency. */
  predicate Meet(a: seq<RateRow>, b: seq<RateRow>)
  {
    exists i, j :: 0 <= i < |a| && 0 <= j < |b| && a[i].date == b[j].date && a[i].currency == b[j].currency
  }

  /** The rows of the keys before the last meet those of the last exactly when some emitted
      currency converts under two keys for its date. */
  lemma MeetIff(parse: DateParser, keys: seq<string>, ecbData: EcbData, emit: seq<string>, date: Date)
    requires keys != [] && forall key :: key in keys ==> key in ecbData
    requires parse(keys[|keys| - 1]) == Some(date)
    ensures var n := |keys| - 1;
            Meet(ConvertDates(parse, keys[..n], ecbData, emit), ConvertDay(date, ecbData[keys[n]], emit)) <==>
              Repeats(parse, keys, ecbData, emit, n)
  {
    var n := |keys| - 1;
    var front := keys[..n];
    var rows, today := ConvertDates(parse, front, ecbData, emit), ConvertDay(date, ecbData[keys[n]], emit);
    if Meet(rows, today) {
      var i, j :| 0 <= i < |rows| && 0 <= j < |today| && rows[i].date == today[j].date && rows[i].currency == today[j].currency;
      RowsAre(parse, front, ecbData, emit, rows[i]);
      DayRowsAre(date, ecbData[keys[n]], emit, today[j]);
      var k :| 0 <= k < n && Yields(parse, front, ecbData, k, rows[i]);
      assert keys[k] == front[k];
      assert Converts(parse, keys, ecbData, k, rows[i].currency) && Converts(parse, keys, ecbData, n, rows[i].currency);
    }
    if k, c :| 0 <= k < n && c in emit && parse(keys[k]) == parse(keys[n])
               && Converts(parse, keys, ecbData, k, c) && Converts(parse, keys, ecbData, n, c) {
      var a := RateRow(date, c, Convert(ecbData[keys[k]], c).value);
      var b := RateRow(date, c, Convert(ecbData[keys[n]], c).value);
      assert front[k] == keys[k];
      assert Yields(parse, front, ecbData, k, a);
      RowsAre(parse, front, ecbData, emit, a);
      DayRowsAre(date, ecbData[keys[n]], emit, b);
      var i :| 0 <= i < |rows| && rows[i] == a;
      var j :| 0 <= j < |today| && today[j] == b;
    }
  }

  lemma LastKeyDistinctIff(parse: DateParser, keys: seq<string>, ecbData: EcbData, emit: seq<string>)
    requires keys != [] && forall key :: key in keys ==> key in ecbData
    ensures var n := |keys| - 1;
            DistinctRows(ConvertDates(parse, keys, ecbData, emit)) <==>
              DistinctRows(ConvertDates(parse, keys[..n], ecbData, emit)) && NoClashAt(parse, keys, ecbData, emit, n)
  {
    var n := |keys| - 1;
    if parse(keys[n]).Some? {
      var date := parse(keys[n]).value;
      DistinctConcat(ConvertDates(parse, keys[..n], ecbData, emit), ConvertDay(date, ecbData[keys[n]], emit));
      DayRowsDistinctIff(date, ecbData[keys[n]], emit);
      MeetIff(parse, keys, ecbData, emit, date);
    }
  }

  /** Exactly when the rows name no date and currency twice. */
  lemma {:induction false} RowsDistinctIff(parse: DateParser, keys: seq<string>, ecbData: EcbData, emit: seq<string>)
    requires forall key :: key in keys ==> key in ecbData
    ensures DistinctRows(ConvertDates(parse, keys, ecbData, emit)) <==> NoClash(parse, keys, ecbData, emit)
  {
    if keys != [] {
      var n := |keys| - 1;
      RowsDistinctIff(parse, keys[..n], ecbData, emit);
      LastKeyDistinctIff(parse, keys, ecbData, emit);
      forall i | 0 <= i < n ensures NoClashAt(parse, keys[..n], ecbData, emit, i) <==> NoClashAt(parse, keys, ecbData, emit, i) {
        NoClashInFront(parse, keys, ecbData, emit, i);
      }
    }
  }

  lemma NoClashInFront(parse: DateParser, keys: seq<string>, ecbData: EcbData, emit: seq<string>, i: nat)
    requires i < |keys| - 1 && forall key :: key in keys ==> key in ecbData
    ensures NoClashAt(parse, keys[..|keys| - 1], ecbData, emit, i) <==> NoClashAt(parse, keys, ecbData, emit, i)
  {
    var front := keys[..|keys| - 1];
    assert forall k :: 0 <= k <= i ==> front[k] == keys[k];
    forall k, c | 0 <= k <= i ensures Converts(parse, front, ecbData, k, c) <==> Converts(parse, keys, ecbData, k, c) {}
  }

  /** In particular distinct currencies and one key a date give at most one row a date and
      currency. */
  lemma RowsDistinct(parse: DateParser, keys: seq<string>, ecbData: EcbData, emit: seq<string>)
    requires forall key :: key in keys ==> key in ecbData
    requires DistinctCodes(emit) && OneKeyPerDate(parse, keys)
    ensures DistinctRows(ConvertDates(parse, keys, ecbData, emit))
  {
    RowsDistinctIff(parse, keys, ecbData, emit);
  }

  // ---- the whole sync ----

  /** A table that only ever held converted rates: all positive, all with ten places. */
  predicate SoundTable(table: RateTable)
  {
    TenPlaces(table) && forall currency, day :: currency in table && day in table[currency] ==> table[currency][day] > 0.0
  }

  function ToCreate(row: RateRow): RateCreate
  {
    RateCreate(row.date, row.currency, row.rate)
  }

  function ToCreates(rows: seq<RateRow>): (creates: seq<RateCreate>)
    ensures |creates| == |rows| && forall i :: 0 <= i < |rows| ==> creates[i] == ToCreate(rows[i])
  {
    seq(|rows|, i requires 0 <= i < |rows| => ToCreate(rows[i]))
  }

  lemma ConvertedIsSound(quotes: map<string, real>, currency: string)
    ensures Convert(quotes, currency).Some? ==> Convert(quotes, currency).value > 0.0 && IsRate(Convert(quotes, currency).value)
  {
    if "USD" in quotes && quotes["USD"] > 0.0 {
      QuantiseRateFacts(1.0 / quotes["USD"]);
      if currency in quotes {
        QuantiseRateFacts(quotes[currency] / quotes["USD"]);
      }
    }
  }

  lemma {:induction false} UpsertKeepsSound(table: RateTable, creates: seq<RateCreate>)
    requires SoundTable(table)
    requires forall i :: 0 <= i < |creates| ==> creates[i].rate > 0.0 && IsRate(creates[i].rate)
    ensures SoundTable(UpsertAll(table, creates))
  {
    if creates != [] {
      UpsertKeepsSound(table, creates[..|creates| - 1]);
    }
  }

  /** The dollar and the currency are quoted against the euro under a key, both positive. */
  predicate QuotedUnder(quotes: Quotes, key: string, currency: string)
  {
    && (key, "USD") in quotes && quotes[(key, "USD")] > 0.0
    && (currency == "EUR" || ((key, currency) in quotes && quotes[(key, currency)] > 0.0))
  }

  function CrossRate(quotes: Quotes, key: string, currency: string): real
    requires QuotedUnder(quotes, key, currency)
  {
    (if currency == "EUR" then 1.0 else quotes[(key, currency)]) / quotes[(key, "USD")]
  }

  /** The key names the day, the currency is requested, other than the dollar, and k is the
      cross rate in units of the tenth place, a positive number of them. */
  predicate Delivers(parse: DateParser, quotes: Quotes, currencies: seq<string>, key: string, currency: string, day: Date, k: int)
  {
    && currency != "USD" && (exists i :: 0 <= i < |currencies| && Upper(currencies[i]) == currency)
    && parse(key) == Some(day) && QuotedUnder(quotes, key, currency)
    && k > 0 && NearestEven(CrossRate(quotes, key, currency) * 10000000000.0, k)
  }

  /** What a successful sync does to one currency and day: it holds the delivered rate, or what
      it held before when none is delivered. */
  ghost predicate Synced(parse: DateParser, quotes: Quotes, currencies: seq<string>, before: Rates, after: Rates, currency: string, day: Date)
  {
    && (forall key, k :: Delivers(parse, quotes, currencies, key, currency, day, k) ==>
          day in after && after[day] == k as real / 10000000000.0)
    && ((forall key, k :: !Delivers(parse, quotes, currencies, key, currency, day, k)) ==>
          (day in after <==> day in before) && (day in after ==> after[day] == before[day]))
  }

  lemma ConvertIsNearest(quotes: map<string, real>, currency: string, k: int)
    requires Quoted(quotes, currency)
    ensures Convert(quotes, currency) == Some(k as real / 10000000000.0) <==>
      k > 0 && NearestEven(UnitsPerEuro(quotes, currency) / quotes["USD"] * 10000000000.0, k)
  {
    QuantisedRateIs(UnitsPerEuro(quotes, currency) / quotes["USD"], k);
  }

  lemma FetchedUnder(quotes: Quotes, currencies: seq<string>, key: string, currency: string)
    requires currency != "USD" && exists i :: 0 <= i < |currencies| && Upper(currencies[i]) == currency
    ensures var ecbData := Nested(quotes, Codes(currencies + ["USD"]));
            && (QuotedUnder(quotes, key, currency) <==> key in ecbData && Quoted(ecbData[key], currency))
            && (QuotedUnder(quotes, key, currency) ==>
                  UnitsPerEuro(ecbData[key], currency) / ecbData[key]["USD"] == CrossRate(quotes, key, currency))
  {
    var codes := Codes(currencies + ["USD"]);
    var i :| 0 <= i < |currencies| && Upper(currencies[i]) == currency;
    assert currencies[i] in currencies + ["USD"];
    assert "USD" in currencies + ["USD"] && Upper("USD") == "USD";
    assert currency in codes && "USD" in codes;
    DatesOf(quotes, codes, key);
  }

  /** A key yields a row exactly when it delivers its rate. */
  lemma YieldsIff(parse: DateParser, quotes: Quotes, currencies: seq<string>, keys: seq<string>, i: nat, currency: string, day: Date, k: int)
    requires Lists(keys, Nested(quotes, Codes(currencies + ["USD"]))) && i < |keys|
    requires currency != "USD" && exists c :: 0 <= c < |currencies| && Upper(currencies[c]) == currency
    ensures Yields(parse, keys, Nested(quotes, Codes(currencies + ["USD"])), i, RateRow(day, currency, k as real / 10000000000.0))
       <==> Delivers(parse, quotes, currencies, keys[i], currency, day, k)
  {
    var ecbData := Nested(quotes, Codes(currencies + ["USD"]));
    FetchedUnder(quotes, currencies, keys[i], currency);
    if Quoted(ecbData[keys[i]], currency) {
      ConvertIsNearest(ecbData[keys[i]], currency, k);
    } else {
      assert Convert(ecbData[keys[i]], currency) == None;
    }
  }

  /** The rows of a sync from published quotes. */
  function SyncRows(parse: DateParser, quotes: Quotes, currencies: seq<string>, keys: seq<string>): seq<RateRow>
    requires Lists(keys, Nested(quotes, Codes(currencies + ["USD"])))
  {
    ConvertDates(parse, keys, Nested(quotes, Codes(currencies + ["USD"])), EmitCurrencies(currencies))
  }

  lemma DeliveredIsCreated(parse: DateParser, quotes: Quotes, currencies: seq<string>, keys: seq<string>, creates: seq<RateCreate>,
                           key: string, currency: string, day: Date, k: int) returns (i: nat)
    requires Lists(keys, Nested(quotes, Codes(currencies + ["USD"])))
    requires creates == ToCreates(SyncRows(parse, quotes, currencies, keys))
    requires Delivers(parse, quotes, currencies, key, currency, day, k)
    ensures i < |creates| && Holds(creates[i], currency, day) && creates[i].rate == k as real / 10000000000.0
  {
    var rows, row := SyncRows(parse, quotes, currencies, keys), RateRow(day, currency, k as real / 10000000000.0);
    FetchedUnder(quotes, currencies, key, currency);
    var j :| 0 <= j < |keys| && keys[j] == key;
    YieldsIff(parse, quotes, currencies, keys, j, currency, day, k);
    EmittedIff(currencies, currency);
    EmittedIsUpper(currencies, currency);
    RowsAre(parse, keys, Nested(quotes, Codes(currencies + ["USD"])), EmitCurrencies(currencies), row);
    i :| 0 <= i < |rows| && rows[i] == row;
    assert creates[i] == ToCreate(rows[i]);
  }

  lemma CreatedIsDelivered(parse: DateParser, quotes: Quotes, currencies: seq<string>, keys: seq<string>, creates: seq<RateCreate>,
                           i: nat, currency: string, day: Date) returns (key: string, k: int)
    requires Lists(keys, Nested(quotes, Codes(currencies + ["USD"])))
    requires creates == ToCreates(SyncRows(parse, quotes, currencies, keys))
    requires i < |creates| && Holds(creates[i], currency, day)
    ensures Delivers(parse, quotes, currencies, key, currency, day, k)
  {
    var rows := SyncRows(parse, quotes, currencies, keys);
    assert rows[i] in rows && creates[i] == ToCreate(rows[i]);
    key, k := RowIsDelivered(parse, quotes, currencies, keys, rows[i]);
    EmittedIsUpper(currencies, rows[i].currency);
  }

  lemma RowIsDelivered(parse: DateParser, quotes: Quotes, currencies: seq<string>, keys: seq<string>, row: RateRow)
    returns (key: string, k: int)
    requires Lists(keys, Nested(quotes, Codes(currencies + ["USD"])))
    requires row in SyncRows(parse, quotes, currencies, keys)
    ensures row.currency in EmitCurrencies(currencies)
    ensures Delivers(parse, quotes, currencies, key, row.currency, row.date, k)
  {
    var ecbData := Nested(quotes, Codes(currencies + ["USD"]));
    EmittedIff(currencies, row.currency);
    var j := YieldingKey(parse, keys, ecbData, EmitCurrencies(currencies), row);
    key := keys[j];
    k := ConvertedUnits(ecbData[key], row.currency);
    assert row == RateRow(row.date, row.currency, k as real / 10000000000.0);
    YieldsIff(parse, quotes, currencies, keys, j, row.currency, row.date, k);
  }

  lemma YieldingKey(parse: DateParser, keys: seq<string>, ecbData: EcbData, emit: seq<string>, row: RateRow) returns (j: nat)
    requires forall i :: 0 <= i < |keys| ==> keys[i] in ecbData
    requires row in ConvertDates(parse, keys, ecbData, emit)
    ensures row.currency in emit && j < |keys| && Yields(parse, keys, ecbData, j, row)
  {
    RowsAre(parse, keys, ecbData, emit, row);
    j :| 0 <= j < |keys| && Yields(parse, keys, ecbData, j, row);
  }

  lemma SyncMeans(parse: DateParser, quotes: Quotes, currencies: seq<string>, keys: seq<string>, creates: seq<RateCreate>,
                  table: RateTable, currency: string, day: Date)
    requires Lists(keys, Nested(quotes, Codes(currencies + ["USD"])))
    requires creates == ToCreates(SyncRows(parse, quotes, currencies, keys)) && DistinctKeys(creates)
    ensures Synced(parse, quotes, currencies, RatesOf(table, currency), RatesOf(UpsertAll(table, creates), currency), currency, day)
  {
    UpsertMeans(table, creates, currency, day);
    var after := RatesOf(UpsertAll(table, creates), currency);
    forall key, k | Delivers(parse, quotes, currencies, key, currency, day, k)
      ensures day in after && after[day] == k as real / 10000000000.0
    {
      var i := DeliveredIsCreated(parse, quotes, currencies, keys, creates, key, currency, day, k);
    }
    if i :| 0 <= i < |creates| && Holds(creates[i], currency, day) {
      var key, k := CreatedIsDelivered(parse, quotes, currencies, keys, creates, i, currency, day);
    }
  }

  lemma ConvertedUnits(quotes: map<string, real>, currency: string) returns (k: int)
    requires Convert(quotes, currency).Some?
    ensures Convert(quotes, currency) == Some(k as real / 10000000000.0)
  {
    k := RoundHalfEven(UnitsPerEuro(quotes, currency) / quotes["USD"] * 10000000000.0);
  }

  /** A sync run: fetch in any batches, convert, upsert. The upsert fails, changing nothing,
      exactly when it would touch a row twice; that cannot happen for distinct requested
      currencies. A sound table stays sound. */
  method RunFxSync(repo: FXRateRepository, quotes: Quotes, parse: DateParser, currencies: seq<string>, batchSize: nat)
    returns (affected: Result<nat, ()>, ghost rows: seq<RateRow>)
    requires batchSize >= 1
    modifies repo
    ensures old(SoundTable(repo.table)) ==> SoundTable(repo.table)
    ensures exists keys ::
      var ecbData := Nested(quotes, Codes(currencies + ["USD"]));
      && Lists(keys, ecbData)
      && rows == ConvertDates(parse, keys, ecbData, EmitCurrencies(currencies))
      && (affected.Ok? <==> NoClash(parse, keys, ecbData, EmitCurrencies(currencies)))
      && (DistinctCodes(EmitCurrencies(currencies)) && OneKeyPerDate(parse, keys) ==> affected.Ok?)
    ensures affected.Ok? <==> DistinctRows(rows)
    ensures repo.table == if affected.Ok? then UpsertAll(old(repo.table), ToCreates(rows)) else old(repo.table)
    ensures affected.Ok? ==> AllSynced(parse, quotes, currencies, old(repo.table), repo.table)
  {
    var ecbData := FetchAll(quotes, currencies + ["USD"], batchSize);
    var keys := KeysOf(ecbData);
    var converted := ConvertEcbToUsdConvention(parse, keys, ecbData, currencies);
    rows := converted;
    ghost var emit := EmitCurrencies(currencies);
    RowsDistinctIff(parse, keys, ecbData, emit);
    if DistinctCodes(emit) && OneKeyPerDate(parse, keys) {
      RowsDistinct(parse, keys, ecbData, emit);
    }
    var creates := ToCreates(converted);
    CreatesAreSound(parse, quotes, currencies, keys, rows, creates);
    if SoundTable(repo.table) {
      UpsertKeepsSound(repo.table, creates);
    }
    affected := repo.BulkUpsert(creates);
    if affected.Ok? {
      SyncsAll(parse, quotes, currencies, keys, creates, old(repo.table));
    }
  }

  ghost predicate AllSynced(parse: DateParser, quotes: Quotes, currencies: seq<string>, before: RateTable, after: RateTable)
  {
    forall currency, day :: Synced(parse, quotes, currencies, RatesOf(before, currency), RatesOf(after, currency), currency, day)
  }

  lemma SyncsAll(parse: DateParser, quotes: Quotes, currencies: seq<string>, keys: seq<string>, creates: seq<RateCreate>, table: RateTable)
    requires Lists(keys, Nested(quotes, Codes(currencies + ["USD"])))
    requires creates == ToCreates(SyncRows(parse, quotes, currencies, keys)) && DistinctKeys(creates)
    ensures AllSynced(parse, quotes, currencies, table, UpsertAll(table, creates))
  {
    forall currency, day
      ensures Synced(parse, quotes, currencies, RatesOf(table, currency), RatesOf(UpsertAll(table, creates), currency), currency, day)
    {
      SyncMeans(parse, quotes, currencies, keys, creates, table, currency, day);
    }
  }

  lemma CreatesAreSound(parse: DateParser, quotes: Quotes, currencies: seq<string>, keys: seq<string>, rows: seq<RateRow>, creates: seq<RateCreate>)
    requires Lists(keys, Nested(quotes, Codes(currencies + ["USD"])))
    requires rows == SyncRows(parse, quotes, currencies, keys) && creates == ToCreates(rows)
    ensures forall i :: 0 <= i < |creates| ==> creates[i].rate > 0.0 && IsRate(creates[i].rate)
    ensures DistinctRows(rows) <==> DistinctKeys(creates)
  {
    forall i | 0 <= i < |rows| ensures rows[i].rate > 0.0 && IsRate(rows[i].rate) && Upper(rows[i].currency) == rows[i].currency {
      assert rows[i] in rows;
      var ecbData := Nested(quotes, Codes(currencies + ["USD"]));
      var k := YieldingKey(parse, keys, ecbData, EmitCurrencies(currencies), rows[i]);
      ConvertedIsSound(ecbData[keys[k]], rows[i].currency);
      EmittedIsUpper(currencies, rows[i].currency);
    }
    SameDistinctness(rows, creates);
  }

  lemma SameDistinctness(rows: seq<RateRow>, creates: seq<RateCreate>)
    requires creates == ToCreates(rows)
    requires forall i :: 0 <= i < |rows| ==> Upper(rows[i].currency) == rows[i].currency
    ensures DistinctRows(rows) <==> DistinctKeys(creates)
  {
    assert forall i :: 0 <= i < |rows| ==> creates[i] == ToCreate(rows[i]);
    if !DistinctRows(rows) {
      var i, j :| 0 <= i < j < |rows| && rows[i].date == rows[j].date && rows[i].currency == rows[j].currency;
      assert (creates[i].date, Upper(creates[i].from)) == (creates[j].date, Upper(creates[j].from));
    }
  }

  lemma EmittedIsUpper(targets: seq<string>, c: string)
    requires c in EmitCurrencies(targets)
    ensures Upper(c) == c
  {
    EmittedIff(targets, c);
    var i :| 0 <= i < |targets| && Upper(targets[i]) == c;
    UpperIdempotent(targets[i]);
  }

  method KeysOf(ecbData: EcbData) returns (keys: seq<string>)
    ensures Lists(keys, ecbData)
  {
    keys := [];
    var todo := ecbData.Keys;
    while todo != {}
      invariant todo <= ecbData.Keys
      invariant forall key :: key in keys <==> key in ecbData && key !in todo
      invariant forall i, j :: 0 <= i < j < |keys| ==> keys[i] != keys[j]
      decreases |todo|
    {
      var key :| key in todo;
      keys := keys + [key];
      todo := todo - {key};
    }
  }

  /** On such a table no translation can meet a rate that is not positive, nor divide by zero. */
  lemma SoundTableNeverMisleads(table: RateTable, currency: string, start: Date, end: Date)
    requires SoundTable(table)
    ensures !ProviderSpot(table, currency, end).NonPositiveRate?
    ensures !ProviderAverage(table, currency, start, end).NonPositiveRate?
  {
    var m := RatesOf(table, Upper(currency));
    assert forall day :: day in m ==> m[day] > 0.0;
  }
}
