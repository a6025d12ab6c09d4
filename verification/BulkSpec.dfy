/** What a run of the bulk translator does to a batch of rows, as functions on row values, and
    the all-or-nothing and re-run properties that follow. */
module BulkSpec {
  import opened Wrappers
  import opened Text
  import opened Decimals
  import opened Calendar
  import opened FxRates
  import opened Normaliser

  const STATUS_FX_DATA_GAP := "failed_fx_data_gap"
  const TRANSLATABLE_STATUSES := {"pending", "queued", "running", "completed"}

  datatype Facts = Facts(
    companyId: int,
    fiscalYear: int,
    fiscalPeriod: string,
    standard: string,
    canonicalField: string,
    statementType: string,
    isRestated: bool,
    valueReported: Option<real>,
    reportedCurrency: Option<string>)

  datatype Row = Row(facts: Facts, valueUsd: Option<real>, fxRateUsed: Option<real>)

  type Overrides = map<(int, string), Period>

  datatype Engine = Engine(table: RateTable, overrides: Overrides)

  datatype Kind = Translated | SkippedUsd | SkippedNull

  datatype Counts = Counts(translated: nat, skippedUsd: nat, skippedNull: nat)

  datatype Failure = Failure(currency: string, error: TranslateError)

  datatype Progress = Progress(rows: seq<Row>, counts: Counts, failure: Option<Failure>)

  datatype MissingDetails = MissingDetails(currency: string, target: Date, context: Context)

  datatype BatchResult = BatchResult(
    rowsTranslated: nat,
    rowsSkippedUsd: nat,
    rowsSkippedNull: nat,
    rowsFailed: nat,
    jobMarked: bool,
    missing: Option<MissingDetails>)

  // An exception other than the missing-rate one leaves the translator.
  datatype Outcome = Done(result: BatchResult) | Raised(error: TranslateError)

  datatype Job = Job(companyId: Option<int>, fiscalYear: Option<int>, status: string)

  const NOTHING := BatchResult(0, 0, 0, 0, false, None)

  function ResolvePeriodDates(overrides: Overrides, facts: Facts): Result<Period, PeriodError>
  {
    var key := (facts.fiscalYear, facts.fiscalPeriod);
    if key in overrides then Ok(overrides[key])
    else DerivePeriodDates(facts.fiscalYear, facts.fiscalPeriod, facts.standard)
  }

  function CurrencyOf(facts: Facts): string
  {
    match facts.reportedCurrency
    case None => "USD"
    case Some(code) => if code == "" then "USD" else Strip(Upper(code))
  }

  function TranslateRow(engine: Engine, row: Row): Result<(Row, Kind), TranslateError>
  {
    match row.facts.valueReported
    case None => Ok((row, SkippedNull))
    case Some(value) =>
      var currency := CurrencyOf(row.facts);
      if currency == "USD" then
        Ok((row.(valueUsd := Some(QuantiseMoney(value)), fxRateUsed := Some(QuantiseRate(1.0))), SkippedUsd))
      else
        match ResolvePeriodDates(engine.overrides, row.facts)
        case Err(e) => Err(BadPeriod(e))
        case Ok(period) =>
          match Translate(engine.table, value, currency, row.facts.statementType, Some(period.start), period.end)
          case Err(e) => Err(e)
          case Ok(t) =>
            Ok((row.(valueUsd := Some(QuantiseMoney(t.valueUsd)), fxRateUsed := Some(t.fxRateUsed)), Translated))
  }

  // The batch logic does not look inside the translation of a row, so it is stated for any.
  type RowTranslator = Row -> Result<(Row, Kind), TranslateError>

  function Translator(engine: Engine): RowTranslator
  {
    row => TranslateRow(engine, row)
  }

  /** A row without a reported value is skipped; any other row that does not raise keeps its
      facts and gets an amount and a rate. */
  ghost predicate FillsAmounts(translate: RowTranslator)
  {
    forall row :: match translate(row)
      case Err(_) => row.facts.valueReported.Some?
      case Ok((after, kind)) =>
        if row.facts.valueReported.None? then after == row && kind == SkippedNull
        else after.facts == row.facts && after.valueUsd.Some? && after.fxRateUsed.Some? && kind != SkippedNull
  }

  lemma EngineFillsAmounts(engine: Engine)
    ensures FillsAmounts(Translator(engine))
  {
  }

  function Count(counts: Counts, kind: Kind): Counts
  {
    match kind
    case Translated => counts.(translated := counts.translated + 1)
    case SkippedUsd => counts.(skippedUsd := counts.skippedUsd + 1)
    case SkippedNull => counts.(skippedNull := counts.skippedNull + 1)
  }

  /** The savepoint body: the rows in order, up to the first one that raises. */
  function Process(translate: RowTranslator, rows: seq<Row>): (p: Progress)
    ensures |p.rows| <= |rows| && (p.failure.None? ==> |p.rows| == |rows|)
    ensures p.failure.None? ==>
      p.counts.translated + p.counts.skippedUsd + p.counts.skippedNull == |rows|
  {
    if rows == [] then Progress([], Counts(0, 0, 0), None)
    else
      var p := Process(translate, rows[..|rows| - 1]);
      var row := rows[|rows| - 1];
      if p.failure.Some? then p
      else match translate(row)
        case Err(e) => p.(failure := Some(Failure(CurrencyOf(row.facts), e)))
        case Ok((after, kind)) => Progress(p.rows + [after], Count(p.counts, kind), None)
  }

  /** The rows after the batch: the savepoint keeps all of it or none of it. */
  function BatchRows(translate: RowTranslator, rows: seq<Row>): seq<Row>
  {
    var p := Process(translate, rows);
    if p.failure.None? then p.rows else rows
  }

  predicate IsGap(error: TranslateError)
  {
    error.Lookup? && error.failure.MissingRate?
  }

  function BatchOutcome(translate: RowTranslator, rows: seq<Row>, jobExists: bool): Outcome
  {
    var p := Process(translate, rows);
    match p.failure
    case None => Done(BatchResult(p.counts.translated, p.counts.skippedUsd, p.counts.skippedNull, 0, false, None))
    case Some(f) =>
      if IsGap(f.error) then
        var details := MissingDetails(f.currency, f.error.failure.target, f.error.failure.context);
        Done(BatchResult(0, p.counts.skippedUsd, p.counts.skippedNull, p.counts.translated + 1, jobExists, Some(details)))
      else Raised(f.error)
  }

  predicate Untranslated(row: Row, companyId: Option<int>, fiscalYear: Option<int>)
  {
    && Some(row.facts.companyId) == companyId
    && Some(row.facts.fiscalYear) == fiscalYear
    && !row.facts.isRestated
    && row.valueUsd == None
  }

  function Loaded(rows: seq<Row>, companyId: Option<int>, fiscalYear: Option<int>): seq<Row>
  {
    if rows == [] then []
    else
      var earlier := Loaded(rows[..|rows| - 1], companyId, fiscalYear);
      var row := rows[|rows| - 1];
      if Untranslated(row, companyId, fiscalYear) then earlier + [row] else earlier
  }

  function AfterRow(translate: RowTranslator, row: Row, job: Job): Row
  {
    if Untranslated(row, job.companyId, job.fiscalYear) && translate(row).Ok? then translate(row).value.0
    else row
  }

  /** A whole run for a job: the table, the job and the report afterwards. */
  function RunJob(translate: RowTranslator, rows: seq<Row>, job: Job): (seq<Row>, Job, Outcome)
  {
    if job.status !in TRANSLATABLE_STATUSES then (rows, job, Done(NOTHING))
    else
      var loaded := Loaded(rows, job.companyId, job.fiscalYear);
      var outcome := BatchOutcome(translate, loaded, true);
      match Process(translate, loaded).failure
      case None => (seq(|rows|, i requires 0 <= i < |rows| => AfterRow(translate, rows[i], job)), job, outcome)
      case Some(f) => (rows, if IsGap(f.error) then job.(status := STATUS_FX_DATA_GAP) else job, outcome)
  }

  // ---- the batch loop, row by row ----

  /** A batch that runs through has translated each of its rows on its own. */
  lemma {:induction false} EveryRowTranslated(translate: RowTranslator, rows: seq<Row>)
    requires Process(translate, rows).failure.None?
    ensures forall i :: 0 <= i < |rows| ==>
      translate(rows[i]).Ok? && Process(translate, rows).rows[i] == translate(rows[i]).value.0
  {
    if rows != [] {
      EveryRowTranslated(translate, rows[..|rows| - 1]);
      assert rows == rows[..|rows| - 1] + [rows[|rows| - 1]];
    }
  }

  /** Once a row has raised, later rows change nothing. */
  lemma {:induction false} FailureStops(translate: RowTranslator, rows: seq<Row>, n: nat)
    requires n <= |rows| && Process(translate, rows[..n]).failure.Some?
    ensures Process(translate, rows) == Process(translate, rows[..n])
  {
    if n < |rows| {
      assert rows[..|rows| - 1][..n] == rows[..n];
      FailureStops(translate, rows[..|rows| - 1], n);
    } else {
      assert rows[..n] == rows;
    }
  }

  lemma ProcessStep(translate: RowTranslator, rows: seq<Row>, n: nat)
    requires n < |rows| && Process(translate, rows[..n]).failure == None
    ensures var p, q := Process(translate, rows[..n]), Process(translate, rows[..n + 1]);
            match translate(rows[n])
            case Ok((after, kind)) => q == Progress(p.rows + [after], Count(p.counts, kind), None)
            case Err(e) => q == p.(failure := Some(Failure(CurrencyOf(rows[n].facts), e))) && Process(translate, rows) == q
  {
    assert rows[..n + 1][..n] == rows[..n];
    if translate(rows[n]).Err? {
      FailureStops(translate, rows, n + 1);
    }
  }

  /** The batch stops exactly at the first row that raises, having translated the rows before it. */
  lemma {:induction false} FirstFailure(translate: RowTranslator, rows: seq<Row>) returns (k: nat)
    requires Process(translate, rows).failure.Some?
    ensures k < |rows| && translate(rows[k]).Err?
    ensures forall i :: 0 <= i < k ==> translate(rows[i]).Ok?
    ensures Process(translate, rows).failure == Some(Failure(CurrencyOf(rows[k].facts), translate(rows[k]).error))
    ensures Process(translate, rows[..k]).failure == None && Process(translate, rows).counts == Process(translate, rows[..k]).counts
  {
    var front := rows[..|rows| - 1];
    if Process(translate, front).failure.Some? {
      k := FirstFailure(translate, front);
      assert front[..k] == rows[..k];
    } else {
      k := |rows| - 1;
      EveryRowTranslated(translate, front);
    }
  }

  /** A batch fails exactly when one of its rows does on its own. */
  lemma BatchFailsIffSomeRowFails(translate: RowTranslator, rows: seq<Row>)
    ensures Process(translate, rows).failure.Some? <==> exists i :: 0 <= i < |rows| && translate(rows[i]).Err?
  {
    if Process(translate, rows).failure.Some? {
      var _ := FirstFailure(translate, rows);
    } else {
      EveryRowTranslated(translate, rows);
    }
  }

  lemma {:induction false} LoadedRows(rows: seq<Row>, companyId: Option<int>, fiscalYear: Option<int>)
    ensures forall row :: row in Loaded(rows, companyId, fiscalYear) <==> row in rows && Untranslated(row, companyId, fiscalYear)
  {
    if rows != [] {
      LoadedRows(rows[..|rows| - 1], companyId, fiscalYear);
      assert rows == rows[..|rows| - 1] + [rows[|rows| - 1]];
    }
  }

  // ---- what a run means ----

  /** after is row with the dual-pass amount and rate: a dollar value rounded half-even at rate
      one, any other value as the translation engine gives it for the row's period. */
  predicate IsTranslationOf(engine: Engine, row: Row, after: Row)
    requires row.facts.valueReported.Some?
  {
    var value := row.facts.valueReported.value;
    var currency := CurrencyOf(row.facts);
    && after.facts == row.facts && after.valueUsd.Some? && after.fxRateUsed.Some?
    && (currency == "USD" ==> after.valueUsd == Some(QuantiseMoney(value)) && after.fxRateUsed == Some(1.0))
    && (currency != "USD" ==>
          && ResolvePeriodDates(engine.overrides, row.facts).Ok?
          && var period := ResolvePeriodDates(engine.overrides, row.facts).value;
             var t := Translate(engine.table, value, currency, row.facts.statementType, Some(period.start), period.end);
             t.Ok? && after.valueUsd == Some(t.value.valueUsd) && after.fxRateUsed == Some(t.value.fxRateUsed))
  }

  /** A translated row carries that amount and rate, already final: the second rounding at the
      database boundary changes nothing. */
  lemma RowGetsItsTranslation(engine: Engine, row: Row)
    requires row.facts.valueReported.Some? && TranslateRow(engine, row).Ok?
    ensures IsTranslationOf(engine, row, TranslateRow(engine, row).value.0)
  {
    QuantiseRateFacts(1.0);
    var currency := CurrencyOf(row.facts);
    if currency != "USD" {
      var period := ResolvePeriodDates(engine.overrides, row.facts).value;
      var value := row.facts.valueReported.value;
      var t := Translate(engine.table, value, currency, row.facts.statementType, Some(period.start), period.end).value;
      TranslatedAmountIsMoney(engine.table, value, currency, row.facts.statementType, Some(period.start), period.end);
      QuantiseMoneyFacts(t.valueUsd);
    }
  }

  /** The amount of a row before rounding. */
  function ExactRowAmount(engine: Engine, row: Row): real
    requires row.facts.valueReported.Some?
  {
    var value := row.facts.valueReported.value;
    match ResolvePeriodDates(engine.overrides, row.facts)
    case Ok(period) =>
      ExactAmount(engine.table, value, CurrencyOf(row.facts), row.facts.statementType, Some(period.start), period.end)
    case Err(_) => value
  }

  /** Rows are documented to hold the half-even amount. A row does exactly when it is in dollars
      or its exact amount is not a tie that half-even takes down. */
  lemma RowIsHalfEvenIff(engine: Engine, row: Row)
    requires row.facts.valueReported.Some? && TranslateRow(engine, row).Ok?
    ensures TranslateRow(engine, row).value.0.valueUsd == Some(QuantiseMoney(ExactRowAmount(engine, row)))
        <==> CurrencyOf(row.facts) == "USD" || !TiesToEven(ExactRowAmount(engine, row))
  {
    RowGetsItsTranslation(engine, row);
    if CurrencyOf(row.facts) == "USD" {
      assert IsDollar("USD");
      return;
    }
    var period := ResolvePeriodDates(engine.overrides, row.facts).value;
    HalfEvenKeptIff(engine.table, row.facts.valueReported.value, CurrencyOf(row.facts), row.facts.statementType,
                    Some(period.start), period.end);
  }

  /** It does not always: 0.20 of a currency at 8 to the dollar is two and a half cents, and
      becomes three. */
  lemma HalfEvenIsNotKept(facts: Facts)
    requires facts.statementType == "BS" && facts.reportedCurrency == Some("EUR") && facts.valueReported == Some(0.2)
    ensures var engine := Engine(map["EUR" := map[1 := 8.0]], map[(facts.fiscalYear, facts.fiscalPeriod) := Period(1, 1)]);
            var row := Row(facts, None, None);
            && TranslateRow(engine, row) == Ok((Row(facts, Some(0.03), Some(8.0)), Translated))
            && ExactRowAmount(engine, row) == 0.025 && QuantiseMoney(0.025) == 0.02
  {
    var table: RateTable := map["EUR" := map[1 := 8.0]];
    EuroIsClean();
    QuantiseRateFacts(8.0);
    assert RatesOf(table, "EUR") == map[1 := 8.0];
    assert InForceDate(map[1 := 8.0], 1, MAX_LOOKBACK) == Some(1);
    assert ProviderSpot(table, "EUR", 1) == Rate(8.0);
    assert Translate(table, 0.2, "EUR", "BS", Some(1), 1) == Ok(Translation(0.03, 8.0, SpotRate));
    QuantiseMoneyFacts(0.03);
  }

  lemma EuroIsClean()
    ensures Upper("EUR") == "EUR" && Strip("EUR") == "EUR" && Upper("BS") == "BS"
  {
  }

  lemma TranslatedAmountIsMoney(table: RateTable, value: real, currency: string, statementType: string,
                                start: Option<Date>, end: Date)
    ensures var t := Translate(table, value, currency, statementType, start, end);
            t.Ok? ==> IsMoney(t.value.valueUsd)
  {
    QuantiseMoneyFacts(value);
    var lookup := RateFor(table, currency, statementType, start, end);
    if lookup.Rate? && lookup.value != 0.0 {
      QuantiseMoneyFacts(value / lookup.value);
    }
  }

  /** Every untranslated row of the job's company and year translates. */
  predicate AllTranslate(translate: RowTranslator, rows: seq<Row>, job: Job)
  {
    forall row :: row in rows && Untranslated(row, job.companyId, job.fiscalYear) ==> translate(row).Ok?
  }

  lemma AllTranslateIff(translate: RowTranslator, rows: seq<Row>, job: Job)
    ensures AllTranslate(translate, rows, job) <==>
      Process(translate, Loaded(rows, job.companyId, job.fiscalYear)).failure.None?
  {
    var loaded := Loaded(rows, job.companyId, job.fiscalYear);
    LoadedRows(rows, job.companyId, job.fiscalYear);
    if Process(translate, loaded).failure.None? {
      EveryRowTranslated(translate, loaded);
    } else {
      var k := FirstFailure(translate, loaded);
      assert loaded[k] in loaded;
    }
  }

  /** All: when every loaded row translates, each of them is replaced by its own translation,
      every other row is untouched, and the counts add up to the loaded rows. */
  lemma RunKeepsAll(translate: RowTranslator, rows: seq<Row>, job: Job)
    requires job.status in TRANSLATABLE_STATUSES && AllTranslate(translate, rows, job)
    ensures var (after, jobAfter, outcome) := RunJob(translate, rows, job);
            && |after| == |rows|
            && (forall i :: 0 <= i < |rows| ==>
                  if Untranslated(rows[i], job.companyId, job.fiscalYear)
                  then translate(rows[i]).Ok? && after[i] == translate(rows[i]).value.0
                  else after[i] == rows[i])
            && jobAfter == job
            && outcome.Done? && outcome.result.rowsFailed == 0
            && outcome.result.rowsTranslated + outcome.result.rowsSkippedUsd + outcome.result.rowsSkippedNull
                 == |Loaded(rows, job.companyId, job.fiscalYear)|
  {
    AllTranslateIff(translate, rows, job);
    forall i | 0 <= i < |rows| && Untranslated(rows[i], job.companyId, job.fiscalYear) ensures translate(rows[i]).Ok? {
      assert rows[i] in rows;
    }
  }

  /** Nothing: when some loaded row raises, no row changes. If the first to raise has no rate,
      the job is marked and rows_failed is one more than the rows translated before it; any
      other error leaves the translator and the job as it was. */
  lemma RunKeepsNothing(translate: RowTranslator, rows: seq<Row>, job: Job) returns (k: nat)
    requires job.status in TRANSLATABLE_STATUSES && !AllTranslate(translate, rows, job)
    ensures var loaded := Loaded(rows, job.companyId, job.fiscalYear);
            var (after, jobAfter, outcome) := RunJob(translate, rows, job);
            && after == rows
            && FailsFirstAt(translate, loaded, k)
            && var error := translate(loaded[k]).error;
               if IsGap(error) then
                 && jobAfter == job.(status := STATUS_FX_DATA_GAP)
                 && outcome.Done? && outcome.result.jobMarked
                 && outcome.result.rowsTranslated == 0
                 && outcome.result.rowsFailed == Process(translate, loaded[..k]).counts.translated + 1
                 && outcome.result.missing == Some(MissingDetails(CurrencyOf(loaded[k].facts), error.failure.target, error.failure.context))
               else
                 jobAfter == job && outcome == Raised(error)
  {
    AllTranslateIff(translate, rows, job);
    k := FirstFailure(translate, Loaded(rows, job.companyId, job.fiscalYear));
  }

  predicate FailsFirstAt(translate: RowTranslator, rows: seq<Row>, k: nat)
  {
    k < |rows| && translate(rows[k]).Err? && forall i :: 0 <= i < k ==> translate(rows[i]).Ok?
  }

  lemma {:induction false} OnlyNullsSkipAll(translate: RowTranslator, rows: seq<Row>)
    requires forall i :: 0 <= i < |rows| ==> translate(rows[i]) == Ok((rows[i], SkippedNull))
    ensures Process(translate, rows) == Progress(rows, Counts(0, 0, |rows|), None)
  {
    if rows != [] {
      var front, last := rows[..|rows| - 1], rows[|rows| - 1];
      OnlyNullsSkipAll(translate, front);
      assert front + [last] == rows;
      assert translate(last) == Ok((last, SkippedNull));
    }
  }

  /** After a run that did not fail, a second run, whatever rates it sees, changes nothing: it
      only skips again the rows without a reported value. */
  lemma SecondRunChangesNothing(translate: RowTranslator, again: RowTranslator, rows: seq<Row>, job: Job)
    requires job.status in TRANSLATABLE_STATUSES
    requires FillsAmounts(translate) && FillsAmounts(again)
    requires Process(translate, Loaded(rows, job.companyId, job.fiscalYear)).failure.None?
    ensures var (after, jobAfter, _) := RunJob(translate, rows, job);
            var (after2, jobAfter2, outcome2) := RunJob(again, after, jobAfter);
            && after2 == after && jobAfter2 == job
            && outcome2 == Done(NOTHING.(rowsSkippedNull := |Loaded(after, job.companyId, job.fiscalYear)|))
  {
    var after := RunJob(translate, rows, job).0;
    AllTranslateIff(translate, rows, job);
    RunKeepsAll(translate, rows, job);
    var left := Loaded(after, job.companyId, job.fiscalYear);
    LoadedRows(after, job.companyId, job.fiscalYear);
    forall row | row in after && Untranslated(row, job.companyId, job.fiscalYear) ensures row.facts.valueReported == None {
      var i :| 0 <= i < |after| && after[i] == row;
      assert translate(rows[i]).Ok? ==> rows[i].facts.valueReported.None? || translate(rows[i]).value.0.valueUsd.Some?;
    }
    forall i | 0 <= i < |left| ensures again(left[i]) == Ok((left[i], SkippedNull)) {
      assert left[i] in left;
    }
    OnlyNullsSkipAll(again, left);
    var after2 := RunJob(again, after, job).0;
    assert forall i :: 0 <= i < |after| ==> after2[i] == after[i];
    assert after2 == after;
  }

  /** All or nothing for the engine itself: when every loaded row translates, each one with a
      reported value ends with its own translation and every other row as it was. */
  lemma EngineRunKeepsAll(engine: Engine, rows: seq<Row>, job: Job)
    requires job.status in TRANSLATABLE_STATUSES && AllTranslate(Translator(engine), rows, job)
    ensures var (after, jobAfter, outcome) := RunJob(Translator(engine), rows, job);
            && |after| == |rows| && jobAfter == job && outcome.Done? && outcome.result.rowsFailed == 0
            && forall i :: 0 <= i < |rows| ==>
                 if Untranslated(rows[i], job.companyId, job.fiscalYear) && rows[i].facts.valueReported.Some?
                 then IsTranslationOf(engine, rows[i], after[i])
                 else after[i] == rows[i]
  {
    RunKeepsAll(Translator(engine), rows, job);
    var after := RunJob(Translator(engine), rows, job).0;
    forall i | 0 <= i < |rows| && Untranslated(rows[i], job.companyId, job.fiscalYear)
      ensures if rows[i].facts.valueReported.Some? then IsTranslationOf(engine, rows[i], after[i]) else after[i] == rows[i]
    {
      assert Translator(engine)(rows[i]) == TranslateRow(engine, rows[i]);
      if rows[i].facts.valueReported.Some? {
        RowGetsItsTranslation(engine, rows[i]);
      }
    }
  }

  /** And then a second run of any engine, with other rates or periods, changes nothing. */
  lemma EngineSecondRunChangesNothing(engine: Engine, again: Engine, rows: seq<Row>, job: Job)
    requires job.status in TRANSLATABLE_STATUSES && AllTranslate(Translator(engine), rows, job)
    ensures var (after, jobAfter, _) := RunJob(Translator(engine), rows, job);
            var (after2, jobAfter2, outcome2) := RunJob(Translator(again), after, jobAfter);
            && after2 == after && jobAfter2 == job
            && outcome2 == Done(NOTHING.(rowsSkippedNull := |Loaded(after, job.companyId, job.fiscalYear)|))
  {
    AllTranslateIff(Translator(engine), rows, job);
    EngineFillsAmounts(engine);
    EngineFillsAmounts(again);
    SecondRunChangesNothing(Translator(engine), Translator(again), rows, job);
  }

  /** A job marked for a rate gap is not picked up again, even once the rates are there. */
  lemma GapIsNotRetried(translate: RowTranslator, again: RowTranslator, rows: seq<Row>, job: Job)
    requires var outcome := RunJob(translate, rows, job).2; outcome.Done? && outcome.result.jobMarked
    ensures var (after, jobAfter, _) := RunJob(translate, rows, job);
            after == rows && RunJob(again, after, jobAfter) == (after, jobAfter, Done(NOTHING))
  {
    var loaded := Loaded(rows, job.companyId, job.fiscalYear);
    assert STATUS_FX_DATA_GAP !in TRANSLATABLE_STATUSES;
  }

  // ---- which rows, which jobs, which counts ----

  /** Only a job with one of four statuses is worked on; any other is left alone. */
  lemma OnlyTheseStatuses(translate: RowTranslator, rows: seq<Row>, job: Job)
    ensures job.status in TRANSLATABLE_STATUSES <==>
      job.status == "pending" || job.status == "queued" || job.status == "running" || job.status == "completed"
    ensures job.status !in TRANSLATABLE_STATUSES ==>
      RunJob(translate, rows, job) == (rows, job, Done(BatchResult(0, 0, 0, 0, false, None)))
  {
  }

  /** A job works on exactly the current rows of its company and year that have no dollar
      amount yet; a job without a company or a year on none. */
  lemma LoadedIff(rows: seq<Row>, companyId: Option<int>, fiscalYear: Option<int>, row: Row)
    ensures row in Loaded(rows, companyId, fiscalYear) <==>
      && row in rows && companyId == Some(row.facts.companyId) && fiscalYear == Some(row.facts.fiscalYear)
      && row.valueUsd.None? && !row.facts.isRestated
  {
    LoadedRows(rows, companyId, fiscalYear);
  }

  /** A row without a currency, or with an empty one, is a dollar row. */
  lemma NoCurrencyIsDollars(engine: Engine, row: Row, value: real, k: int)
    requires row.facts.valueReported == Some(value)
    requires row.facts.reportedCurrency == None || row.facts.reportedCurrency == Some("") || row.facts.reportedCurrency == Some("USD")
    ensures TranslateRow(engine, row) == Ok((row.(valueUsd := Some(k as real / 100.0), fxRateUsed := Some(1.0)), SkippedUsd))
       <==> NearestEven(value * 100.0, k)
  {
    QuantiseRateFacts(1.0);
    QuantisedMoneyIs(value, k);
    assert Strip(Upper("USD")) == "USD" by {
      assert Upper("USD") == "USD";
    }
  }

  /** A row in another currency is translated over its overriding period, or else the one
      derived from its fiscal context, at the rate of its code in upper case without white
      space around it. Its amount is the nearest cents, away from zero on a tie. */
  lemma ForeignRowMeans(engine: Engine, row: Row, value: real, code: string, period: Period, rate: real, k: int)
    requires row.facts.valueReported == Some(value) && row.facts.reportedCurrency == Some(code) && code != ""
    requires Strip(Upper(code)) != "USD" && !IsDollar(Strip(Upper(code)))
    requires var key := (row.facts.fiscalYear, row.facts.fiscalPeriod);
             if key in engine.overrides then period == engine.overrides[key]
             else DerivePeriodDates(row.facts.fiscalYear, row.facts.fiscalPeriod, row.facts.standard) == Ok(period)
    requires TenPlaces(engine.table)
    requires var statement := Upper(row.facts.statementType);
             || (statement == "BS" && ProviderSpot(engine.table, Strip(Upper(code)), period.end) == Rate(rate))
             || ((statement == "IS" || statement == "CF")
                 && ProviderAverage(engine.table, Strip(Upper(code)), period.start, period.end) == Rate(rate))
    ensures rate > 0.0
    ensures TranslateRow(engine, row) == Ok((row.(valueUsd := Some(k as real / 100.0), fxRateUsed := Some(rate)), Translated))
       <==> NearestAway(value / rate * 100.0, k)
  {
    var currency := Strip(Upper(code));
    SpotIsPositive(engine.table, currency, period.end);
    AverageIsPositive(engine.table, currency, period.start, period.end);
    QuantiseRateFacts(rate);
    QuantisedMoneyHalfUpIs(value / rate, k);
    QuantiseMoneyFacts(value / rate);
    QuantiseMoneyFacts(QuantiseMoneyHalfUp(value / rate));
  }

  function HowMany(rows: seq<Row>, kind: Row -> bool): nat
  {
    if rows == [] then 0 else HowMany(rows[..|rows| - 1], kind) + if kind(rows[|rows| - 1]) then 1 else 0
  }

  predicate HasNoValue(row: Row)
  {
    row.facts.valueReported.None?
  }

  predicate InDollars(row: Row)
  {
    row.facts.valueReported.Some? && CurrencyOf(row.facts) == "USD"
  }

  predicate Foreign(row: Row)
  {
    row.facts.valueReported.Some? && CurrencyOf(row.facts) != "USD"
  }

  /** The counts of rows that all translate: the foreign ones, the dollar ones, and those
      without a value. */
  lemma {:induction false} CountsMean(engine: Engine, rows: seq<Row>)
    requires Process(Translator(engine), rows).failure.None?
    ensures Process(Translator(engine), rows).counts == Counts(HowMany(rows, Foreign), HowMany(rows, InDollars), HowMany(rows, HasNoValue))
  {
    if rows != [] {
      CountsMean(engine, rows[..|rows| - 1]);
    }
  }

  /** The report of a run in numbers: on success of all loaded rows, on a gap of the rows
      before the first that raises. */
  lemma ReportMeans(engine: Engine, rows: seq<Row>, job: Job) returns (k: nat)
    requires job.status in TRANSLATABLE_STATUSES
    ensures var loaded := Loaded(rows, job.companyId, job.fiscalYear);
            var outcome := RunJob(Translator(engine), rows, job).2;
            && k <= |loaded| && (k == |loaded| <==> AllTranslate(Translator(engine), rows, job))
            && (k < |loaded| ==> FailsFirstAt(Translator(engine), loaded, k))
            && (outcome.Done? ==>
                  && outcome.result.rowsSkippedUsd == HowMany(loaded[..k], InDollars)
                  && outcome.result.rowsSkippedNull == HowMany(loaded[..k], HasNoValue)
                  && outcome.result.rowsTranslated == (if k == |loaded| then HowMany(loaded, Foreign) else 0)
                  && outcome.result.rowsFailed == (if k == |loaded| then 0 else HowMany(loaded[..k], Foreign) + 1))
  {
    var translate, loaded := Translator(engine), Loaded(rows, job.companyId, job.fiscalYear);
    AllTranslateIff(translate, rows, job);
    if AllTranslate(translate, rows, job) {
      k := |loaded|;
      assert loaded[..k] == loaded;
    } else {
      k := FirstFailure(translate, loaded);
    }
    CountsMean(engine, loaded[..k]);
  }
}
