/** BulkCurrencyTranslator over rows it updates in place, inside a savepoint. Each method is
    proved to do to its objects what BulkSpec says about their values. */
module BulkTranslation {
  import opened Wrappers
  import opened Decimals
  import opened Normaliser
  import opened BulkSpec

  class LineItem {
    const facts: Facts
    var valueUsd: Option<real>
    var fxRateUsed: Option<real>

    constructor (facts: Facts)
      ensures this.facts == facts && valueUsd == None && fxRateUsed == None
    {
      this.facts := facts;
      valueUsd, fxRateUsed := None, None;
    }

    function View(): Row
      reads this
    {
      Row(facts, valueUsd, fxRateUsed)
    }
  }

  class FinancialJob {
    const companyId: Option<int>
    const fiscalYear: Option<int>
    var status: string

    constructor (companyId: Option<int>, fiscalYear: Option<int>, status: string)
      ensures View() == Job(companyId, fiscalYear, status)
    {
      this.companyId, this.fiscalYear, this.status := companyId, fiscalYear, status;
    }

    function View(): Job
      reads this
    {
      Job(companyId, fiscalYear, status)
    }
  }

  function Views(items: seq<LineItem>): (rows: seq<Row>)
    reads items
    ensures |rows| == |items| && forall i :: 0 <= i < |items| ==> rows[i] == items[i].View()
  {
    seq(|items|, i requires 0 <= i < |items| reads items => items[i].View())
  }

  predicate Distinct(items: seq<LineItem>)
  {
    forall i, j :: 0 <= i < j < |items| ==> items[i] != items[j]
  }

  /** What a run does to one row of the table, given the rows it loaded. */
  function RowAfter(translate: RowTranslator, loaded: seq<Row>, row: Row, job: Job): Row
  {
    if Process(translate, loaded).failure.None? then AfterRow(translate, row, job) else row
  }

  lemma RunRows(translate: RowTranslator, rows: seq<Row>, job: Job, after: seq<Row>)
    requires job.status in TRANSLATABLE_STATUSES && |after| == |rows|
    requires forall i :: 0 <= i < |rows| ==>
      after[i] == RowAfter(translate, Loaded(rows, job.companyId, job.fiscalYear), rows[i], job)
    ensures after == RunJob(translate, rows, job).0
  {
  }

  lemma BatchRowAt(translate: RowTranslator, loaded: seq<Row>, job: Job, k: nat)
    requires k < |loaded| && Untranslated(loaded[k], job.companyId, job.fiscalYear)
    ensures var after := BatchRows(translate, loaded);
            |after| == |loaded| && after[k] == RowAfter(translate, loaded, loaded[k], job)
  {
    if Process(translate, loaded).failure.None? {
      EveryRowTranslated(translate, loaded);
    }
  }

  /** before and loaded are what items and batch held when the run began, and the batch was
      exactly the untranslated rows among items. Then items end as the specified run says. */
  lemma RowsOfRun(translate: RowTranslator, items: seq<LineItem>, batch: seq<LineItem>, job: Job,
                  before: seq<Row>, loaded: seq<Row>)
    requires job.status in TRANSLATABLE_STATUSES && |before| == |items| && |loaded| == |batch|
    requires loaded == Loaded(before, job.companyId, job.fiscalYear)
    requires forall i, k :: 0 <= i < |items| && 0 <= k < |batch| && items[i] == batch[k] ==> before[i] == loaded[k]
    requires forall i :: 0 <= i < |items| ==> (items[i] in batch <==> Untranslated(before[i], job.companyId, job.fiscalYear))
    requires forall i :: 0 <= i < |items| && items[i] !in batch ==> items[i].View() == before[i]
    requires Views(batch) == BatchRows(translate, loaded)
    ensures Views(items) == RunJob(translate, before, job).0
  {
    forall i | 0 <= i < |items| ensures Views(items)[i] == RowAfter(translate, loaded, before[i], job) {
      if items[i] in batch {
        var k :| 0 <= k < |batch| && batch[k] == items[i];
        BatchRowAt(translate, loaded, job, k);
        assert Views(batch)[k] == Views(items)[i];
      }
    }
    RunRows(translate, before, job, Views(items));
  }

  class BulkCurrencyTranslator {
    const engine: Engine
    // The line items the session can load, in the order its query returns them.
    const items: seq<LineItem>

    constructor (engine: Engine, items: seq<LineItem>)
      ensures this.engine == engine && this.items == items
    {
      this.engine, this.items := engine, items;
    }

    method TranslateItem(item: LineItem) returns (kind: Result<Kind, TranslateError>)
      modifies item
      ensures match Translator(engine)(old(item.View()))
              case Ok((row, k)) => item.View() == row && kind == Ok(k)
              case Err(e) => item.View() == old(item.View()) && kind == Err(e)
    {
      if item.facts.valueReported == None {
        return Ok(SkippedNull);
      }
      var value := item.facts.valueReported.value;
      var currency := CurrencyOf(item.facts);
      if currency == "USD" {
        item.valueUsd := Some(QuantiseMoney(value));
        item.fxRateUsed := Some(QuantiseRate(1.0));
        return Ok(SkippedUsd);
      }
      var period := ResolvePeriodDates(engine.overrides, item.facts);
      if period.Err? {
        return Err(BadPeriod(period.error));
      }
      var t := Translate(engine.table, value, currency, item.facts.statementType, Some(period.value.start), period.value.end);
      if t.Err? {
        return Err(t.error);
      }
      item.valueUsd := Some(QuantiseMoney(t.value.valueUsd));
      item.fxRateUsed := Some(t.value.fxRateUsed);
      return Ok(Translated);
    }

    /** The savepoint body. On an error the rows before it are left changed, for the caller
        to roll back. */
    method TranslateItems(batch: seq<LineItem>) returns (counts: Counts, failure: Option<Failure>)
      requires Distinct(batch)
      modifies batch
      ensures var p := Process(Translator(engine), old(Views(batch)));
              p.counts == counts && p.failure == failure && (failure == None ==> Views(batch) == p.rows)
    {
      ghost var before, translate := Views(batch), Translator(engine);
      ghost var done: seq<Row> := [];
      counts := Counts(0, 0, 0);
      for i := 0 to |batch|
        invariant |done| == i && Process(translate, before[..i]) == Progress(done, counts, None)
        invariant forall j :: 0 <= j < i ==> batch[j].View() == done[j]
        invariant forall j :: i <= j < |batch| ==> batch[j].View() == before[j]
      {
        ProcessStep(translate, before, i);
        var kind := TranslateItem(batch[i]);
        if kind.Err? {
          failure := Some(Failure(CurrencyOf(batch[i].facts), kind.error));
          return;
        }
        counts := Count(counts, kind.value);
        done := done + [batch[i].View()];
      }
      assert before[..|batch|] == before;
      failure := None;
    }

    method Rollback(batch: seq<LineItem>, saved: seq<Row>)
      requires Distinct(batch) && |saved| == |batch|
      requires forall i :: 0 <= i < |batch| ==> saved[i].facts == batch[i].facts
      modifies batch
      ensures Views(batch) == saved
    {
      for i := 0 to |batch|
        invariant forall j :: 0 <= j < i ==> batch[j].View() == saved[j]
      {
        batch[i].valueUsd := saved[i].valueUsd;
        batch[i].fxRateUsed := saved[i].fxRateUsed;
      }
    }

    method TranslateBatch(batch: seq<LineItem>, job: FinancialJob?) returns (outcome: Outcome)
      requires Distinct(batch)
      modifies batch, job
      ensures var translate := Translator(engine);
              && Views(batch) == BatchRows(translate, old(Views(batch)))
              && outcome == BatchOutcome(translate, old(Views(batch)), job != null)
      ensures job != null ==>
                job.status == if outcome.Done? && outcome.result.jobMarked then STATUS_FX_DATA_GAP else old(job.status)
    {
      if |batch| == 0 {
        return Done(NOTHING);
      }
      var saved := Views(batch);
      var counts, failure := TranslateItems(batch);
      if failure == None {
        return Done(BatchResult(counts.translated, counts.skippedUsd, counts.skippedNull, 0, false, None));
      }
      Rollback(batch, saved);
      var error := failure.value.error;
      if !IsGap(error) {
        return Raised(error);
      }
      if job != null {
        job.status := STATUS_FX_DATA_GAP;
      }
      var details := MissingDetails(failure.value.currency, error.failure.target, error.failure.context);
      return Done(BatchResult(0, counts.skippedUsd, counts.skippedNull, counts.translated + 1, job != null, Some(details)));
    }

    /** The query for a job's untranslated rows. */
    method Load(job: FinancialJob) returns (batch: seq<LineItem>)
      requires Distinct(items)
      ensures Distinct(batch)
      ensures Views(batch) == Loaded(Views(items), job.companyId, job.fiscalYear)
      ensures forall item :: item in batch <==> item in items && Untranslated(item.View(), job.companyId, job.fiscalYear)
    {
      batch := [];
      for i := 0 to |items|
        invariant Distinct(batch)
        invariant forall item :: item in batch <==> item in items[..i] && Untranslated(item.View(), job.companyId, job.fiscalYear)
        invariant Views(batch) == Loaded(Views(items)[..i], job.companyId, job.fiscalYear)
      {
        assert Views(items)[..i + 1][..i] == Views(items)[..i];
        if Untranslated(items[i].View(), job.companyId, job.fiscalYear) {
          batch := batch + [items[i]];
        }
      }
      assert Views(items)[..|items|] == Views(items);
      assert items[..|items|] == items;
    }

    method TranslateForJob(job: FinancialJob?) returns (outcome: Outcome)
      requires Distinct(items)
      modifies items, job
      ensures job == null ==> outcome == Done(NOTHING) && Views(items) == old(Views(items))
      ensures job != null ==>
                (Views(items), job.View(), outcome) == RunJob(Translator(engine), old(Views(items)), old(job.View()))
    {
      if job == null {
        return Done(NOTHING);
      }
      if job.status !in TRANSLATABLE_STATUSES {
        return Done(NOTHING);
      }
      ghost var before, jobBefore := Views(items), job.View();
      var batch := Load(job);
      ghost var loaded := Views(batch);
      outcome := TranslateBatch(batch, job);
      RowsOfRun(Translator(engine), items, batch, jobBefore, before, loaded);
    }
  }
}
