/** From parsed line items to a validation report: which item stands for each field, the bag
    built from them, and what the score of the whole pipeline can be. */
module Validation {
  import opened Wrappers
  import opened Calendar
  import opened ValidationRules

  datatype ParsedItem = ParsedItem(field: string, fiscalPeriod: string, filingDate: Date, value: Option<real>)

  const BAG_FIELDS := {
    "revenue", "cogs", "gross_profit", "operating_income", "net_income",
    "total_assets", "total_liabilities", "total_equity", "retained_earnings", "dividends_paid",
    "operating_cash_flow", "investing_cash_flow", "financing_cash_flow", "net_change_in_cash",
    "cash_and_equivalents"}

  predicate IsAnnual(item: ParsedItem)
  {
    item.fiscalPeriod == "FY"
  }

  /** Annual beats quarterly; within the same kind the later filing beats the earlier. */
  predicate Beats(a: ParsedItem, b: ParsedItem)
  {
    (IsAnnual(a) && !IsAnnual(b)) || (IsAnnual(a) == IsAnnual(b) && a.filingDate > b.filingDate)
  }

  function Keep(best: map<string, ParsedItem>, item: ParsedItem): map<string, ParsedItem>
  {
    if item.field !in BAG_FIELDS then best
    else if item.field !in best || Beats(item, best[item.field]) then best[item.field := item]
    else best
  }

  function Best(items: seq<ParsedItem>): map<string, ParsedItem>
  {
    if items == [] then map[] else Keep(Best(items[..|items| - 1]), items[|items| - 1])
  }

  function ValueOf(best: map<string, ParsedItem>, field: string): Option<real>
  {
    if field in best then best[field].value else None
  }

  function BagOf(best: map<string, ParsedItem>): Bag
  {
    Bag(revenue := ValueOf(best, "revenue"),
        cogs := ValueOf(best, "cogs"),
        grossProfit := ValueOf(best, "gross_profit"),
        operatingIncome := ValueOf(best, "operating_income"),
        netIncome := ValueOf(best, "net_income"),
        totalAssets := ValueOf(best, "total_assets"),
        totalLiabilities := ValueOf(best, "total_liabilities"),
        totalEquity := ValueOf(best, "total_equity"),
        openingCash := None,
        closingCash := ValueOf(best, "cash_and_equivalents"),
        retainedEarningsPrior := None,
        retainedEarningsCurrent := ValueOf(best, "retained_earnings"),
        dividendsPaid := ValueOf(best, "dividends_paid"),
        operatingCashFlow := ValueOf(best, "operating_cash_flow"),
        investingCashFlow := ValueOf(best, "investing_cash_flow"),
        financingCashFlow := ValueOf(best, "financing_cash_flow"),
        netChangeInCash := ValueOf(best, "net_change_in_cash"),
        // The cash-flow opener is seeded from the income statement.
        cfNetIncomeStart := ValueOf(best, "net_income"))
  }

  method AggregateLineItemsToBag(items: seq<ParsedItem>) returns (bag: Bag)
    ensures bag == BagOf(Best(items))
  {
    var best: map<string, ParsedItem> := map[];
    for i := 0 to |items|
      invariant best == Best(items[..i])
    {
      assert items[..i + 1][..i] == items[..i];
      var item := items[i];
      if item.field in BAG_FIELDS {
        if item.field !in best {
          best := best[item.field := item];
        } else {
          var existing := best[item.field];
          if IsAnnual(item) && !IsAnnual(existing) {
            best := best[item.field := item];
          } else if IsAnnual(item) == IsAnnual(existing) && item.filingDate > existing.filingDate {
            best := best[item.field := item];
          }
        }
      }
    }
    assert items[..|items|] == items;
    bag := BagOf(best);
  }

  datatype Report = Report(findings: seq<Finding>, confidence: Confidence, itemsValidated: nat, isExportable: bool)

  /** What the report says about a list of findings. */
  predicate Reports(r: Report, findings: seq<Finding>, items: nat)
  {
    && r.findings == findings && r.itemsValidated == items
    && r.confidence.finalScore == Clamp(100 - 25 * Count(findings, Critical) - 5 * Count(findings, Warning))
    && (r.isExportable <==> Count(findings, Critical) == 0)
  }

  /** The statement identities that are off among the figures of a bag. */
  function Broken(bag: Bag): int
  {
    One(IncomeStatementOff(bag)) + One(BalanceSheetOff(bag)) + One(CashFlowOff(bag))
  }

  lemma PipelineScores(items: seq<ParsedItem>, findings: seq<Finding>, score: int)
    requires findings == Findings(Rules(), BagOf(Best(items)))
    requires score == Clamp(100 - 25 * Count(findings, Critical) - 5 * Count(findings, Warning))
    ensures score == 100 - 25 * Broken(BagOf(Best(items)))
    ensures Count(findings, Critical) == Broken(BagOf(Best(items)))
  {
    PipelineFindings(items);
  }

  method ValidateParsedItems(items: seq<ParsedItem>) returns (report: Report)
    ensures Reports(report, Findings(Rules(), BagOf(Best(items))), |items|)
    ensures report.confidence.finalScore == 100 - 25 * Broken(BagOf(Best(items)))
    ensures 25 <= report.confidence.finalScore
    ensures report.isExportable <==> report.confidence.finalScore == 100
  {
    var bag := AggregateLineItemsToBag(items);
    var findings := Run(bag);
    var confidence := ComputeConfidence(findings);
    var blocked := exists i :: 0 <= i < |findings| && findings[i].severity == Critical;
    BlockedIffCritical(findings);
    PipelineScores(items, findings, confidence.finalScore);
    report := Report(findings, confidence, |items|, !blocked);
  }

  lemma {:induction false} BlockedIffCritical(findings: seq<Finding>)
    ensures (exists i :: 0 <= i < |findings| && findings[i].severity == Critical) <==> Count(findings, Critical) > 0
  {
    if findings != [] {
      var front := findings[..|findings| - 1];
      BlockedIffCritical(front);
      assert forall i :: 0 <= i < |front| ==> front[i] == findings[i];
      if Count(front, Critical) > 0 {
        var i :| 0 <= i < |front| && front[i].severity == Critical;
        assert findings[i].severity == Critical;
      }
    }
  }

  lemma SeededBagFindings(bag: Bag)
    requires bag.cfNetIncomeStart == bag.netIncome && bag.openingCash == None && bag.retainedEarningsPrior == None
    ensures Xst001(bag) == (if bag.netIncome.Some? then [] else Skipped("XST-001"))
    ensures Xst002(bag) == Skipped("XST-002") && Xst003(bag) == Skipped("XST-003")
    ensures Count(Findings(Rules(), bag), Warning) == 0
    ensures Count(Findings(Rules(), bag), Critical) == One(IncomeStatementOff(bag)) + One(BalanceSheetOff(bag)) + One(CashFlowOff(bag))
  {
    RunMeans(bag);
  }

  /** Aggregation decides the cross-statement rules: the income interlock compares a figure
      with itself and cannot fail, and the two bridges always lack their opening figure. So a
      pipeline run has no warnings, and as criticals exactly the statement identities that are
      off. */
  lemma PipelineFindings(items: seq<ParsedItem>)
    ensures var bag := BagOf(Best(items));
            && Xst001(bag) == (if bag.netIncome.Some? then [] else Skipped("XST-001"))
            && Xst002(bag) == Skipped("XST-002") && Xst003(bag) == Skipped("XST-003")
            && Count(Findings(Rules(), bag), Warning) == 0
            && Count(Findings(Rules(), bag), Critical) == One(IncomeStatementOff(bag)) + One(BalanceSheetOff(bag)) + One(CashFlowOff(bag))
  {
    SeededBagFindings(BagOf(Best(items)));
  }

  // ---- which item is kept ----

  /** Item i stands for its field: every other item of the field is beaten by it, or ties with
      it and comes later. */
  predicate Selected(items: seq<ParsedItem>, i: nat)
  {
    && i < |items| && items[i].field in BAG_FIELDS
    && forall j :: 0 <= j < |items| && j != i && items[j].field == items[i].field ==>
         Beats(items[i], items[j]) || (!Beats(items[j], items[i]) && i < j)
  }

  /** The loop keeps, for each field, the one selected item: annual before quarterly, then the
      latest filing, then the first occurrence. */
  lemma {:induction false} BestIsSelected(items: seq<ParsedItem>, field: string)
    ensures field in Best(items) <==> field in BAG_FIELDS && exists i :: 0 <= i < |items| && items[i].field == field
    ensures field in Best(items) ==> exists i: nat :: Selected(items, i) && items[i].field == field && Best(items)[field] == items[i]
  {
    if items != [] {
      var n := |items| - 1;
      var front := items[..n];
      BestIsSelected(front, field);
      assert forall i :: 0 <= i < n ==> front[i] == items[i];
      if field in Best(front) {
        var i: nat :| Selected(front, i) && front[i].field == field && Best(front)[field] == front[i];
        if items[n].field == field && Beats(items[n], items[i]) {
          SelectedIsLast(items, i);
        } else {
          assert Selected(items, i);
        }
      } else if field in Best(items) {
        assert Selected(items, n);
      }
    }
  }

  lemma SelectedIsLast(items: seq<ParsedItem>, i: nat)
    requires items != [] && Selected(items[..|items| - 1], i)
    requires items[|items| - 1].field == items[i].field && Beats(items[|items| - 1], items[i])
    ensures Selected(items, |items| - 1)
  {
    var n := |items| - 1;
    forall j | 0 <= j < n && items[j].field == items[n].field ensures Beats(items[n], items[j]) {
      assert items[..n][j] == items[j] && items[..n][i] == items[i];
      assert j != i ==> Beats(items[i], items[j]) || !Beats(items[j], items[i]);
    }
  }

  /** No two items share field, annual-or-not and filing date. */
  predicate NoTies(items: seq<ParsedItem>)
  {
    forall i, j :: 0 <= i < j < |items| && items[i].field == items[j].field ==>
      IsAnnual(items[i]) != IsAnnual(items[j]) || items[i].filingDate != items[j].filingDate
  }

  /** The figure of a field is the value of the item selected for it, if there is one. */
  ghost predicate Figure(items: seq<ParsedItem>, field: string, figure: Option<real>)
  {
    if forall i :: 0 <= i < |items| ==> items[i].field != field then figure == None
    else exists i: nat :: Selected(items, i) && items[i].field == field && figure == items[i].value
  }

  /** Which figure each entry of the bag is. The cash-flow opener is the net income of the
      income statement, and the two opening figures are never there. */
  ghost predicate Bagged(items: seq<ParsedItem>, bag: Bag)
  {
    && Figure(items, "revenue", bag.revenue)
    && Figure(items, "cogs", bag.cogs)
    && Figure(items, "gross_profit", bag.grossProfit)
    && Figure(items, "operating_income", bag.operatingIncome)
    && Figure(items, "net_income", bag.netIncome)
    && Figure(items, "net_income", bag.cfNetIncomeStart)
    && Figure(items, "total_assets", bag.totalAssets)
    && Figure(items, "total_liabilities", bag.totalLiabilities)
    && Figure(items, "total_equity", bag.totalEquity)
    && Figure(items, "retained_earnings", bag.retainedEarningsCurrent)
    && Figure(items, "dividends_paid", bag.dividendsPaid)
    && Figure(items, "operating_cash_flow", bag.operatingCashFlow)
    && Figure(items, "investing_cash_flow", bag.investingCashFlow)
    && Figure(items, "financing_cash_flow", bag.financingCashFlow)
    && Figure(items, "net_change_in_cash", bag.netChangeInCash)
    && Figure(items, "cash_and_equivalents", bag.closingCash)
    && bag.openingCash == None && bag.retainedEarningsPrior == None
  }

  lemma ValueIsFigure(items: seq<ParsedItem>, field: string)
    requires field in BAG_FIELDS
    ensures Figure(items, field, ValueOf(Best(items), field))
  {
    BestIsSelected(items, field);
  }

  /** The bag built from any items, hence the one whose findings and score are reported. */
  lemma BagIsBagged(items: seq<ParsedItem>)
    ensures Bagged(items, BagOf(Best(items)))
  {
    ValueIsFigure(items, "revenue");
    ValueIsFigure(items, "cogs");
    ValueIsFigure(items, "gross_profit");
    ValueIsFigure(items, "operating_income");
    ValueIsFigure(items, "net_income");
    ValueIsFigure(items, "total_assets");
    ValueIsFigure(items, "total_liabilities");
    ValueIsFigure(items, "total_equity");
    ValueIsFigure(items, "retained_earnings");
    ValueIsFigure(items, "dividends_paid");
    ValueIsFigure(items, "operating_cash_flow");
    ValueIsFigure(items, "investing_cash_flow");
    ValueIsFigure(items, "financing_cash_flow");
    ValueIsFigure(items, "net_change_in_cash");
    ValueIsFigure(items, "cash_and_equivalents");
  }

  /** A field has one selected item, so the figures determine the bag. */
  lemma FigureIsUnique(items: seq<ParsedItem>, field: string, a: Option<real>, b: Option<real>)
    requires Figure(items, field, a) && Figure(items, field, b)
    ensures a == b
  {
    if exists i :: 0 <= i < |items| && items[i].field == field {
      var i: nat :| Selected(items, i) && items[i].field == field && a == items[i].value;
      var j: nat :| Selected(items, j) && items[j].field == field && b == items[j].value;
    }
  }

  /** Item i is selected exactly when it is annual if any item of its field is, and among those
      of its kind the latest filed, the first of them on a tie. */
  lemma SelectedIff(items: seq<ParsedItem>, i: nat)
    requires i < |items|
    ensures Selected(items, i) <==>
      && items[i].field in BAG_FIELDS
      && forall j :: 0 <= j < |items| && items[j].field == items[i].field ==>
           && (items[j].fiscalPeriod == "FY" ==> items[i].fiscalPeriod == "FY")
           && ((items[j].fiscalPeriod == "FY" <==> items[i].fiscalPeriod == "FY") ==>
                 items[j].filingDate < items[i].filingDate || (items[j].filingDate == items[i].filingDate && i <= j))
  {
  }

  lemma SelectedIsNotBeaten(items: seq<ParsedItem>, i: nat, item: ParsedItem)
    requires Selected(items, i) && item in items && item.field == items[i].field
    ensures !Beats(item, items[i])
  {
    var k :| 0 <= k < |items| && items[k] == item;
  }

  lemma NoTiesMeansSame(items: seq<ParsedItem>, a: ParsedItem, b: ParsedItem)
    requires NoTies(items) && a in items && b in items && a.field == b.field
    requires !Beats(a, b) && !Beats(b, a)
    ensures a == b
  {
    var i :| 0 <= i < |items| && items[i] == a;
    var j :| 0 <= j < |items| && items[j] == b;
  }

  /** Without ties the order of the items does not matter: any reordering keeps the same items,
      and so gives the same bag, findings and score. */
  lemma OrderDoesNotMatter(items: seq<ParsedItem>, others: seq<ParsedItem>)
    requires NoTies(items) && multiset(items) == multiset(others)
    ensures Best(items) == Best(others)
  {
    SameMembers(items, others);
    forall field ensures field in Best(items) <==> field in Best(others) {
      BestIsSelected(items, field);
      BestIsSelected(others, field);
      SameFields(items, others, field);
    }
    forall field | field in Best(items) ensures Best(items)[field] == Best(others)[field] {
      BestIsSelected(items, field);
      BestIsSelected(others, field);
      var i: nat :| Selected(items, i) && items[i].field == field && Best(items)[field] == items[i];
      var j: nat :| Selected(others, j) && others[j].field == field && Best(others)[field] == others[j];
      SelectedIsNotBeaten(items, i, others[j]);
      SelectedIsNotBeaten(others, j, items[i]);
      NoTiesMeansSame(items, items[i], others[j]);
    }
  }

  lemma SameMembers(items: seq<ParsedItem>, others: seq<ParsedItem>)
    requires multiset(items) == multiset(others)
    ensures forall item :: item in items <==> item in others
  {
    forall item ensures item in items <==> item in others {
      assert item in items <==> item in multiset(items);
      assert item in others <==> item in multiset(others);
    }
  }

  lemma SameFields(items: seq<ParsedItem>, others: seq<ParsedItem>, field: string)
    requires forall item :: item in items <==> item in others
    ensures (exists i :: 0 <= i < |items| && items[i].field == field) <==> (exists i :: 0 <= i < |others| && others[i].field == field)
  {
    if i :| 0 <= i < |items| && items[i].field == field {
      assert items[i] in others;
    }
    if i :| 0 <= i < |others| && others[i].field == field {
      assert others[i] in items;
    }
  }
}
