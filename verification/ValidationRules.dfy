/** The six validation rules on a bag of figures, the engine's run over them, and the
    confidence score. */
module ValidationRules {
  import opened Wrappers

  datatype Severity = Critical | Warning | Info

  datatype Finding = Finding(ruleId: string, severity: Severity, expected: Option<real>, actual: Option<real>, delta: Option<real>)

  datatype Bag = Bag(
    revenue: Option<real>,
    cogs: Option<real>,
    grossProfit: Option<real>,
    operatingIncome: Option<real>,
    netIncome: Option<real>,
    totalAssets: Option<real>,
    totalLiabilities: Option<real>,
    totalEquity: Option<real>,
    openingCash: Option<real>,
    closingCash: Option<real>,
    retainedEarningsPrior: Option<real>,
    retainedEarningsCurrent: Option<real>,
    dividendsPaid: Option<real>,
    operatingCashFlow: Option<real>,
    investingCashFlow: Option<real>,
    financingCashFlow: Option<real>,
    netChangeInCash: Option<real>,
    cfNetIncomeStart: Option<real>)

  const ABSOLUTE_TOLERANCE: real := 1000.0
  const RELATIVE_TOLERANCE: real := 0.005

  function Abs(x: real): real
  {
    if x < 0.0 then -x else x
  }

  function Max(x: real, y: real): real
  {
    if x >= y then x else y
  }

  function WithinTolerance(expected: real, actual: real): (bool, real)
  {
    var delta := Abs(expected - actual);
    var relBound := RELATIVE_TOLERANCE * Max(Max(Abs(expected), Abs(actual)), 1.0);
    (delta <= Max(ABSOLUTE_TOLERANCE, relBound), delta)
  }

  /** Two figures differ by more than a thousand and by more than half a percent of the larger. */
  predicate Disagree(a: real, b: real)
  {
    Abs(a - b) > 1000.0 && Abs(a - b) > 0.005 * Max(Abs(a), Abs(b))
  }

  /** Two figures agree exactly when they are a thousand apart at most, or half a percent of
      the larger one; the order of the two does not matter. */
  lemma ToleranceMeans(expected: real, actual: real)
    ensures WithinTolerance(expected, actual).0 <==> !Disagree(expected, actual)
    ensures WithinTolerance(expected, actual) == WithinTolerance(actual, expected)
  {
  }

  type Rule = Bag -> seq<Finding>

  function Skipped(ruleId: string): seq<Finding>
  {
    [Finding(ruleId, Info, None, None, None)]
  }

  /** No finding when a and b agree; else one, reporting the expected and the actual figure. */
  function Compare(ruleId: string, severity: Severity, a: real, b: real, expected: real, actual: real): seq<Finding>
  {
    var (passes, delta) := WithinTolerance(a, b);
    if passes then [] else [Finding(ruleId, severity, Some(expected), Some(actual), Some(delta))]
  }

  function Val001(bag: Bag): seq<Finding>
  {
    match (bag.revenue, bag.cogs, bag.grossProfit)
    case (Some(revenue), Some(cogs), Some(gross)) =>
      Compare("VAL-001", Critical, revenue + cogs, gross, revenue + cogs, gross)
    case _ => Skipped("VAL-001")
  }

  function Val002(bag: Bag): seq<Finding>
  {
    match (bag.totalAssets, bag.totalLiabilities, bag.totalEquity)
    case (Some(assets), Some(liabilities), Some(equity)) =>
      Compare("VAL-002", Critical, assets, liabilities + equity, liabilities + equity, assets)
    case _ => Skipped("VAL-002")
  }

  function Val003(bag: Bag): seq<Finding>
  {
    match (bag.operatingCashFlow, bag.investingCashFlow, bag.financingCashFlow, bag.netChangeInCash)
    case (Some(ocf), Some(icf), Some(fcf), Some(change)) =>
      Compare("VAL-003", Critical, ocf + icf + fcf, change, ocf + icf + fcf, change)
    case _ => Skipped("VAL-003")
  }

  function Xst001(bag: Bag): seq<Finding>
  {
    match (bag.netIncome, bag.cfNetIncomeStart)
    case (Some(income), Some(opener)) => Compare("XST-001", Critical, income, opener, income, opener)
    case _ => Skipped("XST-001")
  }

  function Xst002(bag: Bag): seq<Finding>
  {
    match (bag.openingCash, bag.netChangeInCash, bag.closingCash)
    case (Some(opening), Some(change), Some(closing)) =>
      Compare("XST-002", Critical, opening + change, closing, opening + change, closing)
    case _ => Skipped("XST-002")
  }

  function Xst003(bag: Bag): seq<Finding>
  {
    match (bag.retainedEarningsPrior, bag.netIncome, bag.dividendsPaid, bag.retainedEarningsCurrent)
    case (Some(prior), Some(income), Some(dividends), Some(current)) =>
      Compare("XST-003", Warning, prior + income + dividends, current, prior + income + dividends, current)
    case _ => Skipped("XST-003")
  }

  /** A rule that reports one finding, of that severity. */
  predicate Reports(findings: seq<Finding>, severity: Severity)
  {
    |findings| == 1 && findings[0].severity == severity
  }

  /** Net sales less costs (held as a negative figure) are all there and miss gross profit. */
  predicate IncomeStatementOff(bag: Bag)
  {
    bag.revenue.Some? && bag.cogs.Some? && bag.grossProfit.Some?
    && Disagree(bag.revenue.value + bag.cogs.value, bag.grossProfit.value)
  }

  predicate BalanceSheetOff(bag: Bag)
  {
    bag.totalAssets.Some? && bag.totalLiabilities.Some? && bag.totalEquity.Some?
    && Disagree(bag.totalLiabilities.value + bag.totalEquity.value, bag.totalAssets.value)
  }

  predicate CashFlowOff(bag: Bag)
  {
    bag.operatingCashFlow.Some? && bag.investingCashFlow.Some? && bag.financingCashFlow.Some? && bag.netChangeInCash.Some?
    && Disagree(bag.operatingCashFlow.value + bag.investingCashFlow.value + bag.financingCashFlow.value, bag.netChangeInCash.value)
  }

  predicate NetIncomeOff(bag: Bag)
  {
    bag.netIncome.Some? && bag.cfNetIncomeStart.Some? && Disagree(bag.netIncome.value, bag.cfNetIncomeStart.value)
  }

  predicate CashBridgeOff(bag: Bag)
  {
    bag.openingCash.Some? && bag.netChangeInCash.Some? && bag.closingCash.Some?
    && Disagree(bag.openingCash.value + bag.netChangeInCash.value, bag.closingCash.value)
  }

  predicate RetainedEarningsOff(bag: Bag)
  {
    bag.retainedEarningsPrior.Some? && bag.netIncome.Some? && bag.dividendsPaid.Some? && bag.retainedEarningsCurrent.Some?
    && Disagree(bag.retainedEarningsPrior.value + bag.netIncome.value + bag.dividendsPaid.value, bag.retainedEarningsCurrent.value)
  }

  /** A finding that is not a skip carries two figures that disagree, and their distance. */
  predicate Explained(findings: seq<Finding>)
  {
    forall i :: 0 <= i < |findings| && findings[i].severity != Info ==>
      var f := findings[i];
      && f.expected.Some? && f.actual.Some?
      && Disagree(f.expected.value, f.actual.value)
      && f.delta == Some(Abs(f.expected.value - f.actual.value))
  }

  /** At most one finding, of that severity or a skip. */
  predicate OnlyReports(findings: seq<Finding>, severity: Severity)
  {
    |findings| <= 1 && forall i :: 0 <= i < |findings| ==> findings[i].severity == severity || findings[i].severity == Info
  }

  lemma CompareMeans(ruleId: string, severity: Severity, a: real, b: real, expected: real, actual: real)
    requires (a == expected && b == actual) || (a == actual && b == expected)
    requires severity != Info
    ensures var findings := Compare(ruleId, severity, a, b, expected, actual);
            if Disagree(expected, actual) then Reports(findings, severity) && Explained(findings) else findings == []
  {
    ToleranceMeans(a, b);
    ToleranceMeans(b, a);
  }

  /** VAL-001 is critical exactly when the income statement is off. */
  lemma Val001Means(bag: Bag)
    ensures Reports(Val001(bag), Critical) <==> IncomeStatementOff(bag)
    ensures Explained(Val001(bag)) && OnlyReports(Val001(bag), Critical)
  {
    if bag.revenue.Some? && bag.cogs.Some? && bag.grossProfit.Some? {
      var expected := bag.revenue.value + bag.cogs.value;
      CompareMeans("VAL-001", Critical, expected, bag.grossProfit.value, expected, bag.grossProfit.value);
    }
  }

  /** VAL-002 is critical exactly when the balance sheet is off. */
  lemma Val002Means(bag: Bag)
    ensures Reports(Val002(bag), Critical) <==> BalanceSheetOff(bag)
    ensures Explained(Val002(bag)) && OnlyReports(Val002(bag), Critical)
  {
    if bag.totalAssets.Some? && bag.totalLiabilities.Some? && bag.totalEquity.Some? {
      var expected := bag.totalLiabilities.value + bag.totalEquity.value;
      CompareMeans("VAL-002", Critical, bag.totalAssets.value, expected, expected, bag.totalAssets.value);
    }
  }

  /** VAL-003 is critical exactly when the cash flow is off. */
  lemma Val003Means(bag: Bag)
    ensures Reports(Val003(bag), Critical) <==> CashFlowOff(bag)
    ensures Explained(Val003(bag)) && OnlyReports(Val003(bag), Critical)
  {
    if bag.operatingCashFlow.Some? && bag.investingCashFlow.Some? && bag.financingCashFlow.Some? && bag.netChangeInCash.Some? {
      var expected := bag.operatingCashFlow.value + bag.investingCashFlow.value + bag.financingCashFlow.value;
      CompareMeans("VAL-003", Critical, expected, bag.netChangeInCash.value, expected, bag.netChangeInCash.value);
    }
  }

  /** XST-001 is critical exactly when the two net incomes disagree. */
  lemma Xst001Means(bag: Bag)
    ensures Reports(Xst001(bag), Critical) <==> NetIncomeOff(bag)
    ensures Explained(Xst001(bag)) && OnlyReports(Xst001(bag), Critical)
  {
    if bag.netIncome.Some? && bag.cfNetIncomeStart.Some? {
      CompareMeans("XST-001", Critical, bag.netIncome.value, bag.cfNetIncomeStart.value, bag.netIncome.value, bag.cfNetIncomeStart.value);
    }
  }

  /** XST-002 is critical exactly when the cash bridge is off. */
  lemma Xst002Means(bag: Bag)
    ensures Reports(Xst002(bag), Critical) <==> CashBridgeOff(bag)
    ensures Explained(Xst002(bag)) && OnlyReports(Xst002(bag), Critical)
  {
    if bag.openingCash.Some? && bag.netChangeInCash.Some? && bag.closingCash.Some? {
      var expected := bag.openingCash.value + bag.netChangeInCash.value;
      CompareMeans("XST-002", Critical, expected, bag.closingCash.value, expected, bag.closingCash.value);
    }
  }

  /** XST-003 only warns, exactly when the retained-earnings bridge is off. */
  lemma Xst003Means(bag: Bag)
    ensures Reports(Xst003(bag), Warning) <==> RetainedEarningsOff(bag)
    ensures Explained(Xst003(bag)) && OnlyReports(Xst003(bag), Warning)
  {
    if bag.retainedEarningsPrior.Some? && bag.netIncome.Some? && bag.dividendsPaid.Some? && bag.retainedEarningsCurrent.Some? {
      var expected := bag.retainedEarningsPrior.value + bag.netIncome.value + bag.dividendsPaid.value;
      CompareMeans("XST-003", Warning, expected, bag.retainedEarningsCurrent.value, expected, bag.retainedEarningsCurrent.value);
    }
  }

  function Rules(): seq<Rule>
  {
    [Val001, Val002, Val003, Xst001, Xst002, Xst003]
  }

  function Findings(rules: seq<Rule>, bag: Bag): seq<Finding>
  {
    if rules == [] then [] else Findings(rules[..|rules| - 1], bag) + rules[|rules| - 1](bag)
  }

  method Run(bag: Bag) returns (findings: seq<Finding>)
    ensures findings == Findings(Rules(), bag)
  {
    findings := [];
    var rules := Rules();
    for i := 0 to |rules|
      invariant findings == Findings(rules[..i], bag)
    {
      assert rules[..i + 1][..i] == rules[..i];
      findings := findings + rules[i](bag);
    }
    assert rules[..|rules|] == rules;
  }

  lemma FindingsInOrder(bag: Bag)
    ensures Findings(Rules(), bag) == Val001(bag) + Val002(bag) + Val003(bag) + Xst001(bag) + Xst002(bag) + Xst003(bag)
  {
    var r := Rules();
    assert r[..5][..4] == r[..4] && r[..4][..3] == r[..3] && r[..3][..2] == r[..2] && r[..2][..1] == r[..1];
    assert Findings(r[..1], bag) == Val001(bag);
    assert Findings(r[..2], bag) == Val001(bag) + Val002(bag);
    assert Findings(r[..3], bag) == Val001(bag) + Val002(bag) + Val003(bag);
    assert Findings(r[..4], bag) == Val001(bag) + Val002(bag) + Val003(bag) + Xst001(bag);
    assert Findings(r[..5], bag) == Val001(bag) + Val002(bag) + Val003(bag) + Xst001(bag) + Xst002(bag);
  }

  // ---- confidence ----

  const BASE_CONFIDENCE: int := 100
  const DEDUCTION_PER_CRITICAL: int := 25
  const DEDUCTION_PER_WARNING: int := 5

  datatype Confidence = Confidence(finalScore: int, deductions: seq<(string, int)>)

  function Count(findings: seq<Finding>, severity: Severity): nat
  {
    if findings == [] then 0
    else Count(findings[..|findings| - 1], severity) + if findings[|findings| - 1].severity == severity then 1 else 0
  }

  function Clamp(score: int): int
  {
    if score > 100 then 100 else if score < 0 then 0 else score
  }

  function Points(deductions: seq<(string, int)>): int
  {
    if deductions == [] then 0 else Points(deductions[..|deductions| - 1]) + deductions[|deductions| - 1].1
  }

  /** One entry for each critical finding and each warning, in their order. */
  function Deducted(findings: seq<Finding>): seq<(string, int)>
  {
    if findings == [] then []
    else
      var last := findings[|findings| - 1];
      Deducted(findings[..|findings| - 1])
      + if last.severity == Critical then [(last.ruleId, 25)] else if last.severity == Warning then [(last.ruleId, 5)] else []
  }

  /** The score, and a log of deductions that accounts for every point taken off. */
  method ComputeConfidence(findings: seq<Finding>) returns (c: Confidence)
    ensures c.finalScore == Clamp(100 - 25 * Count(findings, Critical) - 5 * Count(findings, Warning))
    ensures var points := 25 * Count(findings, Critical) + 5 * Count(findings, Warning);
            c.finalScore == if points > 100 then 0 else 100 - points
    ensures c.deductions == Deducted(findings)
    ensures |c.deductions| == Count(findings, Critical) + Count(findings, Warning)
    ensures c.finalScore == Clamp(100 - Points(c.deductions))
  {
    var deductions: seq<(string, int)> := [];
    var running := BASE_CONFIDENCE;
    for i := 0 to |findings|
      invariant running == 100 - 25 * Count(findings[..i], Critical) - 5 * Count(findings[..i], Warning)
      invariant deductions == Deducted(findings[..i])
      invariant |deductions| == Count(findings[..i], Critical) + Count(findings[..i], Warning)
      invariant running == 100 - Points(deductions)
    {
      assert findings[..i + 1][..i] == findings[..i];
      var points := if findings[i].severity == Critical then DEDUCTION_PER_CRITICAL
                    else if findings[i].severity == Warning then DEDUCTION_PER_WARNING else 0;
      if points > 0 {
        assert (deductions + [(findings[i].ruleId, points)])[..|deductions|] == deductions;
        deductions := deductions + [(findings[i].ruleId, points)];
        running := running - points;
      }
    }
    assert findings[..|findings|] == findings;
    c := Confidence(Clamp(running), deductions);
  }

  lemma {:induction false} CountOfConcat(a: seq<Finding>, b: seq<Finding>, severity: Severity)
    ensures Count(a + b, severity) == Count(a, severity) + Count(b, severity)
  {
    if b == [] {
      assert a + b == a;
    } else {
      assert (a + b)[..|a + b| - 1] == a + b[..|b| - 1];
      CountOfConcat(a, b[..|b| - 1], severity);
    }
  }

  lemma CountRules(bag: Bag, severity: Severity)
    ensures Count(Findings(Rules(), bag), severity)
         == Count(Val001(bag), severity) + Count(Val002(bag), severity) + Count(Val003(bag), severity)
          + Count(Xst001(bag), severity) + Count(Xst002(bag), severity) + Count(Xst003(bag), severity)
  {
    FindingsInOrder(bag);
    var a1 := Val001(bag) + Val002(bag);
    var a2 := a1 + Val003(bag);
    var a3 := a2 + Xst001(bag);
    var a4 := a3 + Xst002(bag);
    CountOfConcat(Val001(bag), Val002(bag), severity);
    CountOfConcat(a1, Val003(bag), severity);
    CountOfConcat(a2, Xst001(bag), severity);
    CountOfConcat(a3, Xst002(bag), severity);
    CountOfConcat(a4, Xst003(bag), severity);
  }

  function One(condition: bool): int
  {
    if condition then 1 else 0
  }

  lemma CountOfRule(findings: seq<Finding>, severity: Severity, other: Severity)
    requires OnlyReports(findings, severity) && other != Info
    ensures Count(findings, other) == if other == severity then One(Reports(findings, severity)) else 0
  {
    if findings != [] {
      assert findings[..0] == [];
    }
  }

  lemma ExplainedConcat(a: seq<Finding>, b: seq<Finding>)
    requires Explained(a) && Explained(b)
    ensures Explained(a + b)
  {
  }

  lemma RunIsExplained(bag: Bag)
    ensures Explained(Findings(Rules(), bag))
  {
    Val001Means(bag);
    Val002Means(bag);
    Val003Means(bag);
    Xst001Means(bag);
    Xst002Means(bag);
    Xst003Means(bag);
    FindingsInOrder(bag);
    ExplainedConcat(Val001(bag), Val002(bag));
    ExplainedConcat(Val001(bag) + Val002(bag), Val003(bag));
    ExplainedConcat(Val001(bag) + Val002(bag) + Val003(bag), Xst001(bag));
    ExplainedConcat(Val001(bag) + Val002(bag) + Val003(bag) + Xst001(bag), Xst002(bag));
    ExplainedConcat(Val001(bag) + Val002(bag) + Val003(bag) + Xst001(bag) + Xst002(bag), Xst003(bag));
  }

  lemma StatementCounts(bag: Bag, severity: Severity)
    requires severity != Info
    ensures Count(Val001(bag), severity) == One(severity == Critical && IncomeStatementOff(bag))
    ensures Count(Val002(bag), severity) == One(severity == Critical && BalanceSheetOff(bag))
    ensures Count(Val003(bag), severity) == One(severity == Critical && CashFlowOff(bag))
  {
    Val001Means(bag);
    Val002Means(bag);
    Val003Means(bag);
    CountOfRule(Val001(bag), Critical, severity);
    CountOfRule(Val002(bag), Critical, severity);
    CountOfRule(Val003(bag), Critical, severity);
  }

  lemma InterlockCounts(bag: Bag, severity: Severity)
    requires severity != Info
    ensures Count(Xst001(bag), severity) == One(severity == Critical && NetIncomeOff(bag))
    ensures Count(Xst002(bag), severity) == One(severity == Critical && CashBridgeOff(bag))
    ensures Count(Xst003(bag), severity) == One(severity == Warning && RetainedEarningsOff(bag))
  {
    Xst001Means(bag);
    Xst002Means(bag);
    Xst003Means(bag);
    CountOfRule(Xst001(bag), Critical, severity);
    CountOfRule(Xst002(bag), Critical, severity);
    CountOfRule(Xst003(bag), Warning, severity);
  }

  /** What a run of the engine says of any bag: one critical finding for each broken identity
      and interlock, one warning for a broken retained-earnings bridge, and with each of them
      two figures that disagree and their distance. */
  lemma RunMeans(bag: Bag)
    ensures var findings := Findings(Rules(), bag);
            && Count(findings, Critical) == One(IncomeStatementOff(bag)) + One(BalanceSheetOff(bag)) + One(CashFlowOff(bag))
                                            + One(NetIncomeOff(bag)) + One(CashBridgeOff(bag))
            && Count(findings, Warning) == One(RetainedEarningsOff(bag))
            && Explained(findings)
  {
    RunIsExplained(bag);
    CountRules(bag, Critical);
    CountRules(bag, Warning);
    StatementCounts(bag, Critical);
    StatementCounts(bag, Warning);
    InterlockCounts(bag, Critical);
    InterlockCounts(bag, Warning);
  }

  /** A rule's findings: a skip when a figure is missing, else one finding with both figures and
      their distance when they disagree, else none. */
  predicate RuleSays(findings: seq<Finding>, ruleId: string, severity: Severity, present: bool, expected: real, actual: real)
  {
    if !present then findings == [Finding(ruleId, Info, None, None, None)]
    else if Disagree(expected, actual) then
      findings == [Finding(ruleId, severity, Some(expected), Some(actual), Some(Abs(expected - actual)))]
    else findings == []
  }

  function Amount(figure: Option<real>): real
  {
    match figure
    case Some(v) => v
    case None => 0.0
  }

  lemma CompareSays(ruleId: string, severity: Severity, a: real, b: real, expected: real, actual: real)
    requires (a == expected && b == actual) || (a == actual && b == expected)
    ensures RuleSays(Compare(ruleId, severity, a, b, expected, actual), ruleId, severity, true, expected, actual)
  {
    ToleranceMeans(a, b);
  }

  lemma StatementRulesSay(bag: Bag)
    ensures RuleSays(Val001(bag), "VAL-001", Critical, bag.revenue.Some? && bag.cogs.Some? && bag.grossProfit.Some?,
                     Amount(bag.revenue) + Amount(bag.cogs), Amount(bag.grossProfit))
    ensures RuleSays(Val002(bag), "VAL-002", Critical, bag.totalAssets.Some? && bag.totalLiabilities.Some? && bag.totalEquity.Some?,
                     Amount(bag.totalLiabilities) + Amount(bag.totalEquity), Amount(bag.totalAssets))
    ensures RuleSays(Val003(bag), "VAL-003", Critical,
                     bag.operatingCashFlow.Some? && bag.investingCashFlow.Some? && bag.financingCashFlow.Some? && bag.netChangeInCash.Some?,
                     Amount(bag.operatingCashFlow) + Amount(bag.investingCashFlow) + Amount(bag.financingCashFlow), Amount(bag.netChangeInCash))
  {
    var e1 := Amount(bag.revenue) + Amount(bag.cogs);
    var e2 := Amount(bag.totalLiabilities) + Amount(bag.totalEquity);
    var e3 := Amount(bag.operatingCashFlow) + Amount(bag.investingCashFlow) + Amount(bag.financingCashFlow);
    CompareSays("VAL-001", Critical, e1, Amount(bag.grossProfit), e1, Amount(bag.grossProfit));
    CompareSays("VAL-002", Critical, Amount(bag.totalAssets), e2, e2, Amount(bag.totalAssets));
    CompareSays("VAL-003", Critical, e3, Amount(bag.netChangeInCash), e3, Amount(bag.netChangeInCash));
  }

  lemma InterlocksSay(bag: Bag)
    ensures RuleSays(Xst001(bag), "XST-001", Critical, bag.netIncome.Some? && bag.cfNetIncomeStart.Some?,
                     Amount(bag.netIncome), Amount(bag.cfNetIncomeStart))
    ensures RuleSays(Xst002(bag), "XST-002", Critical, bag.openingCash.Some? && bag.netChangeInCash.Some? && bag.closingCash.Some?,
                     Amount(bag.openingCash) + Amount(bag.netChangeInCash), Amount(bag.closingCash))
    ensures RuleSays(Xst003(bag), "XST-003", Warning,
                     bag.retainedEarningsPrior.Some? && bag.netIncome.Some? && bag.dividendsPaid.Some? && bag.retainedEarningsCurrent.Some?,
                     Amount(bag.retainedEarningsPrior) + Amount(bag.netIncome) + Amount(bag.dividendsPaid), Amount(bag.retainedEarningsCurrent))
  {
    var e2 := Amount(bag.openingCash) + Amount(bag.netChangeInCash);
    var e3 := Amount(bag.retainedEarningsPrior) + Amount(bag.netIncome) + Amount(bag.dividendsPaid);
    CompareSays("XST-001", Critical, Amount(bag.netIncome), Amount(bag.cfNetIncomeStart), Amount(bag.netIncome), Amount(bag.cfNetIncomeStart));
    CompareSays("XST-002", Critical, e2, Amount(bag.closingCash), e2, Amount(bag.closingCash));
    CompareSays("XST-003", Warning, e3, Amount(bag.retainedEarningsCurrent), e3, Amount(bag.retainedEarningsCurrent));
  }
}
