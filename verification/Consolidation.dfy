/** The rounding variance between a parent's consolidated assets and its subsidiaries'. */
module Consolidation {
  import opened Wrappers
  import opened Text
  import opened Arithmetic
  import opened Decimals
  import opened Calendar
  import opened FxRates
  import opened Normaliser

  /** An entity's profile, as far as it matters here: its total assets in USD, if any. */
  datatype Entity = Entity(companyId: string, totalAssets: Option<real>)

  datatype Delta = Delta(
    consolidatedAssets: real,
    subsidiaryAssets: real,
    variance: real,
    isMaterial: bool,
    detail: map<string, real>)

  function Assets(e: Entity): real
  {
    match e.totalAssets
    case Some(usd) => usd
    case None => 0.0
  }

  function TotalAssets(entities: seq<Entity>): real
  {
    if entities == [] then 0.0 else TotalAssets(entities[..|entities| - 1]) + Assets(entities[|entities| - 1])
  }

  /** The per-subsidiary breakdown; a repeated company keeps its last figure. */
  function Detail(entities: seq<Entity>): map<string, real>
  {
    if entities == [] then map[]
    else
      var last := entities[|entities| - 1];
      Detail(entities[..|entities| - 1])[last.companyId := Assets(last)]
  }

  function Abs(x: real): (r: real)
    ensures r >= 0.0 && (r == x || r == -x)
  {
    if x < 0.0 then -x else x
  }

  /** The breakdown names exactly the subsidiaries. */
  lemma {:induction false} DetailNames(entities: seq<Entity>, id: string)
    ensures id in Detail(entities) <==> exists i :: 0 <= i < |entities| && entities[i].companyId == id
  {
    if entities != [] {
      var n := |entities| - 1;
      DetailNames(entities[..n], id);
      if i :| 0 <= i < n && entities[i].companyId == id {
        assert entities[..n][i].companyId == id;
      }
    }
  }

  /** It gives each its own figure, zero if it has none; of a repeated company the last one. */
  lemma {:induction false} DetailGives(entities: seq<Entity>, i: nat)
    requires i < |entities| && forall j :: i < j < |entities| ==> entities[j].companyId != entities[i].companyId
    ensures var id := entities[i].companyId;
            id in Detail(entities) && Detail(entities)[id] == if entities[i].totalAssets.Some? then entities[i].totalAssets.value else 0.0
  {
    var n := |entities| - 1;
    if i < n {
      DetailGives(entities[..n], i);
    }
  }

  method ComputeConsolidationDelta(parent: Entity, subsidiaries: seq<Entity>, threshold: real) returns (delta: Delta)
    ensures delta.consolidatedAssets == QuantiseMoney(Assets(parent))
    ensures delta.subsidiaryAssets == QuantiseMoney(TotalAssets(subsidiaries))
    ensures delta.variance == QuantiseMoney(Assets(parent) - TotalAssets(subsidiaries))
    ensures delta.isMaterial <==> delta.variance > threshold || -delta.variance > threshold
    ensures delta.detail == Detail(subsidiaries)
  {
    var detail: map<string, real> := map[];
    var runningSum := 0.0;
    for k := 0 to |subsidiaries|
      invariant runningSum == TotalAssets(subsidiaries[..k]) && detail == Detail(subsidiaries[..k])
    {
      assert subsidiaries[..k + 1][..k] == subsidiaries[..k];
      var assets := Assets(subsidiaries[k]);
      detail := detail[subsidiaries[k].companyId := assets];
      runningSum := runningSum + assets;
    }
    assert subsidiaries[..|subsidiaries|] == subsidiaries;
    var variance := QuantiseMoney(Assets(parent) - runningSum);
    delta := Delta(QuantiseMoney(Assets(parent)), QuantiseMoney(runningSum), variance, Abs(variance) > threshold, detail);
  }

  /** The amount the database holds for a translated item and the profile then shows: both
      round it again, to no effect. */
  function Shown(t: Translation): real
  {
    QuantiseMoney(QuantiseMoney(t.valueUsd))
  }

  /** The rate all entities of the group are translated at. */
  function GroupRate(table: RateTable, currency: string, statementType: string, start: Option<Date>, end: Date): real
  {
    var lookup := RateFor(table, currency, statementType, start, end);
    if Upper(currency) == "USD" || !lookup.Rate? then 1.0 else lookup.value
  }

  /** usd has two places and is within half a cent of exact. */
  predicate Rounded(usd: real, exact: real)
  {
    IsMoney(usd) && -0.5 * MONEY_UNIT <= usd - exact <= 0.5 * MONEY_UNIT
  }

  function Converted(values: seq<real>, rate: real): seq<real>
    requires rate != 0.0
  {
    seq(|values|, i requires 0 <= i < |values| => values[i] / rate)
  }

  lemma {:induction false} SumOfConverted(values: seq<real>, rate: real)
    requires rate != 0.0
    ensures Sum(Converted(values, rate)) == Sum(values) / rate
  {
    if values != [] {
      var n := |values| - 1;
      SumOfConverted(values[..n], rate);
      assert Converted(values, rate)[..n] == Converted(values[..n], rate);
      QuotientOfSum(Sum(values[..n]), values[n], rate);
    }
  }

  lemma ShownIsRounded(table: RateTable, value: real, currency: string, statementType: string, start: Option<Date>, end: Date)
    requires Translate(table, value, currency, statementType, start, end).Ok?
    ensures var rate := GroupRate(table, currency, statementType, start, end);
            rate != 0.0 && Rounded(Shown(Translate(table, value, currency, statementType, start, end).value), value / rate)
  {
    var usd := Translate(table, value, currency, statementType, start, end).value.valueUsd;
    var rate := GroupRate(table, currency, statementType, start, end);
    QuantiseMoneyFacts(value / rate);
    assert usd == QuantiseMoneyHalfUp(value / rate);
    QuantiseMoneyFacts(usd);
  }

  lemma {:induction false} TotalIsNear(entities: seq<Entity>, exact: seq<real>)
    requires |entities| == |exact|
    requires forall i :: 0 <= i < |entities| ==> Rounded(Assets(entities[i]), exact[i])
    ensures IsMoney(TotalAssets(entities))
    ensures -Times(0.5 * MONEY_UNIT, |entities|) <= TotalAssets(entities) - Sum(exact) <= Times(0.5 * MONEY_UNIT, |entities|)
  {
    if entities != [] {
      var n := |entities| - 1;
      TotalIsNear(entities[..n], exact[..n]);
      assert Rounded(Assets(entities[n]), exact[n]);
      MoneyAdds(TotalAssets(entities[..n]), Assets(entities[n]));
    }
  }

  lemma MoneyAdds(x: real, y: real)
    requires IsMoney(x) && IsMoney(y)
    ensures IsMoney(x + y) && IsMoney(x - y)
  {
    var m, n := (x * 100.0).Floor, (y * 100.0).Floor;
    WholeFloor((x + y) * 100.0, m + n);
    WholeFloor((x - y) * 100.0, m - n);
  }

  lemma WholeFloor(x: real, n: int)
    requires x == n as real
    ensures x.Floor as real == x
  {
  }

  /** A difference between amounts that is the same once rounded, is at most half a cent for
      each of n amounts, and is not flagged when that bound is within the threshold. */
  predicate RoundingOnly(difference: real, n: nat, threshold: real)
  {
    var variance, bound := QuantiseMoney(difference), Times(0.5 * MONEY_UNIT, n);
    && variance == difference
    && Abs(variance) <= bound
    && (bound <= threshold ==> !(Abs(variance) > threshold))
  }

  /** The variance of a group whose shown amounts are its exact amounts rounded. */
  lemma VarianceOfRounded(parentAssets: real, subsidiaries: seq<Entity>, exact: seq<real>, threshold: real)
    requires |subsidiaries| == |exact| && Rounded(parentAssets, Sum(exact))
    requires forall i :: 0 <= i < |subsidiaries| ==> Rounded(Assets(subsidiaries[i]), exact[i])
    ensures RoundingOnly(parentAssets - TotalAssets(subsidiaries), |subsidiaries| + 1, threshold)
  {
    TotalIsNear(subsidiaries, exact);
    MoneyAdds(parentAssets, TotalAssets(subsidiaries));
    QuantiseMoneyFacts(parentAssets - TotalAssets(subsidiaries));
  }

  /** What a translated and shown total asset figure of an entity is. */
  predicate ShowsReported(e: Entity, value: real, table: RateTable, currency: string, statementType: string,
                          start: Option<Date>, end: Date)
  {
    var t := Translate(table, value, currency, statementType, start, end);
    t.Ok? && e.totalAssets == Some(Shown(t.value))
  }

  lemma EntityIsRounded(e: Entity, value: real, table: RateTable, currency: string, statementType: string,
                        start: Option<Date>, end: Date)
    requires ShowsReported(e, value, table, currency, statementType, start, end)
    ensures var rate := GroupRate(table, currency, statementType, start, end);
            rate != 0.0 && Rounded(Assets(e), value / rate)
  {
    ShownIsRounded(table, value, currency, statementType, start, end);
  }

  /** When the parent reports exactly the sum of its n subsidiaries and all are translated at
      one rate, the variance is the plain difference of the shown amounts (rounding it again
      changes nothing) and is at most half a cent for each of the n + 1 amounts. It is then
      never flagged, as long as that bound stays within the threshold. */
  lemma VarianceIsRoundingOnly(table: RateTable, currency: string, statementType: string, start: Option<Date>, end: Date,
                               parent: Entity, parentReported: real, subsidiaries: seq<Entity>, reported: seq<real>, threshold: real)
    requires |subsidiaries| == |reported| && parentReported == Sum(reported)
    requires ShowsReported(parent, parentReported, table, currency, statementType, start, end)
    requires forall i :: 0 <= i < |subsidiaries| ==>
      ShowsReported(subsidiaries[i], reported[i], table, currency, statementType, start, end)
    ensures RoundingOnly(Assets(parent) - TotalAssets(subsidiaries), |subsidiaries| + 1, threshold)
  {
    var rate := GroupRate(table, currency, statementType, start, end);
    EntityIsRounded(parent, parentReported, table, currency, statementType, start, end);
    SumOfConverted(reported, rate);
    forall i | 0 <= i < |subsidiaries| ensures Rounded(Assets(subsidiaries[i]), Converted(reported, rate)[i]) {
      EntityIsRounded(subsidiaries[i], reported[i], table, currency, statementType, start, end);
    }
    VarianceOfRounded(Assets(parent), subsidiaries, Converted(reported, rate), threshold);
  }
}
