/** Exact decimals as reals, and the three roundings the services apply to them:
    half-even to 10 places (rates), half-even to 2 places (money at the database boundary),
    and half-up, that is half away from zero, to 2 places (the currency normaliser). */
module Decimals {
  // Smallest units of NUMERIC(38,10) and NUMERIC(26,2).
  const RATE_UNIT: real := 0.0000000001
  const MONEY_UNIT: real := 0.01

  /** The integer nearest to x; a tie goes to the even neighbour. */
  function RoundHalfEven(x: real): (n: int)
    ensures -0.5 <= x - n as real <= 0.5
    ensures x - n as real == 0.5 || x - n as real == -0.5 ==> n % 2 == 0
  {
    var below := x.Floor;
    var rest := x - below as real;
    if rest < 0.5 then below
    else if rest > 0.5 then below + 1
    else if below % 2 == 0 then below
    else below + 1
  }

  /** The integer nearest to x; a tie goes away from zero (Python's ROUND_HALF_UP). */
  function RoundHalfUp(x: real): (n: int)
    ensures -0.5 <= x - n as real <= 0.5
    ensures x - n as real == 0.5 ==> x < 0.0
    ensures x - n as real == -0.5 ==> x > 0.0
  {
    if x >= 0.0 then (x + 0.5).Floor else -((-x + 0.5).Floor)
  }

  function QuantiseRate(x: real): real
  {
    RoundHalfEven(x * 10000000000.0) as real / 10000000000.0
  }

  function QuantiseMoney(x: real): real
  {
    RoundHalfEven(x * 100.0) as real / 100.0
  }

  function QuantiseRateHalfUp(x: real): real
  {
    RoundHalfUp(x * 10000000000.0) as real / 10000000000.0
  }

  function QuantiseMoneyHalfUp(x: real): real
  {
    RoundHalfUp(x * 100.0) as real / 100.0
  }

  /** x has at most 10 decimal places. */
  predicate IsRate(x: real)
  {
    (x * 10000000000.0).Floor as real == x * 10000000000.0
  }

  /** x has at most 2 decimal places. */
  predicate IsMoney(x: real)
  {
    (x * 100.0).Floor as real == x * 100.0
  }

  /** n is the integer nearest to x, the even one when two are equally near. */
  predicate NearestEven(x: real, n: int)
  {
    && -0.5 <= x - n as real <= 0.5
    && (x - n as real == 0.5 || x - n as real == -0.5 ==> n % 2 == 0)
  }

  /** n is the integer nearest to x, the one further from zero when two are equally near. */
  predicate NearestAway(x: real, n: int)
  {
    && -0.5 <= x - n as real <= 0.5
    && (x - n as real == 0.5 ==> x < 0.0)
    && (x - n as real == -0.5 ==> x > 0.0)
  }

  /** The contract of RoundHalfEven has exactly one solution, so it defines the rounding. */
  lemma HalfEvenIsDetermined(x: real, n: int)
    requires -0.5 <= x - n as real <= 0.5
    requires x - n as real == 0.5 || x - n as real == -0.5 ==> n % 2 == 0
    ensures n == RoundHalfEven(x)
  {
    var m := RoundHalfEven(x);
    assert -1.0 <= (m - n) as real <= 1.0;
  }

  lemma HalfUpIsDetermined(x: real, n: int)
    requires -0.5 <= x - n as real <= 0.5
    requires x - n as real == 0.5 ==> x < 0.0
    requires x - n as real == -0.5 ==> x > 0.0
    ensures n == RoundHalfUp(x)
  {
    var m := RoundHalfUp(x);
    assert -1.0 <= (m - n) as real <= 1.0;
  }

  /** x lies exactly between two cents, and the one nearer zero is even: the values that
      half-even takes down and half-up takes up. */
  predicate TiesToEven(x: real)
  {
    var cents := if x < 0.0 then -x * 100.0 else x * 100.0;
    cents - cents.Floor as real == 0.5 && cents.Floor % 2 == 0
  }

  lemma RoundingsAgreeIff(x: real)
    requires x >= 0.0
    ensures RoundHalfUp(x) == RoundHalfEven(x) <==> !(x - x.Floor as real == 0.5 && x.Floor % 2 == 0)
  {
    var below := x.Floor;
    if x - below as real < 0.5 {
      HalfUpIsDetermined(x, below);
    } else {
      assert (x + 0.5).Floor == below + 1;
    }
  }

  /** Exactly when the two roundings of money agree. */
  lemma MoneyRoundingsAgreeIff(x: real)
    ensures QuantiseMoneyHalfUp(x) == QuantiseMoney(x) <==> !TiesToEven(x)
  {
    if x < 0.0 {
      RoundingsAgreeIff(-x * 100.0);
      assert -x * 100.0 == -(x * 100.0);
      RoundingIsOdd(x * 100.0);
    } else {
      RoundingsAgreeIff(x * 100.0);
    }
    SameCents(RoundHalfUp(x * 100.0), RoundHalfEven(x * 100.0));
  }

  lemma SameCents(m: int, n: int)
    ensures m as real / 100.0 == n as real / 100.0 <==> m == n
  {
  }

  lemma HalfEvenMonotone(x: real, y: real)
    requires x <= y
    ensures RoundHalfEven(x) <= RoundHalfEven(y)
  {
    var m, n := RoundHalfEven(x), RoundHalfEven(y);
    assert m as real - n as real <= x - y + 1.0;
  }

  lemma HalfEvenIsOdd(x: real)
    ensures RoundHalfEven(-x) == -RoundHalfEven(x)
  {
    HalfEvenIsDetermined(-x, -RoundHalfEven(x));
  }

  lemma HalfUpIsOdd(x: real)
    ensures RoundHalfUp(-x) == -RoundHalfUp(x)
  {
    HalfUpIsDetermined(-x, -RoundHalfUp(x));
  }

  /** Rounding commutes with sign, so translating an outflow and translating its magnitude
      give opposite amounts. */
  lemma RoundingIsOdd(x: real)
    ensures RoundHalfEven(-x) == -RoundHalfEven(x)
    ensures RoundHalfUp(-x) == -RoundHalfUp(x)
  {
    HalfEvenIsOdd(x);
    HalfUpIsOdd(x);
  }

  lemma QuantiseRateFacts(x: real)
    ensures IsRate(QuantiseRate(x))
    ensures -0.5 * RATE_UNIT <= QuantiseRate(x) - x <= 0.5 * RATE_UNIT
    ensures IsRate(x) ==> QuantiseRate(x) == x && QuantiseRateHalfUp(x) == x
  {
    WholeRateUnits(RoundHalfEven(x * 10000000000.0));
    if IsRate(x) {
      RoundingKeepsWhole((x * 10000000000.0).Floor);
    }
  }

  lemma QuantiseMoneyFacts(x: real)
    ensures IsMoney(QuantiseMoney(x)) && IsMoney(QuantiseMoneyHalfUp(x))
    ensures -0.5 * MONEY_UNIT <= QuantiseMoney(x) - x <= 0.5 * MONEY_UNIT
    ensures -0.5 * MONEY_UNIT <= QuantiseMoneyHalfUp(x) - x <= 0.5 * MONEY_UNIT
    ensures IsMoney(x) ==> QuantiseMoney(x) == x && QuantiseMoneyHalfUp(x) == x
  {
    WholeMoneyUnits(RoundHalfEven(x * 100.0));
    WholeMoneyUnits(RoundHalfUp(x * 100.0));
    if IsMoney(x) {
      RoundingKeepsWhole((x * 100.0).Floor);
    }
  }

  lemma WholeRateUnits(n: int)
    ensures IsRate(n as real / 10000000000.0)
  {
    assert n as real / 10000000000.0 * 10000000000.0 == n as real;
  }

  lemma WholeMoneyUnits(n: int)
    ensures IsMoney(n as real / 100.0)
  {
    assert n as real / 100.0 * 100.0 == n as real;
  }

  lemma RoundingKeepsWhole(n: int)
    ensures RoundHalfEven(n as real) == n && RoundHalfUp(n as real) == n
  {
    HalfEvenIsDetermined(n as real, n);
    HalfUpIsDetermined(n as real, n);
  }

  lemma QuantiseRateMonotone(x: real, y: real)
    requires x <= y
    ensures QuantiseRate(x) <= QuantiseRate(y)
  {
    HalfEvenMonotone(x * 10000000000.0, y * 10000000000.0);
  }

  // ---- which decimal comes out ----

  /** A quantised rate is the k-th multiple of the tenth place exactly for the nearest k, the
      even one on a tie. */
  lemma QuantisedRateIs(x: real, k: int)
    ensures QuantiseRate(x) == k as real / 10000000000.0 <==> NearestEven(x * 10000000000.0, k)
  {
    if NearestEven(x * 10000000000.0, k) {
      HalfEvenIsDetermined(x * 10000000000.0, k);
    }
  }

  /** Likewise for cents. */
  lemma QuantisedMoneyIs(x: real, k: int)
    ensures QuantiseMoney(x) == k as real / 100.0 <==> NearestEven(x * 100.0, k)
  {
    if NearestEven(x * 100.0, k) {
      HalfEvenIsDetermined(x * 100.0, k);
    }
  }

  /** And for cents with ties away from zero. */
  lemma QuantisedMoneyHalfUpIs(x: real, k: int)
    ensures QuantiseMoneyHalfUp(x) == k as real / 100.0 <==> NearestAway(x * 100.0, k)
  {
    if NearestAway(x * 100.0, k) {
      HalfUpIsDetermined(x * 100.0, k);
    }
  }
}
