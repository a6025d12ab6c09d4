/** Gregorian dates as day ordinals (1 January of year 1 is day 1), and the fiscal periods
    the bulk translator derives from a fiscal year, a period label and a reporting standard. */
module Calendar {
  import opened Wrappers
  import opened Text

  type Date = int

  datatype Period = Period(start: Date, end: Date)

  datatype PeriodError = UnknownPeriod | YearOutOfRange

  predicate IsLeap(year: int)
  {
    year % 4 == 0 && (year % 100 != 0 || year % 400 == 0)
  }

  function DaysInYear(year: int): int
  {
    if IsLeap(year) then 366 else 365
  }

  function DaysInMonth(year: int, month: int): int
    requires 1 <= month <= 12
  {
    if month == 2 then (if IsLeap(year) then 29 else 28)
    else if month == 4 || month == 6 || month == 9 || month == 11 then 30
    else 31
  }

  function DaysBeforeYear(year: int): int
  {
    var y := year - 1;
    y * 365 + y / 4 - y / 100 + y / 400
  }

  function DaysBeforeMonth(year: int, month: int): int
    requires 1 <= month <= 12
    decreases month
  {
    if month == 1 then 0 else DaysBeforeMonth(year, month - 1) + DaysInMonth(year, month - 1)
  }

  predicate ValidDate(year: int, month: int, day: int)
  {
    1 <= month <= 12 && 1 <= day <= DaysInMonth(year, month)
  }

  function Ordinal(year: int, month: int, day: int): Date
    requires ValidDate(year, month, day)
  {
    DaysBeforeYear(year) + DaysBeforeMonth(year, month) + day
  }

  function NextDay(year: int, month: int, day: int): (next: (int, int, int))
    requires ValidDate(year, month, day)
    ensures ValidDate(next.0, next.1, next.2)
  {
    if day < DaysInMonth(year, month) then (year, month, day + 1)
    else if month < 12 then (year, month + 1, 1)
    else (year + 1, 1, 1)
  }

  lemma MultiplesOf4(year: int)
    ensures year / 4 == (year - 1) / 4 + (if year % 4 == 0 then 1 else 0)
  {
  }

  lemma MultiplesOf100(year: int)
    ensures year / 100 == (year - 1) / 100 + (if year % 100 == 0 then 1 else 0)
  {
  }

  lemma MultiplesOf400(year: int)
    ensures year / 400 == (year - 1) / 400 + (if year % 400 == 0 then 1 else 0)
  {
  }

  lemma LeapRules(year: int)
    ensures year % 400 == 0 ==> year % 100 == 0
    ensures year % 100 == 0 ==> year % 4 == 0
  {
  }

  lemma DaysBeforeNextYear(year: int)
    ensures DaysBeforeYear(year + 1) == DaysBeforeYear(year) + DaysInYear(year)
  {
    MultiplesOf4(year);
    MultiplesOf100(year);
    MultiplesOf400(year);
    LeapRules(year);
  }

  lemma MonthTable(year: int)
    ensures DaysBeforeMonth(year, 4) == 90 + DaysInYear(year) - 365
    ensures DaysBeforeMonth(year, 7) == 181 + DaysInYear(year) - 365
    ensures DaysBeforeMonth(year, 10) == 273 + DaysInYear(year) - 365
    ensures DaysBeforeMonth(year, 12) == 334 + DaysInYear(year) - 365
    ensures DaysBeforeMonth(year, 3) == 59 + DaysInYear(year) - 365
    ensures DaysBeforeMonth(year, 6) == 151 + DaysInYear(year) - 365
    ensures DaysBeforeMonth(year, 9) == 243 + DaysInYear(year) - 365
  {
    assert DaysBeforeMonth(year, 2) == 31;
    assert DaysBeforeMonth(year, 3) == 31 + DaysInMonth(year, 2);
    assert DaysBeforeMonth(year, 5) == DaysBeforeMonth(year, 4) + 30;
    assert DaysBeforeMonth(year, 6) == DaysBeforeMonth(year, 5) + 31;
    assert DaysBeforeMonth(year, 8) == DaysBeforeMonth(year, 7) + 31;
    assert DaysBeforeMonth(year, 9) == DaysBeforeMonth(year, 8) + 31;
    assert DaysBeforeMonth(year, 11) == DaysBeforeMonth(year, 10) + 31;
  }

  /** The ordinal formula agrees with the calendar: the day after any date, across month
      ends, leap days and year ends, has the next ordinal. */
  lemma OrdinalOfNextDay(year: int, month: int, day: int)
    requires ValidDate(year, month, day)
    ensures var next := NextDay(year, month, day);
            Ordinal(next.0, next.1, next.2) == Ordinal(year, month, day) + 1
  {
    if day == DaysInMonth(year, month) && month == 12 {
      DaysBeforeNextYear(year);
      MonthTable(year);
    }
  }

  /** Period dates from the fiscal context. The whole table of five periods is built before
      the label is looked up, so a year whose table holds a date outside years 1 to 9999
      fails for every label. */
  function DerivePeriodDates(fiscalYear: int, fiscalPeriod: string, standard: string): Result<Period, PeriodError>
  {
    var fp := Strip(Upper(fiscalPeriod));
    var y := fiscalYear;
    if Strip(Upper(standard)) == "IND_AS" then
      if y < 1 || y + 1 > 9999 then Err(YearOutOfRange)
      else if fp == "FY" then Ok(Period(Ordinal(y, 4, 1), Ordinal(y + 1, 3, 31)))
      else if fp == "Q1" then Ok(Period(Ordinal(y, 4, 1), Ordinal(y, 6, 30)))
      else if fp == "Q2" then Ok(Period(Ordinal(y, 7, 1), Ordinal(y, 9, 30)))
      else if fp == "Q3" then Ok(Period(Ordinal(y, 10, 1), Ordinal(y, 12, 31)))
      else if fp == "Q4" then Ok(Period(Ordinal(y + 1, 1, 1), Ordinal(y + 1, 3, 31)))
      else Err(UnknownPeriod)
    else
      if y < 1 || y > 9999 then Err(YearOutOfRange)
      else if fp == "FY" then Ok(Period(Ordinal(y, 1, 1), Ordinal(y, 12, 31)))
      else if fp == "Q1" then Ok(Period(Ordinal(y, 1, 1), Ordinal(y, 3, 31)))
      else if fp == "Q2" then Ok(Period(Ordinal(y, 4, 1), Ordinal(y, 6, 30)))
      else if fp == "Q3" then Ok(Period(Ordinal(y, 7, 1), Ordinal(y, 9, 30)))
      else if fp == "Q4" then Ok(Period(Ordinal(y, 10, 1), Ordinal(y, 12, 31)))
      else Err(UnknownPeriod)
  }

  function PeriodDays(p: Period): int
  {
    p.end - p.start + 1
  }

  /** q1 to q4 follow one another without gap or overlap and fill fy. */
  predicate Quarters(fy: Period, q1: Period, q2: Period, q3: Period, q4: Period)
  {
    && fy.start == q1.start <= q1.end
    && q1.end + 1 == q2.start <= q2.end
    && q2.end + 1 == q3.start <= q3.end
    && q3.end + 1 == q4.start <= q4.end
    && q4.end == fy.end
  }

  /** For every year and both calendars the four derived quarters partition the derived
      fiscal year, which is as long as the calendar year holding its February. */
  lemma QuartersPartitionYear(fiscalYear: int, standard: string)
    ensures var fy := DerivePeriodDates(fiscalYear, "FY", standard);
            var q1 := DerivePeriodDates(fiscalYear, "Q1", standard);
            var q2 := DerivePeriodDates(fiscalYear, "Q2", standard);
            var q3 := DerivePeriodDates(fiscalYear, "Q3", standard);
            var q4 := DerivePeriodDates(fiscalYear, "Q4", standard);
            var indian := Strip(Upper(standard)) == "IND_AS";
            if 1 <= fiscalYear <= (if indian then 9998 else 9999) then
              && fy.Ok? && q1.Ok? && q2.Ok? && q3.Ok? && q4.Ok?
              && Quarters(fy.value, q1.value, q2.value, q3.value, q4.value)
              && PeriodDays(fy.value) == DaysInYear(if indian then fiscalYear + 1 else fiscalYear)
            else
              fy == q1 == q2 == q3 == q4 == Err(YearOutOfRange)
  {
    LabelsAreClean();
    MonthTable(fiscalYear);
    MonthTable(fiscalYear + 1);
    DaysBeforeNextYear(fiscalYear);
    DaysBeforeNextYear(fiscalYear + 1);
  }

  /** Fiscal years follow one another: each derived year ends the day before the next begins. */
  lemma YearsFollow(fiscalYear: int, standard: string)
    ensures var year := DerivePeriodDates(fiscalYear, "FY", standard);
            var next := DerivePeriodDates(fiscalYear + 1, "FY", standard);
            year.Ok? && next.Ok? ==> year.value.end + 1 == next.value.start
  {
    LabelsAreClean();
    MonthTable(fiscalYear + 1);
    DaysBeforeNextYear(fiscalYear);
    MonthTable(fiscalYear);
  }

  // ---- which dates a period holds ----

  /** The ordinal by one formula, with the days before a month counted as in a year whose
      February has thirty days and then corrected. */
  lemma OrdinalIs(year: int, month: int, day: int)
    requires ValidDate(year, month, day)
    ensures var correction := if month <= 2 then 0 else if year % 4 == 0 && (year % 100 != 0 || year % 400 == 0) then -1 else -2;
            Ordinal(year, month, day)
              == 365 * (year - 1) + (year - 1) / 4 - (year - 1) / 100 + (year - 1) / 400
                 + (367 * month - 362) / 12 + correction + day
  {
    MonthTable(year);
    assert DaysBeforeMonth(year, 2) == 31;
    assert DaysBeforeMonth(year, 5) == DaysBeforeMonth(year, 4) + 30;
    assert DaysBeforeMonth(year, 8) == DaysBeforeMonth(year, 7) + 31;
    assert DaysBeforeMonth(year, 11) == DaysBeforeMonth(year, 10) + 31;
  }

  predicate Earlier(y: int, m: int, d: int, y2: int, m2: int, d2: int)
  {
    y < y2 || (y == y2 && (m < m2 || (m == m2 && d < d2)))
  }

  lemma {:induction false} YearsAscend(y: int, y2: int)
    requires y < y2
    ensures DaysBeforeYear(y) + DaysInYear(y) <= DaysBeforeYear(y2)
    decreases y2 - y
  {
    DaysBeforeNextYear(y);
    if y + 1 < y2 {
      YearsAscend(y + 1, y2);
    }
  }

  lemma {:induction false} MonthsAscend(year: int, m: int, m2: int)
    requires 1 <= m < m2 <= 12
    ensures DaysBeforeMonth(year, m) + DaysInMonth(year, m) <= DaysBeforeMonth(year, m2)
    decreases m2
  {
    if m < m2 - 1 {
      MonthsAscend(year, m, m2 - 1);
    }
  }

  lemma DayOfYearFits(year: int, month: int, day: int)
    requires ValidDate(year, month, day)
    ensures 0 < DaysBeforeMonth(year, month) + day <= DaysInYear(year)
  {
    MonthTable(year);
    if 1 < month {
      MonthsAscend(year, 1, month);
    }
    if month < 12 {
      MonthsAscend(year, month, 12);
    }
  }

  lemma LaterIsLarger(y: int, m: int, d: int, y2: int, m2: int, d2: int)
    requires ValidDate(y, m, d) && ValidDate(y2, m2, d2) && Earlier(y, m, d, y2, m2, d2)
    ensures Ordinal(y, m, d) < Ordinal(y2, m2, d2)
  {
    if y < y2 {
      YearsAscend(y, y2);
      DayOfYearFits(y, m, d);
      DayOfYearFits(y2, m2, d2);
    } else if m < m2 {
      MonthsAscend(y, m, m2);
    }
  }

  /** A date lies between two others exactly when its ordinal does. */
  lemma WithinIff(y: int, m: int, d: int, from: (int, int, int), to: (int, int, int))
    requires ValidDate(y, m, d) && ValidDate(from.0, from.1, from.2) && ValidDate(to.0, to.1, to.2)
    ensures Ordinal(from.0, from.1, from.2) <= Ordinal(y, m, d) <= Ordinal(to.0, to.1, to.2) <==>
      !Earlier(y, m, d, from.0, from.1, from.2) && !Earlier(to.0, to.1, to.2, y, m, d)
  {
    if Earlier(y, m, d, from.0, from.1, from.2) {
      LaterIsLarger(y, m, d, from.0, from.1, from.2);
    } else if (y, m, d) != from {
      LaterIsLarger(from.0, from.1, from.2, y, m, d);
    }
    if Earlier(to.0, to.1, to.2, y, m, d) {
      LaterIsLarger(to.0, to.1, to.2, y, m, d);
    } else if (y, m, d) != to {
      LaterIsLarger(y, m, d, to.0, to.1, to.2);
    }
  }

  /** Whether a month of a year belongs to a labelled period of a fiscal year. A calendar
      fiscal year begins in January and its quarter k holds months 3k - 2 to 3k; an Indian one
      begins in April, so its month n is month n + 3, or n - 9 of the next year. */
  predicate MonthInPeriod(fiscalYear: int, fp: string, indian: bool, year: int, month: int)
  {
    var n := 12 * (year - fiscalYear) + month - if indian then 3 else 0;
    match fp
    case "FY" => 1 <= n <= 12
    case "Q1" => 1 <= n <= 3
    case "Q2" => 4 <= n <= 6
    case "Q3" => 7 <= n <= 9
    case "Q4" => 10 <= n <= 12
    case _ => false
  }

  predicate Known(fp: string)
  {
    fp == "FY" || fp == "Q1" || fp == "Q2" || fp == "Q3" || fp == "Q4"
  }

  /** Exactly which calls give a period, whatever the case of the label and the white space
      around it. */
  lemma DerivedIff(fiscalYear: int, fiscalPeriod: string, standard: string)
    ensures var derived := DerivePeriodDates(fiscalYear, fiscalPeriod, standard);
            var lastYear := if Strip(Upper(standard)) == "IND_AS" then 9998 else 9999;
            && (derived == Err(YearOutOfRange) <==> !(1 <= fiscalYear <= lastYear))
            && (derived == Err(UnknownPeriod) <==> 1 <= fiscalYear <= lastYear && !Known(Strip(Upper(fiscalPeriod))))
  {
  }

  /** A date lies in a derived period exactly when its month belongs to the label. */
  lemma PeriodHolds(fiscalYear: int, fiscalPeriod: string, standard: string, y: int, m: int, d: int)
    requires ValidDate(y, m, d) && DerivePeriodDates(fiscalYear, fiscalPeriod, standard).Ok?
    ensures var period := DerivePeriodDates(fiscalYear, fiscalPeriod, standard).value;
            period.start <= Ordinal(y, m, d) <= period.end <==>
              MonthInPeriod(fiscalYear, Strip(Upper(fiscalPeriod)), Strip(Upper(standard)) == "IND_AS", y, m)
  {
    var fp, f := Strip(Upper(fiscalPeriod)), fiscalYear;
    if Strip(Upper(standard)) == "IND_AS" {
      match fp {
        case "FY" => WithinIff(y, m, d, (f, 4, 1), (f + 1, 3, 31));
        case "Q1" => WithinIff(y, m, d, (f, 4, 1), (f, 6, 30));
        case "Q2" => WithinIff(y, m, d, (f, 7, 1), (f, 9, 30));
        case "Q3" => WithinIff(y, m, d, (f, 10, 1), (f, 12, 31));
        case _ => WithinIff(y, m, d, (f + 1, 1, 1), (f + 1, 3, 31));
      }
    } else {
      match fp {
        case "FY" => WithinIff(y, m, d, (f, 1, 1), (f, 12, 31));
        case "Q1" => WithinIff(y, m, d, (f, 1, 1), (f, 3, 31));
        case "Q2" => WithinIff(y, m, d, (f, 4, 1), (f, 6, 30));
        case "Q3" => WithinIff(y, m, d, (f, 7, 1), (f, 9, 30));
        case _ => WithinIff(y, m, d, (f, 10, 1), (f, 12, 31));
      }
    }
  }

  lemma LabelsAreClean()
    ensures Strip(Upper("FY")) == "FY" && Strip(Upper("Q1")) == "Q1" && Strip(Upper("Q2")) == "Q2"
    ensures Strip(Upper("Q3")) == "Q3" && Strip(Upper("Q4")) == "Q4"
  {
    assert Upper("FY") == "FY" && Upper("Q1") == "Q1" && Upper("Q2") == "Q2";
    assert Upper("Q3") == "Q3" && Upper("Q4") == "Q4";
  }
}
