/**
 * Calendar months, as the schedules use them: a date is a month counted
 * from January of year 0, from which its year and its zero-based month
 * (January is 0, as `Date.prototype.getMonth` numbers them) follow.  The day
 * of the month is not modelled; see README.
 */
module Calendar {

  type MonthIndex = m: int | 0 <= m < 12

  /** A calendar month, as the number of months since January of year 0. */
  datatype YearMonth = FromMonthNumber(monthNumber: int)

  function Year(d: YearMonth): int {
    d.monthNumber / 12
  }

  function Month(d: YearMonth): MonthIndex {
    d.monthNumber % 12
  }

  /** `new Date(year, month)`, for a month within the year. */
  function MakeYearMonth(year: int, month: MonthIndex): (d: YearMonth)
    ensures Year(d) == year && Month(d) == month
  {
    FromMonthNumber(year * 12 + month)
  }

  /** A month is fixed by its year and its month within the year. */
  lemma YearAndMonthDetermine(d: YearMonth, e: YearMonth)
    requires Year(d) == Year(e) && Month(d) == Month(e)
    ensures d == e
  {
  }

  /**
   * `addMonths`: the month `months` months after `d` (before it, for a
   * negative count).
   */
  function AddMonths(d: YearMonth, months: int): YearMonth {
    FromMonthNumber(d.monthNumber + months)
  }

  /**
   * Adding months carries into the year as `Date.prototype.setMonth` does:
   * the month wraps round modulo 12 and every whole twelve months moves the
   * year on by one (back by one, below January).
   */
  lemma AddMonthsCarries(d: YearMonth, months: int)
    ensures Month(AddMonths(d, months)) == (Month(d) + months) % 12
    ensures Year(AddMonths(d, months)) == Year(d) + (Month(d) + months) / 12
  {
    var n := d.monthNumber;
    var y := Year(d);
    var m := Month(d);
    assert n == y * 12 + m;
    var q := (m + months) / 12;
    var r := (m + months) % 12;
    assert m + months == q * 12 + r;
    assert n + months == (y + q) * 12 + r;
    DivModUnique(n + months, y + q, r);
  }

  /** The quotient and remainder by 12 are the only ones with a remainder in range. */
  lemma DivModUnique(x: int, q: int, r: int)
    requires 0 <= r < 12 && x == q * 12 + r
    ensures x / 12 == q && x % 12 == r
  {
  }

  /** The Gregorian leap-year rule. */
  predicate IsLeapYear(year: int) {
    year % 4 == 0 && (year % 100 != 0 || year % 400 == 0)
  }

  /**
   * The number of days in the calendar month `d`, which is what
   * `new Date(y, m + 1, 0).getDate()` yields: the last day of month `m`.
   */
  function DaysInMonth(d: YearMonth): (n: nat)
    ensures 28 <= n <= 31
    ensures n == 29 <==> Month(d) == 1 && IsLeapYear(Year(d))
    ensures n == 28 <==> Month(d) == 1 && !IsLeapYear(Year(d))
    ensures n == 30 <==> Month(d) in {3, 5, 8, 10}
  {
    if Month(d) == 1 then (if IsLeapYear(Year(d)) then 29 else 28)
    else if Month(d) in {3, 5, 8, 10} then 30
    else 31
  }

  /** The total number of days in the `count` months that start with `d`. */
  function DaysInMonths(d: YearMonth, count: nat): nat
    decreases count
  {
    if count == 0 then 0 else DaysInMonth(d) + DaysInMonths(AddMonths(d, 1), count - 1)
  }

  lemma NextMonthInYear(year: int, month: MonthIndex)
    requires month < 11
    ensures AddMonths(MakeYearMonth(year, month), 1) == MakeYearMonth(year, month + 1)
  {
  }

  /** The twelve months of a calendar year hold 366 days in a leap year, 365 otherwise. */
  lemma {:induction false} DaysInCalendarYear(year: int)
    ensures DaysInMonths(MakeYearMonth(year, 0), 12) == if IsLeapYear(year) then 366 else 365
  {
    var february := if IsLeapYear(year) then 29 else 28;
    assert DaysInMonths(MakeYearMonth(year, 11), 1) == 31;
    NextMonthInYear(year, 10);
    assert DaysInMonths(MakeYearMonth(year, 10), 2) == 61;
    NextMonthInYear(year, 9);
    assert DaysInMonths(MakeYearMonth(year, 9), 3) == 92;
    NextMonthInYear(year, 8);
    assert DaysInMonths(MakeYearMonth(year, 8), 4) == 122;
    NextMonthInYear(year, 7);
    assert DaysInMonths(MakeYearMonth(year, 7), 5) == 153;
    NextMonthInYear(year, 6);
    assert DaysInMonths(MakeYearMonth(year, 6), 6) == 184;
    NextMonthInYear(year, 5);
    assert DaysInMonths(MakeYearMonth(year, 5), 7) == 214;
    NextMonthInYear(year, 4);
    assert DaysInMonths(MakeYearMonth(year, 4), 8) == 245;
    NextMonthInYear(year, 3);
    assert DaysInMonths(MakeYearMonth(year, 3), 9) == 275;
    NextMonthInYear(year, 2);
    assert DaysInMonths(MakeYearMonth(year, 2), 10) == 306;
    NextMonthInYear(year, 1);
    assert DaysInMonths(MakeYearMonth(year, 1), 11) == 306 + february;
    NextMonthInYear(year, 0);
  }
}
