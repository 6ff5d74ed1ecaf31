/**
 * The records and enumerations the finance engine exchanges with its
 * callers.  Every amount is an exact `real`; every date label is a calendar
 * month.
 */
module FinanceTypes {
  import opened Calendar

  /** An instalment and the totals it implies over the whole tenure. */
  datatype EmiDetails = EmiDetails(emi: real, totalInterest: real, totalPayment: real)

  /** The tenure a fixed instalment needs; `NeverRepaid` stands for `Infinity`. */
  datatype Tenure = Years(years: real) | NeverRepaid

  /** One month of a loan schedule. */
  datatype AmortizationRow = AmortizationRow(
    month: nat,
    date: YearMonth,
    payment: real,
    principal: real,
    interest: real,
    balance: real,
    extraPayment: real)

  /** The outcome of a prepayment run, measured against the original tenure. */
  datatype PrepaymentResult = PrepaymentResult(
    originalTotalInterest: real,
    newTotalInterest: real,
    interestSaved: real,
    originalTenureMonths: real,
    newTenureMonths: nat,
    monthsSaved: real,
    schedule: seq<AmortizationRow>)

  /** A deposit's value at maturity and the interest it has earned. */
  datatype CompoundInterestDetails = CompoundInterestDetails(totalAmount: real, totalInterest: real)

  /** One period of a deposit schedule. */
  datatype CompoundInterestRow = CompoundInterestRow(
    period: nat,
    date: YearMonth,
    interestEarned: real,
    totalAmount: real)

  /** How often a recurring prepayment falls due. */
  datatype PrepaymentFrequency = Daily | Monthly | Quarterly | Yearly

  /** Periods per year: once, twice, four times or twelve times. */
  type CompoundingFrequency = n: nat | n == 1 || n == 2 || n == 4 || n == 12 witness 1

  /** Interest left in the deposit until maturity, or paid out `perYear` times a year. */
  datatype PayoutFrequency = Maturity | Periodic(perYear: CompoundingFrequency)

  /** The number of months in one period when there are `perYear` periods a year: twelve divided by `perYear`. */
  function MonthsPerPeriod(perYear: CompoundingFrequency): nat {
    if perYear == 1 then 12 else if perYear == 2 then 6 else if perYear == 4 then 3 else 1
  }

  /** Every frequency divides the year into whole months: the periods of a year span exactly twelve. */
  lemma PeriodsSpanYear(perYear: CompoundingFrequency)
    ensures MonthsPerPeriod(perYear) * perYear == 12
  {
  }
}
