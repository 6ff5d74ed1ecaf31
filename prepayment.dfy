/**
 * The prepayment simulator (`calculatePrepaymentImpact`): the standard loan
 * schedule with a recurring extra payment on one of four cadences and a
 * one-time lump sum, run until the balance is repaid or the original tenure
 * runs out, and compared with the original loan.
 */
module Prepayment {
  import opened Powers
  import opened Calendar
  import opened FinanceTypes
  import opened Schedules
  import opened Loan
  import opened Amortization

  /** The extra payments a borrower plans: a recurring amount on a cadence, and a lump sum in one month. */
  datatype PrepaymentPlan = PrepaymentPlan(
    recurringAmount: real,
    frequency: PrepaymentFrequency,
    lumpSumAmount: real,
    lumpSumMonth: real)

  /** The recurring extra payment due in loan month `month`, which falls in calendar month `date`. */
  function RecurringExtra(plan: PrepaymentPlan, month: nat, date: YearMonth): real {
    match plan.frequency
    case Monthly => plan.recurringAmount
    case Quarterly => if month % 3 == 0 then plan.recurringAmount else 0.0
    case Yearly => if month % 12 == 0 then plan.recurringAmount else 0.0
    case Daily => plan.recurringAmount * DaysInMonth(date) as real
  }

  /** Everything the plan adds to the instalment in loan month `month`. */
  function PlannedExtra(plan: PrepaymentPlan, month: nat, date: YearMonth): real {
    RecurringExtra(plan, month, date) + (if month as real == plan.lumpSumMonth then plan.lumpSumAmount else 0.0)
  }

  /** The planned extra in loan month `month` of a loan that starts in `start`. */
  function MonthExtra(plan: PrepaymentPlan, month: nat, start: YearMonth): real {
    PlannedExtra(plan, month, AddMonths(start, month))
  }

  /**
   * The row for loan month `month`, starting from `balance`: the instalment
   * plus the planned `extra`, cut back to what clears the balance when it
   * would overpay it.
   */
  function PrepaymentRow(balance: real, month: nat, r: real, emi: real, extra: real, start: YearMonth): AmortizationRow {
    var date := AddMonths(start, month);
    var interest := balance * r;
    var payment := emi + extra;
    if payment - interest > balance then
      var cleared := balance + interest;
      var reported := if cleared - emi < 0.0 then 0.0 else cleared - emi;
      AmortizationRow(month, date, cleared, balance, interest, 0.0, reported)
    else
      var principalPaid := payment - interest;
      var remaining := if balance - principalPaid <= 0.0 then 0.0 else balance - principalPaid;
      AmortizationRow(month, date, payment, principalPaid, interest, remaining, extra)
  }

  /** How many more months the loop `monthsCount < tenureMonths` may run after `done` months. */
  function MonthsBelow(done: nat, tenureMonths: real): nat {
    if done as real >= tenureMonths then 0 else (tenureMonths - done as real).Floor + 1
  }

  lemma MonthsBelowDecreases(done: nat, tenureMonths: real)
    requires (done as real) < tenureMonths
    ensures MonthsBelow(done + 1, tenureMonths) < MonthsBelow(done, tenureMonths)
  {
  }

  /** The rows after `done` months, while something is owed and the tenure has not run out. */
  function PrepaymentRowsFrom(balance: real, done: nat, tenureMonths: real, r: real, emi: real, plan: PrepaymentPlan, start: YearMonth): seq<AmortizationRow>
    decreases MonthsBelow(done, tenureMonths)
  {
    if balance <= 0.0 || done as real >= tenureMonths then
      []
    else
      var row := PrepaymentRow(balance, done + 1, r, emi, MonthExtra(plan, done + 1, start), start);
      if row.balance <= 0.0 then [row]
      else [row] + PrepaymentRowsFrom(row.balance, done + 1, tenureMonths, r, emi, plan, start)
  }

  /** The result `calculatePrepaymentImpact` returns. */
  function PrepaymentImpact(realPow: (real, real) -> real, principal: real, annualRate: real, tenureYears: real, plan: PrepaymentPlan, start: YearMonth): PrepaymentResult
    requires PowAboveOne(realPow)
  {
    var details := CalculateEmi(realPow, principal, annualRate, tenureYears);
    var tenureMonths := tenureYears * 12.0;
    var schedule := PrepaymentRowsFrom(principal, 0, tenureMonths, MonthlyRate(annualRate), details.emi, plan, start);
    var newTotalInterest := TotalInterest(schedule);
    PrepaymentResult(details.totalInterest, newTotalInterest, details.totalInterest - newTotalInterest,
                     tenureMonths, |schedule|, tenureMonths - |schedule| as real, schedule)
  }

  /**
   * The extra payment the plan adds in loan month `monthsCount`, which falls
   * in calendar month `currentMonthDate`: the recurring amount on its
   * cadence, plus the lump sum in its month.
   */
  method ExtraPaymentFor(monthsCount: nat, currentMonthDate: YearMonth, recurringPrepayment: real, recurringFrequency: PrepaymentFrequency,
                         lumpSumAmount: real, lumpSumMonth: real)
    returns (extraPaymentAmount: real)
    ensures extraPaymentAmount
            == PlannedExtra(PrepaymentPlan(recurringPrepayment, recurringFrequency, lumpSumAmount, lumpSumMonth), monthsCount, currentMonthDate)
  {
    extraPaymentAmount := 0.0;
    if recurringFrequency == Monthly {
      extraPaymentAmount := extraPaymentAmount + recurringPrepayment;
    } else if recurringFrequency == Quarterly && monthsCount % 3 == 0 {
      extraPaymentAmount := extraPaymentAmount + recurringPrepayment;
    } else if recurringFrequency == Yearly && monthsCount % 12 == 0 {
      extraPaymentAmount := extraPaymentAmount + recurringPrepayment;
    } else if recurringFrequency == Daily {
      var daysInMonth := DaysInMonth(currentMonthDate);
      extraPaymentAmount := extraPaymentAmount + recurringPrepayment * daysInMonth as real;
    }
    if monthsCount as real == lumpSumMonth {
      extraPaymentAmount := extraPaymentAmount + lumpSumAmount;
    }
  }

  /**
   * One month of `calculatePrepaymentImpact` from `balance`: the interest,
   * the instalment plus the planned extra, the clamp when that would
   * overpay, and the new balance.
   */
  method SimulateMonth(balance: real, monthsCount: nat, monthlyRate: real, emi: real,
                       recurringPrepayment: real, recurringFrequency: PrepaymentFrequency,
                       lumpSumAmount: real, lumpSumMonth: real, start: YearMonth)
    returns (row: AmortizationRow)
    ensures row == PrepaymentRow(balance, monthsCount, monthlyRate, emi,
                                 MonthExtra(PrepaymentPlan(recurringPrepayment, recurringFrequency, lumpSumAmount, lumpSumMonth), monthsCount, start), start)
  {
    var currentMonthDate := AddMonths(start, monthsCount);
    var interestForMonth := balance * monthlyRate;
    var paymentThisMonth := emi;
    var extraPaymentAmount := ExtraPaymentFor(monthsCount, currentMonthDate, recurringPrepayment, recurringFrequency,
                                              lumpSumAmount, lumpSumMonth);
    paymentThisMonth := paymentThisMonth + extraPaymentAmount;
    var principalPaidThisMonth := paymentThisMonth - interestForMonth;
    if principalPaidThisMonth > balance {
      principalPaidThisMonth := balance;
      paymentThisMonth := principalPaidThisMonth + interestForMonth;
      extraPaymentAmount := paymentThisMonth - emi;
      if extraPaymentAmount < 0.0 {
        extraPaymentAmount := 0.0;
      }
    }
    var newBalance := balance - principalPaidThisMonth;
    if newBalance <= 0.0 {
      newBalance := 0.0;
    }
    row := AmortizationRow(monthsCount, currentMonthDate, paymentThisMonth, principalPaidThisMonth,
                           interestForMonth, newBalance, extraPaymentAmount);
  }

  /**
   * The month-by-month loop of `calculatePrepaymentImpact`: from
   * `principal`, while something is owed and fewer than `originalTenureMonths`
   * months have passed, simulates a month, accrues its interest and appends
   * its row.
   */
  method SimulatePrepayments(principal: real, monthlyRate: real, originalTenureMonths: real, emi: real,
                             recurringPrepayment: real, recurringFrequency: PrepaymentFrequency,
                             lumpSumAmount: real, lumpSumMonth: real, start: YearMonth)
    returns (schedule: seq<AmortizationRow>, newTotalInterest: real, monthsCount: nat)
    ensures schedule == PrepaymentRowsFrom(principal, 0, originalTenureMonths, monthlyRate, emi,
                                           PrepaymentPlan(recurringPrepayment, recurringFrequency, lumpSumAmount, lumpSumMonth), start)
    ensures newTotalInterest == TotalInterest(schedule) && monthsCount == |schedule|
  {
    ghost var plan := PrepaymentPlan(recurringPrepayment, recurringFrequency, lumpSumAmount, lumpSumMonth);
    ghost var target := PrepaymentRowsFrom(principal, 0, originalTenureMonths, monthlyRate, emi, plan, start);
    var balance := principal;
    newTotalInterest := 0.0;
    monthsCount := 0;
    schedule := [];
    while balance > 0.0 && (monthsCount as real) < originalTenureMonths
      invariant monthsCount == |schedule|
      invariant newTotalInterest == InterestSoFar(schedule)
      invariant schedule + PrepaymentRowsFrom(balance, monthsCount, originalTenureMonths, monthlyRate, emi, plan, start) == target
      decreases MonthsBelow(monthsCount, originalTenureMonths)
    {
      MonthsBelowDecreases(monthsCount, originalTenureMonths);
      monthsCount := monthsCount + 1;
      ghost var before := balance;
      var row := SimulateMonth(balance, monthsCount, monthlyRate, emi, recurringPrepayment, recurringFrequency,
                               lumpSumAmount, lumpSumMonth, start);
      newTotalInterest := newTotalInterest + row.interest;
      balance := row.balance;
      assert (schedule + [row])[..|schedule|] == schedule;
      PrepaymentRowsStep(before, monthsCount - 1, originalTenureMonths, monthlyRate, emi, plan, start);
      ghost var rest := PrepaymentRowsFrom(balance, monthsCount, originalTenureMonths, monthlyRate, emi, plan, start);
      assert (schedule + [row]) + rest == schedule + ([row] + rest);
      schedule := schedule + [row];
      if balance <= 0.0 {
        break;
      }
    }
    PrepaymentRowsEnd(balance, monthsCount, originalTenureMonths, monthlyRate, emi, plan, start);
    assert schedule + [] == schedule;
    InterestSoFarIsTotal(schedule);
  }

  /**
   * `calculatePrepaymentImpact`: simulates the loan month by month with the
   * planned extra payments and reports the interest and months saved
   * against the original loan.
   */
  method CalculatePrepaymentImpact(realPow: (real, real) -> real, principal: real, annualRate: real, tenureYears: real,
                                   recurringPrepayment: real, recurringFrequency: PrepaymentFrequency,
                                   lumpSumAmount: real, lumpSumMonth: real, start: YearMonth)
    returns (result: PrepaymentResult)
    requires PowAboveOne(realPow)
    ensures result == PrepaymentImpact(realPow, principal, annualRate, tenureYears,
                                       PrepaymentPlan(recurringPrepayment, recurringFrequency, lumpSumAmount, lumpSumMonth), start)
  {
    var emiDetails := CalculateEmi(realPow, principal, annualRate, tenureYears);
    var monthlyRate := MonthlyRate(annualRate);
    var originalTenureMonths := tenureYears * 12.0;
    var schedule, newTotalInterest, monthsCount :=
      SimulatePrepayments(principal, monthlyRate, originalTenureMonths, emiDetails.emi, recurringPrepayment, recurringFrequency,
                          lumpSumAmount, lumpSumMonth, start);
    result := PrepaymentResult(emiDetails.totalInterest, newTotalInterest, emiDetails.totalInterest - newTotalInterest,
                               originalTenureMonths, monthsCount, originalTenureMonths - monthsCount as real, schedule);
  }

  /**
   * One month of the prepayment schedule from a positive balance: the row
   * amortizes that balance, and it closes on the balance grown by a month's
   * interest less the instalment and the planned extra, or on 0 when that
   * would be negative.  When it would be negative the month is clamped: it
   * repays just the balance with its interest, and reports as extra what
   * that exceeds the instalment by, or 0; otherwise the whole planned extra
   * is paid on top of the instalment.
   */
  lemma PrepaymentRowClamps(balance: real, month: nat, r: real, emi: real, plan: PrepaymentPlan, start: YearMonth)
    requires balance > 0.0
    ensures var row := PrepaymentRow(balance, month, r, emi, MonthExtra(plan, month, start), start);
            var planned := MonthExtra(plan, month, start);
            var next := balance * (1.0 + r) - emi - planned;
            row.month == month && row.date == AddMonths(start, month) &&
            RowAmortizes(row, balance, r) &&
            row.balance == (if next < 0.0 then 0.0 else next) &&
            (next >= 0.0 ==> row.payment == emi + planned && row.extraPayment == planned) &&
            (next < 0.0 ==> row.principal == balance && row.payment == balance + balance * r &&
                            row.extraPayment == (if row.payment - emi < 0.0 then 0.0 else row.payment - emi))
  {
    var interest := balance * r;
    assert balance * (1.0 + r) == balance + interest;
  }

  /**
   * The rows after `done` months exist exactly while something is owed and
   * the tenure has not run out, are numbered on from `done + 1`, and start
   * within the tenure: a tenure of `T` months allows at most the next whole
   * number of months at or above `T`.
   */
  lemma {:induction false} PrepaymentRowsNumbered(balance: real, done: nat, tenureMonths: real, r: real, emi: real, plan: PrepaymentPlan, start: YearMonth)
    ensures var rows := PrepaymentRowsFrom(balance, done, tenureMonths, r, emi, plan, start);
            (rows == [] <==> balance <= 0.0 || done as real >= tenureMonths) &&
            Numbered(rows, done + 1, start) &&
            (rows != [] ==> ((done + |rows| - 1) as real) < tenureMonths)
    decreases MonthsBelow(done, tenureMonths)
  {
    if balance > 0.0 && (done as real) < tenureMonths {
      var row := PrepaymentRow(balance, done + 1, r, emi, MonthExtra(plan, done + 1, start), start);
      PrepaymentRowClamps(balance, done + 1, r, emi, plan, start);
      if row.balance > 0.0 {
        PrepaymentRowsNumbered(row.balance, done + 1, tenureMonths, r, emi, plan, start);
      }
    }
  }

  /**
   * Every row of the prepayment schedule amortizes the balance it starts
   * from, and only the last may leave nothing owed.
   */
  lemma {:induction false} PrepaymentRowsAmortize(balance: real, done: nat, tenureMonths: real, r: real, emi: real, plan: PrepaymentPlan, start: YearMonth)
    ensures var rows := PrepaymentRowsFrom(balance, done, tenureMonths, r, emi, plan, start);
            Amortizes(rows, balance, r) && StopsAtFirstZero(rows)
    decreases MonthsBelow(done, tenureMonths)
  {
    if balance > 0.0 && (done as real) < tenureMonths {
      var row := PrepaymentRow(balance, done + 1, r, emi, MonthExtra(plan, done + 1, start), start);
      PrepaymentRowClamps(balance, done + 1, r, emi, plan, start);
      var rest := if row.balance <= 0.0 then [] else PrepaymentRowsFrom(row.balance, done + 1, tenureMonths, r, emi, plan, start);
      if row.balance > 0.0 {
        PrepaymentRowsAmortize(row.balance, done + 1, tenureMonths, r, emi, plan, start);
      }
      assert PrepaymentRowsFrom(balance, done, tenureMonths, r, emi, plan, start) == [row] + rest;
      AmortizesCons(row, rest, balance, r);
      StopsAtFirstZeroCons(row, rest);
    }
  }

  /** At a non-negative rate, the interest a prepayment schedule charges is not negative. */
  lemma {:induction false} PrepaymentInterestNonNegative(balance: real, done: nat, tenureMonths: real, r: real, emi: real, plan: PrepaymentPlan, start: YearMonth)
    requires r >= 0.0
    ensures TotalInterest(PrepaymentRowsFrom(balance, done, tenureMonths, r, emi, plan, start)) >= 0.0
    decreases MonthsBelow(done, tenureMonths)
  {
    if balance > 0.0 && (done as real) < tenureMonths {
      var row := PrepaymentRow(balance, done + 1, r, emi, MonthExtra(plan, done + 1, start), start);
      PrepaymentRowClamps(balance, done + 1, r, emi, plan, start);
      assert row.interest >= 0.0;
      if row.balance > 0.0 {
        PrepaymentInterestNonNegative(row.balance, done + 1, tenureMonths, r, emi, plan, start);
        var rest := PrepaymentRowsFrom(row.balance, done + 1, tenureMonths, r, emi, plan, start);
        assert PrepaymentRowsFrom(balance, done, tenureMonths, r, emi, plan, start) == [row] + rest;
        assert ([row] + rest)[1..] == rest;
      }
    }
  }

  /** A plan that adds nothing: no recurring amount and no lump sum. */
  predicate AddsNothing(plan: PrepaymentPlan) {
    plan.recurringAmount == 0.0 && plan.lumpSumAmount == 0.0
  }

  /** A plan that adds nothing adds nothing in any month, whatever the cadence. */
  lemma NothingAddedAnyMonth(plan: PrepaymentPlan, month: nat, start: YearMonth)
    requires AddsNothing(plan)
    ensures MonthExtra(plan, month, start) == 0.0
  {
  }

  /**
   * Without extra payments, a month whose balance does not overshoot zero,
   * and lands on zero if it is the last month of the tenure, is the
   * standard schedule's month: the same row, closing on the balance grown
   * by a month's interest less the instalment.
   */
  lemma NoExtraRowIsStandard(balance: real, month: nat, tenureMonths: real, r: real, emi: real, start: YearMonth)
    requires balance * (1.0 + r) - emi >= 0.0
    requires month as real == tenureMonths ==> balance * (1.0 + r) - emi == 0.0
    ensures PrepaymentRow(balance, month, r, emi, 0.0, start) == StandardRow(balance, month, tenureMonths, r, emi, start)
    ensures PrepaymentRow(balance, month, r, emi, 0.0, start).balance == balance * (1.0 + r) - emi
  {
    var interest := balance * r;
    assert balance * (1.0 + r) == balance + interest;
  }

  /**
   * Under an instalment that the recurrence `Owed` shows repays the loan in
   * exactly `n` months, a plan that adds nothing reproduces the standard
   * schedule from month `k + 1` on.
   */
  lemma {:induction false} NoExtraFollowsStandard(principal: real, r: real, emi: real, n: nat, k: nat, plan: PrepaymentPlan, start: YearMonth)
    requires AddsNothing(plan) && k < n && Owed(principal, r, emi, n) == 0.0
    requires forall j :: 0 <= j < n ==> Owed(principal, r, emi, j) > 0.0
    ensures PrepaymentRowsFrom(Owed(principal, r, emi, k), k, n as real, r, emi, plan, start)
            == StandardRowsFrom(Owed(principal, r, emi, k), k + 1, n as real, r, emi, start)
    decreases n - k
  {
    var balance := Owed(principal, r, emi, k);
    var next := Owed(principal, r, emi, k + 1);
    assert next == balance * (1.0 + r) - emi;
    assert balance > 0.0;
    assert next >= 0.0 by {
      if k + 1 < n {
        assert Owed(principal, r, emi, k + 1) > 0.0;
      }
    }
    NothingAddedAnyMonth(plan, k + 1, start);
    NoExtraRowIsStandard(balance, k + 1, n as real, r, emi, start);
    var row := StandardRow(balance, k + 1, n as real, r, emi, start);
    assert PrepaymentRow(balance, k + 1, r, emi, MonthExtra(plan, k + 1, start), start) == row;
    assert row.balance == next;
    if next > 0.0 {
      assert k + 1 < n;
      NoExtraFollowsStandard(principal, r, emi, n, k + 1, plan, start);
      assert PrepaymentRowsFrom(balance, k, n as real, r, emi, plan, start) == [row] + PrepaymentRowsFrom(next, k + 1, n as real, r, emi, plan, start);
      assert StandardRowsFrom(balance, k + 1, n as real, r, emi, start) == [row] + StandardRowsFrom(next, k + 2, n as real, r, emi, start);
    } else {
      assert PrepaymentRowsFrom(balance, k, n as real, r, emi, plan, start) == [row];
      assert StandardRowsFrom(balance, k + 1, n as real, r, emi, start) == [row];
    }
  }

  /**
   * For a whole number `n` of months, a plan that adds nothing changes
   * nothing: the prepayment schedule is the standard schedule under
   * `calculateEMI`'s instalment, it takes the whole tenure, and it saves
   * neither months nor interest.
   */
  lemma NoExtraSavesNothing(realPow: (real, real) -> real, principal: real, annualRate: real, n: nat, plan: PrepaymentPlan, start: YearMonth)
    requires PowAboveOne(realPow) && AddsNothing(plan)
    requires principal > 0.0 && annualRate > 0.0 && n >= 1
    ensures var details := CalculateEmi(realPow, principal, annualRate, n as real / 12.0);
            var result := PrepaymentImpact(realPow, principal, annualRate, n as real / 12.0, plan, start);
            result.schedule == AmortizationSchedule(principal, annualRate, n as real / 12.0, details.emi, start) &&
            result.newTenureMonths == n && result.monthsSaved == 0.0 && result.interestSaved == 0.0
  {
    var r := MonthlyRate(annualRate);
    var emi := CalculateEmi(realPow, principal, annualRate, n as real / 12.0).emi;
    assert n as real / 12.0 * 12.0 == n as real;
    OwedUnderEmi(realPow, principal, annualRate, n);
    assert Owed(principal, r, emi, 0) == principal;
    NoExtraFollowsStandard(principal, r, emi, n, 0, plan, start);
    StandardScheduleRepaysOnTime(realPow, principal, annualRate, n, start);
  }

  /**
   * A month's closing balance is monotone: a smaller opening balance and a
   * larger extra payment never close on more.
   */
  lemma ClosingBalanceMonotone(b1: real, b2: real, r: real, emi: real, e1: real, e2: real)
    requires b1 <= b2 && r >= 0.0 && e1 >= e2
    ensures b1 * (1.0 + r) - emi - e1 <= b2 * (1.0 + r) - emi - e2
    ensures b1 * r <= b2 * r
  {
    var grown1 := b1 * (1.0 + r);
    var grown2 := b2 * (1.0 + r);
    ScaleMonotone(b1, b2, 1.0 + r);
    assert grown1 <= grown2;
    ScaleMonotone(b1, b2, r);
  }

  lemma ScaleMonotone(x: real, y: real, c: real)
    requires x <= y && c >= 0.0
    ensures x * c <= y * c
  {
    assert y * c - x * c == (y - x) * c;
  }

  /** The first month of a prepayment run that has one, and the run that follows it. */
  lemma PrepaymentRowsUnfold(balance: real, done: nat, tenureMonths: real, r: real, emi: real, plan: PrepaymentPlan, start: YearMonth)
    requires balance > 0.0 && (done as real) < tenureMonths
    ensures var row := PrepaymentRow(balance, done + 1, r, emi, MonthExtra(plan, done + 1, start), start);
            var rows := PrepaymentRowsFrom(balance, done, tenureMonths, r, emi, plan, start);
            rows != [] && rows[0] == row &&
            rows[1..] == (if row.balance <= 0.0 then [] else PrepaymentRowsFrom(row.balance, done + 1, tenureMonths, r, emi, plan, start)) &&
            TotalInterest(rows) == row.interest + TotalInterest(rows[1..])
  {
  }

  /** A prepayment run that has a first month is that month's row followed by the run from its closing balance. */
  lemma PrepaymentRowsStep(balance: real, done: nat, tenureMonths: real, r: real, emi: real, plan: PrepaymentPlan, start: YearMonth)
    requires balance > 0.0 && (done as real) < tenureMonths
    ensures var row := PrepaymentRow(balance, done + 1, r, emi, MonthExtra(plan, done + 1, start), start);
            PrepaymentRowsFrom(balance, done, tenureMonths, r, emi, plan, start)
            == [row] + PrepaymentRowsFrom(row.balance, done + 1, tenureMonths, r, emi, plan, start)
  {
    var row := PrepaymentRow(balance, done + 1, r, emi, MonthExtra(plan, done + 1, start), start);
    if row.balance <= 0.0 {
      assert PrepaymentRowsFrom(row.balance, done + 1, tenureMonths, r, emi, plan, start) == [];
    }
  }

  /** Once nothing is owed or the tenure has run out, no rows follow. */
  lemma PrepaymentRowsEnd(balance: real, done: nat, tenureMonths: real, r: real, emi: real, plan: PrepaymentPlan, start: YearMonth)
    requires balance <= 0.0 || (done as real) >= tenureMonths
    ensures PrepaymentRowsFrom(balance, done, tenureMonths, r, emi, plan, start) == []
  {
  }

  /** A month's closing balance and interest, whatever extra is paid. */
  lemma RowBalanceClamped(balance: real, month: nat, r: real, emi: real, extra: real, start: YearMonth)
    ensures var row := PrepaymentRow(balance, month, r, emi, extra, start);
            var next := balance * (1.0 + r) - emi - extra;
            row.balance == (if next < 0.0 then 0.0 else next) && row.interest == balance * r
  {
    var interest := balance * r;
    assert balance * (1.0 + r) == balance + interest;
  }

  /**
   * One month of two prepayment runs: the one that starts owing no more and
   * pays at least as much extra closes owing no more and charges no more
   * interest.
   */
  lemma MonthCompared(b1: real, b2: real, month: nat, r: real, emi: real, e1: real, e2: real, start: YearMonth)
    requires b1 <= b2 && r >= 0.0 && e1 >= e2
    ensures var row1 := PrepaymentRow(b1, month, r, emi, e1, start);
            var row2 := PrepaymentRow(b2, month, r, emi, e2, start);
            row1.balance <= row2.balance && row1.interest <= row2.interest
  {
    RowBalanceClamped(b1, month, r, emi, e1, start);
    RowBalanceClamped(b2, month, r, emi, e2, start);
    ClosingBalanceMonotone(b1, b2, r, emi, e1, e2);
  }

  /**
   * Two prepayment runs from the same month under the same instalment at a
   * non-negative rate: the one that starts owing no more and pays at least
   * as much extra every month ends no later and charges no more interest.
   */
  lemma {:induction false} MoreExtraNeverWorse(b1: real, b2: real, done: nat, tenureMonths: real, r: real, emi: real,
                                               plan1: PrepaymentPlan, plan2: PrepaymentPlan, start: YearMonth)
    requires b1 <= b2 && r >= 0.0
    requires forall m: nat :: MonthExtra(plan1, m, start) >= MonthExtra(plan2, m, start)
    ensures var rows1 := PrepaymentRowsFrom(b1, done, tenureMonths, r, emi, plan1, start);
            var rows2 := PrepaymentRowsFrom(b2, done, tenureMonths, r, emi, plan2, start);
            |rows1| <= |rows2| && TotalInterest(rows1) <= TotalInterest(rows2)
    decreases MonthsBelow(done, tenureMonths)
  {
    var rows1 := PrepaymentRowsFrom(b1, done, tenureMonths, r, emi, plan1, start);
    var rows2 := PrepaymentRowsFrom(b2, done, tenureMonths, r, emi, plan2, start);
    PrepaymentInterestNonNegative(b2, done, tenureMonths, r, emi, plan2, start);
    if b1 > 0.0 && (done as real) < tenureMonths {
      var row1 := PrepaymentRow(b1, done + 1, r, emi, MonthExtra(plan1, done + 1, start), start);
      var row2 := PrepaymentRow(b2, done + 1, r, emi, MonthExtra(plan2, done + 1, start), start);
      MonthCompared(b1, b2, done + 1, r, emi, MonthExtra(plan1, done + 1, start), MonthExtra(plan2, done + 1, start), start);
      PrepaymentRowsUnfold(b1, done, tenureMonths, r, emi, plan1, start);
      PrepaymentRowsUnfold(b2, done, tenureMonths, r, emi, plan2, start);
      if row2.balance > 0.0 {
        PrepaymentInterestNonNegative(row2.balance, done + 1, tenureMonths, r, emi, plan2, start);
      }
      if row1.balance > 0.0 {
        MoreExtraNeverWorse(row1.balance, row2.balance, done + 1, tenureMonths, r, emi, plan1, plan2, start);
      }
    }
  }

  /** A month that pays at least its interest and no negative extra closes owing no more than it opened on. */
  lemma RowNoHigher(balance: real, month: nat, r: real, emi: real, extra: real, start: YearMonth)
    requires balance >= 0.0 && emi >= balance * r && extra >= 0.0
    ensures 0.0 <= PrepaymentRow(balance, month, r, emi, extra, start).balance <= balance
  {
    RowBalanceClamped(balance, month, r, emi, extra, start);
    assert balance * (1.0 + r) == balance + balance * r;
  }

  /**
   * When the plan never adds a negative amount and the instalment covers the
   * interest on the opening balance, no month of a prepayment run owes more
   * than the month before it.
   */
  lemma {:induction false} PrepaymentRowsNonIncreasing(balance: real, done: nat, tenureMonths: real, r: real, emi: real,
                                                       plan: PrepaymentPlan, start: YearMonth)
    requires balance >= 0.0 && r >= 0.0 && emi >= balance * r
    requires forall m: nat :: MonthExtra(plan, m, start) >= 0.0
    ensures BalancesNonIncreasing(PrepaymentRowsFrom(balance, done, tenureMonths, r, emi, plan, start), balance)
    decreases MonthsBelow(done, tenureMonths)
  {
    if balance > 0.0 && (done as real) < tenureMonths {
      var extra := MonthExtra(plan, done + 1, start);
      var row := PrepaymentRow(balance, done + 1, r, emi, extra, start);
      RowNoHigher(balance, done + 1, r, emi, extra, start);
      var next := row.balance;
      var rest := PrepaymentRowsFrom(next, done + 1, tenureMonths, r, emi, plan, start);
      PrepaymentRowsStep(balance, done, tenureMonths, r, emi, plan, start);
      assert PrepaymentRowsFrom(balance, done, tenureMonths, r, emi, plan, start) == [row] + rest;
      CoveredInterestShrinks(balance, next, r, emi);
      MonthsBelowDecreases(done, tenureMonths);
      PrepaymentRowsNonIncreasing(next, done + 1, tenureMonths, r, emi, plan, start);
      BalancesNonIncreasingCons(row, rest, balance);
    }
  }

  /** A prepayment run from a balance that is not negative never leaves a negative balance. */
  lemma {:induction false} PrepaymentClosingNonNegative(balance: real, done: nat, tenureMonths: real, r: real, emi: real,
                                                        plan: PrepaymentPlan, start: YearMonth)
    requires balance >= 0.0
    ensures ClosingBalance(PrepaymentRowsFrom(balance, done, tenureMonths, r, emi, plan, start), balance) >= 0.0
    decreases MonthsBelow(done, tenureMonths)
  {
    if balance > 0.0 && (done as real) < tenureMonths {
      var extra := MonthExtra(plan, done + 1, start);
      var row := PrepaymentRow(balance, done + 1, r, emi, extra, start);
      RowBalanceClamped(balance, done + 1, r, emi, extra, start);
      PrepaymentRowsStep(balance, done, tenureMonths, r, emi, plan, start);
      PrepaymentClosingNonNegative(row.balance, done + 1, tenureMonths, r, emi, plan, start);
      ClosingBalanceCons(row, PrepaymentRowsFrom(row.balance, done + 1, tenureMonths, r, emi, plan, start), balance);
    }
  }

  /**
   * Two prepayment runs compared as in `MoreExtraNeverWorse`: the one that
   * starts owing no more and pays at least as much extra every month also
   * ends owing no more.
   */
  lemma {:induction false} MoreExtraClosesLower(b1: real, b2: real, done: nat, tenureMonths: real, r: real, emi: real,
                                                plan1: PrepaymentPlan, plan2: PrepaymentPlan, start: YearMonth)
    requires 0.0 <= b1 <= b2 && r >= 0.0
    requires forall m: nat :: MonthExtra(plan1, m, start) >= MonthExtra(plan2, m, start)
    ensures ClosingBalance(PrepaymentRowsFrom(b1, done, tenureMonths, r, emi, plan1, start), b1)
            <= ClosingBalance(PrepaymentRowsFrom(b2, done, tenureMonths, r, emi, plan2, start), b2)
    decreases MonthsBelow(done, tenureMonths)
  {
    if b1 > 0.0 && (done as real) < tenureMonths {
      var e1 := MonthExtra(plan1, done + 1, start);
      var e2 := MonthExtra(plan2, done + 1, start);
      var row1 := PrepaymentRow(b1, done + 1, r, emi, e1, start);
      var row2 := PrepaymentRow(b2, done + 1, r, emi, e2, start);
      MonthCompared(b1, b2, done + 1, r, emi, e1, e2, start);
      RowBalanceClamped(b1, done + 1, r, emi, e1, start);
      PrepaymentRowsStep(b1, done, tenureMonths, r, emi, plan1, start);
      PrepaymentRowsStep(b2, done, tenureMonths, r, emi, plan2, start);
      MoreExtraClosesLower(row1.balance, row2.balance, done + 1, tenureMonths, r, emi, plan1, plan2, start);
      ClosingBalanceCons(row1, PrepaymentRowsFrom(row1.balance, done + 1, tenureMonths, r, emi, plan1, start), b1);
      ClosingBalanceCons(row2, PrepaymentRowsFrom(row2.balance, done + 1, tenureMonths, r, emi, plan2, start), b2);
    } else if (done as real) < tenureMonths {
      PrepaymentClosingNonNegative(b2, done, tenureMonths, r, emi, plan2, start);
    }
  }

  /**
   * For a whole number `n` of months, a plan that never adds a negative
   * amount still repays the loan within the tenure: the prepayment schedule
   * has a month, and its last month leaves nothing owed.
   */
  lemma PrepaymentRepaysInTenure(realPow: (real, real) -> real, principal: real, annualRate: real, n: nat,
                                 plan: PrepaymentPlan, start: YearMonth)
    requires PowAboveOne(realPow)
    requires principal > 0.0 && annualRate > 0.0 && n >= 1
    requires forall m: nat :: MonthExtra(plan, m, start) >= 0.0
    ensures var rows := PrepaymentImpact(realPow, principal, annualRate, n as real / 12.0, plan, start).schedule;
            rows != [] && rows[|rows| - 1].balance == 0.0
  {
    var tenureYears := n as real / 12.0;
    var months := tenureYears * 12.0;
    var r := MonthlyRate(annualRate);
    var emi := CalculateEmi(realPow, principal, annualRate, tenureYears).emi;
    var none := plan.(recurringAmount := 0.0, lumpSumAmount := 0.0);
    forall m: nat
      ensures MonthExtra(plan, m, start) >= MonthExtra(none, m, start)
    {
      NothingAddedAnyMonth(none, m, start);
    }
    var standard := PrepaymentRowsFrom(principal, 0, months, r, emi, none, start);
    assert standard == PrepaymentImpact(realPow, principal, annualRate, tenureYears, none, start).schedule;
    NoExtraSavesNothing(realPow, principal, annualRate, n, none, start);
    StandardScheduleRepaysOnTime(realPow, principal, annualRate, n, start);
    assert |standard| == n && standard[n - 1].balance == 0.0;
    assert ClosingBalance(standard, principal) == 0.0;
    var rows := PrepaymentRowsFrom(principal, 0, months, r, emi, plan, start);
    assert rows == PrepaymentImpact(realPow, principal, annualRate, tenureYears, plan, start).schedule;
    MoreExtraClosesLower(principal, principal, 0, months, r, emi, plan, none, start);
    PrepaymentClosingNonNegative(principal, 0, months, r, emi, plan, start);
    assert ClosingBalance(rows, principal) == 0.0;
    PrepaymentRowsNumbered(principal, 0, months, r, emi, plan, start);
    assert rows != [];
  }

  /** Raising the recurring amount raises the extra paid in every month, whatever the cadence. */
  lemma LargerRecurringLargerExtra(plan: PrepaymentPlan, larger: real, month: nat, start: YearMonth)
    requires plan.recurringAmount <= larger
    ensures MonthExtra(plan.(recurringAmount := larger), month, start) >= MonthExtra(plan, month, start)
  {
    if plan.frequency == Daily {
      var days := DaysInMonth(AddMonths(start, month)) as real;
      assert (larger - plan.recurringAmount) * days >= 0.0;
    }
  }

  /**
   * Raising the recurring prepayment, with everything else fixed, never
   * lengthens the loan and never adds interest: the new tenure and the
   * interest paid do not grow, so the months and interest saved do not
   * shrink.
   */
  lemma LargerRecurringNeverWorse(realPow: (real, real) -> real, principal: real, annualRate: real, tenureYears: real,
                                  plan: PrepaymentPlan, larger: real, start: YearMonth)
    requires PowAboveOne(realPow)
    requires annualRate >= 0.0 && plan.recurringAmount <= larger
    ensures var more := PrepaymentImpact(realPow, principal, annualRate, tenureYears, plan.(recurringAmount := larger), start);
            var less := PrepaymentImpact(realPow, principal, annualRate, tenureYears, plan, start);
            more.newTenureMonths <= less.newTenureMonths && more.newTotalInterest <= less.newTotalInterest &&
            more.monthsSaved >= less.monthsSaved && more.interestSaved >= less.interestSaved
  {
    var emi := CalculateEmi(realPow, principal, annualRate, tenureYears).emi;
    forall m: nat
      ensures MonthExtra(plan.(recurringAmount := larger), m, start) >= MonthExtra(plan, m, start)
    {
      LargerRecurringLargerExtra(plan, larger, m, start);
    }
    MoreExtraNeverWorse(principal, principal, 0, tenureYears * 12.0, MonthlyRate(annualRate), emi,
                        plan.(recurringAmount := larger), plan, start);
  }

  /**
   * What `calculatePrepaymentImpact` reports: the schedule amortizes the
   * principal month by month from month 1 and stops at the first zero
   * balance; it is empty exactly when nothing is owed or the tenure is not
   * positive; it starts no month at or beyond the original tenure; the new
   * tenure is its length, the new interest its interest column, and the
   * savings are the original figures less the new ones.
   */
  lemma PrepaymentSummary(realPow: (real, real) -> real, principal: real, annualRate: real, tenureYears: real,
                          plan: PrepaymentPlan, start: YearMonth)
    requires PowAboveOne(realPow)
    ensures var result := PrepaymentImpact(realPow, principal, annualRate, tenureYears, plan, start);
            var rows := result.schedule;
            (rows == [] <==> principal <= 0.0 || tenureYears <= 0.0) &&
            Numbered(rows, 1, start) &&
            Amortizes(rows, principal, MonthlyRate(annualRate)) && StopsAtFirstZero(rows) &&
            (rows != [] ==> ((|rows| - 1) as real) < tenureYears * 12.0) &&
            result.newTenureMonths == |rows| && result.newTotalInterest == TotalInterest(rows) &&
            result.originalTotalInterest == CalculateEmi(realPow, principal, annualRate, tenureYears).totalInterest &&
            result.originalTenureMonths == tenureYears * 12.0 &&
            result.interestSaved == result.originalTotalInterest - result.newTotalInterest &&
            result.monthsSaved == result.originalTenureMonths - result.newTenureMonths as real
    ensures var rows := PrepaymentImpact(realPow, principal, annualRate, tenureYears, plan, start).schedule;
            annualRate >= 0.0 && (forall m: nat :: MonthExtra(plan, m, start) >= 0.0) ==>
              BalancesNonIncreasing(rows, principal)
    ensures var rows := PrepaymentImpact(realPow, principal, annualRate, tenureYears, plan, start).schedule;
            principal > 0.0 && annualRate > 0.0 && tenureYears > 0.0 && IsNatural(tenureYears * 12.0) &&
            (forall m: nat :: MonthExtra(plan, m, start) >= 0.0) ==>
              rows != [] && rows[|rows| - 1].balance == 0.0
  {
    var emi := CalculateEmi(realPow, principal, annualRate, tenureYears).emi;
    PrepaymentRowsNumbered(principal, 0, tenureYears * 12.0, MonthlyRate(annualRate), emi, plan, start);
    PrepaymentRowsAmortize(principal, 0, tenureYears * 12.0, MonthlyRate(annualRate), emi, plan, start);
    if annualRate >= 0.0 && (forall m: nat :: MonthExtra(plan, m, start) >= 0.0) {
      PrepaymentImpactNonIncreasing(realPow, principal, annualRate, tenureYears, plan, start);
      if principal > 0.0 && annualRate > 0.0 && tenureYears > 0.0 && IsNatural(tenureYears * 12.0) {
        var n := (tenureYears * 12.0).Floor;
        assert n as real / 12.0 == tenureYears;
        PrepaymentRepaysInTenure(realPow, principal, annualRate, n, plan, start);
      }
    }
  }

  /**
   * At a non-negative rate, a plan that never adds a negative amount gives a
   * schedule whose balances never rise: `calculateEMI`'s instalment covers
   * the first month's interest.
   */
  lemma PrepaymentImpactNonIncreasing(realPow: (real, real) -> real, principal: real, annualRate: real, tenureYears: real,
                                      plan: PrepaymentPlan, start: YearMonth)
    requires PowAboveOne(realPow)
    requires annualRate >= 0.0 && forall m: nat :: MonthExtra(plan, m, start) >= 0.0
    ensures BalancesNonIncreasing(PrepaymentImpact(realPow, principal, annualRate, tenureYears, plan, start).schedule, principal)
  {
    var r := MonthlyRate(annualRate);
    var emi := CalculateEmi(realPow, principal, annualRate, tenureYears).emi;
    if principal > 0.0 && tenureYears > 0.0 {
      if annualRate == 0.0 {
        assert r == 0.0 && emi == 0.0;
        assert principal * r == 0.0;
      }
      PrepaymentRowsNonIncreasing(principal, 0, tenureYears * 12.0, r, emi, plan, start);
    } else {
      PrepaymentRowsEnd(principal, 0, tenureYears * 12.0, r, emi, plan, start);
    }
  }

  /**
   * The recurring extra due in loan month `month` for the cadences counted
   * in months, which do not depend on the calendar; the daily cadence is
   * counted in days instead and adds nothing here.
   */
  function CountedExtra(frequency: PrepaymentFrequency, amount: real, month: nat): real {
    match frequency
    case Monthly => amount
    case Quarterly => if month % 3 == 0 then amount else 0.0
    case Yearly => if month % 12 == 0 then amount else 0.0
    case Daily => 0.0
  }

  /** The recurring extras of the `count` loan months from month `first` on, for a cadence counted in months. */
  function CountedTotal(frequency: PrepaymentFrequency, amount: real, first: nat, count: nat): real
    decreases count
  {
    if count == 0 then 0.0
    else CountedExtra(frequency, amount, first) + CountedTotal(frequency, amount, first + 1, count - 1)
  }

  /** A run of months splits into its first `a` months and the rest. */
  lemma {:induction false} CountedTotalSplit(frequency: PrepaymentFrequency, amount: real, first: nat, a: nat, b: nat)
    ensures CountedTotal(frequency, amount, first, a + b) == CountedTotal(frequency, amount, first, a) + CountedTotal(frequency, amount, first + a, b)
    decreases a
  {
    if a > 0 {
      CountedTotalSplit(frequency, amount, first + 1, a - 1, b);
    }
  }

  /** The number of loan months from one recurring extra to the next: 1, 3 or 12 (and 1 for the daily cadence, which pays every month). */
  function CadenceMonths(frequency: PrepaymentFrequency): nat {
    match frequency
    case Monthly => 1
    case Quarterly => 3
    case Yearly => 12
    case Daily => 1
  }

  /** A month in which a cadence counted in months falls due. */
  predicate DueMonth(frequency: PrepaymentFrequency, month: nat) {
    match frequency
    case Monthly => true
    case Quarterly => month % 3 == 0
    case Yearly => month % 12 == 0
    case Daily => false
  }

  /** Between two due months of a cadence nothing recurring is paid. */
  lemma {:induction false} NothingBetweenDueMonths(frequency: PrepaymentFrequency, amount: real, due: nat, j: nat, k: nat)
    requires DueMonth(frequency, due) && 1 <= j && j + k <= CadenceMonths(frequency)
    ensures CountedTotal(frequency, amount, due + j, k) == 0.0
    decreases k
  {
    if k > 0 {
      if frequency == Quarterly {
        QuarterPosition(due + j, due / 3, j);
      } else if frequency == Yearly {
        DivModUnique(due + j, due / 12, j);
      }
      NothingBetweenDueMonths(frequency, amount, due, j + 1, k - 1);
    }
  }

  /** A quarter after a quarterly due month pays the recurring amount once, in its last month. */
  lemma QuarterCycle(amount: real, due: nat)
    requires due % 3 == 0
    ensures CountedTotal(Quarterly, amount, due + 1, 3) == amount
    ensures (due + 3) % 3 == 0
  {
    CountedTotalSplit(Quarterly, amount, due + 1, 2, 1);
    NothingBetweenDueMonths(Quarterly, amount, due, 1, 2);
    QuarterPosition(due + 3, due / 3 + 1, 0);
    assert CountedTotal(Quarterly, amount, due + 3, 1) == amount;
  }

  /** The remainder by 3 is the only one in range. */
  lemma QuarterPosition(x: int, q: int, r: int)
    requires 0 <= r < 3 && x == q * 3 + r
    ensures x % 3 == r
  {
  }

  /** A year after a yearly due month pays the recurring amount once, in its last month. */
  lemma YearCycle(amount: real, due: nat)
    requires due % 12 == 0
    ensures CountedTotal(Yearly, amount, due + 1, 12) == amount
    ensures (due + 12) % 12 == 0
  {
    CountedTotalSplit(Yearly, amount, due + 1, 11, 1);
    NothingBetweenDueMonths(Yearly, amount, due, 1, 11);
    DivModUnique(due + 12, due / 12 + 1, 0);
    assert CountedTotal(Yearly, amount, due + 12, 1) == amount;
  }

  /** A whole cycle of a cadence, from just after one due month to the next, pays the recurring amount once. */
  lemma OneCycle(frequency: PrepaymentFrequency, amount: real, due: nat)
    requires DueMonth(frequency, due)
    ensures CountedTotal(frequency, amount, due + 1, CadenceMonths(frequency)) == amount
    ensures DueMonth(frequency, due + CadenceMonths(frequency))
  {
    match frequency {
      case Monthly =>
        assert CountedTotal(frequency, amount, due + 2, 0) == 0.0;
      case Quarterly =>
        QuarterCycle(amount, due);
      case Yearly =>
        YearCycle(amount, due);
    }
  }

  /** The months of `c` whole cycles of a cadence, counted cycle by cycle. */
  function CycleMonths(frequency: PrepaymentFrequency, c: nat): nat {
    if c == 0 then 0 else CadenceMonths(frequency) + CycleMonths(frequency, c - 1)
  }

  lemma {:induction false} CycleMonthsProduct(frequency: PrepaymentFrequency, c: nat)
    ensures CycleMonths(frequency, c) == CadenceMonths(frequency) * c
  {
    if c > 0 {
      CycleMonthsProduct(frequency, c - 1);
    }
  }

  /** `amount` added up `c` times. */
  function Repeated(amount: real, c: nat): real {
    if c == 0 then 0.0 else amount + Repeated(amount, c - 1)
  }

  lemma {:induction false} RepeatedProduct(amount: real, c: nat)
    ensures Repeated(amount, c) == c as real * amount
  {
    if c > 0 {
      RepeatedProduct(amount, c - 1);
      assert amount + (c - 1) as real * amount == c as real * amount;
    }
  }

  /** Cycle by cycle, `c` whole cycles after a due month pay the recurring amount `c` times. */
  lemma {:induction false} CyclesPay(frequency: PrepaymentFrequency, amount: real, due: nat, c: nat)
    requires DueMonth(frequency, due)
    ensures CountedTotal(frequency, amount, due + 1, CycleMonths(frequency, c)) == Repeated(amount, c)
    decreases c
  {
    if c > 0 {
      var p := CadenceMonths(frequency);
      var rest := CycleMonths(frequency, c - 1);
      OneCycle(frequency, amount, due);
      CyclesPay(frequency, amount, due + p, c - 1);
      CountedTotalSplit(frequency, amount, due + 1, p, rest);
      assert due + 1 + p == due + p + 1;
    }
  }

  /**
   * The cadences counted in months pay the recurring amount once a cycle:
   * over `c` whole cycles after a due month (`c` months for `monthly`,
   * `3 * c` for `quarterly`, `12 * c` for `yearly`) the recurring extras
   * total `c` times the amount.
   */
  lemma RecurringOverCycles(frequency: PrepaymentFrequency, amount: real, due: nat, c: nat)
    requires DueMonth(frequency, due)
    ensures CountedTotal(frequency, amount, due + 1, CadenceMonths(frequency) * c) == c as real * amount
  {
    CyclesPay(frequency, amount, due, c);
    CycleMonthsProduct(frequency, c);
    RepeatedProduct(amount, c);
  }

  /** For every cadence but the daily one, the recurring extra of a month is the one counted in months. */
  lemma CountedCadences(plan: PrepaymentPlan, month: nat, date: YearMonth)
    requires plan.frequency != Daily
    ensures RecurringExtra(plan, month, date) == CountedExtra(plan.frequency, plan.recurringAmount, month)
  {
  }

  /** Adding `amount` up `a + b` times is adding it `a` times and then `b` times. */
  lemma {:induction false} RepeatedAdd(amount: real, a: nat, b: nat)
    ensures Repeated(amount, a + b) == Repeated(amount, a) + Repeated(amount, b)
    decreases b
  {
    if b > 0 {
      RepeatedAdd(amount, a, b - 1);
    }
  }

  /** `f(first) + f(first + 1) + ...`, over `count` loan months. */
  function TotalOver(f: nat -> real, first: nat, count: nat): real
    decreases count
  {
    if count == 0 then 0.0 else f(first) + TotalOver(f, first + 1, count - 1)
  }

  /** `g(first) + g(first + 1) + ...`, over `count` loan months. */
  function CountOver(g: nat -> nat, first: nat, count: nat): nat
    decreases count
  {
    if count == 0 then 0 else g(first) + CountOver(g, first + 1, count - 1)
  }

  /** The recurring extra of every loan month of a loan that starts in `start`. */
  function RecurringExtras(plan: PrepaymentPlan, start: YearMonth): nat -> real {
    (m: nat) => RecurringExtra(plan, m, AddMonths(start, m))
  }

  /** The number of days of the calendar month in which each loan month falls. */
  function LoanMonthDays(start: YearMonth): nat -> nat {
    m => DaysInMonth(AddMonths(start, m))
  }

  /** Month amounts that are each a whole number of `amount`s add up to that many `amount`s in total. */
  lemma {:induction false} RepeatedTotal(f: nat -> real, g: nat -> nat, amount: real, first: nat, count: nat)
    requires forall i :: first <= i < first + count ==> f(i) == Repeated(amount, g(i))
    ensures TotalOver(f, first, count) == Repeated(amount, CountOver(g, first, count))
    decreases count
  {
    if count > 0 {
      RepeatedTotal(f, g, amount, first + 1, count - 1);
      RepeatedAdd(amount, g(first), CountOver(g, first + 1, count - 1));
    }
  }

  /** Consecutive loan months fall in consecutive calendar months. */
  lemma {:induction false} LoanMonthsAreCalendarMonths(start: YearMonth, first: nat, count: nat)
    ensures CountOver(LoanMonthDays(start), first, count) == DaysInMonths(AddMonths(start, first), count)
    decreases count
  {
    if count > 0 {
      LoanMonthsAreCalendarMonths(start, first + 1, count - 1);
      assert AddMonths(start, first + 1) == AddMonths(AddMonths(start, first), 1);
    }
  }

  /**
   * The daily cadence pays the recurring amount once for every calendar day:
   * over `count` consecutive loan months the recurring extras add up to the
   * amount taken once per day of the calendar months they fall in.
   */
  lemma DailyPaysEveryDay(plan: PrepaymentPlan, first: nat, count: nat, start: YearMonth)
    requires plan.frequency == Daily
    ensures TotalOver(RecurringExtras(plan, start), first, count)
            == Repeated(plan.recurringAmount, DaysInMonths(AddMonths(start, first), count))
  {
    forall i | first <= i < first + count
      ensures RecurringExtras(plan, start)(i) == Repeated(plan.recurringAmount, LoanMonthDays(start)(i))
    {
      RepeatedProduct(plan.recurringAmount, LoanMonthDays(start)(i));
    }
    RepeatedTotal(RecurringExtras(plan, start), LoanMonthDays(start), plan.recurringAmount, first, count);
    LoanMonthsAreCalendarMonths(start, first, count);
  }

  /**
   * Over the twelve loan months that fall in January to December of one
   * year, the daily cadence pays the recurring amount 366 times in a leap
   * year and 365 times otherwise.
   */
  lemma DailyOverCalendarYear(plan: PrepaymentPlan, first: nat, start: YearMonth, year: int)
    requires plan.frequency == Daily && AddMonths(start, first) == MakeYearMonth(year, 0)
    ensures TotalOver(RecurringExtras(plan, start), first, 12)
            == plan.recurringAmount * (if IsLeapYear(year) then 366.0 else 365.0)
  {
    DailyPaysEveryDay(plan, first, 12, start);
    DaysInCalendarYear(year);
    ScaleYear(plan.recurringAmount, TotalOver(RecurringExtras(plan, start), first, 12),
              DaysInMonths(MakeYearMonth(year, 0), 12), IsLeapYear(year));
  }

  lemma ScaleYear(amount: real, total: real, days: nat, leap: bool)
    requires total == Repeated(amount, days) && days == (if leap then 366 else 365)
    ensures total == amount * (if leap then 366.0 else 365.0)
  {
    RepeatedProduct(amount, days);
  }
}
