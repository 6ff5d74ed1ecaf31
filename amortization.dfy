/**
 * The standard loan schedule (`calculateAmortizationSchedule`): month by
 * month, the instalment pays the month's interest and the rest reduces the
 * balance, until the balance is repaid or the tenure runs out.
 */
module Amortization {
  import opened Powers
  import opened Calendar
  import opened FinanceTypes
  import opened Schedules
  import opened Loan

  /**
   * The row for `month`, starting from `balance`: the principal part is the
   * instalment less the interest, cut to the balance when it would overshoot
   * it or when `month` is the last month of the tenure.
   */
  function StandardRow(balance: real, month: nat, tenureMonths: real, r: real, emi: real, start: YearMonth): AmortizationRow {
    var interest := balance * r;
    var principalPayment :=
      if emi - interest > balance || month as real == tenureMonths then balance else emi - interest;
    var remaining := if balance - principalPayment < 0.0 then 0.0 else balance - principalPayment;
    AmortizationRow(month, AddMonths(start, month), principalPayment + interest, principalPayment, interest, remaining, 0.0)
  }

  /** The rows from `month` on, stopping after the first row that leaves nothing owed. */
  function StandardRowsFrom(balance: real, month: nat, tenureMonths: real, r: real, emi: real, start: YearMonth): seq<AmortizationRow>
    decreases StepsLeft(month, tenureMonths)
  {
    if month as real > tenureMonths then
      []
    else
      var row := StandardRow(balance, month, tenureMonths, r, emi, start);
      if row.balance <= 0.0 then [row]
      else [row] + StandardRowsFrom(row.balance, month + 1, tenureMonths, r, emi, start)
  }

  /** The schedule `calculateAmortizationSchedule` returns. */
  function AmortizationSchedule(principal: real, annualRate: real, tenureYears: real, emi: real, start: YearMonth): seq<AmortizationRow> {
    if principal <= 0.0 || annualRate <= 0.0 || tenureYears <= 0.0 || emi <= 0.0 then []
    else StandardRowsFrom(principal, 1, tenureYears * 12.0, MonthlyRate(annualRate), emi, start)
  }

  /**
   * `calculateAmortizationSchedule`: the month-by-month schedule for a loan
   * repaid by a fixed instalment `emi`.
   */
  method CalculateAmortizationSchedule(principal: real, annualRate: real, tenureYears: real, emi: real, start: YearMonth)
    returns (schedule: seq<AmortizationRow>)
    ensures schedule == AmortizationSchedule(principal, annualRate, tenureYears, emi, start)
  {
    if principal <= 0.0 || annualRate <= 0.0 || tenureYears <= 0.0 || emi <= 0.0 {
      return [];
    }
    var monthlyRate := MonthlyRate(annualRate);
    schedule := [];
    var balance := principal;
    var month := 1;
    while month as real <= tenureYears * 12.0
      invariant month >= 1
      invariant schedule + StandardRowsFrom(balance, month, tenureYears * 12.0, monthlyRate, emi, start)
                == AmortizationSchedule(principal, annualRate, tenureYears, emi, start)
      decreases StepsLeft(month, tenureYears * 12.0)
    {
      var interest := balance * monthlyRate;
      var principalPayment := emi - interest;
      if principalPayment > balance || month as real == tenureYears * 12.0 {
        principalPayment := balance;
      }
      ghost var before := balance;
      balance := balance - principalPayment;
      if balance < 0.0 {
        balance := 0.0;
      }
      var row := AmortizationRow(month, AddMonths(start, month), principalPayment + interest, principalPayment, interest, balance, 0.0);
      assert row == StandardRow(before, month, tenureYears * 12.0, monthlyRate, emi, start);
      schedule := schedule + [row];
      if balance <= 0.0 {
        break;
      }
      month := month + 1;
    }
  }

  /** One row of the standard schedule amortizes: it pays principal plus interest and never overpays. */
  lemma StandardRowAmortizes(balance: real, month: nat, tenureMonths: real, r: real, emi: real, start: YearMonth)
    requires balance >= 0.0
    ensures var row := StandardRow(balance, month, tenureMonths, r, emi, start);
            row.month == month && row.date == AddMonths(start, month) &&
            row.interest == balance * r && row.payment == row.principal + row.interest &&
            row.principal == balance - row.balance && row.balance >= 0.0 && row.extraPayment == 0.0 &&
            (month as real == tenureMonths ==> row.balance == 0.0)
  {
  }

  /**
   * The rows from `month` on are numbered consecutively from `month`, fit in
   * the tenure, and exist exactly when `month` is within it.
   */
  lemma {:induction false} StandardRowsNumbered(balance: real, month: nat, tenureMonths: real, r: real, emi: real, start: YearMonth)
    ensures var rows := StandardRowsFrom(balance, month, tenureMonths, r, emi, start);
            (rows == [] <==> month as real > tenureMonths) &&
            Numbered(rows, month, start) &&
            (rows != [] ==> (month + |rows| - 1) as real <= tenureMonths)
    decreases StepsLeft(month, tenureMonths)
  {
    if month as real <= tenureMonths {
      var row := StandardRow(balance, month, tenureMonths, r, emi, start);
      if row.balance > 0.0 {
        StepsLeftDecreases(month, tenureMonths);
        StandardRowsNumbered(row.balance, month + 1, tenureMonths, r, emi, start);
      }
    }
  }

  /**
   * Every row from `month` on pays principal plus interest, reduces the
   * balance by the principal it pays, never leaves it negative, carries no
   * extra payment, and only the last row may leave nothing owed.
   */
  lemma {:induction false} StandardRowsAmortize(balance: real, month: nat, tenureMonths: real, r: real, emi: real, start: YearMonth)
    requires balance >= 0.0
    ensures var rows := StandardRowsFrom(balance, month, tenureMonths, r, emi, start);
            Amortizes(rows, balance, r) && StopsAtFirstZero(rows) && NoExtraPayments(rows)
    decreases StepsLeft(month, tenureMonths)
  {
    if month as real <= tenureMonths {
      var row := StandardRow(balance, month, tenureMonths, r, emi, start);
      StandardRowAmortizes(balance, month, tenureMonths, r, emi, start);
      var rest := if row.balance <= 0.0 then [] else StandardRowsFrom(row.balance, month + 1, tenureMonths, r, emi, start);
      if row.balance > 0.0 {
        StepsLeftDecreases(month, tenureMonths);
        StandardRowsAmortize(row.balance, month + 1, tenureMonths, r, emi, start);
      }
      assert StandardRowsFrom(balance, month, tenureMonths, r, emi, start) == [row] + rest;
      AmortizesCons(row, rest, balance, r);
      StopsAtFirstZeroCons(row, rest);
      NoExtraPaymentsCons(row, rest);
    }
  }

  /**
   * When the tenure is a whole number of months, the final-month clamp makes
   * the schedule end with nothing owed.
   */
  lemma {:induction false} StandardRowsRepay(balance: real, month: nat, tenureMonths: real, r: real, emi: real, start: YearMonth)
    requires balance >= 0.0 && IsNatural(tenureMonths) && month as real <= tenureMonths
    ensures var rows := StandardRowsFrom(balance, month, tenureMonths, r, emi, start);
            rows != [] && rows[|rows| - 1].balance == 0.0
    decreases StepsLeft(month, tenureMonths)
  {
    var row := StandardRow(balance, month, tenureMonths, r, emi, start);
    StandardRowAmortizes(balance, month, tenureMonths, r, emi, start);
    if row.balance > 0.0 {
      assert month as real != tenureMonths;
      NaturalSuccessorWithin(month, tenureMonths);
      StepsLeftDecreases(month, tenureMonths);
      StandardRowsRepay(row.balance, month + 1, tenureMonths, r, emi, start);
    }
  }

  /** An instalment that covers the interest on a balance covers it on any smaller balance. */
  lemma CoveredInterestShrinks(balance: real, smaller: real, r: real, emi: real)
    requires 0.0 <= smaller <= balance && r >= 0.0 && emi >= balance * r
    ensures emi >= smaller * r
  {
    var d := balance - smaller;
    assert balance * r - smaller * r == d * r;
  }

  /**
   * When the instalment covers the interest on the opening balance, every
   * row's balance is at most the one before it.
   */
  lemma {:induction false} StandardRowsNonIncreasing(balance: real, month: nat, tenureMonths: real, r: real, emi: real, start: YearMonth)
    requires balance >= 0.0 && r >= 0.0 && emi >= balance * r
    ensures BalancesNonIncreasing(StandardRowsFrom(balance, month, tenureMonths, r, emi, start), balance)
    decreases StepsLeft(month, tenureMonths)
  {
    if month as real <= tenureMonths {
      var row := StandardRow(balance, month, tenureMonths, r, emi, start);
      StandardRowAmortizes(balance, month, tenureMonths, r, emi, start);
      var rest := if row.balance <= 0.0 then [] else StandardRowsFrom(row.balance, month + 1, tenureMonths, r, emi, start);
      if row.balance > 0.0 {
        CoveredInterestShrinks(balance, row.balance, r, emi);
        StepsLeftDecreases(month, tenureMonths);
        StandardRowsNonIncreasing(row.balance, month + 1, tenureMonths, r, emi, start);
      }
      assert StandardRowsFrom(balance, month, tenureMonths, r, emi, start) == [row] + rest;
      BalancesNonIncreasingCons(row, rest, balance);
    }
  }

  /**
   * A row whose opening balance is owed under the recurrence `Owed` closes on
   * the next balance of that recurrence and pays exactly the instalment, as
   * long as that next balance is positive or the row is the last month.
   */
  lemma StandardRowFollowsOwed(balance: real, month: nat, tenureMonths: real, r: real, emi: real, start: YearMonth, next: real)
    requires balance >= 0.0 && next == balance * (1.0 + r) - emi
    ensures var row := StandardRow(balance, month, tenureMonths, r, emi, start);
            (month as real != tenureMonths && next > 0.0 ==> row.balance == next && row.payment == emi) &&
            (month as real == tenureMonths && next == 0.0 ==> row.balance == 0.0 && row.payment == emi)
  {
    var interest := balance * r;
    assert balance * (1.0 + r) == balance + interest;
  }

  /**
   * From month `k + 1` on, when the recurrence `Owed` stays positive for the
   * first `n - 1` months and reaches 0 at month `n`, the standard schedule
   * follows it: it has `n - k` rows, each pays the instalment, and the last
   * leaves nothing owed.
   */
  lemma {:induction false} StandardRowsFollowOwed(principal: real, r: real, emi: real, n: nat, k: nat, start: YearMonth)
    requires k < n && Owed(principal, r, emi, n) == 0.0
    requires forall j :: 0 <= j < n ==> Owed(principal, r, emi, j) > 0.0
    ensures var rows := StandardRowsFrom(Owed(principal, r, emi, k), k + 1, n as real, r, emi, start);
            |rows| == n - k && rows[|rows| - 1].balance == 0.0
    ensures var rows := StandardRowsFrom(Owed(principal, r, emi, k), k + 1, n as real, r, emi, start);
            forall i :: 0 <= i < |rows| ==> rows[i].payment == emi
    decreases n - k
  {
    var balance := Owed(principal, r, emi, k);
    var next := Owed(principal, r, emi, k + 1);
    assert balance > 0.0;
    StandardRowFollowsOwed(balance, k + 1, n as real, r, emi, start, next);
    var row := StandardRow(balance, k + 1, n as real, r, emi, start);
    if k + 1 < n {
      assert next > 0.0;
      assert row.balance == next;
      StandardRowsFollowOwed(principal, r, emi, n, k + 1, start);
      var rest := StandardRowsFrom(next, k + 2, n as real, r, emi, start);
      var rows := [row] + rest;
      assert StandardRowsFrom(balance, k + 1, n as real, r, emi, start) == rows;
      assert rows[|rows| - 1] == rest[|rest| - 1];
      forall i | 1 <= i < |rows|
        ensures rows[i].payment == emi
      {
        assert rows[i] == rest[i - 1];
      }
    } else {
      assert row.balance == 0.0;
      assert StandardRowsFrom(balance, k + 1, n as real, r, emi, start) == [row];
    }
  }

  /** The instalment `calculateEMI` gives for `n` whole months keeps `Owed` positive until month `n`, where it reaches 0. */
  lemma OwedUnderEmi(realPow: (real, real) -> real, principal: real, annualRate: real, n: nat)
    requires PowAboveOne(realPow)
    requires principal > 0.0 && annualRate > 0.0 && n >= 1
    ensures var emi := CalculateEmi(realPow, principal, annualRate, n as real / 12.0).emi;
            Owed(principal, MonthlyRate(annualRate), emi, n) == 0.0 &&
            forall j :: 0 <= j < n ==> Owed(principal, MonthlyRate(annualRate), emi, j) > 0.0
  {
    var r := MonthlyRate(annualRate);
    var emi := CalculateEmi(realPow, principal, annualRate, n as real / 12.0).emi;
    EmiRepaysInTenure(realPow, principal, annualRate, n, n);
    forall j | 0 <= j < n
      ensures Owed(principal, r, emi, j) > 0.0
    {
      EmiRepaysInTenure(realPow, principal, annualRate, n, j);
    }
  }

  /**
   * For a whole number `n` of months, the schedule under the instalment
   * `calculateEMI` gives has exactly `n` rows, repays the loan in the last
   * one, pays the instalment every month, and its principal and interest
   * columns add up to the principal and to `calculateEMI`'s total interest.
   */
  lemma StandardScheduleRepaysOnTime(realPow: (real, real) -> real, principal: real, annualRate: real, n: nat, start: YearMonth)
    requires PowAboveOne(realPow)
    requires principal > 0.0 && annualRate > 0.0 && n >= 1
    ensures var details := CalculateEmi(realPow, principal, annualRate, n as real / 12.0);
            var rows := AmortizationSchedule(principal, annualRate, n as real / 12.0, details.emi, start);
            |rows| == n && rows[n - 1].balance == 0.0 &&
            (forall i :: 0 <= i < n ==> rows[i].payment == details.emi) &&
            TotalPrincipal(rows) == principal &&
            TotalPayment(rows) == details.totalPayment &&
            TotalInterest(rows) == details.totalInterest
  {
    var r := MonthlyRate(annualRate);
    var emi := CalculateEmi(realPow, principal, annualRate, n as real / 12.0).emi;
    assert n as real / 12.0 * 12.0 == n as real;
    OwedUnderEmi(realPow, principal, annualRate, n);
    EmiTotalsForWholeMonths(realPow, principal, annualRate, n);
    StandardRowsUnderRepayingEmi(principal, r, emi, n, start);
  }

  /**
   * The standard schedule over `n` whole months, under an instalment that
   * the recurrence `Owed` shows repays the loan in exactly `n` months.
   */
  lemma StandardRowsUnderRepayingEmi(principal: real, r: real, emi: real, n: nat, start: YearMonth)
    requires n >= 1 && Owed(principal, r, emi, n) == 0.0
    requires forall j :: 0 <= j < n ==> Owed(principal, r, emi, j) > 0.0
    ensures var rows := StandardRowsFrom(principal, 1, n as real, r, emi, start);
            |rows| == n && rows[n - 1].balance == 0.0
    ensures var rows := StandardRowsFrom(principal, 1, n as real, r, emi, start);
            forall i :: 0 <= i < |rows| ==> rows[i].payment == emi
    ensures TotalPrincipal(StandardRowsFrom(principal, 1, n as real, r, emi, start)) == principal
    ensures TotalPayment(StandardRowsFrom(principal, 1, n as real, r, emi, start)) == n as real * emi
    ensures TotalInterest(StandardRowsFrom(principal, 1, n as real, r, emi, start)) == n as real * emi - principal
  {
    assert Owed(principal, r, emi, 0) == principal;
    StandardRowsFollowOwed(principal, r, emi, n, 0, start);
    StandardRowsAmortize(principal, 1, n as real, r, emi, start);
    var rows := StandardRowsFrom(principal, 1, n as real, r, emi, start);
    assert |rows| == n;
    assert |rows| as real == n as real;
    RepaidScheduleTotals(rows, principal, r, emi);
  }

  /** For `n` whole months, `calculateEMI`'s total payment is `n` instalments. */
  lemma EmiTotalsForWholeMonths(realPow: (real, real) -> real, principal: real, annualRate: real, n: nat)
    requires PowAboveOne(realPow)
    requires principal > 0.0 && annualRate > 0.0 && n >= 1
    ensures var details := CalculateEmi(realPow, principal, annualRate, n as real / 12.0);
            details.totalPayment == n as real * details.emi &&
            details.totalInterest == n as real * details.emi - principal
  {
    var months := n as real / 12.0 * 12.0;
    assert months == n as real;
  }

  /**
   * The schedule `calculateAmortizationSchedule` returns: empty on a
   * non-positive input; otherwise rows numbered 1, 2, ... dated that many
   * months after the start, at most the tenure in months of them, each
   * amortizing the balance it starts from with no extra payment, stopping at
   * the first zero balance, with a principal column that adds up to what
   * was repaid.  A whole number of months ends with nothing owed.
   */
  lemma AmortizationScheduleShape(principal: real, annualRate: real, tenureYears: real, emi: real, start: YearMonth)
    ensures var rows := AmortizationSchedule(principal, annualRate, tenureYears, emi, start);
            rows == [] <==> principal <= 0.0 || annualRate <= 0.0 || tenureYears <= 0.0 || emi <= 0.0 || tenureYears * 12.0 < 1.0
    ensures Numbered(AmortizationSchedule(principal, annualRate, tenureYears, emi, start), 1, start)
    ensures var rows := AmortizationSchedule(principal, annualRate, tenureYears, emi, start);
            rows != [] ==> |rows| as real <= tenureYears * 12.0
    ensures Amortizes(AmortizationSchedule(principal, annualRate, tenureYears, emi, start), principal, MonthlyRate(annualRate))
    ensures StopsAtFirstZero(AmortizationSchedule(principal, annualRate, tenureYears, emi, start))
    ensures NoExtraPayments(AmortizationSchedule(principal, annualRate, tenureYears, emi, start))
    ensures var rows := AmortizationSchedule(principal, annualRate, tenureYears, emi, start);
            TotalPrincipal(rows) == principal - ClosingBalance(rows, principal)
    ensures var rows := AmortizationSchedule(principal, annualRate, tenureYears, emi, start);
            rows != [] && IsNatural(tenureYears * 12.0) ==> ClosingBalance(rows, principal) == 0.0
  {
    if principal > 0.0 && annualRate > 0.0 && tenureYears > 0.0 && emi > 0.0 {
      var r := MonthlyRate(annualRate);
      var months := tenureYears * 12.0;
      var rows := AmortizationSchedule(principal, annualRate, tenureYears, emi, start);
      StandardRowsNumbered(principal, 1, months, r, emi, start);
      assert Numbered(rows, 1, start);
      assert |rows| as real <= months;
      StandardRowsAmortize(principal, 1, months, r, emi, start);
      PrincipalTelescopes(rows, principal, r);
      if rows != [] && IsNatural(months) {
        StandardRowsRepay(principal, 1, months, r, emi, start);
      }
    } else {
      assert AmortizationSchedule(principal, annualRate, tenureYears, emi, start) == [];
    }
  }

  /** An instalment that covers the first month's interest never lets a balance of the schedule grow. */
  lemma AmortizationScheduleNonIncreasing(principal: real, annualRate: real, tenureYears: real, emi: real, start: YearMonth)
    requires emi >= principal * MonthlyRate(annualRate)
    ensures BalancesNonIncreasing(AmortizationSchedule(principal, annualRate, tenureYears, emi, start), principal)
  {
    if principal > 0.0 && annualRate > 0.0 && tenureYears > 0.0 && emi > 0.0 {
      var r := MonthlyRate(annualRate);
      assert r > 0.0;
      StandardRowsNonIncreasing(principal, 1, tenureYears * 12.0, r, emi, start);
    } else {
      assert AmortizationSchedule(principal, annualRate, tenureYears, emi, start) == [];
    }
  }
}
