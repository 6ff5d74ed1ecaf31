/**
 * Properties shared by the schedules: the loop bound, row numbering, the
 * split of each payment, and column totals.
 */
module Schedules {
  import opened Calendar
  import opened FinanceTypes

  /** How many more passes a loop `step <= bound`, counting up from `step`, makes. */
  function StepsLeft(step: nat, bound: real): nat {
    if step as real > bound then 0 else (bound - step as real).Floor + 1
  }

  lemma StepsLeftDecreases(step: nat, bound: real)
    requires step as real <= bound
    ensures StepsLeft(step + 1, bound) < StepsLeft(step, bound)
  {
  }

  /** The balance owed before row `i` is paid: the opening balance, then each row's closing balance. */
  function BalanceBefore(rows: seq<AmortizationRow>, opening: real, i: nat): real
    requires i <= |rows|
  {
    if i == 0 then opening else rows[i - 1].balance
  }

  /** The balance owed after the last row. */
  function ClosingBalance(rows: seq<AmortizationRow>, opening: real): real {
    BalanceBefore(rows, opening, |rows|)
  }

  /** Rows are numbered consecutively from `first`, each dated that many months after `start`. */
  ghost predicate Numbered(rows: seq<AmortizationRow>, first: nat, start: YearMonth) {
    forall i :: 0 <= i < |rows| ==> rows[i].month == first + i && rows[i].date == AddMonths(start, first + i)
  }

  /**
   * A row that starts from `before` charges interest at `r` on it, pays
   * principal plus interest, reduces the balance by exactly the principal it
   * pays, and leaves a balance that is not negative.
   */
  predicate RowAmortizes(row: AmortizationRow, before: real, r: real) {
    row.interest == before * r &&
    row.payment == row.principal + row.interest &&
    row.principal == before - row.balance &&
    row.balance >= 0.0
  }

  /** Every row amortizes the balance it starts from: `opening`, then the balance the row before left. */
  ghost predicate Amortizes(rows: seq<AmortizationRow>, opening: real, r: real)
    decreases |rows|
  {
    rows == [] || (RowAmortizes(rows[0], opening, r) && Amortizes(rows[1..], rows[0].balance, r))
  }

  /** Only the last row may leave a zero balance. */
  ghost predicate StopsAtFirstZero(rows: seq<AmortizationRow>) {
    forall i :: 0 <= i < |rows| - 1 ==> rows[i].balance > 0.0
  }

  /** No row carries an extra payment. */
  ghost predicate NoExtraPayments(rows: seq<AmortizationRow>) {
    forall i :: 0 <= i < |rows| ==> rows[i].extraPayment == 0.0
  }

  /** No row leaves more owed than it started from. */
  ghost predicate BalancesNonIncreasing(rows: seq<AmortizationRow>, opening: real)
    decreases |rows|
  {
    rows == [] || (rows[0].balance <= opening && BalancesNonIncreasing(rows[1..], rows[0].balance))
  }

  /** A row that amortizes `opening`, put before rows that amortize its closing balance, keeps the schedule amortizing. */
  lemma AmortizesCons(row: AmortizationRow, rest: seq<AmortizationRow>, opening: real, r: real)
    requires RowAmortizes(row, opening, r) && Amortizes(rest, row.balance, r)
    ensures Amortizes([row] + rest, opening, r)
  {
    assert ([row] + rest)[1..] == rest;
  }

  /** A row with something left owed, put before rows that stop at their first zero balance, keeps that property. */
  lemma StopsAtFirstZeroCons(row: AmortizationRow, rest: seq<AmortizationRow>)
    requires rest != [] ==> row.balance > 0.0
    requires StopsAtFirstZero(rest)
    ensures StopsAtFirstZero([row] + rest)
  {
  }

  lemma NoExtraPaymentsCons(row: AmortizationRow, rest: seq<AmortizationRow>)
    requires row.extraPayment == 0.0 && NoExtraPayments(rest)
    ensures NoExtraPayments([row] + rest)
  {
  }

  lemma BalancesNonIncreasingCons(row: AmortizationRow, rest: seq<AmortizationRow>, opening: real)
    requires row.balance <= opening && BalancesNonIncreasing(rest, row.balance)
    ensures BalancesNonIncreasing([row] + rest, opening)
  {
    assert ([row] + rest)[1..] == rest;
  }

  /** A row put before more rows leaves owing what those rows leave owing from its closing balance. */
  lemma ClosingBalanceCons(row: AmortizationRow, rest: seq<AmortizationRow>, opening: real)
    ensures ClosingBalance([row] + rest, opening) == ClosingBalance(rest, row.balance)
  {
    if rest != [] {
      assert ([row] + rest)[|rest|] == rest[|rest| - 1];
    }
  }

  function TotalPrincipal(rows: seq<AmortizationRow>): real {
    if rows == [] then 0.0 else rows[0].principal + TotalPrincipal(rows[1..])
  }

  function TotalInterest(rows: seq<AmortizationRow>): real {
    if rows == [] then 0.0 else rows[0].interest + TotalInterest(rows[1..])
  }

  function TotalPayment(rows: seq<AmortizationRow>): real {
    if rows == [] then 0.0 else rows[0].payment + TotalPayment(rows[1..])
  }

  /**
   * Telescoping: the principal paid over amortizing rows is the opening
   * balance less the closing one.
   */
  lemma {:induction false} PrincipalTelescopes(rows: seq<AmortizationRow>, opening: real, r: real)
    requires Amortizes(rows, opening, r)
    ensures TotalPrincipal(rows) == opening - ClosingBalance(rows, opening)
    decreases |rows|
  {
    if rows != [] {
      var rest := rows[1..];
      PrincipalTelescopes(rest, rows[0].balance, r);
      assert ClosingBalance(rest, rows[0].balance) == ClosingBalance(rows, opening);
    }
  }

  /** What amortizing rows pay is the principal and the interest they pay. */
  lemma {:induction false} PaymentsSplit(rows: seq<AmortizationRow>, opening: real, r: real)
    requires Amortizes(rows, opening, r)
    ensures TotalPayment(rows) == TotalPrincipal(rows) + TotalInterest(rows)
    decreases |rows|
  {
    if rows != [] {
      PaymentsSplit(rows[1..], rows[0].balance, r);
    }
  }

  /** Rows that all pay the same instalment pay that instalment times their number. */
  lemma {:induction false} ConstantPaymentsTotal(rows: seq<AmortizationRow>, emi: real)
    requires forall i :: 0 <= i < |rows| ==> rows[i].payment == emi
    ensures TotalPayment(rows) == |rows| as real * emi
  {
    if rows != [] {
      ConstantPaymentsTotal(rows[1..], emi);
      var m := (|rows| - 1) as real;
      assert (m + 1.0) * emi == emi + m * emi;
    }
  }

  /**
   * A schedule that amortizes `opening` down to nothing, paying `emi` every
   * row, repays exactly `opening` of principal and pays `emi` per row in
   * total; the rest of what it pays is interest.
   */
  lemma RepaidScheduleTotals(rows: seq<AmortizationRow>, opening: real, r: real, emi: real)
    requires Amortizes(rows, opening, r) && ClosingBalance(rows, opening) == 0.0
    requires forall i :: 0 <= i < |rows| ==> rows[i].payment == emi
    ensures TotalPrincipal(rows) == opening
    ensures TotalPayment(rows) == |rows| as real * emi
    ensures TotalInterest(rows) == |rows| as real * emi - opening
  {
    PrincipalTelescopes(rows, opening, r);
    PaymentsSplit(rows, opening, r);
    ConstantPaymentsTotal(rows, emi);
  }

  /** Appending a row adds its interest to the running total. */
  lemma {:induction false} TotalInterestAppend(rows: seq<AmortizationRow>, row: AmortizationRow)
    ensures TotalInterest(rows + [row]) == TotalInterest(rows) + row.interest
  {
    if rows != [] {
      assert (rows + [row])[1..] == rows[1..] + [row];
      TotalInterestAppend(rows[1..], row);
    }
  }

  /** The interest column summed from the last row back, as a running total grows. */
  function InterestSoFar(rows: seq<AmortizationRow>): real {
    if rows == [] then 0.0 else InterestSoFar(rows[..|rows| - 1]) + rows[|rows| - 1].interest
  }

  /** The running total and the column total agree. */
  lemma {:induction false} InterestSoFarIsTotal(rows: seq<AmortizationRow>)
    ensures InterestSoFar(rows) == TotalInterest(rows)
    decreases |rows|
  {
    if rows != [] {
      var init := rows[..|rows| - 1];
      var last := rows[|rows| - 1];
      InterestSoFarIsTotal(init);
      assert rows == init + [last];
      TotalInterestAppend(init, last);
    }
  }
}
