/**
 * Deposits (`calculateCompoundInterest`, `calculateCompoundInterestSchedule`):
 * a cumulative deposit compounds its interest until maturity; a deposit with
 * payouts earns simple interest on the principal, paid out every period.
 */
module Deposit {
  import opened Powers
  import opened Calendar
  import opened FinanceTypes
  import opened Schedules

  /** The inputs for which both deposit calculations return nothing. */
  predicate Degenerate(principal: real, annualRate: real, timeYears: real) {
    principal <= 0.0 || annualRate <= 0.0 || timeYears <= 0.0
  }

  /** The interest rate of one period when there are `perYear` periods a year. */
  function PeriodRate(annualRate: real, perYear: CompoundingFrequency): real {
    annualRate / 100.0 / perYear as real
  }

  /** The period rate, once per period for a year, is the annual rate (as a fraction). */
  lemma PeriodRateScales(annualRate: real, perYear: CompoundingFrequency)
    ensures PeriodRate(annualRate, perYear) * perYear as real * 100.0 == annualRate
  {
  }

  /** A positive annual rate gives a positive period rate. */
  lemma PeriodRatePositive(annualRate: real, perYear: CompoundingFrequency)
    requires annualRate > 0.0
    ensures PeriodRate(annualRate, perYear) > 0.0
  {
    var rate := PeriodRate(annualRate, perYear);
    PeriodRateScales(annualRate, perYear);
    assert rate * (perYear as real * 100.0) == annualRate;
    PositiveFactor(rate, perYear as real * 100.0);
  }

  /**
   * What a cumulative deposit is worth at maturity: the principal grown by
   * the period rate once per period.
   */
  function MaturityValue(realPow: (real, real) -> real, principal: real, annualRate: real, timeYears: real,
                         compounding: CompoundingFrequency): (value: real)
    ensures IsNatural(timeYears * compounding as real) ==>
              value == principal * Pow(1.0 + PeriodRate(annualRate, compounding), ToNat(timeYears * compounding as real))
  {
    var k := compounding as real;
    assert k * timeYears == timeYears * k;
    principal * MathPow(realPow, 1.0 + PeriodRate(annualRate, compounding), k * timeYears)
  }

  /**
   * A positive principal at a positive rate over a positive term grows:
   * always over a whole number of periods, and otherwise as far as the
   * host's power function keeps a base above 1 above 1.
   */
  lemma MaturityValueExceedsPrincipal(realPow: (real, real) -> real, principal: real, annualRate: real,
                                      timeYears: real, compounding: CompoundingFrequency)
    requires principal > 0.0 && annualRate > 0.0 && timeYears > 0.0
    ensures (IsNatural(timeYears * compounding as real) || PowAboveOne(realPow)) ==>
              MaturityValue(realPow, principal, annualRate, timeYears, compounding) > principal
  {
    var k := compounding as real;
    var exponent := k * timeYears;
    var growth := MathPow(realPow, 1.0 + PeriodRate(annualRate, compounding), exponent);
    assert MaturityValue(realPow, principal, annualRate, timeYears, compounding) == principal * growth;
    if IsNatural(timeYears * k) || PowAboveOne(realPow) {
      assert IsNatural(exponent) || PowAboveOne(realPow) by {
        assert exponent == timeYears * k;
      }
      PeriodRatePositive(annualRate, compounding);
      PositiveTerm(timeYears, compounding);
      assert growth > 1.0;
      ScaleAboveOne(principal, growth);
    }
  }

  /** A positive amount scaled by more than 1 grows. */
  lemma ScaleAboveOne(amount: real, factor: real)
    requires amount > 0.0 && factor > 1.0
    ensures amount * factor > amount
  {
    assert amount * factor - amount == amount * (factor - 1.0);
  }

  /**
   * What a deposit with payouts is worth: the principal plus the simple
   * interest of every payout, which comes to the annual rate on the
   * principal for every year of the term.
   */
  function PayoutValue(principal: real, annualRate: real, timeYears: real, perYear: CompoundingFrequency): (value: real)
    ensures value == principal + principal * annualRate / 100.0 * timeYears
  {
    var periodInterest := principal * PeriodRate(annualRate, perYear);
    var totalPayouts := timeYears * perYear as real;
    SimpleInterestOverTerm(principal, annualRate, timeYears, perYear);
    principal + periodInterest * totalPayouts
  }

  /**
   * `calculateCompoundInterest`: the value of a deposit at maturity and the
   * interest it has earned.  At maturity the interest compounds `compounding`
   * times a year; with payouts it is simple interest, whatever `compounding`
   * says.
   */
  function CalculateCompoundInterest(realPow: (real, real) -> real, principal: real, annualRate: real,
                                     timeYears: real, compounding: CompoundingFrequency,
                                     payout: PayoutFrequency): (d: CompoundInterestDetails)
    ensures Degenerate(principal, annualRate, timeYears) ==> d == CompoundInterestDetails(0.0, 0.0)
    ensures !Degenerate(principal, annualRate, timeYears) ==> d.totalInterest == d.totalAmount - principal
    ensures !Degenerate(principal, annualRate, timeYears) && payout.Periodic? ==>
              d.totalInterest == principal * annualRate / 100.0 * timeYears
    ensures !Degenerate(principal, annualRate, timeYears) && payout == Maturity &&
            (IsNatural(timeYears * compounding as real) || PowAboveOne(realPow)) ==>
              d.totalInterest > 0.0
  {
    if Degenerate(principal, annualRate, timeYears) then
      CompoundInterestDetails(0.0, 0.0)
    else
      var totalAmount :=
        match payout
        case Maturity =>
          (MaturityValueExceedsPrincipal(realPow, principal, annualRate, timeYears, compounding);
           MaturityValue(realPow, principal, annualRate, timeYears, compounding))
        case Periodic(perYear) => PayoutValue(principal, annualRate, timeYears, perYear);
      CompoundInterestDetails(totalAmount, totalAmount - principal)
  }

  /** The simple interest paid out over the term does not depend on how often it is paid. */
  lemma SimpleInterestOverTerm(principal: real, annualRate: real, timeYears: real, perYear: CompoundingFrequency)
    ensures principal * PeriodRate(annualRate, perYear) * (timeYears * perYear as real)
            == principal * annualRate / 100.0 * timeYears
  {
    var n := perYear as real;
    var pr := PeriodRate(annualRate, perYear);
    PeriodRateScales(annualRate, perYear);
    assert pr * n == annualRate / 100.0;
    calc {
      principal * pr * (timeYears * n);
      principal * timeYears * (pr * n);
      principal * timeYears * (annualRate / 100.0);
    }
  }

  /** With payouts, the compounding frequency has no effect. */
  lemma PayoutIgnoresCompounding(realPow: (real, real) -> real, principal: real, annualRate: real,
                                 timeYears: real, k1: CompoundingFrequency, k2: CompoundingFrequency,
                                 perYear: CompoundingFrequency)
    ensures CalculateCompoundInterest(realPow, principal, annualRate, timeYears, k1, Periodic(perYear))
         == CalculateCompoundInterest(realPow, principal, annualRate, timeYears, k2, Periodic(perYear))
  {
  }

  /**
   * The rows of a cumulative deposit from `period` on, the balance standing
   * at `balance`: each period adds its interest to the balance.
   */
  function MaturityRowsFrom(balance: real, period: nat, totalPeriods: real, periodRate: real,
                            monthsPerPeriod: nat, start: YearMonth): seq<CompoundInterestRow>
    decreases StepsLeft(period, totalPeriods)
  {
    if period as real > totalPeriods then
      []
    else
      var interest := balance * periodRate;
      var row := CompoundInterestRow(period, AddMonths(start, period * monthsPerPeriod), interest, balance + interest);
      StepsLeftDecreases(period, totalPeriods);
      [row] + MaturityRowsFrom(balance + interest, period + 1, totalPeriods, periodRate, monthsPerPeriod, start)
  }

  /**
   * The rows of a deposit with payouts from `period` on, `earned` having
   * been paid out so far: each period pays the same interest on the
   * principal.
   */
  function PayoutRowsFrom(principal: real, earned: real, period: nat, totalPeriods: real, periodRate: real,
                          monthsPerPeriod: nat, start: YearMonth): seq<CompoundInterestRow>
    decreases StepsLeft(period, totalPeriods)
  {
    if period as real > totalPeriods then
      []
    else
      var interest := principal * periodRate;
      var row := CompoundInterestRow(period, AddMonths(start, period * monthsPerPeriod), interest,
                                     principal + (earned + interest));
      StepsLeftDecreases(period, totalPeriods);
      [row] + PayoutRowsFrom(principal, earned + interest, period + 1, totalPeriods, periodRate, monthsPerPeriod, start)
  }

  /** The schedule of a cumulative deposit compounding `compounding` times a year. */
  function MaturitySchedule(principal: real, annualRate: real, timeYears: real,
                            compounding: CompoundingFrequency, start: YearMonth): seq<CompoundInterestRow>
  {
    MaturityRowsFrom(principal, 1, timeYears * compounding as real, PeriodRate(annualRate, compounding),
                     MonthsPerPeriod(compounding), start)
  }

  /** The schedule of a deposit paying out `perYear` times a year. */
  function PayoutSchedule(principal: real, annualRate: real, timeYears: real,
                          perYear: CompoundingFrequency, start: YearMonth): seq<CompoundInterestRow>
  {
    PayoutRowsFrom(principal, 0.0, 1, timeYears * perYear as real, PeriodRate(annualRate, perYear),
                   MonthsPerPeriod(perYear), start)
  }

  /** The schedule `calculateCompoundInterestSchedule` returns. */
  function CompoundInterestSchedule(principal: real, annualRate: real, timeYears: real,
                                    compounding: CompoundingFrequency, start: YearMonth,
                                    payout: PayoutFrequency): seq<CompoundInterestRow>
  {
    if Degenerate(principal, annualRate, timeYears) then []
    else
      match payout
      case Maturity => MaturitySchedule(principal, annualRate, timeYears, compounding, start)
      case Periodic(perYear) => PayoutSchedule(principal, annualRate, timeYears, perYear, start)
  }

  /**
   * `calculateCompoundInterestSchedule`: period by period, the interest a
   * deposit earns and what it is worth.
   */
  method CalculateCompoundInterestSchedule(principal: real, annualRate: real, timeYears: real,
                                           compounding: CompoundingFrequency, start: YearMonth,
                                           payout: PayoutFrequency)
    returns (schedule: seq<CompoundInterestRow>)
    ensures schedule == CompoundInterestSchedule(principal, annualRate, timeYears, compounding, start, payout)
  {
    if Degenerate(principal, annualRate, timeYears) {
      return [];
    }
    match payout
    case Maturity =>
      schedule := CumulativeDeposit(principal, annualRate, timeYears, compounding, start);
    case Periodic(perYear) =>
      schedule := PayoutDeposit(principal, annualRate, timeYears, perYear, start);
  }

  /** A cumulative deposit: one row per compounding period. */
  method CumulativeDeposit(principal: real, annualRate: real, timeYears: real, compounding: CompoundingFrequency,
                           start: YearMonth)
    returns (schedule: seq<CompoundInterestRow>)
    ensures schedule == MaturitySchedule(principal, annualRate, timeYears, compounding, start)
  {
    schedule := CompoundingLoop(principal, timeYears * compounding as real,
                                PeriodRate(annualRate, compounding), MonthsPerPeriod(compounding), start);
  }

  /** A deposit with payouts: one row per payout. */
  method PayoutDeposit(principal: real, annualRate: real, timeYears: real, perYear: CompoundingFrequency,
                       start: YearMonth)
    returns (schedule: seq<CompoundInterestRow>)
    ensures schedule == PayoutSchedule(principal, annualRate, timeYears, perYear, start)
  {
    schedule := PayoutLoop(principal, timeYears * perYear as real,
                           PeriodRate(annualRate, perYear), MonthsPerPeriod(perYear), start);
  }

  /** The loop of a cumulative deposit: the interest of each period stays in the deposit. */
  method CompoundingLoop(principal: real, totalPeriods: real, periodRate: real, monthsPerPeriod: nat,
                         start: YearMonth)
    returns (schedule: seq<CompoundInterestRow>)
    ensures schedule == MaturityRowsFrom(principal, 1, totalPeriods, periodRate, monthsPerPeriod, start)
  {
    schedule := [];
    var currentBalance := principal;
    var period: nat := 1;
    while period as real <= totalPeriods
      invariant schedule + MaturityRowsFrom(currentBalance, period, totalPeriods, periodRate, monthsPerPeriod, start)
                == MaturityRowsFrom(principal, 1, totalPeriods, periodRate, monthsPerPeriod, start)
      decreases StepsLeft(period, totalPeriods)
    {
      ghost var rest := MaturityRowsFrom(currentBalance, period, totalPeriods, periodRate, monthsPerPeriod, start);
      var interestEarned := currentBalance * periodRate;
      currentBalance := currentBalance + interestEarned;
      var row := CompoundInterestRow(period, AddMonths(start, period * monthsPerPeriod), interestEarned, currentBalance);
      assert rest == [row] + MaturityRowsFrom(currentBalance, period + 1, totalPeriods, periodRate, monthsPerPeriod, start);
      schedule := schedule + [row];
      StepsLeftDecreases(period, totalPeriods);
      period := period + 1;
    }
  }

  /** The loop of a deposit with payouts: each period pays the same interest on the principal. */
  method PayoutLoop(principal: real, totalPeriods: real, periodRate: real, monthsPerPeriod: nat,
                    start: YearMonth)
    returns (schedule: seq<CompoundInterestRow>)
    ensures schedule == PayoutRowsFrom(principal, 0.0, 1, totalPeriods, periodRate, monthsPerPeriod, start)
  {
    schedule := [];
    var cumulativeInterest := 0.0;
    var period: nat := 1;
    while period as real <= totalPeriods
      invariant schedule + PayoutRowsFrom(principal, cumulativeInterest, period, totalPeriods, periodRate, monthsPerPeriod, start)
                == PayoutRowsFrom(principal, 0.0, 1, totalPeriods, periodRate, monthsPerPeriod, start)
      decreases StepsLeft(period, totalPeriods)
    {
      ghost var rest := PayoutRowsFrom(principal, cumulativeInterest, period, totalPeriods, periodRate, monthsPerPeriod, start);
      var interestEarned := principal * periodRate;
      cumulativeInterest := cumulativeInterest + interestEarned;
      var row := CompoundInterestRow(period, AddMonths(start, period * monthsPerPeriod), interestEarned,
                                     principal + cumulativeInterest);
      assert rest == [row] + PayoutRowsFrom(principal, cumulativeInterest, period + 1, totalPeriods, periodRate, monthsPerPeriod, start);
      schedule := schedule + [row];
      StepsLeftDecreases(period, totalPeriods);
      period := period + 1;
    }
  }

  /** The deposit's worth before row `i`: the principal, then each row's total. */
  function AmountBefore(rows: seq<CompoundInterestRow>, opening: real, i: nat): real
    requires i <= |rows|
  {
    if i == 0 then opening else rows[i - 1].totalAmount
  }

  /**
   * Each row adds exactly the interest it reports to what the deposit was
   * worth: the first row to `opening`, every later row to the row before.
   */
  ghost predicate Accumulates(rows: seq<CompoundInterestRow>, opening: real)
    decreases |rows|
  {
    rows == [] ||
    (rows[0].totalAmount == opening + rows[0].interestEarned && Accumulates(rows[1..], rows[0].totalAmount))
  }

  /** Row `i` is period `first + i`, dated `first + i` periods after the start. */
  ghost predicate PeriodsNumbered(rows: seq<CompoundInterestRow>, first: nat, monthsPerPeriod: nat, start: YearMonth) {
    forall i :: 0 <= i < |rows| ==>
      rows[i].period == first + i && rows[i].date == AddMonths(start, (first + i) * monthsPerPeriod)
  }

  /** The interest column summed. */
  function TotalEarned(rows: seq<CompoundInterestRow>): real {
    if rows == [] then 0.0 else rows[0].interestEarned + TotalEarned(rows[1..])
  }

  /** When every row accumulates its interest, the interest column sums to the growth. */
  lemma {:induction false} EarnedTelescopes(rows: seq<CompoundInterestRow>, opening: real)
    requires Accumulates(rows, opening)
    ensures TotalEarned(rows) == AmountBefore(rows, opening, |rows|) - opening
  {
    if rows != [] {
      var rest := rows[1..];
      EarnedTelescopes(rest, rows[0].totalAmount);
      assert AmountBefore(rest, rows[0].totalAmount, |rest|) == AmountBefore(rows, opening, |rows|);
    }
  }

  lemma AccumulatesCons(row: CompoundInterestRow, rest: seq<CompoundInterestRow>, opening: real)
    requires row.totalAmount == opening + row.interestEarned && Accumulates(rest, row.totalAmount)
    ensures Accumulates([row] + rest, opening)
  {
    assert ([row] + rest)[1..] == rest;
  }

  /** Each row is worth `g` times the row before it, the first `g` times `opening`. */
  ghost predicate GrowsBy(rows: seq<CompoundInterestRow>, opening: real, g: real)
    decreases |rows|
  {
    rows == [] || (rows[0].totalAmount == opening * g && GrowsBy(rows[1..], rows[0].totalAmount, g))
  }

  lemma GrowsByCons(row: CompoundInterestRow, rest: seq<CompoundInterestRow>, opening: real, g: real)
    requires row.totalAmount == opening * g && GrowsBy(rest, row.totalAmount, g)
    ensures GrowsBy([row] + rest, opening, g)
  {
    assert ([row] + rest)[1..] == rest;
  }

  /** Rows that grow by `g` each time: row `i` is worth `opening` grown `i + 1` times. */
  lemma {:induction false} GrowsByClosedForm(rows: seq<CompoundInterestRow>, opening: real, g: real)
    requires GrowsBy(rows, opening, g)
    ensures forall i :: 0 <= i < |rows| ==> rows[i].totalAmount == opening * Pow(g, i + 1)
    decreases |rows|
  {
    if rows != [] {
      var rest := rows[1..];
      var first := rows[0].totalAmount;
      GrowsByClosedForm(rest, first, g);
      forall i | 0 <= i < |rows|
        ensures rows[i].totalAmount == opening * Pow(g, i + 1)
      {
        if i == 0 {
          assert Pow(g, 1) == g * Pow(g, 0);
        } else {
          assert rows[i] == rest[i - 1];
          calc {
            rows[i].totalAmount;
            first * Pow(g, i);
            (opening * g) * Pow(g, i);
            opening * (g * Pow(g, i));
          }
        }
      }
    }
  }

  lemma GrowsByLast(rows: seq<CompoundInterestRow>, opening: real, g: real)
    requires GrowsBy(rows, opening, g) && |rows| > 0
    ensures rows[|rows| - 1].totalAmount == opening * Pow(g, |rows|)
  {
    GrowsByClosedForm(rows, opening, g);
    var n := |rows|;
    assert rows[n - 1].totalAmount == opening * Pow(g, n - 1 + 1);
  }

  /** Every row earns the same `interest`. */
  ghost predicate PaysEvenly(rows: seq<CompoundInterestRow>, interest: real)
    decreases |rows|
  {
    rows == [] || (rows[0].interestEarned == interest && PaysEvenly(rows[1..], interest))
  }

  lemma PaysEvenlyCons(row: CompoundInterestRow, rest: seq<CompoundInterestRow>, interest: real)
    requires row.interestEarned == interest && PaysEvenly(rest, interest)
    ensures PaysEvenly([row] + rest, interest)
  {
    assert ([row] + rest)[1..] == rest;
  }

  /** Rows that each add the same interest are worth the opening plus one payment for every row so far. */
  lemma {:induction false} EvenTotals(rows: seq<CompoundInterestRow>, opening: real, interest: real)
    requires Accumulates(rows, opening) && PaysEvenly(rows, interest)
    ensures forall i :: 0 <= i < |rows| ==> rows[i].totalAmount == opening + (i + 1) as real * interest
    decreases |rows|
  {
    if rows != [] {
      var rest := rows[1..];
      var next := rows[0].totalAmount;
      EvenTotals(rest, next, interest);
      forall i | 0 <= i < |rows|
        ensures rows[i].totalAmount == opening + (i + 1) as real * interest
      {
        if i == 0 {
          assert (i + 1) as real * interest == interest;
        } else {
          assert rows[i] == rest[i - 1];
          assert rest[i - 1].totalAmount == next + (i - 1 + 1) as real * interest;
          assert (i + 1) as real * interest == interest + i as real * interest;
        }
      }
    }
  }

  /** The last of rows that each add the same interest is the opening plus one payment per row. */
  lemma EvenLast(rows: seq<CompoundInterestRow>, opening: real, interest: real)
    requires Accumulates(rows, opening) && PaysEvenly(rows, interest) && |rows| > 0
    ensures rows[|rows| - 1].totalAmount == opening + interest * |rows| as real
  {
    EvenTotals(rows, opening, interest);
    var n := |rows|;
    assert rows[n - 1].totalAmount == opening + (n - 1 + 1) as real * interest;
  }

  /** A cumulative deposit's rows from `period`: one per remaining period, numbered and dated in turn. */
  lemma {:induction false} MaturityRowsNumbered(balance: real, period: nat, totalPeriods: real, periodRate: real,
                                                monthsPerPeriod: nat, start: YearMonth)
    ensures var rows := MaturityRowsFrom(balance, period, totalPeriods, periodRate, monthsPerPeriod, start);
            |rows| == StepsLeft(period, totalPeriods) && PeriodsNumbered(rows, period, monthsPerPeriod, start)
    decreases StepsLeft(period, totalPeriods)
  {
    if period as real <= totalPeriods {
      StepsLeftDecreases(period, totalPeriods);
      MaturityRowsNumbered(balance + balance * periodRate, period + 1, totalPeriods, periodRate, monthsPerPeriod, start);
    }
  }

  /** A cumulative deposit's row `i` from `period` is worth the balance grown `i + 1` times by the period rate. */
  lemma {:induction false} MaturityRowsGrow(balance: real, period: nat, totalPeriods: real, periodRate: real,
                                            monthsPerPeriod: nat, start: YearMonth)
    ensures GrowsBy(MaturityRowsFrom(balance, period, totalPeriods, periodRate, monthsPerPeriod, start),
                    balance, 1.0 + periodRate)
    decreases StepsLeft(period, totalPeriods)
  {
    if period as real <= totalPeriods {
      var next := balance + balance * periodRate;
      StepsLeftDecreases(period, totalPeriods);
      MaturityRowsGrow(next, period + 1, totalPeriods, periodRate, monthsPerPeriod, start);
      var rest := MaturityRowsFrom(next, period + 1, totalPeriods, periodRate, monthsPerPeriod, start);
      var row := CompoundInterestRow(period, AddMonths(start, period * monthsPerPeriod), balance * periodRate, next);
      assert MaturityRowsFrom(balance, period, totalPeriods, periodRate, monthsPerPeriod, start) == [row] + rest;
      assert next == balance * (1.0 + periodRate);
      GrowsByCons(row, rest, balance, 1.0 + periodRate);
    }
  }

  /** Each of a cumulative deposit's rows from `period` adds the interest it reports to the balance before it. */
  lemma {:induction false} MaturityRowsAccumulate(balance: real, period: nat, totalPeriods: real, periodRate: real,
                                                  monthsPerPeriod: nat, start: YearMonth)
    ensures Accumulates(MaturityRowsFrom(balance, period, totalPeriods, periodRate, monthsPerPeriod, start), balance)
    decreases StepsLeft(period, totalPeriods)
  {
    if period as real <= totalPeriods {
      var next := balance + balance * periodRate;
      StepsLeftDecreases(period, totalPeriods);
      MaturityRowsAccumulate(next, period + 1, totalPeriods, periodRate, monthsPerPeriod, start);
      var rest := MaturityRowsFrom(next, period + 1, totalPeriods, periodRate, monthsPerPeriod, start);
      var row := CompoundInterestRow(period, AddMonths(start, period * monthsPerPeriod), balance * periodRate, next);
      assert MaturityRowsFrom(balance, period, totalPeriods, periodRate, monthsPerPeriod, start) == [row] + rest;
      AccumulatesCons(row, rest, balance);
    }
  }

  /** A deposit with payouts, from `period`: one row per remaining period, numbered and dated in turn. */
  lemma {:induction false} PayoutRowsNumbered(principal: real, earned: real, period: nat, totalPeriods: real,
                                              periodRate: real, monthsPerPeriod: nat, start: YearMonth)
    ensures var rows := PayoutRowsFrom(principal, earned, period, totalPeriods, periodRate, monthsPerPeriod, start);
            |rows| == StepsLeft(period, totalPeriods) && PeriodsNumbered(rows, period, monthsPerPeriod, start)
    decreases StepsLeft(period, totalPeriods)
  {
    if period as real <= totalPeriods {
      StepsLeftDecreases(period, totalPeriods);
      PayoutRowsNumbered(principal, earned + principal * periodRate, period + 1, totalPeriods, periodRate, monthsPerPeriod, start);
    }
  }

  /** A deposit with payouts: every row from `period` pays the same interest on the principal. */
  lemma {:induction false} PayoutRowsEven(principal: real, earned: real, period: nat, totalPeriods: real,
                                          periodRate: real, monthsPerPeriod: nat, start: YearMonth)
    ensures PaysEvenly(PayoutRowsFrom(principal, earned, period, totalPeriods, periodRate, monthsPerPeriod, start),
                       principal * periodRate)
    decreases StepsLeft(period, totalPeriods)
  {
    if period as real <= totalPeriods {
      var interest := principal * periodRate;
      var next := earned + interest;
      StepsLeftDecreases(period, totalPeriods);
      PayoutRowsEven(principal, next, period + 1, totalPeriods, periodRate, monthsPerPeriod, start);
      var rest := PayoutRowsFrom(principal, next, period + 1, totalPeriods, periodRate, monthsPerPeriod, start);
      var row := CompoundInterestRow(period, AddMonths(start, period * monthsPerPeriod), interest, principal + next);
      assert PayoutRowsFrom(principal, earned, period, totalPeriods, periodRate, monthsPerPeriod, start) == [row] + rest;
      PaysEvenlyCons(row, rest, interest);
    }
  }

  /** Each row of a deposit with payouts from `period` adds the interest it reports to the worth before it. */
  lemma {:induction false} PayoutRowsAccumulate(principal: real, earned: real, period: nat, totalPeriods: real,
                                                periodRate: real, monthsPerPeriod: nat, start: YearMonth)
    ensures Accumulates(PayoutRowsFrom(principal, earned, period, totalPeriods, periodRate, monthsPerPeriod, start),
                        principal + earned)
    decreases StepsLeft(period, totalPeriods)
  {
    if period as real <= totalPeriods {
      var interest := principal * periodRate;
      var next := earned + interest;
      StepsLeftDecreases(period, totalPeriods);
      PayoutRowsAccumulate(principal, next, period + 1, totalPeriods, periodRate, monthsPerPeriod, start);
      var rest := PayoutRowsFrom(principal, next, period + 1, totalPeriods, periodRate, monthsPerPeriod, start);
      var row := CompoundInterestRow(period, AddMonths(start, period * monthsPerPeriod), interest, principal + next);
      assert PayoutRowsFrom(principal, earned, period, totalPeriods, periodRate, monthsPerPeriod, start) == [row] + rest;
      assert principal + next == (principal + earned) + interest;
      AccumulatesCons(row, rest, principal + earned);
    }
  }

  /** Counting from 1, a loop `period <= totalPeriods` makes one pass per whole period. */
  lemma StepsFromOne(totalPeriods: real)
    requires totalPeriods > 0.0
    ensures StepsLeft(1, totalPeriods) == totalPeriods.Floor
  {
  }

  /** A positive term has a positive number of periods. */
  lemma PositiveTerm(timeYears: real, perYear: CompoundingFrequency)
    requires timeYears > 0.0
    ensures timeYears * perYear as real > 0.0
  {
    assert timeYears * perYear as real >= timeYears * 1.0;
  }

  /** Counting from the first period, a cumulative deposit has one row per whole period. */
  lemma MaturityRowsCount(principal: real, totalPeriods: real, periodRate: real, monthsPerPeriod: nat, start: YearMonth)
    requires totalPeriods > 0.0
    ensures |MaturityRowsFrom(principal, 1, totalPeriods, periodRate, monthsPerPeriod, start)| == totalPeriods.Floor
  {
    StepsFromOne(totalPeriods);
    MaturityRowsNumbered(principal, 1, totalPeriods, periodRate, monthsPerPeriod, start);
  }

  /** Counting from the first period, a deposit with payouts has one row per whole period. */
  lemma PayoutRowsCount(principal: real, totalPeriods: real, periodRate: real, monthsPerPeriod: nat, start: YearMonth)
    requires totalPeriods > 0.0
    ensures |PayoutRowsFrom(principal, 0.0, 1, totalPeriods, periodRate, monthsPerPeriod, start)| == totalPeriods.Floor
  {
    StepsFromOne(totalPeriods);
    PayoutRowsNumbered(principal, 0.0, 1, totalPeriods, periodRate, monthsPerPeriod, start);
  }

  /** From the first period, a cumulative deposit's interest column sums to its growth. */
  lemma MaturityRowsEarned(principal: real, totalPeriods: real, periodRate: real, monthsPerPeriod: nat, start: YearMonth)
    ensures var rows := MaturityRowsFrom(principal, 1, totalPeriods, periodRate, monthsPerPeriod, start);
            TotalEarned(rows) == AmountBefore(rows, principal, |rows|) - principal
  {
    MaturityRowsAccumulate(principal, 1, totalPeriods, periodRate, monthsPerPeriod, start);
    EarnedTelescopes(MaturityRowsFrom(principal, 1, totalPeriods, periodRate, monthsPerPeriod, start), principal);
  }

  /** From the first period, a deposit with payouts' interest column sums to its growth. */
  lemma PayoutRowsEarned(principal: real, totalPeriods: real, periodRate: real, monthsPerPeriod: nat, start: YearMonth)
    ensures var rows := PayoutRowsFrom(principal, 0.0, 1, totalPeriods, periodRate, monthsPerPeriod, start);
            TotalEarned(rows) == AmountBefore(rows, principal, |rows|) - principal
  {
    PayoutRowsAccumulate(principal, 0.0, 1, totalPeriods, periodRate, monthsPerPeriod, start);
    assert principal + 0.0 == principal;
    EarnedTelescopes(PayoutRowsFrom(principal, 0.0, 1, totalPeriods, periodRate, monthsPerPeriod, start), principal);
  }

  /** Counting from 1, a loop `period <= n` makes `n` passes. */
  lemma StepsFromOneWhole(n: nat)
    ensures StepsLeft(1, n as real) == n
  {
    if n > 0 {
      assert n as real - 1.0 == (n - 1) as real;
    }
  }

  /** Over `n` whole periods a cumulative deposit has `n` rows. */
  lemma MaturityRowsCountWhole(principal: real, n: nat, periodRate: real, monthsPerPeriod: nat, start: YearMonth)
    ensures |MaturityRowsFrom(principal, 1, n as real, periodRate, monthsPerPeriod, start)| == n
  {
    StepsFromOneWhole(n);
    MaturityRowsNumbered(principal, 1, n as real, periodRate, monthsPerPeriod, start);
  }

  /** Over `n` whole periods a deposit with payouts has `n` rows. */
  lemma PayoutRowsCountWhole(principal: real, n: nat, periodRate: real, monthsPerPeriod: nat, start: YearMonth)
    ensures |PayoutRowsFrom(principal, 0.0, 1, n as real, periodRate, monthsPerPeriod, start)| == n
  {
    StepsFromOneWhole(n);
    PayoutRowsNumbered(principal, 0.0, 1, n as real, periodRate, monthsPerPeriod, start);
  }

  /** The last cumulative row from the first period is the principal grown once per row. */
  lemma MaturityRowsLast(principal: real, totalPeriods: real, periodRate: real, monthsPerPeriod: nat, start: YearMonth)
    ensures var rows := MaturityRowsFrom(principal, 1, totalPeriods, periodRate, monthsPerPeriod, start);
            |rows| > 0 ==> rows[|rows| - 1].totalAmount == principal * Pow(1.0 + periodRate, |rows|)
  {
    MaturityRowsGrow(principal, 1, totalPeriods, periodRate, monthsPerPeriod, start);
    var rows := MaturityRowsFrom(principal, 1, totalPeriods, periodRate, monthsPerPeriod, start);
    if |rows| > 0 {
      GrowsByLast(rows, principal, 1.0 + periodRate);
    }
  }

  /** The last payout row from the first period is the principal plus one period's interest per row. */
  lemma PayoutRowsLast(principal: real, totalPeriods: real, periodRate: real, monthsPerPeriod: nat, start: YearMonth)
    ensures var rows := PayoutRowsFrom(principal, 0.0, 1, totalPeriods, periodRate, monthsPerPeriod, start);
            |rows| > 0 ==> rows[|rows| - 1].totalAmount == principal + principal * periodRate * |rows| as real
  {
    PayoutRowsEven(principal, 0.0, 1, totalPeriods, periodRate, monthsPerPeriod, start);
    PayoutRowsAccumulate(principal, 0.0, 1, totalPeriods, periodRate, monthsPerPeriod, start);
    assert principal + 0.0 == principal;
    var rows := PayoutRowsFrom(principal, 0.0, 1, totalPeriods, periodRate, monthsPerPeriod, start);
    if |rows| > 0 {
      EvenLast(rows, principal, principal * periodRate);
    }
  }

  /** Over `n` whole periods, the last cumulative row is the principal grown once per period. */
  lemma MaturityLastAmount(principal: real, n: nat, periodRate: real, monthsPerPeriod: nat, start: YearMonth)
    requires n > 0
    ensures var rows := MaturityRowsFrom(principal, 1, n as real, periodRate, monthsPerPeriod, start);
            |rows| > 0 && rows[|rows| - 1].totalAmount == principal * Pow(1.0 + periodRate, n)
  {
    MaturityRowsCountWhole(principal, n, periodRate, monthsPerPeriod, start);
    MaturityRowsLast(principal, n as real, periodRate, monthsPerPeriod, start);
  }

  /** Over `n` whole periods, the cumulative interest column sums to the last row's growth. */
  lemma MaturityLastEarned(principal: real, n: nat, periodRate: real, monthsPerPeriod: nat, start: YearMonth)
    requires n > 0
    ensures var rows := MaturityRowsFrom(principal, 1, n as real, periodRate, monthsPerPeriod, start);
            |rows| > 0 && TotalEarned(rows) == rows[|rows| - 1].totalAmount - principal
  {
    MaturityRowsCountWhole(principal, n, periodRate, monthsPerPeriod, start);
    MaturityRowsEarned(principal, n as real, periodRate, monthsPerPeriod, start);
  }

  /** Over `n` whole periods, the last payout row is the principal plus one period's interest per period. */
  lemma PayoutLastAmount(principal: real, n: nat, periodRate: real, monthsPerPeriod: nat, start: YearMonth)
    requires n > 0
    ensures var rows := PayoutRowsFrom(principal, 0.0, 1, n as real, periodRate, monthsPerPeriod, start);
            |rows| > 0 && rows[|rows| - 1].totalAmount == principal + principal * periodRate * n as real
  {
    PayoutRowsCountWhole(principal, n, periodRate, monthsPerPeriod, start);
    PayoutRowsLast(principal, n as real, periodRate, monthsPerPeriod, start);
  }

  /** Over `n` whole periods, the payout interest column sums to the last row's growth. */
  lemma PayoutLastEarned(principal: real, n: nat, periodRate: real, monthsPerPeriod: nat, start: YearMonth)
    requires n > 0
    ensures var rows := PayoutRowsFrom(principal, 0.0, 1, n as real, periodRate, monthsPerPeriod, start);
            |rows| > 0 && TotalEarned(rows) == rows[|rows| - 1].totalAmount - principal
  {
    PayoutRowsCountWhole(principal, n, periodRate, monthsPerPeriod, start);
    PayoutRowsEarned(principal, n as real, periodRate, monthsPerPeriod, start);
  }

  /** Rows that grow by a factor above one from a positive opening rise strictly, starting above the opening. */
  lemma {:induction false} GrowsByIncreasing(rows: seq<CompoundInterestRow>, opening: real, g: real)
    requires GrowsBy(rows, opening, g) && opening > 0.0 && g > 1.0
    ensures |rows| > 0 ==> rows[0].totalAmount > opening
    ensures forall i, j :: 0 <= i < j < |rows| ==> rows[i].totalAmount < rows[j].totalAmount
    decreases |rows|
  {
    if rows != [] {
      var first := rows[0].totalAmount;
      ScaleStrictly(opening, 1.0, g);
      var rest := rows[1..];
      GrowsByIncreasing(rest, first, g);
      forall i, j | 0 <= i < j < |rows|
        ensures rows[i].totalAmount < rows[j].totalAmount
      {
        assert rows[j] == rest[j - 1];
        if i > 0 {
          assert rows[i] == rest[i - 1];
        } else if j > 1 {
          assert rest[0].totalAmount < rest[j - 1].totalAmount;
        }
      }
    }
  }

  lemma ScaleStrictly(c: real, p: real, q: real)
    requires c > 0.0 && p < q
    ensures c * p < c * q
  {
  }

  /** A positive principal growing at a positive rate is worth strictly more every period. */
  lemma MaturityRowsIncrease(principal: real, totalPeriods: real, periodRate: real, monthsPerPeriod: nat, start: YearMonth)
    requires principal > 0.0 && periodRate > 0.0
    ensures var rows := MaturityRowsFrom(principal, 1, totalPeriods, periodRate, monthsPerPeriod, start);
            (|rows| > 0 ==> rows[0].totalAmount > principal) &&
            forall i, j :: 0 <= i < j < |rows| ==> rows[i].totalAmount < rows[j].totalAmount
  {
    MaturityRowsGrow(principal, 1, totalPeriods, periodRate, monthsPerPeriod, start);
    GrowsByIncreasing(MaturityRowsFrom(principal, 1, totalPeriods, periodRate, monthsPerPeriod, start),
                      principal, 1.0 + periodRate);
  }

  /** A cumulative deposit over a positive term has one row per whole compounding period. */
  lemma MaturityScheduleLength(principal: real, annualRate: real, timeYears: real,
                               compounding: CompoundingFrequency, start: YearMonth)
    requires timeYears > 0.0
    ensures |MaturitySchedule(principal, annualRate, timeYears, compounding, start)| == (timeYears * compounding as real).Floor
  {
    PositiveTerm(timeYears, compounding);
    MaturityRowsCount(principal, timeYears * compounding as real, PeriodRate(annualRate, compounding), MonthsPerPeriod(compounding), start);
  }

  /** A deposit with payouts over a positive term has one row per whole payout period. */
  lemma PayoutScheduleLength(principal: real, annualRate: real, timeYears: real,
                             perYear: CompoundingFrequency, start: YearMonth)
    requires timeYears > 0.0
    ensures |PayoutSchedule(principal, annualRate, timeYears, perYear, start)| == (timeYears * perYear as real).Floor
  {
    PositiveTerm(timeYears, perYear);
    PayoutRowsCount(principal, timeYears * perYear as real, PeriodRate(annualRate, perYear), MonthsPerPeriod(perYear), start);
  }

  /**
   * A cumulative deposit: row `i` is numbered `i + 1`, dated `i + 1` periods
   * after the start and worth the principal grown `i + 1` times by the
   * period rate; each row adds the interest it reports, so the interest
   * column sums to the growth.
   */
  lemma MaturityScheduleShape(principal: real, annualRate: real, timeYears: real,
                              compounding: CompoundingFrequency, start: YearMonth)
    ensures PeriodsNumbered(MaturitySchedule(principal, annualRate, timeYears, compounding, start),
                            1, MonthsPerPeriod(compounding), start)
    ensures GrowsBy(MaturitySchedule(principal, annualRate, timeYears, compounding, start),
                    principal, 1.0 + PeriodRate(annualRate, compounding))
    ensures Accumulates(MaturitySchedule(principal, annualRate, timeYears, compounding, start), principal)
    ensures var rows := MaturitySchedule(principal, annualRate, timeYears, compounding, start);
            TotalEarned(rows) == AmountBefore(rows, principal, |rows|) - principal
  {
    var periods := timeYears * compounding as real;
    var rate := PeriodRate(annualRate, compounding);
    var months := MonthsPerPeriod(compounding);
    MaturityRowsNumbered(principal, 1, periods, rate, months, start);
    MaturityRowsGrow(principal, 1, periods, rate, months, start);
    MaturityRowsAccumulate(principal, 1, periods, rate, months, start);
    MaturityRowsEarned(principal, periods, rate, months, start);
  }

  /**
   * A deposit with payouts: row `i` is numbered `i + 1` and dated `i + 1`
   * periods after the start; every row pays the period's interest on the
   * principal and adds it to the worth before it, so the interest column
   * sums to the growth.
   */
  lemma PayoutScheduleShape(principal: real, annualRate: real, timeYears: real,
                            perYear: CompoundingFrequency, start: YearMonth)
    ensures PeriodsNumbered(PayoutSchedule(principal, annualRate, timeYears, perYear, start),
                            1, MonthsPerPeriod(perYear), start)
    ensures PaysEvenly(PayoutSchedule(principal, annualRate, timeYears, perYear, start),
                       principal * PeriodRate(annualRate, perYear))
    ensures Accumulates(PayoutSchedule(principal, annualRate, timeYears, perYear, start), principal)
    ensures var rows := PayoutSchedule(principal, annualRate, timeYears, perYear, start);
            TotalEarned(rows) == AmountBefore(rows, principal, |rows|) - principal
  {
    var periods := timeYears * perYear as real;
    var rate := PeriodRate(annualRate, perYear);
    var months := MonthsPerPeriod(perYear);
    PayoutRowsNumbered(principal, 0.0, 1, periods, rate, months, start);
    PayoutRowsEven(principal, 0.0, 1, periods, rate, months, start);
    PayoutRowsAccumulate(principal, 0.0, 1, periods, rate, months, start);
    assert principal + 0.0 == principal;
    PayoutRowsEarned(principal, periods, rate, months, start);
  }

  /** Outside the degenerate inputs, a cumulative deposit's schedule and totals are the maturity ones. */
  lemma MaturityDispatch(realPow: (real, real) -> real, principal: real, annualRate: real, timeYears: real,
                         compounding: CompoundingFrequency, start: YearMonth)
    requires !Degenerate(principal, annualRate, timeYears)
    ensures CompoundInterestSchedule(principal, annualRate, timeYears, compounding, start, Maturity)
         == MaturitySchedule(principal, annualRate, timeYears, compounding, start)
    ensures var d := CalculateCompoundInterest(realPow, principal, annualRate, timeYears, compounding, Maturity);
            var v := MaturityValue(realPow, principal, annualRate, timeYears, compounding);
            d.totalAmount == v && d.totalInterest == v - principal
  {
  }

  /** Outside the degenerate inputs, a deposit with payouts has the payout schedule and totals. */
  lemma PayoutDispatch(realPow: (real, real) -> real, principal: real, annualRate: real, timeYears: real,
                       compounding: CompoundingFrequency, perYear: CompoundingFrequency, start: YearMonth)
    requires !Degenerate(principal, annualRate, timeYears)
    ensures CompoundInterestSchedule(principal, annualRate, timeYears, compounding, start, Periodic(perYear))
         == PayoutSchedule(principal, annualRate, timeYears, perYear, start)
    ensures var d := CalculateCompoundInterest(realPow, principal, annualRate, timeYears, compounding, Periodic(perYear));
            var v := PayoutValue(principal, annualRate, timeYears, perYear);
            d.totalAmount == v && d.totalInterest == v - principal
  {
  }

  /** Over a whole number of compounding periods, a cumulative deposit's schedule ends at its value at maturity. */
  lemma MaturityScheduleEndsAtValue(realPow: (real, real) -> real, principal: real, annualRate: real, timeYears: real,
                                    compounding: CompoundingFrequency, start: YearMonth)
    requires timeYears > 0.0 && IsNatural(timeYears * compounding as real)
    ensures var rows := MaturitySchedule(principal, annualRate, timeYears, compounding, start);
            |rows| > 0 && rows[|rows| - 1].totalAmount == MaturityValue(realPow, principal, annualRate, timeYears, compounding)
  {
    var periods := timeYears * compounding as real;
    var rate := PeriodRate(annualRate, compounding);
    var months := MonthsPerPeriod(compounding);
    var n := ToNat(periods);
    PositiveTerm(timeYears, compounding);
    var rows := MaturityRowsFrom(principal, 1, n as real, rate, months, start);
    assert rows == MaturitySchedule(principal, annualRate, timeYears, compounding, start);
    MaturityLastAmount(principal, n, rate, months, start);
    assert MaturityValue(realPow, principal, annualRate, timeYears, compounding) == principal * Pow(1.0 + rate, n);
  }

  /** Over a whole number of payout periods, a deposit with payouts' schedule ends at its value. */
  lemma PayoutScheduleEndsAtValue(principal: real, annualRate: real, timeYears: real,
                                  perYear: CompoundingFrequency, start: YearMonth)
    requires timeYears > 0.0 && IsNatural(timeYears * perYear as real)
    ensures var rows := PayoutSchedule(principal, annualRate, timeYears, perYear, start);
            |rows| > 0 && rows[|rows| - 1].totalAmount == PayoutValue(principal, annualRate, timeYears, perYear)
  {
    var periods := timeYears * perYear as real;
    var rate := PeriodRate(annualRate, perYear);
    var n := ToNat(periods);
    PositiveTerm(timeYears, perYear);
    PayoutLastAmount(principal, n, rate, MonthsPerPeriod(perYear), start);
    SimpleInterestOverTerm(principal, annualRate, timeYears, perYear);
  }

  /**
   * When the term is a whole number of compounding periods, the last row of
   * a cumulative deposit's schedule is what `calculateCompoundInterest`
   * returns.
   */
  lemma MaturityScheduleMeetsTotal(realPow: (real, real) -> real, principal: real, annualRate: real, timeYears: real,
                                   compounding: CompoundingFrequency, start: YearMonth)
    requires !Degenerate(principal, annualRate, timeYears)
    requires IsNatural(timeYears * compounding as real)
    ensures var rows := CompoundInterestSchedule(principal, annualRate, timeYears, compounding, start, Maturity);
            var d := CalculateCompoundInterest(realPow, principal, annualRate, timeYears, compounding, Maturity);
            |rows| > 0 && rows[|rows| - 1].totalAmount == d.totalAmount
  {
    MaturityDispatch(realPow, principal, annualRate, timeYears, compounding, start);
    MaturityScheduleEndsAtValue(realPow, principal, annualRate, timeYears, compounding, start);
  }

  /**
   * When the term is a whole number of compounding periods, the interest
   * column of a cumulative deposit's schedule adds up to the interest
   * `calculateCompoundInterest` reports.
   */
  lemma MaturityScheduleMeetsInterest(realPow: (real, real) -> real, principal: real, annualRate: real, timeYears: real,
                                      compounding: CompoundingFrequency, start: YearMonth)
    requires !Degenerate(principal, annualRate, timeYears)
    requires IsNatural(timeYears * compounding as real)
    ensures TotalEarned(CompoundInterestSchedule(principal, annualRate, timeYears, compounding, start, Maturity))
         == CalculateCompoundInterest(realPow, principal, annualRate, timeYears, compounding, Maturity).totalInterest
  {
    MaturityScheduleMeetsTotal(realPow, principal, annualRate, timeYears, compounding, start);
    PositiveTerm(timeYears, compounding);
    MaturityLastEarned(principal, ToNat(timeYears * compounding as real), PeriodRate(annualRate, compounding),
                       MonthsPerPeriod(compounding), start);
  }

  /**
   * When the term is a whole number of payout periods, the last row of a
   * deposit with payouts is what `calculateCompoundInterest` returns.
   */
  lemma PayoutScheduleMeetsTotal(realPow: (real, real) -> real, principal: real, annualRate: real, timeYears: real,
                                 compounding: CompoundingFrequency, perYear: CompoundingFrequency, start: YearMonth)
    requires !Degenerate(principal, annualRate, timeYears)
    requires IsNatural(timeYears * perYear as real)
    ensures var rows := CompoundInterestSchedule(principal, annualRate, timeYears, compounding, start, Periodic(perYear));
            var d := CalculateCompoundInterest(realPow, principal, annualRate, timeYears, compounding, Periodic(perYear));
            |rows| > 0 && rows[|rows| - 1].totalAmount == d.totalAmount
  {
    PayoutDispatch(realPow, principal, annualRate, timeYears, compounding, perYear, start);
    PayoutScheduleEndsAtValue(principal, annualRate, timeYears, perYear, start);
  }

  /**
   * When the term is a whole number of payout periods, the interest column
   * of a deposit with payouts adds up to the interest
   * `calculateCompoundInterest` reports.
   */
  lemma PayoutScheduleMeetsInterest(realPow: (real, real) -> real, principal: real, annualRate: real, timeYears: real,
                                    compounding: CompoundingFrequency, perYear: CompoundingFrequency, start: YearMonth)
    requires !Degenerate(principal, annualRate, timeYears)
    requires IsNatural(timeYears * perYear as real)
    ensures TotalEarned(CompoundInterestSchedule(principal, annualRate, timeYears, compounding, start, Periodic(perYear)))
         == CalculateCompoundInterest(realPow, principal, annualRate, timeYears, compounding, Periodic(perYear)).totalInterest
  {
    PayoutScheduleMeetsTotal(realPow, principal, annualRate, timeYears, compounding, perYear, start);
    PositiveTerm(timeYears, perYear);
    PayoutLastEarned(principal, ToNat(timeYears * perYear as real), PeriodRate(annualRate, perYear), MonthsPerPeriod(perYear), start);
  }

  /** A cumulative deposit's value rises strictly from period to period. */
  lemma MaturityScheduleIncreasing(principal: real, annualRate: real, timeYears: real,
                                   compounding: CompoundingFrequency, start: YearMonth)
    requires principal > 0.0 && annualRate > 0.0
    ensures var rows := MaturitySchedule(principal, annualRate, timeYears, compounding, start);
            (|rows| > 0 ==> rows[0].totalAmount > principal) &&
            forall i, j :: 0 <= i < j < |rows| ==> rows[i].totalAmount < rows[j].totalAmount
  {
    PeriodRatePositive(annualRate, compounding);
    MaturityRowsIncrease(principal, timeYears * compounding as real, PeriodRate(annualRate, compounding), MonthsPerPeriod(compounding), start);
  }
}
