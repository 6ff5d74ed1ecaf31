# Loan and deposit calculator engine, modelled in Dafny

The engine behind the calculator is one module, `src/utils/finance.ts`, plus the record types in
`src/types/finance.types.ts`. This project models what that engine computes:

- the equated monthly instalment (EMI) of a loan;
- the tenure implied by a given instalment;
- the value of a fixed deposit, either cumulative (interest compounds until maturity) or
  non-cumulative (interest is paid out every period);
- the month-by-month amortization schedule of a loan;
- the effect of recurring and lump-sum prepayments on a loan;
- the period-by-period schedule of a deposit;
- the month arithmetic the schedules use to label their rows.

Amounts are exact `real`s. Dates are calendar months (`Calendar.YearMonth`). Each module has one
job:

- `Powers`: `Math.pow`, `Math.log` and `toFixed(2)`.
- `FinanceTypes`: the records.
- `Calendar`: `addMonths` and the length of a month.
- `Loan`: `calculateEMI` and `calculateTenureFromEMI`.
- `Schedules`: what every loan schedule satisfies.
- `Amortization`: `calculateAmortizationSchedule`.
- `Prepayment`: `calculatePrepaymentImpact`.
- `Deposit`: `calculateCompoundInterest` and `calculateCompoundInterestSchedule`.

## How the model is built

- **Plain calculations.** The closed-form functions are Dafny functions. Their contracts give the
  guard cases exactly. Lemmas relate them to each other, for example:
  - the EMI repays the loan in exactly its tenure;
  - the tenure computed from that EMI gives the tenure back.
- **Loops.** Each loop in the source (the schedules and the prepayment simulation) is a `method`
  with the same `while`/`for` loop. The method is proved equal to a recursive specification
  function. The properties the source promises are then proved about that function:
  - rows are numbered from 1 and dated month by month;
  - every row splits its payment into principal and interest on the balance before it;
  - the schedule stops at the first zero balance;
  - the column totals agree with the closed-form totals;
  - more prepayment never costs more interest or more months.
- **Math.pow and Math.log.** `Math.pow` at a natural-number exponent is the recursive `Pow`. At any
  other exponent it is a function parameter `realPow`. The one property its callers rely on
  (the power of a base above one is above one) is the predicate `PowAboveOne`, and the callers
  that need it require it. `Math.log` is a function parameter `ln` in the same way:
  - `LogPositiveAboveOne` says it is positive above one;
  - `LogOfProduct` says it turns products into sums.

## Model

| member | source | states |
|---|---|---|
| Powers.MathPow | src/utils/finance.ts:35-36 | `Math.pow` at a whole exponent is repeated multiplication; a base above one raised to a positive exponent is above one |
| Powers.Round2 | src/utils/finance.ts:66 | the result is a whole number of hundredths, within half a hundredth of the value; a value that already has two decimals is kept, and a non-negative value stays non-negative |
| Powers.LogOfPow | src/utils/finance.ts:63 | a logarithm that turns products into sums turns the n-th power into n times the logarithm |
| Powers.PowStrictlyIncreasing | src/utils/finance.ts:35-36 | powers of a base above one increase strictly with the exponent |
| FinanceTypes.PeriodsSpanYear | src/utils/finance.ts:285 | for every compounding or payout frequency (1, 2, 4, 12), the months per period times the periods per year is exactly twelve |
| Calendar.MakeYearMonth | src/utils/finance.ts:217-221 | a year and a month index name exactly one calendar month |
| Calendar.AddMonths | src/utils/finance.ts:217-221 | defines adding a number of months to a calendar month, with the carry `AddMonthsCarries` states |
| Calendar.AddMonthsCarries | src/utils/finance.ts:217-221 | adding months moves the month index modulo twelve and carries whole years into the year, as `setMonth` does past December |
| Calendar.DaysInMonth | src/utils/finance.ts:157 | a month has 28 to 31 days: 29 exactly in a leap-year February, 28 in any other February, 30 exactly in April, June, September and November |
| Calendar.DaysInCalendarYear | src/utils/finance.ts:157 | the month lengths of a calendar year add up to 366 days in a leap year and 365 otherwise |
| Loan.MonthlyRate | src/utils/finance.ts:31 | the monthly rate is the annual percentage divided by 1200 |
| Loan.Owed | src/utils/finance.ts:237-246 | defines the balance owed after `k` months as the recurrence the schedule follows: the balance grows by a month's interest and the instalment is taken off; the reference that `EmiRepaysInTenure` and `StandardRowsFollowOwed` compare the EMI and the schedule against |
| Loan.Annuity | src/utils/finance.ts:34-36 | the instalment solves `emi * (g - 1) = P * r * g` and exceeds the first month's interest |
| Loan.CalculateEmi | src/utils/finance.ts:26-46 | all zeros when the principal, rate or tenure is not positive; otherwise the EMI exceeds the first month's interest, the total payment is EMI times the tenure in months, and the total interest is the total payment less the principal |
| Loan.EmiForWholeMonths | src/utils/finance.ts:34-36 | for a whole number of months the EMI is the annuity formula with `(1 + r)^n` |
| Loan.OwedUnderAnnuity | src/utils/finance.ts:34-36 | after `k` instalments of the annuity EMI the balance still owed is `P (g - (1 + r)^k) / (g - 1)` |
| Loan.EmiRepaysInTenure | src/utils/finance.ts:34-39 | paying the EMI every month leaves a positive balance before the last month, a balance below the principal after the first, and exactly zero after the last |
| Loan.CalculateTenureFromEmi | src/utils/finance.ts:51-67 | tenure 0 when the principal, rate or EMI is not positive; `Infinity` exactly when a positive EMI does not exceed the first month's interest; otherwise a non-negative number of years |
| Loan.TenureWhenRepaid | src/utils/finance.ts:62-66 | when the EMI exceeds the first month's interest and `months` solves `months * ln(1 + r) = ln(emi / (emi - P r))`, the tenure is a number of years with two decimals within half a hundredth of `months / 12` |
| Loan.EmiGrowthRatio | src/utils/finance.ts:34-36 | the EMI of a whole-month loan satisfies `emi / (emi - P r) = (1 + r)^n`, the ratio the tenure solver takes the logarithm of |
| Loan.EmiTenureRoundTrip | src/utils/finance.ts:26-67 | the tenure computed from the EMI of an `n`-month loan is `n / 12` years rounded to two decimals, within half a hundredth of a year of it |
| Schedules.PrincipalTelescopes | src/utils/finance.ts:245 | in a schedule whose rows amortize, the principal column adds up to the opening balance less the closing balance |
| Schedules.PaymentsSplit | src/utils/finance.ts:251-253 | the payment column is the principal column plus the interest column |
| Schedules.ConstantPaymentsTotal | src/utils/finance.ts:38 | a schedule that pays the same amount every month pays the number of rows times that amount |
| Schedules.RepaidScheduleTotals | src/utils/finance.ts:38-39 | a schedule that ends at zero with equal payments repays the principal, pays rows times EMI, and charges that less the principal as interest |
| Schedules.InterestSoFarIsTotal | src/utils/finance.ts:143 | the interest accumulated month by month equals the interest column's total |
| Amortization.StandardRow | src/utils/finance.ts:237-256 | defines one month's row: interest on the balance, the principal part cut to the balance when it would overshoot or in the final month, the balance clamped at zero, no extra |
| Amortization.StandardRowsFrom | src/utils/finance.ts:236-259 | defines the rows from a month on: one per month up to the tenure, stopping after the first zero balance |
| Amortization.AmortizationSchedule | src/utils/finance.ts:227-262 | defines the returned schedule: empty when an input is not positive, otherwise the rows from month 1 at the monthly rate |
| Amortization.StandardRowAmortizes | src/utils/finance.ts:237-256 | one month's row: numbered and dated by its month, interest on the balance before it, payment equals principal plus interest, principal equals the fall in balance, balance never negative, no extra payment, and zero balance in the final month |
| Amortization.StandardRowsNumbered | src/utils/finance.ts:236 | the rows from month `m` are empty exactly when `m` is past the tenure, are numbered and dated consecutively, and never pass the tenure |
| Amortization.StandardRowsAmortize | src/utils/finance.ts:237-258 | every row amortizes the balance before it, the schedule stops at the first zero balance, and no row has an extra payment |
| Amortization.StandardRowsRepay | src/utils/finance.ts:241-243 | for a whole number of months the last row's balance is zero |
| Amortization.StandardRowsNonIncreasing | src/utils/finance.ts:237-246 | when the EMI covers the interest, the balance never rises |
| Amortization.CalculateAmortizationSchedule | src/utils/finance.ts:227-262 | the loop builds exactly the rows of the recursive schedule |
| Amortization.AmortizationScheduleShape | src/utils/finance.ts:227-262 | the schedule is empty exactly when an input is not positive or the tenure is under a month; otherwise it is numbered from 1, stays within the tenure, amortizes the principal, stops at the first zero, has no extras, its principal column adds up to the repaid amount, and for a whole number of months it ends at zero |
| Amortization.AmortizationScheduleNonIncreasing | src/utils/finance.ts:237-246 | when the EMI covers the first month's interest, the balance never rises |
| Amortization.OwedUnderEmi | src/utils/finance.ts:34-36 | under the computed EMI the balance owed stays positive for `n - 1` months and is zero after month `n` |
| Amortization.StandardRowsFollowOwed | src/utils/finance.ts:236-258 | under an EMI that repays in exactly `n` months, the remaining rows number `n - k`, end at zero and each pay exactly the EMI |
| Amortization.StandardRowsUnderRepayingEmi | src/utils/finance.ts:236-258 | under an EMI that repays in exactly `n` months, the schedule has `n` rows, pays the EMI each month, repays the principal and charges `n * emi - P` in interest |
| Amortization.StandardScheduleRepaysOnTime | src/utils/finance.ts:26-46 | the schedule for `calculateEMI`'s own EMI has exactly `n` rows, pays the EMI every month, ends at zero, and its columns add up to the principal, total payment and total interest `calculateEMI` reports |
| Amortization.EmiTotalsForWholeMonths | src/utils/finance.ts:38-39 | for a whole number of months the reported totals are `n * emi` and `n * emi - P` |
| Prepayment.RecurringExtra | src/utils/finance.ts:149-159 | defines the recurring extra of a loan month: the amount every month, in months divisible by 3 or by 12, or the amount times the days of the calendar month for the daily cadence |
| Prepayment.PlannedExtra | src/utils/finance.ts:149-164 | defines the month's whole extra: the recurring extra plus the lump sum in exactly its month |
| Prepayment.PrepaymentRow | src/utils/finance.ts:142-192 | defines one month's row: interest on the balance, the instalment plus the extra, clamped to the balance and its interest when that would overpay |
| Prepayment.PrepaymentRowsFrom | src/utils/finance.ts:138-195 | defines the rows after `done` months: while something is owed and the tenure is not spent, stopping after the first zero balance |
| Prepayment.PrepaymentImpact | src/utils/finance.ts:117-206 | defines the returned result: `calculateEMI`'s figures, the simulated rows from the principal, their interest and count, and the savings |
| Prepayment.ExtraPaymentFor | src/utils/finance.ts:146-164 | the method's if-chain computes the planned extra of the month |
| Prepayment.SimulateMonth | src/utils/finance.ts:139-192 | one pass of the loop body yields the row of the month |
| Prepayment.PrepaymentRowClamps | src/utils/finance.ts:166-192 | a month's row amortizes the balance before it; the new balance is the owed balance less the extra, clamped at zero; when the payment would overshoot, the principal paid is the whole balance and the extra is what was paid above the EMI, never negative |
| Prepayment.SimulatePrepayments | src/utils/finance.ts:131-195 | the loop builds exactly the recursive prepayment rows, its interest accumulator is their interest total, and its month count is their number |
| Prepayment.CalculatePrepaymentImpact | src/utils/finance.ts:117-206 | the method returns exactly `PrepaymentImpact` of its inputs |
| Prepayment.PrepaymentRowsNumbered | src/utils/finance.ts:138-139 | the rows are empty exactly when nothing is owed or the tenure is spent, are numbered and dated consecutively, and never start past the tenure |
| Prepayment.PrepaymentRowsAmortize | src/utils/finance.ts:168-194 | every row amortizes the balance before it and the schedule stops at the first zero balance |
| Prepayment.PrepaymentInterestNonNegative | src/utils/finance.ts:142-143 | with a non-negative rate the interest total is never negative |
| Prepayment.PrepaymentSummary | src/utils/finance.ts:197-205 | the schedule is empty exactly when the principal or tenure is not positive; it is numbered from 1, amortizes the principal, and stops at the first zero within the tenure; the new tenure is its length and the new interest its interest total; the interest saved and the months saved are the original figures from `calculateEMI` less the new ones; at a non-negative rate with no negative extra its balances never rise, and for a whole number of months at a positive rate its last row leaves nothing owed |
| Prepayment.NothingAddedAnyMonth | src/utils/finance.ts:146-166 | a plan with no recurring amount and no lump sum adds nothing in any month |
| Prepayment.NoExtraRowIsStandard | src/utils/finance.ts:168-192 | without an extra, a month that does not overshoot is the same row as in the plain amortization schedule |
| Prepayment.NoExtraFollowsStandard | src/utils/finance.ts:138-195 | without prepayments, the simulation from any month builds the same rows as the amortization schedule |
| Prepayment.NoExtraSavesNothing | src/utils/finance.ts:117-206 | without prepayments, a whole-month loan produces the amortization schedule, keeps its tenure, and saves no months and no interest |
| Prepayment.ClosingBalanceMonotone | src/utils/finance.ts:168-182 | a smaller opening balance and a larger extra give a smaller owed balance and a smaller interest charge |
| Prepayment.MonthCompared | src/utils/finance.ts:168-182 | a smaller opening balance and a larger extra give a row with a smaller balance and smaller interest |
| Prepayment.MoreExtraNeverWorse | src/utils/finance.ts:138-195 | a plan that pays at least as much extra every month, started from no larger balance, takes no more months and charges no more interest |
| Prepayment.RowNoHigher | src/utils/finance.ts:166-186 | a month that pays at least its interest and no negative extra closes owing between zero and its opening balance |
| Prepayment.PrepaymentRowsNonIncreasing | src/utils/finance.ts:138-195 | with no negative extra and an instalment covering the opening interest, no row's balance exceeds the one before it |
| Prepayment.PrepaymentClosingNonNegative | src/utils/finance.ts:183-186 | a run from a non-negative balance never closes on a negative balance |
| Prepayment.MoreExtraClosesLower | src/utils/finance.ts:138-195 | a plan that pays at least as much extra every month, started from no larger balance, also closes owing no more |
| Prepayment.PrepaymentRepaysInTenure | src/utils/finance.ts:117-206 | for a whole number of months, a plan with no negative extra repays the loan: the schedule has a row and its last row's balance is zero |
| Prepayment.PrepaymentImpactNonIncreasing | src/utils/finance.ts:117-206 | at a non-negative rate with no negative extra, the returned schedule's balances never rise |
| Prepayment.LargerRecurringLargerExtra | src/utils/finance.ts:149-164 | raising the recurring amount never lowers a month's extra |
| Prepayment.LargerRecurringNeverWorse | src/utils/finance.ts:117-206 | raising the recurring prepayment never lengthens the loan, never raises the interest, and never lowers the months or interest saved |
| Prepayment.CountedCadences | src/utils/finance.ts:149-154 | for the monthly, quarterly and yearly cadences, a month's recurring extra depends only on the month count, not on the calendar |
| Prepayment.CountedTotalSplit | src/utils/finance.ts:149-154 | the extras over `a + b` months are those over the first `a` plus those over the next `b` |
| Prepayment.NothingBetweenDueMonths | src/utils/finance.ts:151-154 | no recurring extra falls strictly between two due months of a cadence |
| Prepayment.OneCycle | src/utils/finance.ts:149-154 | the months after a due month, up to and including the next due month, pay the recurring amount exactly once |
| Prepayment.RecurringOverCycles | src/utils/finance.ts:149-154 | over `c` whole cycles of 1, 3 or 12 months the monthly, quarterly or yearly cadence pays exactly `c` times the amount |
| Prepayment.LoanMonthsAreCalendarMonths | src/utils/finance.ts:140 | the days of consecutive loan months are the days of consecutive calendar months |
| Prepayment.DailyPaysEveryDay | src/utils/finance.ts:155-158 | over any run of loan months the daily cadence pays the amount once for every day of the calendar months they fall in |
| Prepayment.DailyOverCalendarYear | src/utils/finance.ts:155-158 | over the twelve loan months falling in January to December of one year, the daily cadence pays 366 times the amount in a leap year and 365 times otherwise |
| Deposit.MaturityValue | src/utils/finance.ts:87-93 | for a whole number of periods the maturity value is the principal compounded once per period at the period rate |
| Deposit.MaturityValueExceedsPrincipal | src/utils/finance.ts:87-93 | a positive principal at a positive rate grows to more than the principal by maturity |
| Deposit.PayoutValue | src/utils/finance.ts:102-106 | with periodic payouts the total is the principal plus simple interest over the whole term |
| Deposit.SimpleInterestOverTerm | src/utils/finance.ts:102-106 | the interest of one period times the number of payouts is the simple interest over the term, whatever the payout frequency |
| Deposit.CalculateCompoundInterest | src/utils/finance.ts:72-115 | all zeros when an input is not positive; otherwise the interest is the total less the principal, it is simple interest when paid out periodically, and it is positive at maturity |
| Deposit.PayoutIgnoresCompounding | src/utils/finance.ts:94-107 | with periodic payouts the compounding frequency does not change the result |
| Deposit.MaturityRowsFrom | src/utils/finance.ts:289-299 | defines the cumulative rows from a period on: one per whole period, each adding the period's interest on the balance |
| Deposit.PayoutRowsFrom | src/utils/finance.ts:309-320 | defines the payout rows from a period on: one per whole period, each earning the period's interest on the principal, the total being the principal plus the interest so far |
| Deposit.CompoundInterestSchedule | src/utils/finance.ts:264-324 | defines the returned schedule: empty when an input is not positive, otherwise the cumulative rows at maturity and the payout rows for periodic payouts |
| Deposit.CompoundingLoop | src/utils/finance.ts:287-299 | the cumulative loop builds exactly the recursive maturity rows |
| Deposit.PayoutLoop | src/utils/finance.ts:307-320 | the payout loop builds exactly the recursive payout rows |
| Deposit.CalculateCompoundInterestSchedule | src/utils/finance.ts:264-324 | the method returns exactly `CompoundInterestSchedule` of its inputs, in both payout modes and in the guard case |
| Deposit.EarnedTelescopes | src/utils/finance.ts:290-297 | in a schedule where each total is the previous total plus the period's interest, the interest column adds up to the last total less the opening amount |
| Deposit.GrowsByClosedForm | src/utils/finance.ts:290-291 | a schedule that multiplies the amount by `g` each period has `opening * g^(i+1)` in row `i` |
| Deposit.EvenTotals | src/utils/finance.ts:311-318 | a schedule that adds the same interest each period has `opening + (i+1) * interest` in row `i` |
| Deposit.GrowsByIncreasing | src/utils/finance.ts:290-291 | when the growth factor is above one, the totals increase strictly from row to row, starting above the opening amount |
| Deposit.MaturityScheduleLength | src/utils/finance.ts:283-289 | the cumulative schedule has one row per whole period: the floor of years times periods per year |
| Deposit.PayoutScheduleLength | src/utils/finance.ts:303-309 | the payout schedule has one row per whole period |
| Deposit.MaturityScheduleShape | src/utils/finance.ts:279-299 | the cumulative rows are numbered from 1 and dated every `12 / frequency` months; each total is the previous one times `1 + periodRate`; each total is the previous one plus the period's interest; the interest column adds up to the growth |
| Deposit.PayoutScheduleShape | src/utils/finance.ts:300-321 | the payout rows are numbered and dated the same way; every period earns `principal * periodRate`; the totals accumulate it |
| Deposit.MaturityScheduleEndsAtValue | src/utils/finance.ts:279-299 | for a whole number of periods the last cumulative row holds the maturity value |
| Deposit.PayoutScheduleEndsAtValue | src/utils/finance.ts:300-321 | for a whole number of periods the last payout row holds the payout total |
| Deposit.MaturityScheduleMeetsTotal | src/utils/finance.ts:87-93 | for a whole number of periods the cumulative schedule ends at the total `calculateCompoundInterest` reports |
| Deposit.MaturityScheduleMeetsInterest | src/utils/finance.ts:109 | for a whole number of periods the cumulative schedule's interest column adds up to the reported interest |
| Deposit.PayoutScheduleMeetsTotal | src/utils/finance.ts:102-106 | for a whole number of periods the payout schedule ends at the reported total |
| Deposit.PayoutScheduleMeetsInterest | src/utils/finance.ts:109 | for a whole number of periods the payout schedule's interest column adds up to the reported interest |
| Deposit.MaturityScheduleIncreasing | src/utils/finance.ts:289-298 | at a positive rate the cumulative totals increase strictly, starting above the principal |

## Left out

- The React components, the page layout and the currency and date formatting
  (`formatCurrency`, `formatDateMonthYear`) are not part of this model. A row's date is the
  calendar month it falls in, not its printed label.
- IEEE-754 doubles are modelled as exact reals. Rounding error, overflow, and the `isNaN` guards of
  `calculateEMI` and `calculateCompoundInterest` (which only fire on NaN) are not modelled.
- `Math.pow` at an exponent that is not a whole number, and `Math.log`, are function parameters.
  Only the properties named in `Powers` are assumed of them.
- Powers.Round2: modelled as rounding half up to two decimals on exact reals. It does not capture
  `toFixed`'s decimal-string conversion of a binary double.
- Calendar.AddMonths: the day of the month is not modelled. A start date on the 29th to 31st that
  `setMonth` would push into the following month is therefore not captured. The clock behind
  the default `new Date()` is a parameter (`start`).
- Loan.CalculateEmi: the EMI formula itself is stated only for a whole number of months
  (`EmiForWholeMonths`). At other tenures it depends on the `realPow` parameter, and the contract
  gives only its bounds and totals.
- Deposit.MaturityValue: the value is stated only for a whole number of compounding periods. At
  other terms it depends on the `realPow` parameter.
- Deposit.MaturityScheduleMeetsTotal, Deposit.PayoutScheduleMeetsTotal: agreement between a
  schedule and the closed-form totals is proved only for a whole number of periods. Otherwise the
  schedule stops at the last whole period while the totals cover the whole term.
- Amortization.AmortizationScheduleShape: the closing balance is proved zero only when the tenure
  is a whole number of months. Otherwise the source's final-month rule never fires, and the last
  row may leave a balance.
- Prepayment.DailyOverCalendarYear: the yearly total of the daily cadence is stated for twelve loan
  months that are January to December of one year. Other windows of twelve months are covered by
  `DailyPaysEveryDay`, in days of the calendar months they span.
- Prepayment.PrepaymentRepaysInTenure, Prepayment.PrepaymentRowsNonIncreasing: proved only for plans
  that add no negative amount. A negative extra can raise the balance, and the source does not
  exclude one.
