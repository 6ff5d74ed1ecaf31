/**
 * The annuity solver (`calculateEMI`) and its inverse, the tenure solver
 * (`calculateTenureFromEMI`).
 */
module Loan {
  import opened Powers
  import opened FinanceTypes

  /** The annual percentage rate as a monthly decimal rate. */
  function MonthlyRate(annualRate: real): (r: real)
    ensures r * 1200.0 == annualRate
  {
    annualRate / 12.0 / 100.0
  }

  /**
   * The balance still owed after `k` months when the balance accrues interest
   * at `r` a month and `emi` is paid at the end of every month.
   */
  function Owed(principal: real, r: real, emi: real, k: nat): real {
    if k == 0 then principal else Owed(principal, r, emi, k - 1) * (1.0 + r) - emi
  }

  /** The annuity instalment for a loan of `principal` at monthly rate `r` whose growth factor is `growth`. */
  function Annuity(principal: real, r: real, growth: real): (emi: real)
    requires growth > 1.0
    ensures principal > 0.0 && r > 0.0 ==> emi > principal * r
    ensures emi * (growth - 1.0) == principal * r * growth
  {
    var a := principal * r;
    var d := growth - 1.0;
    var emi := a * growth / d;
    assert emi * d == a * growth;
    if principal > 0.0 && r > 0.0 then
      AnnuityExceedsInterest(emi, a, growth);
      emi
    else
      emi
  }

  /** An instalment `e` with `e * (g - 1) == a * g`, for `g > 1`, exceeds `a` by the factor `g / (g - 1)`. */
  lemma AnnuityExceedsInterest(e: real, a: real, g: real)
    requires g > 1.0 && a > 0.0 && e * (g - 1.0) == a * g
    ensures e - a > 0.0 && e / (e - a) == g
  {
    var d := e - a;
    var h := g - 1.0;
    assert d * h == a;
    PositiveFactor(d, h);
    assert e == g * d;
    QuotientOfProduct(e, d, g);
  }

  /** One month of the closed form of `OwedUnderAnnuity`. */
  lemma AnnuityStep(p: real, r: real, g: real, x: real, b: real, e: real, y: real, o: real)
    requires b * (g - 1.0) == p * (g - x)
    requires e * (g - 1.0) == p * r * g
    requires y == (1.0 + r) * x && o == b * (1.0 + r) - e
    ensures o * (g - 1.0) == p * (g - y)
  {
    calc {
      o * (g - 1.0);
      (b * (1.0 + r) - e) * (g - 1.0);
      b * (g - 1.0) * (1.0 + r) - e * (g - 1.0);
      p * (g - x) * (1.0 + r) - p * r * g;
      p * (g - y);
    }
  }

  /** A balance in the closed form of `OwedUnderAnnuity` is below the principal once `x` exceeds 1. */
  lemma AnnuityBelowPrincipal(o: real, p: real, g: real, x: real)
    requires p > 0.0 && g > 1.0 && x > 1.0
    requires o * (g - 1.0) == p * (g - x)
    ensures o < p
  {
    var d := p - o;
    var h := g - 1.0;
    assert p * (x - 1.0) > 0.0;
    assert d * h == p * (x - 1.0);
    assert d * h > 0.0;
    PositiveFactor(d, h);
  }

  /** A balance in the closed form of `OwedUnderAnnuity` is positive while `x` is below `g`. */
  lemma AnnuityAboveZero(o: real, p: real, g: real, x: real)
    requires p > 0.0 && g > 1.0 && x < g
    requires o * (g - 1.0) == p * (g - x)
    ensures o > 0.0
  {
    var h := g - 1.0;
    assert p * (g - x) > 0.0;
    assert o * h > 0.0;
    PositiveFactor(o, h);
  }

  /**
   * `calculateEMI`: the equated monthly instalment that repays `principal` at
   * `annualRate` percent a year over `tenureYears` years, with the totals it
   * implies.  Non-positive inputs give the all-zero result.
   */
  function CalculateEmi(realPow: (real, real) -> real, principal: real, annualRate: real, tenureYears: real): (d: EmiDetails)
    requires PowAboveOne(realPow)
    ensures principal <= 0.0 || annualRate <= 0.0 || tenureYears <= 0.0 ==> d == EmiDetails(0.0, 0.0, 0.0)
    ensures principal > 0.0 && annualRate > 0.0 && tenureYears > 0.0 ==>
              d.emi > principal * MonthlyRate(annualRate) &&
              d.totalPayment == d.emi * (tenureYears * 12.0) &&
              d.totalInterest == d.totalPayment - principal
  {
    if principal <= 0.0 || annualRate <= 0.0 || tenureYears <= 0.0 then
      EmiDetails(0.0, 0.0, 0.0)
    else
      var monthlyRate := MonthlyRate(annualRate);
      var tenureMonths := tenureYears * 12.0;
      var emi := Annuity(principal, monthlyRate, MathPow(realPow, 1.0 + monthlyRate, tenureMonths));
      var totalPayment := emi * tenureMonths;
      EmiDetails(emi, totalPayment - principal, totalPayment)
  }

  /**
   * The balance left after `k` instalments of an annuity `emi` for growth
   * factor `g`, in closed form: it falls from `principal` to 0 in proportion
   * to `g - (1 + r)^k`.
   */
  lemma {:induction false} OwedUnderAnnuity(principal: real, r: real, emi: real, g: real, k: nat)
    requires emi * (g - 1.0) == principal * r * g
    ensures Owed(principal, r, emi, k) * (g - 1.0) == principal * (g - Pow(1.0 + r, k))
  {
    if k == 0 {
      assert Owed(principal, r, emi, 0) == principal && Pow(1.0 + r, 0) == 1.0;
    } else {
      OwedUnderAnnuity(principal, r, emi, g, k - 1);
      OwedUnderAnnuityStep(principal, r, emi, g, k);
    }
  }

  /** The step of `OwedUnderAnnuity`: one more month keeps the closed form. */
  lemma OwedUnderAnnuityStep(principal: real, r: real, emi: real, g: real, k: nat)
    requires k > 0 && emi * (g - 1.0) == principal * r * g
    requires Owed(principal, r, emi, k - 1) * (g - 1.0) == principal * (g - Pow(1.0 + r, k - 1))
    ensures Owed(principal, r, emi, k) * (g - 1.0) == principal * (g - Pow(1.0 + r, k))
  {
    var b := Owed(principal, r, emi, k - 1);
    var x := Pow(1.0 + r, k - 1);
    AnnuityStep(principal, r, g, x, b, emi, Pow(1.0 + r, k), Owed(principal, r, emi, k));
  }

  /** For a whole number `n` of months, `calculateEMI` is the annuity for growth factor `(1 + r)^n`. */
  lemma EmiForWholeMonths(realPow: (real, real) -> real, principal: real, annualRate: real, n: nat)
    requires PowAboveOne(realPow)
    requires principal > 0.0 && annualRate > 0.0 && n >= 1
    ensures Pow(1.0 + MonthlyRate(annualRate), n) > 1.0
    ensures CalculateEmi(realPow, principal, annualRate, n as real / 12.0).emi
            == Annuity(principal, MonthlyRate(annualRate), Pow(1.0 + MonthlyRate(annualRate), n))
  {
    var r := MonthlyRate(annualRate);
    var tenureYears := n as real / 12.0;
    var months := tenureYears * 12.0;
    assert months == n as real;
    assert IsNatural(months) && ToNat(months) == n;
    var growth := MathPow(realPow, 1.0 + r, months);
    assert growth == Pow(1.0 + r, n);
    PowAboveOneAtNatural(1.0 + r, n);
    assert CalculateEmi(realPow, principal, annualRate, tenureYears).emi == Annuity(principal, r, growth);
  }

  /**
   * The instalment `calculateEMI` returns for a whole number `n` of months
   * repays the loan exactly: the balance stays positive and below the
   * principal for the first `n - 1` months and is zero after month `n`.
   */
  lemma EmiRepaysInTenure(realPow: (real, real) -> real, principal: real, annualRate: real, n: nat, k: nat)
    requires PowAboveOne(realPow)
    requires principal > 0.0 && annualRate > 0.0 && n >= 1 && k <= n
    ensures var emi := CalculateEmi(realPow, principal, annualRate, n as real / 12.0).emi;
            var owed := Owed(principal, MonthlyRate(annualRate), emi, k);
            (k < n ==> 0.0 < owed) && (0 < k ==> owed < principal) && (k == n ==> owed == 0.0)
  {
    var r := MonthlyRate(annualRate);
    EmiForWholeMonths(realPow, principal, annualRate, n);
    var g := Pow(1.0 + r, n);
    var emi := Annuity(principal, r, g);
    OwedUnderAnnuity(principal, r, emi, g, k);
    var owed := Owed(principal, r, emi, k);
    var x := Pow(1.0 + r, k);
    assert owed * (g - 1.0) == principal * (g - x);
    if k < n {
      PowStrictlyIncreasing(1.0 + r, k, n);
      AnnuityAboveZero(owed, principal, g, x);
    }
    if 0 < k {
      PowAboveOneAtNatural(1.0 + r, k);
      AnnuityBelowPrincipal(owed, principal, g, x);
    }
    if k == n {
      ZeroFactor(owed, g - 1.0);
    }
  }

  /** An instalment above the month's interest gives a ratio above 1. */
  lemma RatioAboveOne(e: real, a: real)
    requires 0.0 < a < e
    ensures e / (e - a) > 1.0
  {
    var q := e / (e - a);
    var d := e - a;
    var s := q - 1.0;
    assert q * d == e;
    assert s * d == a;
    PositiveFactor(s, d);
  }

  /**
   * `calculateTenureFromEMI`: the tenure in years, rounded to two decimals,
   * that an instalment of `emi` needs to repay `principal`.  Non-positive
   * inputs give 0; an instalment that does not exceed the first month's
   * interest never repays the loan.
   */
  function CalculateTenureFromEmi(ln: real -> real, principal: real, annualRate: real, emi: real): (t: Tenure)
    requires LogPositiveAboveOne(ln)
    ensures principal <= 0.0 || annualRate <= 0.0 || emi <= 0.0 ==> t == Years(0.0)
    ensures t == NeverRepaid <==>
              principal > 0.0 && annualRate > 0.0 && emi > 0.0 && emi <= principal * MonthlyRate(annualRate)
    ensures t.Years? ==> t.years >= 0.0
  {
    if principal <= 0.0 || annualRate <= 0.0 || emi <= 0.0 then
      Years(0.0)
    else
      var monthlyRate := MonthlyRate(annualRate);
      if emi <= principal * monthlyRate then
        NeverRepaid
      else
        var interest := principal * monthlyRate;
        var ratio := emi / (emi - interest);
        RatioAboveOne(emi, interest);
        var nMonths := ln(ratio) / ln(1.0 + monthlyRate);
        Years(Round2(nMonths / 12.0))
  }

  /** The ratio the tenure solver takes the logarithm of is, for the instalment over `n` months, `(1 + r)^n`. */
  lemma EmiGrowthRatio(realPow: (real, real) -> real, principal: real, annualRate: real, n: nat)
    requires PowAboveOne(realPow)
    requires principal > 0.0 && annualRate > 0.0 && n >= 1
    ensures var emi := CalculateEmi(realPow, principal, annualRate, n as real / 12.0).emi;
            var a := principal * MonthlyRate(annualRate);
            emi > a && emi / (emi - a) == Pow(1.0 + MonthlyRate(annualRate), n)
  {
    var r := MonthlyRate(annualRate);
    var a := principal * r;
    EmiForWholeMonths(realPow, principal, annualRate, n);
    assert a > 0.0;
    AnnuityExceedsInterest(Annuity(principal, r, Pow(1.0 + r, n)), a, Pow(1.0 + r, n));
  }

  /** The month count the tenure solver derives from `(1 + r)^n` is `n`. */
  lemma LogOfPowRatio(ln: real -> real, r: real, n: nat)
    requires LogPositiveAboveOne(ln) && LogOfProduct(ln) && r > 0.0
    ensures ln(Pow(1.0 + r, n)) / ln(1.0 + r) == n as real
  {
    LogOfPow(ln, 1.0 + r, n);
    assert ln(1.0 + r) > 0.0;
    QuotientOfProduct(ln(Pow(1.0 + r, n)), ln(1.0 + r), n as real);
  }

  /**
   * An instalment above the first month's interest repays the loan: if
   * `months` is the month count at which `(1 + r)^months` reaches
   * `emi / (emi - P r)` (stated through the logarithm), the solver answers a
   * whole number of hundredths of a year within half a hundredth of
   * `months / 12`.
   */
  lemma TenureWhenRepaid(ln: real -> real, principal: real, annualRate: real, emi: real, months: real)
    requires LogPositiveAboveOne(ln)
    requires principal > 0.0 && annualRate > 0.0 && emi > principal * MonthlyRate(annualRate)
    requires months * ln(1.0 + MonthlyRate(annualRate)) == ln(emi / (emi - principal * MonthlyRate(annualRate)))
    ensures var t := CalculateTenureFromEmi(ln, principal, annualRate, emi);
            t.Years? && (100.0 * t.years).Floor as real == 100.0 * t.years &&
            months / 12.0 - 0.005 < t.years <= months / 12.0 + 0.005
  {
    var r := MonthlyRate(annualRate);
    var ratio := emi / (emi - principal * r);
    assert 1.0 + r > 1.0;
    assert ln(1.0 + r) > 0.0;
    assert ratio == emi / (emi - principal * MonthlyRate(annualRate));
    assert ln(ratio) == months * ln(1.0 + r);
    QuotientOfProduct(ln(ratio), ln(1.0 + r), months);
    assert CalculateTenureFromEmi(ln, principal, annualRate, emi) == Years(Round2(ln(ratio) / ln(1.0 + r) / 12.0));
  }

  /**
   * Solving for the tenure undoes solving for the instalment: the tenure
   * solver, given the instalment for `n` months, answers `n` months, up to
   * the rounding to two decimals of a year, and never answers "never".
   */
  lemma EmiTenureRoundTrip(realPow: (real, real) -> real, ln: real -> real, principal: real, annualRate: real, n: nat)
    requires PowAboveOne(realPow) && LogPositiveAboveOne(ln) && LogOfProduct(ln)
    requires principal > 0.0 && annualRate > 0.0 && n >= 1
    ensures var t := CalculateTenureFromEmi(ln, principal, annualRate, CalculateEmi(realPow, principal, annualRate, n as real / 12.0).emi);
            t == Years(Round2(n as real / 12.0)) &&
            n as real / 12.0 - 0.005 < t.years <= n as real / 12.0 + 0.005
  {
    var r := MonthlyRate(annualRate);
    var emi := CalculateEmi(realPow, principal, annualRate, n as real / 12.0).emi;
    EmiGrowthRatio(realPow, principal, annualRate, n);
    LogOfPowRatio(ln, r, n);
  }
}
