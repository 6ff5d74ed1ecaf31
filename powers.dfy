/**
 * Exact arithmetic standing in for the host's `Math.pow`, `Math.log` and
 * `Number.prototype.toFixed(2)`.
 *
 * A power with a natural exponent is computed exactly by `Pow`.  A power with
 * any other exponent, and the natural logarithm, are not computable over
 * `real`; they are passed in as functions (`realPow`, `ln`) and the
 * properties of them that the model relies on are stated as predicates that
 * the members using them require.
 */
module Powers {

  /** `b` raised to a natural power, by repeated multiplication. */
  function Pow(b: real, n: nat): real {
    if n == 0 then 1.0 else b * Pow(b, n - 1)
  }

  /** Powers of a positive base are positive. */
  lemma {:induction false} PowPositive(b: real, n: nat)
    requires b > 0.0
    ensures Pow(b, n) > 0.0
  {
    if n > 0 {
      PowPositive(b, n - 1);
      var p := Pow(b, n - 1);
      assert b * p > 0.0;
    }
  }

  lemma {:induction false} PowAdd(b: real, m: nat, n: nat)
    ensures Pow(b, m + n) == Pow(b, m) * Pow(b, n)
  {
    if m > 0 {
      PowAdd(b, m - 1, n);
      calc {
        Pow(b, m + n);
        b * Pow(b, m - 1 + n);
        b * (Pow(b, m - 1) * Pow(b, n));
        (b * Pow(b, m - 1)) * Pow(b, n);
      }
    }
  }

  /** Above 1, every positive power is above 1. */
  lemma {:induction false} PowAboveOneAtNatural(b: real, n: nat)
    requires b > 1.0 && n >= 1
    ensures Pow(b, n) > 1.0
  {
    if n > 1 {
      PowAboveOneAtNatural(b, n - 1);
      var p := Pow(b, n - 1);
      assert b * p > 1.0 * p;
    }
  }

  /** Above 1, powers grow strictly with the exponent. */
  lemma {:induction false} PowStrictlyIncreasing(b: real, m: nat, n: nat)
    requires b > 1.0 && m < n
    ensures Pow(b, m) < Pow(b, n)
  {
    PowAdd(b, m, n - m);
    PowAboveOneAtNatural(b, n - m);
    PowPositive(b, m);
    var p := Pow(b, m);
    var q := Pow(b, n - m);
    assert p * q > p * 1.0;
  }

  /** True of a real that is a natural number. */
  predicate IsNatural(x: real) {
    x >= 0.0 && x == x.Floor as real
  }

  /** Below a natural number, the next natural number is at most it. */
  lemma NaturalSuccessorWithin(k: nat, x: real)
    requires IsNatural(x) && k as real < x
    ensures (k + 1) as real <= x
  {
    var n := x.Floor;
    assert n as real == x;
    assert k < n;
  }

  /** The natural number a real `IsNatural` stands for. */
  function ToNat(x: real): (n: nat)
    requires IsNatural(x)
    ensures n as real == x
  {
    x.Floor
  }

  /**
   * What the model assumes of the host's power function at an exponent that
   * is not a natural number: a base above 1 raised to a positive exponent is
   * above 1.
   */
  ghost predicate PowAboveOne(realPow: (real, real) -> real) {
    forall b: real, e: real :: b > 1.0 && e > 0.0 ==> realPow(b, e) > 1.0
  }

  /**
   * `Math.pow(b, e)`: exact at a natural exponent, the host's value
   * otherwise.
   */
  function MathPow(realPow: (real, real) -> real, b: real, e: real): (r: real)
    ensures IsNatural(e) ==> r == Pow(b, ToNat(e))
    ensures b > 1.0 && e > 0.0 && (IsNatural(e) || PowAboveOne(realPow)) ==> r > 1.0
  {
    if IsNatural(e) then
      var n := ToNat(e);
      if b > 1.0 && n >= 1 then PowAboveOneAtNatural(b, n); Pow(b, n) else Pow(b, n)
    else
      realPow(b, e)
  }

  /** What the model assumes of the host's logarithm: it is positive above 1. */
  ghost predicate LogPositiveAboveOne(ln: real -> real) {
    forall x: real :: x > 1.0 ==> ln(x) > 0.0
  }

  /** `x * y`, named so that the law below is used only where a proof asks for it. */
  function Times(x: real, y: real): real {
    x * y
  }

  /** The defining law of a logarithm: it turns products into sums. */
  ghost predicate LogOfProduct(ln: real -> real) {
    forall x: real, y: real :: x > 0.0 && y > 0.0 ==> ln(Times(x, y)) == ln(x) + ln(y)
  }

  /** A logarithm takes a natural power to a multiple. */
  lemma {:induction false} LogOfPow(ln: real -> real, b: real, n: nat)
    requires LogOfProduct(ln) && b > 0.0
    ensures ln(Pow(b, n)) == n as real * ln(b)
  {
    if n == 0 {
      assert ln(Times(b, Pow(b, 0))) == ln(b) + ln(Pow(b, 0));
    } else {
      LogOfPow(ln, b, n - 1);
      PowPositive(b, n - 1);
      var p := Pow(b, n - 1);
      assert ln(Times(b, p)) == ln(b) + ln(p);
    }
  }

  /**
   * `Number(x.toFixed(2))` for a non-negative `x`: the multiple of 1/100
   * nearest to `x`, halves rounded up.
   */
  function Round2(x: real): (r: real)
    ensures (100.0 * r).Floor as real == 100.0 * r
    ensures x - 0.005 < r <= x + 0.005
    ensures IsNatural(100.0 * x) ==> r == x
    ensures x >= 0.0 ==> r >= 0.0
  {
    var y := 100.0 * x + 0.5;
    var k := y.Floor;
    assert k as real <= y < k as real + 1.0;
    var n := (100.0 * x).Floor;
    assert x >= 0.0 ==> k >= 0;
    assert IsNatural(100.0 * x) ==> k as real < n as real + 1.0 && n as real < k as real + 1.0;
    assert IsNatural(100.0 * x) ==> k == n;
    (k as real) / 100.0
  }

  /** A factor of a positive product with a positive co-factor is positive. */
  lemma PositiveFactor(x: real, y: real)
    requires y > 0.0 && x * y > 0.0
    ensures x > 0.0
  {
  }

  /** A common positive factor can be cancelled from a strict inequality. */
  lemma CancelPositive(a: real, b: real, c: real)
    requires c > 0.0 && a * c < b * c
    ensures a < b
  {
    var d := b - a;
    assert d * c == b * c - a * c;
    assert d * c > 0.0;
    PositiveFactor(d, c);
  }

  /** A product with a non-zero factor is zero only if the other factor is. */
  lemma ZeroFactor(x: real, y: real)
    requires y != 0.0 && x * y == 0.0
    ensures x == 0.0
  {
  }

  /** Division undoes multiplication. */
  lemma QuotientOfProduct(x: real, y: real, q: real)
    requires y != 0.0 && x == q * y
    ensures x / y == q
  {
  }
}
