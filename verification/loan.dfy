// The EMI (equated monthly instalment) of a loan, over exact reals: the
// annuity formula, the balance it leaves month by month, and the proof
// that it clears the loan in exactly the chosen number of months.

module Loan {

  /** `x` to a natural power. */
  function Pow(x: real, n: nat): real {
    if n == 0 then 1.0 else x * Pow(x, n - 1)
  }

  lemma {:induction false} PowPositive(x: real, n: nat)
    requires x > 0.0
    ensures Pow(x, n) > 0.0
  {
    if n > 0 {
      PowPositive(x, n - 1);
      Positive(x, Pow(x, n - 1));
    }
  }

  lemma Positive(a: real, b: real)
    requires a > 0.0 && b > 0.0
    ensures a * b > 0.0
  {
  }

  /** A base above one raised to a positive power stays above one. */
  lemma {:induction false} PowAboveOne(x: real, n: nat)
    requires x > 1.0 && n >= 1
    ensures Pow(x, n) > 1.0
  {
    if n > 1 {
      PowAboveOne(x, n - 1);
      AboveOne(x, Pow(x, n - 1));
    }
  }

  lemma AboveOne(a: real, b: real)
    requires a > 1.0 && b > 1.0
    ensures a * b > 1.0
  {
    assert a * b - 1.0 == (a - 1.0) * b + (b - 1.0);
    Positive(a - 1.0, b);
  }

  /** `Math.pow(x, n)` for an integer exponent and a positive base. */
  function PowInt(x: real, n: int): real
    requires x > 0.0
  {
    if n >= 0 then Pow(x, n)
    else
      PowPositive(x, -n);
      1.0 / Pow(x, -n)
  }

  /** Above a base of one, only the zero power is one. */
  lemma PowIntIsOne(x: real, n: int)
    requires x > 1.0
    ensures PowInt(x, n) == 1.0 <==> n == 0
  {
    if n > 0 {
      PowAboveOne(x, n);
    } else if n < 0 {
      PowAboveOne(x, -n);
      var g := Pow(x, -n);
      assert PowInt(x, n) * g == 1.0;
    }
  }

  /** The monthly rate of an annual percentage rate. */
  function MonthlyRate(annualPercent: real): real {
    annualPercent / 12.0 / 100.0
  }

  /** `P·r·g / (g − 1)` for a growth factor `g` over the whole term. */
  function Annuity(principal: real, rate: real, growth: real): real
    requires growth != 1.0
  {
    principal * rate * growth / (growth - 1.0)
  }

  /** The annuity instalment `P·r·(1+r)^n / ((1+r)^n − 1)`. */
  function Installment(principal: real, rate: real, months: nat): real
    requires rate > 0.0 && months >= 1
  {
    var growth := Pow(1.0 + rate, months);
    PowAboveOne(1.0 + rate, months);
    Annuity(principal, rate, growth)
  }

  /** What is still owed after `k` months: each month the balance earns
      interest at `rate` and then `payment` is paid. */
  function Balance(principal: real, rate: real, payment: real, k: nat): real {
    if k == 0 then principal else Balance(principal, rate, payment, k - 1) * (1.0 + rate) - payment
  }

  /** The balance in closed form: `B_k·r = P·r·g^k − payment·(g^k − 1)`
      with `g = 1 + r`. */
  lemma {:induction false} BalanceClosed(principal: real, rate: real, payment: real, k: nat)
    ensures Balance(principal, rate, payment, k) * rate
         == principal * rate * Pow(1.0 + rate, k) - payment * (Pow(1.0 + rate, k) - 1.0)
    decreases k, 1
  {
    if k > 0 {
      BalanceClosedStep(principal, rate, payment, k);
    }
  }

  lemma {:induction false} BalanceClosedStep(principal: real, rate: real, payment: real, k: nat)
    requires k > 0
    ensures Balance(principal, rate, payment, k) * rate
         == principal * rate * Pow(1.0 + rate, k) - payment * (Pow(1.0 + rate, k) - 1.0)
    decreases k, 0
  {
    BalanceClosed(principal, rate, payment, k - 1);
    var b := Balance(principal, rate, payment, k - 1);
    var g := Pow(1.0 + rate, k - 1);
    BalanceStep(principal, rate, payment, b, g, Balance(principal, rate, payment, k), Pow(1.0 + rate, k));
  }

  /** One month of `BalanceClosed`, as plain algebra. */
  lemma BalanceStep(principal: real, rate: real, payment: real, b: real, g: real, next: real, nextGrowth: real)
    requires b * rate == principal * rate * g - payment * (g - 1.0)
    requires next == b * (1.0 + rate) - payment && nextGrowth == (1.0 + rate) * g
    ensures next * rate == principal * rate * nextGrowth - payment * (nextGrowth - 1.0)
  {
    calc {
      next * rate;
      (b * (1.0 + rate) - payment) * rate;
      (b * rate) * (1.0 + rate) - payment * rate;
      (principal * rate * g - payment * (g - 1.0)) * (1.0 + rate) - payment * rate;
      principal * rate * ((1.0 + rate) * g) - payment * ((1.0 + rate) * g - 1.0);
    }
  }

  /** Paying the instalment every month clears the loan in exactly
      `months` months. */
  lemma InstallmentClearsLoan(principal: real, rate: real, months: nat)
    requires rate > 0.0 && months >= 1
    ensures Balance(principal, rate, Installment(principal, rate, months), months) == 0.0
  {
    var e := Installment(principal, rate, months);
    var growth := Pow(1.0 + rate, months);
    PowAboveOne(1.0 + rate, months);
    BalanceClosed(principal, rate, e, months);
    assert e * (growth - 1.0) == principal * rate * growth;
    var b := Balance(principal, rate, e, months);
    assert b * rate == 0.0;
  }

  /** `(1 + r)^n − 1 < n·r·(1 + r)^n` for a positive rate. */
  lemma {:induction false} GrowthBound(rate: real, n: nat)
    requires rate > 0.0 && n >= 1
    ensures Pow(1.0 + rate, n) - 1.0 < n as real * rate * Pow(1.0 + rate, n)
  {
    var x := 1.0 + rate;
    if n == 1 {
      assert Pow(x, 1) == x;
      Positive(rate, rate);
    } else {
      GrowthBound(rate, n - 1);
      var g := Pow(x, n - 1);
      PowAboveOne(x, n - 1);
      GrowthStep(rate, (n - 1) as real, g);
    }
  }

  /** One step of `GrowthBound`, as plain algebra. */
  lemma GrowthStep(rate: real, m: real, g: real)
    requires rate > 0.0 && m >= 1.0 && g > 1.0
    requires g - 1.0 < m * rate * g
    ensures (1.0 + rate) * g - 1.0 < (m + 1.0) * rate * ((1.0 + rate) * g)
  {
    assert (1.0 + rate) * g - 1.0 == (g - 1.0) + rate * g;
    Positive(rate, g);
    Positive(m + 1.0, rate * g);
    Positive((m + 1.0) * (rate * g), rate);
    assert (m + 1.0) * rate * ((1.0 + rate) * g) == (m + 1.0) * (rate * g) + (m + 1.0) * (rate * g) * rate;
  }

  /** With a positive rate the instalments add up to more than the
      principal: the interest is positive. */
  lemma InterestPositive(principal: real, rate: real, months: nat)
    requires principal > 0.0 && rate > 0.0 && months >= 1
    ensures Installment(principal, rate, months) * months as real > principal
  {
    var growth := Pow(1.0 + rate, months);
    PowAboveOne(1.0 + rate, months);
    GrowthBound(rate, months);
    var e := Installment(principal, rate, months);
    MultiplyBack(e, principal * rate * growth, growth - 1.0);
    InterestAlgebra(principal, rate, months as real, growth, e);
  }

  lemma MultiplyBack(a: real, b: real, c: real)
    requires c != 0.0 && a == b / c
    ensures a * c == b
  {
  }

  /** The algebra of `InterestPositive`: an instalment `e` with
      `e·(g − 1) = P·r·g` and `g − 1 < n·r·g` repays more than `P` over `n`
      months. */
  lemma InterestAlgebra(principal: real, rate: real, n: real, growth: real, e: real)
    requires principal > 0.0 && growth > 1.0
    requires e * (growth - 1.0) == principal * rate * growth
    requires growth - 1.0 < n * rate * growth
    ensures e * n > principal
  {
    Positive(principal, n * rate * growth - (growth - 1.0));
    assert (e * n) * (growth - 1.0) == principal * (n * rate * growth);
    assert (e * n - principal) * (growth - 1.0) > 0.0;
    PositiveFactor(e * n - principal, growth - 1.0);
  }

  lemma PositiveFactor(a: real, b: real)
    requires b > 0.0 && a * b > 0.0
    ensures a > 0.0
  {
    if a < 0.0 {
      Positive(-a, b);
    }
  }

  /** The ranges of the theme's three sliders. */
  predicate SliderRange(principal: real, annualRate: real, months: int) {
    10000.0 <= principal <= 10000000.0 && 1.0 <= annualRate <= 30.0 && 1 <= months <= 360
  }

  /** The EMI page's results. */
  datatype EmiReport = EmiReport(emi: real, totalPayment: real, totalInterest: real)

  /** `calculateEMI` of the theme, on values its sliders can take. */
  function CalculateEmi(principal: real, annualRate: real, months: int): (r: EmiReport)
    requires SliderRange(principal, annualRate, months)
    ensures r.totalPayment == r.emi * months as real
    ensures principal + r.totalInterest == r.totalPayment
    ensures Balance(principal, MonthlyRate(annualRate), r.emi, months) == 0.0
    ensures r.totalInterest > 0.0
  {
    var rate := MonthlyRate(annualRate);
    var emi := Installment(principal, rate, months);
    InstallmentClearsLoan(principal, rate, months);
    InterestPositive(principal, rate, months);
    var total := emi * months as real;
    EmiReport(emi, total, total - principal)
  }
}
