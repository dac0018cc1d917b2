/**
 * Compound interest, computed exactly: principal * (1 + rate / periods) ^ periods, rounded
 * half-to-even to cents, and returned as the new balance (not the interest earned).
 */
module Interest {
  import opened Wrappers
  import opened Errors
  import opened Currency
  import opened Rates

  function Pow(x: real, n: nat): real {
    if n == 0 then 1.0 else x * Pow(x, n - 1)
  }

  lemma {:induction false} PowAtLeastOne(x: real, n: nat)
    requires x >= 1.0
    ensures Pow(x, n) >= 1.0
  {
    if n > 0 {
      PowAtLeastOne(x, n - 1);
      var p := Pow(x, n - 1);
      assert x * p - p == (x - 1.0) * p;
    }
  }

  lemma {:induction false} PowOfOne(n: nat)
    ensures Pow(1.0, n) == 1.0
  {
    if n > 0 {
      PowOfOne(n - 1);
    }
  }

  /** The compounded amount before rounding. */
  function Compounded(principal: Money, rate: InterestRate, periods: int): (amount: real)
    requires periods > 0
    ensures amount >= principal.Amount()
    ensures rate.value == 0.0 ==> amount == principal.Amount()
  {
    var growth := Pow(1.0 + rate.value / periods as real, periods);
    PowAtLeastOne(1.0 + rate.value / periods as real, periods);
    PowOfOne(periods);
    assert principal.Amount() * growth - principal.Amount() == principal.Amount() * (growth - 1.0);
    principal.Amount() * growth
  }

  /**
   * `CalculateCompoundInterest`: non-positive periods throw; otherwise the new balance is never
   * below the principal, and equals it when the rate is zero.
   */
  function CompoundInterest(principal: Money, rate: InterestRate, periods: int := 1): (r: Result<Money, Error>)
    ensures r.Failure? <==> periods <= 0
    ensures r.Failure? ==> r.error == Argument(NonPositivePeriods)
    ensures r.Success? ==> r.value.cents >= principal.cents
    ensures r.Success? && rate.value == 0.0 ==> r.value == principal
  {
    if periods <= 0 then Failure(Argument(NonPositivePeriods))
    else
      var amount := Compounded(principal, rate, periods);
      assert amount * 100.0 >= principal.cents as real;
      var rounded := RoundHalfEven(amount * 100.0);
      RoundAtLeast(amount * 100.0, principal.cents);
      RoundWholeNumber(principal.cents);
      FromDecimalExact(rounded);
      Currency.FromDecimal(rounded as real / 100.0)
  }

  /** 1000.00 at 4.2% compounded once gives 1042.00. */
  lemma CompoundInterestExample()
    ensures CompoundInterest(Money(100000), InterestRate(0.042), 1) == Success(Money(104200))
  {
    assert Pow(1.042, 1) == 1.042;
    assert Compounded(Money(100000), InterestRate(0.042), 1) == 1042.0;
    RoundWholeNumber(104200);
    FromDecimalExact(104200);
  }
}
