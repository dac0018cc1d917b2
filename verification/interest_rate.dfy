/** The InterestRate value: a decimal fraction in [0, 1]. */
module Rates {
  import opened Wrappers
  import opened Errors

  type Fraction = r: real | 0.0 <= r <= 1.0 witness 0.0

  datatype InterestRate = InterestRate(value: Fraction)

  /** The rate a new account gets when none is given, 4.2%. */
  const DefaultRate := InterestRate(0.042)

  /** `new InterestRate(value)`: negative values and values above 1 throw; the bounds are accepted. */
  function NewInterestRate(value: real): (r: Result<InterestRate, Error>)
    ensures r.Success? <==> 0.0 <= value <= 1.0
    ensures r.Success? ==> r.value.value == value
    ensures value < 0.0 ==> r == Failure(Argument(NegativeRate))
    ensures value > 1.0 ==> r == Failure(Argument(RateAboveOne))
  {
    if value < 0.0 then Failure(Argument(NegativeRate))
    else if value > 1.0 then Failure(Argument(RateAboveOne))
    else Success(InterestRate(value))
  }

  /** The implicit conversion to decimal. */
  function ToDecimal(rate: InterestRate): (d: real)
    ensures 0.0 <= d <= 1.0
  {
    rate.value
  }

  /** The explicit conversion from decimal, which runs the constructor's checks. */
  function FromDecimal(value: real): (r: Result<InterestRate, Error>)
    ensures r.Success? <==> 0.0 <= value <= 1.0
  {
    NewInterestRate(value)
  }

  /** Converting a rate to decimal and back gives the same rate. */
  lemma ToFromDecimal(rate: InterestRate)
    ensures FromDecimal(ToDecimal(rate)) == Success(rate)
  {
  }

  /** A decimal the explicit conversion accepts comes back unchanged. */
  lemma FromToDecimal(value: real)
    requires FromDecimal(value).Success?
    ensures ToDecimal(FromDecimal(value).value) == value
  {
  }

  /** `Equals` and `==` compare `Value`; a rate is determined by its value. */
  function Equal(left: InterestRate, right: InterestRate): (r: bool)
    ensures r <==> left == right
  {
    left.value == right.value
  }

  function NotEqual(left: InterestRate, right: InterestRate): (r: bool)
    ensures r <==> left.value != right.value
  {
    !Equal(left, right)
  }
}
