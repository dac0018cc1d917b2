/**
 * The Money value: a decimal amount of at least 0.01, kept to two decimal places.
 * An amount is held as a whole number of cents; a C# `decimal` argument is an exact `real`.
 */
module Currency {
  import opened Wrappers
  import opened Errors

  /** A positive number of cents: every Money is at least 0.01. */
  type Cents = c: int | c >= 1 witness 1

  datatype Money = Money(cents: Cents) {
    /** The decimal `Amount` property. */
    function Amount(): real {
      cents as real / 100.0
    }
  }

  const MinimumAmount: real := 0.01

  /**
   * `Math.Round(x)` with its default midpoint rule: the nearest integer, and on a tie the
   * even one of the two neighbours.
   */
  function RoundHalfEven(x: real): (r: int)
    ensures x - 0.5 <= r as real <= x + 0.5
    ensures (r as real - x == 0.5 || x - r as real == 0.5) ==> r % 2 == 0
  {
    var f := x.Floor;
    var d := x - f as real;
    if d < 0.5 then f
    else if d > 0.5 then f + 1
    else if f % 2 == 0 then f
    else f + 1
  }

  lemma RoundWholeNumber(n: int)
    ensures RoundHalfEven(n as real) == n
  {
  }

  /** Rounding never goes below a whole number the input is at least. */
  lemma RoundAtLeast(x: real, n: int)
    requires x >= n as real
    ensures RoundHalfEven(x) >= n
  {
  }

  /**
   * `new Money(decimal)`: the minimum is checked on the unrounded input, and the stored
   * amount is the input rounded half-to-even to two places.
   */
  function FromDecimal(amount: real): (r: Result<Money, Error>)
    ensures r.Success? <==> amount >= MinimumAmount
    ensures r.Failure? ==> r.error == Argument(BelowMinimumAmount)
    ensures r.Success? ==> amount - 0.005 <= r.value.Amount() <= amount + 0.005
    ensures r.Success? ==> r.value.cents == RoundHalfEven(amount * 100.0)
  {
    if amount < MinimumAmount then Failure(Argument(BelowMinimumAmount))
    else
      RoundAtLeast(amount * 100.0, 1);
      Success(Money(RoundHalfEven(amount * 100.0)))
  }

  /** A decimal that already has two places is stored exactly. */
  lemma {:induction false} FromDecimalExact(c: int)
    ensures c >= 1 ==> FromDecimal(c as real / 100.0) == Success(Money(c))
    ensures c < 1 ==> FromDecimal(c as real / 100.0) == Failure(Argument(BelowMinimumAmount))
  {
    assert (c as real / 100.0) * 100.0 == c as real;
    RoundWholeNumber(c);
  }

  /** Amounts of two Money values are equal exactly when their cents are. */
  lemma AmountInjective(a: Money, b: Money)
    ensures a.Amount() == b.Amount() <==> a == b
  {
  }

  // ---------------------------------------------------------------- arithmetic

  /** `+`: exact, and never below the minimum since both operands are at least a cent. */
  function Add(left: Money, right: Money): (r: Result<Money, Error>)
    ensures r == Success(Money(left.cents + right.cents))
  {
    FromDecimalExact(left.cents + right.cents);
    FromDecimal(left.Amount() + right.Amount())
  }

  /** `-`: exact when the difference is at least a cent, and throws otherwise. */
  function Sub(left: Money, right: Money): (r: Result<Money, Error>)
    ensures r.Success? <==> left.cents - right.cents >= 1
    ensures r.Success? ==> r.value.cents == left.cents - right.cents
    ensures r.Failure? ==> r.error == Argument(BelowMinimumAmount)
  {
    FromDecimalExact(left.cents - right.cents);
    FromDecimal(left.Amount() - right.Amount())
  }

  /** Subtracting a value from itself always throws: Money has no zero. */
  lemma SubSelfFails(m: Money)
    ensures Sub(m, m) == Failure(Argument(BelowMinimumAmount))
  {
  }

  /** `*` by a decimal scalar: the exact product, checked against the minimum, then rounded. */
  function Mul(money: Money, multiplier: real): (r: Result<Money, Error>)
    ensures r.Success? <==> money.cents as real * multiplier >= 1.0
    ensures r.Success? ==> r.value.cents == RoundHalfEven(money.cents as real * multiplier)
    ensures r.Failure? ==> r.error == Argument(BelowMinimumAmount)
  {
    var product := money.Amount() * multiplier;
    assert product * 100.0 == money.cents as real * multiplier;
    assert product >= MinimumAmount <==> money.cents as real * multiplier >= 1.0;
    FromDecimal(product)
  }

  lemma MulExample()
    ensures Mul(Money(1000), 1.5) == Success(Money(1500))
  {
    assert 1000 as real * 1.5 == 1500.0;
    RoundWholeNumber(1500);
  }

  // ---------------------------------------------------------------- comparison

  function Greater(left: Money, right: Money): (r: bool)
    ensures r <==> left.Amount() > right.Amount()
  {
    left.cents > right.cents
  }

  function Less(left: Money, right: Money): (r: bool)
    ensures r <==> left.Amount() < right.Amount()
  {
    left.cents < right.cents
  }

  function GreaterOrEqual(left: Money, right: Money): (r: bool)
    ensures r <==> left.Amount() >= right.Amount()
  {
    left.cents >= right.cents
  }

  function LessOrEqual(left: Money, right: Money): (r: bool)
    ensures r <==> left.Amount() <= right.Amount()
  {
    left.cents <= right.cents
  }

  /** `Equals` and `==`: equality of `Amount`, which is equality of the value. */
  function Equal(left: Money, right: Money): (r: bool)
    ensures r <==> left.Amount() == right.Amount()
    ensures r <==> left == right
  {
    left.cents == right.cents
  }

  function NotEqual(left: Money, right: Money): (r: bool)
    ensures r <==> left.Amount() != right.Amount()
    ensures r <==> left != right
  {
    left.cents != right.cents
  }

  // ---------------------------------------------------------------- text

  predicate IsDigit(c: char) {
    '0' <= c <= '9'
  }

  predicate AllDigits(s: string) {
    forall i :: 0 <= i < |s| ==> IsDigit(s[i])
  }

  function DigitValue(c: char): nat
    requires IsDigit(c)
  {
    (c as int - '0' as int) as nat
  }

  function DigitChar(d: nat): (c: char)
    requires d < 10
    ensures IsDigit(c) && DigitValue(c) == d
  {
    ('0' as int + d) as char
  }

  /** The number a string of decimal digits denotes (leading zeros allowed). */
  function DigitsValue(s: string): nat
    requires AllDigits(s)
  {
    if s == [] then 0 else DigitsValue(s[..|s| - 1]) * 10 + DigitValue(s[|s| - 1])
  }

  /** The shortest decimal rendering of a natural number. */
  function NatToDigits(n: nat): (s: string)
    ensures AllDigits(s) && |s| >= 1
  {
    if n < 10 then [DigitChar(n)] else NatToDigits(n / 10) + [DigitChar(n % 10)]
  }

  lemma {:induction false} DigitsRoundTrip(n: nat)
    ensures DigitsValue(NatToDigits(n)) == n
  {
    if n >= 10 {
      var s := NatToDigits(n);
      assert s[..|s| - 1] == NatToDigits(n / 10);
      DigitsRoundTrip(n / 10);
    }
  }

  /** `string.IsNullOrWhiteSpace` over the ASCII white-space characters. */
  predicate IsWhiteSpace(c: char) {
    c == ' ' || 9 <= c as int <= 13
  }

  predicate IsNullOrWhiteSpace(s: string) {
    forall i :: 0 <= i < |s| ==> IsWhiteSpace(s[i])
  }

  /** The pattern `^\d+\.\d{2}$`: one or more digits, a point, exactly two digits. */
  predicate IsMoneyPattern(s: string) {
    && |s| >= 4
    && AllDigits(s[..|s| - 3])
    && s[|s| - 3] == '.'
    && IsDigit(s[|s| - 2])
    && IsDigit(s[|s| - 1])
  }

  /** The value, in cents, of a string that matches the pattern. */
  function PatternCents(s: string): nat
    requires IsMoneyPattern(s)
  {
    DigitsValue(s[..|s| - 3]) * 100 + DigitValue(s[|s| - 2]) * 10 + DigitValue(s[|s| - 1])
  }

  /** `new Money(string)`. */
  function Parse(amount: string): (r: Result<Money, Error>)
    ensures r.Success? <==> IsMoneyPattern(amount) && PatternCents(amount) >= 1
    ensures r.Success? ==> r.value.cents == PatternCents(amount)
    ensures IsNullOrWhiteSpace(amount) ==> r == Failure(Argument(EmptyAmount))
    ensures !IsNullOrWhiteSpace(amount) && !IsMoneyPattern(amount) ==> r == Failure(Argument(MalformedAmount))
    ensures IsMoneyPattern(amount) && PatternCents(amount) < 1 ==> r == Failure(Argument(BelowMinimumAmount))
  {
    if IsNullOrWhiteSpace(amount) then
      assert |amount| < 4 || amount[|amount| - 3] != '.';  // '.' is not white space
      Failure(Argument(EmptyAmount))
    else if !IsMoneyPattern(amount) then Failure(Argument(MalformedAmount))
    else
      var parsed := PatternCents(amount);
      if parsed < 1 then Failure(Argument(BelowMinimumAmount))
      else Success(Money(parsed))
  }

  lemma ParseExamples()
    ensures Parse("123.45") == Success(Money(12345))
    ensures Parse("123.4").Failure?
    ensures Parse("123").Failure?
    ensures Parse("123.456").Failure?
    ensures Parse("abc").Failure?
    ensures Parse("") == Failure(Argument(EmptyAmount))
    ensures Parse("0.00") == Failure(Argument(BelowMinimumAmount))
  {
    var s := "123.45";
    assert s[..|s| - 3] == "123";
    assert DigitsValue("123") == 123 by {
      assert "123"[..2] == "12";
      assert "12"[..1] == "1";
      assert "1"[..0] == "";
    }
    assert !IsNullOrWhiteSpace(s) by { assert !IsWhiteSpace(s[0]); }
    var z := "0.00";
    assert z[..|z| - 3] == "0";
    assert DigitsValue("0") == 0 by { assert "0"[..0] == ""; }
    assert !IsNullOrWhiteSpace(z) by { assert !IsWhiteSpace(z[0]); }
    var t := "123.456";
    assert t[|t| - 3] == '4';
    var a := "abc";
    assert !IsNullOrWhiteSpace(a) by { assert !IsWhiteSpace(a[0]); }
  }

  /** `ToString()` with format "F2": the whole part, a point, and exactly two decimals. */
  function Format(m: Money): (s: string)
    ensures IsMoneyPattern(s)
  {
    var s := NatToDigits(m.cents / 100) + "." + [DigitChar(m.cents / 10 % 10), DigitChar(m.cents % 10)];
    assert s[..|s| - 3] == NatToDigits(m.cents / 100);
    s
  }

  lemma CentsDigits(c: nat)
    ensures c / 100 * 100 + c / 10 % 10 * 10 + c % 10 == c
  {
    var q, r := c / 10, c % 10;
    var h, t := q / 10, q % 10;
    assert c == q * 10 + r && q == h * 10 + t;
    assert c == h * 100 + (t * 10 + r);
    assert c / 100 == h;
  }

  /** Parsing what `ToString` prints gives the same Money back. */
  lemma {:induction false} FormatParseRoundTrip(m: Money)
    ensures Parse(Format(m)) == Success(m)
  {
    var s := Format(m);
    var whole := NatToDigits(m.cents / 100);
    assert s[..|s| - 3] == whole;
    assert s[|s| - 2] == DigitChar(m.cents / 10 % 10);
    assert s[|s| - 1] == DigitChar(m.cents % 10);
    assert !IsNullOrWhiteSpace(s) by { assert !IsWhiteSpace(s[|s| - 3]); }
    DigitsRoundTrip(m.cents / 100);
    CentsDigits(m.cents);
    assert PatternCents(s) == m.cents;
  }

  lemma FormatExample()
    ensures Format(Money(12345)) == "123.45"
  {
    assert NatToDigits(123) == "123";
  }
}
