/** Integer arithmetic that leaves on overflow. The machine's words wrap; the
    tests that look at what came out of them are exact. */
module CheckedArithmetic {

  const TwoTo16: int := 0x1_0000
  const TwoTo32: int := 0x1_0000_0000

  datatype Error = Overflow | InvalidArgs

  datatype Result = Value(value: int) | Leave(error: Error)

  /** Fits a signed word whose smallest value is `-half`. */
  predicate Fits(x: int, half: int) {
    -half <= x < half
  }

  predicate Fits32(x: int) { Fits(x, TwoTo32 / 2) }

  /** The low 32 bits of an integer, read as a signed word. */
  function Wrap32(x: int): (r: int)
    ensures Fits32(r) && (r - x) % TwoTo32 == 0
  {
    (x + TwoTo32 / 2) % TwoTo32 - TwoTo32 / 2
  }

  /** The sign bit of the exclusive or of two words. */
  predicate XorIsNegative(a: int, b: int) {
    (a < 0) != (b < 0)
  }

  function AddLong(left: int, right: int): (r: Result)
    requires Fits32(left) && Fits32(right)
    ensures r == if Fits32(left + right) then Value(left + right) else Leave(Overflow)
  {
    var res := Wrap32(left + right);
    if !XorIsNegative(left, right) && XorIsNegative(left, res) then Leave(Overflow) else Value(res)
  }

  function SubtractLong(left: int, right: int): (r: Result)
    requires Fits32(left) && Fits32(right)
    ensures r == if Fits32(left - right) then Value(left - right) else Leave(Overflow)
  {
    var res := Wrap32(left - right);
    if XorIsNegative(left, right) && XorIsNegative(left, res) then Leave(Overflow) else Value(res)
  }

  /** The test on the two words of a 64 bit product. */
  function MultiplyWords(product: int): (r: Result)
    ensures r == if Fits32(product) then Value(product) else Leave(Overflow)
  {
    var low := Wrap32(product);
    var high := product / TwoTo32;
    if (low < 0 && high != -1) || (low >= 0 && high != 0) then Leave(Overflow) else Value(low)
  }

  function Abs(x: int): nat { if x < 0 then -x else x }

  lemma {:induction false} TimesMonotone(x: nat, y: nat, h: nat)
    requires x <= h && y <= h
    ensures x * y <= h * h
  {
    assert x * y <= x * h by { assert x * (h - y) >= 0; }
    assert x * h <= h * h by { assert (h - x) * h >= 0; }
  }

  lemma {:induction false} AbsOfProduct(a: int, b: int)
    ensures Abs(a * b) == Abs(a) * Abs(b)
  {
    if a >= 0 && b < 0 {
      assert a * -b == -(a * b);
    } else if a < 0 && b >= 0 {
      assert -a * b == -(a * b);
    } else if a < 0 && b < 0 {
      assert -a * -b == a * b;
    }
  }

  /** A product of two words never needs more than 64 bits. */
  lemma {:induction false} ProductFits64(a: int, b: int)
    requires Fits32(a) && Fits32(b)
    ensures Fits(a * b, 0x8000_0000_0000_0000)
  {
    AbsOfProduct(a, b);
    TimesMonotone(Abs(a), Abs(b), 0x8000_0000);
  }

  function MultiplyL(a: int, b: int, half: int): (r: Result)
    requires half == TwoTo16 / 2 || half == TwoTo32 / 2
    requires Fits(a, half) && Fits(b, half)
    ensures r == if Fits(a * b, half) then Value(a * b) else Leave(Overflow)
  {
    if half == TwoTo16 / 2 then
      var res := a * b;
      if res > half - 1 || res < -half then Leave(Overflow) else Value(res)
    else
      MultiplyWords(a * b)
  }

  // ------------------------------------------------------------------ powers

  /** Division that drops the fraction, as the source language does it. */
  function Truncated(a: int, b: int): int
    requires b != 0
  {
    var q := Abs(a) / Abs(b);
    if (a < 0) == (b < 0) then q else -q
  }

  function Pow(b: int, e: nat): (r: int)
    ensures b != 0 ==> r != 0
  {
    if e == 0 then 1 else Pow(b, e - 1) * b
  }

  /** The laws of powers, which fix them all. */
  lemma {:induction false} PowAdds(b: int, m: nat, n: nat)
    ensures Pow(b, 0) == 1 && Pow(b, 1) == b && Pow(b, m + n) == Pow(b, m) * Pow(b, n)
  {
    assert Pow(b, 1) == Pow(b, 0) * b;
    if n > 0 {
      PowAdds(b, m, n - 1);
      var x, y := Pow(b, m), Pow(b, n - 1);
      assert Pow(b, m + n) == (x * y) * b == x * (y * b);
    }
  }

  lemma {:induction false} Signs(q: int, b: int)
    ensures -q * b == -(q * b) && q * -b == -(q * b) && -q * -b == q * b
  {
  }

  /** What is dropped is less than the divisor and has the sign of the dividend. */
  lemma {:induction false} TruncatedDrops(a: int, b: int)
    requires b != 0
    ensures var rest := a - Truncated(a, b) * b; Abs(rest) < Abs(b) && (rest == 0 || (rest < 0 <==> a < 0))
  {
    var q, rest := Abs(a) / Abs(b), Abs(a) % Abs(b);
    assert Abs(a) == q * Abs(b) + rest;
    var t := Truncated(a, b);
    assert t * b == if a < 0 then -(q * Abs(b)) else q * Abs(b) by {
      Signs(q, b);
    }
  }

  /** The exact power, its fraction dropped. */
  function Power(number: int, powerOf: int): int
    requires number != 0
  {
    if powerOf >= 0 then Pow(number, powerOf) else Truncated(1, Pow(number, -powerOf))
  }

  lemma {:induction false} AtLeastTwice(x: nat, y: nat)
    requires y >= 2
    ensures x * y >= 2 * x
  {
    var more := y - 2;
    assert x * more >= 0;
    assert x * y == x * more + x * 2;
  }

  lemma {:induction false} AbsTimes(a: int, b: int)
    requires Abs(b) >= 2
    ensures Abs(a * b) >= 2 * Abs(a)
  {
    AbsOfProduct(a, b);
    AtLeastTwice(Abs(a), Abs(b));
  }

  /** Once a power has left the range of a word, no higher one comes back. */
  lemma {:induction false} NoFalseOverflow(number: int, i: nat, j: nat, half: int)
    requires Abs(number) >= 2 && half > 0 && i <= j && !Fits(Pow(number, i), half)
    ensures !Fits(Pow(number, j), half) && Abs(Pow(number, j)) >= half
  {
    if i < j {
      NoFalseOverflow(number, i, j - 1, half);
      AbsTimes(Pow(number, j - 1), number);
    }
  }

  lemma {:induction false} PowOfMinusOne(e: nat)
    ensures Pow(-1, e) == (if e % 2 == 0 then 1 else -1) && Pow(1, e) == 1
  {
    if e > 0 {
      PowOfMinusOne(e - 1);
    }
  }

  lemma {:induction false} PowAtLeast(number: int, e: nat)
    requires Abs(number) >= 2 && e > 0
    ensures Abs(Pow(number, e)) >= 2
  {
    if e == 1 {
      assert Pow(number, 1) == Pow(number, 0) * number;
    } else {
      PowAtLeast(number, e - 1);
      AbsTimes(Pow(number, e - 1), number);
    }
  }

  lemma {:induction false} DivideSmall(x: nat, y: nat)
    requires x < y
    ensures x / y == 0
  {
  }

  lemma {:induction false} SmallQuotient(a: int, b: int)
    requires Abs(a) < Abs(b)
    ensures Truncated(a, b) == 0
  {
    DivideSmall(Abs(a), Abs(b));
  }

  /** There is not much left of a negative power. */
  lemma {:induction false} PowerNegative(number: int, e: int)
    requires number != 0 && e > 0
    ensures Power(number, -e) == if Abs(number) >= 2 then 0 else Pow(number, e)
    ensures Abs(number) == 1 ==> Abs(Pow(number, e)) == 1
  {
    if Abs(number) >= 2 {
      PowAtLeast(number, e);
      SmallQuotient(1, Pow(number, e));
    } else {
      PowOfMinusOne(e);
    }
  }

  /** Raising to a negative power by repeated truncating division. */
  lemma {:induction false} DivideStep(number: int, e: int)
    requires number != 0 && e >= 0
    ensures Truncated(Power(number, -e), number) == Power(number, -(e + 1))
    ensures -1 <= Power(number, -(e + 1)) <= 1
  {
    PowerNegative(number, e + 1);
    if e == 0 {
      assert Power(number, 0) == 1 && Pow(number, 1) == Pow(number, 0) * number == number;
    } else {
      PowerNegative(number, e);
      if Abs(number) == 1 {
        PowOfMinusOne(e);
        PowOfMinusOne(e + 1);
      } else {
        SmallQuotient(0, number);
      }
    }
  }

  /** Repeated multiplication, stopping at the first product that does not fit. */
  method RaiseUp(number: int, powerOf: nat, half: int) returns (r: Result)
    requires half == TwoTo16 / 2 || half == TwoTo32 / 2
    requires number != 0 && Fits(number, half)
    ensures r == if Fits(Pow(number, powerOf), half) then Value(Pow(number, powerOf)) else Leave(Overflow)
  {
    var result := 1;
    var p := powerOf;
    while p > 0
      invariant 0 <= p <= powerOf && result == Pow(number, powerOf - p) && Fits(result, half)
    {
      assert Pow(number, powerOf - p + 1) == result * number;
      var product := MultiplyL(result, number, half);
      if product.Leave? {
        PowOfMinusOne(powerOf - p + 1);
        NoFalseOverflow(number, powerOf - p + 1, powerOf, half);
        return product;
      }
      result := product.value;
      p := p - 1;
    }
    return Value(result);
  }

  /** Repeated division. */
  method LowerDown(number: int, powerOf: int) returns (result: int)
    requires number != 0 && powerOf <= 0
    ensures result == Power(number, powerOf) && -1 <= result <= 1
  {
    result := 1;
    var p := powerOf;
    while p < 0
      invariant powerOf <= p <= 0 && result == Power(number, powerOf - p) && -1 <= result <= 1
    {
      DivideStep(number, p - powerOf);
      result := Truncated(result, number);
      p := p + 1;
    }
  }

  /** PowerOfInt and PowerOfLong, for words of either width: the exact power,
      truncated towards zero, and a leave exactly when that does not fit. */
  method PowerOf(number: int, powerOf: int, half: int) returns (r: Result)
    requires half == TwoTo16 / 2 || half == TwoTo32 / 2
    requires Fits(number, half) && Fits(powerOf, half)
    ensures number != 0 ==>
      r == if Fits(Power(number, powerOf), half) then Value(Power(number, powerOf)) else Leave(Overflow)
    ensures number == 0 ==> r == if powerOf <= 0 then Leave(InvalidArgs) else Value(0)
  {
    if powerOf <= 0 && number == 0 {
      return Leave(InvalidArgs);
    }
    if number == 0 {
      return Value(number);
    }
    if number == 1 {
      PowOfMinusOne(Abs(powerOf));
      return Value(1);
    }
    if powerOf > 0 {
      r := RaiseUp(number, powerOf, half);
    } else {
      var result := LowerDown(number, powerOf);
      r := Value(result);
    }
  }
}
