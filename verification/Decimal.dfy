/**
 Whole numbers as ECMAScript prints them below 10^21, and back.

 Numeric dates of grants travel as such texts; the round trip is what lets a
 verifier read the very dates that were signed.
 */
module Decimal {
  import opened CodeUnits
  import opened Json

  function Digits(n: nat): (t: Text)
    ensures t != [] && AllDigits(t)
    ensures n == 0 <==> t[0] == '0' as int
    ensures t[0] == '0' as int ==> |t| == 1
  {
    if n < 10 then ['0' as int + n] else Digits(n / 10) + ['0' as int + n % 10]
  }

  lemma {:induction false} DigitRunOfDigits(t: Text)
    requires AllDigits(t)
    ensures DigitRun(t) == |t|
  {
    if t != [] { DigitRunOfDigits(t[1..]); }
  }

  lemma DigitsAreNumber(n: nat)
    ensures IsNumberText(Digits(n))
    ensures n > 0 ==> IsNumberText(['-' as int] + Digits(n))
  {
    var t := Digits(n);
    DigitRunOfDigits(t);
    assert t[|t|..] == [];
    var m := ['-' as int] + t;
    assert m[1..] == t;
  }

  function IntText(i: int): Number {
    if i >= 0 then DigitsAreNumber(i); Digits(i)
    else DigitsAreNumber(-i); ['-' as int] + Digits(-i)
  }

  function DigitsValue(t: Text): nat
    requires AllDigits(t)
  {
    if t == [] then 0 else DigitsValue(t[..|t| - 1]) * 10 + (t[|t| - 1] - '0' as int)
  }

  /** The value of a number written as a whole, nonnegative number. */
  function NatValue(t: Number): Option<nat> {
    if AllDigits(t) then Some(DigitsValue(t)) else None
  }

  lemma {:induction false} DigitsValueOfDigits(n: nat)
    ensures DigitsValue(Digits(n)) == n
  {
    var t := Digits(n);
    if n < 10 {
      assert t[..0] == [];
    } else {
      DigitsValueOfDigits(n / 10);
      assert t[..|t| - 1] == Digits(n / 10);
    }
  }

  lemma IntTextRoundTrip(i: int)
    ensures NatValue(IntText(i)) == if i >= 0 then Some(i) else None
  {
    if i >= 0 { DigitsValueOfDigits(i); } else { assert !IsDigit(IntText(i)[0]); }
  }
}
