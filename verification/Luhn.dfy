/**
 The card-number check of the data-loss detectors, against the positional checksum
 of ISO/IEC 7812-1, Annex B.
 */
module Luhn {
  import opened CodeUnits

  predicate IsDigit(u: Unit) { '0' as int <= u <= '9' as int }

  function DigitsOf(s: Text): (r: seq<nat>)
    ensures Digital(r)
  {
    if s == [] then []
    else if IsDigit(s[0]) then [s[0] - '0' as int] + DigitsOf(s[1..])
    else DigitsOf(s[1..])
  }

  /** A character counts when it is one of the ten digits, for its place among them. */
  lemma DigitRead(u: Unit, s: Text)
    ensures var ten := Units("0123456789");
            && (forall k: nat :: k < 10 && ten[k] == u ==> DigitsOf([u] + s) == [k] + DigitsOf(s))
            && (u !in ten ==> DigitsOf([u] + s) == DigitsOf(s))
  {
    var ten := Units("0123456789");
    assert ([u] + s)[1..] == s;
    assert ten[0] == 48 && ten[1] == 49 && ten[2] == 50 && ten[3] == 51 && ten[4] == 52;
    assert ten[5] == 53 && ten[6] == 54 && ten[7] == 55 && ten[8] == 56 && ten[9] == 57;
    if IsDigit(u) { assert ten[u - 48] == u; }
  }

  predicate Digital(d: seq<nat>) { forall i :: 0 <= i < |d| ==> d[i] <= 9 }

  /** Every second digit from the right counts as the digit sum of its double. */
  function Weight(second: bool, digit: nat): nat {
    if second then DigitSum(2 * digit) else digit
  }

  function DigitSum(n: nat): nat { n / 10 + n % 10 }

  /** Places 1, 3, 5, ... from the right. */
  predicate Second(place: nat) { place > 0 && !Second(place - 1) }

  function Checksum(d: seq<nat>): nat {
    if d == [] then 0 else Weight(Second(|d| - 1), d[0]) + Checksum(d[1..])
  }

  predicate ValidNumber(d: seq<nat>) {
    13 <= |d| <= 19 && Checksum(d) % 10 == 0
  }

  lemma ChecksumStep(d: seq<nat>, i: nat)
    requires Digital(d) && i < |d|
    ensures Checksum(d[i..]) - Checksum(d[i + 1..]) ==
            if !Second(|d| - 1 - i) then d[i] else if 2 * d[i] > 9 then 2 * d[i] - 9 else 2 * d[i]
    ensures Second(|d| - i) <==> !Second(|d| - 1 - i)
  {
    assert d[i..][1..] == d[i + 1..];
    WeightByCases(d[i]);
  }

  /** The loop of isValidLuhn. */
  method LuhnSum(digits: seq<nat>) returns (sum: nat)
    requires Digital(digits)
    ensures sum == Checksum(digits)
  {
    sum := 0;
    var shouldDouble := false;
    var i := |digits| - 1;
    while i >= 0
      invariant -1 <= i < |digits|
      invariant sum == Checksum(digits[i + 1..])
      invariant i >= 0 ==> (shouldDouble <==> Second(|digits| - 1 - i))
    {
      var digit := digits[i];
      ChecksumStep(digits, i);
      if shouldDouble {
        digit := digit * 2;
        if digit > 9 { digit := digit - 9; }
      }
      sum := sum + digit;
      shouldDouble := !shouldDouble;
      i := i - 1;
    }
    assert digits[0..] == digits;
  }

  method IsValidLuhn(cardNumber: Text) returns (valid: bool)
    ensures valid <==> ValidNumber(DigitsOf(cardNumber))
  {
    var digits := DigitsOf(cardNumber);
    if |digits| < 13 || |digits| > 19 { return false; }
    var sum := LuhnSum(digits);
    valid := sum % 10 == 0;
  }

  // ---- what the checksum detects -----------------------------------------------------

  lemma WeightByCases(x: nat)
    requires x <= 9
    ensures Weight(true, x) == if x > 4 then 2 * x - 9 else 2 * x
  {
    if x > 4 { assert 2 * x / 10 == 1; }
  }

  lemma {:induction false} ChecksumUpdate(d: seq<nat>, i: nat, y: nat)
    requires i < |d|
    ensures Checksum(d[i := y]) - Checksum(d) == Weight(Second(|d| - 1 - i), y) - Weight(Second(|d| - 1 - i), d[i])
  {
    if i == 0 {
      assert d[i := y][1..] == d[1..];
    } else {
      ChecksumUpdate(d[1..], i - 1, y);
      assert d[i := y][1..] == d[1..][i - 1 := y];
    }
  }

  lemma SmallShift(s: nat, t: nat)
    requires s % 10 == 0 && -9 <= t - s <= 9
    ensures t % 10 == 0 <==> t == s
  {
  }

  /** A valid number with one digit changed is not valid. */
  lemma ChangedDigitDetected(d: seq<nat>, i: nat, y: nat)
    requires Digital(d) && ValidNumber(d) && i < |d| && y <= 9
    ensures ValidNumber(d[i := y]) <==> y == d[i]
  {
    ChecksumUpdate(d, i, y);
    WeightByCases(d[i]);
    WeightByCases(y);
    SmallShift(Checksum(d), Checksum(d[i := y]));
  }

  function Swapped(d: seq<nat>, i: nat): (r: seq<nat>)
    requires i + 1 < |d|
  {
    d[i := d[i + 1]][i + 1 := d[i]]
  }

  lemma SwapUpdate(d: seq<nat>, i: nat)
    requires i + 1 < |d|
    ensures var second := Second(|d| - 2 - i);
            Checksum(Swapped(d, i)) - Checksum(d) ==
              Weight(!second, d[i + 1]) - Weight(!second, d[i]) + Weight(second, d[i]) - Weight(second, d[i + 1])
  {
    ChecksumUpdate(d, i, d[i + 1]);
    ChecksumUpdate(d[i := d[i + 1]], i + 1, d[i]);
  }

  /** A valid number with two adjacent digits swapped stays valid exactly when they are equal, or 0 and 9. */
  lemma SwapDetected(d: seq<nat>, i: nat)
    requires Digital(d) && ValidNumber(d) && i + 1 < |d|
    ensures ValidNumber(Swapped(d, i)) <==> d[i] == d[i + 1] || {d[i], d[i + 1]} == {0, 9}
  {
    var a, b := d[i], d[i + 1];
    SwapUpdate(d, i);
    WeightByCases(a);
    WeightByCases(b);
    SmallShift(Checksum(d), Checksum(Swapped(d, i)));
    ZeroAndNine(a, b);
  }

  lemma ZeroAndNine(a: nat, b: nat)
    ensures {a, b} == {0, 9} <==> (a == 0 && b == 9) || (a == 9 && b == 0)
  {
    assert 0 in {0, 9} && 9 in {0, 9};
  }

  function CheckDigit(d: seq<nat>): nat {
    (10 - Checksum(d + [0]) % 10) % 10
  }

  /** A number of 12 to 18 digits is completed by exactly one check digit. */
  lemma OneCheckDigit(d: seq<nat>, x: nat)
    requires Digital(d) && 12 <= |d| <= 18 && x <= 9
    ensures ValidNumber(d + [x]) <==> x == CheckDigit(d)
  {
    assert (d + [0])[|d| := x] == d + [x];
    ChecksumUpdate(d + [0], |d|, x);
    LastDigit(Checksum(d + [0]), x);
  }

  lemma LastDigit(s: nat, x: nat)
    requires x <= 9
    ensures (s + x) % 10 == 0 <==> x == (10 - s % 10) % 10
  {
    var r := s % 10;
    assert s == s / 10 * 10 + r;
    if r + x == 0 { assert (s + x) % 10 == 0; }
    else if r + x == 10 { assert s + x == (s / 10 + 1) * 10; }
  }

  // ---- in a text ------------------------------------------------------------------------

  lemma {:induction false} DigitsOfAppend(s: Text, t: Text)
    ensures DigitsOf(s + t) == DigitsOf(s) + DigitsOf(t)
  {
    if s == [] {
      assert s + t == t;
    } else {
      DigitsOfAppend(s[1..], t);
      assert (s + t)[0] == s[0] && (s + t)[1..] == s[1..] + t;
      if IsDigit(s[0]) { Assoc([s[0] - '0' as int], DigitsOf(s[1..]), DigitsOf(t)); }
    }
  }

  /** Mistyping one digit of an accepted card number, however it is punctuated, makes it rejected. */
  lemma MistypedDigitRejected(s: Text, k: nat, u: Unit)
    requires k < |s| && IsDigit(s[k]) && IsDigit(u) && ValidNumber(DigitsOf(s))
    ensures ValidNumber(DigitsOf(s[k := u])) <==> u == s[k]
  {
    var v, w := s[k] - '0' as int, u - '0' as int;
    DigitsAround(s, k, s[k]);
    DigitsAround(s, k, u);
    assert s[k := s[k]] == s;
    var before, after := DigitsOf(s[..k]), DigitsOf(s[k + 1..]);
    assert (before + [v] + after)[|before| := w] == before + [w] + after;
    ChangedDigitDetected(DigitsOf(s), |before|, w);
  }

  lemma DigitsAround(s: Text, k: nat, u: Unit)
    requires k < |s| && IsDigit(u)
    ensures DigitsOf(s[k := u]) == DigitsOf(s[..k]) + [u - '0' as int] + DigitsOf(s[k + 1..])
  {
    var t := s[k + 1..];
    assert s[k := u] == s[..k] + ([u] + t);
    DigitsOfAppend(s[..k], [u] + t);
    assert ([u] + t)[1..] == t;
  }
}
