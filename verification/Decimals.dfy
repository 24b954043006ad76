/** Decimal digits and the numbers they stand for. */
module Decimals {
  import opened Characters

  predicate AllDigits(s: string) {
    forall i :: 0 <= i < |s| ==> IsDigit(s[i])
  }

  function DecimalValue(digits: string): nat
    requires AllDigits(digits)
  {
    if digits == "" then 0
    else DecimalValue(digits[..|digits| - 1]) * 10 + (digits[|digits| - 1] as int - '0' as int)
  }

  /** A number as `std::to_string` writes it. */
  function Decimal(n: nat): (digits: string)
    ensures digits != "" && AllDigits(digits)
  {
    var last := ['0' + (n % 10) as char];
    if n < 10 then last else Decimal(n / 10) + last
  }

  lemma {:induction false} DecimalRead(n: nat)
    ensures DecimalValue(Decimal(n)) == n
  {
    var d := Decimal(n);
    if n >= 10 {
      DecimalRead(n / 10);
      assert d[..|d| - 1] == Decimal(n / 10);
    } else {
      assert d[..|d| - 1] == "";
    }
  }

  function Power10(k: nat): nat {
    if k == 0 then 1 else 10 * Power10(k - 1)
  }

  /** Each digit times the power of ten of its place. */
  function Weighted(digits: string): nat
    requires AllDigits(digits)
  {
    if digits == "" then 0
    else (digits[0] as int - '0' as int) * Power10(|digits| - 1) + Weighted(digits[1..])
  }

  lemma {:induction false} WeightedLast(digits: string, d: char)
    requires AllDigits(digits) && IsDigit(d)
    ensures Weighted(digits + [d]) == 10 * Weighted(digits) + (d as int - '0' as int)
  {
    var more := digits + [d];
    if digits == "" {
      assert more[1..] == "" && Power10(0) == 1;
    } else {
      assert more[1..] == digits[1..] + [d];
      WeightedLast(digits[1..], d);
      var v, p := digits[0] as int - '0' as int, Power10(|digits| - 1);
      assert Power10(|digits|) == 10 * p;
      TenTimes(v, p);
    }
  }

  lemma {:induction false} TenTimes(v: int, p: int)
    ensures v * (10 * p) == 10 * (v * p)
  {
  }

  /** Digits stand for numbers in base ten, the highest first. */
  lemma {:induction false} DecimalPlaces(digits: string)
    requires AllDigits(digits)
    ensures DecimalValue(digits) == Weighted(digits)
  {
    if digits != "" {
      var init, d := digits[..|digits| - 1], digits[|digits| - 1];
      DecimalPlaces(init);
      WeightedLast(init, d);
      assert init + [d] == digits;
    }
  }
}
