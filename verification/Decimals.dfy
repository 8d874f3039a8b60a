/** Decimal numerals as byte strings. */
module Decimals {
  import opened Foundation

  predicate IsDigit(b: Byte) {
    0x30 <= b <= 0x39
  }

  predicate AllDigits(bytes: Bytes) {
    forall i :: 0 <= i < |bytes| ==> IsDigit(bytes[i])
  }

  function DigitsValue(digits: Bytes): nat
    requires AllDigits(digits)
  {
    if digits == [] then 0 else 10 * DigitsValue(digits[..|digits| - 1]) + (digits[|digits| - 1] - 0x30)
  }

  /** The numeral without leading zeros that every printer writes. */
  function Decimal(n: nat): (digits: Bytes)
    ensures digits != [] && AllDigits(digits)
  {
    if n < 10 then [0x30 + n] else Decimal(n / 10) + [0x30 + n % 10]
  }

  predicate IsCanonical(digits: Bytes) {
    digits != [] && AllDigits(digits) && (|digits| > 1 ==> digits[0] != 0x30)
  }

  lemma {:induction false} DecimalIsCanonical(n: nat)
    ensures IsCanonical(Decimal(n))
    ensures n > 0 ==> Decimal(n)[0] != 0x30
    ensures DigitsValue(Decimal(n)) == n
  {
    if n >= 10 {
      DecimalIsCanonical(n / 10);
      assert Decimal(n)[..|Decimal(n)| - 1] == Decimal(n / 10);
    } else {
      assert Decimal(n)[..0] == [];
    }
  }

  /** A canonical numeral is the printed form of its value, so numerals and numbers match one to one. */
  lemma {:induction false} CanonicalIsDecimal(digits: Bytes)
    requires IsCanonical(digits)
    ensures Decimal(DigitsValue(digits)) == digits
    ensures digits[0] != 0x30 ==> DigitsValue(digits) > 0
  {
    var last := |digits| - 1;
    if last == 0 {
      assert digits[..0] == [];
    } else {
      CanonicalIsDecimal(digits[..last]);
      var high := DigitsValue(digits[..last]);
      assert DigitsValue(digits) / 10 == high && DigitsValue(digits) % 10 == digits[last] - 0x30;
      assert digits == digits[..last] + [digits[last]];
    }
  }

  function Power10(n: nat): (p: nat)
    ensures p >= 1
  {
    if n == 0 then 1 else 10 * Power10(n - 1)
  }

  lemma {:induction false} DigitsValueAtLeast(digits: Bytes)
    requires AllDigits(digits) && digits != [] && digits[0] != 0x30
    ensures DigitsValue(digits) >= Power10(|digits| - 1)
  {
    if |digits| > 1 {
      DigitsValueAtLeast(digits[..|digits| - 1]);
    }
  }

  lemma {:induction false} Power10Grows(small: nat, large: nat)
    requires small <= large
    ensures Power10(small) <= Power10(large)
    decreases large
  {
    if small < large {
      Power10Grows(small, large - 1);
    }
  }
}
