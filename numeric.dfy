/** Rust's `str::parse::<u16>()` / `str::parse::<u64>()` (the `FromStr` of unsigned
    integers) and the decimal rendering that `{}` gives an unsigned integer. */
module Numeric {
  import opened Wrappers

  const U16_MAX: nat := 0xFFFF
  const U64_MAX: nat := 0xFFFF_FFFF_FFFF_FFFF

  predicate IsDigit(c: char) {
    '0' <= c <= '9'
  }

  predicate AllDigits(s: string) {
    forall k :: 0 <= k < |s| ==> IsDigit(s[k])
  }

  function DigitValue(c: char): (d: nat)
    requires IsDigit(c)
    ensures d < 10
  {
    (c as int) - ('0' as int)
  }

  function DigitChar(d: nat): (c: char)
    requires d < 10
    ensures IsDigit(c) && DigitValue(c) == d
  {
    ('0' as int + d) as char
  }

  /** The value of a string of decimal digits, most significant first. */
  function DigitsValue(s: string): nat
    requires AllDigits(s)
  {
    if |s| == 0 then 0
    else DigitsValue(s[..|s| - 1]) * 10 + DigitValue(s[|s| - 1])
  }

  /** `s.parse::<uN>()` where `max` is the largest value of the type: an optional
      single leading '+', then one or more ASCII digits whose value is at most `max`.
      The empty string, a lone '+', any '-', any other character and any value
      above `max` are rejected. */
  function ParseUnsigned(s: string, max: nat): (r: Option<nat>)
    ensures r.Some? ==> r.value <= max
    ensures r.Some? ==> s != "" && s != "+"
    ensures r.Some? ==> AllDigits(s) || (s[0] == '+' && AllDigits(s[1..]))
    ensures r.Some? ==> '-' !in s && ',' !in s && '.' !in s
  {
    var digits := if |s| > 0 && s[0] == '+' then s[1..] else s;
    if |digits| == 0 || !AllDigits(digits) then None
    else if DigitsValue(digits) <= max then Some(DigitsValue(digits))
    else None
  }

  /** The shortest decimal text of `n`, as `format!("{}", n)` prints it. */
  function Decimal(n: nat): (s: string)
    ensures |s| >= 1 && AllDigits(s)
    ensures |s| == 1 || s[0] != '0'
  {
    if n < 10 then [DigitChar(n)]
    else Decimal(n / 10) + [DigitChar(n % 10)]
  }

  /** Reading back the decimal text of `n` gives `n`. */
  lemma {:induction false} DecimalValue(n: nat)
    ensures DigitsValue(Decimal(n)) == n
  {
    if n >= 10 {
      DecimalValue(n / 10);
      var s := Decimal(n);
      assert s[..|s| - 1] == Decimal(n / 10);
    }
  }

  /** The parser accepts every decimal rendering within range and returns its value. */
  lemma ParseDecimal(n: nat, max: nat)
    requires n <= max
    ensures ParseUnsigned(Decimal(n), max) == Some(n)
  {
    DecimalValue(n);
  }

  /** A leading '+' is accepted and does not change the value. */
  lemma ParsePlusDecimal(n: nat, max: nat)
    requires n <= max
    ensures ParseUnsigned("+" + Decimal(n), max) == Some(n)
  {
    DecimalValue(n);
    assert ("+" + Decimal(n))[1..] == Decimal(n);
  }

  /** The printed form of any value above the type's maximum overflows and is rejected. */
  lemma ParseOverflow(n: nat, max: nat)
    requires n > max
    ensures ParseUnsigned(Decimal(n), max) == None
  {
    DecimalValue(n);
  }

  /** Every non-empty digit string, leading zeros allowed and with or without one
      leading '+', parses to its value when that is at most `max` and is rejected
      otherwise. */
  lemma ParseDigits(d: string, max: nat)
    requires |d| >= 1 && AllDigits(d)
    ensures DigitsValue(d) <= max ==>
      ParseUnsigned(d, max) == ParseUnsigned("+" + d, max) == Some(DigitsValue(d))
    ensures DigitsValue(d) > max ==>
      ParseUnsigned(d, max) == ParseUnsigned("+" + d, max) == None
  {
    assert ("+" + d)[1..] == d;
  }

  /** Different numbers have different decimal texts. */
  lemma DecimalInjective(m: nat, n: nat)
    requires Decimal(m) == Decimal(n)
    ensures m == n
  {
    DecimalValue(m);
    DecimalValue(n);
  }

  /** A number below 1000 (an IPv4 octet, say) is written with at most three digits. */
  lemma DecimalThreeDigits(n: nat)
    requires n < 1000
    ensures |Decimal(n)| <= 3
  {
    if n >= 10 {
      assert |Decimal(n / 10)| <= 2 by {
        if n / 10 >= 10 {
          assert |Decimal(n / 100)| == 1;
        }
      }
    }
  }

  /** The first digit bounds the value from below (digits after it only add). */
  lemma {:induction false} DigitsValueAtLeastFirst(s: string)
    requires |s| >= 1 && AllDigits(s)
    ensures DigitsValue(s) >= DigitValue(s[0])
  {
    if |s| > 1 {
      DigitsValueAtLeastFirst(s[..|s| - 1]);
    }
  }

  /** A digit string without a superfluous leading zero is the decimal text of its value:
      together with DecimalValue, `Decimal` and `DigitsValue` are inverse bijections
      between numbers and canonical digit strings. */
  lemma {:induction false} DecimalOfDigits(s: string)
    requires |s| >= 1 && AllDigits(s)
    requires |s| == 1 || s[0] != '0'
    ensures Decimal(DigitsValue(s)) == s
  {
    if |s| > 1 {
      var init := s[..|s| - 1];
      assert init[0] == s[0];
      DigitsValueAtLeastFirst(init);
      DecimalOfDigits(init);
      assert init + [s[|s| - 1]] == s;
    }
  }
}
