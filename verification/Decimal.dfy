/** Decimal numerals: the canonical digits of a number, and reading them back. */
module Decimal {
  import opened Wrappers

  function DigitChar(d: nat): char
    requires d < 10
  {
    '0' + d as char
  }

  predicate IsDigit(c: char) { '0' <= c <= '9' }

  function DigitValue(c: char): nat
    requires IsDigit(c)
  {
    (c - '0') as nat
  }

  /** The canonical numeral of `n`. */
  function Digits(n: nat): (r: string)
    ensures r != [] && forall c | c in r :: IsDigit(c)
  {
    if n < 10 then [DigitChar(n)] else Digits(n / 10) + [DigitChar(n % 10)]
  }

  function ValueOf(s: string): nat
    requires forall c | c in s :: IsDigit(c)
  {
    if s == [] then 0 else ValueOf(s[..|s|-1]) * 10 + DigitValue(s[|s|-1])
  }

  /** Reading the canonical digits of `n` gives `n` again. */
  lemma {:induction false} DigitsReadBack(n: nat)
    ensures ValueOf(Digits(n)) == n
  {
    if n < 10 {
      assert Digits(n)[..0] == [];
      assert ValueOf(Digits(n)) == ValueOf([]) * 10 + n;
    } else {
      var front := Digits(n / 10);
      DigitsReadBack(n / 10);
      assert Digits(n)[..|front|] == front;
      assert n == (n / 10) * 10 + n % 10;
    }
  }

  function Pow10(k: nat): nat { if k == 0 then 1 else 10 * Pow10(k - 1) }

  /** A number below 10^k needs at most k digits, and its first digit is not a superfluous zero. */
  lemma {:induction false} DigitsAreShort(n: nat, k: nat)
    requires k > 0 && n < Pow10(k)
    ensures |Digits(n)| <= k
    ensures n > 0 ==> Digits(n)[0] != '0'
  {
    if n >= 10 {
      assert k > 1 && n / 10 < Pow10(k - 1);
      DigitsAreShort(n / 10, k - 1);
    }
  }

  const U64_MAX: nat := 0xFFFF_FFFF_FFFF_FFFF

  predicate AllDigits(s: string) { forall c | c in s :: IsDigit(c) }

  /** What the standard library's parser for 64-bit unsigned numbers accepts: an optional plus sign
      and at least one digit, with a value in range. */
  function ParseU64(s: string): (r: Option<nat>)
    ensures r.Some? ==> r.value <= U64_MAX
  {
    var digits := if s != [] && s[0] == '+' then s[1..] else s;
    if digits != [] && AllDigits(digits) && ValueOf(digits) <= U64_MAX then Some(ValueOf(digits)) else None
  }

  lemma {:induction false} ParseCanonical(n: nat)
    requires n <= U64_MAX
    ensures ParseU64(Digits(n)) == ParseU64("+" + Digits(n)) == Some(n)
    ensures ParseU64("-" + Digits(n)) == None
  {
    DigitsReadBack(n);
    assert Digits(n)[0] in Digits(n);
    assert ("+" + Digits(n))[1..] == Digits(n);
    assert '-' in "-" + Digits(n) && !IsDigit('-');
  }
}
