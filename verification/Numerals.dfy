/** Numbers as text, as QString::number and the %x of printf write them. */
module Numerals {

  const DIGITS := "0123456789abcdef"

  function Numeral(n: nat, base: nat): (s: string)
    requires 2 <= base <= 16
    ensures s != [] && forall c :: c in s ==> c in DIGITS[..base]
  {
    Quotient(n, base);
    var last := [DIGITS[n % base]];
    assert DIGITS[..base][n % base] == DIGITS[n % base];
    if n < base then last else Numeral(n / base, base) + last
  }

  function DigitValue(c: char): nat {
    if '0' <= c <= '9' then c as nat - '0' as nat else if 'a' <= c <= 'f' then 10 + c as nat - 'a' as nat else 0
  }

  function Value(s: string, base: nat): nat {
    if s == "" then 0 else Value(s[..|s| - 1], base) * base + DigitValue(s[|s| - 1])
  }

  lemma ValueSnoc(s: string, d: nat, base: nat)
    requires d < 16
    ensures Value(s + [DIGITS[d]], base) == Value(s, base) * base + d
  {
    assert (s + [DIGITS[d]])[..|s|] == s;
    assert DigitValue(DIGITS[d]) == d;
  }

  lemma Quotient(n: nat, base: nat)
    requires 2 <= base
    ensures n / base * base + n % base == n && (base <= n ==> n / base < n)
  {
    var q := n / base;
    assert q * base == q * 2 + q * (base - 2);
  }

  lemma LastDigit(n: nat, base: nat)
    requires 2 <= base <= 16
    ensures Numeral(n, base) == (if n < base then "" else Numeral(n / base, base)) + [DIGITS[n % base]]
    ensures n < base ==> n % base == n
  {
  }

  /** What is written is read back, so different numbers are written differently. */
  lemma {:induction false} NumeralValue(n: nat, base: nat)
    requires 2 <= base <= 16
    ensures Value(Numeral(n, base), base) == n
    ensures Numeral(n, base)[0] == '0' <==> n == 0
    ensures n < base ==> |Numeral(n, base)| == 1
  {
    hide Value, Numeral;
    LastDigit(n, base);
    Quotient(n, base);
    if n < base {
      ValueSnoc("", n % base, base);
      ValueNone(base);
    } else {
      NumeralValue(n / base, base);
      ValueSnoc(Numeral(n / base, base), n % base, base);
    }
  }

  lemma ValueNone(base: nat)
    ensures Value("", base) * base == 0
  {
  }

  lemma Injective(m: nat, n: nat, base: nat)
    requires 2 <= base <= 16 && Numeral(m, base) == Numeral(n, base)
    ensures m == n
  {
    NumeralValue(m, base);
    NumeralValue(n, base);
  }
}
