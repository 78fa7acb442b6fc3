/**
 * Numbers as text: JavaScript's `n.toString(base)` for non-negative integers (lower-case
 * digits, no leading zeros), `parseInt(digits, base)` for plain digit strings, and the
 * decimal rendering that template literals give an integer.
 */
module Numerals {

  /** The digit of value `d`, lower case for 10 to 15. */
  function DigitChar(d: nat): (c: char)
    requires d < 16
    ensures '0' <= c <= '9' || 'a' <= c <= 'f'
    ensures d < 10 <==> '0' <= c <= '9'
  {
    if d < 10 then (48 + d) as char else (97 + d - 10) as char
  }

  /** The value of a digit character (`0`-`9`, `a`-`f`); other characters count as 0. */
  function DigitValue(c: char): nat {
    if '0' <= c <= '9' then c as int - 48
    else if 'a' <= c <= 'f' then c as int - 97 + 10
    else 0
  }

  predicate IsDecimalDigit(c: char) {
    '0' <= c <= '9'
  }

  predicate AllDecimalDigits(s: string) {
    forall i :: 0 <= i < |s| ==> IsDecimalDigit(s[i])
  }

  /** `n.toString(base)` for `n >= 0`. */
  function ToBase(n: nat, base: nat): (s: string)
    requires 2 <= base <= 16
    ensures |s| >= 1
    ensures forall i :: 0 <= i < |s| ==> DigitValue(s[i]) < base
    ensures forall i :: 0 <= i < |s| ==> ('0' <= s[i] <= '9' || 'a' <= s[i] <= 'f')
    ensures base <= 10 ==> AllDecimalDigits(s)
    decreases n
  {
    if n < base then [DigitChar(n)]
    else
      DivBounds(n, base);
      ToBase(n / base, base) + [DigitChar(n % base)]
  }

  /** `parseInt(s, base)` of a string of digits: most significant digit first. */
  function FromBase(s: string, base: nat): nat
    decreases |s|
  {
    if |s| == 0 then 0 else FromBase(s[..|s| - 1], base) * base + DigitValue(s[|s| - 1])
  }

  /** Reading back what `toString` wrote gives the number back. */
  lemma {:induction false} FromToBase(n: nat, base: nat)
    requires 2 <= base <= 16
    ensures FromBase(ToBase(n, base), base) == n
    decreases n
  {
    if n < base {
      SingleDigit(n, base);
    } else {
      var q, r := n / base, n % base;
      DivBounds(n, base);
      FromToBase(q, base);
      var t, c := ToBase(q, base), DigitChar(r);
      assert ToBase(n, base) == t + [c];
      FromBaseSnoc(t, c, base);
      DigitRoundTrip(r);
      assert FromBase(t + [c], base) == q * base + r;
      DivMod(n, base);
    }
  }

  lemma SingleDigit(n: nat, base: nat)
    requires 2 <= base <= 16 && n < base
    ensures FromBase(ToBase(n, base), base) == n
  {
    var s := [DigitChar(n)];
    assert ToBase(n, base) == s;
    assert s[..0] == [];
    assert FromBase([], base) == 0;
    DigitRoundTrip(n);
    assert FromBase(s, base) == 0 * base + DigitValue(s[0]);
  }

  lemma FromBaseSnoc(t: string, c: char, base: nat)
    ensures FromBase(t + [c], base) == FromBase(t, base) * base + DigitValue(c)
  {
    assert (t + [c])[..|t + [c]| - 1] == t;
  }

  lemma DivBounds(n: nat, base: nat)
    requires 2 <= base <= n
    ensures n / base < n && n % base < base
  {
  }

  lemma DivMod(n: nat, base: nat)
    requires base > 0
    ensures (n / base) * base + n % base == n
  {
  }

  lemma DigitRoundTrip(d: nat)
    requires d < 16
    ensures DigitValue(DigitChar(d)) == d
  {
  }

  /** Different numbers are written differently in the same base. */
  lemma ToBaseInjective(m: nat, n: nat, base: nat)
    requires 2 <= base <= 16
    requires ToBase(m, base) == ToBase(n, base)
    ensures m == n
  {
    FromToBase(m, base);
    FromToBase(n, base);
  }

  /** Leading zeros do not change the value `parseInt` reads. */
  lemma {:induction false} LeadingZero(s: string, base: nat)
    ensures FromBase("0" + s, base) == FromBase(s, base)
    decreases |s|
  {
    if |s| > 0 {
      assert ("0" + s)[..|"0" + s| - 1] == "0" + s[..|s| - 1];
      LeadingZero(s[..|s| - 1], base);
    }
  }

  /** `${n}` for a non-negative integer. */
  function Decimal(n: nat): string {
    ToBase(n, 10)
  }

  /** Writing one more digit after a number's decimal digits. */
  lemma DecimalStep(n: nat, d: nat)
    requires n > 0 && d < 10
    ensures Decimal(10 * n + d) == Decimal(n) + [DigitChar(d)]
  {
    var m := 10 * n + d;
    assert m / 10 == n && m % 10 == d;
  }

  /** `n.toString(16)`. */
  function LowerHex(n: nat): string {
    ToBase(n, 16)
  }

  /** `${i}` for any integer. */
  function IntToString(i: int): (s: string)
    ensures |s| >= 1
    ensures '\n' !in s
  {
    if i < 0 then "-" + Decimal(-i) else Decimal(i)
  }
}
