/** Decimal rendering of an integer, as Java's string concatenation
    `"..." + grade` produces it: an optional '-' followed by the digits of
    the magnitude, most significant first, without leading zeros. */
module Decimal {

  function DigitChar(d: nat): (c: char)
    requires d < 10
    ensures '0' <= c <= '9' && (c as int) - ('0' as int) == d
  {
    "0123456789"[d]
  }

  predicate IsDigit(c: char) {
    '0' <= c <= '9'
  }

  /** The digits of a natural number, most significant first. */
  function Digits(n: nat): (s: string)
    decreases n
  {
    if n < 10 then [DigitChar(n)] else Digits(n / 10) + [DigitChar(n % 10)]
  }

  /** Java's Integer.toString / string concatenation of an int: a '-'
      exactly for negative numbers, then at least one digit and nothing
      else (in particular no space). */
  function DecimalString(n: int): (s: string)
    ensures |s| > 0 && (s[0] == '-' <==> n < 0)
    ensures forall i :: 0 < i < |s| ==> IsDigit(s[i])
    ensures IsDigit(s[0]) || s[0] == '-'
    ensures n < 0 ==> |s| > 1
    ensures var magnitude := if n < 0 then s[1..] else s;
      magnitude != [] && (n != 0 ==> magnitude[0] != '0')
    ensures n == 0 ==> s == "0"
  {
    DigitsAreDigits(if n < 0 then -n else n);
    if n < 0 then "-" + Digits(-n) else Digits(n)
  }

  /** Reads back a string of digits (the inverse of Digits). */
  function ParseDigits(s: string): (value: int)
    decreases |s|
  {
    if s == [] then 0
    else ParseDigits(s[..|s| - 1]) * 10 + ((s[|s| - 1] as int) - ('0' as int))
  }

  /** Reads back an optional '-' and digits (the inverse of DecimalString). */
  function ParseDecimal(s: string): (value: int) {
    if |s| > 0 && s[0] == '-' then -ParseDigits(s[1..]) else ParseDigits(s)
  }

  lemma {:induction false} DigitsAreDigits(n: nat)
    ensures |Digits(n)| > 0
    ensures forall i :: 0 <= i < |Digits(n)| ==> IsDigit(Digits(n)[i])
    ensures n > 0 ==> Digits(n)[0] != '0'
    decreases n
  {
    if n >= 10 {
      DigitsAreDigits(n / 10);
      var s := Digits(n / 10);
      assert Digits(n) == s + [DigitChar(n % 10)];
      assert Digits(n)[0] == s[0];
    }
  }

  lemma {:induction false} DigitsRoundTrip(n: nat)
    ensures ParseDigits(Digits(n)) == n
    decreases n
  {
    if n < 10 {
      assert Digits(n)[..0] == [];
    } else {
      DigitsRoundTrip(n / 10);
      var s := Digits(n);
      assert s[..|s| - 1] == Digits(n / 10);
    }
  }

  /** The rendering of a grade in a log line determines the grade. */
  lemma DecimalRoundTrip(n: int)
    ensures ParseDecimal(DecimalString(n)) == n
  {
    DigitsAreDigits(if n < 0 then -n else n);
    if n < 0 {
      DigitsRoundTrip(-n);
      assert DecimalString(n)[1..] == Digits(-n);
    } else {
      DigitsRoundTrip(n);
    }
  }

  /** A rendering never holds a space, so text after it can be told apart. */
  lemma DecimalHasNoSpace(n: int)
    ensures forall i :: 0 <= i < |DecimalString(n)| ==> DecimalString(n)[i] != ' '
  {
    var s := DecimalString(n);
    forall i | 0 <= i < |s| ensures s[i] != ' ' {
      assert IsDigit(s[i]) || s[i] == '-';
    }
  }

  /** Distinct grades give distinct renderings. */
  lemma DecimalInjective(a: int, b: int)
    requires DecimalString(a) == DecimalString(b)
    ensures a == b
  {
    DecimalRoundTrip(a);
    DecimalRoundTrip(b);
  }
}
