/** Decimal notation: digit strings of any length and the numbers they denote. */
module Decimal {
  predicate IsDigit(c: char) {
    '0' <= c <= '9'
  }

  predicate AllDigits(s: string) {
    forall i | 0 <= i < |s| :: IsDigit(s[i])
  }

  function DigitValue(c: char): nat
    requires IsDigit(c)
  {
    c as nat - '0' as nat
  }

  function DigitChar(d: nat): (c: char)
    requires d < 10
    ensures IsDigit(c) && DigitValue(c) == d
  {
    ('0' as nat + d) as char
  }

  /** The digits in their order. */
  lemma DigitsInOrder(d: nat)
    requires d < 10
    ensures DigitChar(d) == "0123456789"[d]
  {
  }

  function Value(s: string): nat
    requires AllDigits(s)
    decreases |s|
  {
    if s == "" then 0 else 10 * Value(s[..|s| - 1]) + DigitValue(s[|s| - 1])
  }

  /** The shortest decimal notation of `n`. */
  function ToDigits(n: nat): (s: string)
    ensures AllDigits(s) && |s| > 0
    decreases n
  {
    if n < 10 then [DigitChar(n)] else ToDigits(n / 10) + [DigitChar(n % 10)]
  }

  /** A positive number without leading zeros: the pattern `^[1-9][0-9]*$`. */
  predicate IsPositiveDecimal(s: string) {
    AllDigits(s) && |s| > 0 && s[0] != '0'
  }

  lemma {:induction false} ValueOfToDigits(n: nat)
    ensures Value(ToDigits(n)) == n
    ensures n > 0 ==> IsPositiveDecimal(ToDigits(n))
    decreases n
  {
    if n >= 10 {
      ValueOfToDigits(n / 10);
      var s := ToDigits(n);
      assert s[..|s| - 1] == ToDigits(n / 10);
    } else {
      assert ToDigits(n)[..0] == "";
      assert DigitValue('0') == 0;
    }
  }

  lemma {:induction false} PositiveValue(s: string)
    requires IsPositiveDecimal(s)
    ensures Value(s) > 0
    decreases |s|
  {
    if |s| > 1 {
      PositiveValue(s[..|s| - 1]);
    } else {
      assert DigitValue(s[0]) > 0;
    }
  }

  /** A notation without leading zeros is the one its number is written in. */
  lemma {:induction false} ToDigitsOfValue(s: string)
    requires IsPositiveDecimal(s)
    ensures ToDigits(Value(s)) == s
    decreases |s|
  {
    var rest, last := s[..|s| - 1], s[|s| - 1];
    assert s == rest + [last];
    if |s| > 1 {
      PositiveValue(rest);
      ToDigitsOfValue(rest);
      assert Value(s) / 10 == Value(rest) && Value(s) % 10 == DigitValue(last);
    } else {
      assert Value(rest) == 0;
    }
  }

  lemma {:induction false} ValueConcat(a: string, b: string)
    requires AllDigits(a) && AllDigits(b)
    ensures Value(a + b) == Value(a) * Pow10(|b|) + Value(b)
    decreases |b|
  {
    if b == "" {
      assert a + b == a;
    } else {
      var c := b[..|b| - 1];
      var d := b[|b| - 1];
      assert a + b == (a + c) + [d] && b == c + [d];
      calc {
        Value(a + b);
        { ValueAppend(a + c, d); }
        10 * Value(a + c) + DigitValue(d);
        { ValueConcat(a, c); }
        10 * (Value(a) * Pow10(|c|) + Value(c)) + DigitValue(d);
        { Shift(Value(a), Pow10(|c|), Value(c), DigitValue(d)); }
        Value(a) * (10 * Pow10(|c|)) + (10 * Value(c) + DigitValue(d));
        { ValueAppend(c, d); }
        Value(a) * Pow10(|b|) + Value(b);
      }
    }
  }

  lemma ValueAppend(s: string, d: char)
    requires AllDigits(s) && IsDigit(d)
    ensures AllDigits(s + [d]) && Value(s + [d]) == 10 * Value(s) + DigitValue(d)
  {
  }

  lemma Shift(x: nat, p: nat, v: nat, d: nat)
    ensures 10 * (x * p + v) + d == x * (10 * p) + (10 * v + d)
  {
  }

  function Pow10(n: nat): nat {
    if n == 0 then 1 else 10 * Pow10(n - 1)
  }
}
