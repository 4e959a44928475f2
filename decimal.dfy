/** Decimal text of a natural number, as Python's `str(n)` / `'{}'.format(n)`
    writes it, and the parser that reads it back. */
module Decimal {

  predicate IsDigit(c: char) {
    '0' <= c <= '9'
  }

  predicate AllDigits(s: string) {
    forall i :: 0 <= i < |s| ==> IsDigit(s[i])
  }

  /** Decimal text as Python writes it: digits only, and no leading zero
      unless the text is "0". */
  predicate Canonical(s: string) {
    |s| > 0 && AllDigits(s) && (s[0] == '0' ==> |s| == 1)
  }

  /** The character of one decimal digit. */
  function Digit(d: nat): (c: char)
    requires d < 10
    ensures IsDigit(c) && c as int - '0' as int == d
  {
    (d + '0' as int) as char
  }

  /** Decimal text of `n`: at least one digit, and no leading zero unless the
      text is "0" itself. */
  function Format(n: nat): (s: string)
    ensures Canonical(s)
    ensures s[0] == '0' ==> n == 0 && s == "0"
    decreases n
  {
    if n < 10 then [Digit(n)] else Format(n / 10) + [Digit(n % 10)]
  }

  /** The value of a string of decimal digits (the empty string reads as 0). */
  function Parse(s: string): nat
    requires AllDigits(s)
    decreases |s|
  {
    if s == [] then 0 else Parse(s[..|s| - 1]) * 10 + (s[|s| - 1] as int - '0' as int)
  }

  /** Reading back the decimal text of `n` gives `n`. */
  lemma {:induction false} ParseFormat(n: nat)
    ensures Parse(Format(n)) == n
    decreases n
  {
    if n >= 10 {
      ParseFormat(n / 10);
      var s := Format(n);
      assert s[..|s| - 1] == Format(n / 10);
    }
  }

  /** Two numbers have the same decimal text exactly when they are equal. */
  lemma FormatInjective(m: nat, n: nat)
    ensures Format(m) == Format(n) <==> m == n
  {
    ParseFormat(m);
    ParseFormat(n);
  }

  /** Digits with a non-zero lead denote a positive number. */
  lemma {:induction false} ParsePositive(s: string)
    requires |s| > 0 && AllDigits(s) && s[0] != '0'
    ensures Parse(s) > 0
    decreases |s|
  {
    if |s| > 1 {
      ParsePositive(s[..|s| - 1]);
    }
  }

  /** Canonical decimal text is the text of the number it denotes, so each
      number has exactly one canonical text. */
  lemma {:induction false} FormatParse(s: string)
    requires Canonical(s)
    ensures Format(Parse(s)) == s
    decreases |s|
  {
    if |s| > 1 {
      var t := s[..|s| - 1];
      ParsePositive(t);
      FormatParse(t);
      assert s == t + [s[|s| - 1]];
    }
  }
}
