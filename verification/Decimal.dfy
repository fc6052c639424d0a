/** Decimal numerals, as the shell prints and reads them. */
module Decimal {

  predicate IsDigit(c: char) {
    '0' <= c <= '9'
  }

  predicate AllDigits(s: string) {
    forall i :: 0 <= i < |s| ==> IsDigit(s[i])
  }

  function DigitValue(c: char): (n: nat)
    requires IsDigit(c)
    ensures n < 10
  {
    (c - '0') as nat
  }

  function DigitChar(n: nat): (c: char)
    requires n < 10
    ensures IsDigit(c) && DigitValue(c) == n
  {
    '0' + n as char
  }

  function Print(n: nat): (s: string)
    ensures s != "" && AllDigits(s)
  {
    if n < 10 then [DigitChar(n)] else Print(n / 10) + [DigitChar(n % 10)]
  }

  function Value(s: string, base: nat): nat
    requires AllDigits(s)
  {
    if s == "" then 0 else Value(s[..|s| - 1], base) * base + DigitValue(s[|s| - 1])
  }

  /** A numeral without a needless leading zero. */
  predicate Canonical(s: string) {
    s != "" && AllDigits(s) && (|s| > 1 ==> s[0] != '0')
  }

  lemma {:induction false} PrintIsCanonical(n: nat)
    ensures Canonical(Print(n)) && (Print(n)[0] == '0' ==> n == 0)
    ensures Value(Print(n), 10) == n
  {
    if n >= 10 {
      PrintIsCanonical(n / 10);
      assert Print(n)[..|Print(n)| - 1] == Print(n / 10);
    } else {
      assert Print(n)[..0] == "";
    }
  }

  lemma {:induction false} CanonicalIsPrint(s: string)
    requires Canonical(s)
    ensures Print(Value(s, 10)) == s
    ensures s[0] != '0' ==> Value(s, 10) > 0
    decreases |s|
  {
    var front, last := s[..|s| - 1], s[|s| - 1];
    assert s == front + [last];
    if |s| > 1 {
      CanonicalIsPrint(front);
      assert Value(s, 10) / 10 == Value(front, 10) && Value(s, 10) % 10 == DigitValue(last);
    } else {
      assert front == "" && Value(front, 10) == 0;
    }
  }

  lemma PrintIsInjective(m: nat, n: nat)
    requires Print(m) == Print(n)
    ensures m == n
  {
    PrintIsCanonical(m);
    PrintIsCanonical(n);
  }

  lemma {:induction false} PrintLength(n: nat)
    ensures n < 1000 ==> |Print(n)| <= 3
  {
    if 10 <= n < 1000 {
      assert n / 10 < 10 ==> |Print(n / 10)| == 1;
      assert n / 10 / 10 < 10 ==> n / 10 >= 10 ==> |Print(n / 10 / 10)| == 1;
    }
  }
}
