/** Natural numbers in decimal notation. */
module Decimal {
  predicate IsDigit(c: char) {
    '0' <= c <= '9'
  }

  predicate AllDigits(s: string) {
    forall i | 0 <= i < |s| :: IsDigit(s[i])
  }

  function DigitOf(d: nat): char
    requires d < 10
  {
    '0' + d as char
  }

  function ValueOf(c: char): nat
    requires IsDigit(c)
  {
    c as nat - '0' as nat
  }

  function Print(n: nat): string {
    (if n < 10 then "" else Print(n / 10)) + [DigitOf(n % 10)]
  }

  function Parse(s: string): nat
    requires AllDigits(s)
  {
    if s == "" then 0 else 10 * Parse(s[..|s| - 1]) + ValueOf(s[|s| - 1])
  }

  /** No needless zero in front, and at least one digit. */
  predicate Canonical(s: string) {
    AllDigits(s) && s != "" && (s[0] == '0' ==> |s| == 1)
  }

  lemma {:induction false} PrintCanonical(n: nat)
    ensures Canonical(Print(n))
    ensures n > 0 ==> Print(n)[0] != '0'
  {
    if n >= 10 {
      PrintCanonical(n / 10);
    }
  }

  lemma {:induction false} ParsePrint(n: nat)
    ensures AllDigits(Print(n)) && Parse(Print(n)) == n
  {
    PrintCanonical(n);
    if n >= 10 {
      ParsePrint(n / 10);
      assert Print(n)[..|Print(n)| - 1] == Print(n / 10);
    }
  }

  lemma DigitOfValue(c: char)
    requires IsDigit(c)
    ensures ValueOf(c) < 10 && DigitOf(ValueOf(c)) == c
  {
  }

  lemma PrintStep(n: nat, d: nat)
    requires n > 0 && d < 10
    ensures Print(10 * n + d) == Print(n) + [DigitOf(d)]
  {
    assert (10 * n + d) / 10 == n && (10 * n + d) % 10 == d;
  }

  lemma ParseStep(front: string, last: char)
    requires AllDigits(front) && IsDigit(last)
    ensures AllDigits(front + [last]) && Parse(front + [last]) == 10 * Parse(front) + ValueOf(last)
  {
    assert (front + [last])[..|front|] == front;
  }

  lemma {:induction false} PrintParse(s: string)
    requires Canonical(s)
    ensures Print(Parse(s)) == s
  {
    var front, last := s[..|s| - 1], s[|s| - 1];
    assert s == front + [last];
    DigitOfValue(last);
    ParseStep(front, last);
    if front == "" {
      assert Parse(front) == 0;
      assert Print(ValueOf(last)) == [last];
    } else {
      CanonicalFront(s);
      PrintParse(front);
      PrintStep(Parse(front), ValueOf(last));
    }
  }

  lemma CanonicalFront(s: string)
    requires Canonical(s) && |s| > 1
    ensures Canonical(s[..|s| - 1]) && Parse(s[..|s| - 1]) > 0
  {
    assert s[..|s| - 1][0] == s[0];
    ParsePositive(s[..|s| - 1]);
  }

  lemma {:induction false} ParsePositive(s: string)
    requires AllDigits(s) && s != "" && s[0] != '0'
    ensures Parse(s) > 0
  {
    if |s| > 1 {
      ParsePositive(s[..|s| - 1]);
    } else {
      assert s[..0] == "";
    }
  }
}
