/** Natural numbers as the decimal strings that JSON object keys are. */
module Decimal {
  import opened Basics

  const DIGITS := "0123456789"

  function ToText(n: nat): string {
    if n < 10 then [DIGITS[n]] else ToText(n / 10) + [DIGITS[n % 10]]
  }

  predicate IsDigit(c: char) { '0' <= c <= '9' }

  function DigitValue(c: char): nat
    requires IsDigit(c)
  {
    c as int - '0' as int
  }

  /** None when the text is not a sequence of digits. */
  function FromText(s: string): Option<nat> {
    if s == "" || !IsDigit(s[|s| - 1]) then None
    else if |s| == 1 then Some(DigitValue(s[0]))
    else
      var front := FromText(s[..|s| - 1]);
      if front == None then None else Some(10 * front.value + DigitValue(s[|s| - 1]))
  }

  lemma DigitOf(d: nat)
    requires d < 10
    ensures IsDigit(DIGITS[d]) && DigitValue(DIGITS[d]) == d
  {
    assert DIGITS[0] == '0' && DIGITS[1] == '1' && DIGITS[2] == '2' && DIGITS[3] == '3' && DIGITS[4] == '4';
    assert DIGITS[5] == '5' && DIGITS[6] == '6' && DIGITS[7] == '7' && DIGITS[8] == '8' && DIGITS[9] == '9';
  }

  lemma {:induction false} TextNotEmpty(n: nat)
    ensures |ToText(n)| >= 1
  {
  }

  /** Reading back a written number gives the number. */
  lemma {:induction false} RoundTrip(n: nat)
    ensures FromText(ToText(n)) == Some(n)
  {
    var s := ToText(n);
    if n < 10 {
      DigitOf(n);
    } else {
      DigitOf(n % 10);
      RoundTrip(n / 10);
      TextNotEmpty(n / 10);
      assert s[..|s| - 1] == ToText(n / 10);
    }
  }

  /** Digits without a leading zero. */
  predicate Canonical(s: string) {
    && s != ""
    && (forall k :: 0 <= k < |s| ==> IsDigit(s[k]))
    && (|s| > 1 ==> s[0] != '0')
  }

  /** Written numbers have no leading zero. */
  lemma {:induction false} TextIsCanonical(n: nat)
    ensures Canonical(ToText(n)) && (n > 0 ==> ToText(n)[0] != '0')
  {
    DigitOf(n % 10);
    if n >= 10 {
      TextIsCanonical(n / 10);
    } else if n > 0 {
      DigitOf(n);
    }
  }

  lemma TextLength(n: nat)
    requires n < 1000
    ensures |ToText(n)| <= 3
  {
    assert n / 10 < 100 && n / 10 / 10 < 10;
    assert |ToText(n / 10 / 10)| == 1;
    assert |ToText(n / 10)| <= 2;
  }

  lemma DigitBack(c: char)
    requires IsDigit(c)
    ensures DigitValue(c) < 10 && DIGITS[DigitValue(c)] == c
  {
    DigitOf(DigitValue(c));
  }

  lemma LastDigit(n: nat, d: nat)
    requires d < 10
    ensures (10 * n + d) / 10 == n && (10 * n + d) % 10 == d
  {
  }

  /** Writing back a read number gives the text, when the text has no leading zero. */
  lemma {:induction false} CanonicalRoundTrip(s: string)
    requires Canonical(s)
    ensures FromText(s).Some? && ToText(FromText(s).value) == s
    ensures s[0] != '0' ==> FromText(s).value > 0
  {
    var last := s[|s| - 1];
    DigitBack(last);
    if |s| == 1 {
    } else {
      var front := s[..|s| - 1];
      CanonicalRoundTrip(front);
      var n := FromText(front).value;
      LastDigit(n, DigitValue(last));
      assert s == front + [last];
    }
  }
}
