/** Decimal numbers as text. */
module Decimal {

  predicate IsDigit(c: char) { '0' <= c <= '9' }

  predicate AllDigits(s: string) { forall c :: c in s ==> IsDigit(c) }

  function DigitChar(d: nat): char
    requires d < 10
  {
    '0' + d as char
  }

  function Digits(n: nat): (s: string)
    ensures s != ""
  {
    if n < 10 then [DigitChar(n)] else Digits(n / 10) + [DigitChar(n % 10)]
  }

  function Value(s: string): nat
    requires AllDigits(s)
  {
    if s == "" then 0
    else
      var last := s[|s| - 1];
      assert last in s;
      Value(s[..|s| - 1]) * 10 + (last - '0') as nat
  }

  /** Written without a leading zero, hence not 0 itself. */
  predicate Canonical(s: string) {
    s != "" && AllDigits(s) && s[0] != '0'
  }

  lemma {:induction false} ValueOfDigits(n: nat)
    ensures AllDigits(Digits(n)) && Value(Digits(n)) == n
    ensures n > 0 ==> Digits(n)[0] != '0'
  {
    if n >= 10 {
      ValueOfDigits(n / 10);
      assert Digits(n)[..|Digits(n)| - 1] == Digits(n / 10);
    } else {
      assert Digits(n)[..0] == "";
    }
  }

  lemma ValueStep(s: string)
    requires s != "" && AllDigits(s)
    ensures var front, last := s[..|s| - 1], s[|s| - 1];
            && AllDigits(front) && IsDigit(last) && s == front + [last]
            && Value(s) == Value(front) * 10 + (last - '0') as nat
  {
    assert s[|s| - 1] in s && forall c :: c in s[..|s| - 1] ==> c in s;
  }

  lemma {:induction false} DigitsOfValue(s: string)
    requires Canonical(s)
    ensures Value(s) > 0 && Digits(Value(s)) == s
  {
    ValueStep(s);
    var front, last := s[..|s| - 1], s[|s| - 1];
    DigitCharOf(last);
    if front == "" {
      assert Value(front) == 0;
      DigitsStep(0, (last - '0') as nat);
    } else {
      assert front[0] == s[0];
      DigitsOfValue(front);
      DigitsStep(Value(front), (last - '0') as nat);
    }
  }

  lemma DigitCharOf(c: char)
    requires IsDigit(c)
    ensures DigitChar((c - '0') as nat) == c
    ensures c != '0' ==> (c - '0') as nat > 0
  {
  }

  lemma DigitsStep(n: nat, d: nat)
    requires d < 10
    ensures Digits(n * 10 + d) == if n == 0 then [DigitChar(d)] else Digits(n) + [DigitChar(d)]
  {
    assert (n * 10 + d) / 10 == n && (n * 10 + d) % 10 == d;
  }

  /** The canonical texts are the digits of the positive numbers. */
  lemma CanonicalIsDigits(s: string)
    ensures Canonical(s) <==> exists n: nat :: n > 0 && s == Digits(n)
  {
    if Canonical(s) {
      DigitsOfValue(s);
    }
    forall n: nat | n > 0 && s == Digits(n)
      ensures Canonical(s)
    {
      ValueOfDigits(n);
    }
  }

  lemma FiveDigits(n: nat)
    ensures |Digits(n)| <= 5 <==> n <= 99999
  {
    var n1 := n / 10;
    var n2 := n1 / 10;
    var n3 := n2 / 10;
    var n4 := n3 / 10;
    var n5 := n4 / 10;
    assert |Digits(n)| == if n < 10 then 1 else 1 + |Digits(n1)|;
    assert |Digits(n1)| == if n1 < 10 then 1 else 1 + |Digits(n2)|;
    assert |Digits(n2)| == if n2 < 10 then 1 else 1 + |Digits(n3)|;
    assert |Digits(n3)| == if n3 < 10 then 1 else 1 + |Digits(n4)|;
    assert |Digits(n4)| == if n4 < 10 then 1 else 1 + |Digits(n5)|;
  }
}
