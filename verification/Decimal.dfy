/** Decimal numbers as the C library prints and reads them. */
module Decimal {

  predicate IsDigit(c: char) {
    '0' <= c <= '9'
  }

  predicate AllDigits(s: string) {
    forall i :: 0 <= i < |s| ==> IsDigit(s[i])
  }

  function DigitValue(c: char): nat
    requires IsDigit(c)
  {
    c as int - '0' as int
  }

  function DigitChar(d: nat): (c: char)
    requires d < 10
    ensures IsDigit(c) && DigitValue(c) == d
  {
    ('0' as int + d) as char
  }

  /** The value of a run of digits; the empty run is 0, as atoi has it. */
  function Value(s: string): nat
    requires AllDigits(s)
  {
    if s == "" then 0 else 10 * Value(s[..|s| - 1]) + DigitValue(s[|s| - 1])
  }

  /** One more digit counts ten times what came before it, and itself. */
  lemma ValueOfMore(s: string, c: char)
    requires AllDigits(s) && '0' <= c <= '9'
    ensures AllDigits(s + [c]) && Value(s + [c]) == 10 * Value(s) + (c as int - 48)
  {
    assert (s + [c])[..|s|] == s;
  }

  /** "%lu" */
  function Print(n: nat): (s: string)
    ensures s != "" && AllDigits(s)
  {
    if n < 10 then [DigitChar(n)] else Print(n / 10) + [DigitChar(n % 10)]
  }

  lemma {:induction false} PrintThenRead(n: nat)
    ensures Value(Print(n)) == n
    ensures n > 0 ==> Print(n)[0] != '0'
  {
    if n >= 10 {
      PrintThenRead(n / 10);
      assert Print(n)[..|Print(n)| - 1] == Print(n / 10);
    }
  }

  function Pow10(k: nat): nat {
    if k == 0 then 1 else 10 * Pow10(k - 1)
  }

  lemma {:induction false} PowPositive(k: nat)
    ensures Pow10(k) >= 1
  {
    if k > 0 {
      PowPositive(k - 1);
    }
  }

  lemma {:induction false} PrintLength(n: nat, k: nat)
    requires k > 0 && n < Pow10(k)
    ensures |Print(n)| <= k
  {
    if n >= 10 {
      assert k > 1;
      PrintLength(n / 10, k - 1);
    }
  }

  /** More than `k` digits are needed from 10^k on. */
  lemma {:induction false} LongPrint(n: nat, k: nat)
    requires n >= Pow10(k)
    ensures |Print(n)| > k
  {
    if k > 0 {
      PowPositive(k - 1);
      LongPrint(n / 10, k - 1);
    }
  }

  /** Reading the first part of a number never exceeds reading all of it. */
  lemma {:induction false} ValueOfPrefix(s: string, i: nat)
    requires AllDigits(s) && i <= |s|
    ensures Value(s[..i]) <= Value(s)
    decreases |s|
  {
    if i < |s| {
      ValueOfPrefix(s[..|s| - 1], i);
      assert s[..|s| - 1][..i] == s[..i];
    } else {
      assert s[..i] == s;
    }
  }

  /** Dropping a leading digit takes at least that digit's worth off; dropping a non-zero one is a strict decrease. */
  lemma {:induction false} DropLeadingDigit(s: string)
    requires AllDigits(s) && s != "" && s[0] != '0'
    ensures Value(s[1..]) < Value(s)
    ensures |s| >= 2 ==> Value(s[1..]) + 10 <= Value(s)
    decreases |s|
  {
    if |s| == 1 {
      assert s[..0] == "";
    } else {
      var t := s[..|s| - 1];
      DropLeadingDigit(t);
      assert s[1..][..|s| - 2] == t[1..];
    }
  }

  /** Where the last run of digits begins. */
  function TailStart(t: string): (i: nat)
    ensures i <= |t| && AllDigits(t[i..])
    ensures i > 0 ==> !IsDigit(t[i - 1])
  {
    if t == "" || !IsDigit(t[|t| - 1]) then |t|
    else
      var i := TailStart(t[..|t| - 1]);
      assert t[i..] == t[..|t| - 1][i..] + [t[|t| - 1]];
      i
  }

  /** Where the first run of digits ends. */
  function HeadEnd(t: string): (i: nat)
    ensures i <= |t| && AllDigits(t[..i])
    ensures i < |t| ==> !IsDigit(t[i])
  {
    if t == "" || !IsDigit(t[0]) then 0
    else
      var i := 1 + HeadEnd(t[1..]);
      assert t[..i] == [t[0]] + t[1..][..i - 1];
      i
  }

  lemma {:induction false} HeadEndAppend(a: string, b: string)
    requires HeadEnd(a) < |a| || b == "" || !IsDigit(b[0])
    ensures HeadEnd(a + b) == HeadEnd(a)
  {
    if a == "" {
      assert a + b == b;
    } else if IsDigit(a[0]) {
      assert (a + b)[1..] == a[1..] + b;
      HeadEndAppend(a[1..], b);
    }
  }

  lemma {:induction false} HeadOfDigits(t: string)
    requires AllDigits(t)
    ensures HeadEnd(t) == |t|
  {
    if t != "" {
      HeadOfDigits(t[1..]);
    }
  }
}
