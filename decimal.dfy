/** Decimal digit strings: rendering a natural number and reading one back. */
module Decimal {

  predicate IsDigit(c: char) { '0' <= c <= '9' }

  predicate AllDigits(s: string) { forall k :: 0 <= k < |s| ==> IsDigit(s[k]) }

  function DigitChar(d: nat): (c: char)
    requires d < 10
    ensures IsDigit(c) && CharValue(c) == d
  {
    "0123456789"[d]
  }

  function CharValue(c: char): nat
    requires IsDigit(c)
  {
    (c as int - '0' as int) as nat
  }

  /** The shortest decimal text of n (no leading zeros, "0" for zero). */
  function Digits(n: nat): (s: string)
    ensures |s| >= 1 && AllDigits(s)
    ensures Value(s) == n
  {
    if n < 10 then [DigitChar(n)]
    else
      var s := Digits(n / 10) + [DigitChar(n % 10)];
      assert s[..|s| - 1] == Digits(n / 10);
      s
  }

  /** The number a string of decimal digits denotes. */
  function Value(s: string): nat
    requires AllDigits(s)
  {
    if s == [] then 0 else Value(s[..|s| - 1]) * 10 + CharValue(s[|s| - 1])
  }

  /** Leading zeros do not change the value. */
  lemma {:induction false} ValueLeadingZero(s: string)
    requires AllDigits(s)
    ensures AllDigits(['0'] + s) && Value(['0'] + s) == Value(s)
  {
    if s != [] {
      var t := ['0'] + s;
      assert t[..|t| - 1] == ['0'] + s[..|s| - 1];
      ValueLeadingZero(s[..|s| - 1]);
    }
  }

  /** Reading a digit and writing it again gives the same character. */
  lemma DigitCharValue(c: char)
    requires IsDigit(c)
    ensures DigitChar(CharValue(c)) == c
  {
  }

  /** A digit string that does not start with '0' denotes at least 1, and at least 10 when it
      has two digits or more. */
  lemma {:induction false} ValueWithoutLeadingZero(s: string)
    requires |s| >= 1 && AllDigits(s) && s[0] != '0'
    ensures Value(s) >= 1 && (|s| >= 2 ==> Value(s) >= 10)
  {
    if |s| >= 2 {
      var n := |s| - 1;
      assert s[..n][0] == s[0];
      ValueWithoutLeadingZero(s[..n]);
    }
  }

  /** Digits is the inverse of Value on digit strings without a leading zero. */
  lemma {:induction false} DigitsOfValue(s: string)
    requires |s| >= 1 && AllDigits(s) && s[0] != '0'
    ensures Digits(Value(s)) == s
  {
    var n := |s| - 1;
    DigitCharValue(s[n]);
    if n == 0 {
      assert Value(s) == CharValue(s[0]);
    } else {
      assert s[..n][0] == s[0];
      ValueWithoutLeadingZero(s);
      DigitsOfValue(s[..n]);
      assert Value(s) / 10 == Value(s[..n]) && Value(s) % 10 == CharValue(s[n]);
      assert s == s[..n] + [s[n]];
    }
  }

  /** A number of two digits or more has one digit more than its tenth. */
  lemma DigitsGrow(n: nat)
    requires n >= 10
    ensures |Digits(n)| == |Digits(n / 10)| + 1
  {
  }

  /** The text of a positive number does not start with '0'. */
  lemma {:induction false} DigitsLead(n: nat)
    requires n >= 1
    ensures Digits(n)[0] != '0'
  {
    if n >= 10 {
      DigitsLead(n / 10);
    }
  }

  /** Digits(n) left-padded with '0' to at least width characters (Ruby's "%0<width>d"). */
  function Padded(n: nat, width: nat): (s: string)
    ensures |s| >= width && AllDigits(s) && Value(s) == n
    decreases width
  {
    if |Digits(n)| >= width then Digits(n)
    else
      var p := Padded(n, width - 1);
      if |p| >= width then p
      else
        ValueLeadingZero(p);
        ['0'] + p
  }

  /** Ruby String#to_i restricted to unsigned text: the value of the longest leading run of
      decimal digits, 0 when the text does not start with a digit. */
  function LeadingValue(s: string): nat
  {
    Value(s[..LeadingDigits(s)])
  }

  function LeadingDigits(s: string): (n: nat)
    ensures n <= |s| && AllDigits(s[..n]) && (n < |s| ==> !IsDigit(s[n]))
  {
    if s == [] || !IsDigit(s[0]) then 0
    else
      var m := LeadingDigits(s[1..]);
      assert s[..m + 1] == [s[0]] + s[1..][..m];
      m + 1
  }

  lemma {:induction false} LeadingDigitsOfDigits(s: string)
    requires AllDigits(s)
    ensures LeadingDigits(s) == |s|
  {
    if s != [] {
      LeadingDigitsOfDigits(s[1..]);
    }
  }

  /** Reading back a rendered number gives the number: to_i(n.to_s) == n. */
  lemma LeadingValueOfDigits(n: nat)
    ensures LeadingValue(Digits(n)) == n
  {
    LeadingDigitsOfDigits(Digits(n));
    assert Digits(n)[..|Digits(n)|] == Digits(n);
  }
}
