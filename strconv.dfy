/**
 * Base-10 integer text as Go's strconv package reads and writes it:
 * ParseInt(s, 10, 64) with its error ignored, and FormatInt(n, 10).
 * Integers are unbounded here (see README, "Left out").
 */
module Strconv {

  predicate IsDigit(c: char) { '0' <= c <= '9' }

  predicate IsSign(c: char) { c == '+' || c == '-' }

  predicate AllDigits(s: string) { forall i :: 0 <= i < |s| ==> IsDigit(s[i]) }

  function DigitValue(c: char): (d: nat)
    requires IsDigit(c)
    ensures d < 10
  {
    c as int - '0' as int
  }

  function DigitChar(d: nat): (c: char)
    requires d < 10
    ensures IsDigit(c) && DigitValue(c) == d
  {
    ('0' as int + d) as char
  }

  /** The value of a run of decimal digits, most significant first. */
  function DigitsValue(s: string): nat
    requires AllDigits(s)
    decreases |s|
  {
    if s == [] then 0 else 10 * DigitsValue(s[..|s| - 1]) + DigitValue(s[|s| - 1])
  }

  /** The syntax ParseInt accepts in base 10: an optional sign, then at least one digit. */
  predicate IsDecimal(s: string) {
    if |s| > 0 && IsSign(s[0]) then |s| > 1 && AllDigits(s[1..]) else |s| > 0 && AllDigits(s)
  }

  /** The texts FormatInt produces: "0", or digits without a leading zero, optionally after '-'. */
  predicate IsCanonical(s: string) {
    if |s| > 0 && s[0] == '-' then
      |s| > 1 && AllDigits(s[1..]) && s[1] != '0'
    else
      |s| > 0 && AllDigits(s) && (|s| > 1 ==> s[0] != '0')
  }

  /**
   * ParseInt(s, 10, 64) with the error discarded, as every caller in the
   * source does: a text that is not a signed decimal reads as 0.
   */
  function ParseInt(s: string): (n: int)
    ensures !IsDecimal(s) ==> n == 0
    ensures IsDecimal(s) && !(s[0] == '-') ==> n >= 0
  {
    if !IsDecimal(s) then 0
    else if s[0] == '-' then -(DigitsValue(s[1..]) as int)
    else if s[0] == '+' then DigitsValue(s[1..])
    else DigitsValue(s)
  }

  /** The digits of a natural number with no leading zero. */
  function NatDigits(n: nat): (s: string)
    ensures |s| > 0 && AllDigits(s) && DigitsValue(s) == n
    ensures |s| > 1 ==> s[0] != '0'
    ensures s[0] == '0' ==> n == 0
    decreases n
  {
    if n < 10 then [DigitChar(n)]
    else
      var t := NatDigits(n / 10);
      var s := t + [DigitChar(n % 10)];
      assert s[..|s| - 1] == t;
      s
  }

  /** FormatInt(n, 10): the canonical decimal text of `n`, which reads back as `n`. */
  function FormatInt(n: int): (s: string)
    ensures IsCanonical(s) && IsDecimal(s)
    ensures ParseInt(s) == n
  {
    if n < 0 then
      var t := NatDigits(-n);
      var s := "-" + t;
      assert s[1..] == t;
      s
    else NatDigits(n)
  }

  /** A digit run that does not start with '0' has a positive value. */
  lemma {:induction false} LeadingDigitPositive(s: string)
    requires |s| > 0 && AllDigits(s) && s[0] != '0'
    ensures DigitsValue(s) > 0
  {
    if |s| > 1 {
      var t := s[..|s| - 1];
      assert t[0] == s[0];
      assert AllDigits(t);
      LeadingDigitPositive(t);
    }
  }

  /** NatDigits inverts DigitsValue on digit runs without a leading zero. */
  lemma {:induction false} NatDigitsOfValue(s: string)
    requires |s| > 0 && AllDigits(s) && (|s| > 1 ==> s[0] != '0')
    ensures NatDigits(DigitsValue(s)) == s
  {
    var v := DigitsValue(s);
    var last := s[|s| - 1];
    if |s| == 1 {
      assert [DigitChar(DigitValue(last))] == s;
    } else {
      var t := s[..|s| - 1];
      assert t[0] == s[0];
      assert AllDigits(t);
      LeadingDigitPositive(t);
      assert v / 10 == DigitsValue(t) && v % 10 == DigitValue(last);
      NatDigitsOfValue(t);
      assert DigitChar(DigitValue(last)) == last;
      assert t + [last] == s;
    }
  }

  /** The other half of the round trip: a canonical text is reproduced by formatting its value. */
  lemma FormatParse(s: string)
    requires IsCanonical(s)
    ensures FormatInt(ParseInt(s)) == s
  {
    if s[0] == '-' {
      var t := s[1..];
      assert t[0] == s[1];
      LeadingDigitPositive(t);
      NatDigitsOfValue(t);
      assert "-" + t == s;
    } else {
      NatDigitsOfValue(s);
    }
  }

  /** No decimal text contains a character that is neither a digit nor a sign. */
  lemma DecimalExcludes(s: string, c: char)
    requires IsDecimal(s) && !IsDigit(c) && !IsSign(c)
    ensures c !in s
  {
  }
}
