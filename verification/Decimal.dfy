/** Decimal text of integers and its reader. */
module Decimal {
  datatype Option<+T> = None | Some(value: T)

  predicate IsDigit(c: char) { '0' <= c <= '9' }

  function DigitChar(d: int): (c: char)
    requires 0 <= d < 10
    ensures IsDigit(c) && DigitValue(c) == d
  {
    '0' + d as char
  }

  function DigitValue(c: char): (d: int)
    requires IsDigit(c)
    ensures 0 <= d < 10
  {
    c as int - '0' as int
  }

  /** Digits of a natural number, most significant first, no leading zero except for 0 itself. */
  function Digits(n: nat): (s: string)
    ensures s != [] && forall c <- s :: IsDigit(c)
    decreases n
  {
    if n < 10 then [DigitChar(n)] else Digits(n / 10) + [DigitChar(n % 10)]
  }

  function FormatInt(n: int): string {
    if n < 0 then "-" + Digits(-n) else Digits(n)
  }

  lemma {:induction false} NoLeadingZero(n: nat)
    ensures Digits(n)[0] == '0' <==> n == 0
    decreases n
  {
    if n >= 10 {
      NoLeadingZero(n / 10);
    }
  }

  /** The usual text: a sign for negative integers only, and no leading zeros. */
  lemma FormatIntUsual(n: int)
    ensures var s := FormatInt(n);
            && (n < 0 ==> s[0] == '-' && |s| > 1 && '1' <= s[1] <= '9')
            && (n > 0 ==> '1' <= s[0] <= '9') && (n == 0 ==> s == "0")
  {
    var m := if n < 0 then -n else n;
    NoLeadingZero(m);
    assert Digits(m)[0] in Digits(m);
  }

  /** Value of a run of digits, read from the left. */
  function DigitsValue(s: string): nat
    requires forall c <- s :: IsDigit(c)
  {
    if s == [] then 0 else DigitsValue(s[..|s| - 1]) * 10 + DigitValue(s[|s| - 1])
  }

  /** Reads an optional minus sign followed by at least one digit. */
  function ParseInt(s: string): Option<int> {
    if s == [] then None
    else if s[0] == '-' then
      if |s| > 1 && forall c <- s[1..] :: IsDigit(c) then Some(0 - DigitsValue(s[1..]) as int) else None
    else if forall c <- s :: IsDigit(c) then Some(DigitsValue(s))
    else None
  }

  lemma {:induction false} DigitsRoundTrip(n: nat)
    ensures DigitsValue(Digits(n)) == n
    decreases n
  {
    if n < 10 {
      assert Digits(n)[..0] == [];
    } else {
      DigitsRoundTrip(n / 10);
      var s := Digits(n);
      assert s[..|s| - 1] == Digits(n / 10);
    }
  }

  lemma FormatIntRoundTrip(n: int)
    ensures ParseInt(FormatInt(n)) == Some(n)
  {
    if n < 0 {
      DigitsRoundTrip(-n);
      assert FormatInt(n)[1..] == Digits(-n);
    } else {
      DigitsRoundTrip(n);
      assert IsDigit(Digits(n)[0]);
    }
  }
}
