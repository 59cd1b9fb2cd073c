/** Integers written into a fixed buffer (internal/cast/mssql_rules.go). */
module Int64Text {
  import opened Decimal

  const MIN := -0x8000_0000_0000_0000
  const MAX := 0x7fff_ffff_ffff_ffff

  type int64 = n: int | MIN <= n <= MAX

  /** The integers of 64 bits. */
  lemma Int64Is(n: int)
    ensures MIN <= n <= MAX <==> -9223372036854775808 <= n <= 9223372036854775807
  {
  }

  /** Negation of a 64-bit integer wraps around at the least one. */
  function Negate(n: int64): int64 {
    if n == MIN then MIN else -n
  }

  /** What the code makes of an integer: for the least one only the sign is left. */
  function Text(n: int64): string {
    if n == MIN then "-" else FormatInt(n)
  }

  function Pow10(k: nat): nat {
    if k == 0 then 1 else 10 * Pow10(k - 1)
  }

  lemma DigitsSplit(n: nat, rest: string)
    requires n > 0
    ensures (if n < 10 then "" else Digits(n / 10)) + ([DigitChar(n % 10)] + rest) == Digits(n) + rest
  {
  }

  function DigitsOrNothing(n: nat): string {
    if n == 0 then "" else Digits(n)
  }

  lemma NineteenDigits()
    ensures Pow10(19) == 10_000_000_000_000_000_000
  {
    assert Pow10(5) == 100_000;
    assert Pow10(10) == 10_000_000_000;
    assert Pow10(15) == 1_000_000_000_000_000;
  }

  /** One round of the loop: the last digit goes in front of what is written. */
  method WriteDigit(buf: array<char>, n: int64, i: nat) returns (rest: int64, next: nat)
    requires n > 0 && 1 <= i <= buf.Length && n < Pow10(i - 1)
    modifies buf
    ensures next == i - 1 >= 1 && 0 <= rest < n && rest < Pow10(next - 1)
    ensures DigitsOrNothing(rest) + buf[next..] == DigitsOrNothing(n) + old(buf[i..])
  {
    ghost var tail := buf[i..];
    next := i - 1;
    buf[next] := '0' + (n % 10) as char;
    assert buf[next..] == [DigitChar(n % 10)] + tail;
    rest := n / 10;
    DigitsSplit(n, tail);
  }

  /** The loop, for a number that is not negative. */
  method WriteDigits(buf: array<char>, n0: int64) returns (i: nat)
    requires n0 > 0 && buf.Length == 20
    modifies buf
    ensures 1 <= i <= buf.Length && buf[i..] == Digits(n0)
  {
    var n := n0;
    i := buf.Length;
    NineteenDigits();
    hide Pow10, DigitsOrNothing;
    assert buf[i..] == "" && DigitsOrNothing(n) + buf[i..] == DigitsOrNothing(n0);
    while n > 0
      invariant n >= 0 && 1 <= i <= buf.Length && n < Pow10(i - 1)
      invariant DigitsOrNothing(n) + buf[i..] == DigitsOrNothing(n0)
      decreases n
    {
      n, i := WriteDigit(buf, n, i);
    }
    NothingLeft(n0, buf[i..]);
  }

  lemma NothingLeft(n: int64, s: string)
    requires n > 0
    ensures DigitsOrNothing(0) + s == s && DigitsOrNothing(n) == Digits(n)
  {
  }

  method FormatInt64(n0: int64) returns (s: string)
    ensures s == Text(n0)
  {
    var n: int64 := n0;
    if n == 0 {
      return "0";
    }
    var buf := new char[20];
    var neg := n < 0;
    if neg {
      n := Negate(n);
    }
    var i: nat := buf.Length;
    if n > 0 {
      i := WriteDigits(buf, n);
    }
    if neg {
      ghost var tail := buf[i..];
      i := i - 1;
      buf[i] := '-';
      assert buf[i..] == "-" + tail;
    }
    return buf[i..];
  }

  /** The text reads back as the integer, except for the least one. */
  lemma ReadsBackIff(n: int64)
    ensures ParseInt(Text(n)) == Some(n) <==> n != MIN
    ensures Text(MIN) == "-"
  {
    FormatIntRoundTrip(n);
  }

  /** No two of the other integers have the same text. */
  lemma TextInjective(a: int64, b: int64)
    requires Text(a) == Text(b)
    ensures a == b
  {
    ReadsBackIff(a);
    ReadsBackIff(b);
  }
}
