/** Money texts turned into numbers (internal/cast/transforms.go). */
module Money {
  import opened Decimal
  import opened Text

  /** The code compares the low byte of a character with the decimal separator. */
  predicate IsSeparator(c: char, dec: char) {
    c as int % 256 == dec as int
  }

  /** So a character that is a multiple of 256 away from the separator counts as one. */
  lemma LowByteCounts(c: char, dec: char)
    requires dec as int < 256
    ensures IsSeparator(c, dec) <==> (c as int - dec as int) % 256 == 0
  {
  }

  function Kept(s: string, dec: char): string {
    if s == "" then ""
    else (if IsDigit(s[0]) then [s[0]] else if IsSeparator(s[0], dec) then "." else "") + Kept(s[1..], dec)
  }

  /** With both separators the last one is the decimal separator; a comma alone is one too. */
  function DecimalSeparator(s: string): char {
    if ',' !in s then '.'
    else if '.' !in s then ','
    else if LastIndexOf(s, ',') > LastIndexOf(s, '.') then ',' else '.'
  }

  predicate InParentheses(s: string) {
    s != "" && s[0] == '(' && s[|s| - 1] == ')'
  }

  function Unsigned(s: string): string {
    var kept := Kept(s, DecimalSeparator(s));
    if kept == "" then "0" else kept
  }

  function Clean(s: string): string {
    if s == "" then ""
    else if InParentheses(s) then "-" + Unsigned(s[1..|s| - 1])
    else Unsigned(s)
  }

  method DetectSeparator(s: string) returns (decSep: char)
    ensures decSep == DecimalSeparator(s)
  {
    var hasDot, hasComma := false, false;
    for i := 0 to |s|
      invariant hasDot <==> '.' in s[..i]
      invariant hasComma <==> ',' in s[..i]
    {
      assert s[..i + 1] == s[..i] + [s[i]];
      if s[i] == '.' {
        hasDot := true;
      } else if s[i] == ',' {
        hasComma := true;
      }
    }
    assert s[..|s|] == s;
    decSep := '.';
    if !hasDot && hasComma {
      decSep := ',';
    } else if hasDot && hasComma {
      var lastDot, lastComma := LastIndexOf(s, '.'), LastIndexOf(s, ',');
      if lastComma > lastDot {
        decSep := ',';
      }
    }
  }

  method CleanMoneyString(s0: string) returns (result: string)
    ensures result == Clean(s0)
  {
    var s := s0;
    if |s| == 0 {
      return s;
    }
    var negative := false;
    if s[0] == '(' && s[|s| - 1] == ')' {
      negative := true;
      s := s[1..|s| - 1];
    }
    var decSep := DetectSeparator(s);
    result := "";
    assert s[0..] == s && "" + Kept(s, decSep) == Kept(s, decSep);
    for i := 0 to |s|
      invariant result + Kept(s[i..], decSep) == Kept(s, decSep)
    {
      KeptStep(result, s, i, decSep);
      if IsDigit(s[i]) {
        result := result + [s[i]];
      } else if IsSeparator(s[i], decSep) {
        result := result + ".";
      }
    }
    assert s[|s|..] == "" && result + "" == result;
    if result == "" {
      result := "0";
    }
    if negative {
      result := "-" + result;
    }
  }

  lemma KeptStep(done: string, s: string, i: nat, dec: char)
    requires i < |s|
    ensures done + Kept(s[i..], dec)
         == (if IsDigit(s[i]) then done + [s[i]] else if IsSeparator(s[i], dec) then done + "." else done)
            + Kept(s[i + 1..], dec)
  {
    assert s[i..][1..] == s[i + 1..];
  }

  // ----- Printed amounts -----

  /** The signs for thousands and for decimals. */
  datatype Locale = Locale(group: char, dec: char)

  const ENGLISH := Locale(',', '.')
  const GERMAN := Locale('.', ',')

  /** Digits with a sign before every third from the right. */
  function Grouped(digits: string, group: char): string {
    if |digits| <= 3 then digits else Grouped(digits[..|digits| - 3], group) + ([group] + digits[|digits| - 3..])
  }

  function TwoDigits(n: nat): string
    requires n < 100
  {
    [DigitChar(n / 10), DigitChar(n % 10)]
  }

  /** The text of a non-negative amount of cents, with what a currency sign adds around it. */
  function PrintAmount(cents: nat, locale: Locale, before: string, behind: string): string {
    before + (Grouped(Digits(cents / 100), locale.group) + ([locale.dec] + (TwoDigits(cents % 100) + behind)))
  }

  function PrintMoney(cents: int, locale: Locale, before: string, behind: string): string {
    if cents < 0 then "(" + (PrintAmount(-cents, locale, before, behind) + ")")
    else PrintAmount(cents, locale, before, behind)
  }

  /** The text of an amount in plain form, and its reader. */
  function PlainCents(cents: nat): string {
    Digits(cents / 100) + ("." + TwoDigits(cents % 100))
  }

  function PrintPlain(cents: int): string {
    if cents < 0 then "-" + PlainCents(-cents) else PlainCents(cents)
  }

  predicate AllDigits(s: string) { forall c <- s :: IsDigit(c) }

  function ReadUnsigned(s: string): Option<nat> {
    var n := |s|;
    if n >= 4 && s[n - 3] == '.' && AllDigits(s[..n - 3]) && AllDigits(s[n - 2..]) then
      Some(DigitsValue(s[..n - 3]) * 100 + DigitsValue(s[n - 2..]))
    else None
  }

  function ReadPlain(s: string): Option<int> {
    if s != "" && s[0] == '-' then
      match ReadUnsigned(s[1..])
      case None => None
      case Some(n) => Some(0 - n as int)
    else
      match ReadUnsigned(s)
      case None => None
      case Some(n) => Some(n)
  }

  lemma TwoDigitsValue(n: nat)
    requires n < 100
    ensures AllDigits(TwoDigits(n)) && DigitsValue(TwoDigits(n)) == n
  {
    var s := TwoDigits(n);
    assert s[..1] == [DigitChar(n / 10)] && s[..1][..0] == "";
    assert DigitsValue(s[..1]) == n / 10;
  }

  lemma UnsignedRoundTrip(cents: nat)
    ensures ReadUnsigned(PlainCents(cents)) == Some(cents)
    ensures PlainCents(cents)[0] != '-'
  {
    var whole, frac := Digits(cents / 100), TwoDigits(cents % 100);
    var s := whole + ("." + frac);
    assert s[..|s| - 3] == whole && s[|s| - 2..] == frac;
    DigitsRoundTrip(cents / 100);
    TwoDigitsValue(cents % 100);
    assert IsDigit(whole[0]);
  }

  lemma PlainRoundTrip(cents: int)
    ensures ReadPlain(PrintPlain(cents)) == Some(cents)
  {
    UnsignedRoundTrip(if cents < 0 then -cents else cents);
    hide PlainCents, ReadUnsigned;
    if cents < 0 {
      assert PrintPlain(cents)[1..] == PlainCents(-cents);
    } else {
      NotEmpty(cents);
    }
  }

  lemma NotEmpty(cents: nat)
    ensures PlainCents(cents) != ""
  {
  }

  // ----- What is kept of a printed amount -----

  lemma {:induction false} KeptConcat(a: string, b: string, dec: char)
    ensures Kept(a + b, dec) == Kept(a, dec) + Kept(b, dec)
  {
    if a == "" {
      assert a + b == b;
    } else {
      assert (a + b)[1..] == a[1..] + b;
      KeptConcat(a[1..], b, dec);
    }
  }

  /** Signs around an amount that the code does not take for a part of it. */
  predicate Decoration(s: string, dec: char) {
    forall c <- s :: !IsDigit(c) && c != '.' && c != ',' && !IsSeparator(c, dec)
  }

  lemma {:induction false} KeptDecoration(s: string, dec: char)
    requires Decoration(s, dec)
    ensures Kept(s, dec) == ""
  {
    if s != "" {
      assert s[0] in s;
      KeptDecoration(s[1..], dec);
    }
  }

  lemma {:induction false} KeptDigits(s: string, dec: char)
    requires AllDigits(s)
    ensures Kept(s, dec) == s
  {
    if s != "" {
      assert s[0] in s;
      KeptDigits(s[1..], dec);
      assert [s[0]] + s[1..] == s;
    }
  }

  predicate IsLocale(locale: Locale) { locale == ENGLISH || locale == GERMAN }

  lemma KeptSign(c: char, dec: char)
    requires (c == '.' || c == ',') && (dec == '.' || dec == ',')
    ensures Kept([c], dec) == if c == dec then "." else ""
  {
    assert [c][1..] == "";
  }

  lemma KeptGroup(head: string, group: char, tail: string, dec: char)
    requires AllDigits(tail)
    ensures Kept(head + ([group] + tail), dec) == Kept(head, dec) + (Kept([group], dec) + tail)
  {
    KeptDigits(tail, dec);
    hide Kept, AllDigits;
    KeptConcat(head, [group] + tail, dec);
    KeptConcat([group], tail, dec);
  }

  lemma {:induction false} KeptGrouped(digits: string, locale: Locale)
    requires AllDigits(digits) && IsLocale(locale)
    ensures Kept(Grouped(digits, locale.group), locale.dec) == digits
    decreases |digits|
  {
    if |digits| <= 3 {
      KeptDigits(digits, locale.dec);
    } else {
      var head, tail := digits[..|digits| - 3], digits[|digits| - 3..];
      KeptGrouped(head, locale);
      KeptSign(locale.group, locale.dec);
      hide Kept;
      KeptGroup(Grouped(head, locale.group), locale.group, tail, locale.dec);
      assert head + ("" + tail) == digits;
    }
  }

  lemma KeptAmount(cents: nat, locale: Locale, before: string, behind: string)
    requires IsLocale(locale) && Decoration(before, locale.dec) && Decoration(behind, locale.dec)
    ensures Kept(PrintAmount(cents, locale, before, behind), locale.dec) == PlainCents(cents)
  {
    var whole, frac, dec := Grouped(Digits(cents / 100), locale.group), TwoDigits(cents % 100), locale.dec;
    KeptGrouped(Digits(cents / 100), locale);
    KeptSign(dec, dec);
    TwoDigitsValue(cents % 100);
    KeptDigits(frac, dec);
    KeptDecoration(before, dec);
    KeptDecoration(behind, dec);
    hide Kept, Grouped, Digits, TwoDigits, Decoration, IsLocale;
    KeptConcat(before, whole + ([dec] + (frac + behind)), dec);
    KeptConcat(whole, [dec] + (frac + behind), dec);
    KeptConcat([dec], frac + behind, dec);
    KeptConcat(frac, behind, dec);
    assert frac + "" == frac;
    assert "" + (Digits(cents / 100) + ("." + frac)) == Digits(cents / 100) + ("." + frac);
  }

  // ----- The decimal separator is found -----

  lemma {:induction false} GroupedSigns(digits: string, group: char)
    requires AllDigits(digits)
    ensures forall c <- Grouped(digits, group) :: IsDigit(c) || c == group
    decreases |digits|
  {
    if |digits| > 3 {
      GroupedSigns(digits[..|digits| - 3], group);
    }
  }

  lemma SeparatorFound(a: string, b: string, locale: Locale)
    requires IsLocale(locale)
    requires locale.dec !in a && '.' !in b && ',' !in b
    ensures DecimalSeparator(a + ([locale.dec] + b)) == locale.dec
  {
    var s := a + ([locale.dec] + b);
    assert s[|a|] == locale.dec && s[|a| + 1..] == b;
    LastIndexIs(s, locale.dec, |a|);
    LastInFront(a, [locale.dec] + b, locale.group);
  }

  lemma LastInFront(a: string, b: string, c: char)
    requires c !in b
    ensures LastIndexOf(a + b, c) < |a|
  {
    assert forall i | |a| <= i < |a + b| :: (a + b)[i] == b[i - |a|] && b[i - |a|] in b;
  }

  lemma SeparatorOfAmount(cents: nat, locale: Locale, before: string, behind: string)
    requires IsLocale(locale) && Decoration(before, locale.dec) && Decoration(behind, locale.dec)
    ensures DecimalSeparator(PrintAmount(cents, locale, before, behind)) == locale.dec
  {
    var whole, frac := Grouped(Digits(cents / 100), locale.group), TwoDigits(cents % 100);
    GroupedSigns(Digits(cents / 100), locale.group);
    TwoDigitsValue(cents % 100);
    assert locale.dec !in before + whole;
    assert '.' !in frac + behind && ',' !in frac + behind;
    assert PrintAmount(cents, locale, before, behind) == (before + whole) + ([locale.dec] + (frac + behind));
    hide DecimalSeparator, Grouped, Digits, TwoDigits;
    SeparatorFound(before + whole, frac + behind, locale);
  }

  lemma UnsignedAmount(cents: nat, locale: Locale, before: string, behind: string)
    requires IsLocale(locale) && Decoration(before, locale.dec) && Decoration(behind, locale.dec)
    ensures Unsigned(PrintAmount(cents, locale, before, behind)) == PlainCents(cents)
  {
    hide Kept, DecimalSeparator, PrintAmount, Decoration;
    SeparatorOfAmount(cents, locale, before, behind);
    KeptAmount(cents, locale, before, behind);
    UnsignedRoundTrip(cents);
  }

  /**
   Any amount in grouped text with two decimals is recovered, whatever signs stand around it, as long as
   a positive amount does not itself stand in parentheses.
   */
  lemma MoneyRecovered(cents: int, locale: Locale, before: string, behind: string)
    requires IsLocale(locale) && Decoration(before, locale.dec) && Decoration(behind, locale.dec)
    requires cents >= 0 ==> !(before != "" && before[0] == '(' && behind != "" && behind[|behind| - 1] == ')')
    ensures Clean(PrintMoney(cents, locale, before, behind)) == PrintPlain(cents)
    ensures ReadPlain(Clean(PrintMoney(cents, locale, before, behind))) == Some(cents)
  {
    PlainRoundTrip(cents);
    hide IsLocale, Decoration, Unsigned, PrintAmount, PlainCents, ReadPlain;
    if cents < 0 {
      var amount := PrintAmount(-cents, locale, before, behind);
      UnsignedAmount(-cents, locale, before, behind);
      assert ("(" + (amount + ")"))[1..|amount| + 1] == amount;
    } else {
      UnsignedAmount(cents, locale, before, behind);
      AmountEnds(cents, locale, before, behind);
    }
  }

  lemma AmountEnds(cents: nat, locale: Locale, before: string, behind: string)
    ensures var s := PrintAmount(cents, locale, before, behind);
            && s != "" && (s[0] == '(' ==> before != "" && before[0] == '(')
            && (s[|s| - 1] == ')' ==> behind != "" && behind[|behind| - 1] == ')')
  {
    var whole, frac := Grouped(Digits(cents / 100), locale.group), TwoDigits(cents % 100);
    GroupedHead(Digits(cents / 100), locale.group);
    TwoDigitsValue(cents % 100);
    assert PrintAmount(cents, locale, before, behind) == before + (whole + ([locale.dec] + frac)) + behind;
    assert IsDigit(frac[1]) && |frac| == 2;
    hide Grouped, Digits, TwoDigits, PrintAmount;
  }

  lemma {:induction false} GroupedHead(digits: string, group: char)
    requires digits != "" && AllDigits(digits)
    ensures Grouped(digits, group) != "" && IsDigit(Grouped(digits, group)[0])
    decreases |digits|
  {
    if |digits| > 3 {
      GroupedHead(digits[..|digits| - 3], group);
    }
  }

  lemma {:induction false} GroupSignKept(digits: string, group: char)
    requires AllDigits(digits) && (group == '.' || group == ',')
    ensures Kept(Grouped(digits, group), group) == Grouped(digits, '.')
    decreases |digits|
  {
    if |digits| <= 3 {
      KeptDigits(digits, group);
    } else {
      var head, tail := digits[..|digits| - 3], digits[|digits| - 3..];
      GroupSignKept(head, group);
      KeptSign(group, group);
      hide Kept;
      KeptGroup(Grouped(head, group), group, tail, group);
    }
  }

  lemma {:induction false} GroupedLength(digits: string, group: char)
    ensures |Grouped(digits, group)| >= |digits|
    ensures |digits| > 3 ==> |Grouped(digits, group)| > |digits| && group in Grouped(digits, group)
    decreases |digits|
  {
    if |digits| > 3 {
      GroupedLength(digits[..|digits| - 3], group);
      var head, tail := digits[..|digits| - 3], digits[|digits| - 3..];
      assert Grouped(digits, group)[|Grouped(head, group)|] == group;
    }
  }

  function Signed(negative: bool, s: string): string {
    if negative then "-" + s else s
  }

  /** The text of a whole amount, with what a currency sign adds around it. */
  function PrintWhole(digits: string, locale: Locale, before: string, behind: string): string {
    before + (Grouped(digits, locale.group) + behind)
  }

  /** The sign that the code takes for the decimal separator of a whole amount. */
  function WholeSeparator(digits: string, locale: Locale): char {
    if |digits| > 3 then locale.group else '.'
  }

  lemma SeparatorOfWhole(digits: string, locale: Locale, before: string, behind: string)
    requires AllDigits(digits) && IsLocale(locale)
    requires Decoration(before, WholeSeparator(digits, locale)) && Decoration(behind, WholeSeparator(digits, locale))
    ensures DecimalSeparator(PrintWhole(digits, locale, before, behind)) == WholeSeparator(digits, locale)
  {
    GroupedSigns(digits, locale.group);
    GroupedLength(digits, locale.group);
    var s, whole := PrintWhole(digits, locale, before, behind), Grouped(digits, locale.group);
    assert forall c :: c in s <==> c in before || c in whole || c in behind;
    assert |digits| <= 3 ==> forall c <- whole :: IsDigit(c);
    hide Grouped, LastIndexOf;
  }

  /** Of a whole amount the digits are kept, and each sign for thousands as a decimal point. */
  lemma UnsignedWhole(digits: string, locale: Locale, before: string, behind: string)
    requires digits != "" && AllDigits(digits) && IsLocale(locale)
    requires Decoration(before, WholeSeparator(digits, locale)) && Decoration(behind, WholeSeparator(digits, locale))
    ensures Unsigned(PrintWhole(digits, locale, before, behind)) == Grouped(digits, '.')
    ensures Grouped(digits, '.') == digits <==> |digits| <= 3
  {
    var whole, dec := Grouped(digits, locale.group), WholeSeparator(digits, locale);
    SeparatorOfWhole(digits, locale, before, behind);
    WholeKept(digits, locale);
    GroupedLength(digits, '.');
    KeptDecoration(before, dec);
    KeptDecoration(behind, dec);
    hide Kept, Grouped, DecimalSeparator, Decoration;
    KeptConcat(before, whole + behind, dec);
    KeptConcat(whole, behind, dec);
    assert "" + (Grouped(digits, '.') + "") == Grouped(digits, '.');
    assert |digits| > 3 ==> |Grouped(digits, '.')| != |digits|;
  }

  /**
   In an amount without decimals the sign for thousands is taken for the decimal separator: what comes
   out is the digits, with the minus sign of an amount in parentheses, exactly when there are no
   thousands; whatever signs stand around it, as long as a positive amount is not itself in parentheses.
   */
  lemma WholeAmountIff(digits: string, locale: Locale, negative: bool, before: string, behind: string)
    requires digits != "" && AllDigits(digits) && IsLocale(locale)
    requires Decoration(before, WholeSeparator(digits, locale)) && Decoration(behind, WholeSeparator(digits, locale))
    requires negative || !(before != "" && before[0] == '(' && behind != "" && behind[|behind| - 1] == ')')
    ensures var amount := PrintWhole(digits, locale, before, behind);
            var cleaned := Clean(if negative then "(" + (amount + ")") else amount);
            && cleaned == Signed(negative, Grouped(digits, '.'))
            && (cleaned == Signed(negative, digits) <==> |digits| <= 3)
  {
    var amount := PrintWhole(digits, locale, before, behind);
    UnsignedWhole(digits, locale, before, behind);
    WholeEnds(digits, locale, before, behind);
    hide *;
    SignedAlike(negative, Grouped(digits, '.'), digits);
    if negative {
      CleanParentheses(amount);
    } else {
      CleanPlain(amount);
    }
  }

  lemma WholeEnds(digits: string, locale: Locale, before: string, behind: string)
    requires digits != "" && AllDigits(digits)
    ensures var s := PrintWhole(digits, locale, before, behind);
            && s != "" && (s[0] == '(' ==> before != "" && before[0] == '(')
            && (s[|s| - 1] == ')' ==> behind != "" && behind[|behind| - 1] == ')')
  {
    GroupedHead(digits, locale.group);
    GroupedTail(digits, locale.group);
    hide Grouped;
  }

  lemma {:induction false} GroupedTail(digits: string, group: char)
    requires digits != "" && AllDigits(digits)
    ensures Grouped(digits, group) != "" && IsDigit(Grouped(digits, group)[|Grouped(digits, group)| - 1])
  {
    assert digits[|digits| - 1] in digits;
  }

  lemma CleanParentheses(amount: string)
    ensures Clean("(" + (amount + ")")) == Signed(true, Unsigned(amount))
  {
    assert ("(" + (amount + ")"))[1..|amount| + 1] == amount;
    hide Unsigned;
  }

  lemma CleanPlain(s: string)
    requires s != "" && !(s[0] == '(' && s[|s| - 1] == ')')
    ensures Clean(s) == Signed(false, Unsigned(s))
  {
    hide Unsigned;
  }

  lemma SignedAlike(negative: bool, a: string, b: string)
    ensures Signed(negative, a) == Signed(negative, b) <==> a == b
  {
    assert ("-" + a)[1..] == a && ("-" + b)[1..] == b;
  }

  lemma WholeKept(digits: string, locale: Locale)
    requires digits != "" && AllDigits(digits) && IsLocale(locale)
    ensures Kept(Grouped(digits, locale.group), WholeSeparator(digits, locale)) == Grouped(digits, '.')
    ensures |digits| <= 3 ==> Grouped(digits, '.') == digits
    ensures Grouped(digits, '.') != ""
  {
    GroupSignKept(digits, locale.group);
    GroupedHead(digits, '.');
    if |digits| <= 3 {
      KeptDigits(digits, '.');
    }
  }

  /** Neither a digit nor a separator of any kind. */
  predicate Silent(s: string) {
    forall i | 0 <= i < |s| :: !IsDigit(s[i]) && s[i] != ',' && !IsSeparator(s[i], '.')
  }

  lemma {:induction false} SilentKept(s: string)
    requires Silent(s)
    ensures Kept(s, '.') == "" && ',' !in s
  {
    if s != "" {
      SilentKept(s[1..]);
      assert s == [s[0]] + s[1..];
    }
  }

  /** Text without digits and separators is zero, in parentheses its negative; no text stays none. */
  lemma SilentIsZero(s: string)
    requires Silent(s)
    ensures Clean("") == ""
    ensures s != "" && !InParentheses(s) ==> Clean(s) == "0"
    ensures Clean("(" + (s + ")")) == "-0"
  {
    SilentKept(s);
    var p := "(" + (s + ")");
    assert p[0] == '(' && p[|p| - 1] == ')' && p[1..|p| - 1] == s;
  }
}
