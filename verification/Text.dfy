/** Strings as sequences of Unicode code points, and the Go string functions the parsers use. */
module Text {
  /** The white space the parsers skip. */
  predicate IsBlank(c: char) { c == ' ' || c == '\t' || c == '\n' || c == '\r' }

  /** unicode.IsSpace. */
  predicate IsSpace(c: char) {
    var n := c as int;
    || 9 <= n <= 13 || n == 32 || n == 0x85 || n == 0xA0 || n == 0x1680 || 0x2000 <= n <= 0x200A
    || n == 0x2028 || n == 0x2029 || n == 0x202F || n == 0x205F || n == 0x3000
  }

  /** The characters with the property White_Space of Unicode. */
  lemma SpaceIs(c: char)
    ensures IsSpace(c)
       <==> c as int in {0x9, 0xA, 0xB, 0xC, 0xD, 0x20, 0x85, 0xA0, 0x1680, 0x2000, 0x2001, 0x2002, 0x2003, 0x2004,
                         0x2005, 0x2006, 0x2007, 0x2008, 0x2009, 0x200A, 0x2028, 0x2029, 0x202F, 0x205F, 0x3000}
  {
  }

  function SkipSpace(s: string): (r: string)
    ensures |r| <= |s|
    ensures r != "" ==> !IsBlank(r[0])
    ensures s != "" && !IsBlank(s[0]) ==> r == s
  {
    if s != "" && IsBlank(s[0]) then SkipSpace(s[1..]) else s
  }

  function TrimLeft(s: string): (r: string)
    ensures |r| <= |s| && r == s[|s| - |r|..]
    ensures r != "" ==> !IsSpace(r[0])
    ensures s == "" || !IsSpace(s[0]) ==> r == s
  {
    if s != "" && IsSpace(s[0]) then TrimLeft(s[1..]) else s
  }

  function TrimRight(s: string): (r: string)
    ensures |r| <= |s| && r == s[..|r|]
    ensures r != "" ==> !IsSpace(r[|r| - 1])
    ensures s == "" || !IsSpace(s[|s| - 1]) ==> r == s
  {
    if s != "" && IsSpace(s[|s| - 1]) then TrimRight(s[..|s| - 1]) else s
  }

  function TrimSpace(s: string): (r: string)
    ensures |r| <= |s|
  {
    TrimRight(TrimLeft(s))
  }

  /** Nothing to trim at either end. */
  predicate Trimmed(s: string) {
    s == "" || (!IsSpace(s[0]) && !IsSpace(s[|s| - 1]))
  }

  lemma TrimSpaceIdempotent(s: string)
    ensures Trimmed(TrimSpace(s))
    ensures Trimmed(s) <==> TrimSpace(s) == s
  {
    var l := TrimLeft(s);
    var r := TrimRight(l);
    if r != "" {
      assert r[0] == l[0];
    }
  }

  /** ASCII upper case; no other character folds to a letter of the keywords at equal length. */
  function Upper(c: char): char {
    if 'a' <= c <= 'z' then c - 'a' + 'A' else c
  }

  predicate EqualFold(a: string, b: string) {
    |a| == |b| && forall i | 0 <= i < |a| :: Upper(a[i]) == Upper(b[i])
  }

  predicate HasPrefixFold(s: string, prefix: string) {
    |s| >= |prefix| && forall i | 0 <= i < |prefix| :: Upper(s[i]) == Upper(prefix[i])
  }

  /** The same letter in capital and small. */
  predicate CaseOf(a: char, b: char) {
    a == b || ('A' <= a <= 'Z' && b as int == a as int + 32) || ('A' <= b <= 'Z' && a as int == b as int + 32)
  }

  /** Keywords are compared without regard to case, and only to that. */
  lemma FoldIsCase(s: string, kw: string)
    ensures HasPrefixFold(s, kw) <==> |s| >= |kw| && forall i | 0 <= i < |kw| :: CaseOf(s[i], kw[i])
    ensures EqualFold(s, kw) <==> |s| == |kw| && forall i | 0 <= i < |kw| :: CaseOf(s[i], kw[i])
  {
    assert forall a: char, b: char :: CaseOf(a, b) <==> Upper(a) == Upper(b);
  }

  lemma PrefixFolds(prefix: string, rest: string)
    ensures HasPrefixFold(prefix + rest, prefix)
    ensures (prefix + rest)[|prefix|..] == rest
  {
  }

  lemma OtherHead(s: string, prefix: string)
    requires s != "" && prefix != "" && Upper(s[0]) != Upper(prefix[0])
    ensures !HasPrefixFold(s, prefix)
  {
  }

  predicate IsBoundary(c: char) {
    IsBlank(c) || c == ',' || c == ';' || c == ')' || c == '('
  }

  /** The keyword, followed by a word boundary or by the end. */
  predicate HasKeyword(s: string, kw: string) {
    HasPrefixFold(s, kw) && (|s| == |kw| || IsBoundary(s[|kw|]))
  }

  /** What may follow a keyword: white space, a delimiter or nothing. */
  lemma KeywordIs(s: string, kw: string)
    ensures HasKeyword(s, kw)
       <==> && |s| >= |kw| && (forall i | 0 <= i < |kw| :: CaseOf(s[i], kw[i]))
            && (|s| == |kw| || s[|kw|] in {' ', '\t', '\n', '\r', ',', ';', '(', ')'})
  {
    FoldIsCase(s, kw);
  }

  /** Two dollar signs at the front. */
  predicate DollarsAhead(s: string) { |s| >= 2 && s[0] == '$' && s[1] == '$' }

  /** Position of the first two adjacent dollar signs, or -1. */
  function IndexDollars(s: string): (i: int)
    ensures -1 <= i && (i >= 0 ==> i + 2 <= |s|)
  {
    if s == "" then -1
    else if DollarsAhead(s) then 0
    else
      var i := IndexDollars(s[1..]);
      if i < 0 then -1 else i + 1
  }

  lemma {:induction false} IndexDollarsFirst(s: string)
    ensures var i := IndexDollars(s);
            && (i >= 0 ==> DollarsAhead(s[i..]))
            && forall j | 0 <= j < |s| - 1 && (i < 0 || j < i) :: !(s[j] == '$' && s[j + 1] == '$')
  {
    if s != "" && !DollarsAhead(s) {
      IndexDollarsFirst(s[1..]);
      var i := IndexDollars(s[1..]);
      if i >= 0 {
        assert s[1..][i..] == s[i + 1..];
      }
      forall j | 0 <= j < |s| - 1 && (i < 0 || j < i + 1)
        ensures !(s[j] == '$' && s[j + 1] == '$')
      {
        if j > 0 {
          assert s[j] == s[1..][j - 1] && s[j + 1] == s[1..][j];
        }
      }
    }
  }

  /** Position of a character, or -1. */
  function IndexOf(s: string, c: char): (i: int)
    ensures -1 <= i < |s|
    ensures i >= 0 ==> s[i] == c && c !in s[..i]
    ensures i < 0 <==> c !in s
  {
    if s == "" then -1
    else if s[0] == c then 0
    else
      var i := IndexOf(s[1..], c);
      assert i >= 0 ==> s[..i + 1] == [s[0]] + s[1..][..i];
      assert s == [s[0]] + s[1..];
      if i < 0 then -1 else i + 1
  }

  function LastIndexOf(s: string, c: char): (i: int)
    ensures -1 <= i < |s|
    ensures i >= 0 ==> s[i] == c && c !in s[i + 1..]
    ensures i < 0 <==> c !in s
  {
    if s == "" then -1
    else if s[|s| - 1] == c then |s| - 1
    else
      var i := LastIndexOf(s[..|s| - 1], c);
      assert s == s[..|s| - 1] + [s[|s| - 1]];
      assert i >= 0 ==> s[i + 1..] == s[..|s| - 1][i + 1..] + [s[|s| - 1]];
      i
  }

  lemma {:induction false} IndexIs(s: string, c: char, k: nat)
    requires k < |s| && s[k] == c && c !in s[..k]
    ensures IndexOf(s, c) == k
  {
    if k > 0 {
      assert s[0] == s[..k][0] && s[1..][..k - 1] == s[..k][1..];
      IndexIs(s[1..], c, k - 1);
    }
  }

  lemma {:induction false} LastIndexIs(s: string, c: char, k: nat)
    requires k < |s| && s[k] == c && c !in s[k + 1..]
    ensures LastIndexOf(s, c) == k
  {
    if k < |s| - 1 {
      var t := s[..|s| - 1];
      assert s[|s| - 1] == s[k + 1..][|s| - k - 2] && t[k + 1..] == s[k + 1..][..|s| - k - 2];
      LastIndexIs(t, c, k);
    }
  }

  /** Characters up to the first white space. */
  function TakeWord(s: string): (p: (string, string))
    ensures p.0 + p.1 == s
    ensures p.1 != "" ==> IsSpace(p.1[0])
    ensures forall c <- p.0 :: !IsSpace(c)
    ensures s != "" && !IsSpace(s[0]) ==> p.0 != ""
  {
    if s == "" || IsSpace(s[0]) then ("", s)
    else
      var p := TakeWord(s[1..]);
      ([s[0]] + p.0, p.1)
  }

  /** strings.Fields. */
  function Fields(s: string): seq<string>
    decreases |s|
  {
    var t := TrimLeft(s);
    if t == "" then []
    else
      var p := TakeWord(t);
      [p.0] + Fields(p.1)
  }

  /** Items with a separator between them. */
  function Join(items: seq<string>, sep: string): string {
    if items == [] then ""
    else if |items| == 1 then items[0]
    else items[0] + sep + Join(items[1..], sep)
  }
}
