/** The translation of index filters, on text (internal/source/mssql/metadata.go). */
module FilterText {
  import opened Text

  // ----- Parentheses -----

  function Change(c: char): int {
    if c == '(' then 1 else if c == ')' then -1 else 0
  }

  /** Whether the text closes what it opens, starting at the given depth. */
  predicate BalancedFrom(s: string, depth: int) {
    if depth < 0 then false
    else if s == "" then depth == 0
    else BalancedFrom(s[1..], depth + Change(s[0]))
  }

  predicate Balanced(s: string) { BalancedFrom(s, 0) }

  /** Position of the parenthesis that closes the given depth, or -1. */
  function Closing(s: string, depth: nat): (j: int)
    requires depth > 0
    ensures -1 <= j < |s|
    ensures j >= 0 ==> s[j] == ')'
  {
    if s == "" then -1
    else if s[0] == ')' && depth == 1 then 0
    else if s[0] == ')' || s[0] == '(' then
      var j := Closing(s[1..], depth + Change(s[0]));
      if j < 0 then -1 else j + 1
    else
      var j := Closing(s[1..], depth);
      if j < 0 then -1 else j + 1
  }

  /** Position of the parenthesis that matches the one at the front, or -1. */
  function Matching(s: string): (j: int)
    ensures -1 <= j < |s|
    ensures j >= 0 ==> j > 0 && s[0] == '(' && s[j] == ')'
  {
    if s == "" || s[0] != '(' then -1
    else
      var j := Closing(s[1..], 1);
      if j < 0 then -1 else j + 1
  }

  lemma CutInside(s: string, j: nat)
    requires 0 < j < |s|
    ensures s[..j] != "" && s[..j][0] == s[0] && s[..j][1..] == s[1..][..j - 1] && s[j + 1..] == s[1..][j..]
  {
  }

  /** Cutting at the parenthesis that closes depth leaves balanced parts. */
  lemma {:induction false} ClosingCuts(s: string, depth: nat, more: nat)
    requires depth > 0 && BalancedFrom(s, depth + more)
    ensures var j := Closing(s, depth); j >= 0 && BalancedFrom(s[..j], depth - 1) && BalancedFrom(s[j + 1..], more)
    decreases |s|
  {
    var j := Closing(s, depth);
    if s[0] == ')' && depth == 1 {
      assert s[..0] == "";
    } else {
      var d := depth + Change(s[0]);
      ClosingCuts(s[1..], d, more);
      assert j == Closing(s[1..], d) + 1;
      CutInside(s, j);
      hide Closing;
    }
  }

  /** Text that closes the given depth just before a parenthesis. */
  lemma {:induction false} ClosingIs(a: string, b: string, depth: nat)
    requires depth > 0 && BalancedFrom(a, depth - 1)
    ensures Closing(a + (")" + b), depth) == |a|
    decreases |a|
  {
    var s := a + (")" + b);
    if a == "" {
      assert s == ")" + b;
    } else {
      assert s[1..] == a[1..] + (")" + b);
      assert s[0] == ')' ==> depth > 1;
      ClosingIs(a[1..], b, depth + Change(a[0]));
    }
  }

  lemma MatchingCuts(s: string)
    requires Balanced(s) && s != "" && s[0] == '('
    ensures var j := Matching(s); j > 0 && Balanced(s[1..j]) && Balanced(s[j + 1..])
  {
    ClosingCuts(s[1..], 1, 0);
    var j := Matching(s);
    assert s[1..][..j - 1] == s[1..j] && s[1..][j..] == s[j + 1..];
  }

  predicate NoParens(s: string) { '(' !in s && ')' !in s }

  lemma {:induction false} DropPlain(a: string, b: string, depth: int)
    requires NoParens(a)
    ensures BalancedFrom(a + b, depth) <==> BalancedFrom(b, depth)
    decreases |a|
  {
    if a == "" {
      assert a + b == b;
    } else {
      assert a[0] in a;
      assert (a + b)[1..] == a[1..] + b;
      DropPlain(a[1..], b, depth);
    }
  }

  lemma SpaceIsNoParen(c: char)
    requires IsSpace(c)
    ensures c != '(' && c != ')'
  {
  }

  lemma {:induction false} TrimLeftBalanced(s: string, depth: int)
    ensures BalancedFrom(TrimLeft(s), depth) <==> BalancedFrom(s, depth)
  {
    hide IsSpace;
    if s != "" && IsSpace(s[0]) {
      SpaceIsNoParen(s[0]);
      TrimLeftBalanced(s[1..], depth);
    }
  }

  lemma {:induction false} DropLast(s: string, depth: int)
    requires s != "" && s[|s| - 1] != '(' && s[|s| - 1] != ')'
    ensures BalancedFrom(s, depth) <==> BalancedFrom(s[..|s| - 1], depth)
  {
    if |s| > 1 {
      assert s[..|s| - 1][1..] == s[1..][..|s| - 2];
      DropLast(s[1..], depth + Change(s[0]));
    } else {
      assert s[..0] == "" && s[1..] == "";
    }
  }

  lemma {:induction false} TrimRightBalanced(s: string, depth: int)
    ensures BalancedFrom(TrimRight(s), depth) <==> BalancedFrom(s, depth)
    decreases |s|
  {
    hide IsSpace;
    if s != "" && IsSpace(s[|s| - 1]) {
      SpaceIsNoParen(s[|s| - 1]);
      DropLast(s, depth);
      TrimRightBalanced(s[..|s| - 1], depth);
    }
  }

  lemma TrimBalanced(s: string)
    ensures Balanced(TrimSpace(s)) <==> Balanced(s)
  {
    TrimLeftBalanced(s, 0);
    TrimRightBalanced(TrimLeft(s), 0);
  }

  /** The test of the stripping loop. */
  predicate Wrapped(s: string) {
    |s| > 1 && s[0] == '(' && s[|s| - 1] == ')' && Balanced(TrimSpace(s[1..|s| - 1]))
  }

  /** A pair is stripped exactly when the first parenthesis matches the last. */
  lemma WrappedIff(s: string)
    ensures Wrapped(s) <==> s != "" && Matching(s) == |s| - 1
  {
    if |s| > 1 && s[0] == '(' && s[|s| - 1] == ')' {
      var inner := s[1..|s| - 1];
      TrimBalanced(inner);
      EndsCut(s);
      hide Closing, BalancedFrom, TrimSpace;
      if Balanced(inner) {
        ClosingIs(inner, "", 1);
      }
      if Matching(s) == |s| - 1 {
        ClosingBalanced(s[1..], 1);
      }
    }
  }

  lemma EndsCut(s: string)
    requires |s| > 1 && s[|s| - 1] == ')'
    ensures s[1..] == s[1..|s| - 1] + (")" + "") && s[1..][..|s| - 2] == s[1..|s| - 1]
  {
  }

  lemma {:induction false} ClosingBalanced(s: string, depth: nat)
    requires depth > 0 && Closing(s, depth) >= 0
    ensures BalancedFrom(s[..Closing(s, depth)], depth - 1)
    decreases |s|
  {
    var j := Closing(s, depth);
    if s[0] == ')' && depth == 1 {
      assert s[..0] == "";
    } else {
      ClosingBalanced(s[1..], depth + Change(s[0]));
      assert s[..j][1..] == s[1..][..j - 1];
    }
  }

  function StripOuterParens(s: string): (r: string)
    ensures |r| <= |s|
    decreases |s|
  {
    var t := TrimSpace(s);
    if Wrapped(t) then StripOuterParens(t[1..|t| - 1]) else t
  }

  method IsBalanced(s: string) returns (b: bool)
    ensures b == Balanced(s)
  {
    var depth := 0;
    assert s[0..] == s;
    for i := 0 to |s|
      invariant depth >= 0 && BalancedFrom(s[i..], depth) == Balanced(s)
    {
      assert s[i..][1..] == s[i + 1..];
      if s[i] == '(' {
        depth := depth + 1;
      } else if s[i] == ')' {
        depth := depth - 1;
        if depth < 0 {
          return false;
        }
      }
    }
    return depth == 0;
  }

  method FindMatchingParen(s: string, i: nat) returns (end: int)
    requires i < |s|
    ensures end == if Matching(s[i..]) < 0 then -1 else i + Matching(s[i..])
    ensures end < |s|
  {
    if s[i] != '(' {
      return -1;
    }
    var depth := 1;
    assert s[i..][1..] == s[i + 1..];
    for j := i + 1 to |s|
      invariant depth > 0
      invariant var k := Closing(s[j..], depth);
                Matching(s[i..]) == if k < 0 then -1 else j - i + k
    {
      assert s[j..][1..] == s[j + 1..];
      if s[j] == '(' {
        depth := depth + 1;
      } else if s[j] == ')' {
        depth := depth - 1;
        if depth == 0 {
          return j;
        }
      }
    }
    return -1;
  }

  method StripParens(s0: string) returns (s: string)
    ensures s == StripOuterParens(s0)
  {
    s := TrimSpace(s0);
    while |s| > 1 && s[0] == '(' && s[|s| - 1] == ')'
      invariant StripOuterParens(s0) == if Wrapped(s) then StripOuterParens(s[1..|s| - 1]) else s
      decreases |s|
    {
      var inner := TrimSpace(s[1..|s| - 1]);
      var balanced := IsBalanced(inner);
      if balanced {
        s := inner;
      } else {
        break;
      }
    }
  }

  // ----- The pieces a filter is walked in -----

  predicate IsIdentStart(c: char) { 'a' <= c <= 'z' || 'A' <= c <= 'Z' || c == '_' }

  predicate IsDigit(c: char) { '0' <= c <= '9' }

  predicate IsIdentPart(c: char) { IsIdentStart(c) || IsDigit(c) }

  predicate SpaceAfter(t: string, kw: string) {
    HasPrefixFold(t, kw + " ") || HasPrefixFold(t, kw + "\t")
  }

  /** NULL as a word of its own. */
  predicate NullAhead(t: string) {
    HasPrefixFold(t, "NULL") && (|t| == 4 || t[4] == ' ' || t[4] == '\t' || t[4] == ')' || t[4] == ',')
  }

  /** The keyword at the front, in capitals; nothing if there is none. */
  function Keyword(t: string): string {
    if SpaceAfter(t, "AND") then "AND"
    else if SpaceAfter(t, "OR") then "OR"
    else if HasPrefixFold(t, "IS NULL") then "IS NULL"
    else if HasPrefixFold(t, "IS NOT NULL") then "IS NOT NULL"
    else if SpaceAfter(t, "IN") || HasPrefixFold(t, "IN(") then "IN"
    else if SpaceAfter(t, "BETWEEN") then "BETWEEN"
    else if NullAhead(t) then "NULL"
    else if SpaceAfter(t, "NOT") then "NOT"
    else ""
  }

  function Operator(t: string): string {
    if "<=" <= t then "<=" else if ">=" <= t then ">=" else if "<>" <= t then "<>" else if "!=" <= t then "!="
    else if "=" <= t then "=" else if "<" <= t then "<" else if ">" <= t then ">" else ""
  }

  /** An operator is written after a space, and != as <>. */
  function Written(op: string): string {
    if op == "!=" then " <>" else " " + op
  }

  /** How many characters from the front satisfy a test. */
  function Run(t: string, test: char -> bool): (n: nat)
    ensures n <= |t| && (forall i | 0 <= i < n :: test(t[i])) && (n < |t| ==> !test(t[n]))
  {
    if t == "" || !test(t[0]) then 0 else 1 + Run(t[1..], test)
  }

  function NumberPart(): char -> bool { c => IsDigit(c) || c == '.' }

  function IdentPart(): char -> bool { c => IsIdentPart(c) }

  predicate StartsNumber(c: char) { c == '-' || c == '+' || IsDigit(c) || c == '.' }

  function NumberLength(t: string): (n: nat)
    requires t != "" && StartsNumber(t[0])
    ensures 1 <= n <= |t|
  {
    if t[0] == '-' || t[0] == '+' then 1 + Run(t[1..], NumberPart()) else Run(t, NumberPart())
  }

  /** What kind of piece stands at the front, and its length. */
  datatype Piece = Key(kw: string) | Bracketed(length: nat) | Sign(op: string) | Copied(length: nat)

  function Length(p: Piece): nat {
    match p
    case Key(kw) => |kw|
    case Bracketed(n) => n
    case Sign(op) => |op|
    case Copied(n) => n
  }

  function NextPiece(t: string): Piece
    requires t != ""
  {
    if t[0] == ' ' || t[0] == '\t' then Copied(1)
    else if Keyword(t) != "" then Key(Keyword(t))
    else if t[0] == '[' && ']' in t then Bracketed(IndexOf(t, ']') + 1)
    else if Operator(t) != "" then Sign(Operator(t))
    else Copied(CopiedLength(t))
  }

  /** A literal, a number, a word, or one character. */
  function CopiedLength(t: string): (n: nat)
    requires t != ""
    ensures 1 <= n <= |t|
  {
    if t[0] == '\'' && '\'' in t[1..] then IndexOf(t[1..], '\'') + 2
    else if StartsNumber(t[0]) then NumberLength(t)
    else if IsIdentStart(t[0]) then Run(t, IdentPart())
    else 1
  }

  /** What is written for a piece. */
  function Output(t: string, p: Piece): string
    requires Length(p) <= |t| && (p.Bracketed? ==> p.length >= 2)
  {
    match p
    case Key(kw) => kw
    case Bracketed(n) => "\"" + t[1..n - 1] + "\""
    case Sign(op) => Written(op)
    case Copied(n) => t[..n]
  }

  lemma KeywordFits(t: string)
    ensures |Keyword(t)| <= |t|
  {
  }

  lemma OperatorFits(t: string)
    ensures |Operator(t)| <= |t| && Operator(t) == t[..|Operator(t)|]
  {
  }

  lemma PieceFits(t: string)
    requires t != ""
    ensures var p := NextPiece(t); 1 <= Length(p) <= |t| && (p.Bracketed? ==> p.length >= 2)
  {
    KeywordFits(t);
    OperatorFits(t);
    hide Keyword, Operator;
  }

  // ----- The translation -----

  function Walk(t: string): string
    decreases |t|, 0
  {
    if t == "" then ""
    else if t[0] == '(' && Matching(t) > 0 then
      var end := Matching(t);
      "(" + (TranslateExpr(t[1..end]) + (")" + Walk(t[end + 1..])))
    else
      var p := NextPiece(t);
      PieceFits(t);
      Output(t, p) + Walk(t[Length(p)..])
  }

  function Squeeze(s: string): string {
    Join(Fields(s), " ")
  }

  function TranslateExpr(s: string): string
    decreases |s|, 1
  {
    Squeeze(Walk(StripOuterParens(s)))
  }

  function Translate(filter: string): string {
    var f := TrimSpace(filter);
    if f == "" then "" else TranslateExpr(f)
  }

  /** No filter, and one of white space only, is no filter. */
  lemma {:induction false} BlankFilter(filter: string)
    requires forall i | 0 <= i < |filter| :: IsSpace(filter[i])
    ensures TrimLeft(filter) == "" && Translate(filter) == ""
  {
    if filter != "" {
      assert forall i | 0 <= i < |filter| - 1 :: filter[1..][i] == filter[i + 1];
      BlankFilter(filter[1..]);
    }
    hide TranslateExpr;
  }

  // ----- The same with an index -----

  lemma DropDrop(s: string, i: nat, j: nat)
    requires i + j <= |s|
    ensures s[i..][j..] == s[i + j..] && s[i..][..j] == s[i..i + j]
  {
  }

  lemma NumberAt(s: string, i: nat)
    requires i < |s| && StartsNumber(s[i])
    ensures NumberLength(s[i..])
         == if s[i] == '-' || s[i] == '+' then 1 + Run(s[i + 1..], NumberPart()) else Run(s[i..], NumberPart())
  {
    DropDrop(s, i, 1);
  }

  method SkipWhile(s: string, from: nat, test: char -> bool) returns (j: nat)
    requires from <= |s|
    ensures j == from + Run(s[from..], test)
  {
    j := from;
    while j < |s| && test(s[j])
      invariant from <= j <= |s| && j + Run(s[j..], test) == from + Run(s[from..], test)
    {
      DropDrop(s, j, 1);
      j := j + 1;
    }
  }

  lemma OutputIs(t: string, p: Piece)
    requires Length(p) <= |t| && (p.Bracketed? ==> p.length >= 2)
    ensures p.Key? ==> Output(t, p) == p.kw
    ensures p.Bracketed? ==> Output(t, p) == "\"" + t[1..p.length - 1] + "\""
    ensures p.Sign? ==> Output(t, p) == Written(p.op)
    ensures p.Copied? ==> Output(t, p) == t[..p.length]
  {
    hide Written;
  }

  /** What is written for the piece at the front, and how long it is. */
  ghost predicate Writes(t: string, out: string, length: int)
    requires t != ""
  {
    PieceFits(t);
    length == Length(NextPiece(t)) && out == Output(t, NextPiece(t))
  }

  lemma WritesBlank(t: string)
    requires t != "" && (t[0] == ' ' || t[0] == '\t')
    ensures Writes(t, [t[0]], 1)
  {
    hide Keyword, Operator, CopiedLength, IndexOf;
  }

  lemma WritesKeyword(t: string)
    requires t != "" && t[0] != ' ' && t[0] != '\t' && Keyword(t) != ""
    ensures Writes(t, Keyword(t), |Keyword(t)|)
  {
    hide Keyword, Operator, CopiedLength, IndexOf;
  }

  predicate BracketAhead(t: string) { t != "" && t[0] == '[' && ']' in t }

  lemma BracketSpan(t: string)
    requires BracketAhead(t)
    ensures 1 <= IndexOf(t, ']') < |t|
  {
    hide IndexOf;
  }

  lemma WritesName(t: string)
    requires Keyword(t) == "" && BracketAhead(t)
    ensures Writes(t, "\"" + t[1..IndexOf(t, ']')] + "\"", IndexOf(t, ']') + 1)
  {
    hide Keyword, Operator, CopiedLength, IndexOf;
  }

  lemma WritesOperator(t: string)
    requires t != "" && t[0] != ' ' && t[0] != '\t' && Keyword(t) == "" && !BracketAhead(t) && Operator(t) != ""
    ensures Writes(t, Written(Operator(t)), |Operator(t)|)
  {
    hide Keyword, Operator, CopiedLength, IndexOf, Written;
  }

  lemma WritesCopy(t: string)
    requires t != "" && t[0] != ' ' && t[0] != '\t' && Keyword(t) == "" && !BracketAhead(t) && Operator(t) == ""
    ensures Writes(t, t[..CopiedLength(t)], CopiedLength(t))
  {
    hide Keyword, Operator, CopiedLength, IndexOf;
  }

  /** A name in brackets is written in double quotes. */
  method WriteName(s: string, i: nat) returns (out: string, next: nat)
    requires i < |s| && BracketAhead(s[i..]) && Keyword(s[i..]) == ""
    ensures i < next <= |s| && Writes(s[i..], out, next - i)
  {
    hide *;
    WritesName(s[i..]);
    BracketSpan(s[i..]);
    var end := IndexOf(s[i..], ']');
    SliceOfDrop(s, i, 1, end);
    return "\"" + s[i + 1..i + end] + "\"", i + end + 1;
  }

  /** What is neither white space nor a keyword nor a name: an operator, or text to copy. */
  method WriteRest(s: string, i: nat) returns (out: string, next: nat)
    requires i < |s| && s[i] != ' ' && s[i] != '\t' && Keyword(s[i..]) == "" && !BracketAhead(s[i..])
    ensures i < next <= |s| && Writes(s[i..], out, next - i)
  {
    hide *;
    var op := Operator(s[i..]);
    OperatorFits(s[i..]);
    if op != "" {
      WritesOperator(s[i..]);
      return Written(op), i + |op|;
    }
    WritesCopy(s[i..]);
    next := CopyPiece(s, i);
    DropDrop(s, i, next - i);
    return s[i..next], next;
  }

  /** One round of the loop on anything but a nested expression: what is written, and the new index. */
  method WritePiece(s: string, i: nat) returns (out: string, next: nat)
    requires i < |s|
    ensures i < next <= |s| && Writes(s[i..], out, next - i)
  {
    hide *;
    if s[i] == ' ' || s[i] == '\t' {
      WritesBlank(s[i..]);
      return [s[i]], i + 1;
    }
    var kw := Keyword(s[i..]);
    KeywordFits(s[i..]);
    if kw != "" {
      WritesKeyword(s[i..]);
      return kw, i + |kw|;
    }
    if BracketAhead(s[i..]) {
      out, next := WriteName(s, i);
    } else {
      out, next := WriteRest(s, i);
    }
  }

  method CopyPiece(s: string, i: nat) returns (next: nat)
    requires i < |s|
    ensures next == i + CopiedLength(s[i..])
  {
    hide Run, NumberLength, IndexOf;
    DropDrop(s, i, 1);
    if s[i] == '\'' && '\'' in s[i + 1..] {
      return i + IndexOf(s[i + 1..], '\'') + 2;
    }
    if StartsNumber(s[i]) {
      NumberAt(s, i);
      next := i;
      if s[next] == '-' || s[next] == '+' {
        next := next + 1;
      }
      next := SkipWhile(s, next, NumberPart());
      return;
    }
    if IsIdentStart(s[i]) {
      next := SkipWhile(s, i, IdentPart());
      return;
    }
    return i + 1;
  }

  lemma WalkPiece(t: string)
    requires t != "" && !(t[0] == '(' && Matching(t) > 0)
    ensures var p := NextPiece(t);
            Length(p) <= |t| && (p.Bracketed? ==> p.length >= 2) && Walk(t) == Output(t, p) + Walk(t[Length(p)..])
  {
    PieceFits(t);
    hide TranslateExpr, Output, NextPiece, Matching;
  }

  lemma WalkNested(t: string)
    requires t != "" && t[0] == '(' && Matching(t) > 0
    ensures var end := Matching(t);
            Walk(t) == "(" + (TranslateExpr(t[1..end]) + (")" + Walk(t[end + 1..])))
  {
    hide TranslateExpr, Output, NextPiece, Matching;
  }

  lemma SliceOfDrop(s: string, i: nat, a: nat, b: nat)
    requires a <= b && i + b <= |s|
    ensures s[i..][a..b] == s[i + a..i + b]
  {
  }

  lemma WritesIs(t: string, out: string, length: int)
    requires t != "" && Writes(t, out, length) && !(t[0] == '(' && Matching(t) > 0)
    ensures 0 <= length <= |t| && Walk(t) == out + Walk(t[length..])
  {
    hide NextPiece, Output, Matching, Walk;
    PieceFits(t);
    WalkPiece(t);
  }

  lemma PieceStep(s: string, i: nat, next: nat, out: string, done: string)
    requires i < next <= |s| && !(s[i] == '(' && Matching(s[i..]) > 0)
    requires Writes(s[i..], out, next - i)
    ensures done + Walk(s[i..]) == done + out + Walk(s[next..])
  {
    hide *;
    WritesIs(s[i..], out, next - i);
    DropDrop(s, i, next - i);
    Associate(done, out, Walk(s[next..]));
  }

  lemma Associate(a: string, b: string, c: string)
    ensures a + (b + c) == a + b + c
  {
  }

  lemma Regroup(a: string, inner: string, b: string)
    ensures a + ("(" + (inner + (")" + b))) == a + ("(" + inner + ")") + b
  {
  }

  method TranslateFilterExpr(s0: string) returns (out: string)
    ensures out == TranslateExpr(s0)
    decreases |s0|, 1
  {
    var s := StripParens(s0);
    var result := WalkText(s);
    TranslateExprIs(s0);
    return Join(Fields(result), " ");
  }

  /** The loop. */
  method WalkText(s: string) returns (result: string)
    ensures result == Walk(s)
    decreases |s|, 0
  {
    result := "";
    var i := 0;
    WalkStart(s);
    hide *;
    while i < |s|
      invariant i <= |s| && result + Walk(s[i..]) == Walk(s)
      decreases |s| - i
    {
      var end := -1;
      if s[i] == '(' {
        end := FindMatchingParen(s, i);
      }
      if end > i {
        WalkNested(s[i..]);
        SliceOfDrop(s, i, 1, end - i);
        DropDrop(s, i, end - i + 1);
        var inner := TranslateFilterExpr(s[i + 1..end]);
        Regroup(result, inner, Walk(s[end + 1..]));
        result := result + ("(" + inner + ")");
        i := end + 1;
      } else {
        var piece, next := WritePiece(s, i);
        PieceStep(s, i, next, piece, result);
        result := result + piece;
        i := next;
      }
    }
    WalkNothing(result, s[i..]);
  }

  lemma WalkStart(s: string)
    ensures s[0..] == s && "" + Walk(s) == Walk(s)
  {
    hide Walk;
  }

  lemma TranslateExprIs(s: string)
    ensures TranslateExpr(s) == Join(Fields(Walk(StripOuterParens(s))), " ")
  {
    hide Walk, StripOuterParens, Join, Fields;
  }

  lemma WalkNothing(done: string, t: string)
    requires t == ""
    ensures done + Walk(t) == done
  {
  }

  method TranslateFilter(filter: string) returns (out: string)
    ensures out == Translate(filter)
  {
    var f := TrimSpace(filter);
    if f == "" {
      return "";
    }
    out := TranslateFilterExpr(f);
  }
}
