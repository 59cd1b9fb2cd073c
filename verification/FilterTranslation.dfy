/**
 The tokens of a translated filter are those of the filter, apart from parentheses around nothing but
 another pair, and around the whole.
 */
module FilterTranslation {
  import opened Text
  import opened FilterText
  import opened FilterLexer

  // ----- Nesting -----

  /** Tokens grouped by their parentheses. */
  datatype Tree = Leaf(token: Token) | Group(items: seq<Tree>)

  predicate LeavesOnly(ts: seq<Token>) {
    Open !in ts && Close !in ts
  }

  function FlattenOne(t: Tree): seq<Token>
    decreases t
  {
    match t
    case Leaf(token) => [token]
    case Group(items) => [Open] + (Flatten(items) + [Close])
  }

  function Flatten(trees: seq<Tree>): seq<Token>
    decreases trees
  {
    if trees == [] then [] else FlattenOne(trees[0]) + Flatten(trees[1..])
  }

  /** Every leaf is a token other than a parenthesis. */
  predicate Proper(trees: seq<Tree>)
    decreases trees
  {
    trees != [] ==>
      && (match trees[0] case Leaf(t) => t != Open && t != Close case Group(items) => Proper(items))
      && Proper(trees[1..])
  }

  /** No pair of parentheses around the whole, nor around nothing but another pair. */
  function Squash(trees: seq<Tree>): seq<Tree>
    decreases trees, 1
  {
    if |trees| == 1 && trees[0].Group? then Squash(trees[0].items) else SquashEach(trees)
  }

  function SquashEach(trees: seq<Tree>): seq<Tree>
    decreases trees, 0
  {
    if trees == [] then []
    else [match trees[0] case Leaf(t) => Leaf(t) case Group(items) => Group(Squash(items))] + SquashEach(trees[1..])
  }

  function Leaves(ts: seq<Token>): seq<Tree> {
    seq(|ts|, i requires 0 <= i < |ts| => Leaf(ts[i]))
  }

  lemma {:induction false} FlattenLeaves(ts: seq<Token>, trees: seq<Tree>)
    requires LeavesOnly(ts)
    ensures Flatten(Leaves(ts) + trees) == ts + Flatten(trees)
    ensures Proper(trees) ==> Proper(Leaves(ts) + trees)
    decreases |ts|
  {
    var all := Leaves(ts) + trees;
    if ts == [] {
      assert all == trees;
    } else {
      assert all[1..] == Leaves(ts[1..]) + trees;
      assert ts[0] in ts;
      FlattenLeaves(ts[1..], trees);
      assert [ts[0]] + (ts[1..] + Flatten(trees)) == ts + Flatten(trees);
    }
  }

  lemma {:induction false} SquashLeaves(ts: seq<Token>, trees: seq<Tree>)
    ensures SquashEach(Leaves(ts) + trees) == Leaves(ts) + SquashEach(trees)
    decreases |ts|
  {
    var all := Leaves(ts) + trees;
    if ts == [] {
      assert all == trees;
      assert Leaves(ts) + SquashEach(trees) == SquashEach(trees);
    } else {
      assert all[1..] == Leaves(ts[1..]) + trees;
      SquashLeaves(ts[1..], trees);
      assert [Leaf(ts[0])] + (Leaves(ts[1..]) + SquashEach(trees)) == Leaves(ts) + SquashEach(trees);
    }
  }

  lemma {:induction false} FlattenNoReject(trees: seq<Tree>)
    requires Reject !in Flatten(trees)
    ensures Reject !in Flatten(Squash(trees))
    ensures Reject !in Flatten(SquashEach(trees))
    decreases trees
  {
    if trees != [] {
      FlattenNoReject(trees[1..]);
      if trees[0].Group? {
        FlattenNoReject(trees[0].items);
      }
    }
  }

  // ----- One piece -----

  /** The text may go on in this mode: no operator is completed across pieces. */
  predicate Compatible(m: Mode, t: string) {
    m.InOp? && t != "" ==> !Completes(m.c, t[0])
  }

  /** What is known between pieces of a filter. */
  predicate Between(m: Mode, t: string) {
    Calm(m) && Compatible(m, t) && Balanced(t) && Reject !in LexFrom(SQLServer, m, t)
  }

  /** A part of the filter and what is written for it give the same tokens and end in the same mode. */
  ghost predicate Same(m: Mode, a: string, out: string) {
    var r := Over(SQLServer, m, a);
    Over(PostgreSQL, m, out) == r && Calm(r.1) && LeavesOnly(r.0) && NoParens(a)
  }

  /** Characters that both dialects read in the same way. */
  predicate Common(c: char) {
    c != '[' && c != '"' && c != '\'' && c != '(' && c != ')'
  }

  lemma StepCommon(m: Mode, c: char)
    requires Calm(m) && Common(c) && Reject !in Step(SQLServer, m, c).0
    ensures Step(PostgreSQL, m, c) == Step(SQLServer, m, c)
    ensures Calm(Step(SQLServer, m, c).1) && LeavesOnly(Step(SQLServer, m, c).0)
  {
    hide IsSpace;
  }

  lemma {:induction false} CopySame(m: Mode, a: string)
    requires Calm(m) && (forall c <- a :: Common(c)) && Reject !in Over(SQLServer, m, a).0
    ensures Same(m, a, a)
    decreases |a|
  {
    if a != "" {
      assert a[0] in a;
      StepCommon(m, a[0]);
      hide Step;
      CopySame(Step(SQLServer, m, a[0]).1, a[1..]);
      assert forall c <- a :: c == a[0] || c in a[1..];
    }
  }

  predicate KeywordChar(c: char) { 'A' <= c <= 'Z' || c == ' ' }

  lemma StepFolded(m: Mode, c: char, k: char)
    requires Calm(m) && Upper(c) == Upper(k) && KeywordChar(k)
    ensures Step(PostgreSQL, m, k) == Step(SQLServer, m, c)
    ensures Calm(Step(SQLServer, m, c).1) && LeavesOnly(Step(SQLServer, m, c).0) && c != '(' && c != ')'
  {
    assert k == ' ' <==> c == ' ';
  }

  lemma {:induction false} KeywordSame(m: Mode, a: string, kw: string)
    requires Calm(m) && EqualFold(a, kw) && forall c <- kw :: KeywordChar(c)
    ensures Same(m, a, kw)
    decreases |a|
  {
    if a != "" {
      assert kw[0] in kw;
      StepFolded(m, a[0], kw[0]);
      hide Step;
      var t := Step(SQLServer, m, a[0]);
      assert forall i | 0 <= i < |a[1..]| :: a[1..][i] == a[i + 1] && kw[1..][i] == kw[i + 1];
      KeywordSame(t.1, a[1..], kw[1..]);
      assert forall c <- a :: c == a[0] || c in a[1..];
    }
  }

  lemma {:induction false} InsideLiteral(v: string, body: string)
    requires '\'' !in body && Reject !in Over(SQLServer, InLiteral(v), body).0
    ensures var r := Over(SQLServer, InLiteral(v), body);
            Over(PostgreSQL, InLiteral(v), body) == r && r == ([], InLiteral(v + body)) && NoParens(body)
    decreases |body|
  {
    if body == "" {
      assert v + "" == v;
    } else {
      assert body[0] in body;
      hide IsSpace;
      InsideLiteral(v + [body[0]], body[1..]);
      assert v + [body[0]] + body[1..] == v + body;
      assert forall c <- body :: c == body[0] || c in body[1..];
    }
  }

  lemma {:induction false} InsideName(v: string, body: string)
    requires ']' !in body && Reject !in Over(SQLServer, InName(v), body).0
    ensures var r := Over(SQLServer, InName(v), body);
            Over(PostgreSQL, InName(v), body) == r && r == ([], InName(v + body)) && NoParens(body)
    decreases |body|
  {
    if body == "" {
      assert v + "" == v;
    } else {
      assert body[0] in body;
      hide IsSpace;
      InsideName(v + [body[0]], body[1..]);
      assert v + [body[0]] + body[1..] == v + body;
      assert forall c <- body :: c == body[0] || c in body[1..];
    }
  }

  lemma OverOne(d: Dialect, m: Mode, c: char)
    ensures Over(d, m, [c]).0 == Step(d, m, c).0 && Over(d, m, [c]).1 == Step(d, m, c).1
  {
    hide Step;
    assert [c][1..] == "";
  }

  lemma OpenLiteral(m: Mode)
    requires Calm(m)
    ensures var t := Step(SQLServer, m, '\'');
            Step(PostgreSQL, m, '\'') == t && t.1.InLiteral? && LeavesOnly(t.0)
  {
  }

  lemma CloseLiteral(v: string)
    ensures Step(SQLServer, InLiteral(v), '\'') == ([], LiteralSeen(v))
    ensures Step(PostgreSQL, InLiteral(v), '\'') == ([], LiteralSeen(v))
  {
  }

  lemma LiteralSame(m: Mode, body: string)
    requires Calm(m) && '\'' !in body && Reject !in Over(SQLServer, m, "'" + (body + "'")).0
    ensures Same(m, "'" + (body + "'"), "'" + (body + "'"))
  {
    hide *;
    var t := Step(SQLServer, m, '\'');
    OpenLiteral(m);
    assert "'" + (body + "'") == ['\''] + (body + "'");
    OverCons(SQLServer, m, '\'', body + "'");
    OverCons(PostgreSQL, m, '\'', body + "'");
    OverAppend(SQLServer, t.1, body, "'");
    OverAppend(PostgreSQL, t.1, body, "'");
    InsideLiteral(t.1.v, body);
    CloseLiteral(t.1.v + body);
    OverOne(SQLServer, InLiteral(t.1.v + body), '\'');
    OverOne(PostgreSQL, InLiteral(t.1.v + body), '\'');
    LiteralEnd(m, body, t.1.v + body);
  }

  lemma LiteralEnd(m: Mode, body: string, v: string)
    requires var a := "'" + (body + "'");
             && Over(PostgreSQL, m, a) == Over(SQLServer, m, a) && Over(SQLServer, m, a).1 == LiteralSeen(v)
             && Over(SQLServer, m, a).0 == Step(SQLServer, m, '\'').0
    requires LeavesOnly(Step(SQLServer, m, '\'').0) && NoParens(body)
    ensures Same(m, "'" + (body + "'"), "'" + (body + "'"))
  {
    hide Over, Step;
    assert forall c <- "'" + (body + "'") :: c == '\'' || c in body;
  }

  lemma OpenName(m: Mode)
    requires Calm(m) && Reject !in Step(SQLServer, m, '[').0
    ensures Step(SQLServer, m, '[') == (Flush(m), InName("")) && Step(PostgreSQL, m, '"') == (Flush(m), InName(""))
  {
    assert Flush(m) + [] == Flush(m);
  }

  lemma CloseName(n: string)
    ensures Step(SQLServer, InName(n), ']') == ([], NameSeen(n)) && Step(PostgreSQL, InName(n), '"') == ([], NameSeen(n))
  {
  }

  lemma FlushLeaves(m: Mode)
    ensures LeavesOnly(Flush(m)) && (Calm(m) <==> Reject !in Flush(m))
  {
  }

  lemma NameSame(m: Mode, body: string)
    requires Calm(m) && ']' !in body && Reject !in Over(SQLServer, m, "[" + (body + "]")).0
    ensures Same(m, "[" + (body + "]"), "\"" + (body + "\""))
  {
    OverAppend(SQLServer, m, "[", body + "]");
    OverOne(SQLServer, m, '[');
    OpenName(m);
    FlushLeaves(m);
    hide Step, Flush;
    OverAppend(PostgreSQL, m, "\"", body + "\"");
    OverOne(PostgreSQL, m, '"');
    OverAppend(SQLServer, InName(""), body, "]");
    OverAppend(PostgreSQL, InName(""), body, "\"");
    InsideName("", body);
    assert "" + body == body;
    CloseName(body);
    OverOne(SQLServer, InName(body), ']');
    OverOne(PostgreSQL, InName(body), '"');
  }

  // ----- Operators -----

  predicate OperatorStart(c: char) { c == '=' || c == '<' || c == '>' || c == '!' }

  lemma StepOperator(d: Dialect, m: Mode, c: char)
    requires Calm(m) && OperatorStart(c) && (m.InOp? ==> !Completes(m.c, c))
    ensures Step(d, m, c) == (Flush(m) + Start(d, c).0, Start(d, c).1)
  {
    assert [] + Start(d, c).0 == Start(d, c).0;
    hide IsSpace;
  }

  lemma StartOperator(d: Dialect, c: char)
    requires OperatorStart(c)
    ensures Start(d, c) == if c == '=' then ([Op("=")], Out) else ([], InOp(c))
  {
  }

  /** The tokens of an operator, read between tokens. */
  function OperatorTokens(op: string): (seq<Token>, Mode)
    requires op != ""
  {
    if op == "=" then ([Op("=")], Out)
    else if |op| == 1 then ([], InOp(op[0]))
    else ([Op(if op == "!=" then "<>" else op)], Out)
  }

  predicate IsOperator(op: string) {
    op == "<=" || op == ">=" || op == "<>" || op == "!=" || op == "=" || op == "<" || op == ">"
  }

  lemma OverOperator(d: Dialect, op: string)
    requires IsOperator(op)
    ensures Over(d, Out, op).0 == OperatorTokens(op).0 && Over(d, Out, op).1 == OperatorTokens(op).1
    ensures Over(d, Out, Written(op)).0 == OperatorTokens(op).0 && Over(d, Out, Written(op)).1 == OperatorTokens(op).1
  {
    OverOpened(d, op);
    var w := if op == "!=" then "<>" else op;
    OverOpened(d, w);
    StepSpace(d, Out, ' ');
    hide Step, IsOperator;
    assert Written(op) == " " + w;
    OverAppend(d, Out, " ", w);
    OverOne(d, Out, ' ');
  }

  lemma OverOpened(d: Dialect, op: string)
    requires IsOperator(op)
    ensures Over(d, Out, op).0 == OperatorTokens(op).0 && Over(d, Out, op).1 == OperatorTokens(op).1
  {
    StartOperator(d, op[0]);
    if |op| == 1 {
      assert op == [op[0]];
      OverOne(d, Out, op[0]);
    } else {
      assert op == [op[0]] + [op[1]];
      OverAppend(d, Out, [op[0]], [op[1]]);
      OverOne(d, Out, op[0]);
      OverOne(d, InOp(op[0]), op[1]);
    }
  }

  /** Reading an operator ends the token before it. */
  lemma OperatorEnds(m: Mode, op: string)
    requires Calm(m) && IsOperator(op) && Compatible(m, op)
    ensures Over(SQLServer, m, op).0 == Flush(m) + OperatorTokens(op).0
    ensures Over(SQLServer, m, op).1 == OperatorTokens(op).1
  {
    var c, rest := op[0], op[1..];
    assert op == [c] + rest && OperatorStart(c) && (m.InOp? ==> !Completes(m.c, c));
    hide *;
    OverOperator(SQLServer, op);
    StepOperator(SQLServer, m, c);
    StartAtOut(SQLServer, c);
    OverCons(SQLServer, m, c, rest);
    OverCons(SQLServer, Out, c, rest);
    AssociateTokens(Flush(m), Start(SQLServer, c).0, Over(SQLServer, Start(SQLServer, c).1, rest).0);
  }

  lemma StartAtOut(d: Dialect, c: char)
    ensures Step(d, Out, c) == Start(d, c)
  {
    hide Start;
  }

  lemma AssociateTokens(a: seq<Token>, b: seq<Token>, c: seq<Token>)
    ensures a + b + c == a + (b + c)
  {
  }

  lemma FlushOut()
    ensures Flush(Out) == []
  {
  }

  lemma WrittenEnds(m: Mode, op: string)
    requires Calm(m) && IsOperator(op)
    ensures Over(PostgreSQL, m, Written(op)).0 == Flush(m) + OperatorTokens(op).0
    ensures Over(PostgreSQL, m, Written(op)).1 == OperatorTokens(op).1
  {
    var w := if op == "!=" then "<>" else op;
    assert Written(op) == [' '] + w && IsOperator(w) && OperatorTokens(w) == OperatorTokens(op);
    assert IsSpace(' ');
    hide *;
    OverOpened(PostgreSQL, w);
    StepSpace(PostgreSQL, m, ' ');
    OverCons(PostgreSQL, m, ' ', w);
  }

  lemma OperatorSame(m: Mode, op: string)
    requires Calm(m) && IsOperator(op) && Compatible(m, op)
    ensures Same(m, op, Written(op))
  {
    assert op != "";
    hide *;
    LeavesTogether(Flush(m), OperatorTokens(op).0);
    FlushLeaves(m);
    OperatorEnds(m, op);
    WrittenEnds(m, op);
    OperatorLeaves(op);
    SameWhen(m, op, Written(op));
  }

  lemma LeavesTogether(a: seq<Token>, b: seq<Token>)
    ensures LeavesOnly(a) && LeavesOnly(b) ==> LeavesOnly(a + b)
  {
  }

  lemma OperatorLeaves(op: string)
    requires IsOperator(op)
    ensures LeavesOnly(OperatorTokens(op).0) && Calm(OperatorTokens(op).1) && NoParens(op)
  {
  }

  lemma SameWhen(m: Mode, a: string, out: string)
    requires Over(PostgreSQL, m, out).0 == Over(SQLServer, m, a).0 && Over(PostgreSQL, m, out).1 == Over(SQLServer, m, a).1
    requires LeavesOnly(Over(SQLServer, m, a).0) && Calm(Over(SQLServer, m, a).1) && NoParens(a)
    ensures Same(m, a, out)
  {
    hide Over;
  }

  // ----- Every piece -----

  /** An opening quote without a closing one is not accepted. */
  lemma {:induction false} UnclosedLiteral(v: string, t: string)
    requires '\'' !in t
    ensures Reject in LexFrom(SQLServer, InLiteral(v), t)
    decreases |t|
  {
    if t != "" {
      assert t[0] in t;
      hide IsSpace;
      if Step(SQLServer, InLiteral(v), t[0]).1.InLiteral? {
        UnclosedLiteral(Step(SQLServer, InLiteral(v), t[0]).1.v, t[1..]);
      }
    }
  }

  lemma {:induction false} UnclosedName(v: string, t: string)
    requires ']' !in t
    ensures Reject in LexFrom(SQLServer, InName(v), t)
    decreases |t|
  {
    if t != "" {
      assert t[0] in t;
      hide IsSpace;
      if Step(SQLServer, InName(v), t[0]).1.InName? {
        UnclosedName(Step(SQLServer, InName(v), t[0]).1.n, t[1..]);
      }
    }
  }

  lemma LiteralCloses(m: Mode, t: string)
    requires Between(m, t) && t != "" && t[0] == '\''
    ensures '\'' in t[1..]
  {
    OpenLiteral(m);
    hide Step;
    if '\'' !in t[1..] {
      UnclosedLiteral(Step(SQLServer, m, '\'').1.v, t[1..]);
    }
  }

  lemma NameCloses(m: Mode, t: string)
    requires Between(m, t) && t != "" && t[0] == '['
    ensures ']' in t
  {
    assert t == [t[0]] + t[1..];
    OpenName(m);
    hide Step;
    if ']' !in t[1..] {
      UnclosedName("", t[1..]);
    }
  }

  /** What is known of the part at the front, and of the rest. */
  lemma FrontAccepted(m: Mode, a: string, rest: string)
    requires Between(m, a + rest)
    ensures Reject !in Over(SQLServer, m, a).0 && Reject !in LexFrom(SQLServer, Over(SQLServer, m, a).1, rest)
    ensures NoParens(a) ==> Balanced(rest)
    ensures a != "" ==> Compatible(m, a)
  {
    LexAppend(SQLServer, m, a, rest);
    if NoParens(a) {
      DropPlain(a, rest, 0);
    }
    hide Over, LexFrom;
  }

  lemma PieceChars(t: string)
    requires t != "" && t[0] != '(' && t[0] != ')' && t[0] != '\'' && t[0] != '[' && t[0] != '"'
    requires NextPiece(t).Copied?
    ensures forall c <- t[..Length(NextPiece(t))] :: Common(c)
    ensures |t| > Length(NextPiece(t)) && Length(NextPiece(t)) >= 1 ==>
              (t[Length(NextPiece(t)) - 1] in {'<', '>', '!'} ==> !Completes(t[Length(NextPiece(t)) - 1], t[Length(NextPiece(t))]))
  {
    PieceFits(t);
    hide Keyword, IndexOf, IsSpace;
    if t[0] == ' ' || t[0] == '\t' {
    } else {
      CopiedChars(t);
    }
  }

  /** Signs that are copied are not the start of an operator. */
  lemma CopiedChars(t: string)
    requires t != "" && t[0] != '(' && t[0] != ')' && t[0] != '\'' && t[0] != '[' && t[0] != '"' && Operator(t) == ""
    ensures var n := CopiedLength(t);
            && (forall c <- t[..n] :: Common(c))
            && (n < |t| && t[n - 1] in {'<', '>', '!'} ==> !Completes(t[n - 1], t[n]))
  {
    OperatorNone(t);
    hide IndexOf, Operator;
    var n := CopiedLength(t);
    assert forall i | 0 < i < n :: IsIdentPart(t[i]) || t[i] == '.' by {
      if StartsNumber(t[0]) {
        NumberChars(t);
      }
    }
  }

  lemma NumberChars(t: string)
    requires t != "" && StartsNumber(t[0])
    ensures forall i | 0 < i < NumberLength(t) :: IsIdentPart(t[i]) || t[i] == '.'
  {
    if t[0] == '-' || t[0] == '+' {
      assert forall i | 0 < i < NumberLength(t) :: t[i] == t[1..][i - 1] && NumberPart()(t[1..][i - 1]);
    }
  }

  lemma OperatorNone(t: string)
    requires t != "" && Operator(t) == ""
    ensures t[0] != '=' && t[0] != '<' && t[0] != '>' && (t[0] == '!' && |t| > 1 ==> t[1] != '=')
  {
    assert t[0] == '=' ==> "=" <= t;
    assert t[0] == '<' ==> "<" <= t;
    assert t[0] == '>' ==> ">" <= t;
    assert t[0] == '!' && |t| > 1 && t[1] == '=' ==> "!=" <= t;
  }

  predicate KeywordText(kw: string) { forall i | 0 <= i < |kw| :: KeywordChar(kw[i]) }

  lemma KeywordTexts()
    ensures KeywordText("AND") && KeywordText("OR") && KeywordText("IS NULL") && KeywordText("IS NOT NULL")
    ensures KeywordText("IN") && KeywordText("BETWEEN") && KeywordText("NULL") && KeywordText("NOT")
  {
  }

  lemma SpaceAfterFolds(t: string, kw: string, next: string)
    requires HasPrefixFold(t, kw + next)
    ensures HasPrefixFold(t, kw)
  {
    var long := kw + next;
    assert forall i | 0 <= i < |kw| :: long[i] == kw[i];
  }

  lemma SpaceAfterIsPrefix(t: string, kw: string)
    requires SpaceAfter(t, kw)
    ensures HasPrefixFold(t, kw)
  {
    if HasPrefixFold(t, kw + " ") {
      SpaceAfterFolds(t, kw, " ");
    } else {
      SpaceAfterFolds(t, kw, "\t");
    }
  }

  /** The keyword that is recognised stands at the front, letter case aside. */
  lemma KeywordAhead(t: string)
    requires Keyword(t) != ""
    ensures HasPrefixFold(t, Keyword(t)) && KeywordText(Keyword(t))
  {
    KeywordTexts();
    var kw := Keyword(t);
    if kw in {"AND", "OR", "IN", "BETWEEN", "NOT"} && SpaceAfter(t, kw) {
      SpaceAfterIsPrefix(t, kw);
    } else if kw == "IN" {
      assert "IN(" == "IN" + "(";
      SpaceAfterFolds(t, "IN", "(");
    }
    hide SpaceAfter, HasPrefixFold, KeywordText;
  }

  lemma KeywordChars(t: string)
    requires Keyword(t) != ""
    ensures |Keyword(t)| <= |t|
    ensures var kw := Keyword(t); EqualFold(t[..|kw|], kw) && forall c <- kw :: KeywordChar(c)
  {
    KeywordAhead(t);
    hide Keyword;
  }

  /** After a part that ends in anything but a lone sign, any text may follow. */
  lemma {:induction false} EndsInSign(m: Mode, a: string)
    requires a != "" && Calm(m)
    ensures var r := Over(SQLServer, m, a).1;
            r.InOp? ==> r.c == a[|a| - 1] && a[|a| - 1] in {'<', '>', '!'}
    decreases |a|
  {
    if |a| == 1 {
      assert a == [a[0]];
      OverOne(SQLServer, m, a[0]);
      StepSign(m, a[0]);
    } else {
      var b, c := a[..|a| - 1], a[|a| - 1];
      assert a == b + [c];
      OverAppend(SQLServer, m, b, [c]);
      var m2 := Over(SQLServer, m, b).1;
      OverOne(SQLServer, m2, c);
      StepSign(m2, c);
    }
  }

  lemma StepSign(m: Mode, c: char)
    ensures var r := Step(SQLServer, m, c).1; r.InOp? ==> r.c == c && c in {'<', '>', '!'}
  {
    hide IsSpace;
  }

  /** One piece: same tokens, same mode, and the rest of the filter may go on. */
  ghost predicate Carries(m: Mode, t: string, n: nat, out: string)
    requires n <= |t|
  {
    Same(m, t[..n], out) && Between(Over(SQLServer, m, t[..n]).1, t[n..])
  }

  lemma CarriesWhen(m: Mode, t: string, n: nat, out: string)
    requires Between(m, t) && n <= |t| && Same(m, t[..n], out)
    requires Compatible(Over(SQLServer, m, t[..n]).1, t[n..])
    ensures Carries(m, t, n, out)
  {
    assert t == t[..n] + t[n..];
    FrontAccepted(m, t[..n], t[n..]);
    hide Over, LexFrom, Compatible;
  }

  lemma Accepted(m: Mode, t: string, n: nat)
    requires Between(m, t) && n <= |t|
    ensures Reject !in Over(SQLServer, m, t[..n]).0 && Calm(m)
  {
    assert t == t[..n] + t[n..];
    FrontAccepted(m, t[..n], t[n..]);
  }

  lemma KeywordCarries(m: Mode, t: string)
    requires Between(m, t) && t != "" && Keyword(t) != ""
    ensures |Keyword(t)| <= |t| && Carries(m, t, |Keyword(t)|, Keyword(t))
  {
    var kw := Keyword(t);
    KeywordFits(t);
    KeywordChars(t);
    KeywordLetter(t);
    var n := |kw|;
    assert Upper(t[n - 1]) == Upper(kw[n - 1]) by {
      assert t[..n][n - 1] == t[n - 1];
    }
    assert t[..n] != "" && t[..n][n - 1] !in {'<', '>', '!'};
    hide *;
    Accepted(m, t, n);
    KeywordSame(m, t[..n], kw);
    EndsInSign(m, t[..n]);
    NotSign(Over(SQLServer, m, t[..n]).1, t[..n], t[n..]);
    CarriesWhen(m, t, n, kw);
  }

  lemma NotSign(r: Mode, a: string, rest: string)
    requires a != "" && a[|a| - 1] !in {'<', '>', '!'} && (r.InOp? ==> a[|a| - 1] in {'<', '>', '!'})
    ensures Compatible(r, rest)
  {
  }

  lemma KeywordLetter(t: string)
    requires Keyword(t) != ""
    ensures KeywordChar(Keyword(t)[|Keyword(t)| - 1])
  {
    KeywordChars(t);
    assert Keyword(t)[|Keyword(t)| - 1] in Keyword(t);
    hide Keyword;
  }

  lemma BracketCarries(m: Mode, t: string)
    requires Between(m, t) && t != "" && t[0] == '['
    ensures ']' in t && var end := IndexOf(t, ']'); end >= 1 && Carries(m, t, end + 1, "\"" + t[1..end] + "\"")
  {
    hide *;
    NameCloses(m, t);
    var end := IndexOf(t, ']');
    var body := BracketShape(t);
    Accepted(m, t, end + 1);
    NameSame(m, body);
    EndsInSign(m, t[..end + 1]);
    NotSign(Over(SQLServer, m, t[..end + 1]).1, t[..end + 1], t[end + 1..]);
    CarriesWhen(m, t, end + 1, "\"" + body + "\"");
  }

  lemma BracketShape(t: string) returns (body: string)
    requires t != "" && t[0] == '[' && ']' in t
    ensures var end := IndexOf(t, ']');
            && end >= 1 && body == t[1..end] && t[..end + 1] == "[" + (body + "]")
            && t[..end + 1][end] !in {'<', '>', '!'}
    ensures ']' !in body && "\"" + body + "\"" == "\"" + (body + "\"")
  {
    var end := IndexOf(t, ']');
    body := t[1..end];
    hide IndexOf;
    assert t[..end + 1] == "[" + (body + "]") && t[..end + 1][end] == ']';
    assert forall c <- body :: c in t[..end];
  }

  lemma OperatorTaken(t: string)
    requires t != "" && Operator(t) != ""
    ensures var op := Operator(t);
            IsOperator(op) && op <= t && (|op| == 1 && |t| > 1 ==> !Completes(op[0], t[1]))
  {
    assert |t| > 1 && t[0] == '<' && t[1] == '=' ==> "<=" <= t;
    assert |t| > 1 && t[0] == '<' && t[1] == '>' ==> "<>" <= t;
    assert |t| > 1 && t[0] == '>' && t[1] == '=' ==> ">=" <= t;
  }

  lemma OperatorCarries(m: Mode, t: string)
    requires Between(m, t) && t != "" && Operator(t) != ""
    ensures |Operator(t)| <= |t| && Carries(m, t, |Operator(t)|, Written(Operator(t)))
  {
    var op := Operator(t);
    OperatorTaken(t);
    var n := |op|;
    assert t[..n] == op && Compatible(m, op);
    Accepted(m, t, n);
    OperatorSame(m, op);
    OperatorEnds(m, op);
    OperatorMode(op, t[n..]);
    hide Over, Written, LexFrom, Same, IsOperator, Balanced, Flush;
    CarriesWhen(m, t, n, Written(op));
  }

  lemma OperatorMode(op: string, rest: string)
    requires IsOperator(op) && (|op| == 1 && rest != "" ==> !Completes(op[0], rest[0]))
    ensures Compatible(OperatorTokens(op).1, rest)
  {
  }

  lemma CopyCarries(m: Mode, t: string)
    requires Between(m, t) && t != "" && NextPiece(t).Copied? && t[0] != '('
    ensures var n := Length(NextPiece(t)); 1 <= n <= |t| && Carries(m, t, n, t[..n])
  {
    PieceFits(t);
    NotPlain(m, t);
    if t[0] == '\'' {
      LiteralCarries(m, t);
    } else if t[0] == '[' {
      NameCloses(m, t);
      BracketIsNoCopy(t);
    } else {
      PieceChars(t);
      hide *;
      CommonCarries(m, t, Length(NextPiece(t)));
    }
  }

  lemma BracketIsNoCopy(t: string)
    requires t != "" && t[0] == '[' && ']' in t
    ensures !NextPiece(t).Copied?
  {
    hide Operator, IndexOf, CopiedLength;
  }

  /** A double quote, or a closing parenthesis, never stands at the front. */
  lemma NotPlain(m: Mode, t: string)
    requires Between(m, t) && t != ""
    ensures t[0] != '"' && t[0] != ')'
  {
    assert !BalancedFrom(t[1..], -1);
    QuoteRejected(m);
    hide Step;
    assert LexFrom(SQLServer, m, t) == Step(SQLServer, m, t[0]).0 + LexFrom(SQLServer, Step(SQLServer, m, t[0]).1, t[1..]);
  }

  lemma QuoteRejected(m: Mode)
    requires Calm(m)
    ensures Reject in Step(SQLServer, m, '"').0
  {
    assert !IsSpace('"');
    hide IsSpace;
  }

  lemma CommonCarries(m: Mode, t: string, n: nat)
    requires Between(m, t) && 1 <= n <= |t| && forall c <- t[..n] :: Common(c)
    requires |t| > n ==> (t[n - 1] in {'<', '>', '!'} ==> !Completes(t[n - 1], t[n]))
    ensures Carries(m, t, n, t[..n])
  {
    hide *;
    Accepted(m, t, n);
    CopySame(m, t[..n]);
    EndsInSign(m, t[..n]);
    assert t[..n][n - 1] == t[n - 1];
    assert |t| > n ==> t[n..][0] == t[n];
    SignThen(Over(SQLServer, m, t[..n]).1, t[n - 1], t[n..]);
    CarriesWhen(m, t, n, t[..n]);
  }

  lemma SignThen(r: Mode, last: char, rest: string)
    requires r.InOp? ==> r.c == last && last in {'<', '>', '!'}
    requires rest != "" ==> (last in {'<', '>', '!'} ==> !Completes(last, rest[0]))
    ensures Compatible(r, rest)
  {
  }

  lemma LiteralLength(t: string)
    requires t != "" && t[0] == '\'' && '\'' in t[1..]
    ensures NextPiece(t) == Copied(IndexOf(t[1..], '\'') + 2)
  {
    assert Keyword(t) == "" by {
      NoKeyword(t);
    }
    hide Keyword, IndexOf;
  }

  /** No keyword starts with a sign or a quote. */
  lemma NoKeyword(t: string)
    requires t != "" && t[0] in {'[', '=', '\''}
    ensures Keyword(t) == ""
  {
    NoWord(t, "AND");
    NoWord(t, "OR");
    NoWord(t, "IN");
    NoWord(t, "BETWEEN");
    NoWord(t, "NOT");
    OtherHead(t, "IS NULL");
    OtherHead(t, "IS NOT NULL");
    OtherHead(t, "IN(");
    OtherHead(t, "NULL");
    hide HasPrefixFold, SpaceAfter;
  }

  lemma NoWord(t: string, kw: string)
    requires t != "" && kw != "" && Upper(t[0]) != Upper(kw[0])
    ensures !SpaceAfter(t, kw)
  {
    OtherHead(t, kw + " ");
    OtherHead(t, kw + "\t");
    hide HasPrefixFold;
  }

  lemma LiteralCarries(m: Mode, t: string)
    requires Between(m, t) && t != "" && t[0] == '\''
    ensures var n := Length(NextPiece(t)); 1 <= n <= |t| && Carries(m, t, n, t[..n])
  {
    hide *;
    LiteralCloses(m, t);
    var body := LiteralShape(t);
    var n := Length(NextPiece(t));
    Accepted(m, t, n);
    LiteralSame(m, body);
    EndsInSign(m, t[..n]);
    NotSign(Over(SQLServer, m, t[..n]).1, t[..n], t[n..]);
    CarriesWhen(m, t, n, t[..n]);
  }

  lemma LiteralShape(t: string) returns (body: string)
    requires t != "" && t[0] == '\'' && '\'' in t[1..]
    ensures var n := Length(NextPiece(t));
            && 2 <= n <= |t| && t[..n] == "'" + (body + "'") && t[..n][n - 1] !in {'<', '>', '!'}
    ensures '\'' !in body
  {
    hide *;
    LiteralLength(t);
    var i := IndexOf(t[1..], '\'');
    body := t[1..][..i];
    QuoteSlice(t, i);
    CopiedIs(t, i + 2);
  }

  lemma CopiedIs(t: string, n: nat)
    requires t != "" && NextPiece(t) == Copied(n)
    ensures Length(NextPiece(t)) == n
  {
    hide NextPiece;
  }

  lemma QuoteSlice(t: string, i: nat)
    requires i + 1 < |t| && t[0] == '\'' && t[1..][i] == '\''
    ensures t[..i + 2] == "'" + (t[1..][..i] + "'") && t[..i + 2][i + 1] == '\''
  {
  }

  /** Whatever the piece at the front is, what is written for it carries its meaning. */
  lemma PieceCarries(m: Mode, t: string)
    requires Between(m, t) && t != "" && t[0] != '('
    ensures var p := NextPiece(t);
            1 <= Length(p) <= |t| && (p.Bracketed? ==> p.length >= 2) && Carries(m, t, Length(p), Output(t, p))
  {
    PieceFits(t);
    var p := NextPiece(t);
    match p {
      case Key(kw) => KeyIs(t); hide *; KeywordCarries(m, t);
      case Bracketed(n) => BracketIs(t); hide *; BracketCarries(m, t);
      case Sign(op) => SignIs(t); hide *; OperatorCarries(m, t);
      case Copied(n) => OutputIs(t, p); hide *; CopyCarries(m, t);
    }
  }

  lemma KeyIs(t: string)
    requires t != "" && NextPiece(t).Key?
    ensures var p := NextPiece(t); p.kw == Keyword(t) != "" && Length(p) == |Keyword(t)| <= |t| && Output(t, p) == Keyword(t)
  {
    PieceFits(t);
    hide Keyword, Operator, IndexOf, CopiedLength, Written;
  }

  lemma BracketPiece(t: string)
    requires t != "" && NextPiece(t).Bracketed?
    ensures BracketAhead(t) && NextPiece(t) == Bracketed(IndexOf(t, ']') + 1)
  {
    hide Keyword, Operator, CopiedLength, IndexOf;
  }

  lemma BracketIs(t: string)
    requires t != "" && NextPiece(t).Bracketed?
    ensures t[0] == '[' && ']' in t
    ensures var p, end := NextPiece(t), IndexOf(t, ']');
            Length(p) == end + 1 >= 2 && end < |t| && Output(t, p) == "\"" + t[1..end] + "\""
  {
    BracketPiece(t);
    BracketSpan(t);
    hide NextPiece, Output, IndexOf;
    OutputIs(t, NextPiece(t));
  }

  lemma SignIs(t: string)
    requires t != "" && NextPiece(t).Sign?
    ensures var p := NextPiece(t);
            Operator(t) != "" && Length(p) == |Operator(t)| <= |t| && Output(t, p) == Written(Operator(t))
  {
    PieceFits(t);
    hide Keyword, Operator, IndexOf, CopiedLength, Written;
  }

  // ----- Nested expressions -----

  /** A pair of parentheses: what is inside is read as a text of its own. */
  lemma NestedLex(d: Dialect, m: Mode, inner: string, rest: string)
    requires Calm(m) && Calm(Over(d, Out, inner).1)
    ensures LexFrom(d, m, "(" + (inner + (")" + rest)))
         == Flush(m) + ([Open] + (Lex(d, inner) + ([Close] + Lex(d, rest))))
  {
    hide *;
    var tail := ")" + rest;
    var r := Over(d, Out, inner);
    ParenLex(d, m, '(', inner + tail);
    ParenLex(d, r.1, ')', rest);
    LexAppend(d, Out, inner, tail);
    OverEnd(d, Out, inner);
    LexIs(d, inner);
    LexIs(d, rest);
    Regrouped(Flush(m), r.0, Flush(r.1), Lex(d, rest));
  }

  lemma LexIs(d: Dialect, s: string)
    ensures Lex(d, s) == LexFrom(d, Out, s)
  {
  }

  lemma ParenLex(d: Dialect, m: Mode, c: char, rest: string)
    requires Calm(m) && (c == '(' || c == ')')
    ensures LexFrom(d, m, [c] + rest) == Flush(m) + [if c == '(' then Open else Close] + LexFrom(d, Out, rest)
  {
    StepBreaks(d, m, c);
    StartParens(d);
    hide Step, Start, Flush, LexFrom;
    LexStep(d, m, c, rest);
  }

  lemma Regrouped(a: seq<Token>, b: seq<Token>, c: seq<Token>, e: seq<Token>)
    ensures a + [Open] + (b + (c + [Close] + e)) == a + ([Open] + (b + c + ([Close] + e)))
  {
  }

  lemma StartParens(d: Dialect)
    ensures Start(d, '(') == ([Open], Out) && Start(d, ')') == ([Close], Out)
  {
  }

  lemma CalmWithoutReject(d: Dialect, m: Mode, a: string)
    requires Reject !in LexFrom(d, m, a)
    ensures Calm(Over(d, m, a).1)
  {
    OverEnd(d, m, a);
    FlushLeaves(Over(d, m, a).1);
    assert forall t <- Flush(Over(d, m, a).1) :: t in LexFrom(d, m, a);
  }

  /** In accepted text no parenthesis stands inside quotes. */
  lemma CalmAtParen(m: Mode, inner: string, rest: string)
    requires Calm(m) && Reject !in LexFrom(SQLServer, m, "(" + (inner + (")" + rest)))
    ensures Calm(Over(SQLServer, Out, inner).1)
  {
    var tail := ")" + rest;
    var r := Over(SQLServer, Out, inner);
    StepBreaks(SQLServer, m, '(');
    StartParens(SQLServer);
    LexStep(SQLServer, m, '(', inner + tail);
    LexAppend(SQLServer, Out, inner, tail);
    LexStep(SQLServer, r.1, ')', rest);
    ParenInside(r.1, ')');
    hide Step, LexFrom, Over;
  }

  lemma ParenInside(m: Mode, c: char)
    requires c == '(' || c == ')'
    ensures !Calm(m) ==> Reject in Step(SQLServer, m, c).0
  {
  }

  // ----- The whole translation -----

  /** A pending token, or any character that is not white space, gives a token. */
  lemma {:induction false} SomethingRead(d: Dialect, m: Mode, a: string)
    requires a != "" && (m != Out || !IsSpace(a[0]))
    ensures Over(d, m, a).0 != [] || Over(d, m, a).1 != Out
    decreases |a|
  {
    StepReads(d, m, a[0]);
    var t := Step(d, m, a[0]);
    hide Step, IsSpace;
    if t.0 == [] && |a| > 1 {
      SomethingRead(d, t.1, a[1..]);
    }
  }

  lemma StepReads(d: Dialect, m: Mode, c: char)
    requires m != Out || !IsSpace(c)
    ensures Step(d, m, c).0 != [] || Step(d, m, c).1 != Out
  {
    hide IsSpace;
  }

  /** A text that starts or ends with something else than white space has a token. */
  lemma {:induction false} SomethingLexed(d: Dialect, m: Mode, a: string)
    requires a != "" && !IsSpace(a[|a| - 1])
    ensures LexFrom(d, m, a) != []
    decreases |a|
  {
    if |a| == 1 {
      SomethingRead(d, m, a);
      OverEnd(d, m, a);
    } else {
      hide Step, IsSpace;
      SomethingLexed(d, Step(d, m, a[0]).1, a[1..]);
    }
  }

  predicate StartsWithLeaf(trees: seq<Tree>) { trees != [] && trees[0].Leaf? }

  predicate Single(trees: seq<Tree>) { |trees| == 1 && trees[0].Group? }

  /** The result of walking over a text in a mode, in terms of trees. */
  ghost predicate Walked(m: Mode, t: string, trees: seq<Tree>) {
    && Proper(trees)
    && LexFrom(SQLServer, m, t) == Flatten(trees)
    && SpacedTokens(LexFrom(PostgreSQL, m, Walk(t))) == SpacedTokens(Flatten(SquashEach(trees)))
    && (m != Out ==> StartsWithLeaf(trees))
  }

  ghost predicate Translated(s: string, trees: seq<Tree>) {
    && Proper(trees)
    && Lex(SQLServer, s) == Flatten(trees)
    && Lex(PostgreSQL, TranslateExpr(s)) == SpacedTokens(Flatten(Squash(trees)))
  }

  lemma WalkedEnd(m: Mode)
    requires Calm(m)
    ensures Walked(m, "", Leaves(Flush(m)))
  {
    FlushLeaves(m);
    FlattenLeaves(Flush(m), []);
    SquashLeaves(Flush(m), []);
    assert Leaves(Flush(m)) + [] == Leaves(Flush(m));
    assert Flush(m) + [] == Flush(m);
    hide Flush;
    PendingFlush(m);
  }

  lemma PendingFlush(m: Mode)
    ensures m != Out ==> Flush(m) != []
    ensures m == Out ==> Flush(m) == []
  {
  }

  lemma PieceWritten(m: Mode, t: string, n: nat, out: string, rest: seq<Tree>)
    requires n <= |t| && Same(m, t[..n], out)
    requires Walked(Over(SQLServer, m, t[..n]).1, t[n..], rest)
    ensures var ts := Over(SQLServer, m, t[..n]).0;
            SpacedTokens(LexFrom(PostgreSQL, m, out + Walk(t[n..]))) == SpacedTokens(ts + Flatten(SquashEach(rest)))
  {
    var r := Over(SQLServer, m, t[..n]);
    hide *;
    SameIs(m, t[..n], out);
    WalkedIs(r.1, t[n..], rest);
    LexAppend(PostgreSQL, m, out, Walk(t[n..]));
    SpacedAppend(r.0, LexFrom(PostgreSQL, r.1, Walk(t[n..])));
    SpacedAppend(r.0, Flatten(SquashEach(rest)));
  }

  /** The tokens of a text and of what is written for it, when it starts with a piece. */
  lemma PieceTokens(m: Mode, t: string, n: nat, out: string, rest: seq<Tree>)
    requires 1 <= n <= |t| && Same(m, t[..n], out)
    requires Walked(Over(SQLServer, m, t[..n]).1, t[n..], rest)
    ensures var trees := Leaves(Over(SQLServer, m, t[..n]).0) + rest;
            && Proper(trees) && (m != Out || !IsSpace(t[0]) ==> StartsWithLeaf(trees))
            && LexFrom(SQLServer, m, t) == Flatten(trees)
            && SpacedTokens(LexFrom(PostgreSQL, m, out + Walk(t[n..]))) == SpacedTokens(Flatten(SquashEach(trees)))
  {
    var a := t[..n];
    var r := Over(SQLServer, m, a);
    Cut(t, n);
    hide *;
    PieceWritten(m, t, n, out, rest);
    SameIs(m, a, out);
    LexAppend(SQLServer, m, a, t[n..]);
    WalkedIs(r.1, t[n..], rest);
    FlattenLeaves(r.0, rest);
    SquashLeaves(r.0, rest);
    FlattenLeaves(r.0, SquashEach(rest));
    if m != Out || !IsSpace(t[0]) {
      SomethingRead(SQLServer, m, a);
    }
    LeafFirst(r.0, r.1, rest);
  }

  lemma Cut(t: string, n: nat)
    requires 1 <= n <= |t|
    ensures t == t[..n] + t[n..] && t[..n] != "" && t[..n][0] == t[0]
  {
  }

  lemma SameIs(m: Mode, a: string, out: string)
    ensures Same(m, a, out) ==> Over(PostgreSQL, m, out) == Over(SQLServer, m, a) && LeavesOnly(Over(SQLServer, m, a).0)
  {
    hide Over;
  }

  lemma WalkedIs(m: Mode, t: string, trees: seq<Tree>)
    ensures Walked(m, t, trees) <==>
              && Proper(trees) && LexFrom(SQLServer, m, t) == Flatten(trees)
              && SpacedTokens(LexFrom(PostgreSQL, m, Walk(t))) == SpacedTokens(Flatten(SquashEach(trees)))
              && (m != Out ==> StartsWithLeaf(trees))
  {
    hide Proper, LexFrom, Flatten, SquashEach, Walk, StartsWithLeaf;
  }

  lemma TranslatedIs(s: string, trees: seq<Tree>)
    ensures Translated(s, trees) <==>
              && Proper(trees) && Lex(SQLServer, s) == Flatten(trees)
              && Lex(PostgreSQL, TranslateExpr(s)) == SpacedTokens(Flatten(Squash(trees)))
  {
    hide Proper, Lex, Flatten, Squash, TranslateExpr;
  }

  lemma LeafFirst(ts: seq<Token>, m: Mode, rest: seq<Tree>)
    requires m != Out ==> StartsWithLeaf(rest)
    ensures ts != [] || m != Out ==> StartsWithLeaf(Leaves(ts) + rest)
  {
    if ts == [] {
      assert Leaves(ts) + rest == rest;
    }
  }

  lemma SpacedNoReject(ts: seq<Token>)
    ensures Reject in SpacedTokens(ts) <==> Reject in ts
  {
    var us := SpacedTokens(ts);
    assert forall i | 0 <= i < |ts| :: us[i] == SpacedToken(ts[i]) && (us[i] == Reject <==> ts[i] == Reject);
    hide Spaced;
  }

  lemma {:induction false} SpacedTwice(v: string)
    ensures Spaced(Spaced(v)) == Spaced(v)
    decreases |v|
  {
    if v == "" {
      assert Spaced("") == "";
    } else {
      var u, c := v[..|v| - 1], v[|v| - 1];
      assert v == u + [c] && [' '] == " " && IsSpace(' ');
      hide Spaced, IsSpace;
      SpacedTwice(u);
      SpacedSnoc(u, c);
      SpacedEnd(u);
      SpacedSnoc(Spaced(u), c);
      SpacedSnoc(Spaced(u), ' ');
    }
  }

  lemma TokensSpacedTwice(ts: seq<Token>)
    ensures SpacedTokens(SpacedTokens(ts)) == SpacedTokens(ts)
  {
    hide Spaced;
    forall i | 0 <= i < |ts|
      ensures SpacedToken(SpacedToken(ts[i])) == SpacedToken(ts[i])
    {
      match ts[i] {
        case Name(n) => SpacedTwice(n);
        case Literal(v) => SpacedTwice(v);
        case _ =>
      }
    }
  }

  /** A group that has been spaced before, and what stands around it. */
  lemma GroupSpaced(ts: seq<Token>, g: seq<Token>, a: seq<Token>, b: seq<Token>)
    requires SpacedTokens(a) == SpacedTokens(b)
    ensures SpacedTokens(ts + ([Open] + (SpacedTokens(g) + ([Close] + a))))
         == SpacedTokens(ts + ([Open] + (g + ([Close] + b))))
  {
    hide *;
    TokensSpacedTwice(g);
    var h := SpacedTokens(g);
    SpacedAppend(ts, [Open] + (h + ([Close] + a)));
    SpacedAppend([Open], h + ([Close] + a));
    SpacedAppend(h, [Close] + a);
    SpacedAppend([Close], a);
    SpacedAppend(ts, [Open] + (g + ([Close] + b)));
    SpacedAppend([Open], g + ([Close] + b));
    SpacedAppend(g, [Close] + b);
    SpacedAppend([Close], b);
  }

  lemma NestedAccepted(d: Dialect, m: Mode, inner: string, rest: string)
    requires Calm(m) && Reject !in Lex(d, inner)
    ensures LexFrom(d, m, "(" + (inner + (")" + rest)))
         == Flush(m) + ([Open] + (Lex(d, inner) + ([Close] + LexFrom(d, Out, rest))))
  {
    hide *;
    LexIs(d, inner);
    LexIs(d, rest);
    CalmWithoutReject(d, Out, inner);
    NestedLex(d, m, inner, rest);
  }

  lemma NestedTrees(ts: seq<Token>, g: seq<Tree>, after: seq<Tree>)
    requires LeavesOnly(ts) && Proper(g) && Proper(after)
    ensures var trees := Leaves(ts) + ([Group(g)] + after);
            && Proper(trees) && (ts != [] ==> StartsWithLeaf(trees))
            && Flatten(trees) == ts + ([Open] + (Flatten(g) + ([Close] + Flatten(after))))
            && Flatten(SquashEach(trees)) == ts + ([Open] + (Flatten(Squash(g)) + ([Close] + Flatten(SquashEach(after)))))
  {
    var trees := [Group(g)] + after;
    FlattenGroup(g, after);
    FlattenLeaves(ts, trees);
    SquashLeaves(ts, trees);
    FlattenLeaves(ts, SquashEach(trees));
    hide Flatten, SquashEach, Squash;
  }

  lemma InnerAccepted(m: Mode, inner: string, rest: string)
    requires Calm(m) && Calm(Over(SQLServer, Out, inner).1)
    requires Reject !in LexFrom(SQLServer, m, "(" + (inner + (")" + rest)))
    ensures Reject !in Lex(SQLServer, inner) && Reject !in Lex(SQLServer, rest)
  {
    NestedLex(SQLServer, m, inner, rest);
    hide LexFrom, Over, Flush;
  }

  lemma FlattenGroup(g: seq<Tree>, after: seq<Tree>)
    ensures Flatten([Group(g)] + after) == [Open] + (Flatten(g) + ([Close] + Flatten(after)))
    ensures SquashEach([Group(g)] + after) == [Group(Squash(g))] + SquashEach(after)
    ensures Flatten(SquashEach([Group(g)] + after)) == [Open] + (Flatten(Squash(g)) + ([Close] + Flatten(SquashEach(after))))
    ensures Proper(g) && Proper(after) ==> Proper([Group(g)] + after)
  {
    var all := [Group(g)] + after;
    assert all[1..] == after;
    assert FlattenOne(Group(g)) + Flatten(after) == [Open] + (Flatten(g) + ([Close] + Flatten(after)));
    var squashed := [Group(Squash(g))] + SquashEach(after);
    assert squashed[1..] == SquashEach(after);
    assert FlattenOne(Group(Squash(g))) + Flatten(SquashEach(after))
        == [Open] + (Flatten(Squash(g)) + ([Close] + Flatten(SquashEach(after))));
  }

  /** Walking over a text, by pieces and nested expressions. */
  lemma {:induction false} WalkMeans(m: Mode, t: string) returns (trees: seq<Tree>)
    requires Between(m, t)
    ensures Walked(m, t, trees)
    ensures m == Out && t != "" && !IsSpace(t[0]) && !IsSpace(t[|t| - 1]) && Single(trees) ==> Wrapped(t)
    decreases |t|, 0
  {
    hide *;
    if t == "" {
      CalmOf(m, t);
      WalkedEnd(m);
      trees := Leaves(Flush(m));
    } else if t[0] == '(' {
      BetweenIs(m, t);
      CutText(t);
      var end := Matching(t);
      var inner, rest := t[1..end], t[end + 1..];
      CalmAtParen(m, inner, rest);
      InnerAccepted(m, inner, rest);
      StartBetween(rest);
      var g := TranslationMeans(inner);
      var after := WalkMeans(Out, rest);
      trees := Leaves(Flush(m)) + ([Group(g)] + after);
      TranslatedIs(inner, g);
      WalkedIs(Out, rest, after);
      FlattenNoReject(g);
      SpacedNoReject(Flatten(Squash(g)));
      NestedAccepted(SQLServer, m, inner, rest);
      NestedAccepted(PostgreSQL, m, TranslateExpr(inner), Walk(rest));
      GroupSpaced(Flush(m), Flatten(Squash(g)), LexFrom(PostgreSQL, Out, Walk(rest)), Flatten(SquashEach(after)));
      FlushLeaves(m);
      PendingFlush(m);
      NestedTrees(Flush(m), g, after);
      WalkedIs(m, t, trees);
      SingleMeansAll(m, inner, rest, g, after);
    } else {
      PieceCarries(m, t);
      var p := NextPiece(t);
      var n := Length(p);
      WalkOfPiece(t);
      CarriesOn(m, t, n, Output(t, p));
      var rest := WalkMeans(Over(SQLServer, m, t[..n]).1, t[n..]);
      trees := Leaves(Over(SQLServer, m, t[..n]).0) + rest;
      PieceTokens(m, t, n, Output(t, p), rest);
      WalkedIs(m, t, trees);
      LeafIsNotSingle(trees);
    }
  }

  lemma LeafIsNotSingle(trees: seq<Tree>)
    ensures StartsWithLeaf(trees) ==> !Single(trees)
  {
  }

  lemma CalmOf(m: Mode, t: string)
    requires Between(m, t)
    ensures Calm(m)
  {
  }

  lemma CarriesOn(m: Mode, t: string, n: nat, out: string)
    requires n <= |t| && Carries(m, t, n, out)
    ensures Same(m, t[..n], out) && Between(Over(SQLServer, m, t[..n]).1, t[n..])
  {
  }

  lemma WalkOfPiece(t: string)
    requires t != "" && t[0] != '('
    ensures var p := NextPiece(t);
            Length(p) <= |t| && (p.Bracketed? ==> p.length >= 2) && Walk(t) == Output(t, p) + Walk(t[Length(p)..])
  {
    hide *;
    WalkPiece(t);
  }

  lemma BetweenIs(m: Mode, t: string)
    requires Between(m, t)
    ensures Calm(m) && Balanced(t) && Reject !in LexFrom(SQLServer, m, t)
  {
    hide LexFrom, Balanced;
  }

  /** A nested expression at the front is cut out at the matching parenthesis. */
  lemma CutText(t: string)
    requires Balanced(t) && t != "" && t[0] == '('
    ensures var end := Matching(t);
            && 0 < end < |t|
            && t == "(" + (t[1..end] + (")" + t[end + 1..]))
            && Walk(t) == "(" + (TranslateExpr(t[1..end]) + (")" + Walk(t[end + 1..])))
            && Balanced(t[1..end]) && Balanced(t[end + 1..])
            && (t[end + 1..] == "" ==> Wrapped(t))
  {
    hide *;
    MatchingCuts(t);
    ParenCut(t, Matching(t));
    WalkNested(t);
    WrappedIff(t);
  }

  lemma ParenCut(t: string, end: nat)
    requires 0 < end < |t| && t[0] == '(' && t[end] == ')'
    ensures t == "(" + (t[1..end] + (")" + t[end + 1..]))
  {
  }

  lemma SingleMeansAll(m: Mode, inner: string, rest: string, g: seq<Tree>, after: seq<Tree>)
    requires Walked(Out, rest, after)
    ensures var t := "(" + (inner + (")" + rest));
            m == Out && !IsSpace(t[|t| - 1]) && Single(Leaves(Flush(m)) + ([Group(g)] + after)) ==> rest == ""
  {
    var t := "(" + (inner + (")" + rest));
    hide IsSpace, Flush, LexFrom, Walk;
    if rest != "" && !IsSpace(t[|t| - 1]) {
      assert t[|t| - 1] == rest[|rest| - 1];
      SomethingLexed(SQLServer, Out, rest);
      assert after != [];
      assert |Leaves(Flush(m)) + ([Group(g)] + after)| >= 2;
    }
  }

  /** Translating a text drops the redundant parentheses and keeps everything else. */
  lemma {:induction false} TranslationMeans(s: string) returns (trees: seq<Tree>)
    requires Balanced(s) && Reject !in Lex(SQLServer, s)
    ensures Translated(s, trees)
    decreases |s|, 1
  {
    hide *;
    var t := TrimSpace(s);
    TrimBalanced(s);
    TrimKeeps(SQLServer, s);
    if Wrapped(t) {
      var inner := StripOne(s, t);
      var g := TranslationMeans(inner);
      trees := [Group(g)];
      TranslatedIs(inner, g);
      SquashWrapped(g);
      TranslatedIs(s, trees);
    } else {
      StartBetween(t);
      trees := WalkMeans(Out, t);
      TrimmedEnds(s);
      NothingStripped(s);
      TranslateExprIs(s);
      WalkedIs(Out, t, trees);
      EmptyLex();
      LexIs(SQLServer, t);
      LexIs(PostgreSQL, Walk(t));
      SquashOpen(trees);
      SqueezeSpaces(PostgreSQL, Walk(t));
      TranslatedIs(s, trees);
    }
  }

  lemma NothingStripped(s: string)
    requires !Wrapped(TrimSpace(s))
    ensures StripOuterParens(s) == TrimSpace(s)
  {
    hide TrimSpace, Wrapped;
  }

  lemma StartBetween(t: string)
    requires Balanced(t) && Reject !in Lex(SQLServer, t)
    ensures Between(Out, t)
  {
    hide LexFrom;
  }

  lemma TrimmedEnds(s: string)
    ensures var t := TrimSpace(s); t != "" ==> !IsSpace(t[0]) && !IsSpace(t[|t| - 1])
  {
    TrimSpaceIdempotent(s);
    hide IsSpace, TrimSpace;
  }

  lemma StripOne(s: string, t: string) returns (inner: string)
    requires t == TrimSpace(s) && Wrapped(t) && Balanced(t) && Reject !in Lex(SQLServer, t) && Lex(SQLServer, t) == Lex(SQLServer, s)
    ensures Balanced(inner) && Reject !in Lex(SQLServer, inner) && |inner| < |s|
    ensures TranslateExpr(s) == TranslateExpr(inner)
    ensures Lex(SQLServer, s) == [Open] + (Lex(SQLServer, inner) + [Close])
  {
    hide *;
    inner := StripText(s, t);
    CalmOut();
    LexIs(SQLServer, t);
    CalmAtParen(Out, inner, "");
    InnerAccepted(Out, inner, "");
    NestedLex(SQLServer, Out, inner, "");
    FlushOut();
    EmptyLex();
    NothingAround(Lex(SQLServer, inner));
  }

  lemma CalmOut()
    ensures Calm(Out)
  {
  }

  lemma NothingAround(ts: seq<Token>)
    ensures [] + ([Open] + (ts + ([Close] + []))) == [Open] + (ts + [Close])
  {
  }

  lemma StripText(s: string, t: string) returns (inner: string)
    requires t == TrimSpace(s) && Wrapped(t)
    ensures t == "(" + (inner + (")" + "")) && Balanced(inner) && |inner| < |s| && TranslateExpr(s) == TranslateExpr(inner)
  {
    hide *;
    WrappedShape(t);
    inner := t[1..|t| - 1];
    StripSame(s, t, inner);
    TranslateExprIs(s);
    TranslateExprIs(inner);
  }

  lemma WrappedShape(t: string)
    requires Wrapped(t)
    ensures |t| > 1 && t == "(" + (t[1..|t| - 1] + (")" + "")) && Balanced(t[1..|t| - 1])
  {
    TrimBalanced(t[1..|t| - 1]);
    hide Balanced, TrimSpace;
    ParenShape(t);
  }

  lemma ParenShape(t: string)
    requires |t| > 1 && t[0] == '(' && t[|t| - 1] == ')'
    ensures t == "(" + (t[1..|t| - 1] + (")" + ""))
  {
  }

  lemma StripSame(s: string, t: string, inner: string)
    requires t == TrimSpace(s) && Wrapped(t) && inner == t[1..|t| - 1]
    ensures StripOuterParens(s) == StripOuterParens(inner)
  {
    hide TrimSpace, Wrapped;
  }

  lemma EmptyLex()
    ensures Lex(SQLServer, "") == []
  {
  }

  lemma SquashWrapped(g: seq<Tree>)
    ensures Flatten([Group(g)]) == [Open] + (Flatten(g) + [Close])
    ensures Squash([Group(g)]) == Squash(g)
    ensures Proper(g) ==> Proper([Group(g)])
  {
    FlattenGroup(g, []);
    assert [Group(g)] + [] == [Group(g)] && [Close] + [] == [Close];
    assert Flatten([]) == [];
  }

  lemma SquashOpen(trees: seq<Tree>)
    requires !Single(trees) || Flatten(trees) == []
    ensures Squash(trees) == SquashEach(trees)
  {
  }
}
