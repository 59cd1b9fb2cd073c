/**
 Where the translation of filters does change a meaning: the joining of words with single spaces does not
 spare what stands in quotes.
 */
module FilterLimits {
  import opened Decimal
  import opened Text
  import opened FilterText
  import opened FilterLexer
  import opened FilterTranslation
  import opened FilterMeaning

  /** A column compared with a literal. */
  function Equals(v: string): string {
    "[a]" + (" " + ("=" + (" " + ("'" + (v + "'")))))
  }

  lemma WalkBracket(rest: string)
    ensures Walk("[a]" + rest) == "\"a\"" + Walk(rest)
  {
    var t := "[a]" + rest;
    BracketText(rest);
    NoKeyword(t);
    hide *;
    IndexIs(t, ']', 2);
    BracketAtFront(t);
    WalkPiece(t);
  }

  lemma BracketText(rest: string)
    ensures var t := "[a]" + rest;
            && |t| > 2 && t[0] == '[' && t[2] == ']' && t[3..] == rest && t[1..2] == "a" && ']' !in t[..2] && ']' in t
            && "\"" + "a" + "\"" == "\"a\""
  {
    var t := "[a]" + rest;
    assert t[..2] == "[a" && t[2] in t;
  }

  lemma BracketAtFront(t: string)
    requires |t| > 2 && t[0] == '[' && ']' in t && IndexOf(t, ']') == 2 && Keyword(t) == ""
    ensures NextPiece(t) == Bracketed(3) && Length(Bracketed(3)) == 3
    ensures Output(t, Bracketed(3)) == "\"" + t[1..2] + "\""
  {
    hide Keyword, Operator, CopiedLength, IndexOf, Written;
  }

  lemma WalkSpace(rest: string)
    ensures Walk(" " + rest) == " " + Walk(rest)
  {
    var t := " " + rest;
    assert t[1..] == rest && t[..1] == " ";
    WalkPiece(t);
    hide Walk, IndexOf, Keyword, Operator, CopiedLength;
  }

  lemma EqualSign(t: string)
    requires t != "" && t[0] == '='
    ensures Operator(t) == "=" && Written("=") == " ="
  {
    assert "=" <= t;
  }

  lemma WalkEqual(rest: string)
    ensures Walk("=" + rest) == " =" + Walk(rest)
  {
    var t := "=" + rest;
    assert t[0] == '=' && t[1..] == rest && !(t[0] == ' ' || t[0] == '\t' || t[0] == '[' || t[0] == '(');
    NoKeyword(t);
    EqualSign(t);
    SignAtFront(t);
    hide *;
    WalkPiece(t);
  }

  lemma SignAtFront(t: string)
    requires t != "" && t[0] != ' ' && t[0] != '\t' && t[0] != '[' && Keyword(t) == "" && Operator(t) == "="
    ensures NextPiece(t) == Sign("=") && Length(Sign("=")) == 1 && Output(t, Sign("=")) == Written("=")
  {
    hide Keyword, Operator, CopiedLength, IndexOf, Written;
  }

  lemma WalkLiteral(v: string)
    requires '\'' !in v
    ensures Walk("'" + (v + "'")) == "'" + (v + "'")
  {
    var t := "'" + (v + "'");
    assert t[1..] == v + "'" && t[1..][|v|] == '\'' && t[1..][..|v|] == v;
    IndexIs(t[1..], '\'', |v|);
    LiteralLength(t);
    WalkPiece(t);
    assert t[|t|..] == "" && Walk("") == "";
    assert t[..|t|] == t && t + "" == t;
    hide Walk, IndexOf, Keyword, Operator, CopiedLength;
  }

  lemma EqualsEnds(v: string)
    ensures var s := Equals(v); |s| > 1 && s[0] == '[' && s[|s| - 1] == '\'' && TrimSpace(s) == s
  {
    var s := Equals(v);
    assert !IsSpace(s[0]) && !IsSpace(s[|s| - 1]);
    hide IsSpace;
    TrimSpaceIdempotent(s);
  }

  /** What the loop writes for the comparison. */
  function Spread(v: string): string {
    "\"a\"" + (" " + (" =" + (" " + ("'" + (v + "'")))))
  }

  lemma EqualsWalked(v: string)
    requires '\'' !in v
    ensures Walk(Equals(v)) == Spread(v)
  {
    hide Walk;
    WalkBracket(" " + ("=" + (" " + ("'" + (v + "'")))));
    WalkSpace("=" + (" " + ("'" + (v + "'"))));
    WalkEqual(" " + ("'" + (v + "'")));
    WalkSpace("'" + (v + "'"));
    WalkLiteral(v);
  }

  lemma EqualsStripped(v: string)
    ensures StripOuterParens(Equals(v)) == Equals(v)
  {
    EqualsEnds(v);
    hide TrimSpace, Equals;
  }

  lemma EqualsTranslated(v: string)
    requires '\'' !in v
    ensures Translate(Equals(v)) == Join(Fields(Spread(v)), " ")
  {
    hide *;
    EqualsEnds(v);
    EqualsStripped(v);
    EqualsWalked(v);
    TranslateIs(Equals(v));
    TranslateExprIs(Equals(v));
    assert Equals(v) != "";
  }

  lemma {:induction false} CollapseTwoSpaces(a: string, b: string, started: bool, gap: bool)
    ensures Collapse(a + ("  " + b), started, gap) == Collapse(a + (" " + b), started, gap)
    decreases |a|
  {
    var s, t := a + ("  " + b), a + (" " + b);
    if a == "" {
      assert s[0] == s[1] == t[0] == ' ' && s[1..] == " " + b && t[1..] == b && (" " + b)[1..] == b;
      assert IsSpace(' ');
      hide IsSpace;
      assert Collapse(" " + b, started, started) == Collapse(b, started, started);
    } else {
      assert s[1..] == a[1..] + ("  " + b) && t[1..] == a[1..] + (" " + b);
      CollapseTwoSpaces(a[1..], b, started, started);
      CollapseTwoSpaces(a[1..], b, true, false);
    }
  }

  /** Two adjacent spaces in a literal are translated as one, wherever they stand. */
  lemma SpaceRunsCollapse(p: string, q: string)
    requires '\'' !in p && '\'' !in q
    ensures Translate(Equals(p + ("  " + q))) == Translate(Equals(p + (" " + q)))
  {
    var v, w := p + ("  " + q), p + (" " + q);
    assert '\'' !in v && '\'' !in w;
    SpreadAround(p, "  ", q);
    SpreadAround(p, " ", q);
    hide *;
    EqualsTranslated(v);
    EqualsTranslated(w);
    CollapseIsJoin(Spread(v));
    CollapseIsJoin(Spread(w));
    CollapseTwoSpaces(BEFORE + p, q + "'", false, false);
  }

  const BEFORE := "\"a\"  = '"

  lemma SpreadAround(p: string, gap: string, q: string)
    ensures Spread(p + (gap + q)) == (BEFORE + p) + (gap + (q + "'"))
  {
    assert BEFORE == "\"a\"" + (" " + (" =" + (" " + "'")));
  }

  // ----- What the comparison means -----

  /** The comparison as a dialect writes it. */
  function EqualsIn(d: Dialect, v: string): string {
    [OpensName(d)] + ("a" + ([ClosesName(d)] + (" " + ("=" + (" " + ("'" + (v + "'")))))))
  }

  lemma EqualsWritten(v: string)
    ensures Equals(v) == EqualsIn(SQLServer, v)
  {
    assert ['['] + ("a" + [']']) == "[a]";
  }

  lemma TokensStep(d: Dialect, m: Mode, c: char, rest: string)
    ensures TokensFrom(d, m, [c] + rest) == Read(d, m, c).0 + TokensFrom(d, Read(d, m, c).1, rest)
  {
    hide Read;
    assert ([c] + rest)[1..] == rest;
  }

  lemma {:induction false} TokensOfBody(d: Dialect, v: string, body: string)
    requires '\'' !in body
    ensures TokensFrom(d, InLiteral(v), body + "'") == [Literal(v + body)]
    decreases |body|
  {
    var s := body + "'";
    if body == "" {
      assert s == "'" && s[1..] == "" && v + body == v;
    } else {
      assert body[0] in body && s[1..] == body[1..] + "'" && v + [body[0]] + body[1..] == v + body;
      TokensOfBody(d, v + [body[0]], body[1..]);
    }
  }

  lemma ReadName(d: Dialect)
    ensures Read(d, Out, OpensName(d)) == ([], InName(""))
    ensures Read(d, InName(""), 'a') == ([], InName("a"))
    ensures Read(d, InName("a"), ClosesName(d)) == ([], NameSeen("a"))
  {
    assert "" + ['a'] == "a";
  }

  lemma ReadEqual(d: Dialect)
    ensures Read(d, NameSeen("a"), ' ') == ([Name("a")], Out)
    ensures Read(d, Out, '=') == ([Op("=")], Out)
    ensures Read(d, Out, ' ') == ([], Out)
    ensures Read(d, Out, '\'') == ([], InLiteral(""))
  {
    assert [Name("a")] + [] == [Name("a")];
  }

  lemma TokensOfEquals(d: Dialect, v: string)
    requires '\'' !in v
    ensures Tokens(d, EqualsIn(d, v)) == [Name("a"), Op("="), Literal(v)]
  {
    var s7 := v + "'";
    var s6 := ['\''] + s7;
    var s5 := [' '] + s6;
    var s4 := ['='] + s5;
    var s3 := [' '] + s4;
    assert EqualsIn(d, v) == [OpensName(d)] + (['a'] + ([ClosesName(d)] + s3));
    assert Tokens(d, EqualsIn(d, v)) == TokensFrom(d, Out, EqualsIn(d, v));
    hide *;
    ReadName(d);
    ReadEqual(d);
    TokensStep(d, Out, OpensName(d), ['a'] + ([ClosesName(d)] + s3));
    TokensStep(d, InName(""), 'a', [ClosesName(d)] + s3);
    TokensStep(d, InName("a"), ClosesName(d), s3);
    TokensStep(d, NameSeen("a"), ' ', s4);
    TokensStep(d, Out, '=', s5);
    TokensStep(d, Out, ' ', s6);
    TokensStep(d, Out, '\'', s7);
    TokensOfBody(d, "", v);
    assert "" + v == v;
  }

  /** In both dialects the comparison means what it says, whatever stands in the literal. */
  lemma MeaningEquals(d: Dialect, v: string)
    requires '\'' !in v
    ensures Meaning(d, EqualsIn(d, v)) == Some(Compare("=", Column("a"), Str(v)))
  {
    TokensOfEquals(d, v);
    TreesShape(v);
    TreesAre([Leaf(Name("a")), Leaf(Op("=")), Leaf(Literal(v))]);
    AllEquals(v);
    hide TreesOf, Proper, Flatten, All, Tokens, EqualsIn;
  }

  lemma TreesShape(v: string)
    ensures var trees := [Leaf(Name("a")), Leaf(Op("=")), Leaf(Literal(v))];
            Proper(trees) && Flatten(trees) == [Name("a"), Op("="), Literal(v)]
  {
    var ts := [Name("a"), Op("="), Literal(v)];
    assert Leaves(ts) + [] == [Leaf(Name("a")), Leaf(Op("=")), Leaf(Literal(v))];
    assert Flatten([]) == [] && Proper([]) && ts + [] == ts;
    hide Flatten, Proper;
    FlattenLeaves(ts, []);
  }

  lemma AllEquals(v: string)
    ensures All([Leaf(Name("a")), Leaf(Op("=")), Leaf(Literal(v))]) == Some(Compare("=", Column("a"), Str(v)))
  {
    var t3 := [Leaf(Literal(v))];
    var t2 := [Leaf(Op("="))] + t3;
    var t1 := [Leaf(Name("a"))] + t2;
    assert t3[1..] == [] && t2[1..] == t3 && t1[1..] == t2;
    assert t1 == [Leaf(Name("a")), Leaf(Op("=")), Leaf(Literal(v))];
    assert Primary(t1) == Some((Column("a"), t2)) && Primary(t3) == Some((Str(v), []));
    hide Primary;
    assert Test(Column("a"), t2) == Some((Compare("=", Column("a"), Str(v)), []));
    hide Test;
    assert Factor(t1) == Some((Compare("=", Column("a"), Str(v)), []));
    hide Factor;
    assert Conjunction(t1) == Some((Compare("=", Column("a"), Str(v)), []));
    hide Conjunction;
    assert Disjunction(t1) == Some((Compare("=", Column("a"), Str(v)), []));
    hide Disjunction;
    AllIs(t1);
  }

  // ----- When the translation keeps it -----

  /** Inside the quotes, white space collapses to single spaces, at the ends too. */
  lemma {:induction false} CollapseLiteral(v: string)
    ensures Collapse(v + "'", true, false) == Spaced(v) + "'"
    ensures Collapse(v + "'", true, true)
         == if v != "" && IsSpace(v[0]) then Spaced(v) + "'" else " " + (Spaced(v) + "'")
  {
    var s := v + "'";
    assert !IsSpace('\'');
    hide IsSpace;
    if v == "" {
      assert s[1..] == "" && Collapse(s, true, false) == "" + ("'" + "") && Collapse(s, true, true) == " " + ("'" + "");
    } else {
      assert s[0] == v[0] && s[1..] == v[1..] + "'";
      CollapseLiteral(v[1..]);
      var rest := Spaced(v[1..]);
      assert [v[0]] + (rest + "'") == [v[0]] + rest + "'" && " " + (rest + "'") == " " + rest + "'";
      assert "" + ([v[0]] + (rest + "'")) == [v[0]] + rest + "'";
    }
  }

  /** The translation of the comparison, for every literal. */
  lemma EqualsTranslation(v: string)
    requires '\'' !in v
    ensures Translate(Equals(v)) == EqualsIn(PostgreSQL, Spaced(v))
  {
    SpreadPieces(v);
    hide *;
    EqualsTranslated(v);
    CollapseIsJoin(Spread(v));
    CollapseLiteral(v);
    CollapseBefore(v + "'");
  }

  lemma SpreadPieces(v: string)
    ensures Spread(v) == BEFORE + (v + "'")
    ensures "\"a\" = '" + (Spaced(v) + "'") == EqualsIn(PostgreSQL, Spaced(v))
  {
    assert BEFORE == "\"a\"" + (" " + (" =" + (" " + "'")));
    assert "\"a\" = '" == ['"'] + ("a" + (['"'] + (" " + ("=" + (" " + "'")))));
  }

  lemma CollapseBefore(rest: string)
    ensures Collapse(BEFORE + rest, false, false) == "\"a\" = '" + Collapse(rest, true, false)
  {
    var q := ['\''] + rest;
    var e := [' '] + q;
    var u := ['='] + e;
    BeforeText(rest);
    assert IsSpace(' ') && !IsSpace('=') && !IsSpace('\'') && forall c <- "\"a\"" :: !IsSpace(c);
    hide *;
    CollapseWord("\"a\"", [' '] + ([' '] + u), false, false);
    CollapseStep(' ', [' '] + u, true, false);
    CollapseStep(' ', u, true, true);
    CollapseStep('=', e, true, true);
    CollapseStep(' ', q, true, false);
    CollapseStep('\'', rest, true, true);
    OneText(Collapse(rest, true, false));
  }

  lemma OneText(t: string)
    ensures "" + ("\"a\"" + (" " + (['='] + (" " + (['\''] + t))))) == "\"a\" = '" + t
  {
  }

  lemma BeforeText(rest: string)
    ensures BEFORE + rest == "\"a\"" + ([' '] + ([' '] + (['='] + ([' '] + (['\''] + rest)))))
  {
  }

  lemma CollapseStep(c: char, rest: string, started: bool, gap: bool)
    ensures Collapse([c] + rest, started, gap)
         == if IsSpace(c) then Collapse(rest, started, started)
            else (if gap then " " else "") + ([c] + Collapse(rest, true, false))
  {
    hide IsSpace;
    assert ([c] + rest)[1..] == rest;
  }

  /**
   A comparison with a literal keeps its meaning exactly when every white space in the literal is a single
   space.
   */
  lemma LiteralKeptIff(v: string)
    requires '\'' !in v
    ensures Meaning(SQLServer, Equals(v)) == Some(Compare("=", Column("a"), Str(v)))
    ensures Meaning(PostgreSQL, Translate(Equals(v))) == Meaning(SQLServer, Equals(v)) <==> SingleSpaces(v)
  {
    SpacedPlain(v);
    hide *;
    EqualsWritten(v);
    MeaningEquals(SQLServer, v);
    EqualsTranslation(v);
    MeaningEquals(PostgreSQL, Spaced(v));
    SpacedKeepsIff(v);
  }

  lemma {:induction false} SpacedPlain(v: string)
    requires '\'' !in v
    ensures '\'' !in Spaced(v)
  {
    if v != "" {
      assert v[0] in v && forall c <- v[1..] :: c in v;
      SpacedPlain(v[1..]);
    }
  }

  /** A row in which the column holds a text, and values are compared as texts. */
  function RowWith(a: string): Row<string> {
    Row(n => if n == "a" then Some(a) else None, _ => None, v => v, v => v, (op, x, y) => op == "=" && x == y)
  }

  /** Otherwise there is a row in which the filter holds and its translation does not. */
  lemma RowLost(v: string)
    requires '\'' !in v && !SingleSpaces(v)
    ensures TruthOf(SQLServer, Equals(v), RowWith(v)) == Some(True)
    ensures TruthOf(PostgreSQL, Translate(Equals(v)), RowWith(v)) == Some(False)
  {
    SpacedPlain(v);
    SpacedKeepsIff(v);
    EqualsWritten(v);
    MeaningEquals(SQLServer, v);
    EqualsTranslation(v);
    MeaningEquals(PostgreSQL, Spaced(v));
    hide *;
    TruthIs(SQLServer, Equals(v), RowWith(v));
    TruthIs(PostgreSQL, Translate(Equals(v)), RowWith(v));
    HoldsEquals(v, v);
    HoldsEquals(v, Spaced(v));
  }

  lemma TruthIs(d: Dialect, text: string, row: Row<string>)
    requires Meaning(d, text).Some?
    ensures TruthOf(d, text, row) == Some(Holds(Meaning(d, text).value, row))
  {
    hide Meaning, Holds;
  }

  lemma HoldsEquals(a: string, v: string)
    ensures Holds(Compare("=", Column("a"), Str(v)), RowWith(a)) == if a == v then True else False
  {
  }

  /** A filter whose translation means something else. */
  lemma SpaceRunsChangeMeaning()
    ensures Meaning(SQLServer, "[a] = 'x  y'") == Some(Compare("=", Column("a"), Str("x  y")))
    ensures Meaning(PostgreSQL, Translate("[a] = 'x  y'")) == Some(Compare("=", Column("a"), Str("x y")))
  {
    var v := "x  y";
    assert v[1..] == "  y" && v[1..][1..] == " y" && " y"[1..] == "y" && "y"[1..] == "";
    assert IsSpace(' ') && !IsSpace('x') && !IsSpace('y');
    assert Spaced("y") == "y" && Spaced(" y") == " y" && Spaced("  y") == " y" && Spaced(v) == "x y";
    assert Equals(v) == "[a] = 'x  y'" && '\'' !in v && '\'' !in "x y";
    hide *;
    EqualsWritten(v);
    MeaningEquals(SQLServer, v);
    EqualsTranslation(v);
    MeaningEquals(PostgreSQL, "x y");
  }
}
