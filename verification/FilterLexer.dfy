/**
 The tokens of a filter, in the dialect of SQL Server and in that of PostgreSQL, read one character at a
 time.
 */
module FilterLexer {
  import opened Text

  datatype Dialect = SQLServer | PostgreSQL

  /** Reject stands for a sign that starts no token, and for quotes that are not closed. */
  datatype Token =
    | Word(w: string)
    | Name(n: string)
    | Literal(v: string)
    | Op(op: string)
    | Comma
    | Open
    | Close
    | Reject

  /** Between tokens, or inside one; the Seen modes follow a closing quote. */
  datatype Mode =
    | Out
    | InWord(w: string)
    | InOp(c: char)
    | InName(n: string)
    | NameSeen(n: string)
    | InLiteral(v: string)
    | LiteralSeen(v: string)

  predicate WordChar(c: char) {
    'a' <= c <= 'z' || 'A' <= c <= 'Z' || '0' <= c <= '9' || c == '_' || c == '.'
  }

  function OpensName(d: Dialect): char { if d.SQLServer? then '[' else '"' }

  function ClosesName(d: Dialect): char { if d.SQLServer? then ']' else '"' }

  /** The token that ends here. */
  function Flush(m: Mode): seq<Token> {
    match m
    case Out => []
    case InWord(w) => [Word(w)]
    case InOp(c) => [Op([c])]
    case InName(_) => [Reject]
    case NameSeen(n) => [Name(n)]
    case InLiteral(_) => [Reject]
    case LiteralSeen(v) => [Literal(v)]
  }

  /** A character between tokens. */
  function Start(d: Dialect, c: char): (seq<Token>, Mode) {
    if IsSpace(c) then ([], Out)
    else if WordChar(c) then ([], InWord([Upper(c)]))
    else if c == '<' || c == '>' || c == '!' then ([], InOp(c))
    else if c == '\'' then ([], InLiteral(""))
    else if c == OpensName(d) then ([], InName(""))
    else if c == '"' then ([Reject], Out)
    else if c == '(' then ([Open], Out)
    else if c == ')' then ([Close], Out)
    else if c == ',' then ([Comma], Out)
    else ([Op([c])], Out)
  }

  predicate Completes(o: char, c: char) {
    (c == '=' && (o == '<' || o == '>' || o == '!')) || (c == '>' && o == '<')
  }

  /** Both dialects spell inequality in two ways. */
  function TwoSigns(o: char, c: char): string {
    if o == '!' then "<>" else [o, c]
  }

  function EndAndStart(d: Dialect, m: Mode, c: char): (seq<Token>, Mode) {
    var s := Start(d, c);
    (Flush(m) + s.0, s.1)
  }

  /** How a dialect reads a character: a doubled closing quote stands for itself. */
  function Read(d: Dialect, m: Mode, c: char): (seq<Token>, Mode) {
    match m
    case Out => Start(d, c)
    case InWord(w) => if WordChar(c) then ([], InWord(w + [Upper(c)])) else EndAndStart(d, m, c)
    case InOp(o) => if Completes(o, c) then ([Op(TwoSigns(o, c))], Out) else EndAndStart(d, m, c)
    case InName(n) => if c == ClosesName(d) then ([], NameSeen(n)) else ([], InName(n + [c]))
    case NameSeen(n) => if c == ClosesName(d) then ([], InName(n + [c])) else EndAndStart(d, m, c)
    case InLiteral(v) => if c == '\'' then ([], LiteralSeen(v)) else ([], InLiteral(v + [c]))
    case LiteralSeen(v) => if c == '\'' then ([], InLiteral(v + [c])) else EndAndStart(d, m, c)
  }

  function TokensFrom(d: Dialect, m: Mode, s: string): seq<Token>
    decreases |s|
  {
    if s == "" then Flush(m)
    else
      var t := Read(d, m, s[0]);
      t.0 + TokensFrom(d, t.1, s[1..])
  }

  /** The tokens of a text. */
  function Tokens(d: Dialect, s: string): seq<Token> { TokensFrom(d, Out, s) }

  // ----- Text without oddities in quotes -----

  /** Odd inside quotes are parentheses; in names also double quotes, and brackets that touch or double. */
  predicate Odd(d: Dialect, m: Mode, c: char) {
    match m
    case InName(_) => c != ClosesName(d) && (c == '"' || c == '(' || c == ')')
    case NameSeen(_) => c == OpensName(d) || c == ClosesName(d)
    case InLiteral(_) => c == '(' || c == ')'
    case _ => false
  }

  predicate PlainFrom(d: Dialect, m: Mode, s: string)
    decreases |s|
  {
    s == "" || (!Odd(d, m, s[0]) && PlainFrom(d, Read(d, m, s[0]).1, s[1..]))
  }

  /** The filters whose meaning the translation is claimed to keep, but for white space in quotes. */
  predicate Plain(filter: string) { PlainFrom(SQLServer, Out, filter) }

  // ----- The reading that stops making sense of odd text -----

  /** As Read, with a Reject for everything odd. */
  function Step(d: Dialect, m: Mode, c: char): (seq<Token>, Mode) {
    if Odd(d, m, c) then ([Reject], Out) else Read(d, m, c)
  }

  function LexFrom(d: Dialect, m: Mode, s: string): seq<Token>
    decreases |s|
  {
    if s == "" then Flush(m)
    else
      var t := Step(d, m, s[0]);
      t.0 + LexFrom(d, t.1, s[1..])
  }

  function Lex(d: Dialect, s: string): seq<Token> { LexFrom(d, Out, s) }

  lemma StepIsRead(d: Dialect, m: Mode, c: char)
    ensures if Odd(d, m, c) then Reject in Step(d, m, c).0 else Step(d, m, c) == Read(d, m, c)
  {
    hide Odd, Read;
  }

  /** Both readings agree on plain text, and only there is nothing rejected. */
  lemma {:induction false} PlainIsAccepted(d: Dialect, m: Mode, s: string)
    ensures Reject !in LexFrom(d, m, s) <==> PlainFrom(d, m, s) && Reject !in TokensFrom(d, m, s)
    ensures Reject !in LexFrom(d, m, s) ==> LexFrom(d, m, s) == TokensFrom(d, m, s)
    decreases |s|
  {
    if s != "" {
      StepIsRead(d, m, s[0]);
      hide Step, Read, Odd;
      PlainIsAccepted(d, Read(d, m, s[0]).1, s[1..]);
    }
  }

  /** The tokens that end inside a part of the text, and the mode after it. */
  function Over(d: Dialect, m: Mode, s: string): (seq<Token>, Mode)
    decreases |s|
  {
    if s == "" then ([], m)
    else
      var t := Step(d, m, s[0]);
      var r := Over(d, t.1, s[1..]);
      (t.0 + r.0, r.1)
  }

  lemma {:induction false} LexAppend(d: Dialect, m: Mode, a: string, b: string)
    ensures LexFrom(d, m, a + b) == Over(d, m, a).0 + LexFrom(d, Over(d, m, a).1, b)
    decreases |a|
  {
    hide Step;
    if a == "" {
      assert a + b == b;
    } else {
      var t := Step(d, m, a[0]);
      assert (a + b)[1..] == a[1..] + b;
      LexAppend(d, t.1, a[1..], b);
    }
  }

  /** What a part of a text gives, in two parts. */
  lemma {:induction false} OverAppend(d: Dialect, m: Mode, a: string, b: string)
    ensures var r := Over(d, m, a); var q := Over(d, r.1, b);
            Over(d, m, a + b).0 == r.0 + q.0 && Over(d, m, a + b).1 == q.1
    decreases |a|
  {
    hide Step;
    if a == "" {
      assert a + b == b;
    } else {
      var t := Step(d, m, a[0]);
      assert (a + b)[1..] == a[1..] + b;
      OverAppend(d, t.1, a[1..], b);
    }
  }

  lemma OverCons(d: Dialect, m: Mode, c: char, rest: string)
    ensures var t := Step(d, m, c); var r := Over(d, t.1, rest);
            Over(d, m, [c] + rest).0 == t.0 + r.0 && Over(d, m, [c] + rest).1 == r.1
  {
    hide Step;
    assert ([c] + rest)[1..] == rest;
  }

  lemma OverEnd(d: Dialect, m: Mode, a: string)
    ensures LexFrom(d, m, a) == Over(d, m, a).0 + Flush(Over(d, m, a).1)
  {
    LexAppend(d, m, a, "");
    assert a + "" == a;
  }

  /** Outside quotes. */
  predicate Calm(m: Mode) { !m.InName? && !m.InLiteral? }

  /** A character that ends any token, outside quotes. */
  predicate Breaks(c: char) {
    IsSpace(c) || c == '(' || c == ')' || c == ','
  }

  lemma StepBreaks(d: Dialect, m: Mode, c: char)
    requires Calm(m) && Breaks(c)
    ensures Step(d, m, c) == (Flush(m) + Start(d, c).0, Start(d, c).1)
  {
    assert [] + Start(d, c).0 == Start(d, c).0;
    hide Start;
  }

  lemma StepSpace(d: Dialect, m: Mode, c: char)
    requires Calm(m) && IsSpace(c)
    ensures Step(d, m, c) == (Flush(m), Out)
  {
    StepBreaks(d, m, c);
    hide Step, IsSpace;
    assert Flush(m) + [] == Flush(m);
  }

  /** In quotes white space is taken as it is. */
  lemma StepBlank(d: Dialect, m: Mode, c: char)
    requires !Calm(m) && IsSpace(c)
    ensures Step(d, m, c) == ([], if m.InName? then InName(m.n + [c]) else InLiteral(m.v + [c]))
  {
  }

  // ----- White space -----

  /** Every run of white space becomes one space; none stays at the ends. */
  function Collapse(s: string, started: bool, gap: bool): string {
    if s == "" then ""
    else if IsSpace(s[0]) then Collapse(s[1..], started, started)
    else (if gap then " " else "") + ([s[0]] + Collapse(s[1..], true, false))
  }

  lemma {:induction false} CollapseWord(w: string, rest: string, started: bool, gap: bool)
    requires w != "" && forall c <- w :: !IsSpace(c)
    ensures Collapse(w + rest, started, gap) == (if gap then " " else "") + (w + Collapse(rest, true, false))
    decreases |w|
  {
    var t := w + rest;
    assert w[0] in w && t[1..] == w[1..] + rest;
    if |w| == 1 {
      assert w[1..] + rest == rest;
      assert w == [w[0]];
    } else {
      CollapseWord(w[1..], rest, true, false);
      assert [w[0]] + (w[1..] + Collapse(rest, true, false)) == w + Collapse(rest, true, false);
    }
  }

  lemma {:induction false} CollapseTrims(s: string)
    ensures Collapse(s, false, false) == Collapse(TrimLeft(s), false, false)
    ensures Collapse(s, true, true) == Collapse(TrimLeft(s), true, true)
  {
    hide IsSpace;
    if s != "" && IsSpace(s[0]) {
      CollapseTrims(s[1..]);
    }
  }

  /** What follows a word: nothing, or a space and the next words. */
  function Rest(words: seq<string>): string {
    if words == [] then "" else " " + Join(words, " ")
  }

  lemma {:induction false} CollapseRest(s: string)
    requires s == "" || IsSpace(s[0])
    ensures Collapse(s, true, false) == Rest(Fields(s))
    decreases |s|
  {
    hide IsSpace, TakeWord;
    if s != "" {
      var t := TrimLeft(s);
      CollapseTrims(s);
      assert Collapse(s, true, false) == Collapse(s[1..], true, true);
      CollapseTrims(s[1..]);
      assert TrimLeft(s[1..]) == t;
      if t != "" {
        var p := TakeWord(t);
        CollapseWord(p.0, p.1, true, true);
        CollapseRest(p.1);
        JoinRest(p.0, Fields(p.1));
      }
    }
  }

  lemma JoinRest(w: string, words: seq<string>)
    ensures Join([w] + words, " ") == w + Rest(words)
  {
    assert ([w] + words)[1..] == words;
    if words == [] {
      assert w + "" == w;
    } else {
      assert w + " " + Join(words, " ") == w + (" " + Join(words, " "));
    }
  }

  /** Taking the words apart and joining them with single spaces. */
  lemma CollapseIsJoin(s: string)
    ensures Join(Fields(s), " ") == Collapse(s, false, false)
  {
    hide IsSpace, TakeWord;
    var t := TrimLeft(s);
    CollapseTrims(s);
    if t != "" {
      var p := TakeWord(t);
      CollapseWord(p.0, p.1, false, false);
      CollapseRest(p.1);
      JoinRest(p.0, Fields(p.1));
    }
  }

  // ----- White space in quotes -----

  /** Every run of white space as one space. */
  function Spaced(v: string): (r: string)
    ensures |r| <= |v|
  {
    if v == "" then ""
    else if !IsSpace(v[0]) then [v[0]] + Spaced(v[1..])
    else if |v| > 1 && IsSpace(v[1]) then Spaced(v[1..])
    else " " + Spaced(v[1..])
  }

  predicate EndsBlank(v: string) { v != "" && IsSpace(v[|v| - 1]) }

  lemma {:induction false} SpacedSnoc(v: string, c: char)
    ensures Spaced(v + [c])
         == if !IsSpace(c) then Spaced(v) + [c] else if EndsBlank(v) then Spaced(v) else Spaced(v) + " "
    decreases |v|
  {
    assert IsSpace(' ');
    hide IsSpace;
    if |v| <= 1 {
      SpacedShort(v, c);
    } else {
      var s, rest := v + [c], v[1..] + [c];
      assert s[0] == v[0] && s[1] == v[1] && s[1..] == rest;
      SpacedHead(v);
      SpacedHead(s);
      hide Spaced;
      SpacedSnoc(v[1..], c);
      Regrouped([v[0]], Spaced(v[1..]), [c]);
      Regrouped([v[0]], Spaced(v[1..]), " ");
      Regrouped(" ", Spaced(v[1..]), [c]);
      Regrouped(" ", Spaced(v[1..]), " ");
    }
  }

  lemma Regrouped(a: string, b: string, c: string)
    ensures a + (b + c) == a + b + c
  {
  }

  lemma SpacedShort(v: string, c: char)
    requires |v| <= 1
    ensures Spaced(v + [c])
         == if !IsSpace(c) then Spaced(v) + [c] else if EndsBlank(v) then Spaced(v) else Spaced(v) + " "
  {
    var s := v + [c];
    hide IsSpace;
    assert [c][1..] == "" && [c] + "" == "" + [c] && " " + "" == " " && "" + " " == " ";
    assert Spaced([c]) == if IsSpace(c) then " " else [c];
    if v != "" {
      assert s == [v[0], c] && s[1..] == [c] && v == [v[0]];
      assert Spaced(v) == if IsSpace(v[0]) then " " else v;
    }
  }

  /** Spacing keeps whether a text ends in white space. */
  lemma {:induction false} SpacedEnd(v: string)
    ensures EndsBlank(Spaced(v)) <==> EndsBlank(v)
    decreases |v|
  {
    assert IsSpace(' ');
    if v != "" {
      var u, c := v[..|v| - 1], v[|v| - 1];
      assert v == u + [c];
      SpacedSnoc(u, c);
      SpacedEnd(u);
      hide IsSpace, Spaced;
    }
  }

  lemma SpacedHead(v: string)
    requires v != ""
    ensures Spaced(v)
         == if !IsSpace(v[0]) then [v[0]] + Spaced(v[1..])
            else if |v| > 1 && IsSpace(v[1]) then Spaced(v[1..])
            else " " + Spaced(v[1..])
  {
  }

  /** Every white space in the text is a single space. */
  predicate SingleSpaces(v: string) {
    forall i | 0 <= i < |v| && IsSpace(v[i]) :: v[i] == ' ' && (i + 1 < |v| ==> !IsSpace(v[i + 1]))
  }

  lemma SingleSpacesTail(v: string)
    requires v != ""
    ensures SingleSpaces(v)
        <==> (IsSpace(v[0]) ==> v[0] == ' ' && (|v| > 1 ==> !IsSpace(v[1]))) && SingleSpaces(v[1..])
  {
    hide IsSpace;
    assert forall i | 0 <= i < |v| - 1 :: v[1..][i] == v[i + 1];
    if SingleSpaces(v[1..]) {
      forall i | 0 < i < |v| && IsSpace(v[i])
        ensures v[i] == ' ' && (i + 1 < |v| ==> !IsSpace(v[i + 1]))
      {
        assert v[1..][i - 1] == v[i];
      }
    }
  }

  lemma {:induction false} SpacedKeepsIff(v: string)
    ensures Spaced(v) == v <==> SingleSpaces(v)
  {
    if v != "" {
      SpacedKeepsIff(v[1..]);
      SingleSpacesTail(v);
      assert v == [v[0]] + v[1..];
      assert Spaced(v) == v ==> Spaced(v)[1..] == v[1..] && Spaced(v)[0] == v[0];
      hide IsSpace, SingleSpaces;
      assert ([v[0]] + Spaced(v[1..]))[1..] == Spaced(v[1..]) && (" " + Spaced(v[1..]))[1..] == Spaced(v[1..]);
    }
  }

  function SpacedToken(t: Token): Token {
    match t
    case Name(n) => Name(Spaced(n))
    case Literal(v) => Literal(Spaced(v))
    case _ => t
  }

  function SpacedTokens(ts: seq<Token>): seq<Token> {
    seq(|ts|, i requires 0 <= i < |ts| => SpacedToken(ts[i]))
  }

  function SpacedMode(m: Mode): Mode {
    match m
    case InName(n) => InName(Spaced(n))
    case NameSeen(n) => NameSeen(Spaced(n))
    case InLiteral(v) => InLiteral(Spaced(v))
    case LiteralSeen(v) => LiteralSeen(Spaced(v))
    case _ => m
  }

  lemma SpacedAppend(a: seq<Token>, b: seq<Token>)
    ensures SpacedTokens(a + b) == SpacedTokens(a) + SpacedTokens(b)
  {
  }

  lemma FlushSpaced(m: Mode)
    ensures Flush(SpacedMode(m)) == SpacedTokens(Flush(m))
  {
    hide Spaced;
  }

  lemma StartSpaced(d: Dialect, c: char)
    ensures SpacedTokens(Start(d, c).0) == Start(d, c).0 && SpacedMode(Start(d, c).1) == Start(d, c).1
    ensures Content(Start(d, c).1) == ""
  {
    assert Spaced("") == "";
    hide IsSpace, Spaced;
  }

  /** What has been read inside quotes. */
  function Content(m: Mode): string {
    match m
    case InName(n) => n
    case InLiteral(v) => v
    case _ => ""
  }

  lemma EndAndStartSpaced(d: Dialect, m: Mode, c: char)
    ensures var t, u := EndAndStart(d, m, c), EndAndStart(d, SpacedMode(m), c);
            u == (SpacedTokens(t.0), SpacedMode(t.1)) && Content(t.1) == ""
  {
    FlushSpaced(m);
    StartSpaced(d, c);
    SpacedAppend(Flush(m), Start(d, c).0);
    hide Flush, Start, SpacedMode, SpacedTokens, Content;
  }

  /** Reading a character that is no white space commutes with spacing. */
  lemma StepSpaced(d: Dialect, m: Mode, c: char)
    requires !IsSpace(c)
    ensures var t, u := Step(d, m, c), Step(d, SpacedMode(m), c);
            u == (SpacedTokens(t.0), SpacedMode(t.1)) && !EndsBlank(Content(t.1))
  {
    EndAndStartSpaced(d, m, c);
    StartSpaced(d, c);
    if m.InName? || m.NameSeen? {
      SpacedSnoc(m.n, c);
    }
    if m.InLiteral? || m.LiteralSeen? {
      SpacedSnoc(m.v, c);
    }
    assert SpacedTokens([]) == [] && SpacedTokens([Reject]) == [Reject];
    assert m.InOp? ==> SpacedTokens([Op(TwoSigns(m.c, c))]) == [Op(TwoSigns(m.c, c))];
    hide IsSpace, Spaced, Start, EndAndStart, SpacedTokens;
  }

  /** Quotes with one more character inside. */
  function Blanked(m: Mode, c: char): Mode
    requires !Calm(m)
  {
    if m.InName? then InName(m.n + [c]) else InLiteral(m.v + [c])
  }

  /** All white space is alike, and after white space more of it makes no difference. */
  lemma BlankedAlike(m: Mode, c: char)
    requires !Calm(m) && IsSpace(c)
    ensures SpacedMode(Blanked(m, c)) == SpacedMode(Blanked(m, ' '))
    ensures !EndsBlank(Content(m)) ==> SpacedMode(Blanked(m, ' ')) == Blanked(SpacedMode(m), ' ')
    ensures SpacedMode(Blanked(Blanked(m, ' '), c)) == SpacedMode(Blanked(m, ' '))
  {
    var v := Content(m);
    assert IsSpace(' ') && [' '] == " ";
    SpacedSnoc(v, c);
    SpacedSnoc(v, ' ');
    SpacedSnoc(v + [' '], c);
    hide IsSpace, Spaced;
  }

  lemma StepAlike(d: Dialect, m: Mode, other: Mode, c: char)
    requires SpacedMode(m) == SpacedMode(other)
    ensures SpacedTokens(Step(d, m, c).0) == SpacedTokens(Step(d, other, c).0)
    ensures SpacedMode(Step(d, m, c).1) == SpacedMode(Step(d, other, c).1)
  {
    if !IsSpace(c) {
      StepSpaced(d, m, c);
      StepSpaced(d, other, c);
    } else if Calm(m) {
      StepSpace(d, m, c);
      StepSpace(d, other, c);
      FlushSpaced(m);
      FlushSpaced(other);
    } else {
      StepBlank(d, m, c);
      StepBlank(d, other, c);
      SpacedSnoc(Content(m), c);
      SpacedSnoc(Content(other), c);
      SpacedEnd(Content(m));
      SpacedEnd(Content(other));
    }
    hide Step, Spaced, IsSpace, Flush;
  }

  /** Modes that differ in white space only read the same tokens, but for white space. */
  lemma {:induction false} LexAlike(d: Dialect, m: Mode, other: Mode, s: string)
    requires SpacedMode(m) == SpacedMode(other)
    ensures SpacedTokens(LexFrom(d, m, s)) == SpacedTokens(LexFrom(d, other, s))
    decreases |s|
  {
    if s == "" {
      FlushSpaced(m);
      FlushSpaced(other);
    } else {
      StepAlike(d, m, other, s[0]);
      var t, u := Step(d, m, s[0]), Step(d, other, s[0]);
      hide Step, SpacedMode, SpacedTokens;
      LexAlike(d, t.1, u.1, s[1..]);
      SpacedAppend(t.0, LexFrom(d, t.1, s[1..]));
      SpacedAppend(u.0, LexFrom(d, u.1, s[1..]));
    }
  }

  // ----- Collapsing spaces the tokens -----

  lemma LexStep(d: Dialect, m: Mode, c: char, rest: string)
    ensures LexFrom(d, m, [c] + rest) == Step(d, m, c).0 + LexFrom(d, Step(d, m, c).1, rest)
  {
    hide Step;
    assert ([c] + rest)[1..] == rest;
  }

  lemma LexFirst(d: Dialect, m: Mode, s: string)
    requires s != ""
    ensures LexFrom(d, m, s) == Step(d, m, s[0]).0 + LexFrom(d, Step(d, m, s[0]).1, s[1..])
  {
    hide Step;
  }

  /** A character that is no white space, and what follows it. */
  lemma {:induction false} CollapseNext(d: Dialect, m: Mode, s: string)
    requires s != "" && !IsSpace(s[0])
    ensures LexFrom(d, SpacedMode(m), [s[0]] + Collapse(s[1..], true, false)) == SpacedTokens(LexFrom(d, m, s))
    decreases |s|, 0
  {
    var t := Step(d, m, s[0]);
    StepSpaced(d, m, s[0]);
    hide *;
    LexStep(d, SpacedMode(m), s[0], Collapse(s[1..], true, false));
    LexFirst(d, m, s);
    CollapseSpaces(d, t.1, s[1..], true);
    SpacedAppend(t.0, LexFrom(d, t.1, s[1..]));
  }

  /** After white space outside quotes: the token before it has not yet ended in the collapsed text. */
  lemma {:induction false} GapOutside(d: Dialect, m: Mode, s: string)
    requires Calm(m)
    ensures LexFrom(d, SpacedMode(m), Collapse(s, true, true)) == SpacedTokens(Flush(m) + LexFrom(d, Out, s))
    decreases |s|, 1
  {
    FlushSpaced(m);
    SpacedAppend(Flush(m), LexFrom(d, Out, s));
    assert SpacedMode(Out) == Out && Calm(SpacedMode(m)) && IsSpace(' ');
    CollapseCases(s);
    if s == "" {
      assert Flush(m) + [] == Flush(m);
    } else if IsSpace(s[0]) {
      StepSpace(d, Out, s[0]);
      GapOutside(d, m, s[1..]);
      hide Step, IsSpace, Collapse, SpacedTokens, SpacedMode;
      assert [] + LexFrom(d, Out, s[1..]) == LexFrom(d, Out, s[1..]);
    } else {
      StepSpace(d, SpacedMode(m), ' ');
      hide *;
      LexStep(d, SpacedMode(m), ' ', [s[0]] + Collapse(s[1..], true, false));
      CollapseNext(d, Out, s);
    }
  }

  lemma CollapseCases(s: string)
    ensures forall started, gap :: Collapse("", started, gap) == ""
    ensures forall started, gap | s != "" && IsSpace(s[0]) ::
              Collapse(s, started, gap) == Collapse(s[1..], started, started)
    ensures forall started | s != "" && !IsSpace(s[0]) ::
              Collapse(s, started, false) == [s[0]] + Collapse(s[1..], true, false)
    ensures s != "" && !IsSpace(s[0]) ==>
              Collapse(s, true, true) == [' '] + ([s[0]] + Collapse(s[1..], true, false))
  {
    hide IsSpace;
    if s != "" {
      assert "" + ([s[0]] + Collapse(s[1..], true, false)) == [s[0]] + Collapse(s[1..], true, false);
    }
  }

  /** The same inside quotes, where the space belongs to the token. */
  lemma {:induction false} GapInside(d: Dialect, m: Mode, s: string)
    requires !Calm(m) && !EndsBlank(Content(m))
    ensures LexFrom(d, SpacedMode(m), Collapse(s, true, true)) == SpacedTokens(LexFrom(d, Blanked(m, ' '), s))
    decreases |s|, 1
  {
    CollapseCases(s);
    var n := Blanked(m, ' ');
    assert IsSpace(' ') && !Calm(SpacedMode(m)) && !Calm(n);
    if s == "" {
      assert Flush(SpacedMode(m)) == [Reject] == SpacedTokens(Flush(n));
    } else if IsSpace(s[0]) {
      BlankedAlike(m, s[0]);
      StepBlank(d, n, s[0]);
      hide *;
      GapInside(d, m, s[1..]);
      LexFirst(d, n, s);
      LexAlike(d, Blanked(n, s[0]), n, s[1..]);
      assert [] + LexFrom(d, Blanked(n, s[0]), s[1..]) == LexFrom(d, Blanked(n, s[0]), s[1..]);
    } else {
      BlankedAlike(m, ' ');
      StepBlank(d, SpacedMode(m), ' ');
      hide *;
      var rest := [s[0]] + Collapse(s[1..], true, false);
      LexStep(d, SpacedMode(m), ' ', rest);
      CollapseNext(d, n, s);
      assert [] + LexFrom(d, SpacedMode(n), rest) == LexFrom(d, SpacedMode(n), rest);
    }
  }

  /** Collapsed text has the same tokens, with single spaces inside quotes. */
  lemma {:induction false} CollapseSpaces(d: Dialect, m: Mode, s: string, started: bool)
    requires (started || m == Out) && !EndsBlank(Content(m))
    ensures LexFrom(d, SpacedMode(m), Collapse(s, started, false)) == SpacedTokens(LexFrom(d, m, s))
    decreases |s|, 2
  {
    CollapseCases(s);
    if s == "" {
      FlushSpaced(m);
    } else if !IsSpace(s[0]) {
      CollapseNext(d, m, s);
    } else if !Calm(m) {
      BlankedAlike(m, s[0]);
      StepBlank(d, m, s[0]);
      hide *;
      LexFirst(d, m, s);
      LexAlike(d, Blanked(m, s[0]), Blanked(m, ' '), s[1..]);
      GapInside(d, m, s[1..]);
      assert [] + LexFrom(d, Blanked(m, s[0]), s[1..]) == LexFrom(d, Blanked(m, s[0]), s[1..]);
    } else {
      StepSpace(d, m, s[0]);
      assert SpacedMode(Out) == Out && Content(Out) == "" && Flush(Out) == [];
      hide *;
      LexFirst(d, m, s);
      if started {
        GapOutside(d, m, s[1..]);
      } else {
        CollapseSpaces(d, Out, s[1..], false);
        assert [] + LexFrom(d, Out, s[1..]) == LexFrom(d, Out, s[1..]);
      }
    }
  }

  /** Joining the words of a text with single spaces has this effect on its tokens. */
  lemma SqueezeSpaces(d: Dialect, s: string)
    ensures Lex(d, Join(Fields(s), " ")) == SpacedTokens(Lex(d, s))
  {
    CollapseIsJoin(s);
    CollapseSpaces(d, Out, s, false);
  }

  lemma {:induction false} TrimLeftKeeps(d: Dialect, s: string)
    ensures Lex(d, TrimLeft(s)) == Lex(d, s)
  {
    if s != "" && IsSpace(s[0]) {
      StepSpace(d, Out, s[0]);
      TrimLeftKeeps(d, s[1..]);
      hide Step, IsSpace;
      assert [] + LexFrom(d, Out, s[1..]) == LexFrom(d, Out, s[1..]);
    }
  }

  lemma {:induction false} TrimRightKeeps(d: Dialect, s: string)
    requires Reject !in Lex(d, s)
    ensures Lex(d, TrimRight(s)) == Lex(d, s)
    decreases |s|
  {
    if s != "" && IsSpace(s[|s| - 1]) {
      var t, c := s[..|s| - 1], s[|s| - 1];
      assert s == t + [c];
      DropSpace(d, t, c);
      hide IsSpace, LexFrom;
      TrimRightKeeps(d, t);
    }
  }

  lemma DropSpace(d: Dialect, t: string, c: char)
    requires IsSpace(c) && Reject !in Lex(d, t + [c])
    ensures Lex(d, t) == Lex(d, t + [c])
  {
    var r := Over(d, Out, t);
    LexAppend(d, Out, t, [c]);
    OverEnd(d, Out, t);
    assert [c][1..] == "";
    if Calm(r.1) {
      StepSpace(d, r.1, c);
    } else {
      SpaceAtEnd(d, r.1, c);
    }
  }

  lemma SpaceAtEnd(d: Dialect, m: Mode, c: char)
    requires !Calm(m) && IsSpace(c)
    ensures Reject in LexFrom(d, m, [c])
  {
    assert [c][1..] == "";
    StepBlank(d, m, c);
    hide Step, IsSpace;
  }

  lemma TrimKeeps(d: Dialect, s: string)
    requires Reject !in Lex(d, s)
    ensures Lex(d, TrimSpace(s)) == Lex(d, s)
  {
    hide LexFrom, TrimLeft, TrimRight;
    TrimLeftKeeps(d, s);
    TrimRightKeeps(d, TrimLeft(s));
  }
}
