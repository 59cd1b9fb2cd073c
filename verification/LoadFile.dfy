/**
 A whole .load file: comments removed, cut into commands, each command parsed
 (internal/configfile/parser.go).
 */
module LoadFile {
  import opened Text
  import opened LoadReaders
  import opened LoadParser
  import opened LoadPrinter
  import opened LoadRoundTrip
  import opened LoadTermination
  import opened SplitCommands
  import LoadEndless

  // ----- Comments -----

  predicate BlockAhead(s: string) { |s| >= 2 && s[0] == '/' && s[1] == '*' }

  predicate LineAhead(s: string) { |s| >= 2 && s[0] == '-' && s[1] == '-' }

  /** The text after the end of a block comment; all of it when the comment is not closed. */
  function AfterBlock(s: string): (r: string)
    ensures |r| <= |s|
  {
    if s == "" then "" else if |s| >= 2 && s[0] == '*' && s[1] == '/' then s[2..] else AfterBlock(s[1..])
  }

  function AfterLine(s: string): (r: string)
    ensures |r| <= |s|
  {
    if s == "" || s[0] == '\n' then s else AfterLine(s[1..])
  }

  function RemoveComments(s: string): (r: string)
    ensures |r| <= |s|
    decreases |s|
  {
    if s == "" then ""
    else if BlockAhead(s) then RemoveComments(AfterBlock(s[2..]))
    else if LineAhead(s) then RemoveComments(AfterLine(s[2..]))
    else [s[0]] + RemoveComments(s[1..])
  }

  method SkipBlock(s: string, from: nat) returns (pos: nat)
    requires from <= |s|
    ensures from <= pos <= |s| && s[pos..] == AfterBlock(s[from..])
  {
    pos := from;
    while pos < |s|
      invariant from <= pos <= |s| && AfterBlock(s[pos..]) == AfterBlock(s[from..])
    {
      DropDrop(s, pos, 1);
      if pos + 1 < |s| && s[pos] == '*' && s[pos + 1] == '/' {
        DropDrop(s, pos, 2);
        return pos + 2;
      }
      pos := pos + 1;
    }
  }

  method SkipLine(s: string, from: nat) returns (pos: nat)
    requires from <= |s|
    ensures from <= pos <= |s| && s[pos..] == AfterLine(s[from..])
  {
    pos := from;
    while pos < |s| && s[pos] != '\n'
      invariant from <= pos <= |s| && AfterLine(s[pos..]) == AfterLine(s[from..])
    {
      DropDrop(s, pos, 1);
      pos := pos + 1;
    }
  }

  method StripComments(s: string) returns (out: string)
    ensures out == RemoveComments(s)
  {
    out := "";
    var pos := 0;
    assert s[0..] == s && "" + RemoveComments(s) == RemoveComments(s);
    while pos < |s|
      invariant pos <= |s| && out + RemoveComments(s[pos..]) == RemoveComments(s)
      decreases |s| - pos
    {
      if pos + 1 < |s| && s[pos] == '/' && s[pos + 1] == '*' {
        DropDrop(s, pos, 2);
        pos := SkipBlock(s, pos + 2);
      } else if pos + 1 < |s| && s[pos] == '-' && s[pos + 1] == '-' {
        DropDrop(s, pos, 2);
        pos := SkipLine(s, pos + 2);
      } else {
        DropDrop(s, pos, 1);
        assert out + ([s[pos]] + RemoveComments(s[pos + 1..])) == out + [s[pos]] + RemoveComments(s[pos + 1..]);
        out := out + [s[pos]];
        pos := pos + 1;
      }
    }
    assert out + "" == out;
  }

  /** No comment starts anywhere, quoted or not. */
  predicate NoComments(s: string) {
    forall i | 0 <= i < |s| - 1 :: !(s[i] == '/' && s[i + 1] == '*') && !(s[i] == '-' && s[i + 1] == '-')
  }

  /** Quotes do not protect a comment sign: text is kept as it is exactly when it holds none. */
  lemma {:induction false} CommentsKeptOutIff(s: string)
    ensures RemoveComments(s) == s <==> NoComments(s)
    decreases |s|
  {
    if s != "" && !BlockAhead(s) && !LineAhead(s) {
      CommentsKeptOutIff(s[1..]);
      assert s == [s[0]] + s[1..];
      if NoComments(s[1..]) {
        forall i | 0 <= i < |s| - 1
          ensures !(s[i] == '/' && s[i + 1] == '*') && !(s[i] == '-' && s[i + 1] == '-')
        {
          assert i > 0 ==> s[i] == s[1..][i - 1] && s[i + 1] == s[1..][i];
        }
      } else {
        var i :| 0 <= i < |s| - 2
          && !(!(s[1..][i] == '/' && s[1..][i + 1] == '*') && !(s[1..][i] == '-' && s[1..][i + 1] == '-'));
        assert s[1..][i] == s[i + 1] && s[1..][i + 1] == s[i + 2];
        assert !NoComments(s);
      }
    } else if s != "" {
      assert |RemoveComments(s)| <= |s| - 2;
      assert !NoComments(s);
    }
  }

  /** No comment sign starts in a and ends in b. */
  predicate CleanJoin(a: string, b: string) {
    a == "" || b == "" || (!(a[|a| - 1] == '/' && b[0] == '*') && !(a[|a| - 1] == '-' && b[0] == '-'))
  }

  lemma {:induction false} KeptBefore(a: string, b: string)
    requires NoComments(a) && CleanJoin(a, b)
    ensures RemoveComments(a + b) == a + RemoveComments(b)
    decreases |a|
  {
    if a == "" {
      assert a + b == b;
    } else {
      assert (a + b)[1..] == a[1..] + b && a == [a[0]] + a[1..];
      CleanTail(a, b);
      KeptBefore(a[1..], b);
      hide NoComments, CleanJoin;
      assert a + RemoveComments(b) == [a[0]] + (a[1..] + RemoveComments(b));
    }
  }

  lemma CleanTail(a: string, b: string)
    requires NoComments(a) && CleanJoin(a, b) && a != ""
    ensures NoComments(a[1..]) && CleanJoin(a[1..], b) && !BlockAhead(a + b) && !LineAhead(a + b)
  {
    assert forall i | 0 <= i < |a| - 1 :: a[1..][i] == a[i + 1];
    assert |a| > 1 ==> a[0] == (a + b)[0] && a[1] == (a + b)[1];
  }

  lemma {:induction false} LineSkipped(c: string, rest: string)
    requires '\n' !in c && (rest == "" || rest[0] == '\n')
    ensures AfterLine(c + rest) == rest
  {
    if c == "" {
      assert c + rest == rest;
    } else {
      assert c[0] in c && (c + rest)[1..] == c[1..] + rest;
      LineSkipped(c[1..], rest);
    }
  }

  predicate NoBlockEnd(c: string) {
    forall i | 0 <= i < |c| - 1 :: !(c[i] == '*' && c[i + 1] == '/')
  }

  lemma {:induction false} BlockSkipped(c: string, b: string)
    requires NoBlockEnd(c)
    ensures AfterBlock(c + ("*/" + b)) == b
    ensures AfterBlock(c) == ""
  {
    var t := c + ("*/" + b);
    if c == "" {
      assert t == "*/" + b && t[2..] == b;
    } else {
      assert t[1..] == c[1..] + ("*/" + b);
      assert forall i | 0 <= i < |c| - 1 :: c[1..][i] == c[i + 1];
      BlockSkipped(c[1..], b);
    }
  }

  /** A comment after -- is removed up to the end of its line, which stays. */
  lemma LineCommentRemoved(a: string, c: string, b: string)
    requires NoComments(a) && (a != "" ==> a[|a| - 1] != '-') && '\n' !in c
    ensures RemoveComments(a + ("--" + (c + ("\n" + b)))) == a + ("\n" + RemoveComments(b))
    ensures RemoveComments(a + ("--" + c)) == a
    ensures ParseFile(a + ("--" + (c + ("\n" + b)))) == ParseFile(a + ("\n" + b))
  {
    var rest := "\n" + b;
    var t := "--" + (c + rest);
    assert t[2..] == c + rest && rest[1..] == b;
    assert ("--" + c)[2..] == c && c + "" == c && a + "" == a;
    LineSkipped(c, rest);
    LineSkipped(c, "");
    KeptBefore(a, t);
    KeptBefore(a, "--" + c);
    KeptBefore(a, rest);
    hide TrimSpace, Split, ParseAll;
  }

  /** A comment between the signs of a block, or after an opening one, is removed with its signs. */
  lemma BlockCommentRemoved(a: string, c: string, b: string)
    requires NoComments(a) && NoBlockEnd(c)
    ensures RemoveComments(a + ("/*" + (c + ("*/" + b)))) == a + RemoveComments(b)
    ensures RemoveComments(a + ("/*" + c)) == a
    ensures CleanJoin(a, b) ==> ParseFile(a + ("/*" + (c + ("*/" + b)))) == ParseFile(a + b)
  {
    var t := "/*" + (c + ("*/" + b));
    assert t[2..] == c + ("*/" + b);
    assert ("/*" + c)[2..] == c && a + "" == a;
    BlockSkipped(c, b);
    KeptBefore(a, t);
    KeptBefore(a, "/*" + c);
    if CleanJoin(a, b) {
      KeptBefore(a, b);
    }
    hide TrimSpace, Split, ParseAll;
  }

  // ----- The file -----

  datatype File = Parsed(commands: seq<LoadCommand>) | Refused | NeverEnds

  function WithFirst(cmd: LoadCommand, rest: File): File {
    match rest
    case Parsed(cmds) => Parsed([cmd] + cmds)
    case Refused => Refused
    case NeverEnds => NeverEnds
  }

  /** The commands in order, up to the first that is rejected or does not end. */
  function ParseAll(texts: seq<string>): File {
    if texts == [] then Parsed([])
    else
      match Parse(texts[0])
      case Rejected => Refused
      case Endless => NeverEnds
      case Command(cmd) => WithFirst(cmd, ParseAll(texts[1..]))
  }

  function ParseFile(input: string): File {
    var cleaned := RemoveComments(input);
    if TrimSpace(cleaned) == "" then Refused
    else
      match Split(cleaned)
      case UnclosedDollars => Refused
      case MissingSemicolon => Refused
      case Commands(texts) =>
        var f := ParseAll(texts);
        if f == Parsed([]) then Refused else f
  }

  /** A file without a command is refused. */
  lemma EmptyRefused(input: string)
    ensures TrimSpace(RemoveComments(input)) == "" ==> ParseFile(input) == Refused
    ensures ParseFile(input) != Parsed([])
  {
    hide TrimSpace, RemoveComments, Split, ParseAll;
  }

  function Before(done: seq<LoadCommand>, rest: File): File {
    if rest.Parsed? then Parsed(done + rest.commands) else rest
  }

  lemma BeforeStep(done: seq<LoadCommand>, texts: seq<string>, i: nat)
    requires i < |texts|
    ensures var p := Parse(texts[i]);
            Before(done, ParseAll(texts[i..]))
            == if p.Command? then Before(done + [p.cmd], ParseAll(texts[i + 1..]))
               else if p.Rejected? then Refused else NeverEnds
  {
    hide Parse;
    assert texts[i..][1..] == texts[i + 1..];
    var p := Parse(texts[i]);
    if p.Command? && ParseAll(texts[i + 1..]).Parsed? {
      var rest := ParseAll(texts[i + 1..]).commands;
      assert done + ([p.cmd] + rest) == done + [p.cmd] + rest;
    }
  }

  method ParseText(input: string) returns (f: File)
    ensures f == ParseFile(input)
  {
    hide Parse, Split, TrimSpace, RemoveComments;
    var cleaned := StripComments(input);
    if TrimSpace(cleaned) == "" {
      return Refused;
    }
    var r := SplitText(cleaned);
    if !r.Commands? {
      return Refused;
    }
    var texts := r.list;
    var commands: seq<LoadCommand> := [];
    assert texts[0..] == texts;
    assert ParseAll(texts).Parsed? ==> [] + ParseAll(texts).commands == ParseAll(texts).commands;
    for i := 0 to |texts|
      invariant Before(commands, ParseAll(texts[i..])) == ParseAll(texts)
    {
      BeforeStep(commands, texts, i);
      var p := ParseCommand(texts[i]);
      match p {
        case Rejected => return Refused;
        case Endless => return NeverEnds;
        case Command(cmd) => commands := commands + [cmd];
      }
    }
    assert commands + [] == commands;
    if commands == [] {
      return Refused;
    }
    return Parsed(commands);
  }

  // ----- Printed commands are closed -----

  /** A character that means nothing to the splitting. */
  predicate Plain(c: char) { c != '\'' && c != '$' && c != ';' }

  predicate PlainText(s: string) {
    forall i | 0 <= i < |s| :: Plain(s[i])
  }

  predicate Apart(s: string) { s == "" || Plain(s[0]) }

  lemma {:induction false} ClosedApart(a: string, b: string, m: Mode)
    requires Closed(a, m) && Apart(b) && Closed(b, Outside)
    ensures Closed(a + b, m)
    decreases |a|
  {
    if a == "" {
      assert a + b == b;
    } else {
      assert (a + b)[1..] == a[1..] + b;
      ClosedApart(a[1..], b, NextMode(m, a[0]));
    }
  }

  lemma {:induction false} PlainThen(a: string, b: string)
    requires PlainText(a) && Closed(b, Outside)
    ensures Closed(a + b, Outside)
    decreases |a|
  {
    if a == "" {
      assert a + b == b;
    } else {
      assert (a + b)[1..] == a[1..] + b;
      PlainThen(a[1..], b);
    }
  }

  lemma {:induction false} DoubledCloses(v: string)
    ensures Closed(Doubled(v) + "'", InQuote)
  {
    if v != "" {
      DoubledCloses(v[1..]);
      var rest := Doubled(v[1..]) + "'";
      if v[0] == '\'' {
        var t := "''" + rest;
        assert Doubled(v) + "'" == t && t[1..] == "'" + rest && ("'" + rest)[1..] == rest;
        assert Closed("'" + rest, QuoteSeen);
      } else {
        assert Doubled(v) + "'" == [v[0]] + rest && ([v[0]] + rest)[1..] == rest;
      }
    } else {
      assert Doubled(v) + "'" == "'";
      assert "'"[1..] == "";
    }
  }

  lemma QuoteCloses(v: string)
    ensures Closed(QuoteValue(v), Outside)
  {
    DoubledCloses(v);
    assert QuoteValue(v)[1..] == Doubled(v) + "'";
  }

  lemma {:induction false} DollarsClose(sql: string)
    requires NoDollars(sql) && (sql != "" ==> sql[|sql| - 1] != '$')
    ensures Closed(sql + "$$", InDollars)
    ensures sql != "" && sql[0] != '$' ==> Closed(sql + "$$", DollarSeen)
    decreases |sql|
  {
    var t := sql + "$$";
    if sql == "" {
      assert t == "$$" && t[1..] == "$" && t[1..][1..] == "";
    } else {
      assert t[1..] == sql[1..] + "$$";
      NoDollarsTail(sql);
      DollarsClose(sql[1..]);
    }
  }

  lemma StatementCloses(sql: string)
    requires StatementOk(sql)
    ensures Closed(PrintStatement(sql), Outside)
  {
    var t, u := PrintStatement(sql), sql + "$$";
    assert t[1..] == "$" + u && t[1..][1..] == u;
    DollarsClose(sql);
  }

  /** What the automaton may be in before an option goes on. */
  predicate Fits(o: string, m: Mode) {
    && TopLevel(m)
    && (m == Dollar ==> o == "" || o[0] != '$')
    && (m == QuoteSeen ==> o == "" || o[0] != '\'')
  }

  lemma {:induction false} BodyThen(body: string, rest: string)
    requires '\'' !in body && Closed(rest, QuoteSeen)
    ensures Closed(body + ("'" + rest), InQuote)
    decreases |body|
  {
    var t := body + ("'" + rest);
    if body == "" {
      assert t == "'" + rest && t[1..] == rest;
    } else {
      assert body[0] in body && t[1..] == body[1..] + ("'" + rest);
      BodyThen(body[1..], rest);
    }
  }

  lemma NoDollarsSuffix(a: string, b: string)
    requires NoDollars(a + b)
    ensures NoDollars(b)
  {
    forall i | 0 <= i < |b| - 1
      ensures !(b[i] == '$' && b[i + 1] == '$')
    {
      assert b[i] == (a + b)[|a| + i] && b[i + 1] == (a + b)[|a| + i + 1];
    }
  }

  lemma {:induction false} OptionCloses(o: string, started: bool, spaceBefore: bool, m: Mode)
    requires Verbatim(o, started, spaceBefore) && NoDollars(o) && Fits(o, m)
    ensures Closed(o, m)
    decreases |o|
  {
    hide Verbatim;
    if o != "" {
      VerbatimPlain(o, started, spaceBefore);
      if o[0] == '\'' {
        var body, rest := VerbatimQuoted(o, started, spaceBefore);
        NoDollarsSuffix("'" + body + "'", rest);
        OptionCloses(rest, true, false, QuoteSeen);
        BodyThen(body, rest);
        assert o[1..] == body + ("'" + rest);
      } else {
        NoDollarsTail(o);
        assert |o| > 1 ==> !(o[0] == '$' && o[1] == '$');
        OptionCloses(o[1..], true, o[0] == ' ' || o[0] == '\t', NextMode(m, o[0]));
      }
    }
  }

  lemma {:induction false} JoinCloses(items: seq<string>)
    requires forall i | 0 <= i < |items| :: Closed(items[i], Outside)
    ensures Closed(Join(items, ", "), Outside)
    decreases |items|
  {
    if |items| > 1 {
      var rest := Join(items[1..], ", ");
      JoinCloses(items[1..]);
      PlainThen(", ", rest);
      ClosedApart(items[0], ", " + rest, Outside);
      assert items[0] + ", " + rest == items[0] + (", " + rest);
    }
  }

  /** Options may hold no $$, for it would open a quotation that the splitting sees. */
  predicate ClauseClosed(c: Clause) {
    match c
    case Withs(items) => forall i | 0 <= i < |items| :: NoDollars(items[i])
    case Sets(items) => forall i | 0 <= i < |items| :: NoDollars(items[i])
    case Casts(items) => forall i | 0 <= i < |items| :: NoDollars(items[i])
    case Includes(items) => forall i | 0 <= i < |items| :: NoDollars(items[i])
    case Excludes(items) => forall i | 0 <= i < |items| :: NoDollars(items[i])
    case Views(items) => forall i | 0 <= i < |items| :: NoDollars(items[i])
    case _ => true
  }

  lemma SpacedCloses(s: string)
    requires Closed(s, Outside)
    ensures Closed(Spaced(s), Outside) && Apart(Spaced(s))
  {
    if s != "" {
      PlainThen(" ", s);
    }
  }

  lemma OptionsClose(items: seq<string>)
    requires OptionsOk(items) && forall i | 0 <= i < |items| :: NoDollars(items[i])
    ensures Closed(Join(items, ", "), Outside)
  {
    forall i | 0 <= i < |items|
      ensures Closed(items[i], Outside)
    {
      assert OptionOk(items[i]);
      hide Verbatim, Closed;
      OptionCloses(items[i], false, false, Outside);
    }
    hide Closed, OptionOk;
    JoinCloses(items);
  }

  lemma StatementsClose(sqls: seq<string>)
    requires StatementsOk(sqls)
    ensures Closed(Join(PrintStatements(sqls), ", "), Outside)
  {
    var items := PrintStatements(sqls);
    forall i | 0 <= i < |items|
      ensures Closed(items[i], Outside)
    {
      StatementCloses(sqls[i]);
    }
    hide Closed, StatementOk;
    JoinCloses(items);
  }

  lemma ColumnsClose(columns: seq<string>)
    ensures Closed(Join(PrintColumns(columns), ", "), Outside)
  {
    var items := PrintColumns(columns);
    forall i | 0 <= i < |items|
      ensures Closed(items[i], Outside)
    {
      QuoteCloses(columns[i]);
    }
    hide Closed, QuoteValue;
    JoinCloses(items);
  }

  lemma BodyCloses(c: Clause)
    requires ClauseOk(c) && ClauseClosed(c)
    ensures Closed(Body(c), Outside)
  {
    hide Closed, QuoteValue, OptionOk, StatementOk, HasPrefixFold, NoDollars;
    match c {
      case Table(name) => QuoteCloses(name); SpacedCloses(QuoteValue(name));
      case Schema(name) => QuoteCloses(name); SpacedCloses(QuoteValue(name));
      case Befores(items) => StatementsClose(items); SpacedCloses(Join(PrintStatements(items), ", "));
      case Afters(items) => StatementsClose(items); SpacedCloses(Join(PrintStatements(items), ", "));
      case AllViews =>
        ClosedNothing();
        PlainThen(" ALL VIEWS", "");
        assert " ALL VIEWS" + "" == " ALL VIEWS";
      case Withs(items) => OptionsClose(items); SpacedCloses(Join(items, ", "));
      case Sets(items) => OptionsClose(items); SpacedCloses(Join(items, ", "));
      case Casts(items) => OptionsClose(items); SpacedCloses(Join(items, ", "));
      case Includes(items) => OptionsClose(items); SpacedCloses(Join(items, ", "));
      case Excludes(items) => OptionsClose(items); SpacedCloses(Join(items, ", "));
      case Views(items) => OptionsClose(items); SpacedCloses(Join(items, ", "));
    }
  }

  lemma ClosedNothing()
    ensures Closed("", Outside)
  {
  }

  lemma PlainHeads()
    ensures PlainText("TARGET") && PlainText("WITH") && PlainText("SET") && PlainText("CAST")
    ensures PlainText("BEFORE") && PlainText("AFTER") && PlainText("INCLUDING") && PlainText("EXCLUDING")
    ensures PlainText("MATERIALIZE")
  {
  }

  lemma PlainTails()
    ensures PlainText(" TABLE") && PlainText(" SCHEMA") && PlainText(" LOAD DO") && PlainText("")
    ensures PlainText(" ONLY TABLE NAMES MATCHING") && PlainText(" TABLE NAMES MATCHING")
  {
  }

  lemma KeywordPlain(c: Clause)
    ensures PlainText(Head(c)) && PlainText(More(c))
  {
    PlainHeads();
    PlainTails();
    hide PlainText;
  }

  lemma ClauseText(c: Clause, tail: string)
    ensures PlainText("\n")
    ensures PrintClause(c) + tail == Head(c) + (More(c) + (Body(c) + tail))
  {
    hide Head, More, Body;
  }

  lemma ClauseThen(c: Clause, tail: string)
    requires ClauseOk(c) && ClauseClosed(c) && Closed(tail, Outside) && Apart(tail)
    ensures Closed("\n" + (PrintClause(c) + tail), Outside)
  {
    hide *;
    BodyCloses(c);
    KeywordPlain(c);
    var body, more := Body(c) + tail, More(c) + (Body(c) + tail);
    ClauseText(c, tail);
    ClosedApart(Body(c), tail, Outside);
    PlainThen(More(c), body);
    PlainThen(Head(c), more);
    PlainThen("\n", Head(c) + more);
  }

  lemma {:induction false} ClausesClose(cs: seq<Clause>)
    requires forall i | 0 <= i < |cs| :: ClauseOk(cs[i]) && ClauseClosed(cs[i])
    ensures Closed(PrintClauses(cs), Outside) && Apart(PrintClauses(cs))
    decreases |cs|
  {
    if cs != [] {
      ClausesClose(cs[1..]);
      hide Closed, PrintClause, ClauseOk, ClauseClosed;
      ClauseThen(cs[0], PrintClauses(cs[1..]));
    }
  }

  lemma SourceCloses(source: Source)
    ensures Closed(PrintSource(source), Outside)
  {
    hide Closed, QuoteValue;
    match source {
      case Database(uri) => QuoteCloses(uri);
      case File(path, columns) =>
        QuoteCloses(path);
        if columns == [] {
          assert QuoteValue(path) + "" == QuoteValue(path);
        } else {
          ColumnsClose(columns);
          ClosedParen();
          var list := Join(PrintColumns(columns), ", ");
          assert PlainText(" (");
          ClosedApart(list, ")", Outside);
          PlainThen(" (", list + ")");
          ClosedApart(QuoteValue(path), " (" + (list + ")"), Outside);
        }
    }
  }

  lemma ClosedParen()
    ensures Closed(")", Outside)
  {
    assert ")"[1..] == "";
  }

  lemma IntoCloses(target: string, tail: string)
    requires Closed(tail, Outside) && Apart(tail)
    ensures Closed("\nINTO" + AfterInto(target, tail), Outside)
  {
    QuoteCloses(target);
    assert PlainText(" ") && PlainText("\nINTO");
    hide Closed, QuoteValue, Apart;
    ClosedApart(QuoteValue(target), tail, Outside);
    PlainThen(" ", QuoteValue(target) + tail);
    PlainThen("\nINTO", AfterInto(target, tail));
  }

  lemma FromCloses(source: Source, target: string, tail: string)
    requires Closed(tail, Outside) && Apart(tail)
    ensures Closed("\nFROM" + AfterFrom(source, target, tail), Outside)
  {
    IntoCloses(target, tail);
    SourceCloses(source);
    assert PlainText(" ") && PlainText("\nFROM");
    assert Apart("\nINTO" + AfterInto(target, tail));
    hide Closed, PrintSource, AfterInto, Apart;
    ClosedApart(PrintSource(source), "\nINTO" + AfterInto(target, tail), Outside);
    PlainThen(" ", PrintSource(source) + ("\nINTO" + AfterInto(target, tail)));
    PlainThen("\nFROM", AfterFrom(source, target, tail));
  }

  lemma HeadCloses(source: Source, target: string, tail: string)
    requires Closed(tail, Outside) && Apart(tail)
    ensures Closed(PrintHead(source, target, tail), Outside)
  {
    FromCloses(source, target, tail);
    assert PlainText("LOAD") && PlainText(" DATABASE") && PlainText(" CSV");
    hide Closed, AfterFrom, Apart;
    var from := "\nFROM" + AfterFrom(source, target, tail);
    PlainThen(" DATABASE", from);
    PlainThen(" CSV", from);
    PlainThen("LOAD", (if source.Database? then " DATABASE" else " CSV") + from);
  }

  lemma HeadTrimmed(source: Source, target: string, tail: string)
    requires tail == "" || EndsDark(tail)
    ensures var s := PrintHead(source, target, tail); s != "" && Trimmed(s)
  {
    var from := "\nFROM" + AfterFrom(source, target, tail);
    AfterFromDark(source, target, tail);
    SuffixDark("\nFROM", AfterFrom(source, target, tail));
    hide AfterFrom;
    SuffixDark(if source.Database? then " DATABASE" else " CSV", from);
    SuffixDark("LOAD", (if source.Database? then " DATABASE" else " CSV") + from);
  }

  // ----- The whole file -----

  /** A command to print. */
  datatype Load = Load(source: Source, target: string, clauses: seq<Clause>)

  function PrintOne(l: Load): string { PrintLoad(l.source, l.target, l.clauses) }

  predicate LoadOk(l: Load) {
    && SourceOk(l.source) && NoDollars(l.target)
    && (forall i | 0 <= i < |l.clauses| :: ClauseOk(l.clauses[i]) && ClauseClosed(l.clauses[i]))
    && Meaning(l).Command?
  }

  /** What the command means; rejected when the URI of the source has no known scheme. */
  function Meaning(l: Load): Outcome {
    Finish(ApplyAll(Base(l.source, l.target), l.clauses))
  }

  function PrintAll(loads: seq<Load>): seq<string> {
    seq(|loads|, i requires 0 <= i < |loads| => PrintOne(loads[i]))
  }

  function Meanings(loads: seq<Load>): seq<LoadCommand>
    requires forall i | 0 <= i < |loads| :: LoadOk(loads[i])
  {
    if loads == [] then [] else
      assert LoadOk(loads[0]);
      [Meaning(loads[0]).cmd] + Meanings(loads[1..])
  }

  lemma PrintedCommandOk(l: Load)
    requires LoadOk(l)
    ensures CommandOk(PrintOne(l)) && Parse(PrintOne(l)) == Meaning(l)
  {
    ClausesClose(l.clauses);
    if l.clauses != [] {
      ClausesDark(l.clauses);
    } else {
      assert PrintClauses(l.clauses) == "";
    }
    LoadRoundTrip.LoadRoundTrip(l.source, l.target, l.clauses);
    hide *;
    HeadCloses(l.source, l.target, PrintClauses(l.clauses));
    HeadTrimmed(l.source, l.target, PrintClauses(l.clauses));
    PrintedIs(l);
    CommandOkIs(PrintOne(l));
  }

  lemma MeaningIsCommand(l: Load)
    requires LoadOk(l)
    ensures Meaning(l).Command?
  {
    hide Meaning;
  }

  lemma PrintedIs(l: Load)
    ensures PrintOne(l) == PrintHead(l.source, l.target, PrintClauses(l.clauses))
    ensures Meaning(l) == Finish(ApplyAll(Base(l.source, l.target), l.clauses))
    ensures PrintOne(l) == PrintLoad(l.source, l.target, l.clauses)
  {
  }

  lemma CommandOkIs(s: string)
    ensures CommandOk(s) <==> s != "" && Trimmed(s) && Closed(s, Outside)
  {
  }

  lemma PrintAllTail(loads: seq<Load>)
    requires loads != []
    ensures var texts := PrintAll(loads);
            texts != [] && texts[0] == PrintOne(loads[0]) && texts[1..] == PrintAll(loads[1..])
  {
    hide PrintOne;
  }

  lemma ParseFirst(texts: seq<string>, cmd: LoadCommand)
    requires texts != [] && Parse(texts[0]) == Command(cmd)
    ensures ParseAll(texts) == WithFirst(cmd, ParseAll(texts[1..]))
  {
    hide Parse;
  }

  lemma {:induction false} ParseAllPrinted(loads: seq<Load>)
    requires forall i | 0 <= i < |loads| :: LoadOk(loads[i])
    ensures ParseAll(PrintAll(loads)) == Parsed(Meanings(loads))
    decreases |loads|
  {
    if loads != [] {
      hide Parse, PrintOne, Meaning, CommandOk, LoadOk, ParseAll;
      var l := loads[0];
      ParseAllPrinted(loads[1..]);
      PrintedCommandOk(l);
      MeaningIsCommand(l);
      PrintAllTail(loads);
      hide PrintAll;
      ParseFirst(PrintAll(loads), Meaning(l).cmd);
    }
  }

  lemma TerminatedNotBlank(first: string, rest: seq<string>)
    requires CommandOk(first)
    ensures TrimSpace(Terminated([first] + rest)) != ""
  {
    var s := Terminated([first] + rest);
    assert s[0] == first[0];
    hide Closed, Terminated, TrimRight;
    assert TrimLeft(s) == s;
    NotBlank(s);
  }

  lemma {:induction false} NotBlank(s: string)
    requires s != "" && !IsSpace(s[0])
    ensures TrimRight(s) != ""
    decreases |s|
  {
    if |s| > 1 && IsSpace(s[|s| - 1]) {
      NotBlank(s[..|s| - 1]);
    }
  }

  /** From the text of a file to the commands: printed commands, each ended by a semicolon, all come back. */
  lemma FileRoundTrip(loads: seq<Load>)
    requires loads != [] && forall i | 0 <= i < |loads| :: LoadOk(loads[i])
    requires NoComments(Terminated(PrintAll(loads)))
    ensures ParseFile(Terminated(PrintAll(loads))) == Parsed(Meanings(loads))
  {
    hide *;
    var texts := PrintAll(loads);
    CommentsKeptOutIff(Terminated(texts));
    PrintAllOk(loads);
    SplitRoundTrip(texts);
    ParseAllPrinted(loads);
    assert texts == [texts[0]] + texts[1..];
    TerminatedNotBlank(texts[0], texts[1..]);
    MeaningsNotEmpty(loads);
    ParseFileOf(Terminated(texts), texts);
  }

  lemma PrintAllOk(loads: seq<Load>)
    requires forall i | 0 <= i < |loads| :: LoadOk(loads[i])
    ensures |PrintAll(loads)| == |loads| && forall i | 0 <= i < |loads| :: CommandOk(PrintAll(loads)[i])
  {
    hide LoadOk, CommandOk, PrintOne;
    forall i | 0 <= i < |loads|
      ensures CommandOk(PrintAll(loads)[i])
    {
      PrintedCommandOk(loads[i]);
    }
  }

  lemma MeaningsNotEmpty(loads: seq<Load>)
    requires loads != [] && forall i | 0 <= i < |loads| :: LoadOk(loads[i])
    ensures Meanings(loads) != []
  {
    hide Meaning, LoadOk;
  }

  /** One of the lists of the command meets a semicolon outside quotes. */
  ghost predicate EndlessCommand(text: string) {
    exists h <- LoadEndless.ListsOf(text) :: LoadEndless.SemicolonIn(h)
  }

  /** The first command that is not parsed to its end is one that never ends. */
  ghost predicate ReachesEndless(texts: seq<string>) {
    exists i | 0 <= i < |texts| :: EndlessCommand(texts[i]) && forall j | 0 <= j < i :: Parse(texts[j]).Command?
  }

  lemma {:induction false} AllEndlessExactly(texts: seq<string>)
    ensures ParseAll(texts) == NeverEnds <==> ReachesEndless(texts)
  {
    if texts == [] {
      hide EndlessCommand, Parse;
    } else {
      hide Parse, EndlessCommand, ReachesEndless;
      EndlessCommandIs(texts[0]);
      AllEndlessExactly(texts[1..]);
      ReachesLater(texts);
    }
  }

  lemma EndlessCommandIs(text: string)
    ensures EndlessCommand(text) <==> Parse(text) == Endless
  {
    LoadEndless.EndlessExactly(text);
    hide Parse, LoadEndless.ListsOf, LoadEndless.SemicolonIn;
  }

  lemma ReachesLater(texts: seq<string>)
    requires texts != []
    ensures ReachesEndless(texts)
        <==> EndlessCommand(texts[0]) || (Parse(texts[0]).Command? && ReachesEndless(texts[1..]))
  {
    hide Parse, EndlessCommand;
    if Parse(texts[0]).Command? && ReachesEndless(texts[1..]) {
      var i :| 0 <= i < |texts[1..]| && EndlessCommand(texts[1..][i]) && forall j | 0 <= j < i :: Parse(texts[1..][j]).Command?;
      forall j | 0 <= j < i + 1
        ensures Parse(texts[j]).Command?
      {
        assert j > 0 ==> texts[j] == texts[1..][j - 1];
      }
      assert EndlessCommand(texts[i + 1]);
    }
    if ReachesEndless(texts) {
      var i :| 0 <= i < |texts| && EndlessCommand(texts[i]) && forall j | 0 <= j < i :: Parse(texts[j]).Command?;
      if i > 0 {
        assert EndlessCommand(texts[1..][i - 1]);
        forall j | 0 <= j < i - 1
          ensures Parse(texts[1..][j]).Command?
        {
          assert texts[1..][j] == texts[j + 1];
        }
      }
    }
  }

  /** Parsing a file never ends exactly when it gets to a command with such a list. */
  lemma FileEndlessExactly(input: string)
    ensures ParseFile(input) == NeverEnds
        <==> && TrimSpace(RemoveComments(input)) != ""
             && Split(RemoveComments(input)).Commands?
             && ReachesEndless(Split(RemoveComments(input)).list)
  {
    hide RemoveComments, TrimSpace, Split, ParseAll, ReachesEndless;
    if Split(RemoveComments(input)).Commands? {
      AllEndlessExactly(Split(RemoveComments(input)).list);
    }
  }

  /** A file on which parsing never ends: its semicolon is quoted, so the splitting keeps it. */
  lemma FileNeverEnds(source: Source, target: string)
    requires SourceOk(source) && NoDollars(target)
    requires NoComments(Terminated([PrintHead(source, target, STUCK_OPTION)]))
    ensures ParseFile(Terminated([PrintHead(source, target, STUCK_OPTION)])) == NeverEnds
  {
    hide *;
    var s := PrintHead(source, target, STUCK_OPTION);
    StuckCommandOk(source, target);
    QuotedSemicolonHangs(source, target);
    CommentsKeptOutIff(Terminated([s]));
    SplitRoundTrip([s]);
    assert [s] + [] == [s];
    TerminatedNotBlank(s, []);
    OneEndless(s);
    ParseFileOf(Terminated([s]), [s]);
  }

  lemma StuckCommandOk(source: Source, target: string)
    ensures CommandOk(PrintHead(source, target, STUCK_OPTION))
  {
    StuckCloses();
    StuckText();
    hide *;
    HeadCloses(source, target, STUCK_OPTION);
    HeadTrimmed(source, target, STUCK_OPTION);
    CommandOkIs(PrintHead(source, target, STUCK_OPTION));
  }

  lemma OneEndless(s: string)
    requires Parse(s) == Endless
    ensures ParseAll([s]) == NeverEnds
  {
    hide Parse;
  }

  lemma ParseFileOf(text: string, texts: seq<string>)
    requires RemoveComments(text) == text && TrimSpace(text) != "" && Split(text) == Commands(texts)
    requires ParseAll(texts) != Parsed([])
    ensures ParseFile(text) == ParseAll(texts)
  {
    hide RemoveComments, TrimSpace, Split, ParseAll;
  }

  lemma StuckCloses()
    ensures Closed(STUCK_OPTION, Outside) && Apart(STUCK_OPTION)
  {
    var quoted := "$$;$$";
    assert quoted[1..] == "$;$$" && "$;$$"[1..] == ";$$" && ";$$"[1..] == "$$" && "$$"[1..] == "$" && "$"[1..] == "";
    assert Closed("$", DollarSeen) && Closed("$$", InDollars) && Closed(";$$", InDollars) && Closed("$;$$", Dollar);
    assert PlainText("\nWITH ");
    PlainThen("\nWITH ", quoted);
    assert STUCK_OPTION == "\nWITH " + quoted;
  }
}
