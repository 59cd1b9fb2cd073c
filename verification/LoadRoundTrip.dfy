/**
 Whole LOAD commands: parsing the printed text of a command, its sections in any order and on lines of
 their own, gives the command (internal/configfile/parser.go).
 */
module LoadRoundTrip {
  import opened Text
  import opened LoadReaders
  import opened LoadParser
  import opened LoadPrinter

  /** A section after INTO. */
  datatype Clause =
    | Table(name: string)
    | Schema(name: string)
    | Withs(items: seq<string>)
    | Sets(items: seq<string>)
    | Casts(items: seq<string>)
    | Befores(items: seq<string>)
    | Afters(items: seq<string>)
    | Includes(items: seq<string>)
    | Excludes(items: seq<string>)
    | AllViews
    | Views(items: seq<string>)

  function StateOf(c: Clause): State {
    match c
    case Table(_) => TargetTable
    case Schema(_) => TargetSchema
    case Withs(_) => With
    case Sets(_) => Set
    case Casts(_) => Cast
    case Befores(_) => BeforeLoad
    case Afters(_) => AfterLoad
    case Includes(_) => Including
    case Excludes(_) => Excluding
    case AllViews => Materialize
    case Views(_) => Materialize
  }

  /** What a section means for the command; a later section of the same kind replaces an earlier one. */
  function Apply(cmd: LoadCommand, c: Clause): LoadCommand {
    match c
    case Table(name) => SetTable(cmd, name)
    case Schema(name) => cmd.(targetSchema := name)
    case Withs(items) => cmd.(with := items)
    case Sets(items) => cmd.(settings := items)
    case Casts(items) => cmd.(castRules := items)
    case Befores(items) => cmd.(beforeLoad := items)
    case Afters(items) => cmd.(afterLoad := items)
    case Includes(items) => cmd.(includingOnly := items)
    case Excludes(items) => cmd.(excluding := items)
    case AllViews => cmd.(materializeViews := ["*"])
    case Views(items) => cmd.(materializeViews := items)
  }

  function ApplyAll(cmd: LoadCommand, cs: seq<Clause>): LoadCommand
    decreases |cs|
  {
    if cs == [] then cmd else ApplyAll(Apply(cmd, cs[0]), cs[1..])
  }

  predicate ClauseOk(c: Clause) {
    match c
    case Table(name) => NoDollars(name)
    case Schema(name) => NoDollars(name)
    case Befores(items) => StatementsOk(items)
    case Afters(items) => StatementsOk(items)
    case AllViews => true
    case Views(items) => OptionsOk(items) && (items != [] ==> !HasPrefixFold(items[0], "ALL VIEWS"))
    case _ => OptionsOk(c.items)
  }

  // ----- Printing -----

  /** The first word of a section. */
  function Head(c: Clause): string {
    match c
    case Table(_) => "TARGET"
    case Schema(_) => "TARGET"
    case Withs(_) => "WITH"
    case Sets(_) => "SET"
    case Casts(_) => "CAST"
    case Befores(_) => "BEFORE"
    case Afters(_) => "AFTER"
    case Includes(_) => "INCLUDING"
    case Excludes(_) => "EXCLUDING"
    case AllViews => "MATERIALIZE"
    case Views(_) => "MATERIALIZE"
  }

  /** The other words of its keyword. */
  function More(c: Clause): string {
    match c
    case Table(_) => " TABLE"
    case Schema(_) => " SCHEMA"
    case Befores(_) => " LOAD DO"
    case Afters(_) => " LOAD DO"
    case Includes(_) => " ONLY TABLE NAMES MATCHING"
    case Excludes(_) => " TABLE NAMES MATCHING"
    case _ => ""
  }

  /** A space before something, and nothing before nothing. */
  function Spaced(s: string): string {
    if s == "" then "" else " " + s
  }

  function Body(c: Clause): string {
    match c
    case Table(name) => Spaced(QuoteValue(name))
    case Schema(name) => Spaced(QuoteValue(name))
    case Befores(items) => Spaced(Join(PrintStatements(items), ", "))
    case Afters(items) => Spaced(Join(PrintStatements(items), ", "))
    case AllViews => " ALL VIEWS"
    case _ => Spaced(Join(c.items, ", "))
  }

  function PrintClause(c: Clause): string {
    Head(c) + (More(c) + Body(c))
  }

  /** Each section on a line of its own. */
  function PrintClauses(cs: seq<Clause>): string {
    if cs == [] then "" else "\n" + (PrintClause(cs[0]) + PrintClauses(cs[1..]))
  }

  /** What is read: a database URI, or a file with perhaps a list of columns. */
  datatype Source = Database(uri: string) | File(path: string, columns: seq<string>)

  function PrintSource(source: Source): string {
    match source
    case Database(uri) => QuoteValue(uri)
    case File(path, columns) =>
      QuoteValue(path) + if columns == [] then "" else " (" + (Join(PrintColumns(columns), ", ") + ")")
  }

  function PrintLoad(source: Source, target: string, cs: seq<Clause>): string {
    PrintHead(source, target, PrintClauses(cs))
  }

  predicate SourceOk(source: Source) {
    match source
    case Database(uri) => NoDollars(uri)
    case File(path, columns) => NoDollars(path) && forall i | 0 <= i < |columns| :: NoDollars(columns[i])
  }

  /** The command before its sections. */
  function Base(source: Source, target: string): LoadCommand {
    match source
    case Database(uri) => EMPTY.(sourceURI := uri, targetURI := target)
    case File(path, columns) => EMPTY.(kind := CSV, filePath := path, sourceColumns := columns, targetURI := target)
  }

  // ----- Which section comes next -----

  /** Text after a keyword that a word boundary separates from it. */
  predicate Separate(rest: string) {
    rest == "" || rest[0] == ' ' || rest[0] == '\n'
  }

  lemma WordAhead(kw: string, rest: string)
    requires Separate(rest)
    ensures HasKeyword(kw + rest, kw)
  {
  }

  lemma HeadIsSection(c: Clause, rest: string)
    requires Separate(rest)
    ensures SectionStart(Head(c) + rest)
  {
    WordAhead(Head(c), rest);
  }

  /** The tests of AdvanceState are decided by the first letter, but for the three of TARGET. */
  lemma AdvanceByLetter(t: string)
    requires t != "" && !IsBlank(t[0])
    ensures HasPrefixFold(t, "WITH") ==> AdvanceState(t) == With
    ensures HasPrefixFold(t, "SET") ==> AdvanceState(t) == Set
    ensures HasPrefixFold(t, "CAST") ==> AdvanceState(t) == Cast
    ensures HasPrefixFold(t, "BEFORE LOAD") ==> AdvanceState(t) == BeforeLoad
    ensures HasPrefixFold(t, "AFTER LOAD") ==> AdvanceState(t) == AfterLoad
    ensures HasPrefixFold(t, "INCLUDING") ==> AdvanceState(t) == Including
    ensures HasPrefixFold(t, "EXCLUDING") ==> AdvanceState(t) == Excluding
    ensures HasPrefixFold(t, "MATERIALIZE") ==> AdvanceState(t) == Materialize
    ensures HasPrefixFold(t, "TARGET SCHEMA") ==> AdvanceState(t) == TargetSchema
    ensures HasPrefixFold(t, "TARGET TABLE") ==> AdvanceState(t) == TargetTable
  {
    FirstIs(t, "WITH", 'W');
    FirstIs(t, "SET", 'S');
    FirstIs(t, "CAST", 'C');
    FirstIs(t, "BEFORE LOAD", 'B');
    FirstIs(t, "AFTER LOAD", 'A');
    FirstIs(t, "INCLUDING", 'I');
    FirstIs(t, "EXCLUDING", 'E');
    FirstIs(t, "MATERIALIZE", 'M');
    FirstIs(t, "TARGET SCHEMA", 'T');
    FirstIs(t, "TARGET TABLE", 'T');
    LetterAt(t, "TARGET TABLE", 7);
    LetterAt(t, "TARGET SCHEMA", 7);
    assert Upper("TARGET TABLE"[7]) == 'T' && Upper("TARGET SCHEMA"[7]) == 'S';
    assert SkipSpace(t) == t;
    hide Upper, SkipSpace;
    hide HasPrefixFold;
  }

  lemma FirstLetter(t: string, kw: string)
    requires t != "" && kw != ""
    ensures HasPrefixFold(t, kw) ==> Upper(t[0]) == Upper(kw[0])
  {
  }

  lemma FirstIs(t: string, kw: string, c: char)
    requires t != "" && kw != "" && kw[0] == c && Upper(c) == c
    ensures HasPrefixFold(t, kw) ==> Upper(t[0]) == c
  {
  }

  lemma LetterAt(t: string, kw: string, i: nat)
    requires i < |kw|
    ensures HasPrefixFold(t, kw) ==> i < |t| && Upper(t[i]) == Upper(kw[i])
  {
  }

  lemma ShorterFolds(t: string, kw: string, rest: string)
    requires HasPrefixFold(t, kw + rest)
    ensures HasPrefixFold(t, kw)
  {
    var long := kw + rest;
    assert forall i | 0 <= i < |kw| :: long[i] == kw[i];
  }

  /** Keyword and body of a printed section. */
  lemma PrintShape(c: Clause, tail: string)
    ensures PrintClause(c) + tail == Head(c) + More(c) + (Body(c) + tail)
    ensures PrintClause(c) + tail != "" && (PrintClause(c) + tail)[0] == Head(c)[0]
    ensures HasPrefixFold(PrintClause(c) + tail, Head(c) + More(c))
  {
    hide Body, HasPrefixFold;
    assert Head(c) != "";
    var kw, rest := Head(c) + More(c), Body(c) + tail;
    assert PrintClause(c) + tail == kw + rest;
    PrefixFolds(kw, rest);
  }

  lemma KeywordShapes()
    ensures "BEFORE" + " LOAD DO" == "BEFORE LOAD" + " DO"
    ensures "AFTER" + " LOAD DO" == "AFTER LOAD" + " DO"
    ensures "INCLUDING" + " ONLY TABLE NAMES MATCHING" == INCLUDING_KEYWORD
    ensures "EXCLUDING" + " TABLE NAMES MATCHING" == EXCLUDING_KEYWORD
    ensures "TARGET" + " TABLE" == "TARGET TABLE" && "TARGET" + " SCHEMA" == "TARGET SCHEMA"
  {
    ShortShapes();
    IncludingShape();
    ExcludingShape();
  }

  lemma ShortShapes()
    ensures "BEFORE" + " LOAD DO" == "BEFORE LOAD" + " DO" && "AFTER" + " LOAD DO" == "AFTER LOAD" + " DO"
    ensures "TARGET" + " TABLE" == "TARGET TABLE" && "TARGET" + " SCHEMA" == "TARGET SCHEMA"
  {
  }

  lemma IncludingShape()
    ensures "INCLUDING" + " ONLY TABLE NAMES MATCHING" == INCLUDING_KEYWORD
  {
  }

  lemma ExcludingShape()
    ensures "EXCLUDING" + " TABLE NAMES MATCHING" == EXCLUDING_KEYWORD
  {
  }

  lemma AdvanceToClause(c: Clause, tail: string)
    ensures AdvanceState(PrintClause(c) + tail) == StateOf(c)
  {
    var t := PrintClause(c) + tail;
    PrintShape(c, tail);
    KeywordShapes();
    hide PrintClause, AdvanceState, Body, HasPrefixFold;
    match c {
      case Befores(_) => ShorterFolds(t, "BEFORE LOAD", " DO");
      case Afters(_) => ShorterFolds(t, "AFTER LOAD", " DO");
      case Includes(_) => ShorterFolds(t, "INCLUDING", More(c));
      case Excludes(_) => ShorterFolds(t, "EXCLUDING", More(c));
      case Table(_) =>
      case Schema(_) =>
      case _ => assert Head(c) + More(c) == Head(c);
    }
    AdvanceByLetter(t);
  }

  // ----- One section -----

  lemma BodySeparate(c: Clause, tail: string)
    requires Separate(tail)
    ensures Separate(More(c) + (Body(c) + tail))
  {
    hide QuoteValue, Join, PrintStatements;
    if More(c) == "" {
      assert More(c) + (Body(c) + tail) == Body(c) + tail;
      if Body(c) == "" {
        assert Body(c) + tail == tail;
      } else {
        assert Body(c)[0] == ' ';
      }
    } else {
      assert More(c)[0] == ' ';
    }
  }

  lemma NewlineSkipped(t: string)
    requires t != "" && !IsBlank(t[0])
    ensures SkipSpace("\n" + t) == t
  {
    assert ("\n" + t)[1..] == t;
  }

  lemma HeadLetter(c: Clause)
    ensures Head(c) != "" && !IsBlank(Head(c)[0])
  {
  }

  lemma SectionAhead(c: Clause, tail: string)
    requires Separate(tail)
    ensures SectionStart(PrintClause(c) + tail)
    ensures SkipSpace("\n" + (PrintClause(c) + tail)) == PrintClause(c) + tail
  {
    hide *;
    var t, rest := PrintClause(c) + tail, More(c) + (Body(c) + tail);
    PrintShape(c, tail);
    HeadLetter(c);
    BodySeparate(c, tail);
    HeadIsSection(c, rest);
    assert t == Head(c) + rest;
    NewlineSkipped(t);
  }

  /** The sections that follow start on a new line. */
  lemma ClausesEndSection(cs: seq<Clause>)
    ensures EndsSection(PrintClauses(cs))
    ensures cs != [] ==> AdvanceState(PrintClauses(cs)) == StateOf(cs[0])
    ensures cs != [] ==> SkipSpace(PrintClauses(cs)) == PrintClause(cs[0]) + PrintClauses(cs[1..])
  {
    if cs != [] {
      var tail := PrintClauses(cs[1..]);
      assert Separate(tail);
      SectionAhead(cs[0], tail);
      AdvanceToClause(cs[0], tail);
      AdvanceSkips(PrintClauses(cs));
      hide PrintClause, SectionStart, AdvanceState, SkipSpace;
    }
  }

  lemma KeywordSkipped(t: string, kw: string, rest: string)
    requires kw != "" && !IsBlank(kw[0]) && t == kw + rest
    ensures SkipKeyword(t, kw) == There(rest)
  {
    assert t[0] == kw[0];
    PrefixFolds(kw, rest);
  }

  lemma SpacedSkips(body: string, tail: string)
    requires EndsSection(tail) && (body != "" ==> !IsBlank(body[0]))
    ensures SkipSpace(Spaced(body) + tail) == if body == "" then SkipSpace(tail) else body + tail
  {
    if body == "" {
      assert Spaced(body) + tail == tail;
    } else {
      var t := body + tail;
      assert Spaced(body) + tail == " " + t && t[0] == body[0];
      hide *;
      SpaceSkipped(t);
    }
  }

  lemma PrintedValueSection(t: string, kw: string, v: string, tail: string)
    requires kw != "" && !IsBlank(kw[0]) && NoDollars(v) && EndsSection(tail)
    requires t == kw + (Spaced(QuoteValue(v)) + tail)
    ensures ValueSection(t, kw) == Ok(v, tail)
  {
    KeywordSkipped(t, kw, Spaced(QuoteValue(v)) + tail);
    SpacedSkips(QuoteValue(v), tail);
    ValueRoundTrip(v, tail);
  }

  lemma JoinHead(items: seq<string>)
    requires OptionsOk(items)
    ensures Join(items, ", ") != "" ==> !IsBlank(Join(items, ", ")[0])
    ensures items != [] ==> Join(items, ", ") != "" && items[0] <= Join(items, ", ")
  {
    if items != [] {
      assert OptionOk(items[0]);
    }
  }

  lemma PrintedListSection(t: string, kw: string, items: seq<string>, tail: string, terminators: seq<string>)
    requires kw != "" && !IsBlank(kw[0]) && OptionsOk(items) && EndsSection(tail) && SectionWords(terminators)
    requires t == kw + (Spaced(Join(items, ", ")) + tail)
    ensures ListSection(t, kw, terminators) == Ok(items, SkipSpace(tail))
  {
    KeywordSkipped(t, kw, Spaced(Join(items, ", ")) + tail);
    PrintedItems(items, tail, terminators);
    hide SectionStart, OptionsOk, Options;
  }

  lemma PrintedItems(items: seq<string>, tail: string, terminators: seq<string>)
    requires OptionsOk(items) && EndsSection(tail) && SectionWords(terminators)
    ensures Options(SkipSpace(Spaced(Join(items, ", ")) + tail), terminators) == Ok(items, SkipSpace(tail))
  {
    JoinHead(items);
    SpacedSkips(Join(items, ", "), tail);
    OptionsRoundTrip(items, tail, terminators);
    OptionsSkip(tail, terminators);
    if items == [] {
      assert Join(items, ", ") + tail == tail;
    }
  }

  lemma PrintedSQLSection(t: string, kw: string, items: seq<string>, tail: string)
    requires kw != "" && !IsBlank(kw[0]) && StatementsOk(items)
    requires EndsSection(tail) && t == (kw + " DO") + (Spaced(Join(PrintStatements(items), ", ")) + tail)
    ensures SQLSection(t, kw) == Ok(items, SkipSpace(tail))
  {
    var body := Join(PrintStatements(items), ", ");
    KeywordSkipped(t, kw + " DO", Spaced(body) + tail);
    SQLHead(items);
    hide *;
    SpacedSkips(body, tail);
    StatementsRoundTrip(items, tail);
    StatementsSkip(tail);
    if items == [] {
      assert body + tail == tail;
    }
    DoSection(t, kw, Spaced(body) + tail);
  }

  lemma SQLHead(items: seq<string>)
    requires StatementsOk(items)
    ensures var body := Join(PrintStatements(items), ", ");
            (items == [] <==> body == "") && (body != "" ==> !IsBlank(body[0]))
  {
    if items != [] {
      assert PrintStatements(items)[0] == PrintStatement(items[0]);
      assert Join(PrintStatements(items), ", ")[0] == '$';
    }
  }

  lemma DoSection(t: string, kw: string, rest: string)
    requires SkipKeyword(t, kw + " DO") == There(rest)
    ensures SQLSection(t, kw) == Statements(SkipSpace(rest))
  {
    hide SkipKeyword, SkipSpace, Statements;
  }

  lemma PrintedViews(t: string, items: seq<string>, tail: string)
    requires ClauseOk(Views(items)) && EndsSection(tail)
    requires t == "MATERIALIZE" + (Spaced(Join(items, ", ")) + tail)
    ensures ViewSection(t) == Ok(items, SkipSpace(tail))
  {
    KeywordSkipped(t, "MATERIALIZE", Spaced(Join(items, ", ")) + tail);
    TerminatorLists();
    PrintedItems(items, tail, []);
    JoinHead(items);
    SpacedSkips(Join(items, ", "), tail);
    var r := SkipSpace(Spaced(Join(items, ", ")) + tail);
    NotAllViews(items, tail);
    assert !HasPrefixFold(r, "ALL VIEWS");
    hide HasPrefixFold, Options, Join;
  }

  lemma NotAllViews(items: seq<string>, tail: string)
    requires ClauseOk(Views(items)) && EndsSection(tail)
    ensures items == [] ==> !HasPrefixFold(SkipSpace(tail), "ALL VIEWS")
    ensures items != [] ==> !HasPrefixFold(Join(items, ", ") + tail, "ALL VIEWS")
  {
    ViewsOk(items);
    hide *;
    if items == [] {
      NothingAhead(tail);
    } else if |items| == 1 {
      OneJoined(items);
      SectionAfterAll(items[0], tail);
    } else {
      JoinShape(items, tail);
      CommaAfterAll(items[0], " " + (Join(items[1..], ", ") + tail));
      CommaJoined(items[0], Join(items[1..], ", ") + tail);
    }
  }

  lemma CommaJoined(o: string, rest: string)
    ensures o + ("," + (" " + rest)) == o + (", " + rest)
  {
  }

  lemma ViewsOk(items: seq<string>)
    requires ClauseOk(Views(items))
    ensures OptionsOk(items) && (items != [] ==> items[0] != "" && !HasPrefixFold(items[0], "ALL VIEWS"))
  {
    hide HasPrefixFold, Verbatim, SectionStart;
    assert items != [] ==> OptionOk(items[0]);
  }

  /** After the name ALL comes another name or another section, none of which completes ALL VIEWS. */
  lemma NothingAhead(tail: string)
    requires EndsSection(tail)
    ensures !HasPrefixFold(SkipSpace(tail), "ALL VIEWS")
  {
    if tail != "" {
      SectionNotAll(SkipSpace(tail));
    }
  }

  lemma CommaAfterAll(o: string, rest: string)
    requires o != "" && !HasPrefixFold(o, "ALL VIEWS")
    ensures !HasPrefixFold(o + ("," + rest), "ALL VIEWS")
  {
    var t := o + ("," + rest);
    assert t[|o|] == ',';
    if |o| < 9 {
      LetterAt(t, "ALL VIEWS", |o|);
    }
  }

  lemma TailLetters(tail: string)
    requires EndsSection(tail) && tail != ""
    ensures IsBlank(tail[0]) && (|tail| > 1 ==> Upper(tail[1]) != 'V')
  {
    if |tail| > 1 && !IsBlank(tail[1]) {
      assert SkipSpace(tail) == tail[1..];
      SectionLetters(tail[1..]);
    }
    hide SectionStart, EndsOption;
  }

  lemma SectionAfterAll(o: string, tail: string)
    requires o != "" && !HasPrefixFold(o, "ALL VIEWS") && EndsSection(tail)
    ensures !HasPrefixFold(o + tail, "ALL VIEWS")
  {
    var t := o + tail;
    if tail == "" {
      assert t == o;
    } else {
      TailLetters(tail);
      hide EndsSection;
      assert t[|o|] == tail[0] && (|tail| > 1 ==> t[|o| + 1] == tail[1]);
      LetterAt(t, "ALL VIEWS", 4);
      if |o| < 9 {
        LetterAt(t, "ALL VIEWS", |o|);
      }
    }
  }

  lemma SectionLetters(t: string)
    requires SectionStart(t)
    ensures t != "" && Upper(t[0]) in {'B', 'A', 'I', 'E', 'M', 'T', 'W', 'S', 'C'}
    ensures Upper(t[0]) == 'A' ==> |t| > 1 && Upper(t[1]) == 'F'
  {
  }

  lemma SectionNotAll(t: string)
    requires SectionStart(t)
    ensures !HasPrefixFold(t, "ALL VIEWS")
  {
    SectionLetters(t);
    LetterAt(t, "ALL VIEWS", 0);
    LetterAt(t, "ALL VIEWS", 1);
    hide HasPrefixFold, SectionStart;
  }

  lemma PrintedAllViews(t: string, tail: string)
    requires t == "MATERIALIZE" + (" ALL VIEWS" + tail)
    ensures ViewSection(t) == Ok(["*"], tail)
  {
    var r := "ALL VIEWS" + tail;
    assert t == "MATERIALIZE" + (" " + r) && !IsBlank("MATERIALIZE"[0]) && !IsBlank(r[0]);
    PrefixFolds("ALL VIEWS", tail);
    hide HasPrefixFold, SkipSpace, SkipKeyword;
    KeywordSkipped(t, "MATERIALIZE", " " + r);
    SpaceSkipped(r);
  }

  /** The section readers on a printed section. */
  lemma PrintedSection(c: Clause, tail: string)
    requires ClauseOk(c) && EndsSection(tail)
    ensures var t := PrintClause(c) + tail;
            && (c.Table? ==> ValueSection(t, "TARGET TABLE") == Ok(c.name, tail))
            && (c.Schema? ==> ValueSection(t, "TARGET SCHEMA") == Ok(c.name, tail))
            && (c == AllViews ==> ViewSection(t) == Ok(["*"], tail))
            && (!c.Table? && !c.Schema? && c != AllViews ==> Items(StateOf(c), t) == Ok(c.items, SkipSpace(tail)))
  {
    var t := PrintClause(c) + tail;
    KeywordShapes();
    PrintShape(c, tail);
    hide PrintClause, SectionStart, ValueSection, Items, ViewSection, OptionsOk, Join, HasPrefixFold;
    hide Spaced, QuoteValue, EndsSection;
    match c {
      case Table(name) => PrintedValueSection(t, "TARGET TABLE", name, tail);
      case Schema(name) => PrintedValueSection(t, "TARGET SCHEMA", name, tail);
      case AllViews => PrintedAllViews(t, tail);
      case _ => PrintedList(c, tail);
    }
  }

  lemma PrintedList(c: Clause, tail: string)
    requires ClauseOk(c) && EndsSection(tail) && !c.Table? && !c.Schema? && c != AllViews
    ensures Items(StateOf(c), PrintClause(c) + tail) == Ok(c.items, SkipSpace(tail))
  {
    var t := PrintClause(c) + tail;
    TerminatorLists();
    KeywordShapes();
    PrintShape(c, tail);
    hide PrintClause, SectionStart, ListSection, SQLSection, ViewSection, OptionsOk, Join, HasPrefixFold;
    hide SectionWords, Spaced, QuoteValue, EndsSection;
    match c {
      case Withs(items) => PrintedListSection(t, "WITH", items, tail, WITH_ENDS);
      case Sets(items) => PrintedListSection(t, "SET", items, tail, SET_ENDS);
      case Casts(items) => PrintedListSection(t, "CAST", items, tail, CAST_ENDS);
      case Befores(items) => PrintedSQLSection(t, "BEFORE LOAD", items, tail);
      case Afters(items) => PrintedSQLSection(t, "AFTER LOAD", items, tail);
      case Includes(items) => PrintedListSection(t, INCLUDING_KEYWORD, items, tail, TABLE_ENDS);
      case Excludes(items) => PrintedListSection(t, EXCLUDING_KEYWORD, items, tail, TABLE_ENDS);
      case Views(items) => PrintedViews(t, items, tail);
    }
  }

  /** One round of the parser over a printed section. */
  lemma ClauseStep(c: Clause, tail: string, cmd: LoadCommand) returns (rest: string)
    requires ClauseOk(c) && EndsSection(tail)
    ensures PrintClause(c) + tail != ""
    ensures rest == tail || rest == SkipSpace(tail)
    ensures Step(StateOf(c), PrintClause(c) + tail, cmd) == Ok(Next(AdvanceState(tail), Apply(cmd, c)), rest)
  {
    var t := PrintClause(c) + tail;
    PrintedSection(c, tail);
    PrintShape(c, tail);
    AdvanceSkips(tail);
    rest := if c.Table? || c.Schema? || c == AllViews then tail else SkipSpace(tail);
    if c.Table? || c.Schema? {
      TargetStep(t, c.name, tail, cmd);
      hide Step, ValueSection, AdvanceState, SetTable, PrintClause, ClauseOk, EndsSection, SkipSpace, HasPrefixFold;
    } else {
      ListStep(c, t, rest, cmd);
      hide Step, Items, AdvanceState, PrintClause, ClauseOk, EndsSection, SkipSpace, HasPrefixFold;
    }
  }

  lemma ListStep(c: Clause, t: string, rest: string, cmd: LoadCommand)
    requires t != "" && !c.Table? && !c.Schema?
    requires c == AllViews ==> ViewSection(t) == Ok(["*"], rest)
    requires c != AllViews ==> Items(StateOf(c), t) == Ok(c.items, rest)
    ensures Step(StateOf(c), t, cmd) == Ok(Next(AdvanceState(rest), Apply(cmd, c)), rest)
  {
    hide Step, AdvanceState, ViewSection, ListSection, SQLSection;
    SectionStep(StateOf(c), t, cmd);
  }

  lemma TargetStep(t: string, name: string, tail: string, cmd: LoadCommand)
    requires t != ""
    ensures ValueSection(t, "TARGET TABLE") == Ok(name, tail) ==>
              Step(TargetTable, t, cmd) == Ok(Next(AdvanceState(tail), SetTable(cmd, name)), tail)
    ensures ValueSection(t, "TARGET SCHEMA") == Ok(name, tail) ==>
              Step(TargetSchema, t, cmd) == Ok(Next(AdvanceState(tail), cmd.(targetSchema := name)), tail)
  {
    hide ValueSection, AdvanceState, SetTable;
  }

  lemma SectionStep(state: State, t: string, cmd: LoadCommand)
    requires t != "" && state in {With, Set, Cast, BeforeLoad, AfterLoad, Including, Excluding, Materialize}
    requires Items(state, t).Ok?
    ensures var p := Items(state, t);
            Step(state, t, cmd) == Ok(Next(AdvanceState(p.rest), ListOf(state, cmd, p.value)), p.rest)
  {
    hide Items, AdvanceState, ListOf;
  }

  lemma AdvanceSkips(t: string)
    ensures AdvanceState(SkipSpace(t)) == AdvanceState(t)
  {
    SkipSpaceTwice(t);
  }

  lemma LoopSkips(state: State, t: string, cmd: LoadCommand)
    ensures Loop(state, SkipSpace(t), cmd) == Loop(state, t, cmd)
  {
    SkipSpaceTwice(t);
  }

  // ----- All sections -----

  lemma {:induction false} ClausesRoundTrip(cs: seq<Clause>, cmd: LoadCommand)
    requires forall i | 0 <= i < |cs| :: ClauseOk(cs[i])
    ensures Loop(AdvanceState(PrintClauses(cs)), PrintClauses(cs), cmd) == Finish(ApplyAll(cmd, cs))
    decreases |cs|
  {
    var text := PrintClauses(cs);
    if cs == [] {
    } else {
      var c, tail := cs[0], PrintClauses(cs[1..]);
      ClausesEndSection(cs);
      ClausesEndSection(cs[1..]);
      hide Step, AdvanceState, PrintClause, Apply, ClauseOk, Finish, EndsSection, PrintClauses, SkipSpace;
      var rest := ClauseStep(c, tail, cmd);
      ClausesRoundTrip(cs[1..], Apply(cmd, c));
      LoopSkips(AdvanceState(tail), tail, Apply(cmd, c));
    }
  }

  // ----- The printed text needs no trimming -----

  predicate EndsDark(s: string) { s != "" && !IsSpace(s[|s| - 1]) }

  lemma SuffixDark(a: string, b: string)
    requires EndsDark(b)
    ensures EndsDark(a + b)
  {
  }

  lemma {:induction false} JoinDark(items: seq<string>)
    requires items != [] && forall i | 0 <= i < |items| :: EndsDark(items[i])
    ensures EndsDark(Join(items, ", "))
  {
    if |items| > 1 {
      JoinDark(items[1..]);
      SuffixDark(items[0] + ", ", Join(items[1..], ", "));
    }
  }

  lemma BodyDark(c: Clause)
    requires ClauseOk(c)
    ensures Body(c) == "" || EndsDark(Body(c))
  {
    match c {
      case Table(name) => QuoteDark(name);
      case Schema(name) => QuoteDark(name);
      case Befores(items) => StatementsDark(items);
      case Afters(items) => StatementsDark(items);
      case AllViews =>
      case _ => OptionsDark(c.items);
    }
  }

  lemma SpacedDark(s: string)
    requires s == "" || EndsDark(s)
    ensures Spaced(s) == "" || EndsDark(Spaced(s))
  {
    if s != "" {
      SuffixDark(" ", s);
    }
  }

  lemma QuoteDark(v: string)
    ensures EndsDark(QuoteValue(v)) && EndsDark(Spaced(QuoteValue(v)))
  {
    SuffixDark("'" + Doubled(v), "'");
    assert QuoteValue(v) == "'" + Doubled(v) + "'";
    SuffixDark(" ", QuoteValue(v));
  }

  lemma StatementsDark(sqls: seq<string>)
    ensures var body := Spaced(Join(PrintStatements(sqls), ", ")); body == "" || EndsDark(body)
  {
    var items := PrintStatements(sqls);
    forall i | 0 <= i < |items|
      ensures EndsDark(items[i])
    {
      assert items[i] == "$$" + sqls[i] + "$$";
    }
    if items != [] {
      JoinDark(items);
    }
    SpacedDark(Join(items, ", "));
  }

  lemma OptionsDark(items: seq<string>)
    requires OptionsOk(items)
    ensures var body := Spaced(Join(items, ", ")); body == "" || EndsDark(body)
  {
    forall i | 0 <= i < |items|
      ensures EndsDark(items[i])
    {
      assert OptionOk(items[i]);
    }
    if items != [] {
      JoinDark(items);
    }
    SpacedDark(Join(items, ", "));
  }

  lemma KeywordDark(c: Clause)
    ensures EndsDark(Head(c) + More(c))
  {
    if More(c) == "" {
      assert Head(c) + More(c) == Head(c);
    } else {
      SuffixDark(Head(c), More(c));
    }
  }

  lemma ClauseDark(c: Clause)
    requires ClauseOk(c)
    ensures EndsDark(PrintClause(c))
  {
    BodyDark(c);
    KeywordDark(c);
    JoinedDark(Head(c), More(c), Body(c));
    hide Body, Head, More, EndsDark;
  }

  lemma JoinedDark(a: string, b: string, c: string)
    requires EndsDark(a + b) && (c == "" || EndsDark(c))
    ensures EndsDark(a + (b + c))
  {
    assert a + (b + c) == a + b + c;
    if c == "" {
      assert a + b + c == a + b;
    } else {
      SuffixDark(a + b, c);
    }
  }

  lemma {:induction false} ClausesDark(cs: seq<Clause>)
    requires cs != [] && forall i | 0 <= i < |cs| :: ClauseOk(cs[i])
    ensures EndsDark(PrintClauses(cs))
  {
    var c, tail := cs[0], PrintClauses(cs[1..]);
    ClauseDark(c);
    hide PrintClause, ClauseOk;
    if |cs| == 1 {
      assert PrintClause(c) + tail == PrintClause(c);
    } else {
      ClausesDark(cs[1..]);
      SuffixDark(PrintClause(c), tail);
    }
    SuffixDark("\n", PrintClause(c) + tail);
  }

  // ----- The head of a command -----

  function AfterInto(target: string, tail: string): string {
    " " + (QuoteValue(target) + tail)
  }

  function AfterFrom(source: Source, target: string, tail: string): string {
    " " + (PrintSource(source) + ("\nINTO" + AfterInto(target, tail)))
  }

  lemma AfterIntoDark(target: string, tail: string)
    requires tail == "" || EndsDark(tail)
    ensures EndsDark(AfterInto(target, tail))
  {
    QuoteDark(target);
    hide QuoteValue;
    if tail == "" {
      assert QuoteValue(target) + tail == QuoteValue(target);
    } else {
      SuffixDark(QuoteValue(target), tail);
    }
    SuffixDark(" ", QuoteValue(target) + tail);
  }

  lemma AfterFromDark(source: Source, target: string, tail: string)
    requires tail == "" || EndsDark(tail)
    ensures EndsDark(AfterFrom(source, target, tail))
  {
    AfterIntoDark(target, tail);
    hide PrintSource, AfterInto;
    SuffixDark("\nINTO", AfterInto(target, tail));
    SuffixDark(PrintSource(source), "\nINTO" + AfterInto(target, tail));
    SuffixDark(" ", PrintSource(source) + ("\nINTO" + AfterInto(target, tail)));
  }

  lemma TrimmedText(head: string, rest: string)
    requires head != "" && !IsSpace(head[0]) && EndsDark(rest)
    ensures TrimSpace(head + rest) == head + rest
  {
    SuffixDark(head, rest);
    TrimSpaceIdempotent(head + rest);
  }

  lemma QuoteSkipped(v: string)
    requires v != "" && v[0] == '\''
    ensures SkipSpace(" " + v) == v
  {
    assert (" " + v)[1..] == v;
  }

  /** INTO takes the value after it for the URI of the target, whatever it is. */
  lemma IntoReads(t: string, rest: string, r: string, uri: string, after: string, cmd: LoadCommand)
    requires t != "" && SkipKeyword(t, "INTO") == There(rest) && SkipSpace(rest) == r && ReadValueOf(r) == Ok(uri, after)
    ensures Step(Into, t, cmd) == Ok(Next(AdvanceState(after), cmd.(targetURI := uri)), after)
  {
    if |r| > 11 {
      IntoTargetTableNeverTaken(r);
    }
    hide SkipKeyword, SkipSpace, ReadValueOf, AdvanceState, EqualFold;
  }

  lemma IntoStep(target: string, tail: string, cmd: LoadCommand)
    requires NoDollars(target) && (tail == "" || tail[0] != '\'')
    ensures Loop(Into, "\nINTO" + AfterInto(target, tail), cmd)
         == Loop(AdvanceState(tail), tail, cmd.(targetURI := target))
  {
    var t := "INTO" + AfterInto(target, tail);
    var v := QuoteValue(target) + tail;
    assert "\nINTO" + AfterInto(target, tail) == "\n" + t && t == "INTO" + (" " + v);
    assert t != "" && !IsBlank(t[0]) && v != "" && v[0] == '\'';
    hide *;
    NewlineSkipped(t);
    KeywordSkipped(t, "INTO", " " + v);
    QuoteSkipped(v);
    ValueRoundTrip(target, tail);
    IntoReads(t, " " + v, v, target, tail, cmd);
    LoopOnce(Into, "\n" + t, t, cmd, Next(AdvanceState(tail), cmd.(targetURI := target)), tail);
  }

  lemma LoopOnce(state: State, t0: string, t: string, cmd: LoadCommand, next: Next, rest: string)
    requires SkipSpace(t0) == t && t != "" && Step(state, t, cmd) == Ok(next, rest)
    ensures Loop(state, t0, cmd) == Loop(next.state, rest, next.cmd)
  {
    hide Step, SkipSpace;
  }

  /** The command after FROM. */
  function WithSource(source: Source): LoadCommand {
    match source
    case Database(uri) => EMPTY.(sourceURI := uri)
    case File(path, columns) => EMPTY.(kind := CSV, filePath := path, sourceColumns := columns)
  }

  lemma FromFile(path: string, columns: seq<string>, t: string, into: string, cmd: LoadCommand)
    requires SourceOk(File(path, columns)) && cmd == EMPTY.(kind := CSV)
    requires t == "FROM" + (" " + (PrintSource(File(path, columns)) + ("\nINTO" + into)))
    ensures FromSection(t, cmd)
         == Ok(WithSource(File(path, columns)), if columns == [] then "INTO" + into else "\nINTO" + into)
  {
    var tail := "\nINTO" + into;
    PrintFile(path, columns, tail);
    if columns == [] {
      assert tail == "\n" + ("INTO" + into);
      hide ValueSection, SkipSpace, QuoteValue, PrintSource;
      NewlineSkipped("INTO" + into);
      FromValue(path, tail, t);
      FileWithoutColumns(t, path, tail, cmd);
    } else {
      var list := "(" + (Join(PrintColumns(columns), ", ") + (")" + tail));
      ListAhead(columns, tail);
      hide ValueSection, SkipSpace, QuoteValue, ParenList, Join, PrintColumns, PrintSource;
      FromValue(path, " " + list, t);
      FileWithColumns(t, path, list, columns, tail, cmd);
    }
  }

  lemma PrintFile(path: string, columns: seq<string>, tail: string)
    ensures PrintSource(File(path, columns)) + tail
         == if columns == [] then QuoteValue(path) + tail
            else QuoteValue(path) + (" " + ("(" + (Join(PrintColumns(columns), ", ") + (")" + tail))))
  {
    hide QuoteValue, Join, PrintColumns;
    if columns == [] {
      assert QuoteValue(path) + "" == QuoteValue(path);
    } else {
      var list := Join(PrintColumns(columns), ", ");
      assert " (" + (list + ")") + tail == " " + ("(" + (list + (")" + tail)));
    }
  }

  lemma FileWithoutColumns(t: string, path: string, tail: string, cmd: LoadCommand)
    requires cmd.kind == CSV && ValueSection(t, "FROM") == Ok(path, tail)
    requires SkipSpace(tail) == "" || SkipSpace(tail)[0] != '('
    ensures FromSection(t, cmd) == Ok(cmd.(filePath := path), SkipSpace(tail))
  {
    hide ValueSection, SkipSpace;
  }

  lemma FileWithColumns(t: string, path: string, list: string, columns: seq<string>, tail: string, cmd: LoadCommand)
    requires cmd.kind == CSV && ValueSection(t, "FROM") == Ok(path, " " + list)
    requires SkipSpace(" " + list) == list && list != "" && list[0] == '(' && ParenList(list) == Ok(columns, tail)
    ensures FromSection(t, cmd) == Ok(cmd.(filePath := path, sourceColumns := columns), tail)
  {
    hide ValueSection, SkipSpace, ParenList;
  }

  lemma ListAhead(columns: seq<string>, tail: string)
    requires forall i | 0 <= i < |columns| :: NoDollars(columns[i])
    ensures var list := "(" + (Join(PrintColumns(columns), ", ") + (")" + tail));
            SkipSpace(" " + list) == list && ParenList(list) == Ok(columns, tail)
  {
    var list := "(" + (Join(PrintColumns(columns), ", ") + (")" + tail));
    assert (" " + list)[1..] == list;
    assert SkipSpace(list) == list;
    assert list[1..] == Join(PrintColumns(columns), ", ") + (")" + tail);
    ColumnsRoundTrip(columns, tail);
  }

  lemma FromValue(v: string, tail: string, t: string)
    requires NoDollars(v) && (tail == "" || tail[0] != '\'') && t == "FROM" + (" " + (QuoteValue(v) + tail))
    ensures ValueSection(t, "FROM") == Ok(v, tail)
  {
    var r := QuoteValue(v) + tail;
    KeywordSkipped(t, "FROM", " " + r);
    assert (" " + r)[1..] == r;
    assert SkipSpace(" " + r) == r;
    ValueRoundTrip(v, tail);
  }

  lemma FromStep(source: Source, target: string, tail: string, cmd: LoadCommand)
    requires SourceOk(source) && cmd == EMPTY.(kind := if source.Database? then MySQL else CSV)
    ensures Loop(From, "\nFROM" + AfterFrom(source, target, tail), cmd)
         == Loop(Into, "\nINTO" + AfterInto(target, tail), WithSource(source))
  {
    var into, from := AfterInto(target, tail), AfterFrom(source, target, tail);
    var t := "FROM" + from;
    FromText(source, target, tail);
    hide *;
    FromSectionOf(source, t, into, cmd);
    var rest := FromRest(source, into);
    NewlineSkipped("INTO" + into);
    FromStepOf(t, cmd, WithSource(source), rest);
    RestSkips(source, into);
    LoopSkips(Into, "\nINTO" + into, WithSource(source));
  }

  /** What is left after FROM; without columns the new line is skipped in the search for them. */
  function FromRest(source: Source, into: string): string {
    if source.File? && source.columns == [] then "INTO" + into else "\nINTO" + into
  }

  lemma RestSkips(source: Source, into: string)
    ensures FromRest(source, into) == "\nINTO" + into || FromRest(source, into) == SkipSpace("\nINTO" + into)
  {
    assert "\nINTO" + into == "\n" + ("INTO" + into);
    NewlineSkipped("INTO" + into);
    hide SkipSpace;
  }

  lemma FromText(source: Source, target: string, tail: string)
    ensures var t := "FROM" + AfterFrom(source, target, tail);
            && t != "" && "\nFROM" + AfterFrom(source, target, tail) == "\n" + t && SkipSpace("\n" + t) == t
            && t == "FROM" + (" " + (PrintSource(source) + ("\nINTO" + AfterInto(target, tail))))
    ensures ("INTO" + AfterInto(target, tail)) != "" && !IsBlank(("INTO" + AfterInto(target, tail))[0])
  {
    var t := "FROM" + AfterFrom(source, target, tail);
    hide PrintSource, AfterInto;
    assert "\nFROM" + AfterFrom(source, target, tail) == "\n" + t;
    NewlineSkipped(t);
  }

  lemma FromSectionOf(source: Source, t: string, into: string, cmd: LoadCommand)
    requires SourceOk(source) && cmd == EMPTY.(kind := if source.Database? then MySQL else CSV)
    requires t == "FROM" + (" " + (PrintSource(source) + ("\nINTO" + into)))
    ensures FromSection(t, cmd) == Ok(WithSource(source), FromRest(source, into))
  {
    match source {
      case Database(uri) =>
        assert PrintSource(source) == QuoteValue(uri);
        hide QuoteValue, ValueSection, PrintSource;
        FromValue(uri, "\nINTO" + into, t);
      case File(path, columns) =>
        FromFile(path, columns, t, into, cmd);
        hide FromSection;
    }
  }

  lemma FromStepOf(t: string, cmd: LoadCommand, next: LoadCommand, rest: string)
    requires t != "" && FromSection(t, cmd) == Ok(next, rest) && SkipSpace("\n" + t) == t
    ensures Loop(From, "\n" + t, cmd) == Loop(Into, rest, next)
  {
    hide FromSection, SkipSpace;
    LoopOnce(From, "\n" + t, t, cmd, Next(Into, next), rest);
  }

  lemma SpaceSkipped(t: string)
    requires t != "" && !IsBlank(t[0])
    ensures SkipSpace(" " + t) == t
  {
    assert (" " + t)[1..] == t;
  }

  lemma InitOf(t: string, rest: string)
    requires |t| >= 4 && t[4..] == rest && HasPrefixFold(t, "LOAD")
    ensures Step(Init, t, EMPTY) == Ok(Next(LoadType, EMPTY), rest)
    ensures TrimSpace(t) == t ==> Parse(t) == Loop(Init, t, EMPTY)
  {
    hide HasPrefixFold, TrimSpace, Loop;
  }

  lemma DatabaseOf(t: string, rest: string)
    requires |t| >= 8 && t[8..] == rest && HasPrefixFold(TrimSpace(t), "DATABASE")
    ensures Step(LoadType, t, EMPTY) == Ok(Next(From, EMPTY), rest)
  {
    hide HasPrefixFold, TrimSpace;
  }

  lemma FileOf(t: string, rest: string)
    requires |t| >= 3 && t[3..] == rest && HasPrefixFold(TrimSpace(t), "CSV")
    requires !HasPrefixFold(TrimSpace(t), "DATABASE")
    ensures Step(LoadType, t, EMPTY) == Ok(Next(From, EMPTY.(kind := CSV)), rest)
  {
    hide HasPrefixFold, TrimSpace;
  }

  lemma InitStep(rest: string)
    requires EndsDark(rest)
    ensures Parse("LOAD" + rest) == Loop(LoadType, rest, EMPTY)
  {
    var s := "LOAD" + rest;
    assert SkipSpace(s) == s && s != "";
    TrimmedText("LOAD", rest);
    PrefixFolds("LOAD", rest);
    hide *;
    InitOf(s, rest);
    LoopOnce(Init, s, s, EMPTY, Next(LoadType, EMPTY), rest);
  }

  lemma DatabaseStep(from: string)
    requires EndsDark(from)
    ensures Step(LoadType, "DATABASE" + from, EMPTY) == Ok(Next(From, EMPTY), from)
  {
    hide Step, HasPrefixFold, TrimSpace, EndsDark;
    TrimmedText("DATABASE", from);
    PrefixFolds("DATABASE", from);
    DatabaseOf("DATABASE" + from, from);
  }

  lemma FileStep(from: string)
    requires EndsDark(from)
    ensures Step(LoadType, "CSV" + from, EMPTY) == Ok(Next(From, EMPTY.(kind := CSV)), from)
  {
    hide Step, HasPrefixFold, TrimSpace, EndsDark;
    TrimmedText("CSV", from);
    PrefixFolds("CSV", from);
    FirstLetter("CSV" + from, "DATABASE");
    FileOf("CSV" + from, from);
  }

  lemma StartStep(source: Source, from: string)
    requires EndsDark(from)
    ensures var kind := if source.Database? then " DATABASE" else " CSV";
            Parse("LOAD" + (kind + from))
            == Loop(From, from, EMPTY.(kind := if source.Database? then MySQL else CSV))
  {
    var kind, word := if source.Database? then " DATABASE" else " CSV", if source.Database? then "DATABASE" else "CSV";
    var t1 := word + from;
    assert kind + from == " " + t1;
    SpaceSkipped(t1);
    SuffixDark(kind, from);
    InitStep(kind + from);
    DatabaseStep(from);
    FileStep(from);
    hide Step, SkipSpace, EndsDark, Parse;
    LoopOnce(LoadType, kind + from, t1, EMPTY, Next(From, EMPTY.(kind := if source.Database? then MySQL else CSV)), from);
  }

  /** Everything up to the sections. */
  function PrintHead(source: Source, target: string, tail: string): string {
    "LOAD" + ((if source.Database? then " DATABASE" else " CSV") + ("\nFROM" + AfterFrom(source, target, tail)))
  }

  /** The head of a command is read back, whatever follows it. */
  lemma HeadRoundTrip(source: Source, target: string, tail: string)
    requires SourceOk(source) && NoDollars(target)
    requires tail == "" || (tail[0] != '\'' && EndsDark(tail))
    ensures Parse(PrintHead(source, target, tail)) == Loop(AdvanceState(tail), tail, Base(source, target))
  {
    var from := "\nFROM" + AfterFrom(source, target, tail);
    AfterFromDark(source, target, tail);
    SuffixDark("\nFROM", AfterFrom(source, target, tail));
    hide Parse, Loop, AfterFrom, AfterInto, EndsDark, SourceOk, AdvanceState;
    StartStep(source, from);
    FromStep(source, target, tail, EMPTY.(kind := if source.Database? then MySQL else CSV));
    IntoStep(target, tail, WithSource(source));
  }

  /**
   Parsing a printed command gives the command: its source, its target, and its sections applied in
   the order in which they stand.
   */
  lemma LoadRoundTrip(source: Source, target: string, cs: seq<Clause>)
    requires SourceOk(source) && NoDollars(target) && forall i | 0 <= i < |cs| :: ClauseOk(cs[i])
    ensures Parse(PrintLoad(source, target, cs)) == Finish(ApplyAll(Base(source, target), cs))
  {
    if cs != [] {
      ClausesDark(cs);
    }
    hide ClauseOk, EndsDark, PrintSource, QuoteValue, Parse, Loop, AdvanceState, Finish, SourceOk;
    HeadRoundTrip(source, target, PrintClauses(cs));
    ClausesRoundTrip(cs, Base(source, target));
  }
}
