/**
 The layout of a LOAD command makes no difference: keywords in any case, sections on one line or on many,
 values with quotes or without, lists with commas or line ends, EXECUTE for DO (internal/configfile/parser.go).
 */
module LoadLayout {
  import opened Text
  import opened LoadReaders
  import opened LoadParser
  import opened LoadPrinter
  import opened LoadRoundTrip

  // ----- Commands as they may be written -----

  predicate Blanks(g: string) {
    forall i | 0 <= i < |g| :: g[i] in {' ', '\t', '\n', '\r'}
  }

  /** The keyword in capital and small letters, mixed at will. */
  predicate Spells(word: string, kw: string) {
    |word| == |kw| && forall i | 0 <= i < |kw| :: CaseOf(word[i], kw[i])
  }

  /** A value in quotes, as a plain word, or as an expression between slashes. */
  predicate WritesValue(text: string, v: string) {
    || (NoDollars(v) && text == QuoteValue(v))
    || (text == v && v != "" && v[0] != '\'' && v[0] != '~' && PlainWord(v))
    || (text == v && |v| >= 3 && v[..2] == "~/" && v[|v| - 1] == '/' && '/' !in v[2..|v| - 1])
  }

  predicate PlainWord(v: string) {
    forall i | 0 <= i < |v| :: !IsSpace(v[i]) && v[i] !in {',', ';', ')'}
  }

  /** What may stand between two items: white space and commas. */
  predicate Separators(sep: string) {
    forall i | 0 <= i < |sep| :: sep[i] in {' ', '\t', '\n', '\r', ','}
  }

  /** Options need a comma or a line end between them. */
  predicate Breaks(sep: string) { ',' in sep || '\n' in sep || '\r' in sep }

  /** The items in order with separators between them, which must be breaks or may be anything. */
  predicate WritesList(text: string, items: seq<string>, breaks: bool)
    decreases |items|
  {
    if items == [] then text == ""
    else if |items| == 1 then text == items[0]
    else
      items[0] <= text
      && exists k | |items[0]| <= k <= |text| ::
           Separates(text, |items[0]|, k, breaks) && WritesList(text[k..], items[1..], breaks)
  }

  predicate Separates(text: string, i: nat, k: nat, breaks: bool)
    requires i <= k <= |text|
  {
    Separators(text[i..k]) && (breaks ==> Breaks(text[i..k]))
  }

  /** A section: the white space before it, its keyword and what follows; SQL stands after DO or EXECUTE. */
  datatype Written = Written(gap: string, word: string, execute: bool, text: string, clause: Clause)

  function Keyword(c: Clause, execute: bool): string {
    match c
    case Table(_) => "TARGET TABLE"
    case Schema(_) => "TARGET SCHEMA"
    case Withs(_) => "WITH"
    case Sets(_) => "SET"
    case Casts(_) => "CAST"
    case Befores(_) => if execute then "BEFORE LOAD EXECUTE" else "BEFORE LOAD DO"
    case Afters(_) => if execute then "AFTER LOAD EXECUTE" else "AFTER LOAD DO"
    case Includes(_) => INCLUDING_KEYWORD
    case Excludes(_) => EXCLUDING_KEYWORD
    case AllViews => "MATERIALIZE"
    case Views(_) => "MATERIALIZE"
  }

  predicate NewLine(g: string) { '\n' in g || '\r' in g }

  /** Sections are set apart by white space; SET must start a line. */
  predicate WrittenOk(w: Written) {
    && ClauseOk(w.clause) && w.gap != "" && Blanks(w.gap) && (w.clause.Sets? ==> NewLine(w.gap))
    && Spells(w.word, Keyword(w.clause, w.execute)) && BodyOk(w)
  }

  predicate BodyOk(w: Written) {
    match w.clause
    case Table(name) => WritesValue(w.text, name)
    case Schema(name) => WritesValue(w.text, name)
    case AllViews => Spells(w.text, "ALL VIEWS")
    case Befores(items) => WritesList(w.text, PrintStatements(items), false)
    case Afters(items) => WritesList(w.text, PrintStatements(items), false)
    case _ => WritesList(w.text, w.clause.items, true)
  }

  function Clauses(ws: seq<Written>): seq<Clause> {
    seq(|ws|, i requires 0 <= i < |ws| => ws[i].clause)
  }

  function WriteSections(ws: seq<Written>): string {
    if ws == [] then ""
    else ws[0].gap + (ws[0].word + (Spaced(ws[0].text) + WriteSections(ws[1..])))
  }

  /** The columns of a file, with separators before, between and after them. */
  predicate WritesColumns(text: string, columns: seq<string>)
    decreases |columns|
  {
    if columns == [] then Separators(text)
    else exists i, j | 0 <= i <= j <= |text| :: ColumnAt(text, i, j, columns[0]) && WritesColumns(text[j..], columns[1..])
  }

  predicate ColumnAt(text: string, i: nat, j: nat, column: string)
    requires i <= j <= |text|
  {
    && Separators(text[..i]) && WritesValue(text[i..j], column)
    && (text[j..] == "" || text[j] in {' ', '\t', '\n', '\r', ','})
  }

  /**
   The text before the sections: its words, the source and the target as they are written, and the white space
   between them.
   */
  datatype Opening = Opening(load: string, afterLoad: string, kind: string, afterKind: string, from: string,
                             afterFrom: string, source: string, beforeList: string, list: string,
                             beforeInto: string, into: string, afterInto: string, target: string)

  predicate OpeningOk(o: Opening, source: Source, target: string) {
    && Spells(o.load, "LOAD") && Spells(o.kind, if source.Database? then "DATABASE" else "CSV")
    && Spells(o.from, "FROM") && Spells(o.into, "INTO") && o.beforeInto != "" && o.beforeList != ""
    && Blanks(o.afterLoad) && Blanks(o.afterKind) && Blanks(o.afterFrom) && Blanks(o.beforeList)
    && Blanks(o.beforeInto) && Blanks(o.afterInto)
    && WritesValue(o.source, if source.Database? then source.uri else source.path)
    && (source.File? && source.columns != [] ==> WritesColumns(o.list, source.columns))
    && WritesValue(o.target, target)
  }

  function WriteInto(o: Opening, tail: string): string {
    o.into + (o.afterInto + (o.target + tail))
  }

  /** The source, and what follows it. */
  function WriteSource(o: Opening, source: Source, after: string): string {
    o.source
    + if source.Database? || source.columns == [] then after else o.beforeList + ("(" + (o.list + (")" + after)))
  }

  function WriteFrom(o: Opening, source: Source, into: string): string {
    o.from + (o.afterFrom + WriteSource(o, source, o.beforeInto + into))
  }

  function Write(o: Opening, source: Source, ws: seq<Written>): string {
    var from := WriteFrom(o, source, WriteInto(o, WriteSections(ws)));
    o.load + (o.afterLoad + (o.kind + (o.afterKind + from)))
  }

  // ----- Words and white space -----

  lemma {:induction false} BlanksSkipped(g: string, t: string)
    requires Blanks(g)
    ensures SkipSpace(g + t) == SkipSpace(t)
  {
    if g == "" {
      assert g + t == t;
    } else {
      assert (g + t)[1..] == g[1..] + t;
      BlanksSkipped(g[1..], t);
    }
  }

  lemma SpelledSkipped(word: string, kw: string, rest: string)
    requires Spells(word, kw) && kw != "" && !IsBlank(kw[0])
    ensures SkipKeyword(word + rest, kw) == There(rest)
    ensures HasPrefixFold(word + rest, kw)
    ensures word + rest != "" && !IsBlank((word + rest)[0]) && SkipSpace(word + rest) == word + rest
  {
    var t := word + rest;
    FoldIsCase(t, kw);
    assert t[0] == word[0] && CaseOf(word[0], kw[0]);
    assert t[|kw|..] == rest;
  }

  /** A shorter keyword at the front, up to a space or the end. */
  lemma SpelledWord(word: string, kw: string, short: string, rest: string)
    requires Spells(word, kw) && short <= kw && (|short| < |kw| ==> kw[|short|] == ' ')
    requires rest == "" || IsBlank(rest[0])
    ensures HasKeyword(word + rest, short)
  {
    var t := word + rest;
    FoldIsCase(t, short);
    if |short| < |kw| {
      assert t[|short|] == word[|short|];
    }
  }

  /** The words of the keyword after the first. */
  function Rest(c: Clause, execute: bool): string {
    if IsSQL(c) && execute then " LOAD EXECUTE" else More(c)
  }

  lemma KeywordIs(c: Clause, execute: bool)
    ensures Keyword(c, execute) == Head(c) + Rest(c, execute)
  {
    if IsSQL(c) && execute {
      assert "BEFORE" + " LOAD EXECUTE" == "BEFORE LOAD EXECUTE" && "AFTER" + " LOAD EXECUTE" == "AFTER LOAD EXECUTE";
    } else {
      PrintedKeyword(c);
      assert Keyword(c, execute) == Keyword(c, false);
    }
  }

  lemma RestFacts(c: Clause, execute: bool)
    ensures Rest(c, execute) != "" ==> Rest(c, execute)[0] == ' '
  {
  }

  lemma KeywordFacts(c: Clause, execute: bool)
    ensures var kw, head := Keyword(c, execute), Head(c);
            kw != "" && !IsBlank(kw[0]) && head <= kw && (|head| < |kw| ==> kw[|head|] == ' ')
  {
    hide Keyword, Head, Rest;
    KeywordIs(c, execute);
    HeadLetter(c);
    RestFacts(c, execute);
  }

  lemma HeadSpelled(w: Written, rest: string)
    requires WrittenOk(w) && (rest == "" || IsBlank(rest[0]))
    ensures SectionStart(w.word + rest) && (!w.clause.Sets? ==> MidSection(w.word + rest))
  {
    hide *;
    WordSpells(w);
    KeywordFacts(w.clause, w.execute);
    SpelledWord(w.word, Keyword(w.clause, w.execute), Head(w.clause), rest);
    HeadAhead(w.clause, w.word + rest);
  }

  lemma WordSpells(w: Written)
    requires WrittenOk(w)
    ensures Spells(w.word, Keyword(w.clause, w.execute))
  {
    hide Spells;
  }

  lemma HeadAhead(c: Clause, t: string)
    requires HasKeyword(t, Head(c))
    ensures SectionStart(t) && (!c.Sets? ==> MidSection(t))
  {
    hide HasKeyword;
  }

  lemma TextApart(text: string, tail: string)
    requires tail == "" || IsBlank(tail[0])
    ensures Spaced(text) + tail == "" || IsBlank((Spaced(text) + tail)[0])
  {
    if text == "" {
      assert Spaced(text) + tail == tail;
    }
  }

  lemma {:induction false} GapOfBlanks(g: string, t: string)
    requires Blanks(g) && (t == "" || !IsBlank(t[0]))
    ensures var u := (g + t)[|Gap(g + t)|..];
            if NewLine(g) then u != "" && (u[0] == '\n' || u[0] == '\r') else Gap(g + t) == g && u == t
  {
    if g == "" {
      assert g + t == t;
    } else {
      assert (g + t)[0] == g[0] && (g + t)[1..] == g[1..] + t;
      if g[0] == ' ' || g[0] == '\t' {
        GapOfBlanks(g[1..], t);
        assert g == [g[0]] + g[1..];
        assert (g + t)[|Gap(g + t)|..] == (g[1..] + t)[|Gap(g[1..] + t)|..];
        assert NewLine(g) <==> NewLine(g[1..]);
      }
    }
  }

  predicate AllWritten(ws: seq<Written>) { forall i | 0 <= i < |ws| :: WrittenOk(ws[i]) }

  lemma WrittenParts(ws: seq<Written>)
    requires AllWritten(ws) && ws != []
    ensures WrittenOk(ws[0]) && AllWritten(ws[1..])
  {
    hide WrittenOk;
  }

  /** What starts the text of the sections, and what the parser expects there. */
  lemma {:induction false} SectionsAhead(ws: seq<Written>)
    requires AllWritten(ws)
    ensures EndsSection(WriteSections(ws))
    ensures ws != [] ==> SkipSpace(WriteSections(ws)) == ws[0].word + (Spaced(ws[0].text) + WriteSections(ws[1..]))
    ensures ws != [] ==> AdvanceState(WriteSections(ws)) == StateOf(ws[0].clause)
    decreases |ws|
  {
    if ws == [] {
      assert EndsSection("");
    } else {
      hide *;
      var w, tail := ws[0], WriteSections(ws[1..]);
      var t := w.word + (Spaced(w.text) + tail);
      WrittenParts(ws);
      SectionsAhead(ws[1..]);
      TailBlank(WriteSections(ws[1..]));
      WriteFirst(ws);
      WordSpells(w);
      KeywordFacts(w.clause, w.execute);
      SpelledSkipped(w.word, Keyword(w.clause, w.execute), Spaced(w.text) + tail);
      AdvanceSpelled(w, Spaced(w.text) + tail);
      TextApart(w.text, tail);
      HeadSpelled(w, Spaced(w.text) + tail);
      GapEnds(w, t);
      AdvanceSkips(w.gap + t);
    }
  }

  lemma TailBlank(tail: string)
    requires EndsSection(tail)
    ensures tail == "" || IsBlank(tail[0])
  {
  }

  lemma WriteFirst(ws: seq<Written>)
    requires ws != []
    ensures WriteSections(ws) == ws[0].gap + (ws[0].word + (Spaced(ws[0].text) + WriteSections(ws[1..])))
  {
  }

  lemma GapEnds(w: Written, t: string)
    requires WrittenOk(w) && t != "" && !IsBlank(t[0]) && SectionStart(t) && (!w.clause.Sets? ==> MidSection(t))
    ensures SkipSpace(w.gap + t) == t && EndsSection(w.gap + t)
  {
    hide SectionStart, MidSection, ClauseOk;
    BlanksSkipped(w.gap, t);
    GapOfBlanks(w.gap, t);
    assert (w.gap + t)[0] == w.gap[0];
  }

  /** The part of the keyword by which the parser knows the section. */
  function KnownBy(c: Clause): string {
    match c
    case Befores(_) => "BEFORE LOAD"
    case Afters(_) => "AFTER LOAD"
    case Includes(_) => "INCLUDING"
    case Excludes(_) => "EXCLUDING"
    case _ => Keyword(c, false)
  }

  lemma KnownByFacts(c: Clause, execute: bool)
    ensures KnownBy(c) <= Keyword(c, execute)
  {
  }

  lemma AdvanceKnown(c: Clause, t: string)
    requires t != "" && !IsBlank(t[0]) && HasPrefixFold(t, KnownBy(c))
    ensures AdvanceState(t) == StateOf(c)
  {
    AdvanceByLetter(t);
    hide HasPrefixFold, AdvanceState, IsBlank;
  }

  lemma SpelledPrefix(word: string, kw: string, short: string, rest: string)
    requires Spells(word, kw) && short <= kw
    ensures HasPrefixFold(word + rest, short)
  {
    FoldIsCase(word + rest, short);
  }

  lemma AdvanceSpelled(w: Written, rest: string)
    requires Spells(w.word, Keyword(w.clause, w.execute))
    ensures AdvanceState(w.word + rest) == StateOf(w.clause)
  {
    hide *;
    var kw := Keyword(w.clause, w.execute);
    KeywordFacts(w.clause, w.execute);
    KnownByFacts(w.clause, w.execute);
    SpelledSkipped(w.word, kw, rest);
    SpelledPrefix(w.word, kw, KnownBy(w.clause), rest);
    AdvanceKnown(w.clause, w.word + rest);
  }

  // ----- One section -----

  lemma SameSQL(t: string, u: string, kw: string, rest: string)
    requires SkipKeyword(u, kw + " DO") == There(rest)
    requires || SkipKeyword(t, kw + " DO") == There(rest)
             || (SkipKeyword(t, kw + " DO") == NotThere && SkipKeyword(t, kw + " EXECUTE") == There(rest))
    ensures SQLSection(t, kw) == SQLSection(u, kw)
  {
    hide SkipKeyword, SkipSpace, Statements;
  }

  predicate IsSQL(c: Clause) { c.Befores? || c.Afters? }

  function SQLWords(c: Clause): string { if c.Befores? then "BEFORE LOAD" else "AFTER LOAD" }

  lemma SQLKeyword(c: Clause, execute: bool)
    requires IsSQL(c)
    ensures Keyword(c, execute) == SQLWords(c) + if execute then " EXECUTE" else " DO"
  {
    SQLKeywords();
  }

  /** DO and EXECUTE are told apart by their first letter. */
  lemma ExecuteIsNotDo(w: Written, rest: string)
    requires w.execute && IsSQL(w.clause) && Spells(w.word, Keyword(w.clause, true))
    ensures SkipKeyword(w.word + rest, SQLWords(w.clause) + " DO") == NotThere
  {
    var t, kw := w.word + rest, SQLWords(w.clause) + " DO";
    var n := |SQLWords(w.clause)| + 1;
    KeywordFacts(w.clause, true);
    SpelledSkipped(w.word, Keyword(w.clause, true), rest);
    SQLKeyword(w.clause, true);
    assert kw[n] == 'D' && Keyword(w.clause, true)[n] == 'E';
    assert t[n] == w.word[n] && CaseOf(t[n], 'E');
    LetterAt(t, kw, n);
    hide HasPrefixFold;
  }

  lemma SQLAlike(w: Written, rest: string)
    requires IsSQL(w.clause) && Spells(w.word, Keyword(w.clause, w.execute))
    ensures Items(StateOf(w.clause), w.word + rest)
         == Items(StateOf(w.clause), Keyword(w.clause, false) + rest)
  {
    hide *;
    var kw := Keyword(w.clause, false);
    SpellsItself(kw);
    KeywordFacts(w.clause, w.execute);
    KeywordFacts(w.clause, false);
    SpelledSkipped(w.word, Keyword(w.clause, w.execute), rest);
    SpelledSkipped(kw, kw, rest);
    SQLKeyword(w.clause, w.execute);
    SQLKeyword(w.clause, false);
    if w.execute {
      ExecuteIsNotDo(w, rest);
    }
    SQLItems(w.clause, w.word + rest);
    SQLItems(w.clause, kw + rest);
    SameSQL(w.word + rest, kw + rest, SQLWords(w.clause), rest);
  }

  lemma SQLItems(c: Clause, t: string)
    requires IsSQL(c)
    ensures Items(StateOf(c), t) == SQLSection(t, SQLWords(c))
  {
    hide SQLSection;
  }

  lemma SQLKeywords()
    ensures "BEFORE LOAD" + " DO" == "BEFORE LOAD DO" && "BEFORE LOAD" + " EXECUTE" == "BEFORE LOAD EXECUTE"
    ensures "AFTER LOAD" + " DO" == "AFTER LOAD DO" && "AFTER LOAD" + " EXECUTE" == "AFTER LOAD EXECUTE"
  {
  }

  /** The reader of a section that is no SQL. */
  function Reader(c: Clause, t: string): Parsed<seq<string>> {
    match c
    case Withs(_) => ListSection(t, Keyword(c, false), WITH_ENDS)
    case Sets(_) => ListSection(t, Keyword(c, false), SET_ENDS)
    case Casts(_) => ListSection(t, Keyword(c, false), CAST_ENDS)
    case AllViews => ViewSection(t)
    case Views(_) => ViewSection(t)
    case _ => ListSection(t, Keyword(c, false), TABLE_ENDS)
  }

  lemma ItemsByKeyword(c: Clause, t: string)
    requires !IsSQL(c) && !c.Table? && !c.Schema?
    ensures Items(StateOf(c), t) == Reader(c, t)
  {
    hide ListSection, ViewSection;
  }

  lemma SpellsItself(kw: string)
    ensures Spells(kw, kw)
  {
  }

  lemma PrintedKeyword(c: Clause)
    ensures Head(c) + More(c) == Keyword(c, false)
  {
    KeywordShapes();
    SQLKeywords();
  }

  // ----- Values and lists -----

  lemma {:induction false} PlainRead(v: string, tail: string)
    requires (forall i | 0 <= i < |v| :: !EndsWord(v[i])) && (tail == "" || EndsWord(tail[0]))
    ensures Word(v + tail) == (v, tail)
  {
    if v == "" {
      assert v + tail == tail;
    } else {
      assert (v + tail)[1..] == v[1..] + tail;
      PlainRead(v[1..], tail);
      assert [v[0]] + v[1..] == v;
    }
  }

  lemma {:induction false} SlashRead(p: string, tail: string)
    requires '/' !in p
    ensures ToSlash(p + ("/" + tail)) == (p, "/" + tail)
  {
    if p == "" {
      assert p + ("/" + tail) == "/" + tail;
    } else {
      assert p[0] in p && (p + ("/" + tail))[1..] == p[1..] + ("/" + tail);
      SlashRead(p[1..], tail);
      assert [p[0]] + p[1..] == p;
    }
  }

  lemma ValueRead(text: string, v: string, tail: string)
    requires WritesValue(text, v) && (tail == "" || EndsWord(tail[0]))
    ensures text != "" && !IsBlank(text[0]) && text[0] !in {',', ';', ')'}
    ensures ReadValueOf(text + tail) == Ok(v, tail)
  {
    hide ReadValueOf, PlainWord, EndsWord, QuoteValue, NoDollars;
    if NoDollars(v) && text == QuoteValue(v) {
      QuotedRead(v, tail);
    } else if v[0] != '~' {
      WordRead(v, tail);
    } else {
      ExpressionRead(v, tail);
    }
  }

  lemma QuotedRead(v: string, tail: string)
    requires NoDollars(v) && (tail == "" || EndsWord(tail[0]))
    ensures var text := QuoteValue(v);
            text != "" && text[0] == '\'' && ReadValueOf(text + tail) == Ok(v, tail)
  {
    ValueRoundTrip(v, tail);
    hide ReadValueOf, NoDollars;
  }

  lemma WordRead(v: string, tail: string)
    requires v != "" && v[0] != '\'' && v[0] != '~' && PlainWord(v) && (tail == "" || EndsWord(tail[0]))
    ensures !IsBlank(v[0]) && v[0] !in {',', ';', ')'} && ReadValueOf(v + tail) == Ok(v, tail)
  {
    assert forall i | 0 <= i < |v| :: !EndsWord(v[i]);
    PlainRead(v, tail);
    hide PlainWord;
    ValueCases(v + tail);
    hide ReadValueOf, Word;
    assert (v + tail)[0] == v[0] && SkipSpace(v + tail) == v + tail;
  }

  lemma ExpressionRead(v: string, tail: string)
    requires |v| >= 3 && v[..2] == "~/" && v[|v| - 1] == '/' && '/' !in v[2..|v| - 1]
    ensures v[0] == '~' && ReadValueOf(v + tail) == Ok(v, tail)
  {
    var p, t := v[2..|v| - 1], v + tail;
    assert v[..2][0] == '~' && v[..2][1] == '/';
    assert SkipSpace(t) == t && t[2..] == p + ("/" + tail) && v == "~/" + p + "/";
    assert ("/" + tail)[1..] == tail;
    SlashRead(p, tail);
    ValueCases(t);
    hide ReadValueOf, ToSlash, SkipSpace;
  }

  lemma WrittenValueSection(word: string, kw: string, text: string, v: string, tail: string)
    requires Spells(word, kw) && kw != "" && !IsBlank(kw[0]) && WritesValue(text, v) && EndsSection(tail)
    ensures ValueSection(word + (Spaced(text) + tail), kw) == Ok(v, tail)
  {
    TailBlank(tail);
    SpelledSkipped(word, kw, Spaced(text) + tail);
    ValueRead(text, v, tail);
    SpacedSkips(text, tail);
    hide Spells, WritesValue, SkipKeyword, ReadValueOf, EndsSection, Spaced, SkipSpace, HasPrefixFold;
  }

  lemma {:induction false} SeparatorsRead(sep: string, rest: string, ends: seq<string>)
    requires Separators(sep)
    ensures Options(sep + rest, ends) == Options(rest, ends)
  {
    if sep == "" {
      assert sep + rest == rest;
    } else {
      var t := sep + rest;
      assert t[1..] == sep[1..] + rest;
      SeparatorsRead(sep[1..], rest, ends);
      if sep[0] == ',' {
        assert Options(t, ends) == Options(t[1..], ends);
      } else {
        assert SkipSpace(t) == SkipSpace(t[1..]);
        OptionsSkip(t, ends);
        OptionsSkip(t[1..], ends);
      }
    }
  }

  /** The part of the separators that is left after an option: without spaces at the front and a comma. */
  lemma {:induction false} SeparatorGap(sep: string, rest: string) returns (k: nat)
    requires Separators(sep) && Breaks(sep)
    ensures k < |sep| && Gap(sep + rest) == sep[..k] && sep[k] != ' ' && sep[k] != '\t'
  {
    var t := sep + rest;
    assert t[0] == sep[0] && t[1..] == sep[1..] + rest;
    k := 0;
    if sep[0] == ' ' || sep[0] == '\t' {
      assert sep == [sep[0]] + sep[1..];
      var j := SeparatorGap(sep[1..], rest);
      k := j + 1;
      hide Separators, Breaks;
      assert Gap(t) == t[..1] + Gap(t[1..]);
      assert sep[..k] == sep[..1] + sep[1..][..j];
    }
  }

  /** After an option the text goes on with what is left of the separators. */
  lemma SeparatorEnds(sep: string, rest: string)
    requires Separators(sep) && Breaks(sep)
    ensures EndsOption(sep + rest)
    ensures exists k | 0 <= k <= |sep| :: AfterOption(sep + rest) == sep[k..] + rest
  {
    var t := sep + rest;
    var k := SeparatorGap(sep, rest);
    hide Gap;
    var u := t[|Gap(t)|..];
    assert u == sep[k..] + rest && u[0] == sep[k];
    if sep[k] == ',' {
      assert u[1..] == sep[k + 1..] + rest;
    }
  }

  lemma SuffixSeparates(sep: string, k: nat)
    requires Separators(sep) && k <= |sep|
    ensures Separators(sep[k..])
  {
  }

  lemma OptionThen(o: string, sep: string, rest: string, ends: seq<string>)
    requires OptionOk(o) && SectionWords(ends) && Separators(sep) && Breaks(sep)
    ensures Options(o + (sep + rest), ends) == Prepend([o], Options(rest, ends))
  {
    SeparatorEnds(sep, rest);
    var k :| 0 <= k <= |sep| && AfterOption(sep + rest) == sep[k..] + rest;
    hide *;
    SuffixSeparates(sep, k);
    OneOption(o, sep + rest, ends);
    SeparatorsRead(sep[k..], rest, ends);
  }

  lemma ListParts(text: string, items: seq<string>, breaks: bool) returns (sep: string, rest: string)
    requires WritesList(text, items, breaks) && |items| > 1
    ensures text == items[0] + (sep + rest) && WritesList(rest, items[1..], breaks)
    ensures Separators(sep) && (breaks ==> Breaks(sep))
  {
    var k :| && |items[0]| <= k <= |text| && Separates(text, |items[0]|, k, breaks)
             && WritesList(text[k..], items[1..], breaks);
    assert items[0] <= text;
    hide WritesList, Separators, Breaks;
    sep, rest := text[|items[0]|..k], text[k..];
    assert text == items[0] + (sep + rest);
  }

  lemma ShortLists(text: string, items: seq<string>, breaks: bool)
    requires WritesList(text, items, breaks)
    ensures items == [] ==> text == ""
    ensures |items| == 1 ==> text == items[0] && items == [items[0]]
    ensures |items| > 1 ==> items == [items[0]] + items[1..]
  {
  }

  lemma OptionsParts(items: seq<string>)
    requires OptionsOk(items) && items != []
    ensures OptionOk(items[0]) && OptionsOk(items[1..])
  {
    hide OptionOk;
  }

  /** A list is read back whatever its separators. */
  lemma {:induction false} ListRead(text: string, items: seq<string>, tail: string, ends: seq<string>)
    requires OptionsOk(items) && WritesList(text, items, true) && EndsSection(tail) && SectionWords(ends)
    ensures Options(text + tail, ends) == Ok(items, SkipSpace(tail))
    decreases |items|
  {
    hide *;
    ShortLists(text, items, true);
    if items == [] {
      assert text + tail == tail;
      NoOptions(tail, ends);
    } else {
      OptionsParts(items);
      if |items| == 1 {
        LastOption(items[0], tail, ends);
      } else {
        var sep, rest := ListParts(text, items, true);
        assert text + tail == items[0] + (sep + (rest + tail));
        OptionThen(items[0], sep, rest + tail, ends);
        ListRead(rest, items[1..], tail, ends);
        PrependOk([items[0]], items[1..], SkipSpace(tail));
      }
    }
  }

  lemma {:induction false} SeparatorsOfSQL(sep: string, rest: string)
    requires Separators(sep)
    ensures Statements(sep + rest) == Statements(rest)
  {
    if sep == "" {
      assert sep + rest == rest;
    } else {
      var t := sep + rest;
      assert t[1..] == sep[1..] + rest;
      SeparatorsOfSQL(sep[1..], rest);
      if sep[0] == ',' {
        assert Statements(t) == Statements(t[1..]);
      } else {
        assert SkipSpace(t) == SkipSpace(t[1..]);
        StatementsSkip(t);
        StatementsSkip(t[1..]);
      }
    }
  }

  lemma {:induction false} SQLRead(text: string, sqls: seq<string>, tail: string)
    requires StatementsOk(sqls) && WritesList(text, PrintStatements(sqls), false) && EndsSection(tail)
    ensures Statements(text + tail) == Ok(sqls, SkipSpace(tail))
    decreases |sqls|
  {
    hide *;
    var items := PrintStatements(sqls);
    PrintedLength(sqls);
    ShortLists(text, items, false);
    if sqls == [] {
      assert text + tail == tail;
      NoStatements(tail);
    } else {
      StatementsParts(sqls);
      if |sqls| == 1 {
        OneStatement(sqls[0], tail);
        NoStatements(tail);
        PrependEnd([sqls[0]], SkipSpace(tail));
        assert sqls == [sqls[0]];
      } else {
        var sep, rest := ListParts(text, items, false);
        assert text + tail == items[0] + (sep + (rest + tail));
        OneStatement(sqls[0], sep + (rest + tail));
        SeparatorsOfSQL(sep, rest + tail);
        SQLRead(rest, sqls[1..], tail);
        PrependOk([sqls[0]], sqls[1..], SkipSpace(tail));
        assert sqls == [sqls[0]] + sqls[1..];
      }
    }
  }

  lemma PrintedLength(sqls: seq<string>)
    ensures |PrintStatements(sqls)| == |sqls|
  {
  }

  /** What the readers make of a section. */
  predicate Reads(c: Clause, t: string, tail: string) {
    if c.Table? || c.Schema? then ValueSection(t, Keyword(c, false)) == Ok(c.name, tail)
    else if c == AllViews then Items(StateOf(c), t) == Ok(["*"], tail)
    else Items(StateOf(c), t) == Ok(c.items, SkipSpace(tail))
  }

  lemma ValueReads(w: Written, tail: string)
    requires WrittenOk(w) && (w.clause.Table? || w.clause.Schema?) && EndsSection(tail)
    ensures Reads(w.clause, w.word + (Spaced(w.text) + tail), tail)
  {
    var c, kw := w.clause, Keyword(w.clause, false);
    assert Keyword(c, w.execute) == kw && WritesValue(w.text, c.name);
    WordSpells(w);
    KeywordFacts(c, false);
    hide *;
    WrittenValueSection(w.word, kw, w.text, c.name, tail);
    ReadsIfValue(c, w.word + (Spaced(w.text) + tail), tail);
  }

  lemma ReadsIfValue(c: Clause, t: string, tail: string)
    requires (c.Table? || c.Schema?) && ValueSection(t, Keyword(c, false)) == Ok(c.name, tail)
    ensures Reads(c, t, tail)
  {
    hide ValueSection, Keyword, Items;
  }

  lemma ReadsIfItems(c: Clause, t: string, tail: string)
    requires !c.Table? && !c.Schema?
    requires Items(StateOf(c), t) == if c == AllViews then Ok(["*"], tail) else Ok(c.items, SkipSpace(tail))
    ensures Reads(c, t, tail)
  {
    hide ValueSection, Keyword, Items;
  }

  lemma SQLReads(w: Written, tail: string)
    requires WrittenOk(w) && IsSQL(w.clause) && EndsSection(tail)
    ensures Reads(w.clause, w.word + (Spaced(w.text) + tail), tail)
  {
    var c, after := w.clause, Spaced(w.text) + tail;
    var kw := Keyword(c, false);
    assert ClauseOk(c) && WritesList(w.text, PrintStatements(c.items), false);
    WordSpells(w);
    KeywordFacts(c, false);
    SQLTextHead(w.text, c.items);
    hide *;
    SpellsItself(kw);
    SpelledSkipped(kw, kw, after);
    SQLAlike(w, after);
    SpacedSkips(w.text, tail);
    SQLOf(c, kw + after, after);
    SQLRead(w.text, c.items, tail);
    StatementsSkip(tail);
    if w.text == "" {
      assert w.text + tail == tail;
    }
    SQLIsList(c);
    ReadsIfItems(c, w.word + after, tail);
  }

  lemma SQLIsList(c: Clause)
    requires IsSQL(c)
    ensures !c.Table? && !c.Schema? && c != AllViews
  {
  }

  lemma SQLOf(c: Clause, t: string, rest: string)
    requires IsSQL(c) && SkipKeyword(t, Keyword(c, false)) == There(rest)
    ensures Items(StateOf(c), t) == Statements(SkipSpace(rest))
  {
    SQLKeyword(c, false);
    SQLItems(c, t);
    hide SkipKeyword, SkipSpace, Statements, Items, Keyword;
  }

  lemma SQLTextHead(text: string, sqls: seq<string>)
    requires StatementsOk(sqls) && WritesList(text, PrintStatements(sqls), false)
    ensures text != "" ==> !IsBlank(text[0])
  {
    hide StatementOk;
    if sqls != [] {
      assert PrintStatements(sqls)[0] == PrintStatement(sqls[0]);
      assert PrintStatements(sqls)[0] <= text;
      assert text[0] == '$';
    }
  }

  lemma OptionsTextHead(text: string, items: seq<string>)
    requires OptionsOk(items) && WritesList(text, items, true)
    ensures text != "" ==> !IsBlank(text[0])
    ensures items == [] <==> text == ""
    ensures items != [] ==> items[0] <= text
  {
    if items != [] {
      assert OptionOk(items[0]) && items[0] <= text;
    }
  }

  predicate IsList(c: Clause) { !c.Table? && !c.Schema? && !IsSQL(c) && c != AllViews }

  lemma ListReads(w: Written, tail: string)
    requires WrittenOk(w) && IsList(w.clause) && EndsSection(tail)
    ensures Reads(w.clause, w.word + (Spaced(w.text) + tail), tail)
  {
    var c, after := w.clause, Spaced(w.text) + tail;
    var kw := Keyword(c, false);
    assert ClauseOk(c) && OptionsOk(c.items) && WritesList(w.text, c.items, true);
    assert Keyword(c, w.execute) == kw && !c.Table? && !c.Schema? && c != AllViews;
    WordSpells(w);
    KeywordFacts(c, false);
    hide *;
    OptionsTextHead(w.text, c.items);
    SpelledSkipped(w.word, kw, after);
    SpacedSkips(w.text, tail);
    if w.text == "" {
      assert w.text + tail == tail;
    }
    if w.clause.Views? {
      NotAllViewsText(w.text, c.items, tail);
    }
    ListOf(c, w.word + after, after, w.text, tail);
    ReadsIfItems(c, w.word + after, tail);
  }

  /** The list after the keyword of its section. */
  lemma ListOf(c: Clause, t: string, rest: string, text: string, tail: string)
    requires IsList(c) && SkipKeyword(t, Keyword(c, false)) == There(rest)
    requires SkipSpace(rest) == if text == "" then SkipSpace(tail) else text + tail
    requires OptionsOk(c.items) && WritesList(text, c.items, true) && EndsSection(tail)
    requires c.Views? ==> !HasPrefixFold(SkipSpace(rest), "ALL VIEWS")
    ensures Items(StateOf(c), t) == Ok(c.items, SkipSpace(tail))
  {
    ItemsByKeyword(c, t);
    TerminatorLists();
    EndsOf(c);
    hide SkipKeyword, SkipSpace, Options, Items, HasPrefixFold, SectionWords, OptionsOk, WritesList, EndsSection;
    ListRead(text, c.items, tail, TerminatorsOf(c));
    OptionsSkip(tail, TerminatorsOf(c));
    if text == "" {
      assert text + tail == tail;
    }
  }

  function TerminatorsOf(c: Clause): seq<string> {
    match c
    case Withs(_) => WITH_ENDS
    case Sets(_) => SET_ENDS
    case Casts(_) => CAST_ENDS
    case Views(_) => []
    case _ => TABLE_ENDS
  }

  lemma EndsOf(c: Clause)
    ensures SectionWords(TerminatorsOf(c))
  {
    TerminatorLists();
    hide SectionWords;
  }

  lemma NotAllViewsText(text: string, items: seq<string>, tail: string)
    requires ClauseOk(Views(items)) && WritesList(text, items, true) && EndsSection(tail)
    ensures text == "" ==> !HasPrefixFold(SkipSpace(tail), "ALL VIEWS")
    ensures text != "" ==> !HasPrefixFold(text + tail, "ALL VIEWS")
  {
    hide *;
    ViewsOk(items);
    OptionsTextHead(text, items);
    ShortLists(text, items, true);
    if items == [] {
      NothingAhead(tail);
    } else if |items| == 1 {
      SectionAfterAll(items[0], tail);
    } else {
      var sep, rest := ListParts(text, items, true);
      assert text + tail == items[0] + (sep + (rest + tail));
      BreakAfterAll(items[0], sep, rest + tail);
    }
  }

  lemma BreakAfterAll(o: string, sep: string, rest: string)
    requires o != "" && !HasPrefixFold(o, "ALL VIEWS") && Separators(sep) && Breaks(sep)
    ensures !HasPrefixFold(o + (sep + rest), "ALL VIEWS")
  {
    var t := o + (sep + rest);
    assert t[|o|] == sep[0];
    if |sep| > 1 {
      assert t[|o| + 1] == sep[1];
    }
    LetterAt(t, "ALL VIEWS", 3);
    LetterAt(t, "ALL VIEWS", 4);
    if |o| < 9 {
      LetterAt(t, "ALL VIEWS", |o|);
    }
  }

  lemma AllViewsReads(w: Written, tail: string)
    requires WrittenOk(w) && w.clause == AllViews && EndsSection(tail)
    ensures Reads(w.clause, w.word + (Spaced(w.text) + tail), tail)
  {
    var c, after := w.clause, Spaced(w.text) + tail;
    var kw := Keyword(c, false);
    assert Keyword(c, w.execute) == kw && Spells(w.text, "ALL VIEWS") && StateOf(c) == Materialize;
    assert kw == "MATERIALIZE" && !IsBlank("ALL VIEWS"[0]);
    WordSpells(w);
    KeywordFacts(c, false);
    SpelledSkipped(w.word, kw, after);
    SpelledSkipped(w.text, "ALL VIEWS", tail);
    assert |w.text| == 9 && (w.text + tail)[9..] == tail;
    hide *;
    SpacedSkips(w.text, tail);
    ViewsOf(w.word + after, after, w.text + tail, tail);
    ReadsIfItems(c, w.word + after, tail);
  }

  lemma ViewsOf(t: string, rest: string, r: string, tail: string)
    requires SkipKeyword(t, "MATERIALIZE") == There(rest) && SkipSpace(rest) == r
    requires HasPrefixFold(r, "ALL VIEWS") && |r| >= 9 && r[9..] == tail
    ensures Items(Materialize, t) == Ok(["*"], tail)
  {
    hide SkipKeyword, SkipSpace, HasPrefixFold;
  }

  /** The readers on a section, however it is written. */
  lemma WrittenReads(w: Written, tail: string)
    requires WrittenOk(w) && EndsSection(tail)
    ensures Reads(w.clause, w.word + (Spaced(w.text) + tail), tail)
  {
    hide WrittenOk, EndsSection, Reads, Spaced;
    if w.clause.Table? || w.clause.Schema? {
      ValueReads(w, tail);
    } else if w.clause == AllViews {
      AllViewsReads(w, tail);
    } else if IsSQL(w.clause) {
      SQLReads(w, tail);
    } else {
      ListReads(w, tail);
    }
  }

  /** One round of the parser over a section, however it is written. */
  lemma WrittenStep(w: Written, tail: string, cmd: LoadCommand) returns (rest: string)
    requires WrittenOk(w) && EndsSection(tail)
    ensures w.word + (Spaced(w.text) + tail) != ""
    ensures rest == tail || rest == SkipSpace(tail)
    ensures Step(StateOf(w.clause), w.word + (Spaced(w.text) + tail), cmd)
         == Ok(Next(AdvanceState(tail), Apply(cmd, w.clause)), rest)
  {
    var c, t := w.clause, w.word + (Spaced(w.text) + tail);
    hide *;
    WordSpells(w);
    KeywordFacts(c, w.execute);
    SpelledSkipped(w.word, Keyword(c, w.execute), Body(c) + tail);
    WrittenReads(w, tail);
    AdvanceSkips(tail);
    rest := if c.Table? || c.Schema? || c == AllViews then tail else SkipSpace(tail);
    ReadsApplied(c, t, tail, rest, cmd);
  }

  lemma ReadsApplied(c: Clause, t: string, tail: string, rest: string, cmd: LoadCommand)
    requires t != "" && Reads(c, t, tail)
    requires rest == if c.Table? || c.Schema? || c == AllViews then tail else SkipSpace(tail)
    ensures Step(StateOf(c), t, cmd) == Ok(Next(AdvanceState(rest), Apply(cmd, c)), rest)
  {
    hide Step, AdvanceState, ValueSection, Items, SetTable, SkipSpace;
    if c.Table? || c.Schema? {
      TargetStep(t, c.name, tail, cmd);
    } else {
      SectionStep(StateOf(c), t, cmd);
    }
  }

  // ----- All sections -----

  lemma {:induction false} SectionsRead(ws: seq<Written>, cmd: LoadCommand)
    requires AllWritten(ws)
    ensures Loop(AdvanceState(WriteSections(ws)), WriteSections(ws), cmd) == Finish(ApplyAll(cmd, Clauses(ws)))
    decreases |ws|
  {
    var text := WriteSections(ws);
    if ws == [] {
      assert Clauses(ws) == [] && Loop(AdvanceState(""), "", cmd) == Finish(cmd);
    } else {
      ClausesFirst(ws, cmd);
      hide *;
      var w, tail := ws[0], WriteSections(ws[1..]);
      var t := w.word + (Spaced(w.text) + tail);
      WrittenParts(ws);
      SectionsAhead(ws);
      SectionsAhead(ws[1..]);
      var rest := WrittenStep(w, tail, cmd);
      LoopOnce(StateOf(w.clause), text, t, cmd, Next(AdvanceState(tail), Apply(cmd, w.clause)), rest);
      SectionsRead(ws[1..], Apply(cmd, w.clause));
      LoopSkips(AdvanceState(tail), tail, Apply(cmd, w.clause));
    }
  }

  lemma ClausesFirst(ws: seq<Written>, cmd: LoadCommand)
    requires ws != []
    ensures ApplyAll(cmd, Clauses(ws)) == ApplyAll(Apply(cmd, ws[0].clause), Clauses(ws[1..]))
  {
    assert Clauses(ws)[0] == ws[0].clause && Clauses(ws)[1..] == Clauses(ws[1..]);
    hide Apply;
  }

  // ----- The words before the sections -----

  lemma FirstDark(word: string, kw: string)
    requires Spells(word, kw) && kw != "" && 'A' <= kw[0] <= 'Z'
    ensures word != "" && !IsSpace(word[0]) && !IsBlank(word[0])
  {
    assert CaseOf(word[0], kw[0]);
  }

  lemma IntoRead(o: Opening, source: Source, target: string, tail: string, text: string, cmd: LoadCommand)
    requires OpeningOk(o, source, target) && (tail == "" || IsBlank(tail[0]))
    requires SkipSpace(text) == SkipSpace(WriteInto(o, tail))
    ensures Loop(Into, text, cmd) == Loop(AdvanceState(tail), tail, cmd.(targetURI := target))
  {
    var v := o.target + tail;
    var rest := o.afterInto + v;
    var t := o.into + rest;
    assert WritesValue(o.target, target) && (tail == "" || EndsWord(tail[0]));
    ValueRead(o.target, target, tail);
    assert SkipSpace(v) == v;
    assert Spells(o.into, "INTO") && Blanks(o.afterInto) && t == WriteInto(o, tail);
    hide *;
    IntoWord();
    SpelledSkipped(o.into, "INTO", rest);
    BlanksSkipped(o.afterInto, v);
    IntoReads(t, rest, v, target, tail, cmd);
    LoopOnce(Into, text, t, cmd, Next(AdvanceState(tail), cmd.(targetURI := target)), tail);
  }

  lemma IntoWord()
    ensures "INTO" != "" && !IsBlank("INTO"[0]) && "FROM" != "" && !IsBlank("FROM"[0])
  {
  }

  lemma FromText(o: Opening, v: string, tail: string)
    requires Spells(o.from, "FROM") && Blanks(o.afterFrom) && WritesValue(o.source, v)
    requires tail != "" && IsBlank(tail[0])
    ensures ValueSection(o.from + (o.afterFrom + (o.source + tail)), "FROM") == Ok(v, tail)
  {
    var q := o.source + tail;
    IntoWord();
    ValueRead(o.source, v, tail);
    SpelledSkipped(o.from, "FROM", o.afterFrom + q);
    BlanksSkipped(o.afterFrom, q);
    assert SkipSpace(q) == q;
    hide SkipSpace, SkipKeyword, Spells, Blanks, HasPrefixFold, WritesValue;
  }

  lemma {:induction false} SeparatorsInList(sep: string, rest: string)
    requires Separators(sep)
    ensures ListItems(sep + rest) == ListItems(rest)
  {
    if sep == "" {
      assert sep + rest == rest;
    } else {
      var t := sep + rest;
      assert t[1..] == sep[1..] + rest;
      SeparatorsInList(sep[1..], rest);
      if sep[0] == ',' {
        assert ListItems(t) == ListItems(t[1..]);
      } else {
        assert SkipSpace(t) == SkipSpace(t[1..]);
        ListSkip(t);
        ListSkip(t[1..]);
      }
    }
  }

  lemma ListSkip(t: string)
    ensures ListItems(SkipSpace(t)) == ListItems(t)
  {
    SkipSpaceTwice(t);
  }

  lemma CommaInList(t: string)
    ensures ListItems(SkipComma(t)) == ListItems(t)
  {
    var u := SkipSpace(t);
    ListSkip(t);
    if u != "" && u[0] == ',' {
      assert SkipSpace(u) == u;
      assert ListItems(u) == ListItems(u[1..]);
      ListSkip(u[1..]);
    }
  }

  lemma ColumnRead(text: string, column: string, tail: string)
    requires WritesValue(text, column) && tail != "" && EndsWord(tail[0])
    ensures ListItems(text + tail) == Prepend([column], ListItems(tail))
  {
    var t := text + tail;
    ValueRead(text, column, tail);
    assert t[0] == text[0] && SkipSpace(t) == t;
    assert ListItems(t) == Prepend([column], ListItems(SkipComma(tail)));
    CommaInList(tail);
  }

  lemma ColumnAtIs(text: string, i: nat, j: nat, column: string)
    requires i <= j <= |text| && ColumnAt(text, i, j, column)
    ensures Separators(text[..i]) && WritesValue(text[i..j], column)
    ensures text[j..] == "" || EndsWord(text[j..][0])
    ensures text == text[..i] + (text[i..j] + text[j..])
  {
    hide Separators, WritesValue;
    assert j < |text| ==> text[j..][0] == text[j];
  }

  lemma ColumnParts(text: string, columns: seq<string>) returns (sep: string, column: string, rest: string)
    requires WritesColumns(text, columns) && columns != []
    ensures text == sep + (column + rest) && Separators(sep) && WritesValue(column, columns[0])
    ensures (rest == "" || EndsWord(rest[0])) && WritesColumns(rest, columns[1..])
  {
    var i, j :| 0 <= i <= j <= |text| && ColumnAt(text, i, j, columns[0]) && WritesColumns(text[j..], columns[1..]);
    hide *;
    ColumnAtIs(text, i, j, columns[0]);
    sep, column, rest := text[..i], text[i..j], text[j..];
  }

  lemma NoColumns(text: string, tail: string)
    requires WritesColumns(text, [])
    ensures ListItems(text + (")" + tail)) == Ok([], tail)
  {
    LastColumn("", tail);
    hide ListItems;
    SeparatorsInList(text, ")" + tail);
  }

  /** A column list is read back, quoted or not and whatever its separators. */
  lemma {:induction false} ListOfColumns(text: string, columns: seq<string>, tail: string)
    requires WritesColumns(text, columns)
    ensures ListItems(text + (")" + tail)) == Ok(columns, tail)
    decreases |columns|
  {
    hide *;
    if columns == [] {
      NoColumns(text, tail);
    } else {
      var sep, column, rest := ColumnParts(text, columns);
      var after := rest + (")" + tail);
      assert text + (")" + tail) == sep + (column + after);
      CloseEndsWord(rest, tail);
      SeparatorsInList(sep, column + after);
      ColumnRead(column, columns[0], after);
      ListOfColumns(rest, columns[1..], tail);
      PrependOk([columns[0]], columns[1..], tail);
      assert columns == [columns[0]] + columns[1..];
    }
  }

  lemma CloseEndsWord(rest: string, tail: string)
    requires rest == "" || EndsWord(rest[0])
    ensures var t := rest + (")" + tail); t != "" && EndsWord(t[0])
  {
  }

  /** FROM reads the source and leaves the text of INTO, perhaps without the white space before it. */
  lemma FromRead(o: Opening, source: Source, target: string, into: string, cmd: LoadCommand) returns (rest: string)
    requires OpeningOk(o, source, target)
    requires into != "" && !IsBlank(into[0]) && into[0] != '('
    requires cmd == EMPTY.(kind := if source.Database? then MySQL else CSV)
    ensures SkipSpace(rest) == into
    ensures FromSection(WriteFrom(o, source, into), cmd) == Ok(WithSource(source), rest)
  {
    var tail := o.beforeInto + into;
    var t := WriteFrom(o, source, into);
    assert Blanks(o.beforeInto) && Spells(o.from, "FROM") && Blanks(o.afterFrom);
    BlanksSkipped(o.beforeInto, into);
    assert SkipSpace(into) == into;
    assert tail[0] == o.beforeInto[0];
    match source {
      case Database(uri) =>
        rest := tail;
        assert WritesValue(o.source, uri);
        hide FromSection, SkipSpace, ValueSection, WritesValue, Spells, Blanks, OpeningOk;
        FromText(o, uri, tail);
        DatabaseRead(t, uri, tail, cmd);
      case File(path, columns) =>
        assert WritesValue(o.source, path);
        if columns == [] {
          hide FromSection, SkipSpace, ValueSection, WritesValue, Spells, Blanks, OpeningOk;
          rest := SkipSpace(tail);
          FromText(o, path, tail);
          FileWithoutColumns(t, path, tail, cmd);
          SkipSpaceTwice(tail);
        } else {
          assert WritesColumns(o.list, columns) && Blanks(o.beforeList);
          rest := tail;
          var list := "(" + (o.list + (")" + tail));
          assert list[0] == '(' && list[1..] == o.list + (")" + tail) && SkipSpace(list) == list;
          assert (o.beforeList + list)[0] == o.beforeList[0] && IsBlank(o.beforeList[0]);
          ListOfColumns(o.list, columns, tail);
          assert ParenList(list) == Ok(columns, tail);
          hide FromSection, SkipSpace, ValueSection, WritesValue, Spells, Blanks, OpeningOk, ParenList, WritesColumns;
          BlanksSkipped(o.beforeList, list);
          FromText(o, path, o.beforeList + list);
          FileThenColumns(t, path, o.beforeList + list, list, columns, tail, cmd);
        }
    }
  }

  lemma FileThenColumns(t: string, path: string, after: string, list: string, columns: seq<string>, tail: string,
                        cmd: LoadCommand)
    requires cmd.kind == CSV && ValueSection(t, "FROM") == Ok(path, after)
    requires SkipSpace(after) == list && list != "" && list[0] == '(' && ParenList(list) == Ok(columns, tail)
    ensures FromSection(t, cmd) == Ok(cmd.(filePath := path, sourceColumns := columns), tail)
  {
    hide ValueSection, SkipSpace, ParenList;
  }

  lemma DatabaseRead(t: string, uri: string, rest: string, cmd: LoadCommand)
    requires cmd.kind != CSV && ValueSection(t, "FROM") == Ok(uri, rest)
    ensures FromSection(t, cmd) == Ok(cmd.(sourceURI := uri), rest)
  {
    hide ValueSection;
  }

  lemma LoadRead(o: Opening, rest: string)
    requires Spells(o.load, "LOAD") && EndsDark(rest)
    ensures Parse(o.load + rest) == Loop(LoadType, rest, EMPTY)
  {
    var s := o.load + rest;
    assert |o.load| == 4 && s[4..] == rest && 'A' <= "LOAD"[0] <= 'Z' && !IsBlank("LOAD"[0]);
    hide *;
    FirstDark(o.load, "LOAD");
    TrimmedText(o.load, rest);
    SpelledSkipped(o.load, "LOAD", rest);
    InitOf(s, rest);
    LoopOnce(Init, s, s, EMPTY, Next(LoadType, EMPTY), rest);
  }

  lemma KindRead(o: Opening, source: Source, target: string, from: string)
    requires OpeningOk(o, source, target) && EndsDark(from)
    ensures Loop(LoadType, o.afterLoad + (o.kind + from), EMPTY)
         == Loop(From, from, EMPTY.(kind := if source.Database? then MySQL else CSV))
  {
    var kw := if source.Database? then "DATABASE" else "CSV";
    var t := o.kind + from;
    assert kw != "" && !IsBlank(kw[0]) && 'A' <= kw[0] <= 'Z' && |kw| == if source.Database? then 8 else 3;
    assert Spells(o.kind, kw) && Blanks(o.afterLoad) && t[|kw|..] == from;
    FirstDark(o.kind, kw);
    BlanksSkipped(o.afterLoad, t);
    FirstLetter(t, "DATABASE");
    assert source.File? ==> CaseOf(t[0], 'C');
    assert source.File? ==> !HasPrefixFold(t, "DATABASE");
    SpelledSkipped(o.kind, kw, from);
    TrimmedText(o.kind, from);
    hide *;
    if source.Database? {
      DatabaseOf(t, from);
    } else {
      FileOf(t, from);
    }
    LoopOnce(LoadType, o.afterLoad + t, t, EMPTY, Next(From, EMPTY.(kind := if source.Database? then MySQL else CSV)),
             from);
  }

  /** The text before the sections is read, whatever its layout and whatever follows it. */
  lemma OpeningRead(o: Opening, source: Source, target: string, tail: string)
    requires OpeningOk(o, source, target)
    requires tail == "" || (IsBlank(tail[0]) && EndsDark(tail))
    ensures Parse(o.load + (o.afterLoad + (o.kind + (o.afterKind + WriteFrom(o, source, WriteInto(o, tail))))))
         == Loop(AdvanceState(tail), tail, Base(source, target))
  {
    var into := WriteInto(o, tail);
    var t := WriteFrom(o, source, into);
    var cmd := EMPTY.(kind := if source.Database? then MySQL else CSV);
    IntoDark(o, source, target, tail);
    IntoFirst(o, source, target, tail);
    FromFirst(o, source, target, into);
    assert Blanks(o.afterKind) && Spells(o.load, "LOAD");
    hide *;
    FromDark(o, source, into);
    SuffixDark(o.afterKind, t);
    SuffixDark(o.kind, o.afterKind + t);
    SuffixDark(o.afterLoad, o.kind + (o.afterKind + t));
    LoadRead(o, o.afterLoad + (o.kind + (o.afterKind + t)));
    KindRead(o, source, target, o.afterKind + t);
    var rest := FromRead(o, source, target, into, cmd);
    BlanksSkipped(o.afterKind, t);
    FromApplied(o.afterKind + t, t, cmd, WithSource(source), rest);
    IntoRead(o, source, target, tail, rest, WithSource(source));
    BaseOf(source, target);
  }

  lemma BaseOf(source: Source, target: string)
    ensures WithSource(source).(targetURI := target) == Base(source, target)
  {
  }

  lemma FromApplied(text: string, t: string, cmd: LoadCommand, next: LoadCommand, rest: string)
    requires t != "" && SkipSpace(text) == t && FromSection(t, cmd) == Ok(next, rest)
    ensures Loop(From, text, cmd) == Loop(Into, rest, next)
  {
    hide FromSection, SkipSpace;
    LoopOnce(From, text, t, cmd, Next(Into, next), rest);
  }

  lemma IntoFirst(o: Opening, source: Source, target: string, tail: string)
    requires OpeningOk(o, source, target)
    ensures var into := WriteInto(o, tail);
            into != "" && !IsBlank(into[0]) && into[0] != '(' && SkipSpace(into) == into
  {
    assert Spells(o.into, "INTO") && CaseOf(o.into[0], 'I');
    hide OpeningOk;
  }

  lemma FromFirst(o: Opening, source: Source, target: string, into: string)
    requires OpeningOk(o, source, target)
    ensures var t := WriteFrom(o, source, into); t != "" && SkipSpace(t) == t
  {
    assert Spells(o.from, "FROM") && CaseOf(o.from[0], 'F');
    hide OpeningOk, WriteSource;
  }

  lemma IntoDark(o: Opening, source: Source, target: string, tail: string)
    requires OpeningOk(o, source, target) && (tail == "" || EndsDark(tail))
    ensures EndsDark(WriteInto(o, tail))
  {
    assert WritesValue(o.target, target);
    hide OpeningOk;
    ValueDark(o.target, target);
    JoinsDark(o.target, tail);
    WordNotEmpty(o.target, tail);
    SuffixDark(o.afterInto, o.target + tail);
    SuffixDark(o.into, o.afterInto + (o.target + tail));
  }

  lemma FromDark(o: Opening, source: Source, into: string)
    requires EndsDark(into)
    ensures EndsDark(WriteFrom(o, source, into))
  {
    SuffixDark(o.beforeInto, into);
    var after := o.beforeInto + into;
    if source.Database? || source.columns == [] {
      SuffixDark(o.source, after);
    } else {
      SuffixDark(")", after);
      SuffixDark(o.list, ")" + after);
      SuffixDark("(", o.list + (")" + after));
      SuffixDark(o.beforeList, "(" + (o.list + (")" + after)));
      SuffixDark(o.source, o.beforeList + ("(" + (o.list + (")" + after))));
    }
    SuffixDark(o.afterFrom, WriteSource(o, source, after));
    SuffixDark(o.from, o.afterFrom + WriteSource(o, source, after));
  }

  lemma {:induction false} ListDark(text: string, items: seq<string>, breaks: bool)
    requires WritesList(text, items, breaks) && forall i | 0 <= i < |items| :: EndsDark(items[i])
    ensures text == "" || EndsDark(text)
    decreases |items|
  {
    if |items| > 1 {
      var sep, rest := ListParts(text, items, breaks);
      assert forall i | 0 <= i < |items| - 1 :: items[1..][i] == items[i + 1];
      hide WritesList, EndsDark, Separators, Breaks;
      ListDark(rest, items[1..], breaks);
      ListNotEmpty(rest, items[1..], breaks);
      SuffixDark(sep, rest);
      SuffixDark(items[0], sep + rest);
    }
  }

  lemma ListNotEmpty(text: string, items: seq<string>, breaks: bool)
    requires WritesList(text, items, breaks) && items != [] && EndsDark(items[0])
    ensures text != ""
  {
  }

  lemma ValueDark(text: string, v: string)
    requires WritesValue(text, v)
    ensures EndsDark(text)
  {
    QuoteDark(v);
    if text == v {
      assert !IsSpace('/');
    }
    hide QuoteValue, NoDollars;
  }

  lemma SectionTextDark(w: Written)
    requires WrittenOk(w)
    ensures w.text == "" || EndsDark(w.text)
  {
    var c := w.clause;
    assert BodyOk(w) && ClauseOk(c);
    match c {
      case Table(name) => ValueDark(w.text, name);
      case Schema(name) => ValueDark(w.text, name);
      case AllViews => assert CaseOf(w.text[8], 'S');
      case Befores(items) => SQLTextDark(w.text, items);
      case Afters(items) => SQLTextDark(w.text, items);
      case _ => OptionsTextDark(w.text, c.items);
    }
  }

  lemma SQLTextDark(text: string, sqls: seq<string>)
    requires WritesList(text, PrintStatements(sqls), false)
    ensures text == "" || EndsDark(text)
  {
    var items := PrintStatements(sqls);
    forall i | 0 <= i < |items|
      ensures EndsDark(items[i])
    {
      assert items[i] == "$$" + sqls[i] + "$$";
    }
    ListDark(text, items, false);
  }

  lemma OptionsTextDark(text: string, items: seq<string>)
    requires OptionsOk(items) && WritesList(text, items, true)
    ensures text == "" || EndsDark(text)
  {
    forall i | 0 <= i < |items|
      ensures EndsDark(items[i])
    {
      assert OptionOk(items[i]);
    }
    hide WritesList, OptionOk;
    ListDark(text, items, true);
  }

  lemma JoinsDark(a: string, b: string)
    requires (a == "" || EndsDark(a)) && (b == "" || EndsDark(b))
    ensures a + b == "" || EndsDark(a + b)
  {
  }

  lemma {:induction false} SectionsDark(ws: seq<Written>)
    requires AllWritten(ws)
    ensures WriteSections(ws) == "" || EndsDark(WriteSections(ws))
    ensures ws != [] ==> WriteSections(ws) != ""
    decreases |ws|
  {
    if ws == [] {
      assert WriteSections(ws) == "";
    } else {
      hide *;
      var w, tail := ws[0], WriteSections(ws[1..]);
      WrittenParts(ws);
      SectionsDark(ws[1..]);
      WriteFirst(ws);
      SectionTextDark(w);
      SpacedDark(w.text);
      JoinsDark(Spaced(w.text), tail);
      WordSpells(w);
      KeywordDarkEnd(w.clause, w.execute);
      WordDark(w.word, Keyword(w.clause, w.execute));
      JoinsDark(w.word, Spaced(w.text) + tail);
      WordNotEmpty(w.word, Spaced(w.text) + tail);
      SuffixDark(w.gap, w.word + (Spaced(w.text) + tail));
    }
  }

  lemma WordNotEmpty(word: string, rest: string)
    requires EndsDark(word)
    ensures word + rest != ""
  {
  }

  lemma KeywordDarkEnd(c: Clause, execute: bool)
    ensures var kw := Keyword(c, execute); kw != "" && 'A' <= kw[|kw| - 1] <= 'Z'
  {
  }

  lemma WordDark(word: string, kw: string)
    requires Spells(word, kw) && kw != "" && 'A' <= kw[|kw| - 1] <= 'Z'
    ensures EndsDark(word)
  {
    assert CaseOf(word[|kw| - 1], kw[|kw| - 1]);
  }

  // ----- Every layout -----

  /**
   However a command is written, it is read as the command printed in the plain layout: with keywords in any
   case, any white space between its parts, values in quotes or without, lists with commas or line ends, columns
   with any separators, and EXECUTE for DO.
   */
  lemma LayoutMakesNoDifference(o: Opening, source: Source, target: string, ws: seq<Written>)
    requires OpeningOk(o, source, target) && SourceOk(source) && NoDollars(target) && AllWritten(ws)
    ensures Parse(Write(o, source, ws)) == Parse(PrintLoad(source, target, Clauses(ws)))
  {
    var tail := WriteSections(ws);
    hide *;
    SectionsAhead(ws);
    TailBlank(tail);
    SectionsDark(ws);
    ClausesWritten(ws);
    OpeningRead(o, source, target, tail);
    SectionsRead(ws, Base(source, target));
    LoadRoundTrip.LoadRoundTrip(source, target, Clauses(ws));
    WriteIs(o, source, ws);
  }

  lemma ClausesWritten(ws: seq<Written>)
    requires AllWritten(ws)
    ensures forall i | 0 <= i < |Clauses(ws)| :: ClauseOk(Clauses(ws)[i])
  {
    forall i | 0 <= i < |ws|
      ensures ClauseOk(Clauses(ws)[i])
    {
      assert WrittenOk(ws[i]);
      hide ClauseOk;
    }
  }

  lemma WriteIs(o: Opening, source: Source, ws: seq<Written>)
    ensures Write(o, source, ws)
         == o.load + (o.afterLoad + (o.kind + (o.afterKind + WriteFrom(o, source, WriteInto(o, WriteSections(ws))))))
  {
    hide WriteFrom, WriteInto, WriteSections;
  }
}
