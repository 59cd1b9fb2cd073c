/**
 Printing LOAD commands, and the proof that parsing takes the printing back
 (internal/configfile/parser.go).
 */
module LoadPrinter {
  import opened Text
  import opened LoadReaders
  import opened LoadParser

  // ----- Quoted values -----

  /** Every quote is written twice. */
  function Doubled(v: string): string {
    if v == "" then "" else (if v[0] == '\'' then "''" else [v[0]]) + Doubled(v[1..])
  }

  function QuoteValue(v: string): string {
    "'" + (Doubled(v) + "'")
  }

  predicate NoDollars(v: string) {
    forall i | 0 <= i < |v| - 1 :: !(v[i] == '$' && v[i + 1] == '$')
  }

  lemma NoDollarsTail(v: string)
    requires NoDollars(v) && v != ""
    ensures NoDollars(v[1..])
  {
    var w := v[1..];
    forall i | 0 <= i < |w| - 1
      ensures !(w[i] == '$' && w[i + 1] == '$')
    {
      assert w[i] == v[i + 1] && w[i + 1] == v[i + 2];
    }
  }

  lemma QuotedTakesPair(rest: string)
    ensures Quoted("''" + rest) == Prepend("'", Quoted(rest))
  {
    assert ("''" + rest)[2..] == rest;
  }

  lemma QuotedTakes(c: char, rest: string)
    requires c != '\'' && !DollarsAhead([c] + rest)
    ensures Quoted([c] + rest) == Prepend([c], Quoted(rest))
  {
    assert ([c] + rest)[1..] == rest && ([c] + rest)[..1] == [c];
  }

  lemma QuotedCloses(tail: string)
    requires tail == "" || tail[0] != '\''
    ensures Quoted("'" + tail) == Ok("", tail)
  {
    assert ("'" + tail)[1..] == tail;
  }

  lemma {:induction false} QuotedDoubled(v: string, tail: string)
    requires NoDollars(v) && (tail == "" || tail[0] != '\'')
    ensures Quoted(Doubled(v) + "'" + tail) == Ok(v, tail)
  {
    hide Quoted;
    var t := Doubled(v) + "'" + tail;
    if v == "" {
      assert t == "'" + tail;
      QuotedCloses(tail);
    } else {
      var rest := Doubled(v[1..]) + "'" + tail;
      NoDollarsTail(v);
      QuotedDoubled(v[1..], tail);
      if v[0] == '\'' {
        assert t == "''" + rest;
        QuotedTakesPair(rest);
        assert "'" + v[1..] == v;
      } else {
        assert t == [v[0]] + rest;
        assert !DollarsAhead([v[0]] + rest);
        QuotedTakes(v[0], rest);
        assert [v[0]] + v[1..] == v;
      }
    }
  }

  /** Reading a quoted value gives it back, and stops just after the closing quote. */
  lemma ValueRoundTrip(v: string, tail: string)
    requires NoDollars(v) && (tail == "" || tail[0] != '\'')
    ensures ReadValueOf(QuoteValue(v) + tail) == Ok(v, tail)
  {
    var t := QuoteValue(v) + tail;
    assert SkipSpace(t) == t;
    assert t[1..] == Doubled(v) + "'" + tail;
    QuotedDoubled(v, tail);
  }

  // ----- Options -----

  /**
   Text that an option keeps as it is.  Outside quotes it holds no comma, semicolon or line end, and no
   word of a section after a space; a quoted part is closed, holds no $$, and no quote is doubled.
   */
  predicate Verbatim(o: string, started: bool, spaceBefore: bool)
    decreases |o|
  {
    if o == "" then true
    else if o[0] in {',', ';', '\n', '\r'} then false
    else if started && spaceBefore && MidSection(o) then false
    else if o[0] == '\'' then
      var j := IndexOf(o[1..], '\'');
      && j >= 0 && NoDollars(o[1..][..j])
      && (|o| == j + 2 || o[j + 2] != '\'') && Verbatim(o[j + 2..], true, false)
    else Verbatim(o[1..], true, o[0] == ' ' || o[0] == '\t')
  }

  predicate OptionOk(o: string) {
    o != "" && Trimmed(o) && !SectionStart(o) && Verbatim(o, false, false)
  }

  predicate OptionsOk(opts: seq<string>) {
    forall i | 0 <= i < |opts| :: OptionOk(opts[i])
  }

  /** The words that start a section, the first eight of them also in the middle of a line. */
  const MID_WORDS := ["BEFORE", "AFTER", "INCLUDING", "EXCLUDING", "MATERIALIZE", "CAST", "WITH", "TARGET"]
  const SECTION_WORDS := MID_WORDS + ["SET"]

  /** Which words end an option list, and which of them end an option on the same line. */
  lemma SectionWordsAre(t: string)
    ensures MidSection(t) <==> HasTerminator(t, MID_WORDS)
    ensures SectionStart(t) <==> HasTerminator(t, SECTION_WORDS)
  {
    hide HasKeyword;
    assert forall i | 0 <= i < 8 :: SECTION_WORDS[i] == MID_WORDS[i];
    assert SECTION_WORDS[8] == "SET";
    if MidSection(t) {
      assert HasTerminator(t, MID_WORDS) by {
        assert HasKeyword(t, MID_WORDS[0]) || HasKeyword(t, MID_WORDS[1]) || HasKeyword(t, MID_WORDS[2])
            || HasKeyword(t, MID_WORDS[3]) || HasKeyword(t, MID_WORDS[4]) || HasKeyword(t, MID_WORDS[5])
            || HasKeyword(t, MID_WORDS[6]) || HasKeyword(t, MID_WORDS[7]);
      }
    }
    if HasTerminator(t, MID_WORDS) {
      var i :| 0 <= i < 8 && HasKeyword(t, MID_WORDS[i]);
      assert HasKeyword(t, SECTION_WORDS[i]);
    }
    assert SectionStart(t) <==> MidSection(t) || HasKeyword(t, SECTION_WORDS[8]);
  }

  /** Spaces and tabs at the front. */
  function Gap(t: string): (g: string)
    ensures g <= t
    ensures |g| < |t| ==> t[|g|] != ' ' && t[|g|] != '\t'
  {
    if t != "" && (t[0] == ' ' || t[0] == '\t') then t[..1] + Gap(t[1..]) else ""
  }

  /** What may follow an option: the next one, the next line, the next section, or nothing. */
  predicate EndsOption(tail: string) {
    var t := tail[|Gap(tail)|..];
    t == "" || t[0] == ',' || t[0] == '\n' || t[0] == '\r' || (Gap(tail) != "" && MidSection(t))
  }

  /** Spaces before the end of an option go with it; so does a comma. */
  function AfterOption(tail: string): string {
    var t := tail[|Gap(tail)|..];
    if t != "" && t[0] == ',' then t[1..] else t
  }

  lemma GapFacts(tail: string)
    ensures SkipSpace(tail[|Gap(tail)|..]) == SkipSpace(tail)
    ensures forall c <- Gap(tail) :: c == ' ' || c == '\t'
  {
    if tail != "" && (tail[0] == ' ' || tail[0] == '\t') {
      GapFacts(tail[1..]);
      assert tail[1..][|Gap(tail[1..])|..] == tail[|Gap(tail)|..];
    }
  }

  lemma EndsHead(tail: string)
    requires EndsOption(tail) && tail != ""
    ensures IsBlank(tail[0]) || tail[0] == ','
  {
  }

  predicate Capitals(kw: string) {
    forall i | 0 <= i < |kw| :: 'A' <= kw[i] <= 'Z'
  }

  /** What follows an option does not change which keyword it starts with. */
  lemma KeywordStable(o: string, tail: string, kw: string)
    requires o != "" && EndsOption(tail) && Capitals(kw)
    ensures HasKeyword(o + tail, kw) <==> HasKeyword(o, kw)
  {
    var t := o + tail;
    assert forall i | 0 <= i < |o| :: t[i] == o[i];
    if tail != "" {
      EndsHead(tail);
    }
    if |o| < |kw| && |t| >= |kw| {
      assert t[|o|] == tail[0];
      assert Upper(t[|o|]) != Upper(kw[|o|]);
    }
  }

  lemma SectionWordsAreCapitals()
    ensures Capitals("BEFORE") && Capitals("AFTER") && Capitals("INCLUDING") && Capitals("EXCLUDING")
    ensures Capitals("MATERIALIZE") && Capitals("TARGET") && Capitals("WITH") && Capitals("SET") && Capitals("CAST")
  {
  }

  lemma SectionsStable(o: string, tail: string)
    requires o != "" && EndsOption(tail)
    ensures SectionStart(o + tail) == SectionStart(o)
    ensures MidSection(o + tail) == MidSection(o)
  {
    SectionWordsAreCapitals();
    KeywordStable(o, tail, "BEFORE");
    KeywordStable(o, tail, "AFTER");
    KeywordStable(o, tail, "INCLUDING");
    KeywordStable(o, tail, "EXCLUDING");
    KeywordStable(o, tail, "MATERIALIZE");
    KeywordStable(o, tail, "TARGET");
    KeywordStable(o, tail, "WITH");
    KeywordStable(o, tail, "SET");
    KeywordStable(o, tail, "CAST");
  }

  /** A quoted part without quotes and dollar pairs inside is read as it stands. */
  lemma {:induction false} QuotedPlain(body: string, tail: string)
    requires '\'' !in body && NoDollars(body) && (tail == "" || tail[0] != '\'')
    ensures Quoted(body + "'" + tail) == Ok(body, tail)
  {
    NoQuoteToDouble(body);
    QuotedDoubled(body, tail);
  }

  lemma {:induction false} NoQuoteToDouble(v: string)
    requires '\'' !in v
    ensures Doubled(v) == v
  {
    if v != "" {
      assert v[0] in v;
      assert v == [v[0]] + v[1..];
      NoQuoteToDouble(v[1..]);
    }
  }

  lemma {:induction false} OptionStops(tail: string, started: bool, spaceBefore: bool)
    requires EndsOption(tail) || (started && spaceBefore && MidSection(tail[|Gap(tail)|..]))
    ensures OptionText(tail, started, spaceBefore) == Ok(Gap(tail), AfterOption(tail))
    decreases |tail|
  {
    if tail != "" && IsBlank(tail[0]) {
      BlankIsNoSection(tail);
      if tail[0] == ' ' || tail[0] == '\t' {
        assert tail[1..][|Gap(tail[1..])|..] == tail[|Gap(tail)|..];
        hide MidSection;
        OptionStops(tail[1..], true, true);
      }
    }
    hide MidSection;
  }

  lemma BlankIsNoSection(t: string)
    requires t != "" && IsBlank(t[0])
    ensures !MidSection(t)
  {
    OtherHead(t, "BEFORE");
    OtherHead(t, "AFTER");
    OtherHead(t, "INCLUDING");
    OtherHead(t, "EXCLUDING");
    OtherHead(t, "MATERIALIZE");
    OtherHead(t, "CAST");
    OtherHead(t, "WITH");
    OtherHead(t, "TARGET");
  }

  lemma OptionTakesQuoted(body: string, rest: string, started: bool, spaceBefore: bool)
    requires Quoted(body + "'" + rest) == Ok(body, rest)
    requires !(started && spaceBefore && MidSection("'" + (body + "'" + rest)))
    ensures OptionText("'" + (body + "'" + rest), started, spaceBefore)
         == Prepend("'" + body + "'", OptionText(rest, true, false))
  {
    hide MidSection, Quoted;
    assert ("'" + (body + "'" + rest))[1..] == body + "'" + rest;
  }

  lemma OptionTakes(c: char, rest: string, started: bool, spaceBefore: bool)
    requires c !in {',', ';', '\n', '\r', '\''}
    requires !(started && spaceBefore && MidSection([c] + rest))
    ensures OptionText([c] + rest, started, spaceBefore)
         == Prepend([c], OptionText(rest, true, c == ' ' || c == '\t'))
  {
    hide MidSection, Quoted;
    assert ([c] + rest)[1..] == rest && ([c] + rest)[..1] == [c];
  }

  lemma VerbatimQuoted(o: string, started: bool, spaceBefore: bool) returns (body: string, rest: string)
    requires Verbatim(o, started, spaceBefore) && o != "" && o[0] == '\''
    ensures o == "'" + body + "'" + rest && |rest| < |o|
    ensures '\'' !in body && NoDollars(body) && (rest == "" || rest[0] != '\'')
    ensures Verbatim(rest, true, false)
  {
    hide MidSection;
    var j := IndexOf(o[1..], '\'');
    body, rest := o[1..][..j], o[j + 2..];
  }

  lemma VerbatimPlain(o: string, started: bool, spaceBefore: bool)
    requires Verbatim(o, started, spaceBefore) && o != ""
    ensures o[0] !in {',', ';', '\n', '\r'} && !(started && spaceBefore && MidSection(o))
    ensures o[0] != '\'' ==> Verbatim(o[1..], true, o[0] == ' ' || o[0] == '\t')
  {
    hide MidSection;
  }

  lemma {:induction false} OptionVerbatim(o: string, tail: string, started: bool, spaceBefore: bool)
    requires Verbatim(o, started, spaceBefore) && EndsOption(tail)
    ensures OptionText(o + tail, started, spaceBefore) == Ok(o + Gap(tail), AfterOption(tail))
    decreases |o|
  {
    hide EndsOption, Gap, AfterOption;
    hide Verbatim, MidSection, Quoted, OptionText, SectionStart;
    if o == "" {
      assert o + tail == tail && o + Gap(tail) == Gap(tail);
      OptionStops(tail, started, spaceBefore);
    } else {
      SectionsStable(o, tail);
      VerbatimPlain(o, started, spaceBefore);
      if o[0] == '\'' {
        var body, rest := VerbatimQuoted(o, started, spaceBefore);
        assert o + tail == "'" + (body + "'" + (rest + tail));
        assert o + Gap(tail) == "'" + body + "'" + (rest + Gap(tail));
        QuotedHead(rest, tail);
        QuotedPlain(body, rest + tail);
        OptionTakesQuoted(body, rest + tail, started, spaceBefore);
        OptionVerbatim(rest, tail, true, false);
      } else {
        assert o + tail == [o[0]] + (o[1..] + tail);
        OptionTakes(o[0], o[1..] + tail, started, spaceBefore);
        OptionVerbatim(o[1..], tail, true, o[0] == ' ' || o[0] == '\t');
        assert o + Gap(tail) == [o[0]] + (o[1..] + Gap(tail));
      }
    }
  }

  lemma QuotedHead(rest: string, tail: string)
    requires (rest == "" || rest[0] != '\'') && EndsOption(tail)
    ensures rest + tail == "" || (rest + tail)[0] != '\''
  {
    if rest == "" && tail != "" {
      EndsHead(tail);
    }
  }

  /** The end of a section: nothing, or white space and the next section, SET on a new line only. */
  predicate EndsSection(tail: string) {
    tail == "" || (IsBlank(tail[0]) && SectionStart(SkipSpace(tail)) && EndsOption(tail))
  }

  predicate SectionWords(terminators: seq<string>) {
    forall i | 0 <= i < |terminators| ::
      terminators[i] in {"BEFORE", "AFTER", "INCLUDING", "EXCLUDING", "MATERIALIZE", "TARGET", "WITH", "SET", "CAST"}
  }

  lemma TerminatorsAreSections(t: string, terminators: seq<string>)
    requires SectionWords(terminators)
    ensures HasTerminator(t, terminators) ==> SectionStart(t)
  {
  }

  lemma TerminatorLists()
    ensures SectionWords(WITH_ENDS) && SectionWords(SET_ENDS) && SectionWords(CAST_ENDS) && SectionWords(TABLE_ENDS)
    ensures SectionWords([])
  {
  }

  lemma SectionHead(t: string)
    requires SectionStart(t)
    ensures t != "" && t[0] !in {',', '$', '\'', '('}
  {
  }

  lemma NoOptions(tail: string, terminators: seq<string>)
    requires EndsSection(tail)
    ensures Options(tail, terminators) == Ok([], SkipSpace(tail))
  {
    if tail != "" {
      SectionHead(SkipSpace(tail));
      hide SectionStart, HasTerminator;
    }
  }

  lemma {:induction false} TrimGap(o: string, gap: string)
    requires o != "" && Trimmed(o) && forall c <- gap :: c == ' ' || c == '\t'
    ensures TrimRight(o + gap) == o
    ensures TrimSpace(o + gap) == o
    decreases |gap|
  {
    if gap == "" {
      assert o + gap == o;
    } else {
      var n := |gap| - 1;
      GapEnd(o, gap);
      TrimGap(o, gap[..n]);
    }
    assert (o + gap)[0] == o[0];
    hide TrimRight;
  }

  lemma GapEnd(o: string, gap: string)
    requires gap != "" && forall c <- gap :: c == ' ' || c == '\t'
    ensures var n := |gap| - 1;
            && (o + gap)[..|o + gap| - 1] == o + gap[..n] && IsSpace((o + gap)[|o + gap| - 1])
            && forall c <- gap[..n] :: c == ' ' || c == '\t'
  {
    var n := |gap| - 1;
    assert gap[n] in gap && forall c <- gap[..n] :: c in gap;
  }

  lemma OptionStart(o: string, tail: string, terminators: seq<string>)
    requires OptionOk(o) && EndsOption(tail) && SectionWords(terminators)
    ensures var t := o + tail;
            && t != "" && SkipSpace(t) == t && t[0] != ',' && t[0] != ';'
            && !HasTerminator(t, terminators) && !SectionStart(t)
  {
    var t := o + tail;
    assert t[0] == o[0];
    SectionsStable(o, tail);
    TerminatorsAreSections(t, terminators);
    hide SectionStart, HasTerminator;
  }

  lemma OneOption(o: string, tail: string, terminators: seq<string>)
    requires OptionOk(o) && EndsOption(tail) && SectionWords(terminators)
    ensures Options(o + tail, terminators) == Prepend([o], Options(AfterOption(tail), terminators))
  {
    OptionStart(o, tail, terminators);
    OptionVerbatim(o, tail, false, false);
    GapFacts(tail);
    TrimGap(o, Gap(tail));
    hide SectionStart, HasTerminator, OptionText, TrimSpace, EndsOption, Gap, Verbatim, AfterOption;
  }

  lemma LastOption(o: string, tail: string, terminators: seq<string>)
    requires OptionOk(o) && EndsSection(tail) && SectionWords(terminators)
    ensures Options(o + tail, terminators) == Ok([o], SkipSpace(tail))
  {
    assert EndsOption(tail);
    AfterLast(tail);
    hide OptionOk, Options, SectionStart, EndsOption, AfterOption;
    OneOption(o, tail, terminators);
    OptionsSkip(AfterOption(tail), terminators);
    OptionsSkip(tail, terminators);
    NoOptions(tail, terminators);
    PrependEnd([o], SkipSpace(tail));
  }

  lemma AfterLast(tail: string)
    requires EndsSection(tail)
    ensures SkipSpace(AfterOption(tail)) == SkipSpace(tail)
  {
    GapFacts(tail);
    if tail != "" {
      SectionHead(SkipSpace(tail));
    }
    hide SectionStart, EndsOption;
  }

  lemma NextOption(o: string, rest: string, terminators: seq<string>)
    requires OptionOk(o) && SectionWords(terminators)
    ensures Options(o + (", " + rest), terminators) == Prepend([o], Options(rest, terminators))
  {
    hide OptionOk, Options;
    OneOption(o, ", " + rest, terminators);
    assert (", " + rest)[1..] == " " + rest;
    assert (" " + rest)[1..] == rest;
    assert SkipSpace(" " + rest) == SkipSpace(rest);
    OptionsSkip(" " + rest, terminators);
    OptionsSkip(rest, terminators);
  }

  lemma OptionsSkip(t: string, terminators: seq<string>)
    ensures Options(SkipSpace(t), terminators) == Options(t, terminators)
  {
    SkipSpaceTwice(t);
  }

  lemma JoinShape(items: seq<string>, tail: string)
    requires |items| > 1
    ensures Join(items, ", ") + tail == items[0] + (", " + (Join(items[1..], ", ") + tail))
  {
    var rest := Join(items[1..], ", ");
    hide Join;
    JoinFirst(items);
    assert items[0] + ", " + rest + tail == items[0] + (", " + (rest + tail));
  }

  lemma JoinFirst(items: seq<string>)
    requires |items| > 1
    ensures Join(items, ", ") == items[0] + ", " + Join(items[1..], ", ")
  {
  }

  /** A printed option list is read back, up to the start of the next section. */
  lemma {:induction false} OptionsRoundTrip(opts: seq<string>, tail: string, terminators: seq<string>)
    requires OptionsOk(opts) && EndsSection(tail) && SectionWords(terminators)
    ensures Options(Join(opts, ", ") + tail, terminators) == Ok(opts, SkipSpace(tail))
  {
    if opts == [] {
      assert Join(opts, ", ") + tail == tail;
      NoOptions(tail, terminators);
    } else {
      var o := opts[0];
      hide OptionOk, Options, SectionStart;
      if |opts| == 1 {
        LastOption(o, tail, terminators);
        assert opts == [o];
      } else {
        var rest := Join(opts[1..], ", ") + tail;
        JoinShape(opts, tail);
        hide Join, SkipSpace;
        NextOption(o, rest, terminators);
        OptionsRoundTrip(opts[1..], tail, terminators);
        assert opts == [o] + opts[1..];
      }
    }
  }

  // ----- SQL statements -----

  predicate StatementOk(sql: string) {
    Trimmed(sql) && NoDollars(sql) && (sql != "" ==> sql[|sql| - 1] != '$')
  }

  function PrintStatement(sql: string): string {
    "$$" + (sql + "$$")
  }

  function PrintStatements(sqls: seq<string>): seq<string> {
    seq(|sqls|, i requires 0 <= i < |sqls| => PrintStatement(sqls[i]))
  }

  lemma {:induction false} StatementEnds(sql: string, rest: string)
    requires NoDollars(sql) && (sql != "" ==> sql[|sql| - 1] != '$')
    ensures IndexDollars(sql + "$$" + rest) == |sql|
  {
    var t := sql + "$$" + rest;
    if sql == "" {
      assert DollarsAhead(t);
    } else {
      assert t[1..] == sql[1..] + "$$" + rest;
      NoDollarsTail(sql);
      StatementEnds(sql[1..], rest);
    }
  }

  lemma StatementText(sql: string, tail: string)
    ensures var t, body := PrintStatement(sql) + tail, sql + "$$" + tail;
            t[2..] == body && DollarsAhead(t) && body[..|sql|] == sql && body[|sql| + 2..] == tail
  {
  }

  lemma OneStatement(sql: string, tail: string)
    requires StatementOk(sql)
    ensures Statements(PrintStatement(sql) + tail) == Prepend([sql], Statements(tail))
  {
    hide *;
    StatementFacts(sql);
    StatementEnds(sql, tail);
    StatementText(sql, tail);
    StatementsDollars(PrintStatement(sql) + tail);
  }

  lemma StatementFacts(sql: string)
    requires StatementOk(sql)
    ensures NoDollars(sql) && (sql != "" ==> sql[|sql| - 1] != '$') && TrimSpace(sql) == sql
  {
    TrimSpaceIdempotent(sql);
    hide TrimSpace, NoDollars;
  }

  lemma CommaSkipped(rest: string)
    ensures Statements(", " + rest) == Statements(rest)
  {
    var t := ", " + rest;
    assert SkipSpace(t) == t && t[1..] == " " + rest && (" " + rest)[1..] == rest;
    assert SkipSpace(" " + rest) == SkipSpace(rest);
    assert Statements(t) == Statements(" " + rest);
    hide Statements, SkipSpace;
    StatementsSkip(" " + rest);
    StatementsSkip(rest);
  }

  lemma NextStatement(sql: string, rest: string)
    requires StatementOk(sql)
    ensures Statements(PrintStatement(sql) + (", " + rest)) == Prepend([sql], Statements(rest))
  {
    hide *;
    OneStatement(sql, ", " + rest);
    CommaSkipped(rest);
  }

  predicate StatementsOk(sqls: seq<string>) { forall i | 0 <= i < |sqls| :: StatementOk(sqls[i]) }

  lemma StatementsParts(sqls: seq<string>)
    requires StatementsOk(sqls) && sqls != []
    ensures StatementOk(sqls[0]) && StatementsOk(sqls[1..])
    ensures var items := PrintStatements(sqls);
            |items| == |sqls| && items[0] == PrintStatement(sqls[0]) && items[1..] == PrintStatements(sqls[1..])
  {
    hide StatementOk, PrintStatement;
  }

  lemma OneJoined(items: seq<string>)
    requires |items| == 1
    ensures Join(items, ", ") == items[0]
  {
  }

  lemma {:induction false} StatementsRoundTrip(sqls: seq<string>, tail: string)
    requires StatementsOk(sqls) && EndsSection(tail)
    ensures Statements(Join(PrintStatements(sqls), ", ") + tail) == Ok(sqls, SkipSpace(tail))
  {
    hide *;
    var items := PrintStatements(sqls);
    if sqls == [] {
      NothingPrinted(tail);
      NoStatements(tail);
    } else {
      var sql := sqls[0];
      StatementsParts(sqls);
      if |sqls| == 1 {
        OneJoined(items);
        OneStatement(sql, tail);
        NoStatements(tail);
        PrependEnd([sql], SkipSpace(tail));
        assert sqls == [sql];
      } else {
        var rest := Join(items[1..], ", ") + tail;
        JoinShape(items, tail);
        NextStatement(sql, rest);
        StatementsRoundTrip(sqls[1..], tail);
        PrependOk([sql], sqls[1..], SkipSpace(tail));
        assert sqls == [sql] + sqls[1..];
      }
    }
  }

  lemma NothingPrinted(tail: string)
    ensures Join(PrintStatements([]), ", ") + tail == tail
  {
  }

  lemma PrependOk<T>(a: seq<T>, b: seq<T>, rest: string)
    ensures Prepend(a, Ok(b, rest)) == Ok(a + b, rest)
  {
  }

  lemma NoStatements(tail: string)
    requires EndsSection(tail)
    ensures Statements(tail) == Ok([], SkipSpace(tail))
  {
    if tail != "" {
      SectionHead(SkipSpace(tail));
    }
  }

  // ----- Column lists -----

  function PrintColumns(columns: seq<string>): seq<string> {
    seq(|columns|, i requires 0 <= i < |columns| => QuoteValue(columns[i]))
  }

  lemma OneColumn(c: string, tail: string)
    requires NoDollars(c) && tail != "" && tail[0] != '\''
    ensures ListItems(QuoteValue(c) + tail) == Prepend([c], ListItems(SkipComma(tail)))
  {
    var t := QuoteValue(c) + tail;
    assert SkipSpace(t) == t;
    ValueRoundTrip(c, tail);
  }

  lemma NextColumn(c: string, rest: string)
    requires NoDollars(c) && rest != "" && rest[0] == '\''
    ensures ListItems(QuoteValue(c) + (", " + rest)) == Prepend([c], ListItems(rest))
  {
    var tail := ", " + rest;
    assert tail[1..] == " " + rest && (" " + rest)[1..] == rest && SkipSpace(tail) == tail;
    assert SkipComma(tail) == rest;
    hide ListItems, QuoteValue;
    OneColumn(c, tail);
  }

  lemma LastColumn(c: string, tail: string)
    requires NoDollars(c)
    ensures ListItems(QuoteValue(c) + (")" + tail)) == Ok([c], tail)
    ensures ListItems(")" + tail) == Ok([], tail)
  {
    var close := ")" + tail;
    assert SkipSpace(close) == close && close[1..] == tail && SkipComma(close) == close;
    assert ListItems(close) == Ok([], tail);
    hide ListItems, QuoteValue;
    OneColumn(c, close);
    PrependEnd([c], tail);
  }

  lemma ColumnParts(columns: seq<string>, tail: string)
    requires columns != []
    ensures var items := PrintColumns(columns);
            && |items| == |columns| && items[0] == QuoteValue(columns[0]) && items[1..] == PrintColumns(columns[1..])
    ensures |columns| > 1 ==> var t := Join(PrintColumns(columns[1..]), ", ") + (")" + tail); t != "" && t[0] == '\''
  {
    if |columns| > 1 {
      var rest := PrintColumns(columns[1..]);
      assert rest[0] == QuoteValue(columns[1]);
      assert Join(rest, ", ")[0] == '\'';
    }
  }

  lemma {:induction false} ColumnsRoundTrip(columns: seq<string>, tail: string)
    requires forall i | 0 <= i < |columns| :: NoDollars(columns[i])
    ensures ListItems(Join(PrintColumns(columns), ", ") + (")" + tail)) == Ok(columns, tail)
  {
    var items := PrintColumns(columns);
    if columns == [] {
      LastColumn("", tail);
      assert Join(items, ", ") + (")" + tail) == ")" + tail;
    } else {
      var c := columns[0];
      assert forall i | 0 <= i < |columns| - 1 :: NoDollars(columns[1..][i]);
      hide *;
      ColumnParts(columns, tail);
      if |columns| == 1 {
        OneJoined(items);
        LastColumn(c, tail);
        assert columns == [c];
      } else {
        JoinShape(items, ")" + tail);
        NextColumn(c, Join(items[1..], ", ") + (")" + tail));
        ColumnsRoundTrip(columns[1..], tail);
        PrependOk([c], columns[1..], tail);
        assert columns == [c] + columns[1..];
      }
    }
  }
}
