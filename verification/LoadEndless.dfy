/**
 On which commands parsing never ends (internal/configfile/parser.go): an automaton that reads a list one
 character at a time meets a semicolon outside quotes before the list ends.
 */
module LoadEndless {
  import opened Text
  import opened LoadReaders
  import opened LoadParser

  // ----- Places in a list -----

  /**
   Between items; in an item, perhaps after a space; after a tilde; between slashes; in quotes; after a
   quote in quotes; after one $ in quotes; in $$ in quotes; after one $ in those; after the list.
   */
  datatype Place =
    | Gap | InItem(space: bool) | Tilde | Slashes | Quote | QuoteSeen | QuoteDollar | Dollars | DollarsSeen | Ended

  predicate Quoting(p: Place) { p == Quote || p == QuoteDollar || p == Dollars || p == DollarsSeen }

  function NextQuoted(p: Place, c: char): Place
    requires Quoting(p)
  {
    if p == Dollars then if c == '$' then DollarsSeen else Dollars
    else if p == DollarsSeen then if c == '$' then Quote else Dollars
    else if c == '\'' then QuoteSeen
    else if c == '$' then if p == QuoteDollar then Dollars else QuoteDollar
    else Quote
  }

  // ----- Option lists -----

  /** A word that ends the list, or begins a section. */
  predicate Stops(t: string, ends: seq<string>) { HasTerminator(t, ends) || SectionStart(t) }

  function NextInOptions(p: Place, t: string, ends: seq<string>): Place
    requires t != ""
  {
    var c := t[0];
    if Quoting(p) then NextQuoted(p, c)
    else if p == QuoteSeen && c == '\'' then Quote
    else if p == Ended || c == ';' then Ended
    else if c == ',' then Gap
    else if p == Gap && IsBlank(c) then Gap
    else if p == Gap && Stops(t, ends) then Ended
    else if p == InItem(true) && MidSection(t) then Ended
    else if c == '\n' || c == '\r' then Gap
    else if c == ' ' || c == '\t' then InItem(true)
    else if c == '\'' then Quote
    else InItem(false)
  }

  /** Reading on from a place, a semicolon comes outside quotes before the option list ends. */
  predicate MeetsSemicolon(p: Place, t: string, ends: seq<string>)
    decreases |t|
  {
    t != "" &&
    ((t[0] == ';' && !Quoting(p) && p != Ended && !Stops(t, ends))
     || MeetsSemicolon(NextInOptions(p, t, ends), t[1..], ends))
  }

  lemma {:induction false} NothingAfterEnd(t: string, ends: seq<string>)
    ensures !MeetsSemicolon(Ended, t, ends)
  {
    if t != "" {
      NothingAfterEnd(t[1..], ends);
    }
  }

  lemma {:induction false} DollarsMeet(t: string, ends: seq<string>)
    ensures var end := IndexDollars(t);
            MeetsSemicolon(Dollars, t, ends) <==> end >= 0 && MeetsSemicolon(Quote, t[end + 2..], ends)
    decreases |t|
  {
    if t != "" {
      hide Stops;
      if DollarsAhead(t) {
        assert t[1..][1..] == t[2..];
        assert MeetsSemicolon(DollarsSeen, t[1..], ends) <==> MeetsSemicolon(Quote, t[2..], ends);
      } else {
        DollarsMeet(t[1..], ends);
        if t[0] == '$' && |t| > 1 {
          assert NextInOptions(DollarsSeen, t[1..], ends) == NextInOptions(Dollars, t[1..], ends);
        }
        var end := IndexDollars(t[1..]);
        assert end >= 0 ==> t[1..][end + 2..] == t[end + 3..];
      }
    }
  }

  /** After a closing quote the item goes on as after any other character. */
  lemma QuoteClosed(t: string, ends: seq<string>)
    requires t == "" || t[0] != '\''
    ensures MeetsSemicolon(QuoteSeen, t, ends) <==> MeetsSemicolon(InItem(false), t, ends)
  {
    hide Stops, MidSection;
  }

  /** One $ in quotes makes no difference unless another follows. */
  lemma QuoteAfterDollar(t: string, ends: seq<string>)
    requires t == "" || t[0] != '$'
    ensures MeetsSemicolon(QuoteDollar, t, ends) <==> MeetsSemicolon(Quote, t, ends)
  {
    hide Stops, MidSection;
  }

  lemma QuoteNext(t: string, ends: seq<string>)
    requires t != ""
    ensures MeetsSemicolon(Quote, t, ends)
        <==> if DollarsAhead(t) then MeetsSemicolon(Dollars, t[2..], ends)
             else if t[0] != '\'' then MeetsSemicolon(Quote, t[1..], ends)
             else if |t| > 1 && t[1] == '\'' then MeetsSemicolon(Quote, t[2..], ends)
             else MeetsSemicolon(InItem(false), t[1..], ends)
  {
    if |t| > 1 {
      assert t[1..][1..] == t[2..];
    }
    if t[0] == '\'' && !(|t| > 1 && t[1] == '\'') {
      QuoteClosed(t[1..], ends);
    } else if t[0] == '$' && !DollarsAhead(t) {
      QuoteAfterDollar(t[1..], ends);
    }
    hide Stops, MidSection;
  }

  lemma {:induction false} QuoteMeets(t: string, ends: seq<string>)
    ensures MeetsSemicolon(Quote, t, ends)
        <==> Quoted(t).Ok? && MeetsSemicolon(InItem(false), Quoted(t).rest, ends)
    decreases |t|
  {
    hide MeetsSemicolon, IndexDollars;
    if t == "" {
      NothingMeets(ends);
    } else {
      QuoteNext(t, ends);
      if t[0] == '\'' {
        if |t| > 1 && t[1] == '\'' {
          QuoteMeets(t[2..], ends);
        }
      } else if DollarsAhead(t) {
        DollarsMeet(t[2..], ends);
        var end := IndexDollars(t[2..]);
        if end >= 0 {
          assert t[2..][end + 2..] == t[end + 4..];
          QuoteMeets(t[end + 4..], ends);
        }
      } else {
        QuoteMeets(t[1..], ends);
      }
    }
  }

  lemma ItemNext(t: string, space: bool, ends: seq<string>)
    requires t != ""
    ensures MeetsSemicolon(InItem(space), t, ends)
        <==> if t[0] == ';' then !Stops(t, ends)
             else if t[0] == ',' then MeetsSemicolon(Gap, t[1..], ends)
             else if space && MidSection(t) then false
             else if t[0] == '\n' || t[0] == '\r' then MeetsSemicolon(Gap, t[1..], ends)
             else if t[0] == '\'' then MeetsSemicolon(Quote, t[1..], ends)
             else MeetsSemicolon(InItem(t[0] == ' ' || t[0] == '\t'), t[1..], ends)
  {
    NothingAfterEnd(t[1..], ends);
    hide Stops, MidSection;
  }

  /** Where an item ends without taking the character, the list goes on at it. */
  lemma GapNext(t: string, space: bool, ends: seq<string>)
    requires t != "" && (t[0] == ';' || t[0] == '\n' || t[0] == '\r' || (space && MidSection(t)))
    ensures t[0] != ',' ==> (MeetsSemicolon(Gap, t, ends) <==> MeetsSemicolon(InItem(space), t, ends))
  {
    SectionsStop(t, ends);
    ItemNext(t, space, ends);
    NothingAfterEnd(t[1..], ends);
    hide Stops, MidSection;
  }

  /** An item that has begun: it is read to its end, and the list goes on. */
  lemma {:induction false} ItemMeets(t: string, space: bool, ends: seq<string>)
    ensures var o := OptionText(t, true, space);
            MeetsSemicolon(InItem(space), t, ends) <==> o.Ok? && MeetsSemicolon(Gap, o.rest, ends)
    decreases |t|
  {
    hide MeetsSemicolon, MidSection, Quoted;
    if t == "" {
      NothingMeets(ends);
    } else {
      ItemNext(t, space, ends);
      if t[0] != ',' && (t[0] == ';' || t[0] == '\n' || t[0] == '\r' || (space && MidSection(t))) {
        GapNext(t, space, ends);
      } else if t[0] == '\'' {
        QuoteMeets(t[1..], ends);
        if Quoted(t[1..]).Ok? {
          ItemMeets(Quoted(t[1..]).rest, false, ends);
        }
      } else if t[0] != ',' {
        ItemMeets(t[1..], t[0] == ' ' || t[0] == '\t', ends);
      }
    }
  }

  lemma NothingMeets(ends: seq<string>)
    ensures forall p :: !MeetsSemicolon(p, "", ends)
  {
  }

  /** A section word that ends an item also ends the list. */
  lemma SectionsStop(t: string, ends: seq<string>)
    ensures MidSection(t) ==> Stops(t, ends) && t != "" && t[0] != ',' && t[0] != ';' && !IsBlank(t[0])
  {
    hide HasTerminator;
    if MidSection(t) {
      assert Upper(',') == ',' && Upper(';') == ';';
    }
  }

  lemma {:induction false} GapSkips(t: string, ends: seq<string>)
    ensures MeetsSemicolon(Gap, SkipSpace(t), ends) <==> MeetsSemicolon(Gap, t, ends)
  {
    if t != "" && IsBlank(t[0]) {
      GapSkips(t[1..], ends);
      hide Stops, MidSection;
    }
  }

  /** readOptionsUntil never ends exactly when its text meets a semicolon outside quotes in the list. */
  lemma {:induction false} OptionsEndlessExactly(t0: string, ends: seq<string>)
    ensures Options(t0, ends).Hang? <==> MeetsSemicolon(Gap, t0, ends)
    decreases |t0|
  {
    GapSkips(t0, ends);
    var t := SkipSpace(t0);
    if t != "" {
      NothingAfterEnd(t[1..], ends);
      hide MidSection, HasTerminator, SectionStart, OptionText, SkipSpace;
      if t[0] == ',' {
        OptionsEndlessExactly(t[1..], ends);
      } else if t[0] != ';' && !Stops(t, ends) {
        OptionProgress(t);
        FirstOfItem(t, ends);
        var o := OptionText(t, false, false);
        if o.Ok? {
          OptionsEndlessExactly(o.rest, ends);
        }
      }
    }
  }

  /** The first character of an item. */
  lemma FirstOfItem(t: string, ends: seq<string>)
    requires t != "" && t[0] != ',' && t[0] != ';' && !IsBlank(t[0]) && !Stops(t, ends)
    ensures var o := OptionText(t, false, false);
            MeetsSemicolon(Gap, t, ends) <==> o.Ok? && MeetsSemicolon(Gap, o.rest, ends)
  {
    hide Stops, MidSection, Quoted;
    if t[0] == '\'' {
      QuoteMeets(t[1..], ends);
      if Quoted(t[1..]).Ok? {
        ItemMeets(Quoted(t[1..]).rest, false, ends);
      }
    } else {
      ItemMeets(t[1..], false, ends);
    }
  }

  // ----- Lists in parentheses -----

  function NextInList(p: Place, c: char): Place {
    if Quoting(p) then NextQuoted(p, c)
    else if p == QuoteSeen && c == '\'' then Quote
    else if p == Slashes then if c == '/' then Gap else Slashes
    else if p == Tilde && c == '/' then Slashes
    else if p == Ended || c == ')' || c == ';' then Ended
    else if IsBlank(c) || c == ',' then Gap
    else if p.InItem? then p
    else if c == '\'' then Quote
    else if c == '~' then Tilde
    else InItem(false)
  }

  /** Reading on from a place, a semicolon comes outside quotes and slashes before the list is closed. */
  predicate MeetsInList(p: Place, t: string)
    decreases |t|
  {
    t != "" &&
    ((t[0] == ';' && !Quoting(p) && p != Slashes && p != Ended) || MeetsInList(NextInList(p, t[0]), t[1..]))
  }

  lemma {:induction false} NothingAfterList(t: string)
    ensures !MeetsInList(Ended, t)
  {
    if t != "" {
      NothingAfterList(t[1..]);
    }
  }

  lemma {:induction false} DollarsInList(t: string)
    ensures var end := IndexDollars(t);
            MeetsInList(Dollars, t) <==> end >= 0 && MeetsInList(Quote, t[end + 2..])
    decreases |t|
  {
    if t != "" {
      if DollarsAhead(t) {
        assert t[1..][1..] == t[2..];
        assert MeetsInList(DollarsSeen, t[1..]) <==> MeetsInList(Quote, t[2..]);
      } else {
        DollarsInList(t[1..]);
        if t[0] == '$' && |t| > 1 {
          assert NextInList(DollarsSeen, t[1]) == NextInList(Dollars, t[1]);
        }
        var end := IndexDollars(t[1..]);
        assert end >= 0 ==> t[1..][end + 2..] == t[end + 3..];
      }
    }
  }

  /** After a closing quote the next item may begin at once. */
  lemma QuoteClosedInList(t: string)
    requires t == "" || t[0] != '\''
    ensures MeetsInList(QuoteSeen, t) <==> MeetsInList(Gap, t)
  {
  }

  lemma QuoteAfterDollarInList(t: string)
    requires t == "" || t[0] != '$'
    ensures MeetsInList(QuoteDollar, t) <==> MeetsInList(Quote, t)
  {
  }

  lemma {:induction false} QuoteInList(t: string)
    ensures MeetsInList(Quote, t) <==> Quoted(t).Ok? && MeetsInList(Gap, Quoted(t).rest)
    decreases |t|
  {
    if t != "" {
      if |t| > 1 {
        assert t[1..][1..] == t[2..];
      }
      if t[0] == '\'' {
        if |t| > 1 && t[1] == '\'' {
          assert MeetsInList(QuoteSeen, t[1..]) <==> MeetsInList(Quote, t[2..]);
          QuoteInList(t[2..]);
        } else {
          QuoteClosedInList(t[1..]);
        }
      } else if DollarsAhead(t) {
        assert MeetsInList(QuoteDollar, t[1..]) <==> MeetsInList(Dollars, t[2..]);
        DollarsInList(t[2..]);
        var end := IndexDollars(t[2..]);
        if end >= 0 {
          assert t[2..][end + 2..] == t[end + 4..];
          QuoteInList(t[end + 4..]);
        }
      } else {
        if t[0] == '$' {
          QuoteAfterDollarInList(t[1..]);
        }
        QuoteInList(t[1..]);
      }
    }
  }

  /** A word goes on up to a character that ends words. */
  lemma {:induction false} WordInList(t: string)
    ensures MeetsInList(InItem(false), t) <==> MeetsInList(Gap, Word(t).1)
    decreases |t|
  {
    if t != "" && !EndsWord(t[0]) {
      WordInList(t[1..]);
    }
  }

  lemma {:induction false} SlashesInList(t: string)
    ensures var r := ToSlash(t).1; MeetsInList(Slashes, t) <==> MeetsInList(Gap, if r == "" then "" else r[1..])
    decreases |t|
  {
    if t != "" && t[0] != '/' {
      SlashesInList(t[1..]);
    }
  }

  lemma {:induction false} GapSkipsInList(t: string)
    ensures MeetsInList(Gap, SkipSpace(t)) <==> MeetsInList(Gap, t)
    ensures t != "" && t[0] == ',' ==> (MeetsInList(Gap, t[1..]) <==> MeetsInList(Gap, t))
  {
    if t != "" && IsBlank(t[0]) {
      GapSkipsInList(t[1..]);
    }
  }

  lemma CommaSkipsInList(t: string)
    ensures MeetsInList(Gap, SkipComma(t)) <==> MeetsInList(Gap, t)
  {
    GapSkipsInList(t);
    var u := SkipSpace(t);
    GapSkipsInList(u);
    if u != "" {
      GapSkipsInList(u[1..]);
    }
    hide MeetsInList, SkipSpace;
  }

  lemma ValueStarts(t: string)
    requires t != "" && !EndsWord(t[0])
    ensures MeetsInList(Gap, t)
        <==> if t[0] == '\'' then MeetsInList(Quote, t[1..])
             else if t[0] != '~' then MeetsInList(InItem(false), t)
             else MeetsInList(Tilde, t[1..])
    ensures t[0] == '~' && |t| > 1 && t[1] == '/' ==> (MeetsInList(Tilde, t[1..]) <==> MeetsInList(Slashes, t[2..]))
  {
    if |t| > 1 {
      assert t[1..][1..] == t[2..];
    }
  }

  /** A value is read to its end, and the list goes on. */
  lemma ValueInList(t: string)
    requires t != "" && !EndsWord(t[0])
    ensures var v := ReadValueOf(t); MeetsInList(Gap, t) <==> v.Ok? && MeetsInList(Gap, v.rest)
  {
    ValueStarts(t);
    ValueCases(t);
    assert SkipSpace(t) == t;
    hide ReadValueOf, SkipSpace, Quoted, Word, ToSlash, MeetsInList;
    if t[0] == '\'' {
      QuoteInList(t[1..]);
    } else if t[0] != '~' {
      WordInList(t);
    } else if |t| > 1 && t[1] == '/' {
      SlashesInList(t[2..]);
    } else {
      TildeAlone(t[1..]);
    }
  }

  lemma TildeAlone(t: string)
    requires t == "" || t[0] != '/'
    ensures MeetsInList(Tilde, t) <==> MeetsInList(Gap, t)
  {
  }

  /** The same for readParenList, after the opening parenthesis. */
  lemma {:induction false} ListEndlessExactly(t0: string)
    ensures ListItems(t0).Hang? <==> MeetsInList(Gap, t0)
    decreases |t0|
  {
    GapSkipsInList(t0);
    var t := SkipSpace(t0);
    if t != "" {
      NothingAfterList(t[1..]);
      hide ReadValueOf, SkipComma, SkipSpace;
      if t[0] == ',' {
        ListEndlessExactly(t[1..]);
      } else if t[0] != ';' && t[0] != ')' {
        ValueProgress(t);
        ValueInList(t);
        var v := ReadValueOf(t);
        if v.Ok? {
          CommaSkipsInList(v.rest);
          ListEndlessExactly(SkipComma(v.rest));
        }
      }
    }
  }

  // ----- Whole commands -----

  /** The text a section hands to the reader of a list, if any. */
  datatype Handed = NoList | OptionList(text: string, ends: seq<string>) | ColumnList(text: string)

  function AfterKeyword(t: string, kw: string, ends: seq<string>): Handed {
    match SkipKeyword(t, kw)
    case NotThere => NoList
    case There(rest) => OptionList(rest, ends)
  }

  /** ALL VIEWS is no list. */
  function ViewList(t: string): Handed {
    match SkipKeyword(t, "MATERIALIZE")
    case NotThere => NoList
    case There(rest) => if HasPrefixFold(SkipSpace(rest), "ALL VIEWS") then NoList else OptionList(rest, [])
  }

  /** The columns of a file come after its path, in parentheses. */
  function FileColumns(t: string, cmd: LoadCommand): Handed {
    match ValueSection(t, "FROM")
    case Ok(_, rest) =>
      var r := SkipSpace(rest);
      if cmd.kind == CSV && r != "" && r[0] == '(' then ColumnList(r[1..]) else NoList
    case _ => NoList
  }

  function HandedBy(state: State, t: string, cmd: LoadCommand): Handed {
    match state
    case With => AfterKeyword(t, "WITH", WITH_ENDS)
    case Set => AfterKeyword(t, "SET", SET_ENDS)
    case Cast => AfterKeyword(t, "CAST", CAST_ENDS)
    case Including => AfterKeyword(t, INCLUDING_KEYWORD, TABLE_ENDS)
    case Excluding => AfterKeyword(t, EXCLUDING_KEYWORD, TABLE_ENDS)
    case Materialize => ViewList(t)
    case From => FileColumns(t, cmd)
    case _ => NoList
  }

  /** The list meets a semicolon outside quotes. */
  predicate SemicolonIn(h: Handed) {
    match h
    case NoList => false
    case OptionList(text, ends) => MeetsSemicolon(Gap, text, ends)
    case ColumnList(text) => MeetsInList(Gap, text)
  }

  /** What the sections hand over, in the order in which the parser reaches them. */
  function HandedOver(state: State, t0: string, cmd: LoadCommand): seq<Handed>
    decreases |t0|
  {
    var t := SkipSpace(t0);
    if t == "" then []
    else
      [HandedBy(state, t, cmd)]
      + match Step(state, t, cmd)
        case Ok(next, rest) => HandedOver(next.state, rest, next.cmd)
        case _ => []
  }

  /** Every list of a command. */
  function ListsOf(s0: string): seq<Handed> {
    var s := TrimSpace(s0);
    if !HasPrefixFold(s, "LOAD") then [] else HandedOver(Init, s, EMPTY)
  }

  lemma ListSectionEndless(t: string, kw: string, ends: seq<string>)
    ensures ListSection(t, kw, ends).Hang? <==> SemicolonIn(AfterKeyword(t, kw, ends))
  {
    hide SkipKeyword, SkipSpace, Options, MeetsSemicolon;
    if SkipKeyword(t, kw).There? {
      var rest := SkipKeyword(t, kw).rest;
      OptionsEndlessExactly(SkipSpace(rest), ends);
      GapSkips(rest, ends);
    }
  }

  lemma ViewSectionEndless(t: string)
    ensures ViewSection(t).Hang? <==> SemicolonIn(ViewList(t))
  {
    hide SkipKeyword, SkipSpace, Options, MeetsSemicolon, HasPrefixFold;
    if SkipKeyword(t, "MATERIALIZE").There? {
      var rest := SkipKeyword(t, "MATERIALIZE").rest;
      OptionsEndlessExactly(SkipSpace(rest), []);
      GapSkips(rest, []);
    }
  }

  lemma FromSectionEndless(t: string, cmd: LoadCommand)
    ensures FromSection(t, cmd).Hang? <==> SemicolonIn(FileColumns(t, cmd))
  {
    hide ValueSection, MeetsInList, ListItems;
    var v := ValueSection(t, "FROM");
    if v.Ok? && cmd.kind == CSV {
      var r := SkipSpace(v.rest);
      if r != "" {
        assert SkipSpace(r) == r;
        ListEndlessExactly(r[1..]);
      }
    }
  }

  lemma ItemsEndless(state: State, t: string, cmd: LoadCommand)
    requires state != From
    ensures Items(state, t).Hang? <==> SemicolonIn(HandedBy(state, t, cmd))
  {
    hide ListSection, SQLSection, ViewSection, SemicolonIn, AfterKeyword, ViewList;
    assert SemicolonIn(NoList) == false by {
      NoListIsNone();
    }
    match state {
      case With => ListSectionEndless(t, "WITH", WITH_ENDS);
      case Set => ListSectionEndless(t, "SET", SET_ENDS);
      case Cast => ListSectionEndless(t, "CAST", CAST_ENDS);
      case Including => ListSectionEndless(t, INCLUDING_KEYWORD, TABLE_ENDS);
      case Excluding => ListSectionEndless(t, EXCLUDING_KEYWORD, TABLE_ENDS);
      case Materialize => ViewSectionEndless(t);
      case _ =>
    }
  }

  lemma NoListIsNone()
    ensures !SemicolonIn(NoList)
  {
  }

  /** Steps that read no list always end. */
  lemma PlainStep(state: State, t: string, cmd: LoadCommand)
    requires t != "" && state in {Init, LoadType, Into, TargetTable, TargetSchema, Done}
    ensures !Step(state, t, cmd).Hang? && HandedBy(state, t, cmd) == NoList
  {
    hide HasPrefixFold, TrimSpace, SkipKeyword, SkipSpace, ValueSection, ReadValueOf, AdvanceState, EqualFold, SetTable;
  }

  lemma FromStep(t: string, cmd: LoadCommand)
    requires t != ""
    ensures Step(From, t, cmd).Hang? <==> SemicolonIn(HandedBy(From, t, cmd))
  {
    FromSectionEndless(t, cmd);
    hide FromSection, SemicolonIn, FileColumns;
  }

  lemma ItemsStep(state: State, t: string, cmd: LoadCommand)
    requires t != "" && state !in {Init, LoadType, From, Into, TargetTable, TargetSchema, Done}
    ensures Step(state, t, cmd).Hang? <==> SemicolonIn(HandedBy(state, t, cmd))
  {
    ItemsEndless(state, t, cmd);
    hide Items, HandedBy, SemicolonIn, AdvanceState, ListOf;
  }

  /** A step never ends exactly when it hands over a list that meets a semicolon. */
  lemma StepEndless(state: State, t: string, cmd: LoadCommand)
    requires t != ""
    ensures Step(state, t, cmd).Hang? <==> SemicolonIn(HandedBy(state, t, cmd))
  {
    hide *;
    if state == From {
      FromStep(t, cmd);
    } else if state in {Init, LoadType, Into, TargetTable, TargetSchema, Done} {
      PlainStep(state, t, cmd);
      NoListIsNone();
    } else {
      ItemsStep(state, t, cmd);
    }
  }

  lemma {:induction false} LoopEndlessExactly(state: State, t0: string, cmd: LoadCommand)
    ensures Loop(state, t0, cmd) == Endless <==> exists h <- HandedOver(state, t0, cmd) :: SemicolonIn(h)
    decreases |t0|
  {
    var t := SkipSpace(t0);
    if t != "" {
      StepEndless(state, t, cmd);
      var p := Step(state, t, cmd);
      hide Step, HandedBy, SemicolonIn;
      var first, later := HandedBy(state, t, cmd), HandedOver(state, t0, cmd)[1..];
      assert HandedOver(state, t0, cmd) == [first] + later;
      if p.Ok? {
        LoopEndlessExactly(p.value.state, p.rest, p.value.cmd);
      }
    }
  }

  /**
   Parsing a command never ends exactly when one of its lists meets a semicolon outside quotes: semicolons
   in SQL bodies, quoted values and quoted options do no harm.
   */
  lemma EndlessExactly(s: string)
    ensures Parse(s) == Endless <==> exists h <- ListsOf(s) :: SemicolonIn(h)
  {
    hide TrimSpace, HasPrefixFold, Loop, HandedOver, SemicolonIn;
    LoopEndlessExactly(Init, TrimSpace(s), EMPTY);
  }

  lemma {:induction false} MeetsOne(p: Place, t: string, ends: seq<string>)
    ensures MeetsSemicolon(p, t, ends) ==> ';' in t
    ensures MeetsInList(p, t) ==> ';' in t
    decreases |t|
  {
    if t != "" {
      hide Stops, NextInOptions, NextInList;
      MeetsOne(NextInOptions(p, t, ends), t[1..], ends);
      MeetsOne(NextInList(p, t[0]), t[1..], ends);
    }
  }

  /** In particular it ends when no text that reaches a list holds a semicolon at all. */
  lemma ListsWithoutSemicolonEnd(s: string)
    requires forall h <- ListsOf(s) :: h.NoList? || ';' !in h.text
    ensures Parse(s) != Endless
  {
    hide MeetsSemicolon, MeetsInList, ListsOf, Parse;
    EndlessExactly(s);
    if Parse(s) == Endless {
      var h :| h in ListsOf(s) && SemicolonIn(h);
      MeetsOne(Gap, h.text, if h.OptionList? then h.ends else []);
    }
  }
}
