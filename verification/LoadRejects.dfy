/**
 Which texts are no LOAD commands, what is dropped, and what may be missing (internal/configfile/parser.go).
 */
module LoadRejects {
  import opened Text
  import opened LoadReaders
  import opened LoadParser
  import opened LoadPrinter
  import opened LoadRoundTrip
  import opened LoadLayout
  import LoadTermination

  /** The keyword is at the front, in any case. */
  predicate Starts(t: string, kw: string) {
    |t| >= |kw| && forall i | 0 <= i < |kw| :: CaseOf(t[i], kw[i])
  }

  lemma StartsIs(t: string, kw: string)
    ensures HasPrefixFold(t, kw) <==> Starts(t, kw)
  {
    FoldIsCase(t, kw);
  }

  lemma NoKeyword(t: string, kw: string)
    requires t != "" && !IsBlank(t[0]) && !Starts(t, kw)
    ensures SkipKeyword(t, kw) == NotThere
  {
    StartsIs(t, kw);
    assert SkipSpace(t) == t;
  }

  /** A round that fails rejects the command. */
  lemma FailsOnce(state: State, t0: string, t: string, cmd: LoadCommand)
    requires SkipSpace(t0) == t && t != "" && Step(state, t, cmd) == Error
    ensures Loop(state, t0, cmd) == Rejected
  {
    hide Step, SkipSpace;
  }

  // ----- The words before the sections -----

  /** Text that does not start with LOAD. */
  lemma WithoutLoad(s: string)
    requires !Starts(TrimSpace(s), "LOAD")
    ensures Parse(s) == Rejected
  {
    StartsIs(TrimSpace(s), "LOAD");
  }

  /** After LOAD comes neither DATABASE nor CSV. */
  lemma WithoutKind(o: Opening, t: string)
    requires Spells(o.load, "LOAD") && Blanks(o.afterLoad)
    requires EndsDark(t) && !IsSpace(t[0]) && !Starts(t, "DATABASE") && !Starts(t, "CSV")
    ensures Parse(o.load + (o.afterLoad + t)) == Rejected
  {
    assert !IsBlank(t[0]) && SkipSpace(t) == t && t != "";
    TrimSpaceIdempotent(t);
    StartsIs(t, "DATABASE");
    StartsIs(t, "CSV");
    assert Step(LoadType, t, EMPTY) == Error;
    hide *;
    SuffixDark(o.afterLoad, t);
    LoadRead(o, o.afterLoad + t);
    BlanksSkipped(o.afterLoad, t);
    FailsOnce(LoadType, o.afterLoad + t, t, EMPTY);
  }

  /** After the kind of source comes no FROM. */
  lemma WithoutFrom(o: Opening, source: Source, target: string, t: string)
    requires OpeningOk(o, source, target) && EndsDark(t) && !IsBlank(t[0]) && !Starts(t, "FROM")
    ensures Parse(o.load + (o.afterLoad + (o.kind + (o.afterKind + t)))) == Rejected
  {
    var cmd := EMPTY.(kind := if source.Database? then MySQL else CSV);
    assert t != "" && SkipSpace(t) == t && Spells(o.load, "LOAD") && Blanks(o.afterKind);
    NoKeyword(t, "FROM");
    NoFrom(t, cmd);
    hide *;
    SuffixDark(o.afterKind, t);
    SuffixDark(o.kind, o.afterKind + t);
    SuffixDark(o.afterLoad, o.kind + (o.afterKind + t));
    LoadRead(o, o.afterLoad + (o.kind + (o.afterKind + t)));
    KindRead(o, source, target, o.afterKind + t);
    BlanksSkipped(o.afterKind, t);
    FailsOnce(From, o.afterKind + t, t, cmd);
  }

  lemma NoFrom(t: string, cmd: LoadCommand)
    requires t != "" && SkipKeyword(t, "FROM") == NotThere
    ensures Step(From, t, cmd) == Error
  {
    hide SkipKeyword;
  }

  lemma NoInto(t: string, cmd: LoadCommand)
    requires t != "" && SkipKeyword(t, "INTO") == NotThere
    ensures Step(Into, t, cmd) == Error
  {
    hide SkipKeyword;
  }

  /** After the source comes something that is not INTO. */
  lemma WithoutInto(o: Opening, source: Source, target: string, t: string)
    requires OpeningOk(o, source, target) && EndsDark(t) && !IsBlank(t[0]) && t[0] != '(' && !Starts(t, "INTO")
    ensures Parse(o.load + (o.afterLoad + (o.kind + (o.afterKind + WriteFrom(o, source, t))))) == Rejected
  {
    var from := WriteFrom(o, source, t);
    var cmd := EMPTY.(kind := if source.Database? then MySQL else CSV);
    assert t != "" && SkipSpace(t) == t && Spells(o.load, "LOAD") && Blanks(o.afterKind);
    NoKeyword(t, "INTO");
    NoInto(t, WithSource(source));
    FromFirst(o, source, target, t);
    hide *;
    FromDark(o, source, t);
    SuffixDark(o.afterKind, from);
    SuffixDark(o.kind, o.afterKind + from);
    SuffixDark(o.afterLoad, o.kind + (o.afterKind + from));
    LoadRead(o, o.afterLoad + (o.kind + (o.afterKind + from)));
    KindRead(o, source, target, o.afterKind + from);
    var rest := FromRead(o, source, target, t, cmd);
    BlanksSkipped(o.afterKind, from);
    FromApplied(o.afterKind + from, from, cmd, WithSource(source), rest);
    FailsOnce(Into, rest, t, WithSource(source));
  }

  // ----- What may be missing -----

  /** The text may end after the source: the command then has no target. */
  lemma CutAfterSource(o: Opening, source: Source, target: string)
    requires OpeningOk(o, source, target) && (source.File? ==> source.columns == [])
    ensures Parse(o.load + (o.afterLoad + (o.kind + (o.afterKind + (o.from + (o.afterFrom + o.source))))))
         == Finish(WithSource(source))
    ensures WithSource(source)
         == match source
              case Database(u) => LoadCommand(MySQL, u, "", "", "", "", [], [], [], [], [], [], [], [], [])
              case File(p, cs) => LoadCommand(CSV, "", "", p, "", "", cs, [], [], [], [], [], [], [], [])
  {
    var v := if source.Database? then source.uri else source.path;
    var t := o.from + (o.afterFrom + o.source);
    var cmd := EMPTY.(kind := if source.Database? then MySQL else CSV);
    assert Spells(o.load, "LOAD") && Spells(o.from, "FROM") && Blanks(o.afterKind) && Blanks(o.afterFrom);
    assert WritesValue(o.source, v);
    ValueRead(o.source, v, "");
    assert o.source + "" == o.source && SkipSpace(o.source) == o.source;
    IntoWord();
    hide *;
    SpelledSkipped(o.from, "FROM", o.afterFrom + o.source);
    BlanksSkipped(o.afterFrom, o.source);
    SourceAtEnd(t, o.afterFrom + o.source, o.source, v, source, cmd);
    ValueDark(o.source, v);
    SuffixDark(o.afterFrom, o.source);
    SuffixDark(o.from, o.afterFrom + o.source);
    SuffixDark(o.afterKind, t);
    SuffixDark(o.kind, o.afterKind + t);
    SuffixDark(o.afterLoad, o.kind + (o.afterKind + t));
    LoadRead(o, o.afterLoad + (o.kind + (o.afterKind + t)));
    KindRead(o, source, target, o.afterKind + t);
    BlanksSkipped(o.afterKind, t);
    FromApplied(o.afterKind + t, t, cmd, WithSource(source), "");
    FinishAtEnd(Into, WithSource(source));
  }

  lemma SourceAtEnd(t: string, rest: string, text: string, v: string, source: Source, cmd: LoadCommand)
    requires SkipKeyword(t, "FROM") == There(rest) && SkipSpace(rest) == text && ReadValueOf(text) == Ok(v, "")
    requires cmd == EMPTY.(kind := if source.Database? then MySQL else CSV)
    requires if source.Database? then v == source.uri else v == source.path && source.columns == []
    ensures FromSection(t, cmd) == Ok(WithSource(source), "")
  {
    assert ValueSection(t, "FROM") == Ok(v, "");
    assert SkipSpace("") == "";
    hide ValueSection;
  }

  // ----- Sections that are none -----

  /** Text after the target that starts no section is dropped, and with it all that follows. */
  lemma UnknownDropped(o: Opening, source: Source, target: string, gap: string, t: string)
    requires OpeningOk(o, source, target) && gap != "" && Blanks(gap) && EndsDark(t) && !IsBlank(t[0])
    requires !Starts(t, "WITH") && !Starts(t, "SET") && !Starts(t, "CAST") && !Starts(t, "BEFORE LOAD")
    requires !Starts(t, "AFTER LOAD") && !Starts(t, "INCLUDING") && !Starts(t, "EXCLUDING")
    requires !Starts(t, "MATERIALIZE") && !Starts(t, "TARGET")
    ensures Parse(o.load + (o.afterLoad + (o.kind + (o.afterKind + WriteFrom(o, source, WriteInto(o, gap + t))))))
         == Finish(Base(source, target))
  {
    NoState(t);
    assert SkipSpace(t) == t && t != "" && IsBlank(gap[0]) && (gap + t)[0] == gap[0];
    hide *;
    BlanksSkipped(gap, t);
    AdvanceSkips(gap + t);
    SuffixDark(gap, t);
    OpeningRead(o, source, target, gap + t);
    LoadTermination.DoneDropsRest(gap + t, Base(source, target));
  }

  lemma NoState(t: string)
    requires t != "" && !IsBlank(t[0])
    requires !Starts(t, "WITH") && !Starts(t, "SET") && !Starts(t, "CAST") && !Starts(t, "BEFORE LOAD")
    requires !Starts(t, "AFTER LOAD") && !Starts(t, "INCLUDING") && !Starts(t, "EXCLUDING")
    requires !Starts(t, "MATERIALIZE") && !Starts(t, "TARGET")
    ensures AdvanceState(t) == Done
  {
    StartsIs(t, "WITH");
    StartsIs(t, "SET");
    StartsIs(t, "CAST");
    StartsIs(t, "BEFORE LOAD");
    StartsIs(t, "AFTER LOAD");
    StartsIs(t, "INCLUDING");
    StartsIs(t, "EXCLUDING");
    StartsIs(t, "MATERIALIZE");
    StartsIs(t, "TARGET");
    NotLonger(t, "TARGET", " TABLE");
    NotLonger(t, "TARGET", " SCHEMA");
    assert "TARGET" + " TABLE" == "TARGET TABLE" && "TARGET" + " SCHEMA" == "TARGET SCHEMA";
    assert SkipSpace(t) == t;
    hide HasPrefixFold, Starts, SkipSpace;
  }

  lemma NotLonger(t: string, kw: string, more: string)
    requires !HasPrefixFold(t, kw)
    ensures !HasPrefixFold(t, kw + more)
  {
    if HasPrefixFold(t, kw + more) {
      ShorterFolds(t, kw, more);
    }
  }

  /** The first words of a section without the rest of its keyword. */
  predicate Malformed(t: string) {
    || (Starts(t, "BEFORE LOAD") && !Starts(t, "BEFORE LOAD DO") && !Starts(t, "BEFORE LOAD EXECUTE"))
    || (Starts(t, "AFTER LOAD") && !Starts(t, "AFTER LOAD DO") && !Starts(t, "AFTER LOAD EXECUTE"))
    || (Starts(t, "INCLUDING") && !Starts(t, "INCLUDING ONLY TABLE NAMES MATCHING"))
    || (Starts(t, "EXCLUDING") && !Starts(t, "EXCLUDING TABLE NAMES MATCHING"))
    || (Starts(t, "TARGET") && !Starts(t, "TARGET TABLE") && !Starts(t, "TARGET SCHEMA"))
  }

  /** A section whose keyword is not complete. */
  lemma MalformedRejected(o: Opening, source: Source, target: string, gap: string, t: string)
    requires OpeningOk(o, source, target) && gap != "" && Blanks(gap) && EndsDark(t) && !IsBlank(t[0]) && Malformed(t)
    ensures Parse(o.load + (o.afterLoad + (o.kind + (o.afterKind + WriteFrom(o, source, WriteInto(o, gap + t))))))
         == Rejected
  {
    assert SkipSpace(t) == t && t != "" && IsBlank(gap[0]) && (gap + t)[0] == gap[0];
    hide *;
    BlanksSkipped(gap, t);
    AdvanceSkips(gap + t);
    SuffixDark(gap, t);
    OpeningRead(o, source, target, gap + t);
    MalformedFails(t, Base(source, target));
    FailsOnce(AdvanceState(t), gap + t, t, Base(source, target));
  }

  lemma MalformedFails(t: string, cmd: LoadCommand)
    requires t != "" && !IsBlank(t[0]) && Malformed(t)
    ensures Step(AdvanceState(t), t, cmd) == Error
  {
    AdvanceByLetter(t);
    hide HasPrefixFold, AdvanceState, Step, Items, SkipKeyword, Starts;
    if Starts(t, "TARGET") {
      TargetFails(t, cmd);
    } else if Starts(t, "INCLUDING") {
      StartsIs(t, "INCLUDING");
      NoKeyword(t, INCLUDING_KEYWORD);
      ListFails(Including, t, cmd);
    } else if Starts(t, "EXCLUDING") {
      StartsIs(t, "EXCLUDING");
      NoKeyword(t, EXCLUDING_KEYWORD);
      ListFails(Excluding, t, cmd);
    } else if Starts(t, "BEFORE LOAD") {
      StartsIs(t, "BEFORE LOAD");
      NoKeyword(t, "BEFORE LOAD DO");
      NoKeyword(t, "BEFORE LOAD EXECUTE");
      SQLFails(BeforeLoad, t, cmd);
    } else {
      StartsIs(t, "AFTER LOAD");
      NoKeyword(t, "AFTER LOAD DO");
      NoKeyword(t, "AFTER LOAD EXECUTE");
      SQLFails(AfterLoad, t, cmd);
    }
  }

  lemma ListFails(state: State, t: string, cmd: LoadCommand)
    requires t != "" && (state == Including || state == Excluding)
    requires SkipKeyword(t, if state == Including then INCLUDING_KEYWORD else EXCLUDING_KEYWORD) == NotThere
    ensures Step(state, t, cmd) == Error
  {
    hide SkipKeyword;
  }

  lemma SQLFails(state: State, t: string, cmd: LoadCommand)
    requires t != "" && (state == BeforeLoad || state == AfterLoad)
    requires SkipKeyword(t, if state == BeforeLoad then "BEFORE LOAD DO" else "AFTER LOAD DO") == NotThere
    requires SkipKeyword(t, if state == BeforeLoad then "BEFORE LOAD EXECUTE" else "AFTER LOAD EXECUTE") == NotThere
    ensures Step(state, t, cmd) == Error
  {
    SQLKeywords();
    hide SkipKeyword;
  }

  lemma TargetFails(t: string, cmd: LoadCommand)
    requires t != "" && !IsBlank(t[0]) && Starts(t, "TARGET") && !Starts(t, "TARGET TABLE") && !Starts(t, "TARGET SCHEMA")
    ensures Step(AdvanceState(t), t, cmd) == Error
  {
    StartsIs(t, "TARGET");
    StartsIs(t, "TARGET TABLE");
    StartsIs(t, "TARGET SCHEMA");
    NoKeyword(t, "TARGET TABLE");
    TargetAlone(t);
    hide SkipKeyword, AdvanceState;
  }

  lemma TargetAlone(t: string)
    requires t != "" && !IsBlank(t[0]) && HasPrefixFold(t, "TARGET")
    requires !HasPrefixFold(t, "TARGET TABLE") && !HasPrefixFold(t, "TARGET SCHEMA")
    ensures AdvanceState(t) == TargetTable
  {
    FirstIs(t, "TARGET", 'T');
    FirstIs(t, "WITH", 'W');
    FirstIs(t, "SET", 'S');
    FirstIs(t, "CAST", 'C');
    FirstIs(t, "BEFORE LOAD", 'B');
    FirstIs(t, "AFTER LOAD", 'A');
    FirstIs(t, "INCLUDING", 'I');
    FirstIs(t, "EXCLUDING", 'E');
    FirstIs(t, "MATERIALIZE", 'M');
    assert SkipSpace(t) == t;
    hide HasPrefixFold, Upper, SkipSpace;
  }
}
