/**
 When parsing a .load command ends, and what it drops on the way (internal/configfile/parser.go).
 */
module LoadTermination {
  import opened Text
  import opened LoadReaders
  import opened LoadParser
  import opened LoadPrinter
  import opened LoadRoundTrip

  // ----- The loops, round by round -----

  /** One round of a reader's loop: it leaves, or goes on with the text that is left. */
  datatype Round = Exit | Again(rest: string)

  /** A round of readOptionsUntil. */
  function OptionsRound(t0: string, terminators: seq<string>): Round {
    var t := SkipSpace(t0);
    if t == "" then Exit
    else if t[0] == ',' then Again(t[1..])
    else if HasTerminator(t, terminators) || SectionStart(t) then Exit
    else
      match OptionText(t, false, false)
      case Ok(_, rest) => Again(SkipSpace(rest))
      case _ => Exit
  }

  function OptionsRounds(n: nat, t: string, terminators: seq<string>): Round {
    if n == 0 then Again(t)
    else
      match OptionsRound(t, terminators)
      case Exit => Exit
      case Again(rest) => OptionsRounds(n - 1, rest, terminators)
  }

  /** A round of readParenList. */
  function ListRound(t0: string): Round {
    var t := SkipSpace(t0);
    if t == "" || t[0] == ')' then Exit
    else if t[0] == ',' then Again(t[1..])
    else
      match ReadValueOf(t)
      case Ok(_, rest) => Again(SkipComma(rest))
      case _ => Exit
  }

  function ListRounds(n: nat, t: string): Round {
    if n == 0 then Again(t)
    else
      match ListRound(t)
      case Exit => Exit
      case Again(rest) => ListRounds(n - 1, rest)
  }

  /** At a semicolon a round takes nothing. */
  lemma StuckAtSemicolon(t: string, terminators: seq<string>)
    requires t != "" && t[0] == ';' && !HasTerminator(t, terminators) && !SectionStart(t)
    ensures OptionsRound(t, terminators) == Again(t)
  {
    assert SkipSpace(t) == t;
  }

  lemma OptionsRoundSkips(t: string, terminators: seq<string>)
    ensures OptionsRound(SkipSpace(t), terminators) == OptionsRound(t, terminators)
  {
    SkipSpaceTwice(t);
  }

  lemma HangGoesOn(t: string, terminators: seq<string>)
    ensures Options(t, terminators).Hang?
        ==> var r := OptionsRound(t, terminators); r.Again? && Options(r.rest, terminators).Hang?
  {
    var u := SkipSpace(t);
    hide HasTerminator, SectionStart;
    if Options(t, terminators).Hang? {
      if u[0] != ',' && u[0] != ';' {
        OptionsSkip(OptionText(u, false, false).rest, terminators);
      } else if u[0] == ';' {
        StuckAtSemicolon(u, terminators);
        OptionsRoundSkips(t, terminators);
        OptionsSkip(t, terminators);
      }
    }
  }

  lemma {:induction false} HangNeverExits(n: nat, t: string, terminators: seq<string>)
    requires Options(t, terminators).Hang?
    ensures OptionsRounds(n, t, terminators).Again?
  {
    if n > 0 {
      HangGoesOn(t, terminators);
      HangNeverExits(n - 1, OptionsRound(t, terminators).rest, terminators);
    }
  }

  lemma NoHangMoves(t: string, terminators: seq<string>)
    requires !Options(t, terminators).Hang?
    ensures var r := OptionsRound(t, terminators);
            r.Again? ==> |r.rest| < |t| && !Options(r.rest, terminators).Hang?
  {
    var u := SkipSpace(t);
    hide HasTerminator, SectionStart;
    if u != "" && u[0] != ',' && u[0] != ';' {
      OptionProgress(u);
      if OptionText(u, false, false).Ok? {
        OptionsSkip(OptionText(u, false, false).rest, terminators);
      }
    }
  }

  lemma {:induction false} NoHangExits(t: string, terminators: seq<string>) returns (n: nat)
    requires !Options(t, terminators).Hang?
    ensures OptionsRounds(n, t, terminators).Exit?
    decreases |t|
  {
    NoHangMoves(t, terminators);
    var r := OptionsRound(t, terminators);
    if r.Exit? {
      n := 1;
    } else {
      n := NoHangExits(r.rest, terminators);
      n := n + 1;
    }
  }

  /** The outcome Hang means that the loop of readOptionsUntil really never ends, and no other does. */
  lemma OptionsHangExact(t: string, terminators: seq<string>)
    ensures Options(t, terminators).Hang? <==> forall n: nat :: OptionsRounds(n, t, terminators).Again?
  {
    if Options(t, terminators).Hang? {
      forall n: nat
        ensures OptionsRounds(n, t, terminators).Again?
      {
        HangNeverExits(n, t, terminators);
      }
    } else {
      var n := NoHangExits(t, terminators);
    }
  }

  lemma ListRoundCases(t: string)
    ensures var r := ListRound(t);
            && (ListItems(t).Hang? ==> r.Again? && ListItems(r.rest).Hang?)
            && (!ListItems(t).Hang? && r.Again? ==> |r.rest| < |t| && !ListItems(r.rest).Hang?)
  {
    var u := SkipSpace(t);
    if u != "" && u[0] !in {')', ','} {
      if u[0] == ';' {
        assert SkipSpace(u) == u && Word(u) == ("", u);
        assert SkipComma(u) == u;
      } else {
        ValueProgress(u);
      }
    }
  }

  lemma {:induction false} ListHangNeverExits(n: nat, t: string)
    requires ListItems(t).Hang?
    ensures ListRounds(n, t).Again?
  {
    ListRoundCases(t);
    if n > 0 {
      ListHangNeverExits(n - 1, ListRound(t).rest);
    }
  }

  lemma {:induction false} ListNoHangExits(t: string) returns (n: nat)
    requires !ListItems(t).Hang?
    ensures ListRounds(n, t).Exit?
    decreases |t|
  {
    ListRoundCases(t);
    var r := ListRound(t);
    if r.Exit? {
      n := 1;
    } else {
      n := ListNoHangExits(r.rest);
      n := n + 1;
    }
  }

  /** The same for readParenList. */
  lemma ListHangExact(t: string)
    ensures ListItems(t).Hang? <==> forall n: nat :: ListRounds(n, t).Again?
  {
    if ListItems(t).Hang? {
      forall n: nat
        ensures ListRounds(n, t).Again?
      {
        ListHangNeverExits(n, t);
      }
    } else {
      var n := ListNoHangExits(t);
    }
  }

  // ----- A command on which parsing does not end -----

  const STUCK_OPTION := "\nWITH $$;$$"

  lemma StuckText()
    ensures STUCK_OPTION == "\n" + ("WITH" + (" " + "$$;$$")) && EndsDark(STUCK_OPTION)
  {
  }

  lemma StuckAhead()
    ensures var t := "WITH" + (" " + "$$;$$");
            SkipSpace(STUCK_OPTION) == t && AdvanceState(STUCK_OPTION) == With
  {
    var t := "WITH" + (" " + "$$;$$");
    StuckText();
    NewlineSkipped(t);
    AdvanceByLetter(t);
    PrefixFolds("WITH", " " + "$$;$$");
    AdvanceSkips(STUCK_OPTION);
    hide *;
  }

  lemma StuckSection()
    ensures ListSection("WITH" + (" " + "$$;$$"), "WITH", WITH_ENDS) == Hang
  {
    var t := "WITH" + (" " + "$$;$$");
    KeywordSkipped(t, "WITH", " " + "$$;$$");
    SpaceSkipped("$$;$$");
    StuckOption();
    hide SkipKeyword, SkipSpace, Options;
  }

  lemma HangEndless(t0: string, t: string, cmd: LoadCommand)
    requires SkipSpace(t0) == t && t != "" && ListSection(t, "WITH", WITH_ENDS) == Hang
    ensures Loop(With, t0, cmd) == Endless
  {
    hide SkipSpace, ListSection;
    assert Step(With, t, cmd) == Hang;
  }

  /** Quoted by $$, a semicolon passes the splitting of commands and reaches an option list. */
  lemma QuotedSemicolonHangs(source: Source, target: string)
    requires SourceOk(source) && NoDollars(target)
    ensures Parse(PrintHead(source, target, STUCK_OPTION)) == Endless
  {
    StuckText();
    StuckAhead();
    StuckSection();
    var t := "WITH" + (" " + "$$;$$");
    hide *;
    HeadRoundTrip(source, target, STUCK_OPTION);
    HangEndless(STUCK_OPTION, t, Base(source, target));
  }

  lemma StuckPieces()
    ensures OptionText("$$;$$", false, false) == Prepend(['$'], OptionText("$;$$", true, false))
    ensures OptionText("$;$$", true, false) == Prepend(['$'], OptionText(";$$", true, false))
    ensures OptionText(";$$", true, false) == Ok("", ";$$")
  {
    assert "$$;$$" == ['$'] + "$;$$" && "$;$$" == ['$'] + ";$$";
    OptionTakes('$', "$;$$", false, false);
    OptionTakes('$', ";$$", true, false);
    hide MidSection, Quoted;
  }

  lemma StuckOption()
    ensures Options("$$;$$", WITH_ENDS) == Hang
  {
    var t, u := "$$;$$", ";$$";
    TerminatorLists();
    SymbolIsNoSection(t);
    SymbolIsNoSection(u);
    TerminatorsAreSections(t, WITH_ENDS);
    TerminatorsAreSections(u, WITH_ENDS);
    StuckPieces();
    hide SectionStart, HasTerminator, MidSection, OptionText;
    assert SkipSpace(t) == t && SkipSpace(u) == u;
    assert Options(u, WITH_ENDS) == Hang;
  }

  lemma SymbolIsNoSection(t: string)
    requires t != "" && t[0] in {'$', ';'}
    ensures !SectionStart(t)
  {
    OtherHead(t, "BEFORE");
    OtherHead(t, "AFTER");
    OtherHead(t, "INCLUDING");
    OtherHead(t, "EXCLUDING");
    OtherHead(t, "MATERIALIZE");
    OtherHead(t, "TARGET");
    OtherHead(t, "WITH");
    OtherHead(t, "SET");
    OtherHead(t, "CAST");
  }

  // ----- What is dropped -----

  lemma {:induction false} DoneDropsRest(t: string, cmd: LoadCommand)
    ensures Loop(Done, t, cmd) == Finish(cmd)
    decreases |t|
  {
    var u := SkipSpace(t);
    if u != "" {
      DoneDropsRest(u[1..], cmd);
      assert Step(Done, u, cmd) == Ok(Next(Done, cmd), u[1..]);
      hide Step;
    }
  }

  lemma {:induction false} WordOf(w: string, rest: string)
    requires (forall c <- w :: !EndsWord(c)) && rest != "" && EndsWord(rest[0])
    ensures Word(w + rest) == (w, rest)
  {
    if w == "" {
      assert w + rest == rest;
    } else {
      assert w[0] in w;
      assert (w + rest)[1..] == w[1..] + rest;
      WordOf(w[1..], rest);
      assert [w[0]] + w[1..] == w;
    }
  }

  /** The word TABLE starts no section. */
  lemma TableLetters(t: string)
    requires |t| >= 3 && t[0] == 'T' && t[2] == 'B'
    ensures !HasPrefixFold(t, "WITH") && !HasPrefixFold(t, "SET") && !HasPrefixFold(t, "CAST")
    ensures !HasPrefixFold(t, "BEFORE LOAD") && !HasPrefixFold(t, "AFTER LOAD") && !HasPrefixFold(t, "INCLUDING")
    ensures !HasPrefixFold(t, "EXCLUDING") && !HasPrefixFold(t, "MATERIALIZE")
    ensures !HasPrefixFold(t, "TARGET SCHEMA") && !HasPrefixFold(t, "TARGET TABLE") && !HasPrefixFold(t, "TARGET")
  {
    TableIsNotTarget(t);
    hide HasPrefixFold;
    OtherHead(t, "WITH");
    OtherHead(t, "SET");
    OtherHead(t, "CAST");
    OtherHead(t, "BEFORE LOAD");
    OtherHead(t, "AFTER LOAD");
    OtherHead(t, "INCLUDING");
    OtherHead(t, "EXCLUDING");
    OtherHead(t, "MATERIALIZE");
  }

  lemma TableIsNotTarget(t: string)
    requires |t| >= 3 && t[2] == 'B'
    ensures !HasPrefixFold(t, "TARGET SCHEMA") && !HasPrefixFold(t, "TARGET TABLE") && !HasPrefixFold(t, "TARGET")
  {
    hide HasPrefixFold;
    LetterAt(t, "TARGET SCHEMA", 2);
    LetterAt(t, "TARGET TABLE", 2);
    LetterAt(t, "TARGET", 2);
  }

  lemma TableIsNoSection(rest: string)
    ensures AdvanceState(" " + ("TABLE" + rest)) == Done
  {
    var t := "TABLE" + rest;
    SpaceSkipped(t);
    TableLetters(t);
    hide HasPrefixFold, SkipSpace;
  }

  lemma TargetWord(after: string)
    requires after != "" && after[0] == ' '
    ensures ReadValueOf("TARGET" + after) == Ok("TARGET", after)
    ensures SkipSpace("TARGET" + after) == "TARGET" + after
  {
    var r := "TARGET" + after;
    assert r[0] == 'T';
    assert SkipSpace(r) == r;
    assert forall c <- "TARGET" :: !EndsWord(c);
    WordOf("TARGET", after);
    hide Word, SkipSpace;
  }

  /**
   INTO TARGET TABLE takes TARGET for the URI of the target and drops the table name and every section
   that follows.
   */
  lemma IntoTargetTableDropsRest(rest: string, cmd: LoadCommand)
    ensures Loop(Into, "INTO" + (" " + ("TARGET" + (" " + ("TABLE" + rest)))), cmd)
         == Finish(cmd.(targetURI := "TARGET"))
  {
    var after := " " + ("TABLE" + rest);
    var r := "TARGET" + after;
    var t := "INTO" + (" " + r);
    assert SkipSpace(t) == t && t != "" && r != "" && !IsBlank(r[0]);
    hide *;
    KeywordSkipped(t, "INTO", " " + r);
    SpaceSkipped(r);
    TargetWord(after);
    TableIsNoSection(rest);
    IntoReads(t, " " + r, r, "TARGET", after, cmd);
    LoopOnce(Into, t, t, cmd, Next(Done, cmd.(targetURI := "TARGET")), after);
    DoneDropsRest(after, cmd.(targetURI := "TARGET"));
  }

  /** MATERIALIZE VIEWS keeps the word VIEWS as part of the first name, for every list of names. */
  lemma MaterializeViewsKeepsWord(names: seq<string>, tail: string)
    requires names != [] && OptionsOk(["VIEWS " + names[0]] + names[1..]) && EndsSection(tail)
    ensures ViewSection("MATERIALIZE" + ((" VIEWS " + Join(names, ", ")) + tail))
         == Ok(["VIEWS " + names[0]] + names[1..], SkipSpace(tail))
  {
    var items := ["VIEWS " + names[0]] + names[1..];
    ViewsJoin(names);
    FirstLetter(items[0], "ALL VIEWS");
    assert items[0][0] == 'V' && Upper('V') != Upper("ALL VIEWS"[0]);
    assert ClauseOk(Views(items));
    var t := "MATERIALIZE" + (Spaced(Join(items, ", ")) + tail);
    hide *;
    PrintedViews(t, items, tail);
  }

  lemma ViewsJoin(names: seq<string>)
    requires names != []
    ensures Spaced(Join(["VIEWS " + names[0]] + names[1..], ", ")) == " VIEWS " + Join(names, ", ")
  {
    JoinAfter("VIEWS ", names[0], names[1..]);
    assert [names[0]] + names[1..] == names;
    hide Join;
    assert " " + ("VIEWS " + Join(names, ", ")) == " VIEWS " + Join(names, ", ");
  }

  lemma JoinAfter(before: string, first: string, rest: seq<string>)
    ensures Join([before + first] + rest, ", ") == before + Join([first] + rest, ", ")
  {
    assert ([before + first] + rest)[1..] == rest && ([first] + rest)[1..] == rest;
    JoinFirst(before + first, rest);
    JoinFirst(first, rest);
    hide Join;
    assert before + first + (", " + Join(rest, ", ")) == before + (first + (", " + Join(rest, ", ")));
  }

  lemma JoinFirst(first: string, rest: seq<string>)
    ensures Join([first] + rest, ", ") == if rest == [] then first else first + (", " + Join(rest, ", "))
  {
    assert ([first] + rest)[1..] == rest;
  }
}
