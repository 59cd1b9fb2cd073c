/** Cutting a .load file into commands (internal/configfile/parser.go). */
module SplitCommands {
  import opened Text
  import opened LoadReaders

  // ----- The scanner, with its look-ahead -----

  /** The text between the cuts, or the error of an unclosed $$. */
  datatype Cuts = Cut(segments: seq<string>) | Unclosed

  function Glue(text: string, cuts: Cuts): Cuts {
    match cuts
    case Unclosed => Unclosed
    case Cut(segments) => if segments == [] then Cut([text]) else Cut([text + segments[0]] + segments[1..])
  }

  function NewSegment(cuts: Cuts): Cuts {
    match cuts
    case Unclosed => Unclosed
    case Cut(segments) => Cut([""] + segments)
  }

  /** Length of a quoted string after its opening quote; without a closing quote it is all the text. */
  function QuoteRun(s: string): (n: nat)
    ensures n <= |s|
  {
    if s == "" then 0
    else if s[0] == '\'' then if |s| > 1 && s[1] == '\'' then 2 + QuoteRun(s[2..]) else 1
    else 1 + QuoteRun(s[1..])
  }

  function Segments(s: string): Cuts
    decreases |s|
  {
    if s == "" then Cut([""])
    else if DollarsAhead(s) then
      var end := IndexDollars(s[2..]);
      if end < 0 then Unclosed else Glue(s[..end + 4], Segments(s[end + 4..]))
    else if s[0] == '\'' then
      var n := QuoteRun(s[1..]) + 1;
      Glue(s[..n], Segments(s[n..]))
    else if s[0] == ';' then NewSegment(Segments(s[1..]))
    else Glue(s[..1], Segments(s[1..]))
  }

  datatype Commands = Commands(list: seq<string>) | UnclosedDollars | MissingSemicolon

  /** The segments that are not blank, trimmed. */
  function Kept(segments: seq<string>): seq<string> {
    if segments == [] then [] else Item(segments[0]) + Kept(segments[1..])
  }

  function Result(cuts: Cuts): Commands {
    match cuts
    case Unclosed => UnclosedDollars
    case Cut(segments) =>
      if segments == [] then Commands([])
      else if TrimSpace(segments[|segments| - 1]) != "" then MissingSemicolon
      else Commands(Kept(segments[..|segments| - 1]))
  }

  function Split(s: string): Commands {
    Result(Segments(s))
  }

  // ----- The scanner as written -----

  method ReadQuoteRun(s: string, from: nat) returns (pos: nat)
    requires from <= |s|
    ensures pos == from + QuoteRun(s[from..])
  {
    pos := from;
    while pos < |s|
      invariant from <= pos <= |s|
      invariant pos + QuoteRun(s[pos..]) == from + QuoteRun(s[from..])
      decreases |s| - pos
    {
      DropDrop(s, pos, 1);
      if s[pos] == '\'' {
        if pos + 1 < |s| && s[pos + 1] == '\'' {
          DropDrop(s, pos, 2);
          pos := pos + 2;
        } else {
          return pos + 1;
        }
      } else {
        pos := pos + 1;
      }
    }
  }

  /** Commands found so far, followed by what the rest of the text adds to the open segment. */
  function Remaining(done: seq<string>, current: string, cuts: Cuts): Commands {
    Append(done, Result(Glue(current, cuts)))
  }

  function Append(done: seq<string>, r: Commands): Commands {
    match r
    case Commands(list) => Commands(done + list)
    case UnclosedDollars => UnclosedDollars
    case MissingSemicolon => MissingSemicolon
  }

  lemma AppendTwice(a: seq<string>, b: seq<string>, r: Commands)
    ensures Append(a, Append(b, r)) == Append(a + b, r)
  {
    if r.Commands? {
      assert a + (b + r.list) == a + b + r.list;
    }
  }

  lemma GlueTwice(a: string, b: string, cuts: Cuts)
    ensures Glue(a, Glue(b, cuts)) == Glue(a + b, cuts)
  {
    if cuts.Cut? && cuts.segments != [] {
      assert a + (b + cuts.segments[0]) == a + b + cuts.segments[0];
    }
  }

  lemma SegmentsNotEmpty(s: string)
    ensures Segments(s).Cut? ==> Segments(s).segments != []
  {
  }

  lemma RemainingCut(done: seq<string>, current: string, cuts: Cuts)
    requires cuts.Cut? ==> cuts.segments != []
    ensures Remaining(done, current, NewSegment(cuts)) == Remaining(done + Item(current), "", cuts)
  {
    GlueNothing(cuts);
    GlueNew(current, cuts);
    if cuts.Cut? {
      ResultCons(current, cuts.segments);
      hide Result, Item, Glue, NewSegment, Append;
      AppendTwice(done, Item(current), Result(cuts));
    }
  }

  lemma GlueNew(current: string, cuts: Cuts)
    ensures Glue(current, NewSegment(cuts)) == if cuts.Cut? then Cut([current] + cuts.segments) else Unclosed
  {
    if cuts.Cut? {
      assert current + "" == current;
      assert ([""] + cuts.segments)[1..] == cuts.segments;
    }
  }

  lemma ResultCons(first: string, segments: seq<string>)
    requires segments != []
    ensures Result(Cut([first] + segments))
         == Append(Item(first), Result(Cut(segments)))
  {
    var n := |segments|;
    var all := [first] + segments;
    assert all[n] == segments[n - 1];
    assert all[..n][1..] == segments[..n - 1];
  }

  lemma RemainingStart(cuts: Cuts)
    requires cuts.Cut? ==> cuts.segments != []
    ensures Remaining([], "", cuts) == Result(cuts)
  {
    if cuts.Cut? {
      assert "" + cuts.segments[0] == cuts.segments[0];
      assert [cuts.segments[0]] + cuts.segments[1..] == cuts.segments;
    }
  }

  lemma RemainingEnd(done: seq<string>, current: string)
    ensures Remaining(done, current, Segments(""))
         == if TrimSpace(current) != "" then MissingSemicolon else Commands(done)
  {
    assert current + "" == current;
    assert Glue(current, Cut([""])) == Cut([current]);
    assert Kept([current][..0]) == [];
    assert done + [] == done;
  }

  lemma SegmentsDollars(t: string)
    requires DollarsAhead(t)
    ensures var end := IndexDollars(t[2..]);
            Segments(t) == if end < 0 then Unclosed else Glue(t[..end + 4], Segments(t[end + 4..]))
  {
  }

  lemma SegmentsQuote(t: string)
    requires t != "" && t[0] == '\''
    ensures var n := QuoteRun(t[1..]) + 1; Segments(t) == Glue(t[..n], Segments(t[n..]))
  {
  }

  lemma SegmentsOther(t: string)
    requires t != "" && !DollarsAhead(t) && t[0] != '\''
    ensures Segments(t) == if t[0] == ';' then NewSegment(Segments(t[1..])) else Glue(t[..1], Segments(t[1..]))
  {
  }

  lemma Slices(s: string, pos: nat, n: nat)
    requires pos + n <= |s|
    ensures s[pos..][..n] == s[pos..pos + n] && s[pos..][n..] == s[pos + n..]
  {
  }

  /** A piece of text that goes to the open segment as a whole; -1 for an unclosed $$. */
  method TakePiece(s: string, pos: nat) returns (next: int)
    requires pos < |s| && s[pos] != ';'
    ensures next < 0 ==> Segments(s[pos..]) == Unclosed
    ensures next >= 0 ==> pos < next <= |s| && Segments(s[pos..]) == Glue(s[pos..next], Segments(s[next..]))
  {
    hide Segments, IndexDollars, QuoteRun, Glue;
    if DollarsAhead(s[pos..]) {
      SegmentsDollars(s[pos..]);
      DropDrop(s, pos, 2);
      var end := IndexDollars(s[pos + 2..]);
      if end < 0 {
        return -1;
      }
      Slices(s, pos, end + 4);
      next := pos + 2 + end + 2;
    } else if s[pos] == '\'' {
      SegmentsQuote(s[pos..]);
      DropDrop(s, pos, 1);
      next := ReadQuoteRun(s, pos + 1);
      Slices(s, pos, next - pos);
    } else {
      SegmentsOther(s[pos..]);
      Slices(s, pos, 1);
      next := pos + 1;
    }
  }

  method SplitText(s: string) returns (r: Commands)
    ensures r == Split(s)
  {
    hide Segments, Glue, Result, Remaining, TrimSpace, IndexDollars, QuoteRun;
    var commands: seq<string> := [];
    var cur := "";
    var pos := 0;
    assert s[0..] == s;
    SegmentsNotEmpty(s);
    RemainingStart(Segments(s));
    while pos < |s|
      invariant pos <= |s|
      invariant Remaining(commands, cur, Segments(s[pos..])) == Split(s)
      decreases |s| - pos
    {
      if s[pos] == ';' {
        SegmentsOther(s[pos..]);
        DropDrop(s, pos, 1);
        SegmentsNotEmpty(s[pos + 1..]);
        RemainingCut(commands, cur, Segments(s[pos + 1..]));
        commands := commands + Item(cur);
        cur := "";
        pos := pos + 1;
      } else {
        var next := TakePiece(s, pos);
        if next < 0 {
          RemainingUnclosed(commands, cur);
          return UnclosedDollars;
        }
        RemainingGlue(commands, cur, s[pos..next], Segments(s[next..]));
        cur := cur + s[pos..next];
        pos := next;
      }
    }
    assert s[pos..] == "";
    RemainingEnd(commands, cur);
    if TrimSpace(cur) != "" {
      return MissingSemicolon;
    }
    return Commands(commands);
  }

  lemma RemainingUnclosed(done: seq<string>, current: string)
    ensures Remaining(done, current, Unclosed) == UnclosedDollars
  {
  }

  lemma RemainingGlue(done: seq<string>, current: string, piece: string, cuts: Cuts)
    ensures Remaining(done, current, Glue(piece, cuts)) == Remaining(done, current + piece, cuts)
  {
    GlueTwice(current, piece, cuts);
  }

  // ----- Nothing is lost -----

  lemma {:induction false} SplitLosesNothing(s: string)
    ensures Segments(s).Cut? ==> Segments(s).segments != [] && Join(Segments(s).segments, ";") == s
    decreases |s|
  {
    if s != "" {
      if DollarsAhead(s) {
        var end := IndexDollars(s[2..]);
        if end >= 0 {
          SplitLosesNothing(s[end + 4..]);
          PieceJoins(s, end + 4);
        }
      } else if s[0] == '\'' {
        var n := QuoteRun(s[1..]) + 1;
        SplitLosesNothing(s[n..]);
        PieceJoins(s, n);
      } else if s[0] == ';' {
        SplitLosesNothing(s[1..]);
        SegmentJoin(Segments(s[1..]));
        assert ";" + s[1..] == s;
      } else {
        SplitLosesNothing(s[1..]);
        PieceJoins(s, 1);
      }
      hide Join, Glue, NewSegment, IndexDollars, QuoteRun;
    }
  }

  lemma PieceJoins(s: string, n: nat)
    requires n <= |s|
    requires var rest := Segments(s[n..]); rest.Cut? ==> rest.segments != [] && Join(rest.segments, ";") == s[n..]
    ensures var all := Glue(s[..n], Segments(s[n..])); all.Cut? ==> all.segments != [] && Join(all.segments, ";") == s
  {
    GlueJoin(s[..n], Segments(s[n..]));
    assert s[..n] + s[n..] == s;
    hide Segments, Join;
  }

  lemma GlueJoin(text: string, cuts: Cuts)
    requires cuts.Cut? ==> cuts.segments != []
    ensures cuts.Cut? ==> Join(Glue(text, cuts).segments, ";") == text + Join(cuts.segments, ";")
  {
    if cuts.Cut? {
      var segs := cuts.segments;
      var glued := [text + segs[0]] + segs[1..];
      assert glued[1..] == segs[1..];
      if |segs| > 1 {
        assert text + segs[0] + ";" + Join(segs[1..], ";") == text + (segs[0] + ";" + Join(segs[1..], ";"));
      }
    }
  }

  lemma SegmentJoin(cuts: Cuts)
    requires cuts.Cut? ==> cuts.segments != []
    ensures cuts.Cut? ==> Join(NewSegment(cuts).segments, ";") == ";" + Join(cuts.segments, ";")
  {
    if cuts.Cut? {
      assert ([""] + cuts.segments)[1..] == cuts.segments;
      assert "" + ";" + Join(cuts.segments, ";") == ";" + Join(cuts.segments, ";");
    }
  }

  // ----- Where the cuts are: an automaton that reads one character at a time -----

  /**
   Outside; after one $ outside; inside quotes; after a quote inside quotes; inside $$; after one $
   inside $$.
   */
  datatype Mode = Outside | Dollar | InQuote | QuoteSeen | InDollars | DollarSeen

  predicate TopLevel(m: Mode) { m == Outside || m == Dollar || m == QuoteSeen }

  function NextMode(m: Mode, c: char): Mode {
    match m
    case InQuote => if c == '\'' then QuoteSeen else InQuote
    case InDollars => if c == '$' then DollarSeen else InDollars
    case DollarSeen => if c == '$' then Outside else InDollars
    case QuoteSeen => if c == '\'' then InQuote else if c == '$' then Dollar else Outside
    case Dollar => if c == '$' then InDollars else if c == '\'' then InQuote else Outside
    case Outside => if c == '$' then Dollar else if c == '\'' then InQuote else Outside
  }

  /** Cuts at the semicolons at which the automaton is at top level. */
  function Automaton(s: string, m: Mode): Cuts
    decreases |s|
  {
    if s == "" then if m == InDollars || m == DollarSeen then Unclosed else Cut([""])
    else if s[0] == ';' && TopLevel(m) then NewSegment(Automaton(s[1..], Outside))
    else Glue(s[..1], Automaton(s[1..], NextMode(m, s[0])))
  }

  /** Inside $$ the automaton takes everything up to the closing $$. */
  lemma {:induction false} AutomatonDollars(s: string)
    ensures var end := IndexDollars(s);
            Automaton(s, InDollars) == if end < 0 then Unclosed else Glue(s[..end + 2], Automaton(s[end + 2..], Outside))
    decreases |s|
  {
    var end := IndexDollars(s);
    if s == "" {
    } else if DollarsAhead(s) {
      var t := s[1..];
      assert t[1..] == s[2..];
      assert Automaton(t, DollarSeen) == Glue(t[..1], Automaton(s[2..], Outside));
      GlueTwice(s[..1], t[..1], Automaton(s[2..], Outside));
      assert s[..1] + t[..1] == s[..2];
    } else {
      AutomatonDollars(s[1..]);
      AutomatonAfterDollar(s);
      if end >= 0 {
        var t := s[1..];
        assert t[..end - 1 + 2] == s[1..end + 2] && t[end - 1 + 2..] == s[end + 2..];
        GlueTwice(s[..1], s[1..end + 2], Automaton(s[end + 2..], Outside));
        assert s[..1] + s[1..end + 2] == s[..end + 2];
      }
    }
  }

  /** One $ inside $$ makes no difference unless another follows. */
  lemma AutomatonAfterDollar(s: string)
    requires s != "" && !DollarsAhead(s)
    ensures Automaton(s, InDollars) == Glue(s[..1], Automaton(s[1..], InDollars))
  {
    if s[0] == '$' && |s| > 1 {
      var t := s[1..];
      assert NextMode(DollarSeen, t[0]) == NextMode(InDollars, t[0]);
    }
  }

  lemma AutomatonPair(s: string)
    requires |s| > 1 && s[0] == '\'' && s[1] == '\''
    ensures Automaton(s, InQuote) == Glue(s[..2], Automaton(s[2..], InQuote))
  {
    var t := s[1..];
    assert t[1..] == s[2..];
    assert Automaton(t, QuoteSeen) == Glue(t[..1], Automaton(s[2..], InQuote));
    hide Automaton, Glue;
    GlueTwice(s[..1], t[..1], Automaton(s[2..], InQuote));
    assert s[..1] + t[..1] == s[..2];
  }

  lemma GluePart(s: string, k: nat, n: nat, cuts: Cuts)
    requires k <= n <= |s|
    ensures Glue(s[..k], Glue(s[k..][..n - k], cuts)) == Glue(s[..n], cuts)
    ensures s[k..][n - k..] == s[n..]
  {
    hide Glue;
    GlueTwice(s[..k], s[k..][..n - k], cuts);
    assert s[..k] + s[k..][..n - k] == s[..n];
  }

  lemma AutomatonQuoteEnds(s: string)
    requires s == "" || (s[0] == '\'' && !(|s| > 1 && s[1] == '\''))
    ensures var n := QuoteRun(s);
            Automaton(s, InQuote) == Glue(s[..n], Automaton(s[n..], if n < |s| then QuoteSeen else Outside))
  {
    if s == "" {
      GlueNothing(Cut([""]));
    } else if |s| == 1 {
      assert s[1..] == "";
    }
  }

  /** Inside quotes it takes everything up to the closing quote. */
  lemma {:induction false} AutomatonQuote(s: string)
    ensures var n := QuoteRun(s);
            Automaton(s, InQuote) == Glue(s[..n], Automaton(s[n..], if n < |s| then QuoteSeen else Outside))
    decreases |s|
  {
    var n := QuoteRun(s);
    if s == "" || (s[0] == '\'' && !(|s| > 1 && s[1] == '\'')) {
      AutomatonQuoteEnds(s);
    } else if s[0] == '\'' {
      AutomatonPair(s);
      AutomatonQuote(s[2..]);
      hide Automaton, Glue;
      GluePart(s, 2, n, Automaton(s[n..], if n < |s| then QuoteSeen else Outside));
    } else {
      assert Automaton(s, InQuote) == Glue(s[..1], Automaton(s[1..], InQuote));
      AutomatonQuote(s[1..]);
      hide Automaton, Glue;
      GluePart(s, 1, n, Automaton(s[n..], if n < |s| then QuoteSeen else Outside));
    }
  }

  lemma {:induction false} QuoteRunStops(s: string)
    ensures QuoteRun(s) < |s| ==> s[QuoteRun(s)] != '\''
  {
    if s != "" {
      if s[0] == '\'' {
        if |s| > 1 && s[1] == '\'' {
          QuoteRunStops(s[2..]);
        }
      } else {
        QuoteRunStops(s[1..]);
      }
    }
  }

  /** After a closing quote or a single $ the automaton is as good as outside. */
  lemma AfterClosedQuote(s: string)
    requires s == "" || s[0] != '\''
    ensures Automaton(s, QuoteSeen) == Automaton(s, Outside)
  {
  }

  lemma AfterSingleDollar(s: string)
    requires s == "" || s[0] != '$'
    ensures Automaton(s, Dollar) == Automaton(s, Outside)
  {
  }

  /** The scanner cuts at exactly the semicolons outside quotes and $$. */
  lemma {:induction false} CutsExactlyOutside(s: string)
    ensures Segments(s) == Automaton(s, Outside)
    decreases |s|
  {
    if s != "" {
      if DollarsAhead(s) {
        CutsDollars(s);
        var end := IndexDollars(s[2..]);
        if end >= 0 {
          CutsExactlyOutside(s[end + 4..]);
        }
      } else if s[0] == '\'' {
        var n := QuoteRun(s[1..]) + 1;
        CutsQuote(s);
        CutsExactlyOutside(s[n..]);
      } else {
        CutsExactlyOutside(s[1..]);
        if s[0] == '$' {
          AfterSingleDollar(s[1..]);
        }
      }
    }
  }

  lemma CutsDollars(s: string)
    requires DollarsAhead(s)
    ensures var end := IndexDollars(s[2..]);
            Automaton(s, Outside)
            == if end < 0 then Unclosed else Glue(s[..end + 4], Automaton(s[end + 4..], Outside))
  {
    var t, u := s[1..], s[2..];
    assert t[1..] == u;
    assert Automaton(t, Dollar) == Glue(t[..1], Automaton(u, InDollars));
    AutomatonDollars(u);
    var end := IndexDollars(u);
    hide Automaton, IndexDollars;
    if end >= 0 {
      assert u[end + 2..] == s[end + 4..];
      GlueTwice(t[..1], u[..end + 2], Automaton(s[end + 4..], Outside));
      GlueTwice(s[..1], t[..1] + u[..end + 2], Automaton(s[end + 4..], Outside));
      assert s[..1] + (t[..1] + u[..end + 2]) == s[..end + 4];
    }
  }

  lemma CutsQuote(s: string)
    requires s != "" && s[0] == '\''
    ensures var n := QuoteRun(s[1..]) + 1; Automaton(s, Outside) == Glue(s[..n], Automaton(s[n..], Outside))
  {
    var t := s[1..];
    var n := QuoteRun(t);
    AutomatonQuote(t);
    QuoteRunStops(t);
    assert Automaton(s, Outside) == Glue(s[..1], Automaton(t, InQuote));
    assert t[n..] == s[n + 1..];
    AfterClosedQuote(s[n + 1..]);
    hide Automaton, QuoteRun;
    GlueTwice(s[..1], t[..n], Automaton(s[n + 1..], Outside));
    assert s[..1] + t[..n] == s[..n + 1];
  }

  // ----- Joining and splitting again -----

  /** The automaton reads the command without meeting a cut, and ends at top level. */
  predicate Closed(cmd: string, m: Mode)
    decreases |cmd|
  {
    if cmd == "" then TopLevel(m)
    else !(cmd[0] == ';' && TopLevel(m)) && Closed(cmd[1..], NextMode(m, cmd[0]))
  }

  predicate CommandOk(cmd: string) {
    cmd != "" && Trimmed(cmd) && Closed(cmd, Outside)
  }

  lemma {:induction false} ClosedThenSemicolon(cmd: string, m: Mode, rest: string)
    requires Closed(cmd, m)
    ensures Automaton(cmd + (";" + rest), m) == Glue(cmd, NewSegment(Automaton(rest, Outside)))
    decreases |cmd|
  {
    var s := cmd + (";" + rest);
    if cmd == "" {
      assert s == ";" + rest && s[1..] == rest;
      GlueNothing(NewSegment(Automaton(rest, Outside)));
    } else {
      assert s[1..] == cmd[1..] + (";" + rest) && s[..1] == cmd[..1];
      ClosedThenSemicolon(cmd[1..], NextMode(m, cmd[0]), rest);
      GlueTwice(cmd[..1], cmd[1..], NewSegment(Automaton(rest, Outside)));
      assert cmd[..1] + cmd[1..] == cmd;
    }
  }

  lemma GlueNothing(cuts: Cuts)
    requires cuts.Cut? ==> cuts.segments != []
    ensures Glue("", cuts) == cuts
  {
    if cuts.Cut? {
      assert "" + cuts.segments[0] == cuts.segments[0];
      assert [cuts.segments[0]] + cuts.segments[1..] == cuts.segments;
    }
  }

  /** Each command followed by a semicolon. */
  function Terminated(cmds: seq<string>): string {
    if cmds == [] then "" else cmds[0] + (";" + Terminated(cmds[1..]))
  }

  lemma {:induction false} SegmentsOfTerminated(cmds: seq<string>)
    requires forall i | 0 <= i < |cmds| :: CommandOk(cmds[i])
    ensures Segments(Terminated(cmds)) == Cut(cmds + [""])
  {
    CutsExactlyOutside(Terminated(cmds));
    if cmds != [] {
      var rest := Terminated(cmds[1..]);
      SegmentsOfTerminated(cmds[1..]);
      CutsExactlyOutside(rest);
      ClosedThenSemicolon(cmds[0], Outside, rest);
      hide Automaton, Segments, CommandOk;
      assert cmds[0] + "" == cmds[0];
      assert [cmds[0]] + (cmds[1..] + [""]) == cmds + [""];
      assert ([""] + (cmds[1..] + [""]))[1..] == cmds[1..] + [""];
    }
  }

  lemma {:induction false} KeptCommands(cmds: seq<string>)
    requires forall i | 0 <= i < |cmds| :: CommandOk(cmds[i])
    ensures Kept(cmds) == cmds
  {
    if cmds != [] {
      KeptCommands(cmds[1..]);
      TrimSpaceIdempotent(cmds[0]);
      assert [cmds[0]] + cmds[1..] == cmds;
    }
  }

  /** Splitting closed commands that were joined with semicolons gives them back. */
  lemma SplitRoundTrip(cmds: seq<string>)
    requires forall i | 0 <= i < |cmds| :: CommandOk(cmds[i])
    ensures Split(Terminated(cmds)) == Commands(cmds)
  {
    SegmentsOfTerminated(cmds);
    KeptCommands(cmds);
    assert (cmds + [""])[..|cmds|] == cmds;
  }
}
