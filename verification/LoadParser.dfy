/** The state machine that parses one LOAD command (internal/configfile/parser.go). */
module LoadParser {
  import opened Text
  import opened LoadReaders

  datatype Kind = MySQL | PostgreSQL | CSV | SQLite | MSSQL

  datatype LoadCommand = LoadCommand(
    kind: Kind, sourceURI: string, targetURI: string, filePath: string, targetTable: string,
    targetSchema: string, sourceColumns: seq<string>, with: seq<string>, settings: seq<string>,
    castRules: seq<string>, beforeLoad: seq<string>, afterLoad: seq<string>,
    includingOnly: seq<string>, excluding: seq<string>, materializeViews: seq<string>)

  const EMPTY := LoadCommand(MySQL, "", "", "", "", "", [], [], [], [], [], [], [], [], [])

  datatype State =
    | Init | LoadType | From | Into | TargetTable | TargetSchema | With | Set | Cast | BeforeLoad | AfterLoad
    | Including | Excluding | Materialize | Done

  /** The outcome of a whole command: it may also be that parsing never ends. */
  datatype Outcome = Command(cmd: LoadCommand) | Rejected | Endless

  // ----- Keywords -----

  /** The text after a keyword, if the keyword is there. */
  datatype After = NotThere | There(rest: string)

  function SkipKeyword(t0: string, kw: string): (r: After)
    ensures r.There? ==> |r.rest| + |kw| <= |t0|
  {
    var t := SkipSpace(t0);
    if HasPrefixFold(t, kw) then There(t[|kw|..]) else NotThere
  }

  method SkipKeywordAt(s: string, from: nat, kw: string) returns (ok: bool, pos: nat)
    requires from <= |s|
    ensures ok <==> SkipKeyword(s[from..], kw).There?
    ensures from <= pos <= |s|
    ensures ok ==> s[pos..] == SkipKeyword(s[from..], kw).rest
    ensures !ok ==> s[pos..] == SkipSpace(s[from..])
  {
    hide SkipSpace;
    pos := SkipSpaceAt(s, from);
    ok := HasPrefixFold(s[pos..], kw);
    if ok {
      DropDrop(s, pos, |kw|);
      pos := pos + |kw|;
    }
  }

  /** The state for the section whose keyword comes next. */
  function AdvanceState(t0: string): State {
    var t := SkipSpace(t0);
    if HasPrefixFold(t, "WITH") then With
    else if HasPrefixFold(t, "SET") then Set
    else if HasPrefixFold(t, "CAST") then Cast
    else if HasPrefixFold(t, "BEFORE LOAD") then BeforeLoad
    else if HasPrefixFold(t, "AFTER LOAD") then AfterLoad
    else if HasPrefixFold(t, "INCLUDING") then Including
    else if HasPrefixFold(t, "EXCLUDING") then Excluding
    else if HasPrefixFold(t, "MATERIALIZE") then Materialize
    else if HasPrefixFold(t, "TARGET SCHEMA") then TargetSchema
    else if HasPrefixFold(t, "TARGET TABLE") then TargetTable
    else if HasPrefixFold(t, "TARGET") then TargetTable
    else Done
  }

  // ----- Sections -----

  /** A section that holds one value, such as TARGET SCHEMA. */
  function ValueSection(t: string, kw: string): (p: Parsed<string>)
    ensures p.Ok? ==> |p.rest| + |kw| <= |t|
    ensures !p.Hang?
  {
    match SkipKeyword(t, kw)
    case NotThere => Error
    case There(rest) => ReadValueOf(SkipSpace(rest))
  }

  /** A section that holds an option list. */
  function ListSection(t: string, kw: string, terminators: seq<string>): (p: Parsed<seq<string>>)
    ensures p.Ok? ==> |p.rest| + |kw| <= |t|
  {
    match SkipKeyword(t, kw)
    case NotThere => Error
    case There(rest) => Options(SkipSpace(rest), terminators)
  }

  /** A section that holds SQL statements; the word at its end may also be EXECUTE. */
  function SQLSection(t: string, kw: string): (p: Parsed<seq<string>>)
    ensures p.Ok? ==> |p.rest| < |t|
    ensures !p.Hang?
  {
    match SkipKeyword(t, kw + " DO")
    case There(rest) => Statements(SkipSpace(rest))
    case NotThere =>
      match SkipKeyword(t, kw + " EXECUTE")
      case NotThere => Error
      case There(rest) => Statements(SkipSpace(rest))
  }

  /** ALL VIEWS stands for every view; the word VIEWS alone is taken as part of the first name. */
  function ViewSection(t: string): (p: Parsed<seq<string>>)
    ensures p.Ok? ==> |p.rest| < |t|
  {
    match SkipKeyword(t, "MATERIALIZE")
    case NotThere => Error
    case There(rest) =>
      var r := SkipSpace(rest);
      if HasPrefixFold(r, "ALL VIEWS") then Ok(["*"], r[9..]) else Options(r, [])
  }

  /** schema.table is cut at its first dot; the schema is public by default. */
  function SetTable(cmd: LoadCommand, table: string): LoadCommand {
    var i := IndexOf(table, '.');
    if i >= 0 then cmd.(targetSchema := table[..i], targetTable := table[i + 1..])
    else cmd.(targetTable := table, targetSchema := "public")
  }

  /** FROM: a URI, or for a file its path and perhaps its columns. */
  function FromSection(t: string, cmd: LoadCommand): (p: Parsed<LoadCommand>)
    ensures p.Ok? ==> |p.rest| + 4 <= |t|
  {
    match ValueSection(t, "FROM")
    case Error => Error
    case Hang => Hang
    case Ok(uri, rest) =>
      if cmd.kind != CSV then Ok(cmd.(sourceURI := uri), rest)
      else
        var r := SkipSpace(rest);
        if r == "" || r[0] != '(' then Ok(cmd.(filePath := uri), r)
        else
          match ParenList(r)
          case Error => Error
          case Hang => Hang
          case Ok(columns, after) => Ok(cmd.(filePath := uri, sourceColumns := columns), after)
  }

  const WITH_ENDS := ["SET", "CAST", "BEFORE", "AFTER", "INCLUDING", "EXCLUDING", "MATERIALIZE"]
  const SET_ENDS := ["CAST", "BEFORE", "AFTER"]
  const CAST_ENDS := ["BEFORE", "AFTER"]
  const TABLE_ENDS := ["WITH", "BEFORE", "AFTER"]

  const INCLUDING_KEYWORD := "INCLUDING ONLY TABLE NAMES MATCHING"
  const EXCLUDING_KEYWORD := "EXCLUDING TABLE NAMES MATCHING"

  // ----- One step -----

  /** The command and the state after a section. */
  datatype Next = Next(state: State, cmd: LoadCommand)

  function Section(p: Parsed<LoadCommand>): (r: Parsed<Next>)
    ensures r.Ok? <==> p.Ok?
    ensures r.Hang? <==> p.Hang?
    ensures p.Ok? ==> r == Ok(Next(AdvanceState(p.rest), p.value), p.rest)
  {
    match p
    case Error => Error
    case Hang => Hang
    case Ok(cmd, rest) => Ok(Next(AdvanceState(rest), cmd), rest)
  }

  function ListOf(state: State, cmd: LoadCommand, items: seq<string>): LoadCommand {
    match state
    case With => cmd.(with := items)
    case Set => cmd.(settings := items)
    case Cast => cmd.(castRules := items)
    case BeforeLoad => cmd.(beforeLoad := items)
    case AfterLoad => cmd.(afterLoad := items)
    case Including => cmd.(includingOnly := items)
    case Excluding => cmd.(excluding := items)
    case Materialize => cmd.(materializeViews := items)
    case _ => cmd
  }

  function Items(state: State, t: string): (p: Parsed<seq<string>>)
    ensures p.Ok? ==> |p.rest| < |t|
  {
    match state
    case With => ListSection(t, "WITH", WITH_ENDS)
    case Set => ListSection(t, "SET", SET_ENDS)
    case Cast => ListSection(t, "CAST", CAST_ENDS)
    case BeforeLoad => SQLSection(t, "BEFORE LOAD")
    case AfterLoad => SQLSection(t, "AFTER LOAD")
    case Including => ListSection(t, INCLUDING_KEYWORD, TABLE_ENDS)
    case Excluding => ListSection(t, EXCLUDING_KEYWORD, TABLE_ENDS)
    case Materialize => ViewSection(t)
    case _ => Error
  }

  function WithItems(state: State, cmd: LoadCommand, p: Parsed<seq<string>>): Parsed<LoadCommand> {
    match p
    case Error => Error
    case Hang => Hang
    case Ok(items, rest) => Ok(ListOf(state, cmd, items), rest)
  }

  /** One round of the loop on text that starts with no white space. */
  function Step(state: State, t: string, cmd: LoadCommand): (p: Parsed<Next>)
    requires t != ""
    ensures p.Ok? ==> |p.rest| < |t|
  {
    match state
    case Init =>
      if HasPrefixFold(t, "LOAD") then Ok(Next(LoadType, cmd), t[4..]) else Error
    case LoadType =>
      var r := TrimSpace(t);
      if HasPrefixFold(r, "DATABASE") then Ok(Next(From, cmd), t[8..])
      else if HasPrefixFold(r, "CSV") then Ok(Next(From, cmd.(kind := CSV)), t[3..])
      else Error
    case From =>
      (match FromSection(t, cmd)
       case Error => Error
       case Hang => Hang
       case Ok(c, rest) => Ok(Next(Into, c), rest))
    case Into =>
      (match SkipKeyword(t, "INTO")
       case NotThere => Error
       case There(rest) =>
         var r := SkipSpace(rest);
         if |r| > 11 && EqualFold(r[..11], "TARGET TABLE") then Ok(Next(TargetTable, cmd), r)
         else
           match ReadValueOf(r)
           case Error => Error
           case Hang => Hang
           case Ok(uri, after) => Ok(Next(AdvanceState(after), cmd.(targetURI := uri)), after))
    case TargetTable =>
      (match ValueSection(t, "TARGET TABLE")
       case Error => Error
       case Hang => Hang
       case Ok(table, rest) => Ok(Next(AdvanceState(rest), SetTable(cmd, table)), rest))
    case TargetSchema =>
      (match ValueSection(t, "TARGET SCHEMA")
       case Error => Error
       case Hang => Hang
       case Ok(schema, rest) => Ok(Next(AdvanceState(rest), cmd.(targetSchema := schema)), rest))
    case Done => Ok(Next(Done, cmd), t[1..])
    case _ => Section(WithItems(state, cmd, Items(state, t)))
  }

  /** The kind of source follows from the URI, except for a file. */
  function Finish(cmd: LoadCommand): Outcome {
    if cmd.kind == CSV then Command(cmd)
    else if "mysql://" <= cmd.sourceURI then Command(cmd.(kind := MySQL))
    else if "postgresql://" <= cmd.sourceURI || "postgres://" <= cmd.sourceURI || "pgsql://" <= cmd.sourceURI then
      Command(cmd.(kind := PostgreSQL))
    else if "sqlite://" <= cmd.sourceURI then Command(cmd.(kind := SQLite))
    else if "mssql://" <= cmd.sourceURI || "sqlserver://" <= cmd.sourceURI then Command(cmd.(kind := MSSQL))
    else Rejected
  }

  function Loop(state: State, t0: string, cmd: LoadCommand): Outcome
    decreases |t0|
  {
    var t := SkipSpace(t0);
    if t == "" then Finish(cmd)
    else
      match Step(state, t, cmd)
      case Error => Rejected
      case Hang => Endless
      case Ok(next, rest) => Loop(next.state, rest, next.cmd)
  }

  function Parse(s0: string): Outcome {
    var s := TrimSpace(s0);
    if !HasPrefixFold(s, "LOAD") then Rejected else Loop(Init, s, EMPTY)
  }

  /** The test for INTO TARGET TABLE compares eleven characters with twelve. */
  lemma IntoTargetTableNeverTaken(r: string)
    requires |r| > 11
    ensures !EqualFold(r[..11], "TARGET TABLE")
  {
  }

  // ----- The same with a cursor -----

  method ReadValueSection(s: string, from: nat, kw: string) returns (r: At<string>)
    requires from <= |s|
    ensures Agrees(r, s, from, ValueSection(s[from..], kw))
  {
    hide SkipKeyword, SkipSpace, ReadValueOf;
    var ok, pos := SkipKeywordAt(s, from, kw);
    if !ok {
      return Failed;
    }
    pos := SkipSpaceAt(s, pos);
    r := ReadValue(s, pos);
  }

  method ReadListSection(s: string, from: nat, kw: string, terminators: seq<string>) returns (r: At<seq<string>>)
    requires from <= |s|
    ensures Agrees(r, s, from, ListSection(s[from..], kw, terminators))
  {
    hide SkipKeyword, SkipSpace, Options;
    var ok, pos := SkipKeywordAt(s, from, kw);
    if !ok {
      return Failed;
    }
    pos := SkipSpaceAt(s, pos);
    r := ReadOptionsUntil(s, pos, terminators);
  }

  lemma SkipKeywordSkips(t: string, kw: string)
    ensures SkipKeyword(SkipSpace(t), kw) == SkipKeyword(t, kw)
  {
    SkipSpaceTwice(t);
  }

  method ReadSQLSection(s: string, from: nat, kw: string) returns (r: At<seq<string>>)
    requires from <= |s|
    ensures Agrees(r, s, from, SQLSection(s[from..], kw))
  {
    SkipKeywordSkips(s[from..], kw + " EXECUTE");
    hide SkipKeyword, SkipSpace, Statements;
    var ok, pos := SkipKeywordAt(s, from, kw + " DO");
    if !ok {
      ok, pos := SkipKeywordAt(s, pos, kw + " EXECUTE");
      if !ok {
        return Failed;
      }
    }
    pos := SkipSpaceAt(s, pos);
    r := ReadSQLStatements(s, pos);
  }

  method ReadViewSection(s: string, from: nat) returns (r: At<seq<string>>)
    requires from <= |s|
    ensures Agrees(r, s, from, ViewSection(s[from..]))
  {
    hide SkipKeyword, SkipSpace, Options;
    var ok, pos := SkipKeywordAt(s, from, "MATERIALIZE");
    if !ok {
      return Failed;
    }
    pos := SkipSpaceAt(s, pos);
    if HasPrefixFold(s[pos..], "ALL VIEWS") {
      DropDrop(s, pos, 9);
      return Value(["*"], pos + 9);
    }
    r := ReadOptionsUntil(s, pos, []);
  }

  method ReadFromSection(s: string, from: nat, cmd: LoadCommand) returns (r: At<LoadCommand>)
    requires from <= |s|
    ensures Agrees(r, s, from, FromSection(s[from..], cmd))
  {
    hide ValueSection, SkipSpace, ParenList;
    var v := ReadValueSection(s, from, "FROM");
    if v.Failed? {
      return Failed;
    }
    var uri, pos := v.value, v.pos;
    if cmd.kind != CSV {
      return Value(cmd.(sourceURI := uri), pos);
    }
    pos := SkipSpaceAt(s, pos);
    if pos < |s| && s[pos] == '(' {
      var columns := ReadParenList(s, pos);
      match columns {
        case Failed => return Failed;
        case Stuck => return Stuck;
        case Value(c, after) => return Value(cmd.(filePath := uri, sourceColumns := c), after);
      }
    }
    return Value(cmd.(filePath := uri), pos);
  }

  method ReadItems(s: string, from: nat, state: State) returns (r: At<seq<string>>)
    requires from <= |s|
    ensures Agrees(r, s, from, Items(state, s[from..]))
  {
    hide ListSection, SQLSection, ViewSection;
    match state {
      case With => r := ReadListSection(s, from, "WITH", WITH_ENDS);
      case Set => r := ReadListSection(s, from, "SET", SET_ENDS);
      case Cast => r := ReadListSection(s, from, "CAST", CAST_ENDS);
      case BeforeLoad => r := ReadSQLSection(s, from, "BEFORE LOAD");
      case AfterLoad => r := ReadSQLSection(s, from, "AFTER LOAD");
      case Including => r := ReadListSection(s, from, INCLUDING_KEYWORD, TABLE_ENDS);
      case Excluding => r := ReadListSection(s, from, EXCLUDING_KEYWORD, TABLE_ENDS);
      case Materialize => r := ReadViewSection(s, from);
      case _ => r := Failed;
    }
  }

  method ReadInto(s: string, from: nat, cmd: LoadCommand) returns (r: At<Next>)
    requires from < |s|
    ensures Agrees(r, s, from, Step(Into, s[from..], cmd))
  {
    hide SkipKeyword, SkipSpace, ReadValueOf, AdvanceState;
    var ok, pos := SkipKeywordAt(s, from, "INTO");
    if !ok {
      return Failed;
    }
    pos := SkipSpaceAt(s, pos);
    if pos + 11 < |s| && EqualFold(s[pos..pos + 11], "TARGET TABLE") {
      // Eleven characters never equal the twelve of the keyword: this branch is dead in the source too.
      assert false;
    }
    assert |s[pos..]| > 11 ==> s[pos..][..11] == s[pos..pos + 11];
    var v := ReadValue(s, pos);
    if v.Failed? {
      return Failed;
    }
    return Value(Next(AdvanceState(s[v.pos..]), cmd.(targetURI := v.value)), v.pos);
  }

  method ReadStart(s: string, from: nat, state: State, cmd: LoadCommand) returns (r: At<Next>)
    requires from < |s| && (state == Init || state == LoadType || state == Done)
    ensures Agrees(r, s, from, Step(state, s[from..], cmd))
  {
    hide TrimSpace;
    DropDrop(s, from, 1);
    if state == Init {
      if !HasPrefixFold(s[from..], "LOAD") {
        return Failed;
      }
      DropDrop(s, from, 4);
      return Value(Next(LoadType, cmd), from + 4);
    } else if state == LoadType {
      var remaining := TrimSpace(s[from..]);
      if HasPrefixFold(remaining, "DATABASE") {
        DropDrop(s, from, 8);
        return Value(Next(From, cmd), from + 8);
      } else if HasPrefixFold(remaining, "CSV") {
        DropDrop(s, from, 3);
        return Value(Next(From, cmd.(kind := CSV)), from + 3);
      }
      return Failed;
    }
    return Value(Next(Done, cmd), from + 1);
  }

  method ReadSection(s: string, from: nat, state: State, cmd: LoadCommand) returns (r: At<Next>)
    requires from < |s| && state !in {Init, LoadType, Into, Done}
    ensures Agrees(r, s, from, Step(state, s[from..], cmd))
  {
    hide FromSection, ValueSection, Items, AdvanceState, SetTable;
    if state == From {
      var v := ReadFromSection(s, from, cmd);
      match v {
        case Failed => return Failed;
        case Stuck => return Stuck;
        case Value(c, pos) => return Value(Next(Into, c), pos);
      }
    } else if state == TargetTable {
      var v := ReadValueSection(s, from, "TARGET TABLE");
      if v.Failed? {
        return Failed;
      }
      return Value(Next(AdvanceState(s[v.pos..]), SetTable(cmd, v.value)), v.pos);
    } else if state == TargetSchema {
      var v := ReadValueSection(s, from, "TARGET SCHEMA");
      if v.Failed? {
        return Failed;
      }
      return Value(Next(AdvanceState(s[v.pos..]), cmd.(targetSchema := v.value)), v.pos);
    }
    var v := ReadItems(s, from, state);
    match v {
      case Failed => return Failed;
      case Stuck => return Stuck;
      case Value(items, pos) => return Value(Next(AdvanceState(s[pos..]), ListOf(state, cmd, items)), pos);
    }
  }

  /** The loop over the sections of a command. */
  method ParseCommand(input: string) returns (outcome: Outcome)
    ensures outcome == Parse(input)
  {
    hide SkipSpace, TrimSpace, Step;
    var s := TrimSpace(input);
    if !HasPrefixFold(s, "LOAD") {
      return Rejected;
    }
    var cmd, state, pos := EMPTY, Init, 0;
    assert s[0..] == s;
    while pos < |s|
      invariant pos <= |s|
      invariant Loop(state, s[pos..], cmd) == Parse(input)
      decreases |s| - pos
    {
      ghost var before := s[pos..];
      pos := SkipSpaceAt(s, pos);
      if pos >= |s| {
        return Finish(cmd);
      }
      var next;
      if state == Init || state == LoadType || state == Done {
        next := ReadStart(s, pos, state, cmd);
      } else if state == Into {
        next := ReadInto(s, pos, cmd);
      } else {
        next := ReadSection(s, pos, state, cmd);
      }
      match next {
        case Failed => return Rejected;
        case Stuck => return Endless;
        case Value(n, after) =>
          state, cmd, pos := n.state, n.cmd, after;
      }
    }
    assert s[pos..] == "";
    FinishAtEnd(state, cmd);
    return Finish(cmd);
  }

  lemma FinishAtEnd(state: State, cmd: LoadCommand)
    ensures Loop(state, "", cmd) == Finish(cmd)
  {
  }
}
