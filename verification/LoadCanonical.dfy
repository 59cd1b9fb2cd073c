/**
 Every LOAD command that can be written down comes back from its text, whatever the order of its sections
 (internal/configfile/parser.go).
 */
module LoadCanonical {
  import opened Text
  import opened LoadParser
  import opened LoadPrinter
  import opened LoadRoundTrip

  // ----- The sections of a command -----

  function TargetClauses(cmd: LoadCommand): seq<Clause> {
    if cmd.targetTable != "" then [Table(cmd.targetSchema + ("." + cmd.targetTable))]
    else if cmd.targetSchema != "" then [Schema(cmd.targetSchema)]
    else []
  }

  function ViewClauses(cmd: LoadCommand): seq<Clause> {
    if cmd.materializeViews == ["*"] then [AllViews]
    else if cmd.materializeViews != [] then [Views(cmd.materializeViews)]
    else []
  }

  function Unless(items: seq<string>, c: Clause): seq<Clause> {
    if items == [] then [] else [c]
  }

  function ListClauses(cmd: LoadCommand): seq<Clause> {
    Unless(cmd.with, Withs(cmd.with)) + Unless(cmd.settings, Sets(cmd.settings))
    + Unless(cmd.castRules, Casts(cmd.castRules)) + Unless(cmd.beforeLoad, Befores(cmd.beforeLoad))
    + Unless(cmd.afterLoad, Afters(cmd.afterLoad)) + Unless(cmd.includingOnly, Includes(cmd.includingOnly))
    + Unless(cmd.excluding, Excludes(cmd.excluding))
  }

  function ClausesOf(cmd: LoadCommand): seq<Clause> {
    TargetClauses(cmd) + ListClauses(cmd) + ViewClauses(cmd)
  }

  function SourceOf(cmd: LoadCommand): Source {
    if cmd.kind == CSV then File(cmd.filePath, cmd.sourceColumns) else Database(cmd.sourceURI)
  }

  /** The scheme of the URI names the kind of source; a file has no URI. */
  predicate NamedBy(kind: Kind, uri: string) {
    match kind
    case MySQL => "mysql://" <= uri
    case PostgreSQL => "postgresql://" <= uri || "postgres://" <= uri || "pgsql://" <= uri
    case SQLite => "sqlite://" <= uri
    case MSSQL => "mssql://" <= uri || "sqlserver://" <= uri
    case CSV => uri == ""
  }

  /**
   Commands that have a text: a file has no URI, and a database neither path nor columns and the kind its
   URI says; a schema in front of a table has no dot; lists and values are such as can be printed.
   */
  predicate Canonical(cmd: LoadCommand) {
    && (cmd.kind == CSV || (cmd.filePath == "" && cmd.sourceColumns == [])) && NamedBy(cmd.kind, cmd.sourceURI)
    && SourceOk(SourceOf(cmd)) && NoDollars(cmd.targetURI)
    && (cmd.targetTable != "" ==> '.' !in cmd.targetSchema)
    && forall i | 0 <= i < |ClausesOf(cmd)| :: ClauseOk(ClausesOf(cmd)[i])
  }

  // ----- What each section sets -----

  /** The part of a command that a section sets, named by a state of the parser. */
  function GroupOf(c: Clause): State { if c.Schema? then TargetTable else StateOf(c) }

  function Part(cmd: LoadCommand, g: State): seq<string> {
    match g
    case TargetTable => [cmd.targetTable, cmd.targetSchema]
    case With => cmd.with
    case Set => cmd.settings
    case Cast => cmd.castRules
    case BeforeLoad => cmd.beforeLoad
    case AfterLoad => cmd.afterLoad
    case Including => cmd.includingOnly
    case Excluding => cmd.excluding
    case Materialize => cmd.materializeViews
    case _ => []
  }

  /** What the section makes of its part; a schema alone is for a command without a table. */
  function PartBy(c: Clause): seq<string> { Part(Apply(EMPTY, c), GroupOf(c)) }

  predicate SameHead(a: LoadCommand, b: LoadCommand) {
    && a.kind == b.kind && a.sourceURI == b.sourceURI && a.targetURI == b.targetURI && a.filePath == b.filePath
    && a.sourceColumns == b.sourceColumns
  }

  lemma ApplyParts(cmd: LoadCommand, c: Clause, g: State)
    ensures SameHead(Apply(cmd, c), cmd)
    ensures g != GroupOf(c) ==> Part(Apply(cmd, c), g) == Part(cmd, g)
    ensures g == GroupOf(c) && (c.Schema? ==> cmd.targetTable == "") ==> Part(Apply(cmd, c), g) == PartBy(c)
    ensures GroupOf(c) != TargetTable ==> Apply(cmd, c).targetTable == cmd.targetTable
  {
  }

  predicate Apart(cs: seq<Clause>) {
    forall i, j | 0 <= i < j < |cs| :: GroupOf(cs[i]) != GroupOf(cs[j])
  }

  predicate SchemaAlone(cmd: LoadCommand, cs: seq<Clause>) {
    forall i | 0 <= i < |cs| :: cs[i].Schema? ==> cmd.targetTable == ""
  }

  lemma ApartTail(cmd: LoadCommand, cs: seq<Clause>)
    requires cs != [] && Apart(cs) && SchemaAlone(cmd, cs)
    ensures Apart(cs[1..]) && SchemaAlone(Apply(cmd, cs[0]), cs[1..])
    ensures forall i | 0 <= i < |cs| - 1 :: GroupOf(cs[1..][i]) != GroupOf(cs[0])
  {
    ApplyParts(cmd, cs[0], TargetTable);
    var rest := cs[1..];
    assert forall i | 0 <= i < |rest| :: rest[i] == cs[i + 1];
    hide Apply;
  }

  /** Sections of different kinds each set their part and leave the others. */
  lemma {:induction false} AllParts(cmd: LoadCommand, cs: seq<Clause>, g: State)
    requires Apart(cs) && SchemaAlone(cmd, cs)
    ensures SameHead(ApplyAll(cmd, cs), cmd)
    ensures forall i | 0 <= i < |cs| && GroupOf(cs[i]) == g :: Part(ApplyAll(cmd, cs), g) == PartBy(cs[i])
    ensures (forall i | 0 <= i < |cs| :: GroupOf(cs[i]) != g) ==> Part(ApplyAll(cmd, cs), g) == Part(cmd, g)
    decreases |cs|
  {
    if cs != [] {
      var next, rest := Apply(cmd, cs[0]), cs[1..];
      ApartTail(cmd, cs);
      ApplyParts(cmd, cs[0], g);
      assert cs[0].Schema? ==> cmd.targetTable == "";
      hide Apply, Part, PartBy, GroupOf, Apart, SchemaAlone;
      AllParts(next, rest, g);
      forall i | 0 <= i < |cs| && GroupOf(cs[i]) == g
        ensures Part(ApplyAll(cmd, cs), g) == PartBy(cs[i])
      {
        assert i > 0 ==> cs[i] == rest[i - 1];
      }
    }
  }

  // ----- The sections of a command, in any order -----

  /** A printed command has at most one section of each kind. */
  lemma ClausesApart(cmd: LoadCommand)
    ensures Apart(ClausesOf(cmd))
    ensures SchemaAlone(Base(SourceOf(cmd), cmd.targetURI), ClausesOf(cmd))
  {
    var a, b, c := TargetClauses(cmd), ListClauses(cmd), ViewClauses(cmd);
    ListsApart(cmd);
    assert forall i | 0 <= i < |a| :: GroupOf(a[i]) == TargetTable;
    assert forall i | 0 <= i < |c| :: GroupOf(c[i]) == Materialize;
    hide ListClauses, TargetClauses, ViewClauses;
    JoinApart(a, b);
    JoinApart(a + b, c);
  }

  lemma JoinApart(a: seq<Clause>, b: seq<Clause>)
    requires Apart(a) && Apart(b)
    requires forall i, j | 0 <= i < |a| && 0 <= j < |b| :: GroupOf(a[i]) != GroupOf(b[j])
    ensures Apart(a + b)
    ensures forall i | 0 <= i < |a + b| :: (a + b)[i] == if i < |a| then a[i] else b[i - |a|]
  {
  }

  predicate InOrder(cs: seq<Clause>, from: int, to: int) {
    && (forall i | 0 <= i < |cs| :: from <= Rank(cs[i]) < to)
    && forall i, j | 0 <= i < j < |cs| :: Rank(cs[i]) < Rank(cs[j])
  }

  /** The order in which lists are written by default. */
  function Rank(c: Clause): int {
    match c
    case Withs(_) => 0
    case Sets(_) => 1
    case Casts(_) => 2
    case Befores(_) => 3
    case Afters(_) => 4
    case Includes(_) => 5
    case Excludes(_) => 6
    case _ => -1
  }

  lemma OrderAppend(a: seq<Clause>, items: seq<string>, c: Clause, k: nat)
    requires InOrder(a, 0, k) && Rank(c) == k
    ensures InOrder(a + Unless(items, c), 0, k + 1)
  {
    var all := a + Unless(items, c);
    assert forall i | 0 <= i < |all| :: all[i] == if i < |a| then a[i] else c;
    hide Rank;
  }

  lemma ListsApart(cmd: LoadCommand)
    ensures InOrder(ListClauses(cmd), 0, 7)
    ensures Apart(ListClauses(cmd))
    ensures forall i | 0 <= i < |ListClauses(cmd)| :: GroupOf(ListClauses(cmd)[i]) !in {TargetTable, Materialize}
  {
    hide *;
    ListsInOrder(cmd);
    OrderedIsApart(ListClauses(cmd));
  }

  lemma Ranks(cmd: LoadCommand)
    ensures Rank(Withs(cmd.with)) == 0 && Rank(Sets(cmd.settings)) == 1 && Rank(Casts(cmd.castRules)) == 2
    ensures Rank(Befores(cmd.beforeLoad)) == 3 && Rank(Afters(cmd.afterLoad)) == 4
    ensures Rank(Includes(cmd.includingOnly)) == 5 && Rank(Excludes(cmd.excluding)) == 6
  {
  }

  lemma ListsInOrder(cmd: LoadCommand)
    ensures InOrder(ListClauses(cmd), 0, 7)
  {
    var w, s, c := Unless(cmd.with, Withs(cmd.with)), Unless(cmd.settings, Sets(cmd.settings)),
                   Unless(cmd.castRules, Casts(cmd.castRules));
    var b, a := Unless(cmd.beforeLoad, Befores(cmd.beforeLoad)), Unless(cmd.afterLoad, Afters(cmd.afterLoad));
    var i, e := Unless(cmd.includingOnly, Includes(cmd.includingOnly)), Unless(cmd.excluding, Excludes(cmd.excluding));
    assert InOrder([], 0, 0) && [] + w == w;
    assert ListClauses(cmd) == w + s + c + b + a + i + e;
    Ranks(cmd);
    hide *;
    OrderAppend([], cmd.with, Withs(cmd.with), 0);
    OrderAppend(w, cmd.settings, Sets(cmd.settings), 1);
    OrderAppend(w + s, cmd.castRules, Casts(cmd.castRules), 2);
    OrderAppend(w + s + c, cmd.beforeLoad, Befores(cmd.beforeLoad), 3);
    OrderAppend(w + s + c + b, cmd.afterLoad, Afters(cmd.afterLoad), 4);
    OrderAppend(w + s + c + b + a, cmd.includingOnly, Includes(cmd.includingOnly), 5);
    OrderAppend(w + s + c + b + a + i, cmd.excluding, Excludes(cmd.excluding), 6);
  }

  lemma OrderedIsApart(cs: seq<Clause>)
    requires InOrder(cs, 0, 7)
    ensures Apart(cs)
    ensures forall i | 0 <= i < |cs| :: GroupOf(cs[i]) !in {TargetTable, Materialize}
  {
    forall i, j | 0 <= i < j < |cs|
      ensures GroupOf(cs[i]) != GroupOf(cs[j])
    {
      GroupByRank(cs[i], cs[j]);
    }
    forall i | 0 <= i < |cs|
      ensures GroupOf(cs[i]) !in {TargetTable, Materialize}
    {
      GroupByRank(cs[i], cs[i]);
    }
  }

  lemma GroupByRank(c: Clause, d: Clause)
    requires Rank(c) >= 0 && Rank(d) >= 0
    ensures GroupOf(c) == GroupOf(d) ==> Rank(c) == Rank(d)
    ensures GroupOf(c) !in {TargetTable, Materialize}
  {
  }

  /** Another order of sections of different kinds. */
  lemma ReorderedApart(a: seq<Clause>, b: seq<Clause>)
    requires Apart(a) && multiset(a) == multiset(b)
    ensures Apart(b)
  {
    forall i, j | 0 <= i < j < |b|
      ensures GroupOf(b[i]) != GroupOf(b[j])
    {
      if GroupOf(b[i]) == GroupOf(b[j]) {
        var x := b[i];
        assert x in multiset(a) && b[j] in multiset(a) by {
          assert b[i] in multiset(b) && b[j] in multiset(b);
        }
        var k :| 0 <= k < |a| && a[k] == x;
        var l :| 0 <= l < |a| && a[l] == b[j];
        assert k == l;
        Twice(b, i, j);
        Once(a, k);
      }
    }
  }

  lemma Twice<T>(s: seq<T>, i: int, j: int)
    requires 0 <= i < j < |s| && s[i] == s[j]
    ensures multiset(s)[s[i]] >= 2
  {
    assert s == s[..i] + [s[i]] + s[i + 1..];
    assert s[i + 1..][j - i - 1] == s[i];
    assert s[i] in s[i + 1..];
  }

  lemma Once(s: seq<Clause>, k: int)
    requires Apart(s) && 0 <= k < |s|
    ensures multiset(s)[s[k]] == 1
  {
    assert s == s[..k] + [s[k]] + s[k + 1..];
    assert s[k] !in s[..k] && s[k] !in s[k + 1..];
  }

  lemma SameClauses(a: seq<Clause>, b: seq<Clause>)
    requires multiset(a) == multiset(b)
    ensures forall c :: c in a <==> c in b
  {
    assert forall c :: c in a <==> c in multiset(a);
    assert forall c :: c in b <==> c in multiset(b);
  }

  // ----- The command comes back -----

  /** Each part of the command is set by its section, or is empty. */
  lemma PartsOf(cmd: LoadCommand, g: State)
    requires cmd.targetTable != "" ==> '.' !in cmd.targetSchema
    ensures (exists c <- ClausesOf(cmd) :: GroupOf(c) == g && PartBy(c) == Part(cmd, g)) || Part(cmd, g) == Part(EMPTY, g)
  {
    match g {
      case TargetTable => TargetPart(cmd);
      case Materialize => ViewPart(cmd);
      case _ => ListPart(cmd, g);
    }
  }

  lemma InClauses(cmd: LoadCommand)
    ensures forall c <- TargetClauses(cmd) :: c in ClausesOf(cmd)
    ensures forall c <- ListClauses(cmd) :: c in ClausesOf(cmd)
    ensures forall c <- ViewClauses(cmd) :: c in ClausesOf(cmd)
  {
  }

  lemma TargetPart(cmd: LoadCommand)
    requires cmd.targetTable != "" ==> '.' !in cmd.targetSchema
    ensures (exists c <- ClausesOf(cmd) :: GroupOf(c) == TargetTable && PartBy(c) == Part(cmd, TargetTable))
         || Part(cmd, TargetTable) == Part(EMPTY, TargetTable)
  {
    InClauses(cmd);
    if cmd.targetTable != "" {
      var s := cmd.targetSchema + ("." + cmd.targetTable);
      var c := Table(s);
      assert c in TargetClauses(cmd);
      assert s[|cmd.targetSchema|] == '.' && s[..|cmd.targetSchema|] == cmd.targetSchema
          && s[|cmd.targetSchema| + 1..] == cmd.targetTable;
      IndexIs(s, '.', |cmd.targetSchema|);
      assert PartBy(c) == Part(cmd, TargetTable);
    } else if cmd.targetSchema != "" {
      var c := Schema(cmd.targetSchema);
      assert c in TargetClauses(cmd);
      assert PartBy(c) == Part(cmd, TargetTable);
    }
  }

  lemma ViewPart(cmd: LoadCommand)
    ensures (exists c <- ClausesOf(cmd) :: GroupOf(c) == Materialize && PartBy(c) == Part(cmd, Materialize))
         || Part(cmd, Materialize) == Part(EMPTY, Materialize)
  {
    InClauses(cmd);
    if cmd.materializeViews != [] {
      var c := if cmd.materializeViews == ["*"] then AllViews else Views(cmd.materializeViews);
      assert c in ViewClauses(cmd);
      assert PartBy(c) == Part(cmd, Materialize);
    }
  }

  function ListClause(cmd: LoadCommand, g: State): Clause {
    match g
    case With => Withs(cmd.with)
    case Set => Sets(cmd.settings)
    case Cast => Casts(cmd.castRules)
    case BeforeLoad => Befores(cmd.beforeLoad)
    case AfterLoad => Afters(cmd.afterLoad)
    case Including => Includes(cmd.includingOnly)
    case _ => Excludes(cmd.excluding)
  }

  lemma ListPart(cmd: LoadCommand, g: State)
    requires g !in {TargetTable, Materialize}
    ensures (exists c <- ClausesOf(cmd) :: GroupOf(c) == g && PartBy(c) == Part(cmd, g)) || Part(cmd, g) == Part(EMPTY, g)
  {
    if Part(cmd, g) != [] {
      var c := ListClause(cmd, g);
      InClauses(cmd);
      assert c in Unless(Part(cmd, g), c);
      assert c in ListClauses(cmd);
      assert GroupOf(c) == g && PartBy(c) == Part(cmd, g);
    }
  }

  lemma EqualByParts(a: LoadCommand, b: LoadCommand)
    requires SameHead(a, b) && forall g :: Part(a, g) == Part(b, g)
    ensures a == b
  {
    assert Part(a, TargetTable)[0] == a.targetTable && Part(a, TargetTable)[1] == a.targetSchema;
    assert Part(a, TargetTable) == Part(b, TargetTable) && Part(a, With) == Part(b, With) && Part(a, Set) == Part(b, Set);
    assert Part(a, Cast) == Part(b, Cast) && Part(a, BeforeLoad) == Part(b, BeforeLoad);
    assert Part(a, AfterLoad) == Part(b, AfterLoad) && Part(a, Including) == Part(b, Including);
    assert Part(a, Excluding) == Part(b, Excluding) && Part(a, Materialize) == Part(b, Materialize);
  }

  /** The command as it is before its kind is known. */
  function Unkinded(cmd: LoadCommand): LoadCommand { cmd.(kind := if cmd.kind == CSV then CSV else MySQL) }

  lemma BaseParts(cmd: LoadCommand, g: State)
    requires Canonical(cmd)
    ensures SameHead(Base(SourceOf(cmd), cmd.targetURI), Unkinded(cmd))
    ensures Part(Base(SourceOf(cmd), cmd.targetURI), g) == Part(EMPTY, g)
    ensures Part(Unkinded(cmd), g) == Part(cmd, g)
  {
    hide ClausesOf, ClauseOk;
  }

  lemma CanonicalIs(cmd: LoadCommand)
    requires Canonical(cmd)
    ensures cmd.targetTable != "" ==> '.' !in cmd.targetSchema
    ensures forall c <- ClausesOf(cmd) :: ClauseOk(c)
    ensures Finish(Unkinded(cmd)) == Command(cmd) && SourceOk(SourceOf(cmd)) && NoDollars(cmd.targetURI)
  {
    SchemeDecides(Unkinded(cmd), cmd.sourceURI);
    SchemesApart(cmd.sourceURI);
    hide Finish, NamedBy, ClausesOf, ClauseOk, SourceOk, NoDollars;
  }

  lemma DifferentAt(a: string, b: string, i: nat, uri: string)
    requires i < |a| && i < |b| && a[i] != b[i]
    ensures !(a <= uri && b <= uri)
  {
  }

  /** No URI has schemes of two kinds. */
  lemma SchemesApart(uri: string)
    ensures forall k: Kind, l: Kind | NamedBy(k, uri) && NamedBy(l, uri) :: k == l
  {
    DifferentAt("mysql://", "mssql://", 1, uri);
    DifferentAt("sqlite://", "sqlserver://", 3, uri);
    assert NamedBy(MySQL, uri) ==> uri[0] == 'm' && uri[1] == 'y';
    assert NamedBy(PostgreSQL, uri) ==> uri[0] == 'p';
    assert NamedBy(SQLite, uri) ==> uri[0] == 's' && uri[3] == 'i';
    assert NamedBy(MSSQL, uri) ==> (uri[0] == 'm' && uri[1] == 's') || (uri[0] == 's' && uri[3] == 's');
    assert NamedBy(CSV, uri) ==> uri == "";
    hide NamedBy;
  }

  /** A database has the kind that the scheme of its URI names, and is rejected if the scheme names none. */
  lemma SchemeDecides(cmd: LoadCommand, uri: string)
    requires cmd.sourceURI == uri
    ensures cmd.kind == CSV ==> Finish(cmd) == Command(cmd)
    ensures cmd.kind != CSV ==>
              match Finish(cmd)
              case Command(c) => c.kind != CSV && NamedBy(c.kind, uri) && c == cmd.(kind := c.kind)
              case Rejected => forall k: Kind | k != CSV :: !NamedBy(k, uri)
              case Endless => false
  {
  }

  lemma SchemaAloneAgain(cmd: LoadCommand, a: seq<Clause>, b: seq<Clause>)
    requires SchemaAlone(cmd, a) && multiset(a) == multiset(b)
    ensures SchemaAlone(cmd, b)
  {
    SameClauses(a, b);
    assert forall i | 0 <= i < |b| :: b[i] in a;
  }

  lemma OnePart(cmd: LoadCommand, cs: seq<Clause>, g: State)
    requires Canonical(cmd) && multiset(cs) == multiset(ClausesOf(cmd))
    ensures var got := ApplyAll(Base(SourceOf(cmd), cmd.targetURI), cs);
            SameHead(got, Unkinded(cmd)) && Part(got, g) == Part(Unkinded(cmd), g)
  {
    hide *;
    var base, all := Base(SourceOf(cmd), cmd.targetURI), ClausesOf(cmd);
    ClausesApart(cmd);
    ReorderedApart(all, cs);
    SchemaAloneAgain(base, all, cs);
    SameClauses(all, cs);
    BaseParts(cmd, g);
    CanonicalIs(cmd);
    AllParts(base, cs, g);
    PartsOf(cmd, g);
    SameHeads(ApplyAll(base, cs), base, Unkinded(cmd));
    if i :| 0 <= i < |cs| && GroupOf(cs[i]) == g {
      assert cs[i] in all;
      ClausePart(cmd, cs[i]);
    } else {
      forall c | c in all
        ensures GroupOf(c) != g
      {
        assert c in cs;
      }
    }
  }

  lemma SameHeads(a: LoadCommand, b: LoadCommand, c: LoadCommand)
    ensures SameHead(a, b) && SameHead(b, c) ==> SameHead(a, c)
  {
  }

  /** The sections of a command, in any order, give the command. */
  lemma SectionsGiveCommand(cmd: LoadCommand, cs: seq<Clause>)
    requires Canonical(cmd) && multiset(cs) == multiset(ClausesOf(cmd))
    ensures ApplyAll(Base(SourceOf(cmd), cmd.targetURI), cs) == Unkinded(cmd)
    ensures forall i | 0 <= i < |cs| :: ClauseOk(cs[i])
  {
    hide *;
    var got := ApplyAll(Base(SourceOf(cmd), cmd.targetURI), cs);
    OnePart(cmd, cs, With);
    forall g
      ensures Part(got, g) == Part(Unkinded(cmd), g)
    {
      OnePart(cmd, cs, g);
    }
    EqualByParts(got, Unkinded(cmd));
    CanonicalIs(cmd);
    SameClauses(cs, ClausesOf(cmd));
    assert forall i | 0 <= i < |cs| :: cs[i] in ClausesOf(cmd);
  }

  lemma ClauseIsOne(cmd: LoadCommand, c: Clause)
    requires c in ClausesOf(cmd)
    ensures c in TargetClauses(cmd) || c in ViewClauses(cmd) || c in ListClauses(cmd)
  {
    hide TargetClauses, ViewClauses, ListClauses;
  }

  lemma ListClauseIs(cmd: LoadCommand, c: Clause)
    requires c in ListClauses(cmd)
    ensures c == Withs(cmd.with) || c == Sets(cmd.settings) || c == Casts(cmd.castRules)
         || c == Befores(cmd.beforeLoad) || c == Afters(cmd.afterLoad) || c == Includes(cmd.includingOnly)
         || c == Excludes(cmd.excluding)
  {
  }

  lemma ListClausePart(cmd: LoadCommand, c: Clause)
    requires c in ListClauses(cmd)
    ensures PartBy(c) == Part(cmd, GroupOf(c))
  {
    ListClauseIs(cmd, c);
    hide ListClauses;
  }

  /** A section of a command sets its part to what it is. */
  lemma ClausePart(cmd: LoadCommand, c: Clause)
    requires (cmd.targetTable != "" ==> '.' !in cmd.targetSchema) && c in ClausesOf(cmd)
    ensures PartBy(c) == Part(cmd, GroupOf(c))
  {
    ClauseIsOne(cmd, c);
    if c in ListClauses(cmd) {
      ListClausePart(cmd, c);
    } else if c in TargetClauses(cmd) {
      hide ListClauses, ViewClauses, ClausesOf;
      if cmd.targetTable != "" {
        var s := cmd.targetSchema + ("." + cmd.targetTable);
        assert s[|cmd.targetSchema|] == '.' && s[..|cmd.targetSchema|] == cmd.targetSchema
            && s[|cmd.targetSchema| + 1..] == cmd.targetTable;
        IndexIs(s, '.', |cmd.targetSchema|);
      }
    } else {
      hide ListClauses, TargetClauses, ClausesOf;
    }
  }

  /**
   Printing a command, its sections in any order and each on a line of its own, and parsing the text gives
   the same command.
   */
  lemma CommandRoundTrip(cmd: LoadCommand, cs: seq<Clause>)
    requires Canonical(cmd) && multiset(cs) == multiset(ClausesOf(cmd))
    ensures Parse(PrintLoad(SourceOf(cmd), cmd.targetURI, cs)) == Command(cmd)
  {
    hide *;
    SectionsGiveCommand(cmd, cs);
    CanonicalIs(cmd);
    LoadRoundTrip.LoadRoundTrip(SourceOf(cmd), cmd.targetURI, cs);
  }

  // ----- What a printed command means -----

  lemma {:induction false} HeadKept(cmd: LoadCommand, cs: seq<Clause>)
    ensures SameHead(ApplyAll(cmd, cs), cmd)
    decreases |cs|
  {
    if cs != [] {
      ApplyParts(cmd, cs[0], With);
      hide Apply;
      HeadKept(Apply(cmd, cs[0]), cs[1..]);
    }
  }

  /**
   The source of a printed command, whatever its sections: a file is CSV; a database is of the kind that the
   scheme of its URI names, and if the scheme names none the command is rejected.
   */
  lemma SourceKind(source: Source, target: string, cs: seq<Clause>)
    requires SourceOk(source) && NoDollars(target) && forall i | 0 <= i < |cs| :: ClauseOk(cs[i])
    ensures var r := Parse(PrintLoad(source, target, cs));
            && (source.File? ==>
                  && r.Command? && r.cmd.kind == CSV && r.cmd.filePath == source.path
                  && r.cmd.sourceColumns == source.columns && r.cmd.sourceURI == "")
            && (source.Database? ==> var u := source.uri;
                  && (r.Command? && r.cmd.kind == MySQL <==> "mysql://" <= u)
                  && (r.Command? && r.cmd.kind == PostgreSQL <==>
                        "postgresql://" <= u || "postgres://" <= u || "pgsql://" <= u)
                  && (r.Command? && r.cmd.kind == SQLite <==> "sqlite://" <= u)
                  && (r.Command? && r.cmd.kind == MSSQL <==> "mssql://" <= u || "sqlserver://" <= u)
                  && (r == Rejected <==> forall k: Kind | k != CSV :: !NamedBy(k, u))
                  && (r.Command? ==> r.cmd.sourceURI == u && r.cmd.filePath == "" && r.cmd.sourceColumns == []))
            && (r.Command? ==> r.cmd.targetURI == target)
  {
    hide SourceOk, ClauseOk, NoDollars, Finish, Parse, PrintLoad, ApplyAll, Apply;
    var cmd := ApplyAll(Base(source, target), cs);
    LoadRoundTrip.LoadRoundTrip(source, target, cs);
    HeadKept(Base(source, target), cs);
    SchemeDecides(cmd, cmd.sourceURI);
    if source.Database? {
      SchemesApart(source.uri);
      NamedByIs(source.uri);
    }
    hide NamedBy;
  }

  lemma NamedByIs(u: string)
    ensures NamedBy(MySQL, u) <==> "mysql://" <= u
    ensures NamedBy(PostgreSQL, u) <==> "postgresql://" <= u || "postgres://" <= u || "pgsql://" <= u
    ensures NamedBy(SQLite, u) <==> "sqlite://" <= u
    ensures NamedBy(MSSQL, u) <==> "mssql://" <= u || "sqlserver://" <= u
  {
  }

  lemma {:induction false} ApplyLast(cmd: LoadCommand, cs: seq<Clause>, c: Clause)
    ensures ApplyAll(cmd, cs + [c]) == Apply(ApplyAll(cmd, cs), c)
    decreases |cs|
  {
    hide Apply;
    if cs == [] {
      assert cs + [c] == [c] && [c][1..] == [];
    } else {
      assert (cs + [c])[1..] == cs[1..] + [c];
      ApplyLast(Apply(cmd, cs[0]), cs[1..], c);
    }
  }

  /** A table name is cut at its first dot; without one the schema is public. */
  lemma TableSchema(source: Source, target: string, cs: seq<Clause>, schema: string, table: string)
    requires SourceOk(source) && NoDollars(target) && forall i | 0 <= i < |cs| :: ClauseOk(cs[i])
    requires '.' !in schema
    ensures var r := Parse(PrintLoad(source, target, cs + [Table(schema)]));
            NoDollars(schema) && r.Command? ==> r.cmd.targetSchema == "public" && r.cmd.targetTable == schema
    ensures var r := Parse(PrintLoad(source, target, cs + [Table(schema + ("." + table))]));
            NoDollars(schema + ("." + table)) && r.Command? ==> r.cmd.targetSchema == schema && r.cmd.targetTable == table
  {
    hide *;
    TableRead(source, target, cs, schema);
    TableRead(source, target, cs, schema + ("." + table));
    NameCut(ApplyAll(Base(source, target), cs), schema, table);
  }

  lemma NameCut(cmd: LoadCommand, schema: string, table: string)
    requires '.' !in schema
    ensures SetTable(cmd, schema) == cmd.(targetSchema := "public", targetTable := schema)
    ensures SetTable(cmd, schema + ("." + table)) == cmd.(targetSchema := schema, targetTable := table)
  {
    var name := schema + ("." + table);
    assert name[|schema|] == '.' && name[..|schema|] == schema && name[|schema| + 1..] == table;
    IndexIs(name, '.', |schema|);
  }

  lemma TableRead(source: Source, target: string, cs: seq<Clause>, name: string)
    requires SourceOk(source) && NoDollars(target) && forall i | 0 <= i < |cs| :: ClauseOk(cs[i])
    ensures var r := Parse(PrintLoad(source, target, cs + [Table(name)]));
            var named := SetTable(ApplyAll(Base(source, target), cs), name);
            NoDollars(name) && r.Command? ==> r.cmd == named.(kind := r.cmd.kind)
  {
    if NoDollars(name) {
      var all := cs + [Table(name)];
      forall i | 0 <= i < |all|
        ensures ClauseOk(all[i])
      {
        assert all[i] == if i < |cs| then cs[i] else Table(name);
      }
      hide SourceOk, ClauseOk, NoDollars, Finish, Parse, PrintLoad, ApplyAll, SetTable;
      LoadRoundTrip.LoadRoundTrip(source, target, all);
      ApplyLast(Base(source, target), cs, Table(name));
      var cmd := ApplyAll(Base(source, target), all);
      SchemeDecides(cmd, cmd.sourceURI);
    }
  }
}
