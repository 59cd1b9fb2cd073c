/**
 Table name patterns: LIKE patterns compiled to regular expressions
 (internal/source/mysql/metadata.go, and the same text in internal/source/mssql/metadata.go).

 A regular expression is a text, read by the part of the RE2 syntax that such texts use.  Case folding is
 a function that maps every character to a representative of the characters that fold to it.
 */
module TablePattern {

  // ----- Regular expressions -----

  datatype Node =
    | Begin
    | End
    | IgnoreCase
    | Literal(c: char)
    | AnyChar
    | AnyRun

  datatype Regex = Syntax(nodes: seq<Node>) | Unsupported

  /** The characters that regexp.QuoteMeta escapes. */
  predicate IsMeta(c: char) {
    c in ['\\', '.', '+', '*', '?', '(', ')', '|', '[', ']', '{', '}', '^', '$']
  }

  function Then(node: Node, rest: Regex): Regex {
    match rest
    case Unsupported => Unsupported
    case Syntax(nodes) => Syntax([node] + nodes)
  }

  function ReadRegex(t: string): Regex
    decreases |t|
  {
    if t == "" then Syntax([])
    else if t[0] == '^' then Then(Begin, ReadRegex(t[1..]))
    else if t[0] == '$' then Then(End, ReadRegex(t[1..]))
    else if t[0] == '.' then
      if |t| > 1 && t[1] == '*' then Then(AnyRun, ReadRegex(t[2..])) else Then(AnyChar, ReadRegex(t[1..]))
    else if t[0] == '\\' then
      if |t| > 1 && IsMeta(t[1]) then Then(Literal(t[1]), ReadRegex(t[2..])) else Unsupported
    else if "(?i)" <= t then Then(IgnoreCase, ReadRegex(t[4..]))
    else if IsMeta(t[0]) then Unsupported
    else Then(Literal(t[0]), ReadRegex(t[1..]))
  }

  /** Matching from position i on; the dot takes no line feed, and the end is the end of the text. */
  predicate MatchAt(nodes: seq<Node>, s: string, i: nat, fold: char -> char, ignoreCase: bool)
    requires i <= |s|
    decreases |nodes|, |s| - i
  {
    if nodes == [] then true
    else
      match nodes[0]
      case Begin => i == 0 && MatchAt(nodes[1..], s, i, fold, ignoreCase)
      case End => i == |s| && MatchAt(nodes[1..], s, i, fold, ignoreCase)
      case IgnoreCase => MatchAt(nodes[1..], s, i, fold, true)
      case Literal(c) =>
        i < |s| && (s[i] == c || (ignoreCase && fold(s[i]) == fold(c))) && MatchAt(nodes[1..], s, i + 1, fold, ignoreCase)
      case AnyChar => i < |s| && s[i] != '\n' && MatchAt(nodes[1..], s, i + 1, fold, ignoreCase)
      case AnyRun =>
        || MatchAt(nodes[1..], s, i, fold, ignoreCase)
        || (i < |s| && s[i] != '\n' && MatchAt(nodes, s, i + 1, fold, ignoreCase))
  }

  /** Regexp.MatchString: a match that may start anywhere. */
  predicate MatchString(nodes: seq<Node>, s: string, fold: char -> char) {
    exists i | 0 <= i <= |s| :: MatchAt(nodes, s, i, fold, false)
  }

  // ----- Compiling -----

  function QuoteMeta(p: string): string {
    if p == "" then "" else (if IsMeta(p[0]) then ['\\', p[0]] else [p[0]]) + QuoteMeta(p[1..])
  }

  function ReplaceAll(s: string, c: char, to: string): string {
    if s == "" then "" else (if s[0] == c then to else [s[0]]) + ReplaceAll(s[1..], c, to)
  }

  /** A pattern given by the user as a regular expression, slicing out of range, or a compiled one. */
  datatype Compiled = User(pattern: string) | Panic | Compiled(text: string)

  predicate IsUser(pattern: string) {
    "~/" <= pattern && pattern[|pattern| - 1] == '/'
  }

  function Unquoted(p: string): string {
    if |p| >= 2 && p[0] == '\'' && p[|p| - 1] == '\'' then p[1..|p| - 1] else p
  }

  function CompileTablePattern(pattern: string): Compiled {
    if IsUser(pattern) then if |pattern| < 3 then Panic else User(pattern[2..|pattern| - 1])
    else
      var p := Unquoted(pattern);
      if '%' in p || '_' in p then
        Compiled("^(?i)" + (ReplaceAll(ReplaceAll(QuoteMeta(p), '%', ".*"), '_', ".") + "$"))
      else Compiled("^(?i)" + (QuoteMeta(p) + "$"))
  }

  // ----- The meaning of LIKE -----

  /**
   The name is the pattern, letter case aside, where % stands for any run of characters and _ for one;
   wild tells which characters these may stand for.
   */
  predicate LikeOver(p: string, s: string, fold: char -> char, wild: char -> bool)
    decreases |p|, |s|
  {
    if p == "" then s == ""
    else if p[0] == '%' then
      LikeOver(p[1..], s, fold, wild) || (s != "" && wild(s[0]) && LikeOver(p, s[1..], fold, wild))
    else if p[0] == '_' then s != "" && wild(s[0]) && LikeOver(p[1..], s[1..], fold, wild)
    else s != "" && fold(s[0]) == fold(p[0]) && LikeOver(p[1..], s[1..], fold, wild)
  }

  predicate Like(p: string, s: string, fold: char -> char) {
    LikeOver(p, s, fold, _ => true)
  }

  // ----- Compiled text -----

  /** What one character of the pattern becomes. */
  function Piece(c: char): string {
    if c == '%' then ".*" else if c == '_' then "." else if IsMeta(c) then ['\\', c] else [c]
  }

  function Pieces(p: string): string {
    if p == "" then "" else Piece(p[0]) + Pieces(p[1..])
  }

  lemma {:induction false} ReplaceAllConcat(a: string, b: string, c: char, to: string)
    ensures ReplaceAll(a + b, c, to) == ReplaceAll(a, c, to) + ReplaceAll(b, c, to)
  {
    if a == "" {
      assert a + b == b;
    } else {
      assert (a + b)[1..] == a[1..] + b;
      ReplaceAllConcat(a[1..], b, c, to);
    }
  }

  lemma ReplaceAllOne(x: char, c: char, to: string)
    ensures ReplaceAll([x], c, to) == if x == c then to else [x]
  {
    assert [x][1..] == "";
  }

  lemma ReplaceAllTwo(x: char, y: char, c: char, to: string)
    requires x != c && y != c
    ensures ReplaceAll([x, y], c, to) == [x, y]
  {
    assert [x, y] == [x] + [y];
    ReplaceAllConcat([x], [y], c, to);
    ReplaceAllOne(x, c, to);
    ReplaceAllOne(y, c, to);
  }

  lemma PieceReplaced(c: char)
    ensures ReplaceAll(ReplaceAll(if IsMeta(c) then ['\\', c] else [c], '%', ".*"), '_', ".") == Piece(c)
  {
    ReplaceAllOne(c, '%', ".*");
    ReplaceAllOne(c, '_', ".");
    ReplaceAllTwo('.', '*', '_', ".");
    if IsMeta(c) {
      ReplaceAllTwo('\\', c, '%', ".*");
      ReplaceAllTwo('\\', c, '_', ".");
    }
    hide ReplaceAll;
  }

  /** The two replacements over the escaped text do the same as one pass over the pattern. */
  lemma {:induction false} PiecesReplaced(p: string)
    ensures ReplaceAll(ReplaceAll(QuoteMeta(p), '%', ".*"), '_', ".") == Pieces(p)
  {
    if p != "" {
      var first := if IsMeta(p[0]) then ['\\', p[0]] else [p[0]];
      PiecesReplaced(p[1..]);
      PieceReplaced(p[0]);
      hide ReplaceAll, IsMeta, Piece;
      ReplaceAllConcat(first, QuoteMeta(p[1..]), '%', ".*");
      ReplaceAllConcat(ReplaceAll(first, '%', ".*"), ReplaceAll(QuoteMeta(p[1..]), '%', ".*"), '_', ".");
    }
  }

  lemma {:induction false} PiecesPlain(p: string)
    requires '%' !in p && '_' !in p
    ensures QuoteMeta(p) == Pieces(p)
  {
    if p != "" {
      assert p[0] in p;
      PiecesPlain(p[1..]);
    }
  }

  lemma CompiledText(pattern: string)
    requires !IsUser(pattern)
    ensures CompileTablePattern(pattern) == Compiled("^(?i)" + (Pieces(Unquoted(pattern)) + "$"))
  {
    var p := Unquoted(pattern);
    PiecesReplaced(p);
    if '%' !in p && '_' !in p {
      PiecesPlain(p);
    }
  }

  // ----- Reading the compiled text -----

  function NodeOf(c: char): Node {
    if c == '%' then AnyRun else if c == '_' then AnyChar else Literal(c)
  }

  function NodesOf(p: string): seq<Node> {
    if p == "" then [End] else [NodeOf(p[0])] + NodesOf(p[1..])
  }

  lemma ReadEscaped(c: char, rest: string)
    requires IsMeta(c)
    ensures ReadRegex(['\\', c] + rest) == Then(Literal(c), ReadRegex(rest))
  {
    hide IsMeta;
    assert (['\\', c] + rest)[2..] == rest;
  }

  lemma ReadLiteral(c: char, rest: string)
    requires !IsMeta(c)
    ensures ReadRegex([c] + rest) == Then(Literal(c), ReadRegex(rest))
  {
    var t := [c] + rest;
    assert t[1..] == rest;
    assert IsMeta('^') && IsMeta('$') && IsMeta('.') && IsMeta('\\') && IsMeta('(');
    hide IsMeta;
  }

  lemma ReadDot(rest: string)
    requires rest == "" || rest[0] != '*'
    ensures ReadRegex("." + rest) == Then(AnyChar, ReadRegex(rest))
    ensures ReadRegex(".*" + rest) == Then(AnyRun, ReadRegex(rest))
  {
    hide IsMeta;
    assert ("." + rest)[1..] == rest && (".*" + rest)[2..] == rest;
  }

  lemma PieceRead(c: char, rest: string)
    requires rest == "" || rest[0] != '*'
    ensures ReadRegex(Piece(c) + rest) == Then(NodeOf(c), ReadRegex(rest))
  {
    hide ReadRegex, IsMeta;
    if c == '%' || c == '_' {
      ReadDot(rest);
    } else if IsMeta(c) {
      ReadEscaped(c, rest);
    } else {
      ReadLiteral(c, rest);
    }
  }

  lemma PiecesHead(p: string)
    ensures var t := Pieces(p) + "$"; t != "" && t[0] != '*'
  {
  }

  lemma {:induction false} PiecesRead(p: string)
    ensures ReadRegex(Pieces(p) + "$") == Syntax(NodesOf(p))
  {
    if p == "" {
      assert Pieces(p) + "$" == "$" && "$"[1..] == "";
    } else {
      PiecesRead(p[1..]);
      PiecesHead(p[1..]);
      assert Pieces(p) + "$" == Piece(p[0]) + (Pieces(p[1..]) + "$");
      hide ReadRegex, Piece;
      PieceRead(p[0], Pieces(p[1..]) + "$");
    }
  }

  /** Every compiled pattern is a valid expression of the form that is understood here. */
  lemma CompiledRead(p: string)
    ensures ReadRegex("^(?i)" + (Pieces(p) + "$")) == Syntax([Begin, IgnoreCase] + NodesOf(p))
  {
    PiecesRead(p);
    var body := Pieces(p) + "$";
    var t := "^(?i)" + body;
    var u := "(?i)" + body;
    assert t[1..] == u && u[4..] == body && "(?i)" <= u;
    hide Pieces, NodesOf;
    assert ReadRegex(u) == Syntax([IgnoreCase] + NodesOf(p));
    assert [Begin] + ([IgnoreCase] + NodesOf(p)) == [Begin, IgnoreCase] + NodesOf(p);
  }

  // ----- Matching is LIKE -----

  function NotNewline(): char -> bool { c => c != '\n' }

  lemma {:induction false} NodesMatch(p: string, s: string, i: nat, fold: char -> char)
    requires i <= |s|
    ensures MatchAt(NodesOf(p), s, i, fold, true) <==> LikeOver(p, s[i..], fold, NotNewline())
    decreases |p|, |s| - i
  {
    var nodes := NodesOf(p);
    if p == "" {
      assert nodes[1..] == [];
    } else {
      assert nodes[1..] == NodesOf(p[1..]);
      if p[0] == '%' {
        NodesMatch(p[1..], s, i, fold);
      }
      if i < |s| {
        assert s[i..][1..] == s[i + 1..];
        NodesMatch(if p[0] == '%' then p else p[1..], s, i + 1, fold);
      }
    }
  }

  lemma Anchored(nodes: seq<Node>, s: string, fold: char -> char)
    ensures MatchString([Begin, IgnoreCase] + nodes, s, fold) <==> MatchAt(nodes, s, 0, fold, true)
  {
    var all := [Begin, IgnoreCase] + nodes;
    assert all[1..] == [IgnoreCase] + nodes && all[1..][1..] == nodes;
    forall i | 0 <= i <= |s|
      ensures MatchAt(all, s, i, fold, false) <==> i == 0 && MatchAt(nodes, s, i, fold, true)
    {
      var rest := all[1..];
      assert MatchAt(rest, s, i, fold, false) == MatchAt(rest[1..], s, i, fold, true);
    }
    assert MatchAt(all, s, 0, fold, false) <==> MatchAt(nodes, s, 0, fold, true);
  }

  /** Whether the compiled pattern accepts the name. */
  predicate Accepts(pattern: string, name: string, fold: char -> char)
    requires !IsUser(pattern)
  {
    var c := CompileTablePattern(pattern);
    c.Compiled? && ReadRegex(c.text).Syntax? && MatchString(ReadRegex(c.text).nodes, name, fold)
  }

  /** For every name: the wildcards of a compiled pattern stand for anything but a line feed. */
  lemma AcceptsExactly(pattern: string, name: string, fold: char -> char)
    requires !IsUser(pattern)
    ensures Accepts(pattern, name, fold) <==> LikeOver(Unquoted(pattern), name, fold, NotNewline())
  {
    var p := Unquoted(pattern);
    CompiledText(pattern);
    CompiledRead(p);
    Anchored(NodesOf(p), name, fold);
    NodesMatch(p, name, 0, fold);
    assert name[0..] == name;
    hide MatchString, MatchAt, ReadRegex, LikeOver, NodesOf, Pieces;
  }

  lemma {:induction false} LikeWithoutNewline(p: string, s: string, fold: char -> char)
    ensures LikeOver(p, s, fold, NotNewline()) ==> Like(p, s, fold)
    ensures '\n' !in s ==> (LikeOver(p, s, fold, NotNewline()) <==> Like(p, s, fold))
    decreases |p|, |s|
  {
    if p != "" {
      if p[0] == '%' {
        LikeWithoutNewline(p[1..], s, fold);
      }
      if s != "" {
        assert s[0] in s;
        LikeWithoutNewline(if p[0] == '%' then p else p[1..], s[1..], fold);
      }
    }
  }

  /**
   A table pattern accepts exactly the names that LIKE accepts, for names without a line feed; of the
   others it accepts no more than LIKE.
   */
  lemma AcceptsIsLike(pattern: string, name: string, fold: char -> char)
    requires !IsUser(pattern)
    ensures Accepts(pattern, name, fold) ==> Like(Unquoted(pattern), name, fold)
    ensures '\n' !in name ==> (Accepts(pattern, name, fold) <==> Like(Unquoted(pattern), name, fold))
  {
    AcceptsExactly(pattern, name, fold);
    LikeWithoutNewline(Unquoted(pattern), name, fold);
  }

  /** Enclosed in single quotes. */
  predicate Enclosed(p: string) { |p| >= 2 && p[0] == '\'' && p[|p| - 1] == '\'' }

  /** Quotes around a pattern make no difference, and a pattern without them is taken as it stands. */
  lemma QuotesStripped(p: string, name: string, fold: char -> char)
    requires '\n' !in name
    ensures !IsUser("'" + (p + "'")) && (Accepts("'" + (p + "'"), name, fold) <==> Like(p, name, fold))
    ensures !IsUser(p) && !Enclosed(p) ==> (Accepts(p, name, fold) <==> Like(p, name, fold))
  {
    var q := "'" + (p + "'");
    assert q[0] == '\'' && q[|q| - 1] == '\'' && q[1..|q| - 1] == p;
    assert !IsUser(q) && Unquoted(q) == p;
    hide Accepts, Like;
    AcceptsIsLike(q, name, fold);
    if !IsUser(p) {
      AcceptsIsLike(p, name, fold);
    }
  }

  /** Between slashes after a tilde stands an expression of the user, and nowhere else. */
  lemma UserPattern(re: string)
    requires re != ""
    ensures CompileTablePattern("~/" + (re + "/")) == User(re)
  {
    var p := "~/" + (re + "/");
    assert p[|p| - 1] == '/' && p[2..|p| - 1] == re && "~/" <= p;
  }

  /** LIKE lets % stand for a line feed; the compiled pattern does not. */
  lemma NewlineNotAccepted(fold: char -> char)
    ensures Like("%", "\n", fold) && !Accepts("%", "\n", fold)
  {
    AcceptsExactly("%", "\n", fold);
    PercentTakes("\n", fold, NotNewline());
    PercentTakes("\n", fold, _ => true);
    assert !NotNewline()('\n') && '\n' in "\n";
  }

  /** A percent sign alone takes every text that wildcards may take. */
  lemma {:induction false} PercentTakes(s: string, fold: char -> char, wild: char -> bool)
    ensures LikeOver("%", s, fold, wild) <==> forall c <- s :: wild(c)
    decreases |s|
  {
    assert "%"[1..] == "";
    if s != "" {
      assert s == [s[0]] + s[1..];
      PercentTakes(s[1..], fold, wild);
    }
  }

  /** All patterns agree with LIKE on a name exactly when it holds no line feed. */
  lemma AgreesWithLikeIff(name: string, fold: char -> char)
    ensures '\n' !in name
        <==> forall pattern | !IsUser(pattern) :: Accepts(pattern, name, fold) <==> Like(Unquoted(pattern), name, fold)
  {
    if '\n' !in name {
      forall pattern | !IsUser(pattern)
        ensures Accepts(pattern, name, fold) <==> Like(Unquoted(pattern), name, fold)
      {
        AcceptsIsLike(pattern, name, fold);
      }
    } else {
      assert !IsUser("%") && Unquoted("%") == "%";
      AcceptsExactly("%", name, fold);
      PercentTakes(name, fold, NotNewline());
      PercentTakes(name, fold, _ => true);
      hide Accepts, IsUser, Unquoted;
    }
  }

  /** Slicing goes out of range for one pattern only. */
  lemma PanicsExactly(pattern: string)
    ensures CompileTablePattern(pattern).Panic? <==> pattern == "~/"
  {
  }

  // ----- Lists of patterns -----

  /** What matching a name ends in. */
  datatype Verdict = Matches | NoMatch | BadPattern | Panics

  /** One pattern; what expressions given by the user accept is a parameter. */
  function Decide(pattern: string, name: string, fold: char -> char, user: (string, string) -> Verdict): Verdict {
    match CompileTablePattern(pattern)
    case Panic => Panics
    case User(re) => user(re, name)
    case Compiled(_) => if Accepts(pattern, name, fold) then Matches else NoMatch
  }

  function FirstOf(name: string, patterns: seq<string>, fold: char -> char, user: (string, string) -> Verdict): Verdict {
    if patterns == [] then NoMatch
    else
      var v := Decide(patterns[0], name, fold, user);
      if v == NoMatch then FirstOf(name, patterns[1..], fold, user) else v
  }

  method TableMatches(name: string, patterns: seq<string>, fold: char -> char, user: (string, string) -> Verdict)
    returns (v: Verdict)
    ensures patterns == [] ==> v == Matches
    ensures patterns != [] ==> v == FirstOf(name, patterns, fold, user)
  {
    if |patterns| == 0 {
      return Matches;
    }
    hide Decide;
    assert patterns[0..] == patterns;
    for i := 0 to |patterns|
      invariant FirstOf(name, patterns[i..], fold, user) == FirstOf(name, patterns, fold, user)
    {
      assert patterns[i..][1..] == patterns[i + 1..];
      var d := Decide(patterns[i], name, fold, user);
      if d != NoMatch {
        return d;
      }
    }
    return NoMatch;
  }

  predicate SomeLike(name: string, patterns: seq<string>, fold: char -> char) {
    exists i | 0 <= i < |patterns| :: Like(Unquoted(patterns[i]), name, fold)
  }

  /** Without expressions of the user, a list accepts the names that LIKE one of its patterns. */
  lemma {:induction false} FirstOfIsLike(name: string, patterns: seq<string>, fold: char -> char, user: (string, string) -> Verdict)
    requires (forall i | 0 <= i < |patterns| :: !IsUser(patterns[i])) && '\n' !in name
    ensures FirstOf(name, patterns, fold, user) == if SomeLike(name, patterns, fold) then Matches else NoMatch
  {
    if patterns != [] {
      hide Like, Accepts;
      AcceptsIsLike(patterns[0], name, fold);
      CompiledText(patterns[0]);
      FirstOfIsLike(name, patterns[1..], fold, user);
      assert SomeLike(name, patterns, fold)
        <==> Like(Unquoted(patterns[0]), name, fold) || SomeLike(name, patterns[1..], fold) by {
        if SomeLike(name, patterns[1..], fold) {
          var i :| 0 <= i < |patterns| - 1 && Like(Unquoted(patterns[1..][i]), name, fold);
          assert patterns[1..][i] == patterns[i + 1];
        }
        if SomeLike(name, patterns, fold) {
          var i :| 0 <= i < |patterns| && Like(Unquoted(patterns[i]), name, fold);
          assert i > 0 ==> patterns[i] == patterns[1..][i - 1];
        }
      }
    }
  }

  /** The characters with a meaning in regular expressions. */
  lemma MetaIs(c: char)
    ensures IsMeta(c) <==> c in "\\.+*?()|[]{}^$"
  {
  }

  /** What one pattern says: a panic, what the expression of the user says, or LIKE. */
  lemma DecideIs(pattern: string, name: string, fold: char -> char, user: (string, string) -> Verdict)
    ensures Decide("~/", name, fold, user) == Panics
    ensures pattern != "" ==> Decide("~/" + (pattern + "/"), name, fold, user) == user(pattern, name)
    ensures '\n' !in name ==>
              Decide("'" + (pattern + "'"), name, fold, user) == if Like(pattern, name, fold) then Matches else NoMatch
  {
    PanicsExactly("~/");
    if pattern != "" {
      UserPattern(pattern);
    }
    if '\n' !in name {
      var q := "'" + (pattern + "'");
      QuotesStripped(pattern, name, fold);
      CompiledText(q);
      hide Accepts, Like;
    }
  }

  /** The first pattern that does not leave it open decides. */
  lemma {:induction false} FirstDecides(name: string, patterns: seq<string>, fold: char -> char,
                                        user: (string, string) -> Verdict)
    ensures FirstOf(name, patterns, fold, user) == NoMatch
       <==> forall i | 0 <= i < |patterns| :: Decide(patterns[i], name, fold, user) == NoMatch
    ensures FirstOf(name, patterns, fold, user) != NoMatch ==>
              exists i | 0 <= i < |patterns| ::
                && Decide(patterns[i], name, fold, user) == FirstOf(name, patterns, fold, user)
                && forall j | 0 <= j < i :: Decide(patterns[j], name, fold, user) == NoMatch
  {
    hide Decide;
    if patterns != [] {
      FirstDecides(name, patterns[1..], fold, user);
      if Decide(patterns[0], name, fold, user) == NoMatch {
        assert forall i | 0 < i < |patterns| :: patterns[i] == patterns[1..][i - 1];
        if FirstOf(name, patterns, fold, user) != NoMatch {
          var i :| 0 <= i < |patterns| - 1
            && Decide(patterns[1..][i], name, fold, user) == FirstOf(name, patterns[1..], fold, user)
            && forall j | 0 <= j < i :: Decide(patterns[1..][j], name, fold, user) == NoMatch;
          assert Decide(patterns[i + 1], name, fold, user) == FirstOf(name, patterns, fold, user);
        }
      }
    }
  }

  // ----- Choosing the tables -----

  datatype Tables = Chosen(names: seq<string>) | BadFilter | Crash

  /** What the two filters say of one name: take it, leave it, or stop. */
  function Choose(name: string, including: seq<string>, excluding: seq<string>, fold: char -> char,
                  user: (string, string) -> Verdict): Verdict {
    var i := if including == [] then Matches else FirstOf(name, including, fold, user);
    if i != Matches then i
    else
      match if excluding == [] then NoMatch else FirstOf(name, excluding, fold, user)
      case NoMatch => Matches
      case Matches => NoMatch
      case BadPattern => BadPattern
      case Panics => Panics
  }

  function Selected(names: seq<string>, including: seq<string>, excluding: seq<string>, fold: char -> char,
                    user: (string, string) -> Verdict): Tables {
    if names == [] then Chosen([])
    else
      match Choose(names[0], including, excluding, fold, user)
      case BadPattern => BadFilter
      case Panics => Crash
      case NoMatch => Selected(names[1..], including, excluding, fold, user)
      case Matches =>
        var rest := Selected(names[1..], including, excluding, fold, user);
        if rest.Chosen? then Chosen([names[0]] + rest.names) else rest
  }

  /**
   A name is taken if the included patterns, if there are any, match it and the excluded ones do not; what stops
   either list stops the choice.
   */
  lemma ChooseIs(name: string, including: seq<string>, excluding: seq<string>, fold: char -> char,
                 user: (string, string) -> Verdict)
    ensures var i := if including == [] then Matches else FirstOf(name, including, fold, user);
            var e := FirstOf(name, excluding, fold, user);
            var c := Choose(name, including, excluding, fold, user);
            && (c == Matches <==> i == Matches && e == NoMatch)
            && (c == NoMatch <==> i == NoMatch || (i == Matches && e == Matches))
            && (c == BadPattern <==> i == BadPattern || (i == Matches && e == BadPattern))
            && (c == Panics <==> i == Panics || (i == Matches && e == Panics))
  {
  }

  predicate Open(v: Verdict) { v == Matches || v == NoMatch }

  /** The selection stops at the first name whose choice stops, for the reason of that name. */
  lemma {:induction false} StopsExactly(names: seq<string>, including: seq<string>, excluding: seq<string>,
                                        fold: char -> char, user: (string, string) -> Verdict)
    ensures var r := Selected(names, including, excluding, fold, user);
            && (r.Chosen? <==> forall k | 0 <= k < |names| :: Open(Choose(names[k], including, excluding, fold, user)))
            && (!r.Chosen? ==> exists k | 0 <= k < |names| ::
                  && Choose(names[k], including, excluding, fold, user) == (if r.Crash? then Panics else BadPattern)
                  && forall j | 0 <= j < k :: Open(Choose(names[j], including, excluding, fold, user)))
  {
    hide Choose;
    if names != [] {
      StopsExactly(names[1..], including, excluding, fold, user);
      assert forall k | 0 < k < |names| :: names[k] == names[1..][k - 1];
      var r, rest := Selected(names, including, excluding, fold, user),
                     Selected(names[1..], including, excluding, fold, user);
      if Open(Choose(names[0], including, excluding, fold, user)) && !rest.Chosen? {
        var k :| 0 <= k < |names| - 1
          && Choose(names[1..][k], including, excluding, fold, user) == (if rest.Crash? then Panics else BadPattern)
          && forall j | 0 <= j < k :: Open(Choose(names[1..][j], including, excluding, fold, user));
        assert names[k + 1] == names[1..][k];
      }
    }
  }

  function After(done: seq<string>, rest: Tables): Tables {
    if rest.Chosen? then Chosen(done + rest.names) else rest
  }

  lemma SelectedStep(done: seq<string>, names: seq<string>, k: nat, including: seq<string>, excluding: seq<string>,
                     fold: char -> char, user: (string, string) -> Verdict)
    requires k < |names|
    ensures var rest := Selected(names[k + 1..], including, excluding, fold, user);
            After(done, Selected(names[k..], including, excluding, fold, user))
            == match Choose(names[k], including, excluding, fold, user) {
                 case BadPattern => BadFilter
                 case Panics => Crash
                 case NoMatch => After(done, rest)
                 case Matches => After(done + [names[k]], rest)
               }
  {
    hide Choose;
    assert names[k..][1..] == names[k + 1..];
    var rest := Selected(names[k + 1..], including, excluding, fold, user);
    if rest.Chosen? {
      assert done + ([names[k]] + rest.names) == done + [names[k]] + rest.names;
    }
  }

  /** The filter in the loop over the tables of the source. */
  method SelectTables(names: seq<string>, including: seq<string>, excluding: seq<string>, fold: char -> char,
                      user: (string, string) -> Verdict) returns (r: Tables)
    ensures r == Selected(names, including, excluding, fold, user)
  {
    hide FirstOf, Selected;
    var tables: seq<string> := [];
    assert names[0..] == names;
    AfterNothing(Selected(names, including, excluding, fold, user));
    for k := 0 to |names|
      invariant After(tables, Selected(names[k..], including, excluding, fold, user))
             == Selected(names, including, excluding, fold, user)
    {
      SelectedStep(tables, names, k, including, excluding, fold, user);
      if |including| > 0 {
        var v := TableMatches(names[k], including, fold, user);
        if v == BadPattern { return BadFilter; }
        if v == Panics { return Crash; }
        if v == NoMatch { continue; }
      }
      if |excluding| > 0 {
        var v := TableMatches(names[k], excluding, fold, user);
        if v == BadPattern { return BadFilter; }
        if v == Panics { return Crash; }
        if v == Matches { continue; }
      }
      tables := tables + [names[k]];
    }
    assert names[|names|..] == [];
    SelectedNone(tables, including, excluding, fold, user);
    return Chosen(tables);
  }

  lemma AfterNothing(rest: Tables)
    ensures After([], rest) == rest
  {
    if rest.Chosen? {
      assert [] + rest.names == rest.names;
    }
  }

  lemma SelectedNone(done: seq<string>, including: seq<string>, excluding: seq<string>, fold: char -> char,
                     user: (string, string) -> Verdict)
    ensures After(done, Selected([], including, excluding, fold, user)) == Chosen(done)
  {
    assert done + [] == done;
  }

  predicate Wanted(name: string, including: seq<string>, excluding: seq<string>, fold: char -> char) {
    (including == [] || SomeLike(name, including, fold)) && !SomeLike(name, excluding, fold)
  }

  function Filter(names: seq<string>, including: seq<string>, excluding: seq<string>, fold: char -> char): seq<string> {
    if names == [] then []
    else (if Wanted(names[0], including, excluding, fold) then [names[0]] else [])
         + Filter(names[1..], including, excluding, fold)
  }

  /** The tables kept are, in order, those LIKE an included pattern, if there is any, and LIKE no excluded one. */
  lemma {:induction false} SelectedExactly(names: seq<string>, including: seq<string>, excluding: seq<string>,
                                           fold: char -> char, user: (string, string) -> Verdict)
    requires forall k | 0 <= k < |names| :: '\n' !in names[k]
    requires forall i | 0 <= i < |including| :: !IsUser(including[i])
    requires forall i | 0 <= i < |excluding| :: !IsUser(excluding[i])
    ensures Selected(names, including, excluding, fold, user) == Chosen(Filter(names, including, excluding, fold))
  {
    if names != [] {
      SelectedExactly(names[1..], including, excluding, fold, user);
      FirstOfIsLike(names[0], including, fold, user);
      FirstOfIsLike(names[0], excluding, fold, user);
      hide FirstOf, SomeLike, IsUser;
      NobodyLikes(names[0], fold);
    }
  }

  lemma NobodyLikes(name: string, fold: char -> char)
    ensures !SomeLike(name, [], fold)
  {
  }

  // ----- Patterns as they are written -----

  /** Each pattern in single quotes, as option lists hand them over. */
  function Quoted(patterns: seq<string>): (qs: seq<string>)
    ensures |qs| == |patterns|
  {
    seq(|patterns|, i requires 0 <= i < |patterns| => "'" + (patterns[i] + "'"))
  }

  predicate LikeAny(name: string, patterns: seq<string>, fold: char -> char) {
    exists i | 0 <= i < |patterns| :: Like(patterns[i], name, fold)
  }

  /** The names to keep, by the patterns themselves. */
  predicate Keep(name: string, including: seq<string>, excluding: seq<string>, fold: char -> char) {
    (including == [] || LikeAny(name, including, fold)) && !LikeAny(name, excluding, fold)
  }

  lemma LikeAnyQuoted(name: string, patterns: seq<string>, fold: char -> char)
    ensures SomeLike(name, Quoted(patterns), fold) <==> LikeAny(name, patterns, fold)
  {
    var qs := Quoted(patterns);
    forall i | 0 <= i < |patterns|
      ensures Unquoted(qs[i]) == patterns[i]
    {
      assert qs[i][1..|qs[i]| - 1] == patterns[i];
    }
    hide Like;
  }

  lemma LikeAnyPlain(name: string, patterns: seq<string>, fold: char -> char)
    requires forall i | 0 <= i < |patterns| :: !Enclosed(patterns[i])
    ensures SomeLike(name, patterns, fold) <==> LikeAny(name, patterns, fold)
  {
    assert forall i | 0 <= i < |patterns| :: Unquoted(patterns[i]) == patterns[i];
    hide Like;
  }

  lemma {:induction false} FilterIs(names: seq<string>, including: seq<string>, excluding: seq<string>,
                                    inc: seq<string>, exc: seq<string>, fold: char -> char)
    requires including == [] <==> inc == []
    requires forall name <- names :: SomeLike(name, including, fold) <==> LikeAny(name, inc, fold)
    requires forall name <- names :: SomeLike(name, excluding, fold) <==> LikeAny(name, exc, fold)
    ensures forall name :: name in Filter(names, including, excluding, fold)
                      <==> name in names && Keep(name, inc, exc, fold)
    ensures forall k | 0 <= k < |names| && !Keep(names[k], inc, exc, fold) ::
              names[k] !in Filter(names, including, excluding, fold)
    ensures (forall name <- names :: Keep(name, inc, exc, fold)) ==>
              Filter(names, including, excluding, fold) == names
  {
    hide SomeLike, LikeAny;
    if names != [] {
      FilterIs(names[1..], including, excluding, inc, exc, fold);
      assert names == [names[0]] + names[1..];
    }
  }

  /**
   Which tables are kept, stated for the patterns as they are written: it makes no difference whether they
   stand in single quotes.
   */
  lemma SelectedByPatterns(names: seq<string>, including: seq<string>, excluding: seq<string>,
                           fold: char -> char, user: (string, string) -> Verdict)
    requires forall k | 0 <= k < |names| :: '\n' !in names[k]
    ensures var r := Selected(names, Quoted(including), Quoted(excluding), fold, user);
            r.Chosen? && forall name :: name in r.names <==> name in names && Keep(name, including, excluding, fold)
    ensures (forall p <- including + excluding :: !IsUser(p) && !Enclosed(p)) ==>
              var r := Selected(names, including, excluding, fold, user);
              r.Chosen? && forall name :: name in r.names <==> name in names && Keep(name, including, excluding, fold)
  {
    hide *;
    QuotedAlike(names, including, excluding, fold);
    SelectedExactly(names, Quoted(including), Quoted(excluding), fold, user);
    FilterIs(names, Quoted(including), Quoted(excluding), including, excluding, fold);
    if forall p <- including + excluding :: !IsUser(p) && !Enclosed(p) {
      PlainAlike(names, including, excluding, fold);
      SelectedExactly(names, including, excluding, fold, user);
      FilterIs(names, including, excluding, including, excluding, fold);
    }
  }

  lemma QuotedAlike(names: seq<string>, including: seq<string>, excluding: seq<string>, fold: char -> char)
    ensures Quoted(including) == [] <==> including == []
    ensures forall i | 0 <= i < |including| :: !IsUser(Quoted(including)[i])
    ensures forall i | 0 <= i < |excluding| :: !IsUser(Quoted(excluding)[i])
    ensures forall name <- names :: SomeLike(name, Quoted(including), fold) <==> LikeAny(name, including, fold)
    ensures forall name <- names :: SomeLike(name, Quoted(excluding), fold) <==> LikeAny(name, excluding, fold)
  {
    hide SomeLike, LikeAny;
    forall name | name in names
      ensures SomeLike(name, Quoted(including), fold) <==> LikeAny(name, including, fold)
      ensures SomeLike(name, Quoted(excluding), fold) <==> LikeAny(name, excluding, fold)
    {
      LikeAnyQuoted(name, including, fold);
      LikeAnyQuoted(name, excluding, fold);
    }
  }

  lemma PlainAlike(names: seq<string>, including: seq<string>, excluding: seq<string>, fold: char -> char)
    requires forall p <- including + excluding :: !IsUser(p) && !Enclosed(p)
    ensures forall i | 0 <= i < |including| :: !IsUser(including[i])
    ensures forall i | 0 <= i < |excluding| :: !IsUser(excluding[i])
    ensures forall name <- names :: SomeLike(name, including, fold) <==> LikeAny(name, including, fold)
    ensures forall name <- names :: SomeLike(name, excluding, fold) <==> LikeAny(name, excluding, fold)
  {
    hide SomeLike, LikeAny, IsUser, Enclosed;
    assert forall i | 0 <= i < |including| :: including[i] in including + excluding;
    assert forall i | 0 <= i < |excluding| :: excluding[i] in including + excluding;
    forall name | name in names
      ensures SomeLike(name, including, fold) <==> LikeAny(name, including, fold)
      ensures SomeLike(name, excluding, fold) <==> LikeAny(name, excluding, fold)
    {
      LikeAnyPlain(name, including, fold);
      LikeAnyPlain(name, excluding, fold);
    }
  }
}
