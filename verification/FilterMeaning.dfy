/**
 What a filter means in both dialects: its tokens are parsed to an expression, and the expression has a
 truth value in every row.  A translated filter means the same.
 */
module FilterMeaning {
  import opened Decimal
  import opened Text
  import opened FilterText
  import opened FilterLexer
  import opened FilterTranslation

  // ----- Expressions -----

  datatype Expr =
    | Column(name: string)
    | Constant(word: string)
    | Str(value: string)
    | Negative(e: Expr)
    | Null
    | Compare(op: string, a: Expr, b: Expr)
    | IsNull(e: Expr)
    | In(e: Expr, list: seq<Expr>)
    | Between(e: Expr, low: Expr, high: Expr)
    | Not(e: Expr)
    | And(a: Expr, b: Expr)
    | Or(a: Expr, b: Expr)

  type Result = Option<(Expr, seq<Tree>)>

  function WeightOne(t: Tree): (n: nat)
    ensures n > 0
    decreases t
  {
    match t
    case Leaf(_) => 1
    case Group(items) => 2 + Weight(items)
  }

  function Weight(ts: seq<Tree>): nat
    decreases ts
  {
    if ts == [] then 0 else WeightOne(ts[0]) + Weight(ts[1..])
  }

  predicate IsKeyword(w: string) {
    w == "AND" || w == "OR" || w == "NOT" || w == "IS" || w == "IN" || w == "BETWEEN"
  }

  predicate IsComparison(op: string) {
    op == "=" || op == "<>" || op == "<" || op == "<=" || op == ">" || op == ">="
  }

  predicate Ahead(ts: seq<Tree>, w: string) { ts != [] && ts[0] == Leaf(Word(w)) }

  // ----- The grammar of predicates -----

  /** A column, a constant, or an expression in parentheses. */
  function Primary(ts: seq<Tree>): (r: Result)
    ensures r.Some? ==> Weight(r.value.1) < Weight(ts)
    decreases Weight(ts), 1
  {
    if ts == [] then None
    else
      match ts[0]
      case Group(items) =>
        (match All(items)
         case None => None
         case Some(e) => Some((e, ts[1..])))
      case Leaf(Name(n)) => Some((Column(n), ts[1..]))
      case Leaf(Literal(v)) => Some((Str(v), ts[1..]))
      case Leaf(Word(w)) =>
        if IsKeyword(w) then None else Some((if w == "NULL" then Null else Constant(w), ts[1..]))
      case Leaf(Op(op)) =>
        if op != "-" then None
        else (match Primary(ts[1..])
              case None => None
              case Some((e, rest)) => Some((Negative(e), rest)))
      case _ => None
  }

  /** IN with a list, or BETWEEN. */
  function Range(a: Expr, ts: seq<Tree>): (r: Result)
    ensures r.Some? ==> Weight(r.value.1) <= Weight(ts)
    decreases Weight(ts), 2
  {
    if Ahead(ts, "IN") then
      if |ts| > 1 && ts[1].Group? then
        assert ts[1..][1..] == ts[2..] && Weight(ts[1..]) == WeightOne(ts[1]) + Weight(ts[2..]);
        match Items(ts[1].items)
        case None => None
        case Some(list) => Some((In(a, list), ts[2..]))
      else None
    else if Ahead(ts, "BETWEEN") then
      match Primary(ts[1..])
      case None => None
      case Some((low, rest)) =>
        if !Ahead(rest, "AND") then None
        else
          match Primary(rest[1..])
          case None => None
          case Some((high, after)) => Some((Between(a, low, high), after))
    else None
  }

  /** IS NULL or IS NOT NULL, after the IS. */
  function NullTest(a: Expr, ts: seq<Tree>): (r: Result)
    ensures r.Some? ==> Weight(r.value.1) <= Weight(ts)
  {
    if Ahead(ts, "NULL") then Some((IsNull(a), ts[1..]))
    else if Ahead(ts, "NOT") && Ahead(ts[1..], "NULL") then
      assert ts[1..][1..] == ts[2..];
      Some((Not(IsNull(a)), ts[2..]))
    else None
  }

  /** What may follow a value. */
  function Test(a: Expr, ts: seq<Tree>): (r: Result)
    ensures r.Some? ==> Weight(r.value.1) <= Weight(ts)
    decreases Weight(ts), 3
  {
    if ts != [] && ts[0].Leaf? && ts[0].token.Op? && IsComparison(ts[0].token.op) then
      match Primary(ts[1..])
      case None => None
      case Some((b, rest)) => Some((Compare(ts[0].token.op, a, b), rest))
    else if Ahead(ts, "IS") then NullTest(a, ts[1..])
    else if Ahead(ts, "NOT") then
      match Range(a, ts[1..])
      case None => None
      case Some((e, rest)) => Some((Not(e), rest))
    else if Ahead(ts, "IN") || Ahead(ts, "BETWEEN") then Range(a, ts)
    else Some((a, ts))
  }

  function Factor(ts: seq<Tree>): (r: Result)
    ensures r.Some? ==> Weight(r.value.1) < Weight(ts)
    decreases Weight(ts), 4
  {
    if Ahead(ts, "NOT") then
      match Factor(ts[1..])
      case None => None
      case Some((e, rest)) => Some((Not(e), rest))
    else
      match Primary(ts)
      case None => None
      case Some((a, rest)) => Test(a, rest)
  }

  function MoreAnds(a: Expr, ts: seq<Tree>): (r: Result)
    ensures r.Some? ==> Weight(r.value.1) <= Weight(ts)
    decreases Weight(ts), 5
  {
    if !Ahead(ts, "AND") then Some((a, ts))
    else
      match Factor(ts[1..])
      case None => None
      case Some((b, rest)) => MoreAnds(And(a, b), rest)
  }

  function Conjunction(ts: seq<Tree>): (r: Result)
    ensures r.Some? ==> Weight(r.value.1) < Weight(ts)
    decreases Weight(ts), 6
  {
    match Factor(ts)
    case None => None
    case Some((a, rest)) => MoreAnds(a, rest)
  }

  function MoreOrs(a: Expr, ts: seq<Tree>): (r: Result)
    ensures r.Some? ==> Weight(r.value.1) <= Weight(ts)
    decreases Weight(ts), 7
  {
    if !Ahead(ts, "OR") then Some((a, ts))
    else
      match Conjunction(ts[1..])
      case None => None
      case Some((b, rest)) => MoreOrs(Or(a, b), rest)
  }

  function Disjunction(ts: seq<Tree>): (r: Result)
    ensures r.Some? ==> Weight(r.value.1) < Weight(ts)
    decreases Weight(ts), 8
  {
    match Conjunction(ts)
    case None => None
    case Some((a, rest)) => MoreOrs(a, rest)
  }

  /** Everything is one expression. */
  function All(ts: seq<Tree>): Option<Expr>
    decreases Weight(ts), 9
  {
    match Disjunction(ts)
    case None => None
    case Some((e, rest)) => if rest == [] then Some(e) else None
  }

  /** Expressions with commas between them. */
  function Items(ts: seq<Tree>): Option<seq<Expr>>
    decreases Weight(ts), 9
  {
    match Disjunction(ts)
    case None => None
    case Some((e, rest)) =>
      if rest == [] then Some([e])
      else if rest[0] != Leaf(Comma) then None
      else
        match Items(rest[1..])
        case None => None
        case Some(es) => Some([e] + es)
  }

  // ----- Expressions in parentheses -----

  /** Parentheses around an expression do not change it. */
  lemma SingleAll(g: seq<Tree>)
    ensures All([Group(g)]) == All(g)
    ensures All(g).Some? ==> Items(g) == Some([All(g).value])
    ensures Items([Group(g)]) == if All(g).Some? then Some([All(g).value]) else None
  {
    var ts := [Group(g)];
    assert ts[1..] == [];
    var r: Result := if All(g).Some? then Some((All(g).value, [])) else None;
    assert Primary(ts) == r;
    hide Primary, All;
    assert Factor(ts) == r;
    hide Factor;
    assert Conjunction(ts) == r;
    hide Conjunction;
    assert Disjunction(ts) == r;
    SingleItems(g);
    AllIs(ts);
  }

  lemma AllIs(ts: seq<Tree>)
    ensures All(ts) == match Disjunction(ts) case None => None case Some((e, rest)) => if rest == [] then Some(e) else None
  {
    hide Disjunction;
  }

  lemma SingleItems(g: seq<Tree>)
    ensures All(g).Some? ==> Items(g) == Some([All(g).value])
  {
    hide Disjunction;
  }

  /** An expression with single spaces in its names and literals. */
  function SpacedExpr(e: Expr): Expr
    decreases e
  {
    match e
    case Column(n) => Column(Spaced(n))
    case Constant(_) => e
    case Str(v) => Str(Spaced(v))
    case Negative(a) => Negative(SpacedExpr(a))
    case Null => e
    case Compare(op, a, b) => Compare(op, SpacedExpr(a), SpacedExpr(b))
    case IsNull(a) => IsNull(SpacedExpr(a))
    case In(a, list) => In(SpacedExpr(a), SpacedList(list))
    case Between(a, low, high) => Between(SpacedExpr(a), SpacedExpr(low), SpacedExpr(high))
    case Not(a) => Not(SpacedExpr(a))
    case And(a, b) => And(SpacedExpr(a), SpacedExpr(b))
    case Or(a, b) => Or(SpacedExpr(a), SpacedExpr(b))
  }

  function SpacedList(es: seq<Expr>): seq<Expr>
    decreases es
  {
    if es == [] then [] else [SpacedExpr(es[0])] + SpacedList(es[1..])
  }

  lemma SpacedNot(a: Expr)
    ensures SpacedExpr(Not(a)) == Not(SpacedExpr(a))
  {
  }

  lemma SpacedBetween(a: Expr, b: Expr, c: Expr)
    ensures SpacedExpr(Between(a, b, c)) == Between(SpacedExpr(a), SpacedExpr(b), SpacedExpr(c))
  {
  }

  lemma SpacedPair(a: Expr, b: Expr)
    ensures SpacedExpr(And(a, b)) == And(SpacedExpr(a), SpacedExpr(b))
    ensures SpacedExpr(Or(a, b)) == Or(SpacedExpr(a), SpacedExpr(b))
  {
  }

  lemma SpacedCons(e: Expr, es: seq<Expr>)
    ensures SpacedList([e] + es) == [SpacedExpr(e)] + SpacedList(es)
    ensures SpacedList([]) == [] && SpacedList([e]) == [SpacedExpr(e)]
  {
    hide SpacedExpr;
    assert ([e] + es)[1..] == es && [e][1..] == [];
  }

  /** Trees that differ in white space in quotes, and in groups, where what can be parsed is spaced. */
  ghost predicate KeepsOne(t: Tree, u: Tree) {
    match t
    case Leaf(token) => u == Leaf(SpacedToken(token))
    case Group(g) =>
      && u.Group?
      && (All(g).Some? ==> All(u.items) == Some(SpacedExpr(All(g).value)))
      && (Items(g).Some? ==> Items(u.items) == Some(SpacedList(Items(g).value)))
  }

  ghost predicate Keeps(ts: seq<Tree>, us: seq<Tree>) {
    |ts| == |us| && forall i | 0 <= i < |ts| :: KeepsOne(ts[i], us[i])
  }

  ghost predicate KeepsResult(r: Result, q: Result) {
    r.Some? ==> q.Some? && q.value.0 == SpacedExpr(r.value.0) && Keeps(r.value.1, q.value.1)
  }

  lemma KeepsTail(ts: seq<Tree>, us: seq<Tree>, k: nat)
    requires Keeps(ts, us) && k <= |ts|
    ensures Keeps(ts[k..], us[k..])
  {
    hide KeepsOne;
  }

  lemma KeepsAhead(ts: seq<Tree>, us: seq<Tree>, w: string)
    requires Keeps(ts, us)
    ensures Ahead(us, w) <==> Ahead(ts, w)
    ensures ts != [] ==> us != [] && KeepsOne(ts[0], us[0])
    ensures |ts| > 1 ==> |us| > 1 && KeepsOne(ts[1], us[1])
  {
    assert ts != [] ==> KeepsOne(ts[0], us[0]);
    hide All, Items;
  }

  lemma {:induction false} PrimaryKeeps(ts: seq<Tree>, us: seq<Tree>)
    requires Keeps(ts, us)
    ensures KeepsResult(Primary(ts), Primary(us))
    decreases |ts|
  {
    hide All, Items, IsKeyword;
    if ts != [] {
      KeepsAhead(ts, us, "");
      KeepsTail(ts, us, 1);
      hide Keeps, Weight;
      if ts[0].Leaf? {
        PrimaryKeeps(ts[1..], us[1..]);
      }
    }
  }

  lemma ListKeeps(a: Expr, ts: seq<Tree>, us: seq<Tree>)
    requires Keeps(ts, us) && Ahead(ts, "IN")
    ensures KeepsResult(Range(a, ts), Range(SpacedExpr(a), us))
  {
    KeepsAhead(ts, us, "IN");
    if |ts| > 1 {
      KeepsTail(ts, us, 2);
    }
    hide All, Items, Primary, Keeps, Weight;
  }

  lemma BetweenKeeps(a: Expr, ts: seq<Tree>, us: seq<Tree>)
    requires Keeps(ts, us) && Ahead(ts, "BETWEEN")
    ensures KeepsResult(Range(a, ts), Range(SpacedExpr(a), us))
  {
    KeepsAhead(ts, us, "BETWEEN");
    KeepsTail(ts, us, 1);
    PrimaryKeeps(ts[1..], us[1..]);
    hide Primary, Items, Weight, KeepsOne, SpacedExpr;
    if Primary(ts[1..]).Some? {
      var rest, urest := Primary(ts[1..]).value.1, Primary(us[1..]).value.1;
      KeepsAhead(rest, urest, "AND");
      if Ahead(rest, "AND") {
        KeepsTail(rest, urest, 1);
        PrimaryKeeps(rest[1..], urest[1..]);
        if Primary(rest[1..]).Some? {
          SpacedBetween(a, Primary(ts[1..]).value.0, Primary(rest[1..]).value.0);
        }
      }
    }
    hide Keeps;
  }

  lemma RangeKeeps(a: Expr, ts: seq<Tree>, us: seq<Tree>)
    requires Keeps(ts, us)
    ensures KeepsResult(Range(a, ts), Range(SpacedExpr(a), us))
  {
    if Ahead(ts, "IN") {
      ListKeeps(a, ts, us);
    } else if Ahead(ts, "BETWEEN") {
      BetweenKeeps(a, ts, us);
    }
  }

  lemma NullTestKeeps(a: Expr, ts: seq<Tree>, us: seq<Tree>)
    requires Keeps(ts, us)
    ensures KeepsResult(NullTest(a, ts), NullTest(SpacedExpr(a), us))
  {
    KeepsAhead(ts, us, "NULL");
    KeepsAhead(ts, us, "NOT");
    if ts != [] {
      KeepsTail(ts, us, 1);
      KeepsAhead(ts[1..], us[1..], "NULL");
    }
    if |ts| > 1 {
      KeepsTail(ts, us, 2);
    }
    assert SpacedExpr(Not(IsNull(a))) == Not(SpacedExpr(IsNull(a)));
    hide Keeps, KeepsOne, Weight;
  }

  predicate SignAhead(ts: seq<Tree>) {
    ts != [] && ts[0].Leaf? && ts[0].token.Op? && IsComparison(ts[0].token.op)
  }

  lemma CompareKeeps(a: Expr, ts: seq<Tree>, us: seq<Tree>)
    requires Keeps(ts, us) && SignAhead(ts)
    ensures KeepsResult(Test(a, ts), Test(SpacedExpr(a), us))
  {
    KeepsAhead(ts, us, "");
    KeepsTail(ts, us, 1);
    PrimaryKeeps(ts[1..], us[1..]);
    hide Primary, NullTest, Range, Keeps, IsComparison, All, Items, Weight;
  }

  lemma WordKeeps(a: Expr, ts: seq<Tree>, us: seq<Tree>)
    requires Keeps(ts, us) && ts != [] && !SignAhead(ts)
    ensures KeepsResult(Test(a, ts), Test(SpacedExpr(a), us))
  {
    KeepsAhead(ts, us, "IS");
    KeepsAhead(ts, us, "NOT");
    KeepsAhead(ts, us, "IN");
    KeepsAhead(ts, us, "BETWEEN");
    hide All, Items, IsComparison;
    assert !SignAhead(us);
    hide Primary, NullTest, Range, Keeps, Weight, KeepsOne, Ahead, SpacedExpr;
    if Ahead(ts, "IS") {
      KeepsTail(ts, us, 1);
      NullTestKeeps(a, ts[1..], us[1..]);
    } else if Ahead(ts, "NOT") {
      KeepsTail(ts, us, 1);
      RangeKeeps(a, ts[1..], us[1..]);
      if Range(a, ts[1..]).Some? {
        SpacedNot(Range(a, ts[1..]).value.0);
      }
    } else if Ahead(ts, "IN") || Ahead(ts, "BETWEEN") {
      RangeKeeps(a, ts, us);
    }
  }

  lemma TestKeeps(a: Expr, ts: seq<Tree>, us: seq<Tree>)
    requires Keeps(ts, us)
    ensures KeepsResult(Test(a, ts), Test(SpacedExpr(a), us))
  {
    if SignAhead(ts) {
      CompareKeeps(a, ts, us);
    } else if ts != [] {
      WordKeeps(a, ts, us);
    }
  }

  lemma {:induction false} FactorKeeps(ts: seq<Tree>, us: seq<Tree>)
    requires Keeps(ts, us)
    ensures KeepsResult(Factor(ts), Factor(us))
    decreases |ts|
  {
    KeepsAhead(ts, us, "NOT");
    hide Primary, Test, KeepsOne, Weight;
    if Ahead(ts, "NOT") {
      KeepsTail(ts, us, 1);
      FactorKeeps(ts[1..], us[1..]);
    } else {
      PrimaryKeeps(ts, us);
      if Primary(ts).Some? {
        TestKeeps(Primary(ts).value.0, Primary(ts).value.1, Primary(us).value.1);
      }
    }
    hide Keeps;
  }

  lemma {:induction false} MoreAndsKeeps(a: Expr, ts: seq<Tree>, us: seq<Tree>)
    requires Keeps(ts, us)
    ensures KeepsResult(MoreAnds(a, ts), MoreAnds(SpacedExpr(a), us))
    decreases Weight(ts)
  {
    KeepsAhead(ts, us, "AND");
    hide Factor, KeepsOne, SpacedExpr;
    if Ahead(ts, "AND") {
      KeepsTail(ts, us, 1);
      FactorKeeps(ts[1..], us[1..]);
      if Factor(ts[1..]).Some? {
        var r := Factor(ts[1..]).value;
        SpacedPair(a, r.0);
        MoreAndsKeeps(And(a, r.0), r.1, Factor(us[1..]).value.1);
      }
    }
    hide Keeps;
  }

  lemma ConjunctionKeeps(ts: seq<Tree>, us: seq<Tree>)
    requires Keeps(ts, us)
    ensures KeepsResult(Conjunction(ts), Conjunction(us))
  {
    FactorKeeps(ts, us);
    hide Factor, MoreAnds, Keeps, Weight;
    if Factor(ts).Some? {
      MoreAndsKeeps(Factor(ts).value.0, Factor(ts).value.1, Factor(us).value.1);
    }
  }

  lemma {:induction false} MoreOrsKeeps(a: Expr, ts: seq<Tree>, us: seq<Tree>)
    requires Keeps(ts, us)
    ensures KeepsResult(MoreOrs(a, ts), MoreOrs(SpacedExpr(a), us))
    decreases Weight(ts)
  {
    KeepsAhead(ts, us, "OR");
    hide Conjunction, KeepsOne, SpacedExpr;
    if Ahead(ts, "OR") {
      KeepsTail(ts, us, 1);
      ConjunctionKeeps(ts[1..], us[1..]);
      if Conjunction(ts[1..]).Some? {
        var r := Conjunction(ts[1..]).value;
        SpacedPair(a, r.0);
        MoreOrsKeeps(Or(a, r.0), r.1, Conjunction(us[1..]).value.1);
      }
    }
    hide Keeps;
  }

  lemma DisjunctionKeeps(ts: seq<Tree>, us: seq<Tree>)
    requires Keeps(ts, us)
    ensures KeepsResult(Disjunction(ts), Disjunction(us))
  {
    ConjunctionKeeps(ts, us);
    hide Conjunction, MoreOrs, Keeps, Weight;
    if Conjunction(ts).Some? {
      MoreOrsKeeps(Conjunction(ts).value.0, Conjunction(ts).value.1, Conjunction(us).value.1);
    }
  }

  lemma AllKeeps(ts: seq<Tree>, us: seq<Tree>)
    requires Keeps(ts, us)
    ensures All(ts).Some? ==> All(us) == Some(SpacedExpr(All(ts).value))
  {
    DisjunctionKeeps(ts, us);
    hide Disjunction, KeepsOne;
  }

  lemma {:induction false} ItemsKeeps(ts: seq<Tree>, us: seq<Tree>)
    requires Keeps(ts, us)
    ensures Items(ts).Some? ==> Items(us) == Some(SpacedList(Items(ts).value))
    decreases Weight(ts)
  {
    DisjunctionKeeps(ts, us);
    hide Disjunction;
    if Items(ts).Some? {
      var r, q := Disjunction(ts).value, Disjunction(us).value;
      if r.1 != [] {
        KeepsTail(r.1, q.1, 1);
        KeepsAhead(r.1, q.1, "");
        ItemsKeeps(r.1[1..], q.1[1..]);
        if Items(r.1[1..]).Some? {
          SpacedCons(r.0, Items(r.1[1..]).value);
        }
      }
      SpacedCons(r.0, []);
    }
    hide All, SpacedExpr, SpacedList;
  }

  // ----- Redundant parentheses -----

  function SpacedTree(t: Tree): Tree
    decreases t
  {
    match t
    case Leaf(token) => Leaf(SpacedToken(token))
    case Group(items) => Group(SpacedTrees(items))
  }

  function SpacedTrees(ts: seq<Tree>): seq<Tree>
    decreases ts
  {
    if ts == [] then [] else [SpacedTree(ts[0])] + SpacedTrees(ts[1..])
  }

  lemma SpacedParts(ts: seq<Tree>)
    requires ts != []
    ensures var us := SpacedTrees(ts);
            us != [] && us[0] == SpacedTree(ts[0]) && us[1..] == SpacedTrees(ts[1..])
  {
    hide SpacedTree;
  }

  lemma {:induction false} SpacedProper(ts: seq<Tree>)
    requires Proper(ts)
    ensures Proper(SpacedTrees(ts))
    decreases ts
  {
    if ts != [] {
      SpacedParts(ts);
      ProperParts(ts);
      SpacedProper(ts[1..]);
      if ts[0].Group? {
        SpacedProper(ts[0].items);
      }
      hide Spaced;
    }
  }

  lemma {:induction false} FlattenSpaced(ts: seq<Tree>)
    ensures Flatten(SpacedTrees(ts)) == SpacedTokens(Flatten(ts))
    decreases ts
  {
    if ts != [] {
      SpacedParts(ts);
      FlattenSpaced(ts[1..]);
      assert Flatten(ts) == FlattenOne(ts[0]) + Flatten(ts[1..]);
      assert Flatten(SpacedTrees(ts)) == FlattenOne(SpacedTree(ts[0])) + Flatten(SpacedTrees(ts[1..]));
      if ts[0].Group? {
        FlattenSpaced(ts[0].items);
      }
      OneFlattened(ts[0]);
      hide *;
      SpacedAppend(FlattenOne(ts[0]), Flatten(ts[1..]));
    }
  }

  lemma OneFlattened(t: Tree)
    requires t.Group? ==> Flatten(SpacedTrees(t.items)) == SpacedTokens(Flatten(t.items))
    ensures FlattenOne(SpacedTree(t)) == SpacedTokens(FlattenOne(t))
  {
    hide Spaced, Flatten, SpacedTrees;
    if t.Group? {
      SpacedAppend([Open], Flatten(t.items) + [Close]);
      SpacedAppend(Flatten(t.items), [Close]);
    }
  }

  /** Without redundant parentheses every expression and every list is the same, but for white space. */
  lemma {:induction false} SquashKeeps(ts: seq<Tree>)
    ensures All(ts).Some? ==> All(SpacedTrees(Squash(ts))) == Some(SpacedExpr(All(ts).value))
    ensures Items(ts).Some? ==> Items(SpacedTrees(Squash(ts))) == Some(SpacedList(Items(ts).value))
    decreases ts, 1
  {
    hide All, Items, SpacedTrees;
    if |ts| == 1 && ts[0].Group? {
      var g := ts[0].items;
      assert ts == [Group(g)];
      SingleAll(g);
      SquashKeeps(g);
      OneSpaced(g);
    } else {
      SquashEachKeeps(ts);
      AllKeeps(ts, SpacedTrees(SquashEach(ts)));
      ItemsKeeps(ts, SpacedTrees(SquashEach(ts)));
    }
  }

  lemma OneSpaced(g: seq<Tree>)
    ensures All(g).Some? ==> SpacedList([All(g).value]) == [SpacedExpr(All(g).value)]
    ensures All(g).Some? ==> Items(g) == Some([All(g).value])
  {
    SingleItems(g);
    hide All, Items, SpacedExpr;
    if All(g).Some? {
      assert [All(g).value][1..] == [];
    }
  }

  lemma {:induction false} SquashEachKeeps(ts: seq<Tree>)
    ensures Keeps(ts, SpacedTrees(SquashEach(ts)))
    decreases ts, 0
  {
    hide All, Items, Squash;
    if ts != [] {
      SquashEachKeeps(ts[1..]);
      if ts[0].Group? {
        SquashKeeps(ts[0].items);
      }
      var squashed := SquashEach(ts);
      var us := SpacedTrees(squashed);
      assert squashed[1..] == SquashEach(ts[1..]) && us[1..] == SpacedTrees(squashed[1..]);
      assert us[0] == SpacedTree(squashed[0]);
      KeepsCons(ts, us);
    }
  }

  lemma KeepsCons(ts: seq<Tree>, us: seq<Tree>)
    requires ts != [] && us != [] && KeepsOne(ts[0], us[0]) && Keeps(ts[1..], us[1..])
    ensures Keeps(ts, us)
  {
    hide KeepsOne;
    forall i | 0 <= i < |ts|
      ensures KeepsOne(ts[i], us[i])
    {
      assert i > 0 ==> ts[i] == ts[1..][i - 1] && us[i] == us[1..][i - 1];
    }
  }

  // ----- Tokens have one nesting -----

  /** What may follow a nested part: its closing parenthesis, or nothing. */
  predicate AtEnd(ts: seq<Token>) { ts == [] || ts[0] == Close }

  lemma {:induction false} FlattenInjective(a: seq<Tree>, b: seq<Tree>, x: seq<Token>, y: seq<Token>)
    requires Proper(a) && Proper(b) && AtEnd(x) && AtEnd(y) && Flatten(a) + x == Flatten(b) + y
    ensures a == b && x == y
    decreases a
  {
    FlattenHead(a, x);
    FlattenHead(b, y);
    if a == [] || b == [] {
      assert Flatten([]) + x == x && Flatten([]) + y == y;
    } else {
      hide Proper, Flatten;
      ProperParts(a);
      ProperParts(b);
      FlattenCons(a, x);
      FlattenCons(b, y);
      var after, bfter := Flatten(a[1..]) + x, Flatten(b[1..]) + y;
      if a[0].Leaf? {
        SameTail(a[0].token, after, bfter);
      } else {
        var g, h := a[0].items, b[0].items;
        SameTail(Open, Flatten(g) + ([Close] + after), Flatten(h) + ([Close] + bfter));
        FlattenInjective(g, h, [Close] + after, [Close] + bfter);
        SameTail(Close, after, bfter);
      }
      FlattenInjective(a[1..], b[1..], x, y);
      assert a == [a[0]] + a[1..] && b == [b[0]] + b[1..];
    }
  }

  lemma SameTail(t: Token, a: seq<Token>, b: seq<Token>)
    ensures [t] + a == [t] + b ==> a == b
  {
    assert ([t] + a)[1..] == a && ([t] + b)[1..] == b;
  }

  lemma ProperParts(a: seq<Tree>)
    requires Proper(a) && a != []
    ensures Proper(a[1..]) && (a[0].Group? ==> Proper(a[0].items))
  {
  }

  lemma FlattenCons(a: seq<Tree>, x: seq<Token>)
    requires a != []
    ensures a[0].Leaf? ==> Flatten(a) + x == [a[0].token] + (Flatten(a[1..]) + x)
    ensures a[0].Group? ==> Flatten(a) + x == [Open] + (Flatten(a[0].items) + ([Close] + (Flatten(a[1..]) + x)))
  {
    var tail := Flatten(a[1..]);
    if a[0].Group? {
      GroupShape(Flatten(a[0].items), tail, x);
    } else {
      assert [a[0].token] + tail + x == [a[0].token] + (tail + x);
    }
  }

  lemma GroupShape(inner: seq<Token>, tail: seq<Token>, x: seq<Token>)
    ensures [Open] + (inner + [Close]) + tail + x == [Open] + (inner + ([Close] + (tail + x)))
  {
  }

  lemma FlattenHead(a: seq<Tree>, x: seq<Token>)
    requires Proper(a) && AtEnd(x)
    ensures a == [] ==> AtEnd(Flatten(a) + x)
    ensures a != [] ==> Flatten(a) + x != [] && (Flatten(a) + x)[0] == if a[0].Leaf? then a[0].token else Open
    ensures a != [] && a[0].Leaf? ==> a[0].token != Open && a[0].token != Close
  {
  }

  ghost function TreesOf(ts: seq<Token>): Option<seq<Tree>> {
    if exists trees :: Proper(trees) && Flatten(trees) == ts then
      var trees :| Proper(trees) && Flatten(trees) == ts;
      Some(trees)
    else None
  }

  lemma TreesAre(trees: seq<Tree>)
    requires Proper(trees)
    ensures TreesOf(Flatten(trees)) == Some(trees)
  {
    var ts := Flatten(trees);
    var other := TreesOf(ts).value;
    assert Flatten(other) + [] == Flatten(trees) + [];
    FlattenInjective(other, trees, [], []);
  }

  // ----- Balanced text -----

  function Deeper(t: Token): int {
    match t
    case Open => 1
    case Close => -1
    case _ => 0
  }

  predicate TokensBalanced(ts: seq<Token>, depth: int) {
    if depth < 0 then false
    else if ts == [] then depth == 0
    else TokensBalanced(ts[1..], depth + Deeper(ts[0]))
  }

  lemma {:induction false} FlattenBalanced(trees: seq<Tree>, rest: seq<Token>, depth: nat)
    requires Proper(trees)
    ensures TokensBalanced(Flatten(trees) + rest, depth) <==> TokensBalanced(rest, depth)
    decreases trees
  {
    if trees == [] {
      assert Flatten(trees) + rest == rest;
    } else {
      var after := Flatten(trees[1..]) + rest;
      FlattenCons(trees, rest);
      ProperParts(trees);
      NoDepth(trees);
      hide *;
      FlattenBalanced(trees[1..], rest, depth);
      if trees[0].Leaf? {
        TokensStep(trees[0].token, after, depth);
      } else {
        var g := trees[0].items;
        TokensStep(Open, Flatten(g) + ([Close] + after), depth);
        FlattenBalanced(g, [Close] + after, depth + 1);
        TokensStep(Close, after, depth + 1);
      }
    }
  }

  lemma NoDepth(trees: seq<Tree>)
    requires Proper(trees) && trees != []
    ensures trees[0].Leaf? ==> Deeper(trees[0].token) == 0
    ensures Deeper(Open) == 1 && Deeper(Close) == -1
  {
  }

  lemma TokensStep(t: Token, rest: seq<Token>, depth: nat)
    ensures TokensBalanced([t] + rest, depth) <==> TokensBalanced(rest, depth + Deeper(t))
  {
    assert ([t] + rest)[1..] == rest;
  }

  /** Tokens before which the depth does not change. */
  lemma {:induction false} LeavesBalanced(ts: seq<Token>, rest: seq<Token>, depth: int)
    requires LeavesOnly(ts)
    ensures TokensBalanced(ts + rest, depth) <==> TokensBalanced(rest, depth)
    decreases |ts|
  {
    if ts == [] {
      assert ts + rest == rest;
    } else {
      assert ts[0] in ts && (ts + rest)[1..] == ts[1..] + rest;
      LeavesBalanced(ts[1..], rest, depth);
    }
  }

  lemma StepDepth(m: Mode, c: char, rest: seq<Token>, depth: int)
    requires Reject !in Step(SQLServer, m, c).0
    ensures TokensBalanced(Step(SQLServer, m, c).0 + rest, depth)
        <==> if depth < 0 then false else TokensBalanced(rest, depth + Change(c))
  {
    var ts := Step(SQLServer, m, c).0;
    if c == '(' || c == ')' {
      ParenInside(m, c);
      StepBreaks(SQLServer, m, c);
      StartParens(SQLServer);
      FlushLeaves(m);
      var p := if c == '(' then Open else Close;
      hide Step, Start, Flush;
      assert ts + rest == Flush(m) + ([p] + rest) && ([p] + rest)[1..] == rest;
      LeavesBalanced(Flush(m), [p] + rest, depth);
    } else {
      StepLeaves(m, c);
      hide Step;
      LeavesBalanced(ts, rest, depth);
    }
  }

  lemma StepLeaves(m: Mode, c: char)
    requires c != '(' && c != ')'
    ensures LeavesOnly(Step(SQLServer, m, c).0)
  {
    hide IsSpace;
  }

  /** The parentheses of accepted text are those of its tokens. */
  lemma {:induction false} BalancedAlike(m: Mode, s: string, depth: int)
    requires Reject !in LexFrom(SQLServer, m, s)
    ensures BalancedFrom(s, depth) <==> TokensBalanced(LexFrom(SQLServer, m, s), depth)
    decreases |s|
  {
    if s == "" {
      FlushLeaves(m);
      LeavesBalanced(Flush(m), [], depth);
      assert Flush(m) + [] == Flush(m);
    } else {
      var t := Step(SQLServer, m, s[0]);
      hide Step;
      StepDepth(m, s[0], LexFrom(SQLServer, t.1, s[1..]), depth);
      BalancedAlike(t.1, s[1..], depth + Change(s[0]));
    }
  }

  // ----- Truth -----

  ghost function MeaningOf(ts: seq<Token>): Option<Expr> {
    match TreesOf(ts)
    case None => None
    case Some(trees) => All(trees)
  }

  /** What a text means; nothing when it is no predicate. */
  ghost function Meaning(d: Dialect, text: string): Option<Expr> {
    if Reject in Tokens(d, text) then None else MeaningOf(Tokens(d, text))
  }

  lemma MeaningAccepted(d: Dialect, s: string)
    requires Reject !in Lex(d, s)
    ensures Meaning(d, s) == MeaningOf(Lex(d, s))
  {
    PlainIsAccepted(d, Out, s);
    hide LexFrom, TokensFrom, MeaningOf;
  }

  lemma MeaningBalanced(s: string)
    requires Reject !in Lex(SQLServer, s) && TreesOf(Lex(SQLServer, s)).Some?
    ensures Balanced(s)
  {
    var trees := TreesOf(Lex(SQLServer, s)).value;
    BalancedAlike(Out, s, 0);
    FlattenBalanced(trees, [], 0);
    assert Flatten(trees) + [] == Flatten(trees);
  }

  lemma ExprMeans(s: string)
    requires Reject !in Lex(SQLServer, s) && Meaning(SQLServer, s).Some?
    ensures Meaning(PostgreSQL, TranslateExpr(s)) == Some(SpacedExpr(Meaning(SQLServer, s).value))
  {
    hide All, Lex, Flatten, Squash, Proper, TreesOf, Meaning, SpacedExpr, SpacedTrees, SpacedTokens;
    MeaningAccepted(SQLServer, s);
    MeaningBalanced(s);
    var trees := TranslationMeans(s);
    FlattenNoReject(trees);
    SpacedNoReject(Flatten(Squash(trees)));
    MeaningAccepted(PostgreSQL, TranslateExpr(s));
    TreesAre(trees);
    SquashProper(trees);
    SpacedProper(Squash(trees));
    FlattenSpaced(Squash(trees));
    TreesAre(SpacedTrees(Squash(trees)));
    SquashKeeps(trees);
  }

  lemma {:induction false} SquashProper(trees: seq<Tree>)
    requires Proper(trees)
    ensures Proper(Squash(trees)) && Proper(SquashEach(trees))
    decreases trees
  {
    if trees != [] {
      SquashProper(trees[1..]);
      if trees[0].Group? {
        SquashProper(trees[0].items);
      }
      assert SquashEach(trees)[1..] == SquashEach(trees[1..]);
    }
  }

  /**
   Every plain filter that means something means the same after translation, but for white space in its
   names and literals: every run of it becomes one space.
   */
  lemma FilterMeans(filter: string)
    requires Plain(filter) && Meaning(SQLServer, filter).Some?
    ensures Meaning(PostgreSQL, Translate(filter)) == Some(SpacedExpr(Meaning(SQLServer, filter).value))
  {
    var f := TrimSpace(filter);
    PlainIsAccepted(SQLServer, Out, filter);
    TrimKeeps(SQLServer, filter);
    assert Reject !in Lex(SQLServer, f);
    NothingMeansNothing();
    hide *;
    MeaningOfLex(SQLServer, filter, f);
    ExprMeans(f);
    TranslateIs(filter);
  }

  lemma TranslateIs(filter: string)
    requires TrimSpace(filter) != ""
    ensures Translate(filter) == TranslateExpr(TrimSpace(filter))
  {
    hide TranslateExpr, TrimSpace;
  }

  lemma MeaningOfLex(d: Dialect, s: string, t: string)
    requires Lex(d, s) == Lex(d, t) && Reject !in Lex(d, s)
    ensures Meaning(d, s) == Meaning(d, t)
  {
    hide *;
    MeaningAccepted(d, s);
    MeaningAccepted(d, t);
  }

  lemma NothingMeansNothing()
    ensures Meaning(SQLServer, "") == None
  {
    EmptyLex();
    TreesAre([]);
    assert Flatten([]) == [];
  }

  // ----- When the meaning is kept -----

  /** White space in names and literals is single spaces. */
  predicate SingleToken(t: Token) {
    match t
    case Name(n) => SingleSpaces(n)
    case Literal(v) => SingleSpaces(v)
    case _ => true
  }

  predicate SingleTrees(ts: seq<Tree>)
    decreases ts
  {
    ts != [] ==>
      && (match ts[0] case Leaf(t) => SingleToken(t) case Group(g) => SingleTrees(g))
      && SingleTrees(ts[1..])
  }

  predicate SingleExpr(e: Expr)
    decreases e
  {
    match e
    case Column(n) => SingleSpaces(n)
    case Constant(_) => true
    case Str(v) => SingleSpaces(v)
    case Negative(a) => SingleExpr(a)
    case Null => true
    case Compare(_, a, b) => SingleExpr(a) && SingleExpr(b)
    case IsNull(a) => SingleExpr(a)
    case In(a, list) => SingleExpr(a) && SingleList(list)
    case Between(a, low, high) => SingleExpr(a) && SingleExpr(low) && SingleExpr(high)
    case Not(a) => SingleExpr(a)
    case And(a, b) => SingleExpr(a) && SingleExpr(b)
    case Or(a, b) => SingleExpr(a) && SingleExpr(b)
  }

  predicate SingleList(es: seq<Expr>)
    decreases es
  {
    es != [] ==> SingleExpr(es[0]) && SingleList(es[1..])
  }

  lemma {:induction false} SpacedExprIff(e: Expr)
    ensures SpacedExpr(e) == e <==> SingleExpr(e)
    decreases e
  {
    hide Spaced, SingleSpaces;
    match e {
      case Column(n) => SpacedKeepsIff(n);
      case Str(v) => SpacedKeepsIff(v);
      case Negative(a) => SpacedExprIff(a);
      case Compare(_, a, b) => SpacedExprIff(a); SpacedExprIff(b);
      case IsNull(a) => SpacedExprIff(a);
      case In(a, list) => SpacedExprIff(a); SpacedListIff(list);
      case Between(a, low, high) => SpacedExprIff(a); SpacedExprIff(low); SpacedExprIff(high);
      case Not(a) => SpacedExprIff(a);
      case And(a, b) => SpacedExprIff(a); SpacedExprIff(b);
      case Or(a, b) => SpacedExprIff(a); SpacedExprIff(b);
      case _ =>
    }
  }

  lemma {:induction false} SpacedListIff(es: seq<Expr>)
    ensures SpacedList(es) == es <==> SingleList(es)
    decreases es
  {
    if es != [] {
      SpacedExprIff(es[0]);
      SpacedListIff(es[1..]);
      hide SpacedExpr, SingleExpr;
      assert es == [es[0]] + es[1..];
      assert SpacedList(es)[0] == SpacedExpr(es[0]) && SpacedList(es)[1..] == SpacedList(es[1..]);
    }
  }

  /** Nothing in quotes is lost: what is single in the trees is single in the expression and what is left. */
  ghost predicate Accounts(ts: seq<Tree>, a: Expr, r: Result) {
    r.Some? ==> (SingleExpr(a) && SingleTrees(ts) <==> SingleExpr(r.value.0) && SingleTrees(r.value.1))
  }

  lemma SingleTail(ts: seq<Tree>)
    ensures SingleTrees([])
    ensures ts != [] ==> (SingleTrees(ts) <==> SingleTrees(ts[..1]) && SingleTrees(ts[1..]))
    ensures ts != [] && ts[0].Leaf? ==> (SingleTrees(ts[..1]) <==> SingleToken(ts[0].token))
    ensures ts != [] && ts[0].Group? ==> (SingleTrees(ts[..1]) <==> SingleTrees(ts[0].items))
    ensures forall w | Ahead(ts, w) :: SingleTrees(ts[..1])
  {
    if ts != [] {
      assert ts[..1][0] == ts[0] && ts[..1][1..] == [];
    }
    hide SingleSpaces;
  }

  lemma {:induction false} PrimaryAccounts(ts: seq<Tree>)
    ensures Accounts(ts, Null, Primary(ts))
    decreases Weight(ts), 1
  {
    SingleTail(ts);
    hide All, SingleSpaces, IsKeyword;
    if ts != [] {
      assert Weight(ts) == WeightOne(ts[0]) + Weight(ts[1..]);
      if ts[0].Group? {
        AllAccounts(ts[0].items);
      } else {
        PrimaryAccounts(ts[1..]);
      }
      hide SingleTrees;
    }
  }

  /** What is put together from single parts. */
  lemma SingleParts(a: Expr, b: Expr, c: Expr, list: seq<Expr>, op: string)
    ensures SingleExpr(In(a, list)) <==> SingleExpr(a) && SingleList(list)
    ensures SingleExpr(Between(a, b, c)) <==> SingleExpr(a) && SingleExpr(b) && SingleExpr(c)
    ensures SingleExpr(Compare(op, a, b)) <==> SingleExpr(a) && SingleExpr(b)
    ensures SingleExpr(Not(a)) <==> SingleExpr(a)
    ensures SingleExpr(Null)
  {
  }

  lemma {:induction false} ListAccounts(a: Expr, ts: seq<Tree>)
    requires Ahead(ts, "IN")
    ensures Accounts(ts, a, Range(a, ts))
    decreases Weight(ts), 1
  {
    SingleTail(ts);
    if |ts| > 1 && ts[1].Group? {
      assert ts[1..][0] == ts[1] && ts[1..][1..] == ts[2..];
      SingleTail(ts[1..]);
      assert Weight(ts[1..]) == WeightOne(ts[1]) + Weight(ts[2..]);
      ItemsAccount(ts[1].items);
      hide Items, SingleTrees, SingleExpr, Weight;
      if Items(ts[1].items).Some? {
        SingleParts(a, a, a, Items(ts[1].items).value, "");
      }
    }
  }

  lemma {:induction false} BetweenAccounts(a: Expr, ts: seq<Tree>)
    requires Ahead(ts, "BETWEEN")
    ensures Accounts(ts, a, Range(a, ts))
    decreases Weight(ts), 1
  {
    SingleTail(ts);
    PrimaryAccounts(ts[1..]);
    hide Primary, SingleTrees, SingleExpr;
    SingleParts(a, a, a, [], "");
    if Primary(ts[1..]).Some? {
      var low, rest := Primary(ts[1..]).value.0, Primary(ts[1..]).value.1;
      SingleTail(rest);
      if Ahead(rest, "AND") {
        PrimaryAccounts(rest[1..]);
        if Primary(rest[1..]).Some? {
          SingleParts(a, low, Primary(rest[1..]).value.0, [], "");
        }
      }
    }
    hide Items;
  }

  lemma {:induction false} RangeAccounts(a: Expr, ts: seq<Tree>)
    ensures Accounts(ts, a, Range(a, ts))
    decreases Weight(ts), 2
  {
    hide SingleTrees, SingleExpr;
    if Ahead(ts, "IN") {
      ListAccounts(a, ts);
    } else if Ahead(ts, "BETWEEN") {
      BetweenAccounts(a, ts);
    } else {
      hide Primary, Items;
    }
  }

  lemma NullTestAccounts(a: Expr, ts: seq<Tree>)
    ensures Accounts(ts, a, NullTest(a, ts))
  {
    SingleTail(ts);
    if ts != [] {
      SingleTail(ts[1..]);
      if |ts| > 1 {
        assert ts[1..][1..] == ts[2..];
      }
    }
    assert SingleExpr(Not(IsNull(a))) <==> SingleExpr(IsNull(a));
    hide SingleTrees;
  }

  lemma {:induction false} CompareAccounts(a: Expr, ts: seq<Tree>)
    requires SignAhead(ts)
    ensures Accounts(ts, a, Test(a, ts))
    decreases Weight(ts), 3
  {
    SingleTail(ts);
    PrimaryAccounts(ts[1..]);
    hide Primary, NullTest, Range, SingleTrees, SingleExpr, IsComparison;
    SingleParts(a, a, a, [], "");
    if Primary(ts[1..]).Some? {
      SingleParts(a, Primary(ts[1..]).value.0, a, [], ts[0].token.op);
    }
  }

  lemma {:induction false} TestAccounts(a: Expr, ts: seq<Tree>)
    ensures Accounts(ts, a, Test(a, ts))
    decreases Weight(ts), 4
  {
    SingleTail(ts);
    hide Primary, NullTest, Range, SingleTrees, SingleExpr, IsComparison;
    if SignAhead(ts) {
      CompareAccounts(a, ts);
    } else if Ahead(ts, "IS") {
      NullTestAccounts(a, ts[1..]);
    } else if Ahead(ts, "NOT") {
      RangeAccounts(a, ts[1..]);
      if Range(a, ts[1..]).Some? {
        SingleParts(Range(a, ts[1..]).value.0, a, a, [], "");
      }
    } else if Ahead(ts, "IN") || Ahead(ts, "BETWEEN") {
      RangeAccounts(a, ts);
    }
  }

  lemma {:induction false} FactorAccounts(ts: seq<Tree>)
    ensures Accounts(ts, Null, Factor(ts))
    decreases Weight(ts), 5
  {
    SingleTail(ts);
    hide Primary, Test, SingleTrees;
    if Ahead(ts, "NOT") {
      FactorAccounts(ts[1..]);
    } else {
      PrimaryAccounts(ts);
      if Primary(ts).Some? {
        TestAccounts(Primary(ts).value.0, Primary(ts).value.1);
      }
    }
  }

  lemma {:induction false} MoreAndsAccount(a: Expr, ts: seq<Tree>)
    ensures Accounts(ts, a, MoreAnds(a, ts))
    decreases Weight(ts), 6
  {
    SingleTail(ts);
    hide Factor, SingleTrees;
    if Ahead(ts, "AND") {
      FactorAccounts(ts[1..]);
      if Factor(ts[1..]).Some? {
        MoreAndsAccount(And(a, Factor(ts[1..]).value.0), Factor(ts[1..]).value.1);
      }
    }
  }

  lemma {:induction false} ConjunctionAccounts(ts: seq<Tree>)
    ensures Accounts(ts, Null, Conjunction(ts))
    decreases Weight(ts), 7
  {
    hide Factor, MoreAnds, SingleTrees;
    FactorAccounts(ts);
    if Factor(ts).Some? {
      MoreAndsAccount(Factor(ts).value.0, Factor(ts).value.1);
    }
  }

  lemma {:induction false} MoreOrsAccount(a: Expr, ts: seq<Tree>)
    ensures Accounts(ts, a, MoreOrs(a, ts))
    decreases Weight(ts), 8
  {
    SingleTail(ts);
    hide Conjunction, SingleTrees;
    if Ahead(ts, "OR") {
      ConjunctionAccounts(ts[1..]);
      if Conjunction(ts[1..]).Some? {
        MoreOrsAccount(Or(a, Conjunction(ts[1..]).value.0), Conjunction(ts[1..]).value.1);
      }
    }
  }

  lemma {:induction false} DisjunctionAccounts(ts: seq<Tree>)
    ensures Accounts(ts, Null, Disjunction(ts))
    decreases Weight(ts), 9
  {
    hide Conjunction, MoreOrs, SingleTrees;
    ConjunctionAccounts(ts);
    if Conjunction(ts).Some? {
      MoreOrsAccount(Conjunction(ts).value.0, Conjunction(ts).value.1);
    }
  }

  lemma {:induction false} AllAccounts(ts: seq<Tree>)
    ensures All(ts).Some? ==> (SingleTrees(ts) <==> SingleExpr(All(ts).value))
    decreases Weight(ts), 10
  {
    SingleTail([]);
    hide Disjunction, SingleTrees;
    DisjunctionAccounts(ts);
  }

  lemma {:induction false} ItemsAccount(ts: seq<Tree>)
    ensures Items(ts).Some? ==> (SingleTrees(ts) <==> SingleList(Items(ts).value))
    decreases Weight(ts), 10
  {
    SingleTail([]);
    hide Disjunction;
    DisjunctionAccounts(ts);
    if Items(ts).Some? {
      var r := Disjunction(ts).value;
      if r.1 == [] {
        assert Items(ts).value == [r.0] && [r.0][1..] == [];
      } else {
        SingleTail(r.1);
        ItemsAccount(r.1[1..]);
        assert Items(ts).value[1..] == Items(r.1[1..]).value;
      }
    }
    hide SingleTrees, SingleExpr;
  }

  lemma {:induction false} FlattenSingle(ts: seq<Tree>)
    ensures SingleTrees(ts) <==> forall t <- Flatten(ts) :: SingleToken(t)
    decreases ts
  {
    if ts != [] {
      FlattenSingle(ts[1..]);
      var first := FlattenOne(ts[0]);
      assert Flatten(ts) == first + Flatten(ts[1..]);
      assert forall t :: t in Flatten(ts) <==> t in first || t in Flatten(ts[1..]);
      if ts[0].Group? {
        var g := ts[0].items;
        FlattenSingle(g);
        assert first == [Open] + (Flatten(g) + [Close]);
        assert forall t :: t in first <==> t == Open || t in Flatten(g) || t == Close;
      } else {
        assert forall t :: t in first <==> t == ts[0].token;
      }
      hide SingleSpaces;
    }
  }

  lemma SingleMeaning(ts: seq<Token>)
    requires MeaningOf(ts).Some?
    ensures (forall t <- ts :: SingleToken(t)) <==> SingleExpr(MeaningOf(ts).value)
  {
    var trees := TreesOf(ts).value;
    FlattenSingle(trees);
    AllAccounts(trees);
    hide All, SingleTrees, SingleExpr, SingleToken;
  }

  /**
   The translation of a plain filter that means something keeps its meaning exactly when every white space
   in its names and literals is a single space.
   */
  lemma FilterKeepsMeaning(filter: string)
    requires Plain(filter) && Meaning(SQLServer, filter).Some?
    ensures Meaning(PostgreSQL, Translate(filter)) == Meaning(SQLServer, filter)
        <==> forall t <- Tokens(SQLServer, filter) :: SingleToken(t)
  {
    FilterMeans(filter);
    SingleMeaning(Tokens(SQLServer, filter));
    SpacedExprIff(Meaning(SQLServer, filter).value);
    hide SpacedExpr, SingleExpr, MeaningOf, SingleToken, Tokens;
  }

  // ----- Rows -----

  datatype Truth = True | False | Unknown

  /** Columns that may be NULL, constants, and how values compare. */
  datatype Row<!V> = Row(
    column: string -> Option<V>, constant: string -> Option<V>, text: string -> V, negate: V -> V,
    compare: (string, V, V) -> bool)

  function Value<V>(e: Expr, row: Row<V>): Option<V> {
    match e
    case Column(n) => row.column(n)
    case Constant(w) => row.constant(w)
    case Str(v) => Some(row.text(v))
    case Negative(a) => (match Value(a, row) case None => None case Some(v) => Some(row.negate(v)))
    case _ => None
  }

  function Compared<V>(op: string, a: Expr, b: Expr, row: Row<V>): Truth {
    match (Value(a, row), Value(b, row))
    case (Some(x), Some(y)) => if row.compare(op, x, y) then True else False
    case _ => Unknown
  }

  function Neither(t: Truth): Truth {
    match t
    case True => False
    case False => True
    case Unknown => Unknown
  }

  function Both(t: Truth, u: Truth): Truth {
    if t == False || u == False then False else if t == True && u == True then True else Unknown
  }

  function Either(t: Truth, u: Truth): Truth { Neither(Both(Neither(t), Neither(u))) }

  function OneOf<V>(a: Expr, list: seq<Expr>, row: Row<V>): Truth {
    if list == [] then False else Either(Compared("=", a, list[0], row), OneOf(a, list[1..], row))
  }

  /** Three-valued logic, as in SQL. */
  function Holds<V>(e: Expr, row: Row<V>): Truth {
    match e
    case Compare(op, a, b) => Compared(op, a, b, row)
    case IsNull(a) => if Value(a, row).None? then True else False
    case In(a, list) => OneOf(a, list, row)
    case Between(a, low, high) => Both(Compared(">=", a, low, row), Compared("<=", a, high, row))
    case Not(a) => Neither(Holds(a, row))
    case And(a, b) => Both(Holds(a, row), Holds(b, row))
    case Or(a, b) => Either(Holds(a, row), Holds(b, row))
    case _ => Unknown
  }

  ghost function TruthOf<V>(d: Dialect, text: string, row: Row<V>): Option<Truth> {
    match Meaning(d, text)
    case None => None
    case Some(e) => Some(Holds(e, row))
  }

  /** Then, in every row, the translated filter has the truth value of the filter. */
  lemma FilterKeepsTruth<V>(filter: string, row: Row<V>)
    requires Plain(filter) && Meaning(SQLServer, filter).Some?
    requires forall t <- Tokens(SQLServer, filter) :: SingleToken(t)
    ensures TruthOf(PostgreSQL, Translate(filter), row) == TruthOf(SQLServer, filter, row)
    ensures TruthOf(SQLServer, filter, row).Some?
  {
    FilterKeepsMeaning(filter);
    hide Meaning, Translate, SingleToken;
  }
}
