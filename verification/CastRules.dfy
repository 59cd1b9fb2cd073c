/** CAST rules of a .load file (internal/cast/rule_parse.go). */
module CastRules {
  import opened Decimal
  import opened Text

  // ----- Words -----

  predicate IsWord(w: string) {
    w != "" && forall c <- w :: !IsSpace(c)
  }

  lemma {:induction false} TakeWordOf(w: string, rest: string)
    requires (forall c <- w :: !IsSpace(c)) && (rest == "" || IsSpace(rest[0]))
    ensures TakeWord(w + rest) == (w, rest)
  {
    if w == "" {
      assert w + rest == rest;
    } else {
      assert w[0] in w;
      assert (w + rest)[1..] == w[1..] + rest;
      TakeWordOf(w[1..], rest);
      assert [w[0]] + w[1..] == w;
    }
  }

  lemma FieldsOne(w: string, rest: string)
    requires IsWord(w) && (rest == "" || IsSpace(rest[0]))
    ensures Fields(w + rest) == [w] + Fields(rest)
  {
    assert w[0] in w;
    assert (w + rest)[0] == w[0];
    TakeWordOf(w, rest);
    hide TakeWord;
  }

  predicate AllWords(words: seq<string>) { forall i | 0 <= i < |words| :: IsWord(words[i]) }

  lemma AllWordsParts(words: seq<string>)
    requires AllWords(words) && words != []
    ensures IsWord(words[0]) && AllWords(words[1..])
  {
    hide IsWord;
  }

  lemma JoinSpaces(words: seq<string>)
    requires words != []
    ensures |words| == 1 ==> Join(words, " ") == words[0]
    ensures |words| > 1 ==> Join(words, " ") == words[0] + (" " + Join(words[1..], " "))
  {
    if |words| > 1 {
      assert words[0] + " " + Join(words[1..], " ") == words[0] + (" " + Join(words[1..], " "));
    }
  }

  lemma FieldsLast(w: string)
    requires IsWord(w)
    ensures Fields(w) == [w]
  {
    FieldsNothing();
    hide *;
    FieldsOne(w, "");
    assert w + "" == w;
  }

  lemma FieldsNothing()
    ensures Fields("") == []
  {
  }

  lemma FieldsNext(w: string, more: string)
    requires IsWord(w)
    ensures Fields(w + (" " + more)) == [w] + Fields(more)
  {
    assert IsSpace((" " + more)[0]);
    hide *;
    FieldsOne(w, " " + more);
    FieldsSpace(more);
  }

  lemma OneWord(words: seq<string>)
    requires |words| == 1
    ensures words == [words[0]]
  {
  }

  lemma FirstWord(words: seq<string>)
    requires words != []
    ensures [words[0]] + words[1..] == words
  {
  }

  /** Words with a space between them are taken apart again. */
  lemma {:induction false} FieldsOfJoin(words: seq<string>)
    requires AllWords(words)
    ensures Fields(Join(words, " ")) == words
  {
    if words == [] {
      assert Join(words, " ") == "";
    } else {
      hide *;
      AllWordsParts(words);
      JoinSpaces(words);
      if |words| == 1 {
        FieldsLast(words[0]);
        OneWord(words);
      } else {
        FieldsNext(words[0], Join(words[1..], " "));
        FieldsOfJoin(words[1..]);
        FirstWord(words);
      }
    }
  }

  lemma FieldsSpace(s: string)
    ensures Fields(" " + s) == Fields(s)
  {
    assert (" " + s)[1..] == s;
    assert TrimLeft(" " + s) == TrimLeft(s);
    hide TrimLeft, TakeWord;
  }

  // ----- Tokens -----

  /**
   strings.ToLower, as far as a token can become one of the keywords: two other characters have an ASCII
   lower case.
   */
  function Lower(c: char): char {
    if 'A' <= c <= 'Z' then c - 'A' + 'a' else if c as int == 0x212A then 'k' else if c as int == 0x130 then 'i' else c
  }

  function ToLower(s: string): string {
    seq(|s|, i requires 0 <= i < |s| => Lower(s[i]))
  }

  predicate IsParenToken(t: string) {
    |t| >= 2 && t[0] == '(' && t[|t| - 1] == ')'
  }

  predicate IsSpecial(t: string) {
    var l := ToLower(t);
    l == "drop" || l == "keep" || l == "using"
  }

  /** The type and its modifier; None when the slice is out of range. */
  function SplitTypeMod(s: string): Option<(string, string)> {
    var open, close := IndexOf(s, '('), LastIndexOf(s, ')');
    if open < 0 || close < 0 then Some((s, ""))
    else if open > close + 1 then None
    else Some((s[..open], s[open..close + 1]))
  }

  /** Cutting a type fails exactly when its last ) stands before its first ( with something in between. */
  lemma SplitPanicsExactly(s: string)
    ensures SplitTypeMod(s) == None
      <==> exists close, open | 0 <= close < open - 1 && open < |s| ::
             s[close] == ')' && s[open] == '(' && '(' !in s[..open] && ')' !in s[close + 1..]
  {
    var open, close := IndexOf(s, '('), LastIndexOf(s, ')');
    forall c, o | 0 <= c < o - 1 && o < |s| && s[c] == ')' && s[o] == '(' && '(' !in s[..o] && ')' !in s[c + 1..]
      ensures open == o && close == c
    {
      IndexIs(s, '(', o);
      LastIndexIs(s, ')', c);
    }
    if SplitTypeMod(s) == None {
      assert s[close] == ')' && s[open] == '(' && '(' !in s[..open] && ')' !in s[close + 1..];
    }
  }

  // ----- Rules -----

  datatype Rule = Rule(sourceType: string, typeMod: string, unsigned: bool, autoIncrement: bool, targetType: string,
                       dropTypemod: bool, transform: string)

  /** The slice in the cutting of the type may be out of range. */
  datatype Outcome = Good(rule: Rule) | Bad | Panic

  predicate IsTo(t: string) { EqualFold(t, "to") }

  /** The rule with the modifiers that stand before "to", and the tokens from "to" on. */
  function Modifiers(tokens: seq<string>, rule: Rule): (r: (Rule, seq<string>))
    ensures r.1 != [] ==> IsTo(r.1[0])
  {
    if tokens == [] || IsTo(tokens[0]) then (rule, tokens)
    else if ToLower(tokens[0]) == "auto_increment" then Modifiers(tokens[1..], rule.(autoIncrement := true))
    else if ToLower(tokens[0]) == "unsigned" then Modifiers(tokens[1..], rule.(unsigned := true))
    else Modifiers(tokens[1..], rule)
  }

  /** The words of the target type, and what follows. */
  function Target(tokens: seq<string>): (r: (seq<string>, seq<string>))
    ensures r.0 + r.1 == tokens
  {
    if tokens == [] || IsSpecial(tokens[0]) then ([], tokens)
    else
      var r := Target(tokens[1..]);
      ([tokens[0]] + r.0, r.1)
  }

  function Drop(tokens: seq<string>, n: nat): (r: seq<string>)
    ensures |r| <= |tokens| && (n > 0 && tokens != [] ==> |r| < |tokens|)
    ensures n <= |tokens| ==> r == tokens[n..]
  {
    if n <= |tokens| then tokens[n..] else []
  }

  /** How many tokens one option takes, and what it sets. */
  function Option1(tokens: seq<string>, rule: Rule): (r: (Rule, nat))
    requires tokens != []
    ensures 1 <= r.1 <= 3
  {
    var word := ToLower(tokens[0]);
    if word == "drop" then
      if |tokens| == 1 then (rule, 2)
      else
        var what := ToLower(tokens[1]);
        if what == "typemod" then (rule.(dropTypemod := true), 2)
        else if what == "not" then (rule, 3)
        else (rule, 2)
    else if word == "keep" then (rule, 2)
    else if word == "using" then if |tokens| == 1 then (rule, 2) else (rule.(transform := tokens[1]), 2)
    else (rule, 1)
  }

  function Options(tokens: seq<string>, rule: Rule): Rule
    decreases |tokens|
  {
    if tokens == [] then rule
    else
      var r := Option1(tokens, rule);
      Options(Drop(tokens, r.1), r.0)
  }

  const NOTHING := Rule("", "", false, false, "", false, "")

  /** From "to" on. */
  function AfterTo(tokens: seq<string>, rule: Rule): Outcome {
    if tokens == [] || tokens[1..] == [] then Bad
    else
      var t := Target(tokens[1..]);
      if t.0 == [] then Bad else Good(Options(t.1, rule.(targetType := Join(t.0, " "))))
  }

  function ParseTokens(tokens: seq<string>): Outcome {
    if tokens == [] then Bad
    else
      var t1 := if EqualFold(tokens[0], "type") then tokens[1..] else tokens;
      if t1 == [] then Bad
      else
        match SplitTypeMod(t1[0])
        case None => Panic
        case Some((source, attached)) =>
          var detached := |t1| > 1 && IsParenToken(t1[1]);
          var typeMod := if detached && attached == "" then t1[1] else attached;
          var m := Modifiers(if detached then t1[2..] else t1[1..],
                             NOTHING.(sourceType := source, typeMod := typeMod));
          AfterTo(m.1, m.0)
  }

  function ParseRule(s: string): Outcome {
    ParseTokens(Fields(s))
  }

  datatype RuleList = Rules(rules: seq<Rule>) | BadRule | PanicInRule

  function WithFirst(rule: Rule, rest: RuleList): RuleList {
    if rest.Rules? then Rules([rule] + rest.rules) else rest
  }

  function ParseRules(texts: seq<string>): RuleList {
    if texts == [] then Rules([])
    else if TrimSpace(texts[0]) == "" then ParseRules(texts[1..])
    else
      match ParseRule(TrimSpace(texts[0]))
      case Bad => BadRule
      case Panic => PanicInRule
      case Good(rule) => WithFirst(rule, ParseRules(texts[1..]))
  }

  // ----- The same with a position in the tokens -----

  lemma DropDrop<T>(s: seq<T>, i: nat, j: nat)
    requires i + j <= |s|
    ensures s[i..][j..] == s[i + j..]
  {
  }

  method ReadModifiers(tokens: seq<string>, from: nat, rule0: Rule) returns (rule: Rule, pos: nat)
    requires from <= |tokens|
    ensures from <= pos <= |tokens| && (rule, tokens[pos..]) == Modifiers(tokens[from..], rule0)
  {
    hide ToLower, EqualFold;
    rule, pos := rule0, from;
    while pos < |tokens| && !IsTo(tokens[pos])
      invariant from <= pos <= |tokens|
      invariant Modifiers(tokens[pos..], rule) == Modifiers(tokens[from..], rule0)
    {
      DropDrop(tokens, pos, 1);
      if ToLower(tokens[pos]) == "auto_increment" {
        rule := rule.(autoIncrement := true);
      } else if ToLower(tokens[pos]) == "unsigned" {
        rule := rule.(unsigned := true);
      }
      pos := pos + 1;
    }
  }

  lemma TargetStep(words: seq<string>, tokens: seq<string>, pos: nat)
    requires pos < |tokens| && !IsSpecial(tokens[pos])
    ensures var t, u := Target(tokens[pos..]), Target(tokens[pos + 1..]);
            words + t.0 == words + [tokens[pos]] + u.0 && t.1 == u.1
  {
    hide IsSpecial;
    DropDrop(tokens, pos, 1);
  }

  lemma TargetEnd(words: seq<string>, tokens: seq<string>)
    requires tokens == [] || IsSpecial(tokens[0])
    ensures Target(tokens) == ([], tokens) && words + Target(tokens).0 == words
  {
    hide IsSpecial;
  }

  method ReadTarget(tokens: seq<string>, from: nat) returns (words: seq<string>, pos: nat)
    requires from <= |tokens|
    ensures from <= pos <= |tokens| && (words, tokens[pos..]) == Target(tokens[from..])
  {
    hide IsSpecial, Target;
    words, pos := [], from;
    assert words + Target(tokens[from..]).0 == Target(tokens[from..]).0;
    while pos < |tokens| && !IsSpecial(tokens[pos])
      invariant from <= pos <= |tokens|
      invariant (words + Target(tokens[pos..]).0, Target(tokens[pos..]).1) == Target(tokens[from..])
    {
      TargetStep(words, tokens, pos);
      words := words + [tokens[pos]];
      pos := pos + 1;
    }
    TargetEnd(words, tokens[pos..]);
  }

  /** One option at the front: what it sets, and how many tokens it takes. */
  method ReadOption(tokens: seq<string>, from: nat, rule0: Rule) returns (rule: Rule, next: nat)
    requires from < |tokens|
    ensures var r := Option1(tokens[from..], rule0); rule == r.0 && next == from + r.1
  {
    hide ToLower;
    rule := rule0;
    next := from;
    ghost var rest := tokens[from..];
    assert rest[0] == tokens[from] && (|rest| > 1 ==> rest[1] == tokens[from + 1]);
    var word := ToLower(tokens[next]);
    if word == "drop" {
      next := next + 1;
      if next < |tokens| {
        var what := ToLower(tokens[next]);
        if what == "typemod" {
          rule := rule.(dropTypemod := true);
        } else if what == "not" {
          next := next + 1;
        }
      }
    } else if word == "keep" {
      next := next + 1;
    } else if word == "using" {
      next := next + 1;
      if next < |tokens| {
        rule := rule.(transform := tokens[next]);
      }
    }
    next := next + 1;
  }

  lemma OptionsStep(tokens: seq<string>, pos: nat, rule: Rule)
    requires pos < |tokens|
    ensures var r := Option1(tokens[pos..], rule);
            Options(Drop(tokens, pos), rule) == Options(Drop(tokens, pos + r.1), r.0)
  {
    hide Option1;
    var rest := tokens[pos..];
    assert Drop(rest, Option1(rest, rule).1) == Drop(tokens, pos + Option1(rest, rule).1);
  }

  method ReadOptions(tokens: seq<string>, from: nat, rule0: Rule) returns (rule: Rule)
    requires from <= |tokens|
    ensures rule == Options(tokens[from..], rule0)
  {
    rule := rule0;
    var pos := from;
    hide Option1;
    while pos < |tokens|
      invariant from <= pos
      invariant Options(Drop(tokens, pos), rule) == Options(tokens[from..], rule0)
      decreases |tokens| - pos
    {
      OptionsStep(tokens, pos, rule);
      rule, pos := ReadOption(tokens, pos, rule);
    }
  }

  method ReadRule(s: string) returns (r: Outcome)
    ensures r == ParseRule(s)
  {
    hide Fields, EqualFold, SplitTypeMod, Modifiers, Target, Options, IsParenToken, Join;
    var tokens := Fields(s);
    if |tokens| == 0 {
      return Bad;
    }
    var pos := 0;
    if EqualFold(tokens[pos], "type") {
      pos := pos + 1;
    }
    if pos >= |tokens| {
      return Bad;
    }
    ghost var t1 := tokens[pos..];
    assert t1 == if EqualFold(tokens[0], "type") then tokens[1..] else tokens;
    var cut := SplitTypeMod(tokens[pos]);
    if cut == None {
      return Panic;
    }
    var (source, typeMod) := cut.value;
    DropDrop(tokens, pos, 1);
    pos := pos + 1;
    if pos < |tokens| && IsParenToken(tokens[pos]) {
      if typeMod == "" {
        typeMod := tokens[pos];
      }
      DropDrop(tokens, pos - 1, 2);
      pos := pos + 1;
    }
    var rule := NOTHING.(sourceType := source, typeMod := typeMod);
    rule, pos := ReadModifiers(tokens, pos, rule);
    r := ReadAfterTo(tokens, pos, rule);
  }

  method ReadAfterTo(tokens: seq<string>, from: nat, rule0: Rule) returns (r: Outcome)
    requires from <= |tokens| && (from < |tokens| ==> IsTo(tokens[from]))
    ensures r == AfterTo(tokens[from..], rule0)
  {
    hide Target, Options, Join;
    var rule, pos := rule0, from;
    if pos >= |tokens| {
      return Bad;
    }
    DropDrop(tokens, pos, 1);
    pos := pos + 1;
    if pos >= |tokens| {
      return Bad;
    }
    var words;
    words, pos := ReadTarget(tokens, pos);
    if |words| == 0 {
      return Bad;
    }
    rule := ReadOptions(tokens, pos, rule.(targetType := Join(words, " ")));
    return Good(rule);
  }

  function After(done: seq<Rule>, rest: RuleList): RuleList {
    if rest.Rules? then Rules(done + rest.rules) else rest
  }

  lemma ParseRulesStep(done: seq<Rule>, texts: seq<string>, k: nat)
    requires k < |texts|
    ensures var t, rest := TrimSpace(texts[k]), ParseRules(texts[k + 1..]);
            After(done, ParseRules(texts[k..]))
            == if t == "" then After(done, rest)
               else match ParseRule(t) {
                 case Bad => BadRule
                 case Panic => PanicInRule
                 case Good(rule) => After(done + [rule], rest)
               }
  {
    hide ParseRule, TrimSpace;
    DropDrop(texts, k, 1);
    var rest := ParseRules(texts[k + 1..]);
    var p := ParseRule(TrimSpace(texts[k]));
    if rest.Rules? && p.Good? {
      assert done + ([p.rule] + rest.rules) == done + [p.rule] + rest.rules;
    }
  }

  method ReadRules(texts: seq<string>) returns (r: RuleList)
    ensures r == ParseRules(texts)
  {
    hide ParseRule, TrimSpace;
    var result: seq<Rule> := [];
    assert texts[0..] == texts;
    assert ParseRules(texts).Rules? ==> result + ParseRules(texts).rules == ParseRules(texts).rules;
    for k := 0 to |texts|
      invariant After(result, ParseRules(texts[k..])) == ParseRules(texts)
    {
      ParseRulesStep(result, texts, k);
      var t := TrimSpace(texts[k]);
      if t == "" {
        continue;
      }
      var p := ReadRule(t);
      match p {
        case Bad => return BadRule;
        case Panic => return PanicInRule;
        case Good(rule) => result := result + [rule];
      }
    }
    assert texts[|texts|..] == [] && result + [] == result;
    return Rules(result);
  }

  // ----- How a rule is written -----

  /** The letter b, in capital or small; the Kelvin sign and the dotted capital I have small ASCII letters too. */
  predicate LetterOf(a: char, b: char) {
    || a == b || ('A' <= a <= 'Z' && b as int == a as int + 32)
    || (a as int == 0x212A && b == 'k') || (a as int == 0x130 && b == 'i')
  }

  /** The keyword, in any case. */
  predicate Says(w: string, kw: string) {
    |w| == |kw| && forall i | 0 <= i < |kw| :: LetterOf(w[i], kw[i])
  }

  predicate SmallLetters(kw: string) { forall i | 0 <= i < |kw| :: 'a' <= kw[i] <= 'z' || kw[i] == '_' }

  lemma SaysIsLower(w: string, kw: string)
    requires SmallLetters(kw)
    ensures Says(w, kw) <==> ToLower(w) == kw
  {
    if Says(w, kw) {
      forall i | 0 <= i < |kw|
        ensures ToLower(w)[i] == kw[i]
      {
        assert LetterOf(w[i], kw[i]);
      }
    }
    if ToLower(w) == kw {
      forall i | 0 <= i < |kw|
        ensures LetterOf(w[i], kw[i])
      {
        assert ToLower(w)[i] == kw[i];
      }
    }
  }

  /** What may follow the target type. */
  datatype Setting =
    | DropTypemod
    | DropNotNull
    | DropOther(what: string)
    | Keep(what: string)
    | Using(name: string)
    | Unknown(word: string)

  predicate Writes(words: seq<string>, s: Setting) {
    match s
    case DropTypemod => |words| == 2 && Says(words[0], "drop") && Says(words[1], "typemod")
    case DropOther(what) =>
      |words| == 2 && Says(words[0], "drop") && words[1] == what && !Says(what, "typemod") && !Says(what, "not")
    case DropNotNull => |words| == 3 && Says(words[0], "drop") && Says(words[1], "not") && Says(words[2], "null")
    case Keep(what) => |words| == 2 && Says(words[0], "keep") && words[1] == what
    case Using(name) => |words| == 2 && Says(words[0], "using") && words[1] == name
    case Unknown(word) => words == [word] && !Says(word, "drop") && !Says(word, "keep") && !Says(word, "using")
  }

  /** The transform named last. */
  function LastUsing(settings: seq<Setting>, before: string): string {
    if settings == [] then before
    else LastUsing(settings[1..], if settings[0].Using? then settings[0].name else before)
  }

  function Flat(parts: seq<seq<string>>): seq<string> {
    if parts == [] then [] else parts[0] + Flat(parts[1..])
  }

  predicate AllWrite(parts: seq<seq<string>>, settings: seq<Setting>) {
    |parts| == |settings| && forall i | 0 <= i < |parts| :: Writes(parts[i], settings[i])
  }

  lemma KeywordsSmall()
    ensures SmallLetters("drop") && SmallLetters("typemod") && SmallLetters("not")
    ensures SmallLetters("keep") && SmallLetters("using") && SmallLetters("auto_increment") && SmallLetters("unsigned")
    ensures "typemod" != "not" && "drop" != "keep" && "drop" != "using"
    ensures "keep" != "using" && "auto_increment" != "unsigned"
  {
  }

  lemma SettingRead(words: seq<string>, s: Setting, rest: seq<string>, rule: Rule)
    requires Writes(words, s)
    ensures words + rest != []
    ensures Option1(words + rest, rule)
         == (rule.(dropTypemod := rule.dropTypemod || s == DropTypemod,
                   transform := if s.Using? then s.name else rule.transform), |words|)
    ensures Drop(words + rest, |words|) == rest
    ensures IsSpecial((words + rest)[0]) <==> !s.Unknown?
  {
    KeywordsSmall();
    SaysIsLower(words[0], "drop");
    SaysIsLower(words[0], "keep");
    SaysIsLower(words[0], "using");
    assert (words + rest)[0] == words[0];
    if |words| > 1 {
      SaysIsLower(words[1], "typemod");
      SaysIsLower(words[1], "not");
      assert (words + rest)[1] == words[1];
    }
    hide Says, SmallLetters, ToLower;
  }

  lemma {:induction false} SettingsRead(parts: seq<seq<string>>, settings: seq<Setting>, rule: Rule)
    requires AllWrite(parts, settings)
    ensures Options(Flat(parts), rule)
         == rule.(dropTypemod := rule.dropTypemod || DropTypemod in settings,
                  transform := LastUsing(settings, rule.transform))
    ensures settings == [] || settings[0].Unknown? || IsSpecial(Flat(parts)[0])
    ensures settings == [] ==> Flat(parts) == []
    ensures settings != [] ==> Flat(parts) != []
  {
    if parts != [] {
      assert AllWrite(parts[1..], settings[1..]);
      SettingRead(parts[0], settings[0], Flat(parts[1..]), rule);
      hide Option1, Drop, Writes, IsSpecial;
      SettingsRead(parts[1..], settings[1..],
                   rule.(dropTypemod := rule.dropTypemod || settings[0] == DropTypemod,
                         transform := if settings[0].Using? then settings[0].name else rule.transform));
      assert settings == [settings[0]] + settings[1..];
    }
  }

  predicate Mentions(words: seq<string>, kw: string) { exists i :: 0 <= i < |words| && Says(words[i], kw) }

  lemma {:induction false} MiddleRead(middle: seq<string>, rest: seq<string>, rule: Rule)
    requires forall i | 0 <= i < |middle| :: !IsTo(middle[i])
    requires rest != [] && IsTo(rest[0])
    ensures Modifiers(middle + rest, rule)
         == (rule.(autoIncrement := rule.autoIncrement || Mentions(middle, "auto_increment"),
                   unsigned := rule.unsigned || Mentions(middle, "unsigned")), rest)
    decreases |middle|
  {
    if middle == [] {
      assert middle + rest == rest;
    } else {
      var w, more := middle[0], middle[1..];
      assert (middle + rest)[0] == w && (middle + rest)[1..] == more + rest;
      KeywordsSmall();
      SaysIsLower(w, "auto_increment");
      SaysIsLower(w, "unsigned");
      MentionsFirst(middle, "auto_increment");
      MentionsFirst(middle, "unsigned");
      hide ToLower, Says, Mentions, SmallLetters, IsTo;
      MiddleRead(more, rest, rule.(autoIncrement := rule.autoIncrement || ToLower(w) == "auto_increment",
                                   unsigned := rule.unsigned || ToLower(w) == "unsigned"));
    }
  }

  lemma MentionsFirst(words: seq<string>, kw: string)
    requires words != []
    ensures Mentions(words, kw) <==> Says(words[0], kw) || Mentions(words[1..], kw)
  {
    hide Says;
    if i :| 0 <= i < |words| && Says(words[i], kw) && i > 0 {
      assert words[1..][i - 1] == words[i];
    }
    if i :| 0 <= i < |words| - 1 && Says(words[1..][i], kw) {
      assert words[i + 1] == words[1..][i];
    }
  }

  /** The words of a rule: "type" may be missing, and the modifier may stand apart from its type. */
  datatype Form = Form(first: seq<string>, source: string, mod: string, apart: bool, middle: seq<string>, to: string,
                       target: seq<string>, parts: seq<seq<string>>, settings: seq<Setting>)

  predicate SourceForm(f: Form) {
    && '(' !in f.source && (f.mod == "" || IsParenToken(f.mod)) && (f.apart ==> f.mod != "")
    && (f.first == [] || (|f.first| == 1 && EqualFold(f.first[0], "type")))
    && (f.first == [] ==> !EqualFold(TypeWords(f)[0], "type"))
    && (!f.apart && f.middle != [] ==> !IsParenToken(f.middle[0]))
  }

  predicate FormOk(f: Form) {
    && SourceForm(f)
    && (forall i | 0 <= i < |f.middle| :: !IsTo(f.middle[i])) && IsTo(f.to)
    && f.target != [] && (forall i | 0 <= i < |f.target| :: !IsSpecial(f.target[i]))
    && AllWrite(f.parts, f.settings) && (f.settings != [] ==> !f.settings[0].Unknown?)
  }

  function TypeWords(f: Form): (ws: seq<string>)
    ensures ws != []
  {
    if f.apart then [f.source, f.mod] else [f.source + f.mod]
  }

  function MiddleOn(f: Form): seq<string> { f.middle + ([f.to] + (f.target + Flat(f.parts))) }

  function FormWords(f: Form): seq<string> { f.first + (TypeWords(f) + MiddleOn(f)) }

  /** Words between the type and "to" that mean nothing are passed over; so are settings other than two. */
  function FormMeaning(f: Form): Rule {
    Rule(f.source, f.mod, Mentions(f.middle, "unsigned"), Mentions(f.middle, "auto_increment"), Join(f.target, " "),
         DropTypemod in f.settings, LastUsing(f.settings, ""))
  }

  lemma TypeCut(source: string, mod: string)
    requires '(' !in source && (mod == "" || IsParenToken(mod))
    ensures SplitTypeMod(source + mod) == Some((source, mod))
  {
    var s, open := source + mod, |source|;
    if mod != "" {
      assert s[..open] == source && s[open..|s|] == mod && s[|s|..] == "";
      IndexIs(s, '(', open);
      LastIndexIs(s, ')', |s| - 1);
    } else {
      assert s == source;
    }
  }

  /** The words up to the modifiers. */
  lemma TypeTokens(f: Form)
    requires SourceForm(f) && IsTo(f.to)
    ensures var tokens, t1 := FormWords(f), TypeWords(f) + MiddleOn(f);
            && tokens != [] && EqualFold(tokens[0], "type") == (f.first != [])
            && (if f.first != [] then tokens[1..] else tokens) == t1
            && |t1| > 1 && SplitTypeMod(t1[0]) == Some((f.source, if f.apart then "" else f.mod))
            && IsParenToken(t1[1]) == f.apart
            && (f.apart ==> t1[1] == f.mod)
            && t1[if f.apart then 2 else 1..] == MiddleOn(f)
  {
    var t1, rest := TypeWords(f) + MiddleOn(f), MiddleOn(f);
    TypeCut(f.source, f.mod);
    TypeCut(f.source, "");
    assert f.source + "" == f.source;
    assert !IsParenToken(f.to);
    assert rest[0] == if f.middle != [] then f.middle[0] else f.to;
    hide SplitTypeMod, IsParenToken, EqualFold, MiddleOn, IsTo;
    assert t1[|TypeWords(f)|..] == rest && t1[0] == TypeWords(f)[0] && t1[1] == if f.apart then f.mod else rest[0];
    assert f.first != [] ==> f.first + t1 == [f.first[0]] + t1;
    assert f.first == [] ==> f.first + t1 == t1;
  }

  /** What the parser has before it looks for the modifiers. */
  lemma TypeRead(f: Form)
    requires SourceForm(f) && IsTo(f.to)
    ensures ParseTokens(FormWords(f))
         == var m := Modifiers(MiddleOn(f), NOTHING.(sourceType := f.source, typeMod := f.mod)); AfterTo(m.1, m.0)
  {
    assert f.apart ==> f.mod != "";
    hide *;
    TypeTokens(f);
    ParseTokensIs(FormWords(f), TypeWords(f) + MiddleOn(f), f.source, if f.apart then "" else f.mod);
  }

  /** The parse of words, by what the type is cut into and what follows it. */
  lemma ParseTokensIs(tokens: seq<string>, t1: seq<string>, source: string, attached: string)
    requires tokens != [] && t1 == if EqualFold(tokens[0], "type") then tokens[1..] else tokens
    requires |t1| > 1 && SplitTypeMod(t1[0]) == Some((source, attached))
    ensures var apart := IsParenToken(t1[1]);
            var m := Modifiers(t1[if apart then 2 else 1..],
                               NOTHING.(sourceType := source,
                                        typeMod := if apart && attached == "" then t1[1] else attached));
            ParseTokens(tokens) == AfterTo(m.1, m.0)
  {
    hide SplitTypeMod, IsParenToken, EqualFold, Modifiers, AfterTo;
  }

  lemma TargetOn(f: Form, rule: Rule)
    requires FormOk(f)
    ensures AfterTo([f.to] + (f.target + Flat(f.parts)), rule)
         == Good(Options(Flat(f.parts), rule.(targetType := Join(f.target, " "))))
  {
    var rest := f.target + Flat(f.parts);
    assert ([f.to] + rest)[1..] == rest;
    SettingsRead(f.parts, f.settings, rule);
    TargetRead(f.target, Flat(f.parts));
    hide Target, Options, Flat, IsSpecial, Join;
  }

  /**
   However a rule is written, its words are read as what it means: keywords in any case, "type" left out, the
   modifier apart from its type, modifiers in any order, every setting in any order and number.
   */
  lemma FormRead(f: Form)
    requires FormOk(f)
    ensures ParseTokens(FormWords(f)) == Good(FormMeaning(f))
  {
    var source := NOTHING.(sourceType := f.source, typeMod := f.mod);
    var rest := [f.to] + (f.target + Flat(f.parts));
    var rule := source.(autoIncrement := Mentions(f.middle, "auto_increment"), unsigned := Mentions(f.middle, "unsigned"));
    assert forall i | 0 <= i < |f.middle| :: !IsTo(f.middle[i]);
    assert rest[0] == f.to && MiddleOn(f) == f.middle + rest;
    assert AllWrite(f.parts, f.settings);
    hide ParseTokens, FormWords, MiddleOn, Modifiers, AfterTo, Options, Mentions, Target, IsTo, Flat, AllWrite, Join,
      IsSpecial;
    TypeRead(f);
    MiddleRead(f.middle, rest, source);
    TargetOn(f, rule);
    SettingsRead(f.parts, f.settings, rule.(targetType := Join(f.target, " ")));
  }

  /** The same for a text with these words, whatever white space sets them apart. */
  lemma TextRead(s: string, f: Form)
    requires FormOk(f) && Fields(s) == FormWords(f)
    ensures ParseRule(s) == Good(FormMeaning(f))
  {
    hide FormOk, Fields, FormWords, ParseTokens, FormMeaning;
    FormRead(f);
  }

  // ----- What is no rule -----

  /** The first "to", at or after a position, and a word of a target after it. */
  predicate ToWithTarget(tokens: seq<string>, from: nat, i: nat)
    requires i < |tokens|
  {
    && from <= i < |tokens| - 1 && IsTo(tokens[i]) && !IsSpecial(tokens[i + 1])
    && forall j | from <= j < i :: !IsTo(tokens[j])
  }

  lemma {:induction false} ModifiersStop(tokens: seq<string>, rule: Rule) returns (i: nat)
    ensures i <= |tokens| && Modifiers(tokens, rule).1 == tokens[i..]
    ensures (i < |tokens| ==> IsTo(tokens[i])) && forall j | 0 <= j < i :: !IsTo(tokens[j])
  {
    hide IsTo, ToLower;
    i := 0;
    if tokens != [] && !IsTo(tokens[0]) {
      var next := if ToLower(tokens[0]) == "auto_increment" then rule.(autoIncrement := true)
                  else if ToLower(tokens[0]) == "unsigned" then rule.(unsigned := true) else rule;
      var k := ModifiersStop(tokens[1..], next);
      i := k + 1;
      assert tokens[1..][k..] == tokens[i..];
      assert forall j | 0 < j < i :: tokens[j] == tokens[1..][j - 1];
    }
  }

  lemma TargetNeeded(rest: seq<string>, rule: Rule)
    requires rest != []
    ensures AfterTo(rest, rule) != Panic
    ensures AfterTo(rest, rule).Good? <==> |rest| > 1 && !IsSpecial(rest[1])
  {
    hide IsSpecial, Options, Join;
    if |rest| > 1 {
      assert rest[1..][0] == rest[1];
      assert Target(rest[1..]).0 == [] <==> IsSpecial(rest[1]);
    }
  }

  /** The tokens from the type on. */
  function FromType(tokens: seq<string>): seq<string> {
    if tokens != [] && EqualFold(tokens[0], "type") then tokens[1..] else tokens
  }

  /**
   Words are a rule exactly when the type can be cut and the first "to" after it, and after a modifier that
   stands apart, is followed by a word that is no setting.
   */
  lemma GoodExactly(tokens: seq<string>)
    ensures var t := FromType(tokens);
            var from := if |t| > 1 && IsParenToken(t[1]) then 2 else 1;
            && (ParseTokens(tokens).Good? <==>
                  t != [] && SplitTypeMod(t[0]).Some? && exists i | 0 <= i < |t| :: ToWithTarget(t, from, i))
            && (ParseTokens(tokens).Panic? <==> t != [] && SplitTypeMod(t[0]).None?)
  {
    var t := FromType(tokens);
    var from := if |t| > 1 && IsParenToken(t[1]) then 2 else 1;
    if t != [] && SplitTypeMod(t[0]).Some? {
      var (source, attached) := SplitTypeMod(t[0]).value;
      var typeMod := if from == 2 && attached == "" then t[1] else attached;
      var rule := NOTHING.(sourceType := source, typeMod := typeMod);
      var m := Modifiers(t[from..], rule);
      assert ParseTokens(tokens) == AfterTo(m.1, m.0);
      hide *;
      var k := ModifiersStop(t[from..], rule);
      FirstToIs(t, from, k);
      if m.1 != [] {
        TargetNeeded(m.1, m.0);
      } else {
        NothingAfter(m.0);
      }
    }
  }

  lemma NothingAfter(rule: Rule)
    ensures AfterTo([], rule) == Bad
  {
  }

  /** What the search for the first "to" says about the whole of the tokens. */
  lemma FirstToIs(t: seq<string>, from: nat, k: nat)
    requires from + k <= |t| && (from + k < |t| ==> IsTo(t[from..][k]))
    requires forall j | 0 <= j < k :: !IsTo(t[from..][j])
    ensures t[from..][k..] == t[from + k..]
    ensures (exists i | 0 <= i < |t| :: ToWithTarget(t, from, i)) <==> from + k < |t| - 1 && !IsSpecial(t[from + k + 1])
  {
    hide IsTo, IsSpecial;
    assert forall j | from <= j < from + k :: t[j] == t[from..][j - from];
    if from + k < |t| - 1 && !IsSpecial(t[from + k + 1]) {
      assert ToWithTarget(t, from, from + k);
    }
    if i :| 0 <= i < |t| && ToWithTarget(t, from, i) {
      assert i >= from + k;
      assert i == from + k;
    }
  }

  // ----- Printing and reading back -----

  /** A rule that has a text: what its words are. */
  predicate RuleOk(rule: Rule, target: seq<string>) {
    && IsWord(rule.sourceType + rule.typeMod)
    && '(' !in rule.sourceType
    && (rule.typeMod == "" || IsParenToken(rule.typeMod))
    && target != [] && (forall i | 0 <= i < |target| :: IsWord(target[i]) && !IsSpecial(target[i]))
    && rule.targetType == Join(target, " ")
    && (rule.transform == "" || IsWord(rule.transform))
  }

  function Flag(on: bool, words: seq<string>): seq<string> {
    if on then words else []
  }

  function EndWords(rule: Rule): seq<string> {
    Flag(rule.dropTypemod, ["drop", "typemod"]) + Flag(rule.transform != "", ["using", rule.transform])
  }

  function MiddleWords(rule: Rule): seq<string> {
    Flag(rule.autoIncrement, ["auto_increment"]) + Flag(rule.unsigned, ["unsigned"])
  }

  function Words(rule: Rule, target: seq<string>): seq<string> {
    ["type", rule.sourceType + rule.typeMod] + (MiddleWords(rule) + (["to"] + (target + EndWords(rule))))
  }

  function PrintRule(rule: Rule, target: seq<string>): string {
    Join(Words(rule, target), " ")
  }

  /** What each keyword is taken for. */
  lemma Keywords()
    ensures EqualFold("type", "type") && IsTo("to") && !IsTo("auto_increment") && !IsTo("unsigned")
    ensures ToLower("auto_increment") == "auto_increment" && ToLower("unsigned") == "unsigned"
    ensures ToLower("drop") == "drop" && ToLower("typemod") == "typemod" && ToLower("using") == "using"
    ensures !IsParenToken("auto_increment") && !IsParenToken("unsigned") && !IsParenToken("to")
  {
  }

  lemma {:induction false} TargetRead(target: seq<string>, rest: seq<string>)
    requires (forall i | 0 <= i < |target| :: !IsSpecial(target[i])) && (rest == [] || IsSpecial(rest[0]))
    ensures Target(target + rest) == (target, rest)
  {
    hide IsSpecial;
    if target == [] {
      assert target + rest == rest;
    } else {
      assert (target + rest)[1..] == target[1..] + rest;
      TargetRead(target[1..], rest);
      assert [target[0]] + target[1..] == target;
    }
  }

  /** The words of a printed rule as one way to write it. */
  function FormOf(rule: Rule, target: seq<string>): Form {
    Form(["type"], rule.sourceType, rule.typeMod, false, MiddleWords(rule), "to", target,
         (if rule.dropTypemod then [["drop", "typemod"]] else [])
         + (if rule.transform != "" then [["using", rule.transform]] else []),
         (if rule.dropTypemod then [DropTypemod] else [])
         + (if rule.transform != "" then [Using(rule.transform)] else []))
  }

  lemma SaysItself(kw: string)
    ensures Says(kw, kw)
  {
  }

  lemma PrintedForm(rule: Rule, target: seq<string>)
    requires RuleOk(rule, target)
    ensures FormOk(FormOf(rule, target))
  {
    var f := FormOf(rule, target);
    Keywords();
    SaysItself("drop");
    SaysItself("typemod");
    SaysItself("using");
    hide Says, EqualFold, IsSpecial, IsParenToken, ToLower, IsTo, Join, IsWord;
  }

  lemma EndParts(rule: Rule)
    ensures var f := FormOf(rule, []); Flat(f.parts) == EndWords(rule)
  {
    var using := if rule.transform != "" then [["using", rule.transform]] else [];
    assert Flat(using) == Flag(rule.transform != "", ["using", rule.transform]) by {
      if rule.transform != "" {
        assert using[1..] == [] && using[0] + [] == using[0];
      }
    }
    if rule.dropTypemod {
      var parts := [["drop", "typemod"]] + using;
      assert parts[1..] == using && Flat(parts) == parts[0] + Flat(using);
    } else {
      assert [] + using == using;
    }
  }

  lemma EndMeaning(rule: Rule)
    ensures var f := FormOf(rule, []);
            LastUsing(f.settings, "") == rule.transform && (DropTypemod in f.settings <==> rule.dropTypemod)
  {
    var using := if rule.transform != "" then [Using(rule.transform)] else [];
    var settings := FormOf(rule, []).settings;
    assert rule.dropTypemod ==> settings[1..] == using;
    assert rule.transform != "" ==> using[1..] == [];
    assert LastUsing(using, "") == rule.transform;
    assert !rule.dropTypemod ==> settings == using;
  }

  lemma MiddleMeaning(rule: Rule)
    ensures Mentions(MiddleWords(rule), "auto_increment") == rule.autoIncrement
    ensures Mentions(MiddleWords(rule), "unsigned") == rule.unsigned
  {
    var middle := MiddleWords(rule);
    SaysItself("auto_increment");
    SaysItself("unsigned");
    assert !Says("auto_increment", "unsigned") && !Says("unsigned", "auto_increment");
    hide Says;
    if rule.autoIncrement {
      assert middle[0] == "auto_increment";
    }
    if rule.unsigned {
      assert middle[|middle| - 1] == "unsigned";
    }
  }

  lemma TokensRead(rule: Rule, target: seq<string>)
    requires RuleOk(rule, target)
    ensures ParseTokens(Words(rule, target)) == Good(rule)
  {
    hide *;
    PrintedForm(rule, target);
    FormRead(FormOf(rule, target));
    FormIsRule(rule, target);
  }

  lemma FormIsRule(rule: Rule, target: seq<string>)
    requires RuleOk(rule, target)
    ensures FormWords(FormOf(rule, target)) == Words(rule, target)
    ensures FormMeaning(FormOf(rule, target)) == rule
  {
    hide *;
    FormHas(rule, target);
    FormHasWords(rule, target);
    FormHasMeaning(rule, target);
  }

  lemma FormHas(rule: Rule, target: seq<string>)
    ensures var f, g := FormOf(rule, target), FormOf(rule, []);
            && f.first == ["type"] && TypeWords(f) == [rule.sourceType + rule.typeMod] && f.to == "to"
            && f.target == target && f.parts == g.parts && f.settings == g.settings && f.middle == MiddleWords(rule)
            && f.source == rule.sourceType && f.mod == rule.typeMod
  {
    hide MiddleWords;
  }

  lemma FormHasWords(rule: Rule, target: seq<string>)
    ensures FormWords(FormOf(rule, target)) == Words(rule, target)
  {
    var f := FormOf(rule, target);
    FormHas(rule, target);
    EndParts(rule);
    hide Flat, EndWords, MiddleWords, FormOf, TypeWords;
    assert ["type"] + ([rule.sourceType + rule.typeMod] + MiddleOn(f)) == Words(rule, target);
  }

  lemma FormHasMeaning(rule: Rule, target: seq<string>)
    requires RuleOk(rule, target)
    ensures FormMeaning(FormOf(rule, target)) == rule
  {
    FormHas(rule, target);
    EndMeaning(rule);
    MiddleMeaning(rule);
    assert rule.targetType == Join(target, " ");
    hide MiddleWords, Mentions, LastUsing, FormOf, RuleOk, Join;
  }

  /**
   However its words are set apart by white space, a text with the words of a rule is read as that rule.
   */
  lemma RuleRoundTrip(s: string, rule: Rule, target: seq<string>)
    requires RuleOk(rule, target) && Fields(s) == Words(rule, target)
    ensures ParseRule(s) == Good(rule)
  {
    hide RuleOk, Fields, Words, ParseTokens;
    TokensRead(rule, target);
  }

  lemma WordsAreWords(rule: Rule, target: seq<string>)
    requires RuleOk(rule, target)
    ensures AllWords(Words(rule, target))
  {
    KeywordsAreWords();
    hide IsWord, IsSpecial, Join;
    assert forall w <- MiddleWords(rule) :: IsWord(w);
    assert forall w <- EndWords(rule) :: IsWord(w);
    assert forall w <- target :: IsWord(w);
    hide MiddleWords, EndWords;
    assert forall w <- Words(rule, target) :: IsWord(w);
  }

  lemma KeywordsAreWords()
    ensures IsWord("type") && IsWord("auto_increment") && IsWord("unsigned") && IsWord("to") && IsWord("drop")
    ensures IsWord("typemod") && IsWord("using")
  {
  }

  /** Words with a space between them need no trimming. */
  lemma {:induction false} JoinTrimmed(words: seq<string>)
    requires words != [] && AllWords(words)
    ensures var s := Join(words, " "); s != "" && !IsSpace(s[0]) && !IsSpace(s[|s| - 1])
  {
    assert IsWord(words[0]);
    assert words[0][0] in words[0] && words[0][|words[0]| - 1] in words[0];
    if |words| > 1 {
      JoinTrimmed(words[1..]);
    }
  }

  /** Printed rules are read back in order. */
  lemma {:induction false} RulesRoundTrip(rules: seq<Rule>, targets: seq<seq<string>>)
    requires RulesOk(rules, targets)
    ensures ParseRules(PrintRules(rules, targets)) == Rules(rules)
    decreases |rules|
  {
    if rules != [] {
      RulesOkParts(rules, targets);
      hide *;
      RulesRoundTrip(rules[1..], targets[1..]);
      PrintedRule(rules[0], targets[0]);
      PrintRulesTail(rules, targets);
      ParseRulesFirst(PrintRules(rules, targets), rules[0]);
      FirstAgain(rules);
    }
  }

  predicate RulesOk(rules: seq<Rule>, targets: seq<seq<string>>) {
    |targets| == |rules| && forall i | 0 <= i < |rules| :: RuleOk(rules[i], targets[i])
  }

  lemma RulesOkParts(rules: seq<Rule>, targets: seq<seq<string>>)
    requires RulesOk(rules, targets) && rules != []
    ensures |targets| == |rules| && RuleOk(rules[0], targets[0]) && RulesOk(rules[1..], targets[1..])
  {
    hide RuleOk;
  }

  lemma FirstAgain(rules: seq<Rule>)
    requires rules != []
    ensures WithFirst(rules[0], Rules(rules[1..])) == Rules(rules)
  {
    assert rules == [rules[0]] + rules[1..];
  }

  function PrintRules(rules: seq<Rule>, targets: seq<seq<string>>): seq<string>
    requires |targets| == |rules|
  {
    seq(|rules|, i requires 0 <= i < |rules| => PrintRule(rules[i], targets[i]))
  }

  lemma PrintRulesTail(rules: seq<Rule>, targets: seq<seq<string>>)
    requires |targets| == |rules| && rules != []
    ensures var texts := PrintRules(rules, targets);
            && texts != [] && texts[0] == PrintRule(rules[0], targets[0])
            && texts[1..] == PrintRules(rules[1..], targets[1..])
  {
    hide PrintRule;
  }

  lemma ParseRulesFirst(texts: seq<string>, rule: Rule)
    requires texts != [] && texts[0] != "" && TrimSpace(texts[0]) == texts[0] && ParseRule(texts[0]) == Good(rule)
    ensures ParseRules(texts) == WithFirst(rule, ParseRules(texts[1..]))
  {
    hide ParseRule, TrimSpace;
  }

  lemma PrintedRule(rule: Rule, target: seq<string>)
    requires RuleOk(rule, target)
    ensures var s := PrintRule(rule, target); s != "" && TrimSpace(s) == s && ParseRule(s) == Good(rule)
  {
    var ws := Words(rule, target);
    WordsAreWords(rule, target);
    hide RuleOk, Words, ParseRule, Fields, Join, IsWord;
    FieldsOfJoin(ws);
    WordsNotEmpty(rule, target);
    JoinTrimmed(ws);
    RuleRoundTrip(Join(ws, " "), rule, target);
    TrimSpaceIdempotent(Join(ws, " "));
  }

  lemma WordsNotEmpty(rule: Rule, target: seq<string>)
    ensures Words(rule, target) != []
  {
  }
}
