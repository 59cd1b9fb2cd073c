/**
 The readers of the .load parser (internal/configfile/parser.go): values, lists, options and SQL
 statements.  Each reader is a function of the text that is left, and a method that moves a cursor as
 the source does.
 */
module LoadReaders {
  import opened Text

  // ----- Results -----

  /** A value and the text after it; an error; or a loop that never ends. */
  datatype Parsed<+T> = Ok(value: T, rest: string) | Error | Hang

  /** The same with a position in the whole text. */
  datatype At<+T> = Value(value: T, pos: nat) | Failed | Stuck

  ghost predicate Agrees<T>(r: At<T>, s: string, from: nat, p: Parsed<T>) {
    match p
    case Ok(v, rest) => r.Value? && r.value == v && from <= r.pos <= |s| && s[r.pos..] == rest
    case Error => r.Failed?
    case Hang => r.Stuck?
  }

  function Prepend<T>(items: seq<T>, p: Parsed<seq<T>>): Parsed<seq<T>> {
    match p
    case Ok(rest, t) => Ok(items + rest, t)
    case Error => Error
    case Hang => Hang
  }

  // ----- Values -----

  /** The inside of a quoted value, after its opening quote; the end of the text closes it too. */
  function Quoted(t: string): (p: Parsed<string>)
    ensures p.Ok? ==> |p.rest| <= |t|
    ensures !p.Hang?
    decreases |t|
  {
    if t == "" then Ok("", "")
    else if t[0] == '\'' then
      if |t| > 1 && t[1] == '\'' then Prepend("'", Quoted(t[2..])) else Ok("", t[1..])
    else if DollarsAhead(t) then
      var end := IndexDollars(t[2..]);
      if end < 0 then Error else Prepend(t[..end + 4], Quoted(t[end + 4..]))
    else Prepend(t[..1], Quoted(t[1..]))
  }

  predicate EndsWord(c: char) { IsBlank(c) || c == ',' || c == ';' || c == ')' }

  /** Characters up to the first one that ends an unquoted word. */
  function Word(t: string): (p: (string, string))
    ensures p.0 + p.1 == t
    ensures p.1 != "" ==> EndsWord(p.1[0])
    ensures forall c <- p.0 :: !EndsWord(c)
  {
    if t == "" || EndsWord(t[0]) then ("", t)
    else
      var p := Word(t[1..]);
      ([t[0]] + p.0, p.1)
  }

  /** Characters up to a slash. */
  function ToSlash(t: string): (p: (string, string))
    ensures p.0 + p.1 == t
    ensures p.1 != "" ==> p.1[0] == '/'
    ensures '/' !in p.0
  {
    if t == "" || t[0] == '/' then ("", t)
    else
      var p := ToSlash(t[1..]);
      ([t[0]] + p.0, p.1)
  }

  function ReadValueOf(t0: string): (p: Parsed<string>)
    ensures p.Ok? ==> |p.rest| <= |t0|
    ensures !p.Hang?
  {
    var t := SkipSpace(t0);
    if t == "" then Error
    else if t[0] == '\'' then Quoted(t[1..])
    else if t[0] == '~' then
      if |t| > 1 && t[1] == '/' then
        var p := ToSlash(t[2..]);
        Ok("~/" + p.0 + "/", if p.1 == "" then "" else p.1[1..])
      else Ok("~", t[1..])
    else
      var p := Word(t);
      Ok(p.0, p.1)
  }

  method SkipSpaceAt(s: string, pos: nat) returns (p: nat)
    requires pos <= |s|
    ensures p < |s| ==> !IsBlank(s[p])
    ensures pos <= p <= |s| && s[p..] == SkipSpace(s[pos..])
    ensures pos < |s| && !IsBlank(s[pos]) ==> p == pos
  {
    p := pos;
    while p < |s| && IsBlank(s[p])
      invariant pos <= p <= |s| && SkipSpace(s[p..]) == SkipSpace(s[pos..])
      invariant pos < |s| && !IsBlank(s[pos]) ==> p == pos
    {
      assert s[p..][1..] == s[p + 1..];
      p := p + 1;
    }
  }

  method ReadWord(s: string, from: nat) returns (val: string, pos: nat)
    requires from <= |s|
    ensures from <= pos <= |s| && (val, s[pos..]) == Word(s[from..])
  {
    hide Word;
    pos, val := from, "";
    EmptyFirst(Word(s[from..]).0);
    while pos < |s| && !EndsWord(s[pos])
      invariant from <= pos <= |s|
      invariant val + Word(s[pos..]).0 == Word(s[from..]).0 && Word(s[pos..]).1 == Word(s[from..]).1
    {
      WordTakes(s, pos, val);
      val := val + [s[pos]];
      pos := pos + 1;
    }
    WordStops(s[pos..], val);
  }

  lemma EmptyFirst(s: string)
    ensures "" + s == s
  {
  }

  lemma WordTakes(s: string, pos: nat, val: string)
    requires pos < |s| && !EndsWord(s[pos])
    ensures val + Word(s[pos..]).0 == val + [s[pos]] + Word(s[pos + 1..]).0 && Word(s[pos..]).1 == Word(s[pos + 1..]).1
  {
    DropDrop(s, pos, 1);
    assert val + ([s[pos]] + Word(s[pos + 1..]).0) == val + [s[pos]] + Word(s[pos + 1..]).0;
  }

  lemma WordStops(t: string, val: string)
    requires t == "" || EndsWord(t[0])
    ensures Word(t) == ("", t) && val + Word(t).0 == val
  {
    assert val + "" == val;
  }

  method ReadToSlash(s: string, from: nat) returns (pat: string, pos: nat)
    requires from <= |s|
    ensures from <= pos <= |s| && (pat, s[pos..]) == ToSlash(s[from..])
  {
    hide *;
    pos, pat := from, "";
    EmptyFirst(ToSlash(s[from..]).0);
    while pos < |s| && s[pos] != '/'
      invariant from <= pos <= |s|
      invariant pat + ToSlash(s[pos..]).0 == ToSlash(s[from..]).0 && ToSlash(s[pos..]).1 == ToSlash(s[from..]).1
    {
      SlashTakes(s, pos, pat);
      pat := pat + [s[pos]];
      pos := pos + 1;
    }
    SlashStops(s[pos..], pat);
  }

  lemma SlashTakes(s: string, pos: nat, pat: string)
    requires pos < |s| && s[pos] != '/'
    ensures pat + ToSlash(s[pos..]).0 == pat + [s[pos]] + ToSlash(s[pos + 1..]).0
    ensures ToSlash(s[pos..]).1 == ToSlash(s[pos + 1..]).1
  {
    DropDrop(s, pos, 1);
    assert pat + ([s[pos]] + ToSlash(s[pos + 1..]).0) == pat + [s[pos]] + ToSlash(s[pos + 1..]).0;
  }

  lemma SlashStops(t: string, pat: string)
    requires t == "" || t[0] == '/'
    ensures ToSlash(t) == ("", t) && pat + ToSlash(t).0 == pat
  {
    assert pat + "" == pat;
  }

  /** Dropping from a suffix. */
  lemma DropDrop(s: string, i: nat, j: nat)
    requires i + j <= |s|
    ensures s[i..][j..] == s[i + j..]
  {
  }

  /** The cases of a value, by its first characters. */
  lemma ValueCases(t0: string)
    ensures var t, v := SkipSpace(t0), ReadValueOf(t0);
            if t == "" then v == Error
            else if t[0] == '\'' then v == Quoted(t[1..])
            else if t[0] != '~' then v == Ok(Word(t).0, Word(t).1)
            else if |t| == 1 || t[1] != '/' then v == Ok("~", t[1..])
            else var p := ToSlash(t[2..]); v == Ok("~/" + p.0 + "/", if p.1 == "" then "" else p.1[1..])
  {
    hide SkipSpace, Quoted, Word, ToSlash;
  }

  lemma ValueSkips(t: string)
    ensures ReadValueOf(SkipSpace(t)) == ReadValueOf(t)
  {
    hide Quoted, Word, ToSlash;
    SkipSpaceTwice(t);
  }

  /** The text after an expression between slashes: its closing slash is taken, if it is there. */
  lemma AfterSlash(s: string, pos: nat)
    requires pos <= |s|
    ensures var t := s[pos..]; (if t == "" then "" else t[1..]) == s[if pos < |s| then pos + 1 else pos..]
  {
    if pos < |s| {
      DropDrop(s, pos, 1);
    }
  }

  lemma TildeCases(s: string, from: nat)
    requires from < |s| && s[from] == '~'
    ensures !(from + 1 < |s| && s[from + 1] == '/') ==> ReadValueOf(s[from..]) == Ok("~", s[from + 1..])
    ensures from + 1 < |s| && s[from + 1] == '/' ==>
              var p := ToSlash(s[from + 2..]);
              ReadValueOf(s[from..]) == Ok("~/" + p.0 + "/", if p.1 == "" then "" else p.1[1..])
  {
    var t := s[from..];
    ValueCases(t);
    DropDrop(s, from, 1);
    if |t| > 1 {
      DropDrop(s, from, 2);
    }
    hide ReadValueOf, ToSlash;
  }

  /** A value that starts with a tilde: an expression between slashes, or the tilde alone. */
  method ReadTilde(s: string, from: nat) returns (r: At<string>)
    requires from < |s| && s[from] == '~'
    ensures Agrees(r, s, from, ReadValueOf(s[from..]))
  {
    hide *;
    TildeCases(s, from);
    var pos := from + 1;
    if pos < |s| && s[pos] == '/' {
      pos := pos + 1;
      var pat;
      pat, pos := ReadToSlash(s, pos);
      AfterSlash(s, pos);
      if pos < |s| {
        pos := pos + 1;
      }
      AgreesValue(s, from, "~/" + pat + "/", pos);
      return Value("~/" + pat + "/", pos);
    }
    AgreesValue(s, from, "~", pos);
    return Value("~", pos);
  }

  lemma ValueAt(s: string, pos: nat)
    requires pos <= |s| && (pos < |s| ==> !IsBlank(s[pos]))
    ensures pos == |s| ==> ReadValueOf(s[pos..]) == Error
    ensures pos < |s| && s[pos] == '\'' ==> ReadValueOf(s[pos..]) == Quoted(s[pos + 1..])
    ensures pos < |s| && s[pos] != '\'' && s[pos] != '~' ==>
              ReadValueOf(s[pos..]) == Ok(Word(s[pos..]).0, Word(s[pos..]).1)
  {
    ValueCases(s[pos..]);
    assert SkipSpace(s[pos..]) == s[pos..];
    if pos < |s| {
      DropDrop(s, pos, 1);
    }
    hide ReadValueOf, SkipSpace, Quoted, Word;
  }

  lemma AgreesLater<T>(r: At<T>, s: string, from: nat, pos: nat, p: Parsed<T>)
    requires from <= pos && Agrees(r, s, pos, p)
    ensures Agrees(r, s, from, p)
  {
  }

  method ReadValue(s: string, from: nat) returns (r: At<string>)
    requires from <= |s|
    ensures Agrees(r, s, from, ReadValueOf(s[from..]))
    ensures from < |s| && s[from] == '\'' && r.Value? && r.pos < |s| ==> r.pos > from && s[r.pos - 1] == '\''
  {
    assert from < |s| && s[from] == '\'' ==> !IsBlank(s[from]);
    hide *;
    ValueSkips(s[from..]);
    var pos := SkipSpaceAt(s, from);
    ValueAt(s, pos);
    if pos >= |s| {
      AgreesFailed<string>(s, from);
      return Failed;
    }
    if s[pos] == '\'' {
      r := ReadQuoted(s, pos + 1);
      AgreesLater(r, s, from, pos + 1, ReadValueOf(s[from..]));
    } else if s[pos] == '~' {
      r := ReadTilde(s, pos);
      AgreesLater(r, s, from, pos, ReadValueOf(s[from..]));
    } else {
      var val;
      val, pos := ReadWord(s, pos);
      AgreesValue(s, from, val, pos);
      return Value(val, pos);
    }
  }

  lemma QuotedPair(s: string, pos: nat)
    requires pos + 1 < |s| && s[pos] == '\'' && s[pos + 1] == '\''
    ensures Quoted(s[pos..]) == Prepend("'", Quoted(s[pos + 2..]))
  {
    DropDrop(s, pos, 2);
  }

  lemma QuotedEnd(s: string, pos: nat)
    requires pos < |s| && s[pos] == '\'' && !(pos + 1 < |s| && s[pos + 1] == '\'')
    ensures Quoted(s[pos..]) == Ok("", s[pos + 1..])
  {
    DropDrop(s, pos, 1);
  }

  lemma QuotedDollars(s: string, pos: nat)
    requires pos + 1 < |s| && s[pos] == '$' && s[pos + 1] == '$'
    ensures var end := IndexDollars(s[pos + 2..]);
            Quoted(s[pos..])
            == if end < 0 then Error else Prepend(s[pos..pos + end + 4], Quoted(s[pos + end + 4..]))
  {
    DropDrop(s, pos, 2);
    var end := IndexDollars(s[pos + 2..]);
    if end >= 0 {
      DropDrop(s, pos, end + 4);
      assert s[pos..][..end + 4] == s[pos..pos + end + 4];
    }
  }

  /** The position after a $$-quoted part of a quoted value, or -1 if it is not closed. */
  method SkipDollars(s: string, pos: nat) returns (next: int)
    requires pos + 1 < |s| && s[pos] == '$' && s[pos + 1] == '$'
    ensures next < 0 ==> Quoted(s[pos..]) == Error
    ensures next >= 0 ==> pos < next <= |s| && Quoted(s[pos..]) == Prepend(s[pos..next], Quoted(s[next..]))
  {
    hide Quoted, Prepend;
    QuotedDollars(s, pos);
    var end := IndexDollars(s[pos + 2..]);
    next := if end < 0 then -1 else pos + end + 4;
  }

  lemma QuotedOther(s: string, pos: nat)
    requires pos < |s| && s[pos] != '\'' && !(pos + 1 < |s| && s[pos] == '$' && s[pos + 1] == '$')
    ensures Quoted(s[pos..]) == Prepend([s[pos]], Quoted(s[pos + 1..]))
  {
    DropDrop(s, pos, 1);
    assert s[pos..][..1] == [s[pos]];
  }

  lemma QuotedNothing()
    ensures Quoted("") == Ok("", "")
  {
  }

  method ReadQuoted(s: string, from: nat) returns (r: At<string>)
    requires from <= |s|
    ensures Agrees(r, s, from, Quoted(s[from..]))
    ensures r.Value? && r.pos < |s| ==> r.pos > from && s[r.pos - 1] == '\''
  {
    hide *;
    var pos := from;
    var val := "";
    PrependNothing(Quoted(s[from..]));
    while pos < |s|
      invariant from <= pos <= |s|
      invariant Prepend(val, Quoted(s[pos..])) == Quoted(s[from..])
    {
      if s[pos] == '\'' {
        if pos + 1 < |s| && s[pos + 1] == '\'' {
          QuotedPair(s, pos);
          PrependTwice(val, "'", Quoted(s[pos + 2..]));
          val := val + "'";
          pos := pos + 2;
        } else {
          QuotedEnd(s, pos);
          PrependEnd(val, s[pos + 1..]);
          AgreesValue(s, from, val, pos + 1);
          return Value(val, pos + 1);
        }
      } else if pos + 1 < |s| && s[pos] == '$' && s[pos + 1] == '$' {
        var next := SkipDollars(s, pos);
        if next < 0 {
          PrependEnd(val, "");
          AgreesFailed<string>(s, from);
          return Failed;
        }
        PrependTwice(val, s[pos..next], Quoted(s[next..]));
        val := val + s[pos..next];
        pos := next;
      } else {
        QuotedOther(s, pos);
        PrependTwice(val, [s[pos]], Quoted(s[pos + 1..]));
        val := val + [s[pos]];
        pos := pos + 1;
      }
    }
    QuotedAtEnd(s, from, val, pos);
    return Value(val, pos);
  }

  lemma AgreesValue<T>(s: string, from: nat, value: T, pos: nat)
    requires from <= pos <= |s|
    ensures Agrees(Value(value, pos), s, from, Ok(value, s[pos..]))
  {
  }

  lemma AgreesFailed<T>(s: string, from: nat)
    ensures Agrees<T>(Failed, s, from, Error)
  {
  }

  lemma QuotedAtEnd(s: string, from: nat, val: string, pos: nat)
    requires from <= pos == |s| && Prepend(val, Quoted(s[pos..])) == Quoted(s[from..])
    ensures Agrees(Value(val, pos), s, from, Quoted(s[from..]))
  {
    assert s[pos..] == "";
    QuotedNothing();
    PrependEnd(val, "");
    hide Quoted;
  }

  lemma PrependNothing<T>(p: Parsed<seq<T>>)
    ensures Prepend([], p) == p
  {
    if p.Ok? {
      assert [] + p.value == p.value;
    }
  }

  lemma PrependEnd<T>(items: seq<T>, rest: string)
    ensures Prepend(items, Ok([], rest)) == Ok(items, rest)
    ensures Prepend(items, Error) == Error
    ensures Prepend(items, Hang) == Hang
  {
    assert items + [] == items;
  }

  lemma PrependTwice<T>(a: seq<T>, b: seq<T>, p: Parsed<seq<T>>)
    ensures Prepend(a, Prepend(b, p)) == Prepend(a + b, p)
  {
    if p.Ok? {
      assert a + (b + p.value) == a + b + p.value;
    }
  }

  // ----- Parenthesised lists -----

  function SkipComma(t0: string): (r: string)
    ensures |r| <= |t0|
  {
    var t := SkipSpace(t0);
    if t != "" && t[0] == ',' then SkipSpace(t[1..]) else t
  }

  /**
   The items of a list, after its opening parenthesis.  An item that starts with a semicolon is empty
   and takes no text, so the loop adds empty items for ever.
   */
  function ListItems(t0: string): (p: Parsed<seq<string>>)
    ensures p.Ok? ==> |p.rest| <= |t0|
    decreases |t0|
  {
    var t := SkipSpace(t0);
    if t == "" then Error
    else if t[0] == ')' then Ok([], t[1..])
    else if t[0] == ',' then ListItems(t[1..])
    else if t[0] == ';' then Hang
    else
      var v := ReadValueOf(t);
      if !v.Ok? then Error
      else
        ValueProgress(t);
        Prepend([v.value], ListItems(SkipComma(v.rest)))
  }

  /** A value that does not start with a delimiter takes at least one character. */
  lemma ValueProgress(t: string)
    requires t != "" && !EndsWord(t[0])
    ensures ReadValueOf(t).Ok? ==> |ReadValueOf(t).rest| < |t|
  {
    assert SkipSpace(t) == t;
    if t[0] != '\'' && t[0] != '~' {
      assert Word(t).0 == [t[0]] + Word(t[1..]).0;
    }
  }

  function ParenList(t0: string): (p: Parsed<seq<string>>)
    ensures p.Ok? ==> |p.rest| <= |t0|
  {
    var t := SkipSpace(t0);
    if t == "" || t[0] != '(' then Error else ListItems(t[1..])
  }

  method SkipCommaAt(s: string, pos: nat) returns (p: nat)
    requires pos <= |s|
    ensures pos <= p <= |s| && s[p..] == SkipComma(s[pos..])
  {
    hide SkipSpace;
    p := SkipSpaceAt(s, pos);
    if p < |s| && s[p] == ',' {
      DropDrop(s, p, 1);
      p := SkipSpaceAt(s, p + 1);
    }
  }

  method ReadParenList(s: string, from: nat) returns (r: At<seq<string>>)
    requires from <= |s|
    ensures Agrees(r, s, from, ParenList(s[from..]))
  {
    hide SkipSpace, SkipComma, ReadValueOf;
    var pos := SkipSpaceAt(s, from);
    if pos >= |s| || s[pos] != '(' {
      return Failed;
    }
    DropDrop(s, pos, 1);
    pos := pos + 1;
    ghost var start := pos;
    var items := [];
    PrependNothing(ListItems(s[start..]));
    while pos < |s|
      invariant start <= pos <= |s|
      invariant Prepend(items, ListItems(s[pos..])) == ListItems(s[start..])
      decreases |s| - pos
    {
      ghost var was := pos;
      pos := SkipSpaceAt(s, pos);
      if pos >= |s| {
        return Failed;
      }
      DropDrop(s, pos, 1);
      if s[pos] == ')' {
        assert items + [] == items;
        return Value(items, pos + 1);
      }
      if s[pos] == ',' {
        pos := pos + 1;
        continue;
      }
      if s[pos] == ';' {
        return Stuck;
      }
      var v := ReadValue(s, pos);
      if !v.Value? {
        return Failed;
      }
      ValueProgress(s[pos..]);
      PrependTwice(items, [v.value], ListItems(SkipComma(s[v.pos..])));
      items := items + [v.value];
      pos := v.pos;
      pos := SkipCommaAt(s, pos);
    }
    return Failed;
  }

  // ----- Option lists -----

  /** A word that starts a section. */
  predicate SectionStart(t: string) {
    || HasKeyword(t, "BEFORE") || HasKeyword(t, "AFTER") || HasKeyword(t, "INCLUDING") || HasKeyword(t, "EXCLUDING")
    || HasKeyword(t, "MATERIALIZE") || HasKeyword(t, "TARGET") || HasKeyword(t, "WITH") || HasKeyword(t, "SET")
    || HasKeyword(t, "CAST")
  }

  /** A word that ends an option on the same line; SET does not. */
  predicate MidSection(t: string) {
    || HasKeyword(t, "BEFORE") || HasKeyword(t, "AFTER") || HasKeyword(t, "INCLUDING") || HasKeyword(t, "EXCLUDING")
    || HasKeyword(t, "MATERIALIZE") || HasKeyword(t, "CAST") || HasKeyword(t, "WITH") || HasKeyword(t, "TARGET")
  }

  predicate HasTerminator(t: string, terminators: seq<string>) {
    exists i :: 0 <= i < |terminators| && HasKeyword(t, terminators[i])
  }

  /** One option up to its end; spaceBefore tells whether the last character taken is a space or tab. */
  function OptionText(t: string, started: bool, spaceBefore: bool): (p: Parsed<string>)
    ensures p.Ok? ==> |p.rest| <= |t|
    ensures !p.Hang?
    decreases |t|
  {
    if t == "" then Ok("", "")
    else if t[0] == ',' then Ok("", t[1..])
    else if t[0] == ';' then Ok("", t)
    else if started && spaceBefore && MidSection(t) then Ok("", t)
    else if t[0] == '\n' || t[0] == '\r' then Ok("", t)
    else if t[0] == ' ' || t[0] == '\t' then Prepend(t[..1], OptionText(t[1..], true, true))
    else if t[0] == '\'' then
      var q := Quoted(t[1..]);
      if !q.Ok? then Error else Prepend("'" + q.value + "'", OptionText(q.rest, true, false))
    else Prepend(t[..1], OptionText(t[1..], true, false))
  }

  /** The trimmed option, unless nothing is left of it. */
  function Item(text: string): seq<string> {
    var o := TrimSpace(text);
    if o == "" then [] else [o]
  }

  /** An option that does not start with a delimiter takes at least one character. */
  lemma OptionProgress(t: string)
    requires t != "" && t[0] !in {',', ';', '\n', '\r'}
    ensures OptionText(t, false, false).Ok? ==> |OptionText(t, false, false).rest| < |t|
  {
  }

  /** The option list; it never ends when an option starts at a semicolon. */
  function Options(t0: string, terminators: seq<string>): (p: Parsed<seq<string>>)
    ensures p.Ok? ==> |p.rest| <= |t0|
    decreases |t0|
  {
    var t := SkipSpace(t0);
    if t == "" then Ok([], "")
    else if t[0] == ',' then Options(t[1..], terminators)
    else if HasTerminator(t, terminators) || SectionStart(t) then Ok([], t)
    else if t[0] == ';' then Hang
    else
      OptionProgress(t);
      var o := OptionText(t, false, false);
      if !o.Ok? then Error else Prepend(Item(o.value), Options(o.rest, terminators))
  }

  /** What one round of the inner loop does with the character at pos. */
  lemma OptionTextAt(s: string, pos: nat, started: bool, spaceBefore: bool)
    requires pos < |s|
    ensures var p, c := OptionText(s[pos..], started, spaceBefore), s[pos];
            if c == ',' then p == Ok("", s[pos + 1..])
            else if c == ';' || (started && spaceBefore && MidSection(s[pos..])) || c == '\n' || c == '\r' then
              p == Ok("", s[pos..])
            else if c == ' ' || c == '\t' then p == Prepend([c], OptionText(s[pos + 1..], true, true))
            else if c == '\'' then
              var q := Quoted(s[pos + 1..]);
              p == if !q.Ok? then Error else Prepend("'" + q.value + "'", OptionText(q.rest, true, false))
            else p == Prepend([c], OptionText(s[pos + 1..], true, false))
  {
    DropDrop(s, pos, 1);
    assert s[pos..][..1] == [s[pos]];
  }

  /** A quoted value read at its opening quote. */
  lemma QuotedValueAt(s: string, pos: nat)
    requires pos < |s| && s[pos] == '\''
    ensures ReadValueOf(s[pos..]) == Quoted(s[pos + 1..])
  {
    DropDrop(s, pos, 1);
    assert SkipSpace(s[pos..]) == s[pos..];
  }

  lemma OptionTextAtEnd(started: bool, spaceBefore: bool)
    ensures OptionText("", started, spaceBefore) == Ok("", "")
  {
  }

  /** Whether the character before pos is a space or tab. */
  predicate SpaceBefore(s: string, from: nat, pos: nat)
    requires from <= pos <= |s|
  {
    pos > from && (s[pos - 1] == ' ' || s[pos - 1] == '\t')
  }

  /** The inner loop. */
  method ReadOption(s: string, from: nat) returns (r: At<string>)
    requires from <= |s|
    ensures Agrees(r, s, from, OptionText(s[from..], false, false))
  {
    hide OptionText, MidSection, Quoted, ReadValueOf, Prepend;
    var pos := from;
    var opt := "";
    PrependNothing(OptionText(s[from..], false, false));
    while pos < |s|
      invariant from <= pos <= |s|
      invariant |opt| > 0 <==> pos > from
      invariant Prepend(opt, OptionText(s[pos..], |opt| > 0, SpaceBefore(s, from, pos)))
             == OptionText(s[from..], false, false)
    {
      OptionTextAt(s, pos, |opt| > 0, SpaceBefore(s, from, pos));
      if s[pos] == ',' {
        PrependEnd(opt, s[pos + 1..]);
        return Value(opt, pos + 1);
      } else if s[pos] == ';' || (|opt| > 0 && (s[pos - 1] == ' ' || s[pos - 1] == '\t') && MidSection(s[pos..]))
                || s[pos] == '\n' || s[pos] == '\r' {
        PrependEnd(opt, s[pos..]);
        return Value(opt, pos);
      } else if s[pos] == '\'' {
        QuotedValueAt(s, pos);
        var v := ReadValue(s, pos);
        if !v.Value? {
          PrependEnd(opt, "");
          return Failed;
        }
        QuotedPart(s, from, pos, opt, v);
        opt := opt + "'" + v.value + "'";
        pos := v.pos;
      } else {
        PrependTwice(opt, [s[pos]], OptionText(s[pos + 1..], true, s[pos] == ' ' || s[pos] == '\t'));
        opt := opt + [s[pos]];
        pos := pos + 1;
      }
    }
    assert s[pos..] == "";
    OptionTextAtEnd(|opt| > 0, SpaceBefore(s, from, pos));
    PrependEnd(opt, "");
    return Value(opt, pos);
  }

  /** After a quoted part the character before the cursor is its closing quote, or the text has ended. */
  lemma QuotedPart(s: string, from: nat, pos: nat, opt: string, v: At<string>)
    requires from <= pos < |s| && s[pos] == '\'' && v.Value?
    requires Agrees(v, s, pos, Quoted(s[pos + 1..]))
    requires v.pos < |s| ==> v.pos > pos && s[v.pos - 1] == '\''
    ensures pos < v.pos
    ensures Prepend(opt, Prepend("'" + v.value + "'", OptionText(s[v.pos..], true, false)))
         == Prepend(opt + "'" + v.value + "'", OptionText(s[v.pos..], true, SpaceBefore(s, from, v.pos)))
  {
    hide OptionText, Quoted, Prepend;
    PrependTwice(opt, "'" + v.value + "'", OptionText(s[v.pos..], true, false));
    assert opt + ("'" + v.value + "'") == opt + "'" + v.value + "'";
    if v.pos == |s| {
      assert s[v.pos..] == "";
      OptionTextAtEnd(true, false);
      OptionTextAtEnd(true, SpaceBefore(s, from, v.pos));
    }
  }

  method ReadOptionsUntil(s: string, from: nat, terminators: seq<string>) returns (r: At<seq<string>>)
    requires from <= |s|
    ensures Agrees(r, s, from, Options(s[from..], terminators))
  {
    hide SkipSpace, OptionText, Quoted, SectionStart, HasTerminator, TrimSpace, Prepend;
    var pos := from;
    var options := [];
    PrependNothing(Options(s[from..], terminators));
    while pos < |s|
      invariant from <= pos <= |s|
      invariant Prepend(options, Options(s[pos..], terminators)) == Options(s[from..], terminators)
      decreases |s| - pos
    {
      pos := SkipSpaceAt(s, pos);
      if pos >= |s| {
        assert s[pos..] == "";
        PrependEnd(options, "");
        return Value(options, pos);
      }
      DropDrop(s, pos, 1);
      if s[pos] == ',' {
        pos := pos + 1;
      } else if HasTerminator(s[pos..], terminators) || SectionStart(s[pos..]) {
        PrependEnd(options, s[pos..]);
        return Value(options, pos);
      } else if s[pos] == ';' {
        PrependEnd(options, "");
        return Stuck;
      } else {
        OptionProgress(s[pos..]);
        var opt := ReadOption(s, pos);
        if !opt.Value? {
          PrependEnd(options, "");
          return Failed;
        }
        PrependTwice(options, Item(opt.value), Options(s[opt.pos..], terminators));
        options := options + Item(opt.value);
        pos := opt.pos;
      }
    }
    assert s[pos..] == "";
    OptionsOfNothing(terminators);
    PrependEnd(options, "");
    return Value(options, pos);
  }

  lemma OptionsOfNothing(terminators: seq<string>)
    ensures Options("", terminators) == Ok([], "")
  {
  }

  // ----- SQL statements -----

  function Statements(t0: string): (p: Parsed<seq<string>>)
    ensures p.Ok? ==> |p.rest| <= |t0|
    ensures !p.Hang?
    decreases |t0|
  {
    var t := SkipSpace(t0);
    if t == "" then Ok([], "")
    else if t[0] == ',' then Statements(t[1..])
    else if !DollarsAhead(t) then Ok([], t)
    else
      var body := t[2..];
      var end := IndexDollars(body);
      if end < 0 then Error
      else
        var rest := body[end + 2..];
        assert |rest| < |t0|;
        Prepend([TrimSpace(body[..end])], Statements(rest))
  }

  lemma StatementsAt(s: string, pos: nat)
    requires pos < |s| && !IsBlank(s[pos])
    ensures s[pos] == ',' ==> Statements(s[pos..]) == Statements(s[pos + 1..])
    ensures s[pos] != ',' && !DollarsAhead(s[pos..]) ==> Statements(s[pos..]) == Ok([], s[pos..])
  {
    DropDrop(s, pos, 1);
  }

  lemma StatementsDollars(t: string)
    requires DollarsAhead(t)
    ensures var end := IndexDollars(t[2..]);
            Statements(t)
            == if end < 0 then Error else Prepend([TrimSpace(t[2..][..end])], Statements(t[2..][end + 2..]))
  {
  }

  /** One dollar-quoted statement; next is -1 if it is not closed. */
  method ReadStatement(s: string, pos: nat) returns (sql: string, next: int)
    requires pos < |s| && DollarsAhead(s[pos..])
    ensures next < 0 ==> Statements(s[pos..]) == Error
    ensures next >= 0 ==> pos < next <= |s| && Statements(s[pos..]) == Prepend([sql], Statements(s[next..]))
  {
    hide Statements, IndexDollars, TrimSpace, Prepend;
    StatementsDollars(s[pos..]);
    DropDrop(s, pos, 2);
    var end := IndexDollars(s[pos + 2..]);
    if end < 0 {
      return "", -1;
    }
    DropDrop(s, pos + 2, end + 2);
    assert s[pos + 2..][..end] == s[pos + 2..pos + 2 + end];
    return TrimSpace(s[pos + 2..pos + 2 + end]), pos + 2 + end + 2;
  }

  lemma StatementsSkip(t: string)
    ensures Statements(SkipSpace(t)) == Statements(t)
  {
    SkipSpaceTwice(t);
  }

  lemma {:induction false} SkipSpaceTwice(t: string)
    ensures SkipSpace(SkipSpace(t)) == SkipSpace(t)
  {
  }

  method ReadSQLStatements(s: string, from: nat) returns (r: At<seq<string>>)
    requires from <= |s|
    ensures Agrees(r, s, from, Statements(s[from..]))
  {
    hide SkipSpace, Prepend, IndexDollars, TrimSpace, Statements;
    var statements := [];
    var pos := SkipSpaceAt(s, from);
    StatementsSkip(s[from..]);
    PrependNothing(Statements(s[from..]));
    while pos < |s|
      invariant from <= pos <= |s| && (pos < |s| ==> !IsBlank(s[pos]))
      invariant Prepend(statements, Statements(s[pos..])) == Statements(s[from..])
      decreases |s| - pos
    {
      StatementsAt(s, pos);
      if s[pos] == ',' {
        StatementsSkip(s[pos + 1..]);
        pos := SkipSpaceAt(s, pos + 1);
      } else if !DollarsAhead(s[pos..]) {
        PrependEnd(statements, s[pos..]);
        return Value(statements, pos);
      } else {
        var sql, next := ReadStatement(s, pos);
        if next < 0 {
          PrependEnd(statements, "");
          return Failed;
        }
        PrependTwice(statements, [sql], Statements(s[next..]));
        statements := statements + [sql];
        StatementsSkip(s[next..]);
        pos := SkipSpaceAt(s, next);
        if pos < |s| && s[pos] == ',' {
          StatementsAt(s, pos);
          StatementsSkip(s[pos + 1..]);
          pos := SkipSpaceAt(s, pos + 1);
        }
      }
    }
    assert s[pos..] == "";
    StatementsOfNothing();
    PrependEnd(statements, "");
    return Value(statements, pos);
  }

  lemma StatementsOfNothing()
    ensures Statements("") == Ok([], "")
  {
  }
}
