/**
 What the translation of an index filter writes for single words (translateFilterExpr in
 internal/source/mssql/metadata.go).
 */
module FilterWords {
  import opened Text
  import opened FilterText

  /** The keyword in capital and small letters, mixed at will. */
  predicate Spells(word: string, kw: string) {
    |word| == |kw| && forall i | 0 <= i < |kw| :: CaseOf(word[i], kw[i])
  }

  predicate Blank(rest: string) { rest != "" && (rest[0] == ' ' || rest[0] == '\t') }

  /** The keyword, followed by what must follow it. */
  predicate IsKeyword(kw: string, rest: string) {
    || (kw in {"AND", "OR", "BETWEEN", "NOT"} && Blank(rest))
    || (kw == "IN" && (Blank(rest) || (rest != "" && rest[0] == '(')))
    || kw == "IS NULL" || kw == "IS NOT NULL"
    || (kw == "NULL" && (rest == "" || Blank(rest) || rest[0] == ')' || rest[0] == ','))
  }

  lemma PrefixSpelled(word: string, kw: string, rest: string)
    requires Spells(word, kw)
    ensures HasPrefixFold(word + rest, kw)
  {
    FoldIsCase(word + rest, kw);
  }

  lemma SpaceSpelled(word: string, kw: string, rest: string)
    requires Spells(word, kw) && Blank(rest)
    ensures SpaceAfter(word + rest, kw)
  {
    var t := word + rest;
    FoldIsCase(t, kw + " ");
    FoldIsCase(t, kw + "\t");
    assert t[|kw|] == rest[0];
  }

  /** A keyword with a letter that is not there does not stand at the front. */
  lemma OtherLetter(t: string, kw: string, i: nat)
    requires i < |kw| && (|t| <= i || !CaseOf(t[i], kw[i]))
    ensures !HasPrefixFold(t, kw) && !SpaceAfter(t, kw)
  {
    FoldIsCase(t, kw);
    FoldIsCase(t, kw + " ");
    FoldIsCase(t, kw + "\t");
    assert (kw + " ")[i] == kw[i] && (kw + "\t")[i] == kw[i];
  }

  lemma InParen(t: string)
    ensures HasPrefixFold(t, "IN(") ==> HasPrefixFold(t, "IN")
  {
  }

  /** The keywords by their first two letters. */
  lemma LettersApart(t: string, kw: string)
    requires kw in {"AND", "OR", "IS NULL", "IS NOT NULL", "IN", "BETWEEN", "NULL", "NOT"}
    requires |t| >= 2 && CaseOf(t[0], kw[0]) && CaseOf(t[1], kw[1])
    ensures kw != "AND" ==> !SpaceAfter(t, "AND")
    ensures kw != "OR" ==> !SpaceAfter(t, "OR")
    ensures kw != "IS NULL" && kw != "IS NOT NULL" ==> !HasPrefixFold(t, "IS NULL") && !HasPrefixFold(t, "IS NOT NULL")
    ensures kw != "IN" ==> !SpaceAfter(t, "IN") && !HasPrefixFold(t, "IN(")
    ensures kw != "BETWEEN" ==> !SpaceAfter(t, "BETWEEN")
    ensures kw != "NULL" ==> !NullAhead(t)
    ensures kw != "NOT" ==> !SpaceAfter(t, "NOT")
  {
    InParen(t);
    hide HasPrefixFold, SpaceAfter;
    if kw != "AND" { OtherLetter(t, "AND", 0); }
    if kw != "OR" { OtherLetter(t, "OR", 0); }
    if kw != "IS NULL" && kw != "IS NOT NULL" {
      var i := if kw == "IN" then 1 else 0;
      OtherLetter(t, "IS NULL", i);
      OtherLetter(t, "IS NOT NULL", i);
    }
    if kw != "IN" { OtherLetter(t, "IN", if kw == "IS NULL" || kw == "IS NOT NULL" then 1 else 0); }
    if kw != "BETWEEN" { OtherLetter(t, "BETWEEN", 0); }
    if kw != "NULL" { OtherLetter(t, "NULL", if kw == "NOT" then 1 else 0); }
    if kw != "NOT" { OtherLetter(t, "NOT", if kw == "NULL" then 1 else 0); }
  }

  lemma KeywordAhead(word: string, kw: string, rest: string)
    requires kw in {"AND", "OR", "IS NULL", "IS NOT NULL", "IN", "BETWEEN", "NULL", "NOT"}
    requires Spells(word, kw) && IsKeyword(kw, rest)
    ensures Keyword(word + rest) == kw
  {
    var t := word + rest;
    assert t[0] == word[0] && t[1] == word[1];
    LettersApart(t, kw);
    PrefixSpelled(word, kw, rest);
    if Blank(rest) {
      SpaceSpelled(word, kw, rest);
    }
    if kw == "IS NOT NULL" {
      assert t[4] == word[4] && CaseOf(t[4], 'O');
      OtherLetter(t, "IS NULL", 4);
    }
    if kw == "IN" && !Blank(rest) {
      assert t[2] == '(';
      FoldIsCase(t, "IN(");
    }
    if kw == "NULL" && rest != "" {
      assert t[4] == rest[0];
    }
    hide HasPrefixFold, SpaceAfter, Spells;
  }

  lemma CapitalsOf(kw: string)
    requires kw in {"AND", "OR", "IS NULL", "IS NOT NULL", "IN", "BETWEEN", "NULL", "NOT"}
    ensures |kw| >= 2 && 'A' <= kw[0] <= 'Z'
  {
  }

  lemma KeyWalks(t: string, kw: string, rest: string)
    requires t != "" && t[0] !in {'(', ' ', '\t'} && kw != "" && Keyword(t) == kw && |kw| <= |t| && t[|kw|..] == rest
    ensures Walk(t) == kw + Walk(rest)
  {
    hide Keyword;
    assert NextPiece(t) == Key(kw);
    PieceFits(t);
  }

  /** A keyword in any case is written in capitals. */
  lemma KeywordWritten(word: string, kw: string, rest: string)
    requires kw in {"AND", "OR", "IS NULL", "IS NOT NULL", "IN", "BETWEEN", "NULL", "NOT"}
    requires Spells(word, kw) && IsKeyword(kw, rest)
    ensures Walk(word + rest) == kw + Walk(rest)
  {
    KeywordAhead(word, kw, rest);
    CapitalsOf(kw);
    assert CaseOf(word[0], kw[0]);
    assert (word + rest)[|kw|..] == rest;
    hide Keyword, Walk, IsKeyword;
    KeyWalks(word + rest, kw, rest);
  }

  // ----- Other words -----

  /** An ASCII letter or the underscore, by its code. */
  predicate Letter(c: char) {
    var n := c as int;
    65 <= n <= 90 || 97 <= n <= 122 || n == 95
  }

  predicate WordChar(c: char) { Letter(c) || 48 <= c as int <= 57 }

  /** A word up to its end, which is no keyword nor starts one. */
  predicate OtherWord(w: string, rest: string) {
    && w != "" && Letter(w[0]) && (forall i | 0 <= i < |w| :: WordChar(w[i]))
    && (rest == "" || !WordChar(rest[0]))
    && forall kw <- {"AND", "OR", "IN", "IS", "BETWEEN", "NULL", "NOT"} :: !Spells(w, kw)
  }

  lemma IdentIs(c: char)
    ensures WordChar(c) <==> IsIdentPart(c)
    ensures Letter(c) <==> IsIdentStart(c)
  {
  }

  /** The word is what stands before the first character that belongs to no word. */
  lemma Boundary(w: string, rest: string)
    requires (forall i | 0 <= i < |w| :: IsIdentPart(w[i])) && (rest == "" || !IsIdentPart(rest[0]))
    ensures forall i | 0 <= i < |w| :: IsIdentPart((w + rest)[i])
    ensures |w| < |w + rest| ==> !IsIdentPart((w + rest)[|w|])
  {
  }

  /** A keyword at the front, followed by something else than a letter, is the whole word. */
  lemma WholeWord(w: string, rest: string, kw: string)
    requires (forall i | 0 <= i < |w| :: IsIdentPart(w[i])) && (rest == "" || !IsIdentPart(rest[0]))
    requires forall i | 0 <= i < |kw| :: 'A' <= kw[i] <= 'Z'
    requires HasPrefixFold(w + rest, kw) && (|w + rest| == |kw| || !IsIdentPart((w + rest)[|kw|]))
    ensures Spells(w, kw)
  {
    var t := w + rest;
    FoldIsCase(t, kw);
    Boundary(w, rest);
    assert forall i | 0 <= i < |kw| :: IsIdentPart(t[i]);
    assert |w| == |kw|;
    assert forall i | 0 <= i < |kw| :: t[i] == w[i];
  }

  /** The word is not the keyword, so the keyword does not stand at the front with a delimiter after it. */
  lemma NotThis(w: string, rest: string, kw: string, more: string)
    requires (forall i | 0 <= i < |w| :: IsIdentPart(w[i])) && (rest == "" || !IsIdentPart(rest[0]))
    requires (forall i | 0 <= i < |kw| :: 'A' <= kw[i] <= 'Z') && !Spells(w, kw)
    requires more != "" && !IsIdentPart(more[0])
    ensures !HasPrefixFold(w + rest, kw + more)
  {
    var t := w + rest;
    if HasPrefixFold(t, kw + more) {
      LongerFolds(t, kw, more);
      FoldIsCase(t, kw + more);
      assert CaseOf(t[|kw|], more[0]);
      WholeWord(w, rest, kw);
    }
  }

  lemma LongerFolds(t: string, kw: string, more: string)
    requires HasPrefixFold(t, kw + more) && more != ""
    ensures HasPrefixFold(t, kw) && |t| > |kw| && Upper(t[|kw|]) == Upper(more[0])
  {
    assert (kw + more)[|kw|] == more[0];
    assert forall i | 0 <= i < |kw| :: (kw + more)[i] == kw[i];
  }

  lemma NoSpaceAfter(w: string, rest: string, kw: string)
    requires (forall i | 0 <= i < |w| :: IsIdentPart(w[i])) && (rest == "" || !IsIdentPart(rest[0]))
    requires (forall i | 0 <= i < |kw| :: 'A' <= kw[i] <= 'Z') && !Spells(w, kw)
    ensures !SpaceAfter(w + rest, kw)
  {
    NotThis(w, rest, kw, " ");
    NotThis(w, rest, kw, "\t");
  }

  lemma NoNull(w: string, rest: string)
    requires (forall i | 0 <= i < |w| :: IsIdentPart(w[i])) && (rest == "" || !IsIdentPart(rest[0]))
    requires !Spells(w, "NULL")
    ensures !NullAhead(w + rest)
  {
    if NullAhead(w + rest) {
      WholeWord(w, rest, "NULL");
    }
  }

  lemma NoKeyword(w: string, rest: string)
    requires OtherWord(w, rest)
    ensures Keyword(w + rest) == ""
  {
    forall i | 0 <= i < |w|
      ensures IsIdentPart(w[i])
    {
      IdentIs(w[i]);
    }
    if rest != "" {
      IdentIs(rest[0]);
    }
    hide HasPrefixFold, SpaceAfter, NullAhead, Spells, IsIdentPart;
    NoSpaceAfter(w, rest, "AND");
    NoSpaceAfter(w, rest, "OR");
    assert !IsIdentPart(' ') && !IsIdentPart('(') by { IdentIs(' '); IdentIs('('); }
    NotThis(w, rest, "IS", " NULL");
    NotThis(w, rest, "IS", " NOT NULL");
    assert "IS" + " NULL" == "IS NULL" && "IS" + " NOT NULL" == "IS NOT NULL" && "IN" + "(" == "IN(";
    NoSpaceAfter(w, rest, "IN");
    NotThis(w, rest, "IN", "(");
    NoSpaceAfter(w, rest, "BETWEEN");
    NoNull(w, rest);
    NoSpaceAfter(w, rest, "NOT");
  }

  lemma RunIs(w: string, rest: string)
    requires (forall i | 0 <= i < |w| :: IsIdentPart(w[i])) && (rest == "" || !IsIdentPart(rest[0]))
    ensures Run(w + rest, IdentPart()) == |w|
  {
    Boundary(w, rest);
  }

  /** A word that is no keyword is written as it is, and not searched for keywords. */
  lemma WordCopied(w: string, rest: string)
    requires OtherWord(w, rest)
    ensures Walk(w + rest) == w + Walk(rest)
  {
    var t := w + rest;
    NoKeyword(w, rest);
    IdentIs(w[0]);
    forall i | 0 <= i < |w|
      ensures IsIdentPart(w[i])
    {
      IdentIs(w[i]);
    }
    if rest != "" {
      IdentIs(rest[0]);
    }
    RunIs(w, rest);
    assert t[0] == w[0] && t[..|w|] == w && t[|w|..] == rest;
    hide Keyword, OtherWord, Walk;
    WordPiece(t, |w|);
    CopyWalks(t, w, rest);
  }

  lemma WordPiece(t: string, n: nat)
    requires t != "" && IsIdentStart(t[0]) && Keyword(t) == "" && Run(t, IdentPart()) == n
    ensures NextPiece(t) == Copied(n) && t[0] != '('
  {
    hide Keyword, Run;
    assert Operator(t) == "";
  }

  lemma CopyWalks(t: string, w: string, rest: string)
    requires t != "" && t[0] != '(' && NextPiece(t) == Copied(|w|) && t == w + rest
    ensures Walk(t) == w + Walk(rest)
  {
    PieceFits(t);
    hide NextPiece;
    assert t[..|w|] == w && t[|w|..] == rest;
  }
}
