/** The declaration `crea variabile x.` run through the tokenizer
    (src/lexer/lexer.test.ts:5-21), proved one round of the loop at a time. */
module LexerExamples {
  import opened Either
  import opened Errors
  import opened Lexer

  const Declaration: string := "crea variabile x."
  const File: string := "<string>"

  /** The characters of the declaration one by one; the lemmas below reason
      from these rather than from the literal. */
  predicate IsDeclaration(src: string)
  {
    |src| == 17
    && src[0] == 'c' && src[1] == 'r' && src[2] == 'e' && src[3] == 'a' && src[4] == ' '
    && src[5] == 'v' && src[6] == 'a' && src[7] == 'r' && src[8] == 'i' && src[9] == 'a'
    && src[10] == 'b' && src[11] == 'i' && src[12] == 'l' && src[13] == 'e' && src[14] == ' '
    && src[15] == 'x' && src[16] == '.'
  }

  /** No newline precedes an offset of the one-line declaration, so its line is
      1 and its column is the offset plus one. */
  lemma OnFirstLine(src: string, p: nat)
    requires IsDeclaration(src) && p <= |src|
    ensures CalcLineno(p, src) == (1, p + 1)
  {
    CalcLinenoCounts(p, src);
    var s := src[..p];
    assert '\n' !in s;
    assert '\n' !in multiset(s);
  }

  /** The keyword rows pick `crea` and `variabile`. */
  lemma KeywordRounds(src: string)
    requires IsDeclaration(src)
    ensures TableMatch(src[0..]) == Some((Create, 4))
    ensures TableMatch(src[5..]) == Some((Variable, 9))
  {
    var s0 := src[0..];
    RunEndIs(s0, 0, WordChars, 4);
    KeywordWins(s0, Create);
    var s1 := src[5..];
    RunEndIs(s1, 0, WordChars, 9);
    KeywordWins(s1, Variable);
  }

  /** `x.` is an identifier of length one. */
  lemma IdentifierRound(src: string)
    requires IsDeclaration(src)
    ensures TableMatch(src[15..]) == Some((Identifier, 1))
  {
    var s := src[15..];
    assert s == "x.";
    RunEndIs(s, 0, WordChars, 1);
    assert LeadingWord(s) == "x";
    forall t: TokenType | IsKeywordKind(t) ensures LeadingWord(s) != KeywordText(t) {
      KeywordShape(t);
    }
    IdentifierFallback(s);
    FirstMatchIsFirst(s, 0);
    RunEndIs(s, 1, WordChars, 1);
    assert MatchIdentifier(s) == Some(1);
  }

  /** `.` ends the sentence. */
  lemma StopRound(src: string)
    requires IsDeclaration(src)
    ensures TableMatch(src[16..]) == Some((EndOfSentence, 1))
  {
    var e := src[16..];
    assert e == ".";
    forall u: TokenType | Rank(u) < Rank(EndOfSentence) ensures MatchPattern(u, e).None? {
      if IsKeywordKind(u) {
        KeywordShape(u);
      }
    }
    FirstMatchPicks(e, 0, EndOfSentence, 1);
  }

  const T0: Token := Token(Create, "crea", 1, 1, File, None)
  const T1: Token := Token(Variable, "variabile", 1, 6, File, None)
  const T2: Token := Token(Identifier, "x", 1, 16, File, None)
  const T3: Token := Token(EndOfSentence, ".", 1, 17, File, None)

  /** Round one cuts off `crea`. */
  lemma CreateCut(src: string, whole: Either<seq<Token>, QError>)
    requires IsDeclaration(src) && Continues(TableMatch, src, File, whole, [], 0)
    ensures Continues(TableMatch, src, File, whole, [T0], 4)
  {
    KeywordRounds(src);
    RunEndIs(src, 0, Whitespace, 0);
    OnFirstLine(src, 0);
    assert src[0..4] == T0.value;
    LexStepToken(TableMatch, src, File, whole, [], 0, 0, T0);
    assert [] + [T0] == [T0];
  }

  /** Round two skips a space and cuts off `variabile`. */
  lemma VariableCut(src: string, whole: Either<seq<Token>, QError>)
    requires IsDeclaration(src) && Continues(TableMatch, src, File, whole, [T0], 4)
    ensures Continues(TableMatch, src, File, whole, [T0, T1], 14)
  {
    KeywordRounds(src);
    RunEndIs(src, 4, Whitespace, 5);
    OnFirstLine(src, 5);
    assert src[5..14] == T1.value;
    LexStepToken(TableMatch, src, File, whole, [T0], 4, 5, T1);
    assert [T0] + [T1] == [T0, T1];
  }

  /** Round three skips a space and cuts off `x`. */
  lemma NameCut(src: string, whole: Either<seq<Token>, QError>)
    requires IsDeclaration(src) && Continues(TableMatch, src, File, whole, [T0, T1], 14)
    ensures Continues(TableMatch, src, File, whole, [T0, T1, T2], 16)
  {
    IdentifierRound(src);
    RunEndIs(src, 14, Whitespace, 15);
    OnFirstLine(src, 15);
    assert src[15..16] == T2.value;
    LexStepToken(TableMatch, src, File, whole, [T0, T1], 14, 15, T2);
    assert [T0, T1] + [T2] == [T0, T1, T2];
  }

  /** Round four cuts off the full stop. */
  lemma StopCut(src: string, whole: Either<seq<Token>, QError>)
    requires IsDeclaration(src) && Continues(TableMatch, src, File, whole, [T0, T1, T2], 16)
    ensures Continues(TableMatch, src, File, whole, [T0, T1, T2, T3], 17)
  {
    StopRound(src);
    RunEndIs(src, 16, Whitespace, 16);
    OnFirstLine(src, 16);
    assert src[16..17] == T3.value;
    LexStepToken(TableMatch, src, File, whole, [T0, T1, T2], 16, 16, T3);
    assert [T0, T1, T2] + [T3] == [T0, T1, T2, T3];
  }

  /** The four rounds and the end of the input, for any string with the
      declaration's characters. */
  lemma DeclarationRun(src: string)
    requires IsDeclaration(src)
    ensures Lex(src, File) == Ok([T0, T1, T2, T3])
  {
    LexStarts(src, File);
    CreateCut(src, Lex(src, File));
    VariableCut(src, Lex(src, File));
    NameCut(src, Lex(src, File));
    StopCut(src, Lex(src, File));
    LexDone(TableMatch, src, File, Lex(src, File), [T0, T1, T2, T3]);
  }

  /** `crea variabile x.` lexes to exactly four tokens: `crea`, `variabile`,
      the identifier `x` and the full stop, all on line 1. */
  lemma DeclarationLexes()
    ensures Lex(Declaration, File) == Ok([
      Token(Create, "crea", 1, 1, File, None),
      Token(Variable, "variabile", 1, 6, File, None),
      Token(Identifier, "x", 1, 16, File, None),
      Token(EndOfSentence, ".", 1, 17, File, None)])
  {
    DeclarationRun(Declaration);
  }
}
