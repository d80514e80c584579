/** The tokenizer of src/lexer/index.ts. `Tokenize` is the imperative loop of
    `Lexer.tokenize`; `Lex` is the specification it is proved against, and the
    lemmas below state what the source promises about `Lex`.

    Every regular expression of the ordered pattern table is written out as a
    prefix matcher that returns the length of the match, following the way
    JavaScript's backtracking matcher picks its first successful match. */
module Lexer {
  import opened Either
  import opened Errors
  import Numbers

  datatype TokenType =
    | Create | Variable | Assign | Define | Return | If | Else | Then | For | While
    | Do | New | From | To | Inherit | EndOfBlock | NumericLiteral | StringLiteral
    | Identifier | EndOfSentence | Note | With | And | Import | Unknown
    | SpecialVariable | SpecialUnaryOp | SpecialBinaryOp

  /** A token. `definedAt` is set only on the tagged tokens that identifier
      resolution produces: it is the token that declared the name. */
  datatype Token = Token(
    kind: TokenType,
    value: string,
    line: int,
    column: int,
    file: string,
    definedAt: Option<Token>)

  // ---------------------------------------------------------------------------
  // Character classes, as JavaScript regular expressions without the `u` flag
  // see them.

  predicate IsAsciiLetter(c: char) { 'a' <= c <= 'z' || 'A' <= c <= 'Z' }

  /** `\w`, the characters the word boundary `\b` looks at. */
  predicate IsWordChar(c: char) { IsAsciiLetter(c) || Numbers.IsDigit(c) || c == '_' }

  /** `[a-z_]` under the `i` flag. */
  predicate IsIdentStart(c: char) { IsAsciiLetter(c) || c == '_' }

  /** `[a-z0-9]` under the `i` flag. */
  predicate IsAlnum(c: char) { IsAsciiLetter(c) || Numbers.IsDigit(c) }

  /** `[\d_]`. */
  predicate IsDigitOrUnderscore(c: char) { Numbers.IsDigit(c) || c == '_' }

  /** `\s`, which is also what `trimStart` removes: the ECMAScript white space and
      line terminator characters. */
  predicate IsWhitespace(c: char) {
    var n := c as int;
    n == 0x09 || n == 0x0A || n == 0x0B || n == 0x0C || n == 0x0D || n == 0x20
    || n == 0xA0 || n == 0x1680 || (0x2000 <= n <= 0x200A) || n == 0x2028
    || n == 0x2029 || n == 0x202F || n == 0x205F || n == 0x3000 || n == 0xFEFF
  }

  /** `\b` at position `k` of `s`: exactly one of the characters around it is a
      word character (outside the string there are none). */
  predicate Boundary(s: string, k: nat)
    requires k <= |s|
  {
    (k > 0 && IsWordChar(s[k - 1])) != (k < |s| && IsWordChar(s[k]))
  }

  /** The character classes that the patterns repeat. */
  datatype CharClass = Whitespace | Digits | DigitsOrUnderscores | WordChars | Alnums | NotQuotes

  predicate InClass(p: CharClass, c: char)
  {
    match p
    case Whitespace => IsWhitespace(c)
    case Digits => Numbers.IsDigit(c)
    case DigitsOrUnderscores => IsDigitOrUnderscore(c)
    case WordChars => IsWordChar(c)
    case Alnums => IsAlnum(c)
    case NotQuotes => c != '"'
  }

  /** The end of the longest run of characters of class `p` that starts at `i`:
      a greedy `p*`. */
  function RunEnd(s: string, i: nat, p: CharClass): (j: nat)
    requires i <= |s|
    ensures i <= j <= |s|
    ensures j < |s| ==> !InClass(p, s[j])
    decreases |s| - i
  {
    if i < |s| && InClass(p, s[i]) then RunEnd(s, i + 1, p) else i
  }

  /** Every character the run covers is of the class. */
  lemma {:induction false} RunEndCovers(s: string, i: nat, p: CharClass)
    requires i <= |s|
    ensures forall k :: i <= k < RunEnd(s, i, p) ==> InClass(p, s[k])
    decreases |s| - i
  {
    if i < |s| && InClass(p, s[i]) {
      RunEndCovers(s, i + 1, p);
    }
  }

  // ---------------------------------------------------------------------------
  // The matchers. Each returns the length of the match at the start of `s`.

  /** `/^kw\b/`. */
  function MatchKeyword(s: string, kw: string): (r: Option<nat>)
    requires |kw| > 0
    ensures r.Some? ==> r.value == |kw| <= |s| && s[..|kw|] == kw
  {
    if |kw| <= |s| && s[..|kw|] == kw && Boundary(s, |kw|) then Some(|kw|) else None
  }

  /** `/^huc finis est(?:\.|,)/`. */
  function MatchEndOfBlock(s: string): (r: Option<nat>)
    ensures r.Some? ==> r.value == 14 <= |s|
  {
    if 14 <= |s| && s[..13] == "huc finis est" && (s[13] == '.' || s[13] == ',') then Some(14)
    else None
  }

  /** The optional exponent `(?:[eE][+-]?\d+)?` from position `b`: it is taken
      only when at least one digit follows the sign. */
  function ExponentEnd(s: string, b: nat): (e: nat)
    requires b <= |s|
    ensures b <= e <= |s|
  {
    if b < |s| && (s[b] == 'e' || s[b] == 'E') then
      if b + 1 < |s| && Numbers.IsDigit(s[b + 1]) then RunEnd(s, b + 1, Digits)
      else if b + 2 < |s| && (s[b + 1] == '+' || s[b + 1] == '-') && Numbers.IsDigit(s[b + 2]) then
        RunEnd(s, b + 2, Digits)
      else b
    else b
  }

  /** `/^[\d_]+(?:\.[\d_]+)?(?:[eE][+-]?\d+)?|^\.\d+/`. Every part after the
      first run is optional, so the greedy first run is never given back; a bare
      `_` is a numeric literal. */
  function MatchNumeric(s: string): (r: Option<nat>)
    ensures r.Some? ==> 0 < r.value <= |s|
  {
    if |s| > 0 && IsDigitOrUnderscore(s[0]) then
      var a := RunEnd(s, 0, DigitsOrUnderscores);
      var b := if a + 1 < |s| && s[a] == '.' && IsDigitOrUnderscore(s[a + 1])
               then RunEnd(s, a + 1, DigitsOrUnderscores) else a;
      Some(ExponentEnd(s, b))
    else if 1 < |s| && s[0] == '.' && Numbers.IsDigit(s[1]) then
      Some(RunEnd(s, 1, Digits))
    else
      None
  }

  /** `/^"[^"]*"/`: up to and including the first closing quote. */
  function MatchString(s: string): (r: Option<nat>)
    ensures r.Some? ==> 2 <= r.value <= |s| && s[0] == '"' && s[r.value - 1] == '"'
  {
    if |s| > 0 && s[0] == '"' then
      var q := RunEnd(s, 1, NotQuotes);
      if q < |s| then Some(q + 1) else None
    else
      None
  }

  /** `/^(?:\.|,)/`. */
  function MatchEndOfSentence(s: string): (r: Option<nat>)
    ensures r.Some? ==> r.value == 1 <= |s|
  {
    if |s| > 0 && (s[0] == '.' || s[0] == ',') then Some(1) else None
  }

  /** The dotted segments `(?:\.[a-z_][a-z0-9]*)*\b` of an identifier, from
      position `p`. A segment's `[a-z0-9]*` only ever ends at a word character
      if it stops early, where neither a further segment nor `\b` can follow, so
      each segment is taken in full; the greedy `*` first tries one more
      segment and gives it back only when the rest fails. */
  function IdentifierTail(s: string, p: nat): (r: Option<nat>)
    requires p <= |s|
    ensures r.Some? ==> p <= r.value <= |s| && Boundary(s, r.value)
    decreases |s| - p
  {
    if p + 1 < |s| && s[p] == '.' && IsIdentStart(s[p + 1]) then
      var deeper := IdentifierTail(s, RunEnd(s, p + 2, Alnums));
      if deeper.Some? then deeper else if Boundary(s, p) then Some(p) else None
    else if Boundary(s, p) then Some(p)
    else None
  }

  /** `/^[a-z_][a-z0-9_]*(?:\.[a-z_][a-z0-9]*)*\b/i`. The first run is taken to
      its greedy end, where a word boundary always holds. */
  function MatchIdentifier(s: string): (r: Option<nat>)
    ensures r.Some? ==> 0 < r.value <= |s|
  {
    if |s| > 0 && IsIdentStart(s[0]) then IdentifierTail(s, RunEnd(s, 1, WordChars)) else None
  }

  /** The lazy `\S+?(?:\b|(?=[\s,.]))` from a match of length `k`: the
      shortest run of non-space characters after which a word boundary, a space,
      a comma or a full stop follows. */
  function UnknownEnd(s: string, k: nat): (r: Option<nat>)
    requires 0 < k <= |s|
    ensures r.Some? ==> k <= r.value <= |s|
    decreases |s| - k
  {
    if Boundary(s, k) || (k < |s| && (IsWhitespace(s[k]) || s[k] == ',' || s[k] == '.')) then Some(k)
    else if k < |s| && !IsWhitespace(s[k]) then UnknownEnd(s, k + 1)
    else None
  }

  /** `/^\S+?(?:\b|(?=[\s,.]))/`. */
  function MatchUnknown(s: string): (r: Option<nat>)
    ensures r.Some? ==> 0 < r.value <= |s|
  {
    if |s| > 0 && !IsWhitespace(s[0]) then UnknownEnd(s, 1) else None
  }

  /** The pattern table, in the order in which the patterns are tried. */
  const Patterns: seq<TokenType> := [
    Create, Variable, Assign, Define, Return, If, Else, Then, For, While, Do, New,
    From, To, Inherit, EndOfBlock, NumericLiteral, StringLiteral, EndOfSentence,
    Note, With, And, Import, Identifier, Unknown]

  /** The spelling of a keyword pattern, for the kinds that have one. */
  function KeywordText(t: TokenType): string
  {
    match t
    case Create => "crea"
    case Variable => "variabile"
    case Assign => "da"
    case Define => "define"
    case Return => "redi"
    case If => "si"
    case Else => "aliter"
    case Then => "tum"
    case For => "per"
    case While => "dum"
    case Do => "face"
    case New => "forma"
    case From => "ab"
    case To => "ad"
    case Inherit => "hereditat"
    case Note => "nota"
    case With => "cum"
    case And => "et"
    case Import => "profer"
    case _ => ""
  }

  predicate IsKeywordKind(t: TokenType) { KeywordText(t) != "" }

  /** The row of a kind in the table; the kinds without a pattern are past its end. */
  function Rank(t: TokenType): (k: nat)
    ensures k <= |Patterns|
  {
    match t
    case Create => 0 case Variable => 1 case Assign => 2 case Define => 3
    case Return => 4 case If => 5 case Else => 6 case Then => 7 case For => 8
    case While => 9 case Do => 10 case New => 11 case From => 12 case To => 13
    case Inherit => 14 case EndOfBlock => 15 case NumericLiteral => 16
    case StringLiteral => 17 case EndOfSentence => 18 case Note => 19
    case With => 20 case And => 21 case Import => 22 case Identifier => 23
    case Unknown => 24
    case _ => 25
  }

  lemma RankOfRow(k: nat)
    requires k < |Patterns|
    ensures Rank(Patterns[k]) == k
  {
  }

  lemma RowOfRank(t: TokenType)
    requires Rank(t) < |Patterns|
    ensures Patterns[Rank(t)] == t
  {
  }

  /** Every keyword is a non-empty word that starts with a letter, and no two
      keyword kinds share a spelling. */
  lemma KeywordShape(t: TokenType)
    requires IsKeywordKind(t)
    ensures |KeywordText(t)| >= 2 && IsAsciiLetter(KeywordText(t)[0])
    ensures forall i :: 0 <= i < |KeywordText(t)| ==> IsWordChar(KeywordText(t)[i])
    ensures Rank(t) < Rank(Identifier) && t != EndOfBlock
  {
  }

  lemma KeywordTextInjective(t: TokenType, u: TokenType)
    requires IsKeywordKind(t) && KeywordText(t) == KeywordText(u)
    ensures t == u
  {
  }

  /** The pattern of one row of the table applied to the start of `s`; the
      kinds that only identifier resolution produces have no pattern. */
  function MatchPattern(t: TokenType, s: string): (r: Option<nat>)
    ensures r.Some? ==> 0 < r.value <= |s|
  {
    if IsKeywordKind(t) then MatchKeyword(s, KeywordText(t))
    else match t
      case EndOfBlock => MatchEndOfBlock(s)
      case NumericLiteral => MatchNumeric(s)
      case StringLiteral => MatchString(s)
      case EndOfSentence => MatchEndOfSentence(s)
      case Identifier => MatchIdentifier(s)
      case Unknown => MatchUnknown(s)
      case _ => None
  }

  /** The first row of the table from row `i` on whose pattern matches `s`, with
      the length of its match. */
  function FirstMatch(s: string, i: nat): (r: Option<(TokenType, nat)>)
    requires i <= |Patterns|
    ensures r.Some? ==> 0 < r.value.1 <= |s|
    decreases |Patterns| - i, |s|
  {
    if i == |Patterns| then None
    else match MatchPattern(Patterns[i], s)
      case Some(n) => Some((Patterns[i], n))
      case None => FirstMatch(s, i + 1)
  }

  /** The first-match rule, stated without the recursion: `FirstMatch` from
      row `i` picks the kind whose pattern matches and that no matching row
      between `i` and it precedes, and finds nothing exactly when no row from
      `i` on matches. */
  lemma {:induction false} FirstMatchIsFirst(s: string, i: nat)
    requires i <= |Patterns|
    ensures forall t: TokenType, n: nat :: FirstMatch(s, i) == Some((t, n)) <==>
      (i <= Rank(t) < |Patterns| && MatchPattern(t, s) == Some(n)
       && forall u: TokenType :: i <= Rank(u) < Rank(t) ==> MatchPattern(u, s).None?)
    ensures FirstMatch(s, i).None? <==>
      forall u: TokenType :: i <= Rank(u) < |Patterns| ==> MatchPattern(u, s).None?
    decreases |Patterns| - i
  {
    if i < |Patterns| {
      FirstMatchIsFirst(s, i + 1);
      RankOfRow(i);
      var row := Patterns[i];
      forall u: TokenType | Rank(u) == i ensures u == row {
        RowOfRank(u);
      }
    }
  }

  /** The rows before `t` all fail and `t` matches, so `t` is the first match. */
  lemma {:induction false} FirstMatchPicks(s: string, i: nat, t: TokenType, n: nat)
    requires i <= Rank(t) < |Patterns| && MatchPattern(t, s) == Some(n)
    requires forall u: TokenType :: i <= Rank(u) < Rank(t) ==> MatchPattern(u, s).None?
    ensures FirstMatch(s, i) == Some((t, n))
    decreases Rank(t) - i
  {
    RankOfRow(i);
    if i == Rank(t) {
      RowOfRank(t);
    } else {
      FirstMatchPicks(s, i + 1, t, n);
    }
  }

  /** The end of a run is fixed by the run itself. */
  lemma {:induction false} RunEndIs(s: string, i: nat, p: CharClass, j: nat)
    requires i <= j <= |s|
    requires forall k :: i <= k < j ==> InClass(p, s[k])
    requires j < |s| ==> !InClass(p, s[j])
    ensures RunEnd(s, i, p) == j
    decreases j - i
  {
    if i < j {
      RunEndIs(s, i + 1, p, j);
    }
  }

  /** The leading word of `s`: its longest prefix of word characters. */
  function LeadingWord(s: string): (w: string)
    ensures |w| <= |s| && w == s[..|w|]
  {
    s[..RunEnd(s, 0, WordChars)]
  }

  /** The block terminator starts with the word `huc`, which is no keyword. */
  lemma TerminatorLeadingWord(s: string)
    requires 13 <= |s| && s[..13] == "huc finis est"
    ensures LeadingWord(s) == "huc"
  {
    var t := s[..13];
    assert s[0] == t[0] == 'h' && s[1] == t[1] == 'u' && s[2] == t[2] == 'c' && s[3] == t[3] == ' ';
    RunEndIs(s, 0, WordChars, 3);
  }

  /** `/^kw\b/` matches exactly when the leading word is the keyword. */
  lemma KeywordMatchesLeadingWord(s: string, t: TokenType)
    requires IsKeywordKind(t)
    ensures MatchKeyword(s, KeywordText(t)).Some? <==> LeadingWord(s) == KeywordText(t)
  {
    KeywordShape(t);
    WordMatchesLeadingWord(s, KeywordText(t));
  }

  lemma WordMatchesLeadingWord(s: string, kw: string)
    requires |kw| > 0 && forall i :: 0 <= i < |kw| ==> IsWordChar(kw[i])
    ensures MatchKeyword(s, kw).Some? <==> LeadingWord(s) == kw
  {
    if MatchKeyword(s, kw).Some? {
      RunEndIs(s, 0, WordChars, |kw|);
    }
    if LeadingWord(s) == kw {
      assert IsWordChar(s[|kw| - 1]);
    }
  }

  /** Between the keyword rows the table holds only the terminator, numeric,
      string and sentence-end rows before the identifier row. */
  lemma RowsBeforeIdentifier(u: TokenType)
    requires !IsKeywordKind(u) && Rank(u) < Rank(Identifier)
    ensures u == EndOfBlock || u == NumericLiteral || u == StringLiteral || u == EndOfSentence
  {
  }

  /** A word character can start none of the numeric, string and sentence-end
      patterns except, for a digit or an underscore, the numeric one. */
  lemma LetterFailsPunctuationRows(s: string, u: TokenType)
    requires |s| > 0 && IsAsciiLetter(s[0])
    requires u == NumericLiteral || u == StringLiteral || u == EndOfSentence
    ensures MatchPattern(u, s).None?
  {
  }

  /** A keyword wins exactly when it is the whole leading word: `si` lexes as
      a conditional, while a longer word that starts with `si`, being no
      keyword, reaches the identifier row. */
  lemma KeywordWins(s: string, t: TokenType)
    requires IsKeywordKind(t) && LeadingWord(s) == KeywordText(t)
    ensures FirstMatch(s, 0) == Some((t, |KeywordText(t)|))
  {
    KeywordShape(t);
    KeywordMatchesLeadingWord(s, t);
    assert s[0] == KeywordText(t)[0];
    forall u: TokenType | Rank(u) < Rank(t) ensures MatchPattern(u, s).None? {
      if IsKeywordKind(u) {
        KeywordMatchesLeadingWord(s, u);
        if LeadingWord(s) == KeywordText(u) {
          KeywordTextInjective(t, u);
        }
      } else {
        RowsBeforeIdentifier(u);
        if u == EndOfBlock {
          if MatchEndOfBlock(s).Some? {
            TerminatorLeadingWord(s);
          }
        } else {
          LetterFailsPunctuationRows(s, u);
        }
      }
    }
    FirstMatchPicks(s, 0, t, |KeywordText(t)|);
  }

  /** A word that starts with a letter and is no keyword is an identifier,
      unless it begins the block terminator `huc finis est.`. */
  lemma IdentifierFallback(s: string)
    requires |s| > 0 && IsAsciiLetter(s[0])
    requires forall t: TokenType :: IsKeywordKind(t) ==> LeadingWord(s) != KeywordText(t)
    requires MatchEndOfBlock(s).None?
    ensures FirstMatch(s, 0).Some? && FirstMatch(s, 0).value.0 == Identifier
    ensures FirstMatch(s, 0).value.1 >= |LeadingWord(s)|
  {
    forall u: TokenType | Rank(u) < Rank(Identifier) ensures MatchPattern(u, s).None? {
      if IsKeywordKind(u) {
        KeywordMatchesLeadingWord(s, u);
      } else {
        RowsBeforeIdentifier(u);
        if u != EndOfBlock {
          LetterFailsPunctuationRows(s, u);
        }
      }
    }
    IdentifierCoversLeadingWord(s);
    var n := MatchIdentifier(s).value;
    FirstMatchPicks(s, 0, Identifier, n);
  }

  /** The identifier pattern matches at least the leading word of a string
      that starts like an identifier. */
  lemma IdentifierCoversLeadingWord(s: string)
    requires |s| > 0 && IsIdentStart(s[0])
    ensures MatchIdentifier(s).Some? && MatchIdentifier(s).value >= |LeadingWord(s)|
  {
    var q := RunEnd(s, 1, WordChars);
    assert RunEnd(s, 0, WordChars) == q;
    RunEndCovers(s, 1, WordChars);
    assert IsWordChar(s[q - 1]);
    assert Boundary(s, q);
  }

  /** A leading underscore is a numeric literal: the numeric row, which comes
      first, accepts `[\d_]+`. */
  lemma UnderscoreIsNumeric(s: string)
    requires |s| > 0 && s[0] == '_'
    ensures FirstMatch(s, 0).Some? && FirstMatch(s, 0).value.0 == NumericLiteral
  {
    forall u: TokenType | Rank(u) < Rank(NumericLiteral) ensures MatchPattern(u, s).None? {
      if IsKeywordKind(u) {
        KeywordShape(u);
      }
    }
    FirstMatchPicks(s, 0, NumericLiteral, MatchNumeric(s).value);
  }

  /** `huc finis est.` and `huc finis est,` are one token. */
  lemma BlockTerminatorIsOneToken(s: string)
    requires 14 <= |s| && s[..13] == "huc finis est" && (s[13] == '.' || s[13] == ',')
    ensures FirstMatch(s, 0) == Some((EndOfBlock, 14))
  {
    TerminatorLeadingWord(s);
    forall u: TokenType | Rank(u) < Rank(EndOfBlock) ensures MatchPattern(u, s).None? {
      KeywordsBeforeTerminator(u);
      KeywordMatchesLeadingWord(s, u);
    }
    FirstMatchPicks(s, 0, EndOfBlock, 14);
  }

  /** The rows before the terminator's are keywords, none of them `huc`. */
  lemma KeywordsBeforeTerminator(u: TokenType)
    requires Rank(u) < Rank(EndOfBlock)
    ensures IsKeywordKind(u) && KeywordText(u) != "huc"
  {
    assert u.Create? || u.Variable? || u.Assign? || u.Define? || u.Return? || u.If? || u.Else? || u.Then?
      || u.For? || u.While? || u.Do? || u.New? || u.From? || u.To? || u.Inherit?;
  }

  // ---------------------------------------------------------------------------
  // Line and column numbers.

  /** `str.split("\n")`: the pieces between newlines, so there is always one
      more piece than there are newlines. */
  function Split(s: string): (lines: seq<string>)
    ensures |lines| >= 1
  {
    if s == [] then [[]]
    else
      var init := Split(s[..|s| - 1]);
      if s[|s| - 1] == '\n' then init + [[]]
      else init[..|init| - 1] + [init[|init| - 1] + [s[|s| - 1]]]
  }

  /** `calcLineno(reading, str)`: the number of lines of `str[..reading]`, and
      one more than the length of its last line. */
  function CalcLineno(reading: nat, str: string): (lc: (int, int))
    requires reading <= |str|
  {
    var lines := Split(str[..reading]);
    (|lines|, |lines[|lines| - 1]| + 1)
  }

  /** The number of characters after the last newline of `s` (all of them if
      there is none), stated without reference to `Split`. */
  predicate IsLastLineLength(s: string, n: nat)
  {
    n <= |s|
    && '\n' !in s[|s| - n..]
    && (n < |s| ==> s[|s| - n - 1] == '\n')
  }

  /** `Split` has one piece more than there are newlines. */
  lemma {:induction false} SplitCount(s: string)
    ensures |Split(s)| == multiset(s)['\n'] + 1
    decreases |s|
  {
    if s != [] {
      var init := s[..|s| - 1];
      assert s == init + [s[|s| - 1]];
      SplitCount(init);
    }
  }

  /** The last piece of `Split` is everything after the last newline. */
  lemma {:induction false} SplitLast(s: string)
    ensures LastPieceIsLastLine(s)
    decreases |s|
  {
    if s != [] {
      SplitLast(s[..|s| - 1]);
      SplitLastStep(s);
    }
  }

  predicate LastPieceIsLastLine(s: string)
  {
    var last := Split(s)[|Split(s)| - 1];
    IsLastLineLength(s, |last|) && last == s[|s| - |last|..]
  }

  lemma SplitLastStep(s: string)
    requires s != [] && LastPieceIsLastLine(s[..|s| - 1])
    ensures LastPieceIsLastLine(s)
  {
    InitAndLast(s);
    if s[|s| - 1] == '\n' {
      NewlineStartsLine(s[..|s| - 1]);
    } else {
      CharacterLengthensLine(s[..|s| - 1], s[|s| - 1]);
    }
  }

  lemma NewlineStartsLine(init: string)
    ensures LastPieceIsLastLine(init + ['\n'])
  {
    var s := init + ['\n'];
    SplitSnoc(init, '\n');
    var q := Split(s);
    assert q[|q| - 1] == [];
    assert s[|s|..] == [];
  }

  lemma CharacterLengthensLine(init: string, c: char)
    requires c != '\n' && LastPieceIsLastLine(init)
    ensures LastPieceIsLastLine(init + [c])
  {
    var s := init + [c];
    var pieces := Split(init);
    var last := pieces[|pieces| - 1];
    SplitSnoc(init, c);
    LastLineSnoc(init, c, last);
    var longer := last + [c];
    var q := Split(s);
    assert q[|q| - 1] == longer;
    assert s[|s| - |longer|..] == longer;
  }

  lemma InitAndLast(s: string)
    requires s != []
    ensures s[..|s| - 1] + [s[|s| - 1]] == s
  {
  }

  /** `Split` after one more character: a newline starts a new piece, any
      other character lengthens the last. */
  lemma SplitSnoc(init: string, c: char)
    ensures var pieces := Split(init);
      Split(init + [c]) == if c == '\n' then pieces + [[]] else pieces[..|pieces| - 1] + [pieces[|pieces| - 1] + [c]]
  {
    var s := init + [c];
    assert s[..|s| - 1] == init && s[|s| - 1] == c;
  }

  /** One more character after a last line `last`: a newline starts an empty
      last line, any other character lengthens it. */
  lemma LastLineSnoc(init: string, c: char, last: string)
    requires IsLastLineLength(init, |last|) && last == init[|init| - |last|..]
    ensures c == '\n' ==> IsLastLineLength(init + [c], 0)
    ensures c != '\n' ==>
      IsLastLineLength(init + [c], |last| + 1) && last + [c] == (init + [c])[|init| - |last|..]
  {
    var s := init + [c];
    if c != '\n' {
      assert s[|s| - |last| - 1..] == last + [c];
      if |last| + 1 < |s| {
        assert s[|s| - |last| - 2] == init[|init| - |last| - 1];
      }
    }
  }

  /** A token's line is one more than the newlines before it and its column one
      more than the characters since the last of them; both are at least 1. */
  lemma CalcLinenoCounts(reading: nat, str: string)
    requires reading <= |str|
    ensures CalcLineno(reading, str).0 == multiset(str[..reading])['\n'] + 1
    ensures IsLastLineLength(str[..reading], CalcLineno(reading, str).1 - 1)
    ensures CalcLineno(reading, str).0 >= 1 && CalcLineno(reading, str).1 >= 1
  {
    SplitCount(str[..reading]);
    SplitLast(str[..reading]);
  }

  // ---------------------------------------------------------------------------
  // The specification of the tokenizer.
  //
  // The loop is stated for any matcher that proposes the kind and the length
  // of the token at the start of the remaining input; `Lex` fixes the matcher
  // to the pattern table. A proposal that is empty or longer than the input
  // counts as no match; the table never makes one (`TableMatch`). The lemmas
  // about the shape of the token list hold for every matcher.

  /** A matcher: the kind and the length of the token that starts the input,
      or `None`. */
  type RowMatcher = string -> Option<(TokenType, nat)>

  /** The pattern table as a matcher: its first matching row. */
  function TableMatch(s: string): (r: Option<(TokenType, nat)>)
    ensures r.Some? ==> 0 < r.value.1 <= |s| && Rank(r.value.0) < |Patterns|
  {
    FirstMatchHasRow(s, 0);
    FirstMatch(s, 0)
  }

  function TrimStart(s: string): (r: string)
    ensures |r| <= |s| && r == s[|s| - |r|..]
  {
    s[RunEnd(s, 0, Whitespace)..]
  }

  function SyntaxErrorAt(src: string, p: nat, file: string): QError
    requires p < |src|
  {
    var (line, column) := CalcLineno(p, src);
    Error(SyntaxError, "unknown character '" + [src[p]] + "'", line, column, Some(file))
  }

  /** The token that the matcher cuts off at offset `p`, with its line and
      column; `None` when it proposes nothing usable. */
  function NextToken(m: RowMatcher, src: string, p: nat, file: string): (r: Option<Token>)
    requires p < |src|
    ensures r.Some? ==> 0 < |r.value.value| <= |src| - p && r.value.value == src[p..p + |r.value.value|]
  {
    match m(src[p..])
    case None => None
    case Some(k) =>
      if 0 < k.1 <= |src| - p then
        var lc := CalcLineno(p, src);
        Some(Token(k.0, src[p..p + k.1], lc.0, lc.1, file, None))
      else None
  }

  /** What tokenizing `src` from offset `pos` on yields: skip white space; at
      the end of the input stop with the tokens so far, otherwise go on at the
      first remaining character. */
  function LexFrom(m: RowMatcher, src: string, pos: nat, file: string): (r: Either<seq<Token>, QError>)
    requires pos <= |src|
    decreases |src| - pos, 1
  {
    var p := RunEnd(src, pos, Whitespace);
    if p == |src| then Ok([]) else LexAt(m, src, p, file)
  }

  /** Tokenizing from a character that is not white space: emit the token the
      matcher cuts off and continue after it, or fail when there is none. */
  function LexAt(m: RowMatcher, src: string, p: nat, file: string): (r: Either<seq<Token>, QError>)
    requires p < |src|
    decreases |src| - p, 0
  {
    match NextToken(m, src, p, file)
    case None => Err(SyntaxErrorAt(src, p, file))
    case Some(tok) => Prepend([tok], LexFrom(m, src, p + |tok.value|, file))
  }

  /** `Lexer.tokenize` on the whole input: the loop with the pattern table. */
  function Lex(input: string, fileName: string): Either<seq<Token>, QError>
  {
    LexFrom(TableMatch, input, 0, fileName)
  }

  function Prepend(tokens: seq<Token>, r: Either<seq<Token>, QError>): Either<seq<Token>, QError>
  {
    match r
    case Ok(rest) => Ok(tokens + rest)
    case Err(e) => Err(e)
  }

  /** The table's proposals are always usable: the token the loop cuts off is
      the first matching row's, and there is none exactly when no row matches. */
  lemma TableNextToken(src: string, p: nat, file: string)
    requires p < |src|
    ensures NextToken(TableMatch, src, p, file).None? <==> FirstMatch(src[p..], 0).None?
    ensures FirstMatch(src[p..], 0).Some? ==>
      var k := FirstMatch(src[p..], 0).value;
      NextToken(TableMatch, src, p, file)
        == Some(Token(k.0, src[p..p + k.1], CalcLineno(p, src).0, CalcLineno(p, src).1, file, None))
  {
  }

  /** The invariant of the loop of `Tokenize`: the whole result `whole` is
      the tokens emitted so far followed by what the run from `pos` yields. */
  ghost predicate Continues(m: RowMatcher, src: string, file: string, whole: Either<seq<Token>, QError>,
                            tokens: seq<Token>, pos: nat)
  {
    pos <= |src| && whole == Prepend(tokens, LexFrom(m, src, pos, file))
  }

  /** A round of the loop of `Tokenize` that finds only white space left. */
  lemma LexFromEnds(m: RowMatcher, src: string, file: string, whole: Either<seq<Token>, QError>,
                    tokens: seq<Token>, before: nat)
    requires before <= |src| && RunEnd(src, before, Whitespace) == |src|
    requires Continues(m, src, file, whole, tokens, before)
    ensures Continues(m, src, file, whole, tokens, |src|)
  {
    assert LexFrom(m, src, |src|, file) == Ok([]);
    assert tokens + [] == tokens;
  }

  /** The loop of `Tokenize` leaving at the end of the input. */
  lemma LexDone(m: RowMatcher, src: string, file: string, whole: Either<seq<Token>, QError>, tokens: seq<Token>)
    requires Continues(m, src, file, whole, tokens, |src|)
    ensures whole == Ok(tokens)
  {
    assert LexFrom(m, src, |src|, file) == Ok([]);
    assert tokens + [] == tokens;
  }

  /** A round of the loop of `Tokenize` that skips white space up to `p` and
      cuts off the token `tok` that the matcher proposes there. */
  lemma LexStepToken(m: RowMatcher, src: string, file: string, whole: Either<seq<Token>, QError>,
                     tokens: seq<Token>, before: nat, p: nat, tok: Token)
    requires before <= |src| && p == RunEnd(src, before, Whitespace) && p < |src|
    requires m(src[p..]) == Some((tok.kind, |tok.value|)) && 0 < |tok.value| <= |src| - p
    requires tok.value == src[p..p + |tok.value|] && (tok.line, tok.column) == CalcLineno(p, src)
    requires tok.file == file && tok.definedAt.None?
    requires Continues(m, src, file, whole, tokens, before)
    ensures Continues(m, src, file, whole, tokens + [tok], p + |tok.value|)
  {
    assert LexFrom(m, src, before, file) == LexAt(m, src, p, file);
    assert NextToken(m, src, p, file) == Some(tok);
    PrependPrepend(tokens, [tok], LexFrom(m, src, p + |tok.value|, file));
  }

  /** A round of the loop of `Tokenize` that skips white space up to `p`,
      where the matcher proposes nothing: the result is the syntax error there. */
  lemma LexStepFails(m: RowMatcher, src: string, file: string, whole: Either<seq<Token>, QError>,
                     tokens: seq<Token>, before: nat, p: nat)
    requires before <= |src| && p == RunEnd(src, before, Whitespace) && p < |src|
    requires m(src[p..]).None?
    requires Continues(m, src, file, whole, tokens, before)
    ensures whole == Err(SyntaxErrorAt(src, p, file))
  {
    assert LexFrom(m, src, before, file) == LexAt(m, src, p, file);
  }

  /** The loop of `Tokenize` before its first round. */
  lemma LexStarts(input: string, file: string)
    ensures Continues(TableMatch, input, file, Lex(input, file), [], 0)
  {
    PrependNothing(Lex(input, file));
  }

  lemma PrependNothing(r: Either<seq<Token>, QError>)
    ensures Prepend([], r) == r
  {
    if r.Ok? {
      assert [] + r.value == r.value;
    }
  }

  lemma PrependPrepend(a: seq<Token>, b: seq<Token>, r: Either<seq<Token>, QError>)
    ensures Prepend(a, Prepend(b, r)) == Prepend(a + b, r)
  {
    if r.Ok? {
      assert a + (b + r.value) == (a + b) + r.value;
    }
  }

  lemma {:induction false} RunEndOfSuffix(s: string, k: nat, i: nat, p: CharClass)
    requires k + i <= |s|
    ensures RunEnd(s[k..], i, p) + k == RunEnd(s, k + i, p)
    decreases |s| - k - i
  {
    if k + i < |s| && InClass(p, s[k + i]) {
      RunEndOfSuffix(s, k, i + 1, p);
    }
  }

  /** Trimming a suffix of the input skips to the end of the white space there. */
  lemma TrimmedSuffix(s: string, k: nat)
    requires k <= |s|
    ensures TrimStart(s[k..]) == s[RunEnd(s, k, Whitespace)..]
  {
    RunEndOfSuffix(s, k, 0, Whitespace);
    assert s[k..][RunEnd(s[k..], 0, Whitespace)..] == s[k + RunEnd(s[k..], 0, Whitespace)..];
  }

  lemma DropOfSuffix(s: string, k: nat, n: nat)
    requires k + n <= |s|
    ensures s[k..][n..] == s[k + n..]
  {
  }

  lemma SlicesOfSuffix(s: string, k: nat, n: nat)
    requires k + n <= |s|
    ensures s[k..][..n] == s[k..k + n] && s[k..][n..] == s[k + n..]
  {
  }

  // ---------------------------------------------------------------------------
  // What the source promises about the tokens.
  //
  // The facts about a run are bundled in the predicates `Lexes`, `Fails`,
  // `Emits` and `TokenAt`, and the step lemmas `LexFromCons` and `LexFromErr`
  // take one step of a run apart; the lemmas about whole runs recurse over
  // these steps only.

  /** Every token is non-empty, carries the given file name, starts at line
      and column 1 or later and has no declaring token. */
  predicate WellFormedLexed(t: Token, file: string)
  {
    |t.value| > 0 && t.file == file && t.line >= 1 && t.column >= 1 && t.definedAt.None?
  }

  predicate AllWhitespace(s: string)
  {
    forall i :: 0 <= i < |s| ==> IsWhitespace(s[i])
  }

  /** Only white space lies in `src[i..j]`. */
  predicate WhiteBetween(src: string, i: nat, j: nat)
  {
    forall k :: i <= k < j && k < |src| ==> IsWhitespace(src[k])
  }

  /** `tok` sits at offset `p` of `src`, after white space from `from` on:
      its value is the text there and its line and column are those of `p`. */
  predicate TokenAt(src: string, from: nat, p: nat, tok: Token)
  {
    from <= p && p + |tok.value| <= |src| && WhiteBetween(src, from, p)
    && src[p..p + |tok.value|] == tok.value && (tok.line, tok.column) == CalcLineno(p, src)
  }

  /** Where the tokens sit in the source: `offs[k]` is the offset of token `k`,
      and only white space lies before, between and after the tokens. */
  predicate LaidOut(src: string, from: nat, toks: seq<Token>, offs: seq<nat>)
    requires from <= |src|
    decreases |toks|
  {
    |toks| == |offs|
    && if toks == [] then WhiteBetween(src, from, |src|)
       else TokenAt(src, from, offs[0], toks[0]) && LaidOut(src, offs[0] + |toks[0].value|, toks[1..], offs[1..])
  }

  /** The run from `pos` on succeeds with `toks`. */
  ghost predicate Lexes(m: RowMatcher, src: string, pos: nat, file: string, toks: seq<Token>)
    requires pos <= |src|
  {
    LexFrom(m, src, pos, file) == Ok(toks)
  }

  /** The run from `pos` on fails with `e`. */
  ghost predicate Fails(m: RowMatcher, src: string, pos: nat, file: string, e: QError)
    requires pos <= |src|
  {
    LexFrom(m, src, pos, file) == Err(e)
  }

  /** At offset `p` the matcher cuts off `tok`. */
  ghost predicate Emits(m: RowMatcher, src: string, p: nat, file: string, tok: Token)
    requires p < |src|
  {
    NextToken(m, src, p, file) == Some(tok)
  }

  /** One step of a successful run, with its pieces named: the white space up
      to `p`, then either the end of the input or the token `tok` followed by
      the tokens `tail` of the rest. */
  lemma LexFromCons(m: RowMatcher, src: string, pos: nat, file: string, toks: seq<Token>)
    returns (p: nat, tok: Token, tail: seq<Token>)
    requires pos <= |src| && Lexes(m, src, pos, file, toks)
    ensures pos <= p <= |src| && WhiteBetween(src, pos, p)
    ensures p == |src| ==> toks == []
    ensures p < |src| ==>
      && Emits(m, src, p, file, tok) && TokenAt(src, pos, p, tok) && |tok.value| > 0
      && Lexes(m, src, p + |tok.value|, file, tail) && toks == [tok] + tail
  {
    p := RunEnd(src, pos, Whitespace);
    RunEndCovers(src, pos, Whitespace);
    tok := Token(Unknown, [], 0, 0, file, None);
    tail := [];
    if p < |src| {
      assert LexFrom(m, src, pos, file) == LexAt(m, src, p, file);
      tok := NextToken(m, src, p, file).value;
      tail := LexFrom(m, src, p + |tok.value|, file).value;
    }
  }

  /** One step of a failed run: the white space up to `p`, then either the
      syntax error at `p` or the token `tok` and the failure of the rest. */
  lemma LexFromErr(m: RowMatcher, src: string, pos: nat, file: string, e: QError) returns (p: nat, tok: Token)
    requires pos <= |src| && Fails(m, src, pos, file, e)
    ensures pos <= p < |src| && !IsWhitespace(src[p])
    ensures NextToken(m, src, p, file).None? ==> e == SyntaxErrorAt(src, p, file)
    ensures NextToken(m, src, p, file).Some? ==>
      && Emits(m, src, p, file, tok) && 0 < |tok.value| && p + |tok.value| <= |src|
      && Fails(m, src, p + |tok.value|, file, e)
  {
    p := RunEnd(src, pos, Whitespace);
    assert LexFrom(m, src, pos, file) == LexAt(m, src, p, file);
    tok := Token(Unknown, [], 0, 0, file, None);
    if NextToken(m, src, p, file).Some? {
      tok := NextToken(m, src, p, file).value;
    }
  }

  /** Every token of a successful run is well formed. */
  lemma {:induction false} LexedTokensWellFormed(m: RowMatcher, src: string, pos: nat, file: string, toks: seq<Token>)
    requires pos <= |src| && Lexes(m, src, pos, file, toks)
    ensures forall t <- toks :: WellFormedLexed(t, file)
    decreases |src| - pos
  {
    var p, tok, tail := LexFromCons(m, src, pos, file, toks);
    if p < |src| {
      CalcLinenoCounts(p, src);
      LexedTokensWellFormed(m, src, p + |tok.value|, file, tail);
    }
  }

  /** The kind `FirstMatch` picks is a row of the table. */
  lemma {:induction false} FirstMatchHasRow(s: string, i: nat)
    requires i <= |Patterns|
    ensures FirstMatch(s, i).Some? ==> i <= Rank(FirstMatch(s, i).value.0) < |Patterns|
    decreases |Patterns| - i
  {
    if i < |Patterns| {
      RankOfRow(i);
      FirstMatchHasRow(s, i + 1);
    }
  }

  /** The tokens of a successful run are laid out in the source: each one is a
      non-empty stretch of the input that follows the white space skipped
      before it. */
  lemma {:induction false} LexLayout(m: RowMatcher, src: string, pos: nat, file: string, toks: seq<Token>)
    returns (offs: seq<nat>)
    requires pos <= |src| && Lexes(m, src, pos, file, toks)
    ensures LaidOut(src, pos, toks, offs)
    decreases |src| - pos
  {
    var p, tok, tail := LexFromCons(m, src, pos, file, toks);
    if p == |src| {
      offs := [];
    } else {
      var rest := LexLayout(m, src, p + |tok.value|, file, tail);
      offs := LaidOutCons(src, pos, p, tok, tail, rest);
    }
  }

  lemma LaidOutCons(src: string, from: nat, p: nat, tok: Token, toks: seq<Token>, offs: seq<nat>)
    returns (offs': seq<nat>)
    requires TokenAt(src, from, p, tok)
    requires LaidOut(src, p + |tok.value|, toks, offs)
    ensures offs' == [p] + offs && LaidOut(src, from, [tok] + toks, offs')
  {
    offs' := [p] + offs;
    assert ([tok] + toks)[1..] == toks && offs'[1..] == offs;
  }

  /** The text that white space pieces and token values give when they are put
      back in turn: `gaps[0] + v0 + gaps[1] + v1 + ... + gaps[n]`. */
  function Interleave(gaps: seq<string>, toks: seq<Token>): string
    requires |gaps| == |toks| + 1
    decreases |toks|
  {
    if toks == [] then gaps[0]
    else gaps[0] + toks[0].value + Interleave(gaps[1..], toks[1..])
  }

  /** The skipped white space and the token values rebuild the input. */
  lemma {:induction false} RebuildFromLayout(src: string, from: nat, toks: seq<Token>, offs: seq<nat>)
    returns (gaps: seq<string>)
    requires from <= |src| && LaidOut(src, from, toks, offs)
    ensures |gaps| == |toks| + 1 && forall g <- gaps :: AllWhitespace(g)
    ensures Interleave(gaps, toks) == src[from..]
    decreases |toks|
  {
    if toks == [] {
      gaps := [src[from..]];
      WhiteSlice(src, from, |src|);
    } else {
      var v := toks[0].value;
      assert TokenAt(src, from, offs[0], toks[0]);
      var rest := RebuildFromLayout(src, offs[0] + |v|, toks[1..], offs[1..]);
      var gap := src[from..offs[0]];
      WhiteSlice(src, from, offs[0]);
      gaps := [gap] + rest;
      GapsCons(gap, rest);
      assert gaps[0] == gap && gaps[1..] == rest;
      assert Interleave(gaps, toks) == gap + v + Interleave(rest, toks[1..]);
      RebuildStep(src, from, offs[0], v);
    }
  }

  lemma WhiteSlice(src: string, i: nat, j: nat)
    requires i <= j <= |src| && WhiteBetween(src, i, j)
    ensures AllWhitespace(src[i..j])
  {
    var gap := src[i..j];
    forall k | 0 <= k < |gap| ensures IsWhitespace(gap[k]) {
      assert gap[k] == src[i + k];
    }
  }

  lemma GapsCons(gap: string, rest: seq<string>)
    requires AllWhitespace(gap) && forall g <- rest :: AllWhitespace(g)
    ensures forall g <- [gap] + rest :: AllWhitespace(g)
  {
    forall g | g in [gap] + rest ensures AllWhitespace(g) {
      if g != gap { assert g in rest; }
    }
  }

  /** The white space before a token, the token, and what follows it. */
  lemma RebuildStep(src: string, from: nat, p: nat, v: string)
    requires from <= p && p + |v| <= |src| && src[p..p + |v|] == v
    ensures src[from..p] + v + src[p + |v|..] == src[from..]
  {
    SliceSplit(src, from, p, p + |v|);
    SliceSplit(src, from, p + |v|, |src|);
  }

  /** Two adjacent slices join into one. */
  lemma SliceSplit(s: string, a: nat, b: nat, c: nat)
    requires a <= b <= c <= |s|
    ensures s[a..b] + s[b..c] == s[a..c]
  {
    var x := s[a..b] + s[b..c];
    forall i | 0 <= i < c - a ensures x[i] == s[a..c][i] {
      if i < b - a {
        assert x[i] == s[a + i];
      } else {
        assert x[i] == s[b..c][i - (b - a)] == s[a + i];
      }
    }
  }

  /** A run yields no tokens and no error exactly when the input from `pos`
      on is empty or white space only. */
  lemma LexNothing(m: RowMatcher, src: string, pos: nat, file: string)
    requires pos <= |src|
    ensures Lexes(m, src, pos, file, []) <==> WhiteBetween(src, pos, |src|)
  {
    if WhiteBetween(src, pos, |src|) {
      RunEndIs(src, pos, Whitespace, |src|);
    } else if LexFrom(m, src, pos, file).Ok? {
      var p, tok, tail := LexFromCons(m, src, pos, file, LexFrom(m, src, pos, file).value);
      assert p < |src|;
    }
  }

  /** A failed run stops at an offset that holds no white space and where the
      matcher proposes no token, with the syntax error for that offset. */
  lemma {:induction false} LexError(m: RowMatcher, src: string, pos: nat, file: string, e: QError)
    returns (p: nat)
    requires pos <= |src| && Fails(m, src, pos, file, e)
    ensures pos <= p < |src| && !IsWhitespace(src[p]) && NextToken(m, src, p, file).None?
    ensures e == SyntaxErrorAt(src, p, file)
    decreases |src| - pos
  {
    var q, tok := LexFromErr(m, src, pos, file, e);
    if NextToken(m, src, q, file).None? {
      p := q;
    } else {
      p := LexError(m, src, q + |tok.value|, file, e);
    }
  }

  // The same facts for the pattern table.

  /** Empty or blank input, and only that, yields no tokens and no error. */
  lemma LexOfBlanks(input: string, file: string)
    ensures Lex(input, file) == Ok([]) <==> WhiteBetween(input, 0, |input|)
  {
    LexNothing(TableMatch, input, 0, file);
  }

  /** A failed tokenization stops at a character that is no white space and
      where no row of the table matches, with the syntax error for it. */
  lemma LexFailsAt(input: string, file: string, e: QError) returns (p: nat)
    requires Lex(input, file) == Err(e)
    ensures p < |input| && !IsWhitespace(input[p]) && FirstMatch(input[p..], 0).None?
    ensures e == SyntaxErrorAt(input, p, file)
  {
    p := LexError(TableMatch, input, 0, file, e);
    TableNextToken(input, p, file);
  }

  /** A successful tokenization lays its well-formed tokens out in the input,
      and the skipped white space and the token values rebuild the input. */
  lemma LexRebuilds(input: string, file: string, toks: seq<Token>) returns (gaps: seq<string>)
    requires Lex(input, file) == Ok(toks)
    ensures forall t <- toks :: WellFormedLexed(t, file)
    ensures |gaps| == |toks| + 1 && forall g <- gaps :: AllWhitespace(g)
    ensures Interleave(gaps, toks) == input
  {
    LexedTokensWellFormed(TableMatch, input, 0, file, toks);
    var offs := LexLayout(TableMatch, input, 0, file, toks);
    gaps := RebuildFromLayout(input, 0, toks, offs);
  }

  /** The error names the character at the offset, gives its line and column
      and carries the file name. */
  lemma SyntaxErrorShape(src: string, p: nat, file: string)
    requires p < |src|
    ensures var e := SyntaxErrorAt(src, p, file);
      e.Error? && e.kind == SyntaxError && e.message == "unknown character '" + [src[p]] + "'"
      && (e.line, e.column) == CalcLineno(p, src) && e.file == Some(file)
  {
  }

  /** The `for` loop of `Lexer.tokenize` over the pattern table: the first
      row whose pattern matches, and the length of its match. */
  method MatchFirstRow(input: string) returns (m: Option<(TokenType, nat)>)
    ensures m == TableMatch(input)
  {
    m := None;
    for i := 0 to |Patterns|
      invariant m.None? && FirstMatch(input, 0) == FirstMatch(input, i)
    {
      var n := MatchPattern(Patterns[i], input);
      if n.Some? {
        m := Some((Patterns[i], n.value));
        break;
      }
    }
  }

  /** The body of the loop of `Lexer.tokenize` once the remaining input `rest`
      is trimmed: the line and column of its offset in `input`, the search of
      the table, and either the token it cuts off or the syntax error naming
      the first remaining character. The ghost parameters carry the loop's
      invariant, which the round keeps. */
  method ReadToken(input: string, rest: string, fileName: string,
                   ghost whole: Either<seq<Token>, QError>, ghost tokens: seq<Token>, ghost before: nat,
                   ghost pos: nat)
    returns (r: Either<Token, QError>)
    requires pos < |input| && rest == input[pos..]
    requires before <= |input| && RunEnd(input, before, Whitespace) == pos
    requires Continues(TableMatch, input, fileName, whole, tokens, before)
    ensures r.Ok? ==> 0 < |r.value.value| <= |rest| && r.value.value == rest[..|r.value.value|]
    ensures r.Ok? ==> Continues(TableMatch, input, fileName, whole, tokens + [r.value], pos + |r.value.value|)
    ensures r.Err? ==> whole == Err(r.error)
  {
    var lc := CalcLineno(|input| - |rest|, input);
    var m := MatchFirstRow(rest);
    if m.None? {
      LexStepFails(TableMatch, input, fileName, whole, tokens, before, pos);
      return Err(SyntaxErrorAt(input, |input| - |rest|, fileName));
    }
    var (kind, n) := m.value;
    SlicesOfSuffix(input, pos, n);
    var tok := Token(kind, rest[..n], lc.0, lc.1, fileName, None);
    LexStepToken(TableMatch, input, fileName, whole, tokens, before, pos, tok);
    return Ok(tok);
  }

  /** `Lexer.tokenize`: the loop trims the remaining input and reads one token
      from it at a time, until nothing or an unknown character is left. */
  method Tokenize(input: string, fileName: string) returns (r: Either<seq<Token>, QError>)
    ensures r == Lex(input, fileName)
  {
    LexStarts(input, fileName);
    r := TokenizeLoop(input, fileName, Lex(input, fileName));
  }

  /** The loop of `Tokenize`, knowing of the run it computes only the
      invariant it keeps. */
  method TokenizeLoop(input: string, fileName: string, ghost whole: Either<seq<Token>, QError>)
    returns (r: Either<seq<Token>, QError>)
    requires Continues(TableMatch, input, fileName, whole, [], 0)
    ensures r == whole
  {
    var tokens: seq<Token> := [];
    var rest := input;
    ghost var pos: nat := 0;
    while |rest| > 0
      invariant pos <= |input| && rest == input[pos..]
      invariant Continues(TableMatch, input, fileName, whole, tokens, pos)
      decreases |rest|
    {
      ghost var before := pos;
      TrimmedSuffix(input, before);
      rest := TrimStart(rest);
      pos := RunEnd(input, before, Whitespace);
      if |rest| == 0 {
        LexFromEnds(TableMatch, input, fileName, whole, tokens, before);
        break;
      }
      var next := ReadToken(input, rest, fileName, whole, tokens, before, pos);
      if next.Err? {
        return Err(next.error);
      }
      var tok := next.value;
      DropOfSuffix(input, pos, |tok.value|);
      tokens := tokens + [tok];
      rest := rest[|tok.value|..];
      pos := pos + |tok.value|;
    }
    LexDone(TableMatch, input, fileName, whole, tokens);
    return Ok(tokens);
  }
}
