/** Identifier resolution, `analyzeIdentifiers` of src/parse/parser.ts
    (lines 723-806): what becomes of each token once the scope tree is known.
    An `IDENTIFIER` token outside a `nota … .` comment is replaced by a tagged
    token naming the declaration it refers to, searching the scopes around it
    innermost first and, in each scope, the variables before the unary and the
    binary operators. An identifier that nothing declares may stand only right
    after `variabile`, `cum` or `et`; anywhere else it is a NameError.

    The functions here state what the pass computes; the loop that performs it
    is `Parsing.Parser.AnalyzeIdentifiers`. */
module Resolution {
  import opened Either
  import opened Errors
  import opened Lexer
  import Scopes

  /** `.reverse()`: the same elements, last first. */
  function Reversed<T>(s: seq<T>): (r: seq<T>)
    ensures |r| == |s| && forall i :: 0 <= i < |s| ==> r[i] == s[|s| - 1 - i]
  {
    if s == [] then [] else Reversed(s[1..]) + [s[0]]
  }

  /** Whether a scope declares `name` in any of its three maps. */
  predicate Declares(s: Scopes.Scope, name: string)
  {
    name in s.variables || name in s.unaryOperators || name in s.binaryOperators
  }

  /** What one scope says about `name`: the tag and the declaring token, trying
      the variables, then the unary operators, then the binary operators. */
  function InScope(s: Scopes.Scope, name: string): (r: Option<(TokenType, Token)>)
    ensures r.None? <==> !Declares(s, name)
    ensures name in s.variables ==> r == Some((SpecialVariable, s.variables[name]))
    ensures name !in s.variables && name in s.unaryOperators ==>
      r == Some((SpecialUnaryOp, s.unaryOperators[name]))
    ensures name !in s.variables && name !in s.unaryOperators && name in s.binaryOperators ==>
      r == Some((SpecialBinaryOp, s.binaryOperators[name]))
  {
    if name in s.variables then Some((SpecialVariable, s.variables[name]))
    else if name in s.unaryOperators then Some((SpecialUnaryOp, s.unaryOperators[name]))
    else if name in s.binaryOperators then Some((SpecialBinaryOp, s.binaryOperators[name]))
    else None
  }

  /** The types of the tagged tokens. */
  predicate IsTag(k: TokenType)
  {
    k == SpecialVariable || k == SpecialUnaryOp || k == SpecialBinaryOp
  }

  /** The first scope of `blocks` (innermost first) that declares `name`, and
      what it says about it. */
  function Lookup(blocks: seq<Scopes.Scope>, name: string): (r: Option<(TokenType, Token)>)
    ensures r.Some? ==> IsTag(r.value.0)
  {
    if blocks == [] then None
    else if Declares(blocks[0], name) then InScope(blocks[0], name)
    else Lookup(blocks[1..], name)
  }

  /** The search finds nothing exactly when no scope declares the name, and
      otherwise answers for the first scope that does. */
  lemma {:induction false} LookupIsFirstHit(blocks: seq<Scopes.Scope>, name: string)
    ensures Lookup(blocks, name).None? <==> forall k :: 0 <= k < |blocks| ==> !Declares(blocks[k], name)
    ensures Lookup(blocks, name).Some? ==>
      exists k :: 0 <= k < |blocks| && Declares(blocks[k], name)
        && (forall j :: 0 <= j < k ==> !Declares(blocks[j], name))
        && Lookup(blocks, name) == InScope(blocks[k], name)
  {
    if blocks != [] && !Declares(blocks[0], name) {
      LookupIsFirstHit(blocks[1..], name);
      if Lookup(blocks, name).Some? {
        var k :| 0 <= k < |blocks[1..]| && Declares(blocks[1..][k], name)
          && (forall j :: 0 <= j < k ==> !Declares(blocks[1..][j], name))
          && Lookup(blocks[1..], name) == InScope(blocks[1..][k], name);
        assert Declares(blocks[k + 1], name);
      }
      forall k | 0 <= k < |blocks| && Lookup(blocks, name).None?
        ensures !Declares(blocks[k], name)
      {
        if k > 0 {
          assert blocks[k] == blocks[1..][k - 1];
        }
      }
    }
  }

  /** The scopes `analyzeIdentifiers` searches for the token at index `i`:
      `match(names, i).reverse()`. */
  function ScopesAt(root: Scopes.Scope, i: nat): seq<Scopes.Scope>
  {
    Reversed(Scopes.Chain(root, i))
  }

  /** The tagged token that replaces `t`: its value and position, the new
      type, and the declaring token as `definedAt`. */
  function Tagged(t: Token, kind: TokenType, decl: Token): Token
  {
    Token(kind, t.value, t.line, t.column, t.file, Some(decl))
  }

  /** The token types after which an undeclared name is a declaration. */
  predicate Declarator(k: TokenType)
  {
    k == Variable || k == With || k == And
  }

  function UndefinedIdentifier(t: Token): QError
  {
    ErrorAt(NameError, "undefined identifier '" + t.value + "'", t.line, t.column, t.file)
  }

  /** Whether the token at index `i` lies inside a `nota … .` comment: after a
      `nota` and up to and including the next `.`. */
  function InComment(tokens: seq<Token>, i: nat): bool
    requires i <= |tokens|
  {
    if i == 0 then false
    else if InComment(tokens, i - 1) then tokens[i - 1].kind != EndOfSentence
    else tokens[i - 1].kind == Note
  }

  /** Where the pass finished: the token list as it was left, and the
      NameError it stopped with, if any. Tokens before the failing one are
      already rewritten when the pass stops. */
  datatype Analysis = Analysis(tokens: seq<Token>, error: Option<QError>)

  /** The loop of `analyzeIdentifiers` from index `i` on, with the tokens
      before `i` already rewritten. */
  function AnalyzeFrom(root: Scopes.Scope, tokens: seq<Token>, i: nat, inComment: bool): (r: Analysis)
    requires i <= |tokens|
    ensures |r.tokens| == |tokens|
    decreases |tokens| - i
  {
    if i == |tokens| then Analysis(tokens, None)
    else
      var t := tokens[i];
      if inComment then AnalyzeFrom(root, tokens, i + 1, t.kind != EndOfSentence)
      else if t.kind == Note then AnalyzeFrom(root, tokens, i + 1, true)
      else if t.kind != Identifier then AnalyzeFrom(root, tokens, i + 1, false)
      else match Lookup(ScopesAt(root, i), t.value)
        case Some((kind, decl)) => AnalyzeFrom(root, tokens[i := Tagged(t, kind, decl)], i + 1, false)
        case None =>
          if i > 0 && Declarator(tokens[i - 1].kind) then AnalyzeFrom(root, tokens, i + 1, false)
          else Analysis(tokens, Some(UndefinedIdentifier(t)))
  }

  /** The whole pass on the scope tree of `tokens`. */
  function Analyze(root: Scopes.Scope, tokens: seq<Token>): Analysis
  {
    AnalyzeFrom(root, tokens, 0, false)
  }

  // ---------------------------------------------------------------------------
  // What the pass promises, token by token.

  /** What the pass leaves at index `j` of the original list `orig`: a token
      in a comment or of another type stays; an identifier becomes the first
      hit of the innermost-first search, or stays when nothing declares it and
      it follows `variabile`, `cum` or `et`. */
  predicate Resolved(root: Scopes.Scope, orig: seq<Token>, out: Token, j: nat)
    requires j < |orig|
  {
    var t := orig[j];
    if InComment(orig, j) || t.kind != Identifier then out == t
    else match Lookup(ScopesAt(root, j), t.value)
      case Some((kind, decl)) => out == Tagged(t, kind, decl)
      case None => out == t && j > 0 && Declarator(orig[j - 1].kind)
  }

  /** The token at which the pass stops: an identifier outside a comment that
      no scope declares and that does not follow a declaring keyword. */
  predicate Undeclared(root: Scopes.Scope, orig: seq<Token>, j: nat)
    requires j < |orig|
  {
    !InComment(orig, j) && orig[j].kind == Identifier
    && Lookup(ScopesAt(root, j), orig[j].value).None?
    && !(j > 0 && Declarator(orig[j - 1].kind))
  }

  /** A rewritten token never has a declaring type, so the test on the token
      before an identifier sees the same type before and after the rewrite. */
  lemma ResolvedKeepsDeclarators(root: Scopes.Scope, orig: seq<Token>, out: Token, j: nat)
    requires j < |orig| && Resolved(root, orig, out, j)
    ensures Declarator(out.kind) <==> Declarator(orig[j].kind)
    ensures out.kind == orig[j].kind || (orig[j].kind == Identifier && IsTag(out.kind))
  {
    var t := orig[j];
    if !InComment(orig, j) && t.kind == Identifier {
      var found := Lookup(ScopesAt(root, j), t.value);
      if found.Some? {
        assert out == Tagged(t, found.value.0, found.value.1);
      }
    }
  }

  /** One round of the pass at index `i`: it either stops at an undeclared
      identifier, or resolves token `i` and goes on at `i + 1`. */
  lemma AnalyzeStep(root: Scopes.Scope, orig: seq<Token>, cur: seq<Token>, i: nat, inComment: bool)
    returns (next: seq<Token>, stop: bool)
    requires i < |orig| == |cur| && cur[i..] == orig[i..]
    requires forall j :: 0 <= j < i ==> Resolved(root, orig, cur[j], j)
    requires inComment == InComment(orig, i)
    ensures stop ==>
      Undeclared(root, orig, i)
      && AnalyzeFrom(root, cur, i, inComment) == Analysis(cur, Some(UndefinedIdentifier(orig[i])))
    ensures !stop ==>
      |next| == |orig| && next[i + 1..] == orig[i + 1..]
      && (forall j :: 0 <= j < i + 1 ==> Resolved(root, orig, next[j], j))
      && AnalyzeFrom(root, cur, i, inComment) == AnalyzeFrom(root, next, i + 1, InComment(orig, i + 1))
  {
    var t := cur[i];
    assert t == orig[i] by { assert cur[i..][0] == orig[i..][0]; }
    assert cur[i + 1..] == cur[i..][1..];
    assert orig[i + 1..] == orig[i..][1..];
    next, stop := cur, false;
    if !inComment && t.kind == Identifier {
      var found := Lookup(ScopesAt(root, i), t.value);
      if found.Some? {
        next := cur[i := Tagged(t, found.value.0, found.value.1)];
      } else {
        if i > 0 {
          ResolvedKeepsDeclarators(root, orig, cur[i - 1], i - 1);
        }
        stop := !(i > 0 && Declarator(cur[i - 1].kind));
      }
    }
    if !stop {
      ResolvedPrefix(root, orig, cur, next, i);
    }
  }

  lemma ResolvedPrefix(root: Scopes.Scope, orig: seq<Token>, cur: seq<Token>, next: seq<Token>, i: nat)
    requires i < |orig| == |cur| == |next|
    requires forall j :: 0 <= j < i ==> Resolved(root, orig, cur[j], j) && next[j] == cur[j]
    requires Resolved(root, orig, next[i], i)
    ensures forall j :: 0 <= j < i + 1 ==> Resolved(root, orig, next[j], j)
  {
  }

  /** The invariant of the pass: the tokens before `i` are resolved, the rest
      are as they were, and the comment flag is the one for index `i`. */
  lemma {:induction false} AnalyzeFromOutcome(root: Scopes.Scope, orig: seq<Token>, cur: seq<Token>, i: nat, inComment: bool)
    requires i <= |orig| == |cur| && cur[i..] == orig[i..]
    requires forall j :: 0 <= j < i ==> Resolved(root, orig, cur[j], j)
    requires inComment == InComment(orig, i)
    ensures var r := AnalyzeFrom(root, cur, i, inComment);
      (r.error.None? ==> forall j :: 0 <= j < |orig| ==> Resolved(root, orig, r.tokens[j], j))
      && (r.error.Some? ==>
            exists k :: i <= k < |orig| && Undeclared(root, orig, k)
              && r.error == Some(UndefinedIdentifier(orig[k]))
              && (forall j :: 0 <= j < k ==> Resolved(root, orig, r.tokens[j], j))
              && r.tokens[k..] == orig[k..])
    decreases |orig| - i
  {
    if i < |orig| {
      var next, stop := AnalyzeStep(root, orig, cur, i, inComment);
      if stop {
        assert cur[i..] == orig[i..];
      } else {
        AnalyzeFromOutcome(root, orig, next, i + 1, InComment(orig, i + 1));
      }
    }
  }

  /** `analyzeIdentifiers` keeps the number of tokens; when it succeeds every
      token is resolved as `Resolved` says, and when it fails it names the
      first undeclared identifier, with every token before it resolved and
      every token from it on untouched. */
  lemma AnalyzeOutcome(root: Scopes.Scope, tokens: seq<Token>)
    ensures |Analyze(root, tokens).tokens| == |tokens|
    ensures Analyze(root, tokens).error.None? ==>
      forall j :: 0 <= j < |tokens| ==> Resolved(root, tokens, Analyze(root, tokens).tokens[j], j)
    ensures Analyze(root, tokens).error.Some? ==>
      exists k :: 0 <= k < |tokens| && Undeclared(root, tokens, k)
        && Analyze(root, tokens).error == Some(UndefinedIdentifier(tokens[k]))
        && (forall j :: 0 <= j < k ==> Resolved(root, tokens, Analyze(root, tokens).tokens[j], j))
        && Analyze(root, tokens).tokens[k..] == tokens[k..]
  {
    AnalyzeFromOutcome(root, tokens, tokens, 0, false);
  }

  /** Every token of another type than `IDENTIFIER`, and every token inside a
      comment, comes out of a successful pass unchanged; a tagged token keeps
      the value, line, column and file of the identifier it replaces and
      points at its declaration. */
  lemma TaggingKeepsTokens(root: Scopes.Scope, tokens: seq<Token>, j: nat)
    requires j < |tokens| && Analyze(root, tokens).error.None?
    ensures var out := Analyze(root, tokens).tokens[j];
      (InComment(tokens, j) || tokens[j].kind != Identifier ==> out == tokens[j])
      && out.value == tokens[j].value && out.line == tokens[j].line
      && out.column == tokens[j].column && out.file == tokens[j].file
      && (out != tokens[j] ==>
            out.definedAt.Some?
            && Lookup(ScopesAt(root, j), tokens[j].value) == Some((out.kind, out.definedAt.value)))
  {
    AnalyzeOutcome(root, tokens);
    assert Resolved(root, tokens, Analyze(root, tokens).tokens[j], j);
  }
}
