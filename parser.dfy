/** The `Parser` class of src/parse/parser.ts: the token list, the cursor
    `current`, the stack of saved indices `prevScanIndices` and the file
    name, updated in place by the methods below. Every production is a
    method that changes these fields as the source does and is proved to
    answer what the matching function of `Grammar` answers, leaving the
    cursor that function leaves. `Thrown` stands for a JavaScript exception;
    after one the fields are left as they happen to be, since the exception
    ends the run. */
module Parsing {
  import opened Either
  import opened Errors
  import opened Lexer
  import opened Numbers
  import opened Ast
  import opened Grammar
  import Scopes
  import Resolution
  import Folding

  class Parser {
    var tokens: seq<Token>
    var current: nat
    /** `prevScanIndices`, its front last, as `Grammar.Cursor` keeps it. */
    var saved: seq<nat>
    var file: string

    /** `initialize()`: no tokens, the cursor at 0 and nothing saved. */
    constructor()
      ensures tokens == [] && current == 0 && saved == [] && file == ""
    {
      tokens, current, saved, file := [], 0, [], "";
    }

    /** The cursor that the functions of `Grammar` take. */
    function At(): Cursor
      reads this
    {
      Cursor(current, saved)
    }

    method Initialize()
      modifies this
      ensures tokens == [] && current == 0 && saved == [] && file == old(file)
    {
      tokens, current, saved := [], 0, [];
    }

    method Move(n: nat)
      modifies this
      ensures At() == Grammar.Move(old(At()), n)
      ensures tokens == old(tokens) && file == old(file)
    {
      current := current + n;
    }

    method Enter()
      modifies this
      ensures At() == Grammar.Enter(old(At()))
      ensures tokens == old(tokens) && file == old(file)
    {
      saved := saved + [current];
    }

    method Commit()
      modifies this
      ensures At() == Grammar.Commit(old(At()))
      ensures tokens == old(tokens) && file == old(file)
    {
      if saved != [] {
        saved := saved[..|saved| - 1];
      }
    }

    /** The source throws when nothing is saved; every caller here has
        saved an index first. */
    method Rollback()
      requires saved != []
      modifies this
      ensures At() == Grammar.Rollback(old(At()))
      ensures tokens == old(tokens) && file == old(file)
    {
      current := saved[|saved| - 1];
      saved := saved[..|saved| - 1];
    }

    /** `peek()`: the token at the cursor, if there is one. */
    function Peek(): (r: Option<Token>)
      reads this
      ensures r.Some? <==> current < |tokens|
      ensures r.Some? ==> r.value == tokens[current]
    {
      if current < |tokens| then Some(tokens[current]) else None
    }

    /** `expectTypeIs(message, ...kinds)` */
    method ExpectTypeIs(message: string, kinds: set<TokenType>) returns (r: Attempt<Token>)
      requires current <= |tokens|
      modifies this
      ensures tokens == old(tokens) && file == old(file)
      ensures var p := Expect(tokens, old(At()), message, kinds); r == p.out && At() == p.at
    {
      if current == |tokens| {
        return Thrown;
      }
      var t := tokens[current];
      if t.kind !in kinds {
        return Failure(Error(SyntaxError, message, t.line, t.column, None));
      }
      Move(1);
      return Success(t);
    }

    /** `scanUntil(message, ...kinds)`: the tokens up to the next one of a
        type in `kinds`, moving past that one; `None` where the source throws
        because the tokens end first. */
    method ScanUntil(kinds: set<TokenType>) returns (r: Option<seq<Token>>)
      requires current <= |tokens|
      modifies this
      ensures tokens == old(tokens) && file == old(file) && saved == old(saved)
      ensures var u := Until(tokens, old(current), kinds);
        (r.None? ==> u.None?) && (r.Some? ==> u == Some((r.value, current)))
    {
      ghost var start := current;
      if current == |tokens| {
        return None;
      }
      var words := [];
      while tokens[current].kind !in kinds
        invariant tokens == old(tokens) && file == old(file) && saved == old(saved)
        invariant start <= current < |tokens|
        invariant words == tokens[start..current]
        invariant forall k :: start <= k < current ==> tokens[k].kind !in kinds
        decreases |tokens| - current
      {
        words := words + [tokens[current]];
        current := current + 1;
        if current >= |tokens| {
          return None;
        }
      }
      current := current + 1;
      return Some(words);
    }

    // -------------------------------------------------------------------------
    // Tokens that stand alone.

    method ParseIdentifier() returns (r: Attempt<Ident>)
      requires current <= |tokens|
      modifies this
      ensures tokens == old(tokens) && file == old(file)
      ensures var p := IdentifierAt(tokens, old(At())); r == p.out && (!r.Thrown? ==> At() == p.at)
    {
      var t := Peek();
      var e := ExpectTypeIs("Expected an identifier", {Identifier, SpecialBinaryOp, SpecialUnaryOp, SpecialVariable});
      match e
      case Thrown => return Thrown;
      case Failure(error) => return Failure(error);
      case Success(_) => return Success(Ident(PosOf(t.value), t.value));
    }

    method ParseNumericLiteral() returns (r: Attempt<Expr>)
      requires current <= |tokens|
      modifies this
      ensures tokens == old(tokens) && file == old(file)
      ensures var p := NumericLiteralAt(tokens, old(At())); r == p.out && (!r.Thrown? ==> At() == p.at)
    {
      var t := Peek();
      var e := ExpectTypeIs("Expected a numeric literal", {TokenType.NumericLiteral});
      match e
      case Thrown => return Thrown;
      case Failure(error) => return Failure(error);
      case Success(_) => return Success(Expr.NumericLiteral(PosOf(t.value), t.value, ParseNumber(t.value.value)));
    }

    method ParseStringLiteral() returns (r: Attempt<Expr>)
      requires current <= |tokens|
      modifies this
      ensures tokens == old(tokens) && file == old(file)
      ensures var p := StringLiteralAt(tokens, old(At())); r == p.out && (!r.Thrown? ==> At() == p.at)
    {
      var t := Peek();
      var e := ExpectTypeIs("Expected a string literal", {TokenType.StringLiteral});
      match e
      case Thrown => return Thrown;
      case Failure(error) => return Failure(error);
      case Success(_) => return Success(Expr.StringLiteral(PosOf(t.value), t.value, Scopes.Unquote(t.value.value)));
    }

    method ParseVariable() returns (r: Attempt<Expr>)
      requires current <= |tokens|
      modifies this
      ensures tokens == old(tokens) && file == old(file)
      ensures var p := VariableAt(tokens, old(At())); r == p.out && (!r.Thrown? ==> At() == p.at)
    {
      var t := Peek();
      var e := ExpectTypeIs("Expected a variable", {SpecialVariable, SpecialBinaryOp, SpecialUnaryOp});
      match e
      case Thrown => return Thrown;
      case Failure(error) => return Failure(error);
      case Success(v) => return Success(VariableRef(PosOf(t.value), v, t.value.value));
    }

    // -------------------------------------------------------------------------
    // Expressions.

    method ParseExpression() returns (r: Attempt<Expr>)
      requires current <= |tokens|
      modifies this
      ensures tokens == old(tokens) && file == old(file)
      ensures var p := ExpressionAt(tokens, old(At())); r == p.out && (!r.Thrown? ==> At() == p.at)
      decreases |tokens| - current, 3
    {
      r := ParseBinaryOp();
      if r.Failure? {
        r := ParseLeftExpression();
      }
    }

    method ParseBinaryOp() returns (r: Attempt<Expr>)
      requires current <= |tokens|
      modifies this
      ensures tokens == old(tokens) && file == old(file)
      ensures var p := BinaryOpAt(tokens, old(At())); r == p.out && (!r.Thrown? ==> At() == p.at)
      decreases |tokens| - current, 2
    {
      Enter();
      var start := Peek();
      var left := ParseLeftExpression();
      if !left.Success? {
        if left.Thrown? { return Thrown; }
        Rollback();
        return Failure(left.error);
      }
      var op := ExpectTypeIs("Expected a binary operator", {SpecialBinaryOp});
      if !op.Success? {
        if op.Thrown? { return Thrown; }
        Rollback();
        return Failure(op.error);
      }
      var right := ParseExpression();
      if !right.Success? {
        if right.Thrown? { return Thrown; }
        Rollback();
        return Failure(right.error);
      }
      Commit();
      return Success(BinaryOp(PosOf(start.value), op.value, left.value, right.value));
    }

    method ParseLeftExpression() returns (r: Attempt<Expr>)
      requires current <= |tokens|
      modifies this
      ensures tokens == old(tokens) && file == old(file)
      ensures var p := LeftExpressionAt(tokens, old(At())); r == p.out && (!r.Thrown? ==> At() == p.at)
      decreases |tokens| - current, 1
    {
      var start := Peek();
      r := ParseUnaryOp();
      if !r.Failure? { return; }
      r := ParseNumericLiteral();
      if !r.Failure? { return; }
      r := ParseStringLiteral();
      if !r.Failure? { return; }
      r := ParseVariable();
      if !r.Failure? { return; }
      match Peek()
      case None => return Thrown;
      case Some(t) =>
        return Failure(ErrorAt(SyntaxError, "Unexpected token '" + t.value + "' found",
                               start.value.line, start.value.column, start.value.file));
    }

    method ParseUnaryOp() returns (r: Attempt<Expr>)
      requires current <= |tokens|
      modifies this
      ensures tokens == old(tokens) && file == old(file)
      ensures var p := UnaryOpAt(tokens, old(At())); r == p.out && (!r.Thrown? ==> At() == p.at)
      decreases |tokens| - current, 0
    {
      Enter();
      var op := ExpectTypeIs("Expected a unary operator", {SpecialUnaryOp});
      if !op.Success? {
        if op.Thrown? { return Thrown; }
        Rollback();
        return Failure(op.error);
      }
      var operand := ParseLeftExpression();
      if !operand.Success? {
        if operand.Thrown? { return Thrown; }
        Rollback();
        return Failure(operand.error);
      }
      Commit();
      return Success(UnaryOp(PosOf(op.value), op.value, operand.value));
    }

    // -------------------------------------------------------------------------
    // Sentences that hold no sentence list.

    method ParseVariableDeclaration() returns (r: Attempt<Sentence>)
      requires current <= |tokens|
      modifies this
      ensures tokens == old(tokens) && file == old(file)
      ensures var p := VariableDeclarationAt(tokens, old(At())); r == p.out && (!r.Thrown? ==> At() == p.at)
    {
      Enter();
      var start := Peek();
      var exp := ExpectTypeIs("Expected 'crea'", {Create});
      if !exp.Success? {
        if exp.Thrown? { return Thrown; }
        Rollback();
        return Failure(exp.error);
      }
      exp := ExpectTypeIs("Expected 'variabilis'", {Variable});
      if !exp.Success? {
        if exp.Thrown? { return Thrown; }
        Rollback();
        return Failure(exp.error);
      }
      var name := ParseIdentifier();
      if !name.Success? {
        if name.Thrown? { return Thrown; }
        Rollback();
        return Failure(name.error);
      }
      exp := ExpectTypeIs("Expected '.'", {EndOfSentence});
      if !exp.Success? {
        if exp.Thrown? { return Thrown; }
        Rollback();
        return Failure(exp.error);
      }
      Commit();
      return Success(VariableDeclaration(PosOf(start.value), name.value));
    }

    method ParseAssignment() returns (r: Attempt<Sentence>)
      requires current <= |tokens|
      modifies this
      ensures tokens == old(tokens) && file == old(file)
      ensures var p := AssignmentAt(tokens, old(At())); r == p.out && (!r.Thrown? ==> At() == p.at)
    {
      Enter();
      var start := Peek();
      var exp := ExpectTypeIs("Expected 'da'", {Assign});
      if !exp.Success? {
        if exp.Thrown? { return Thrown; }
        Rollback();
        return Failure(exp.error);
      }
      var name := ParseIdentifier();
      if !name.Success? {
        if name.Thrown? { return Thrown; }
        Rollback();
        return Failure(name.error);
      }
      var value := ParseExpression();
      if !value.Success? {
        if value.Thrown? { return Thrown; }
        Rollback();
        return Failure(value.error);
      }
      exp := ExpectTypeIs("Expected '.'", {EndOfSentence});
      if !exp.Success? {
        if exp.Thrown? { return Thrown; }
        Rollback();
        return Failure(exp.error);
      }
      Commit();
      return Success(Assignment(PosOf(start.value), name.value, value.value));
    }

    method ParseImperative() returns (r: Attempt<Sentence>)
      requires current <= |tokens|
      modifies this
      ensures tokens == old(tokens) && file == old(file)
      ensures var p := ImperativeAt(tokens, old(At())); r == p.out && (!r.Thrown? ==> At() == p.at)
    {
      Enter();
      var value := ParseExpression();
      if !value.Success? {
        if value.Thrown? { return Thrown; }
        Rollback();
        return Failure(value.error);
      }
      var exp := ExpectTypeIs("Expected '.'", {EndOfSentence});
      if !exp.Success? {
        if exp.Thrown? { return Thrown; }
        Rollback();
        return Failure(exp.error);
      }
      Commit();
      return Success(Imperative(value.value.pos, value.value));
    }

    /** On success nothing is committed: the index saved on entry stays. */
    method ParseReturn() returns (r: Attempt<Sentence>)
      requires current <= |tokens|
      modifies this
      ensures tokens == old(tokens) && file == old(file)
      ensures var p := ReturnAt(tokens, old(At())); r == p.out && (!r.Thrown? ==> At() == p.at)
    {
      Enter();
      var start := Peek();
      var exp := ExpectTypeIs("", {TokenType.Return});
      if !exp.Success? {
        if exp.Thrown? { return Thrown; }
        Rollback();
        return Failure(exp.error);
      }
      var value := ParseExpression();
      if !value.Success? {
        if value.Thrown? { return Thrown; }
        Rollback();
        return Failure(value.error);
      }
      exp := ExpectTypeIs("Expected '.'", {EndOfSentence});
      if !exp.Success? {
        if exp.Thrown? { return Thrown; }
        Rollback();
        return Failure(exp.error);
      }
      return Success(Sentence.Return(PosOf(start.value), value.value));
    }

    /** Everything between `enter()` and `commit()` is inside the source's
        `try`; whatever fails there rolls back and reports "Expected 'nota'"
        at the token the comment began at. */
    method ParseComment() returns (r: Attempt<Sentence>)
      requires current <= |tokens|
      modifies this
      ensures tokens == old(tokens) && file == old(file)
      ensures var p := CommentAt(tokens, old(At())); r == p.out && (!r.Thrown? ==> At() == p.at)
    {
      var start := Peek();
      Enter();
      ghost var entered := At();
      var note := Peek();
      var words: Option<seq<Token>> := None;
      if note.Some? && note.value.kind == Note {
        Move(1);
        words := ScanUntil({EndOfSentence});
        assert words.Some? ==> Until(tokens, entered.current + 1, {EndOfSentence}) == Some((words.value, current));
      }
      assert saved == entered.saved;
      if words.None? {
        Rollback();
        match start
        case None => r := Thrown;
        case Some(t) => r := Failure(ErrorAt(SyntaxError, "Expected 'nota'", t.line, t.column, t.file));
      } else {
        Commit();
        r := Success(Comment(PosOf(note.value), Join(words.value)));
      }
    }

    method ParseImport() returns (r: Attempt<Sentence>)
      requires current <= |tokens|
      modifies this
      ensures tokens == old(tokens) && file == old(file)
      ensures var p := ImportAt(tokens, old(At())); r == p.out && (!r.Thrown? ==> At() == p.at)
    {
      var start := Peek();
      Enter();
      var exp := ExpectTypeIs("Expected 'profer'", {TokenType.Import});
      if !exp.Success? {
        if exp.Thrown? { return Thrown; }
        Rollback();
        return Failure(exp.error);
      }
      var name := ParseIdentifier();
      if !name.Success? {
        if name.Thrown? { return Thrown; }
        Rollback();
        return Failure(name.error);
      }
      exp := ExpectTypeIs("Expected 'ab'", {From});
      if !exp.Success? {
        if exp.Thrown? { return Thrown; }
        Rollback();
        return Failure(exp.error);
      }
      var path := ParseStringLiteral();
      if !path.Success? {
        if path.Thrown? { return Thrown; }
        Rollback();
        return Failure(path.error);
      }
      exp := ExpectTypeIs("Expected '.'", {EndOfSentence});
      if !exp.Success? {
        if exp.Thrown? { return Thrown; }
        Rollback();
        return Failure(exp.error);
      }
      Commit();
      return Success(Sentence.Import(PosOf(start.value), name.value, path.value.text));
    }

    // -------------------------------------------------------------------------
    // Sentences and sentence lists.

    method ParseSentenceList(needsEOB: bool) returns (r: Attempt<SentenceList>)
      requires current <= |tokens|
      modifies this
      ensures tokens == old(tokens) && file == old(file)
      ensures var p := SentenceListAt(tokens, old(At()), needsEOB); r == p.out && (!r.Thrown? ==> At() == p.at)
      decreases |tokens| - current, 3
    {
      ghost var c := At();
      var sentences: seq<Sentence> := [];
      var start := Peek();
      while current < |tokens|
        invariant tokens == old(tokens) && file == old(file)
        invariant c.current <= current <= |tokens|
        invariant Agrees(SentenceListAt(tokens, c, needsEOB), ListFrom(tokens, At(), needsEOB, start, sentences))
        decreases |tokens| - current
      {
        var t := Peek().value;
        if t.kind == EndOfBlock {
          Move(1);
          return Success(SentenceList(PosOf(t), sentences));
        }
        var sentence := ParseSentence();
        if !sentence.Success? {
          if sentence.Thrown? { return Thrown; }
          return Failure(sentence.error);
        }
        sentences := sentences + [sentence.value];
      }
      if !needsEOB {
        match start
        case None => r := Thrown;
        case Some(t) => r := Success(SentenceList(PosOf(t), sentences));
      } else {
        var last := Peek();
        if last.None? {
          last := if |tokens| > 0 then Some(tokens[|tokens| - 1]) else start;
        }
        match last
        case None => r := Thrown;
        case Some(t) => r := Failure(ErrorAt(SyntaxError, "Unexpected EOF", t.line, t.column, t.file));
      }
    }

    /** The eleven tries of `sentence()`, in the source's order, each from
        where the one before gave up. */
    method ParseSentence() returns (r: Attempt<Sentence>)
      requires current <= |tokens|
      modifies this
      ensures tokens == old(tokens) && file == old(file)
      ensures var p := SentenceAt(tokens, old(At())); r == p.out && (!r.Thrown? ==> At() == p.at)
      decreases |tokens| - current, 2
    {
      ghost var c := At();
      var first := Peek();
      if first.None? {
        return Thrown;
      }
      var k := 0;
      while k < 11
        invariant tokens == old(tokens) && file == old(file)
        invariant c.current <= current <= |tokens|
        invariant Agrees(SentenceAt(tokens, c), AlternativesFrom(tokens, first.value, At(), k))
        decreases 11 - k
      {
        ghost var before := At();
        r := ParseAlternative(k);
        AlternativeStep(tokens, first.value, before, k);
        if !r.Failure? {
          return;
        }
        k := k + 1;
      }
      var t := first.value;
      r := Failure(ErrorAt(SyntaxError, "Unexpected token '" + t.value + "' found", t.line, t.column, t.file));
    }

    /** The `k`-th try of `sentence()`. */
    method ParseAlternative(k: nat) returns (r: Attempt<Sentence>)
      requires current <= |tokens| && k < 11
      modifies this
      ensures tokens == old(tokens) && file == old(file)
      ensures var p := Alternative(tokens, old(At()), k); r == p.out && (!r.Thrown? ==> At() == p.at)
      decreases |tokens| - current, 1
    {
      match k
      case 0 => r := ParseVariableDeclaration();
      case 1 => r := ParseAssignment();
      case 2 => r := ParseImperative();
      case 3 => r := ParseIf();
      case 4 => r := ParseElse();
      case 5 => r := ParseFor();
      case 6 => r := ParseWhile();
      case 7 => r := ParseFunction();
      case 8 => r := ParseReturn();
      case 9 => r := ParseComment();
      case _ => r := ParseImport();
    }

    method ParseIf() returns (r: Attempt<Sentence>)
      requires current <= |tokens|
      modifies this
      ensures tokens == old(tokens) && file == old(file)
      ensures var p := IfAt(tokens, old(At())); r == p.out && (!r.Thrown? ==> At() == p.at)
      decreases |tokens| - current, 0
    {
      Enter();
      var start := Peek();
      var exp := ExpectTypeIs("Expected 'si'", {TokenType.If});
      if !exp.Success? {
        if exp.Thrown? { return Thrown; }
        Rollback();
        return Failure(exp.error);
      }
      var condition := ParseExpression();
      if !condition.Success? {
        if condition.Thrown? { return Thrown; }
        Rollback();
        return Failure(condition.error);
      }
      exp := ExpectTypeIs("Expected 'tum'", {Then});
      if !exp.Success? {
        if exp.Thrown? { return Thrown; }
        Rollback();
        return Failure(exp.error);
      }
      var body := ParseSentenceList(true);
      if !body.Success? {
        if body.Thrown? { return Thrown; }
        Rollback();
        return Failure(body.error);
      }
      Commit();
      return Success(Sentence.If(PosOf(start.value), condition.value, body.value));
    }

    method ParseElse() returns (r: Attempt<Sentence>)
      requires current <= |tokens|
      modifies this
      ensures tokens == old(tokens) && file == old(file)
      ensures var p := ElseAt(tokens, old(At())); r == p.out && (!r.Thrown? ==> At() == p.at)
      decreases |tokens| - current, 0
    {
      Enter();
      var start := Peek();
      var exp := ExpectTypeIs("Expected 'aliter'", {TokenType.Else});
      if !exp.Success? {
        if exp.Thrown? { return Thrown; }
        Rollback();
        return Failure(exp.error);
      }
      var branch := ParseIf();
      if branch.Success? {
        Commit();
        var orIf := branch.value;
        return Success(Sentence.Else(PosOf(start.value), OrIf(orIf.pos, orIf.condition, orIf.body)));
      }
      if branch.Thrown? { return Thrown; }
      exp := ExpectTypeIs("Expected 'tum'", {Then});
      if !exp.Success? {
        if exp.Thrown? { return Thrown; }
        Rollback();
        return Failure(exp.error);
      }
      var body := ParseSentenceList(true);
      if !body.Success? {
        if body.Thrown? { return Thrown; }
        Rollback();
        return Failure(body.error);
      }
      Commit();
      return Success(Sentence.Else(PosOf(start.value), Otherwise(body.value)));
    }

    method ParseFor() returns (r: Attempt<Sentence>)
      requires current <= |tokens|
      modifies this
      ensures tokens == old(tokens) && file == old(file)
      ensures var p := ForAt(tokens, old(At())); r == p.out && (!r.Thrown? ==> At() == p.at)
      decreases |tokens| - current, 0
    {
      Enter();
      var start := Peek();
      var exp := ExpectTypeIs("Expected 'per'", {TokenType.For});
      if !exp.Success? {
        if exp.Thrown? { return Thrown; }
        Rollback();
        return Failure(exp.error);
      }
      var variable := ParseIdentifier();
      if !variable.Success? {
        if variable.Thrown? { return Thrown; }
        Rollback();
        return Failure(variable.error);
      }
      var first := ExpectTypeIs("Expected 'ab' or 'ad'", {From, To});
      if !first.Success? {
        if first.Thrown? { return Thrown; }
        Rollback();
        return Failure(first.error);
      }
      var bound1 := ParseExpression();
      if !bound1.Success? {
        if bound1.Thrown? { return Thrown; }
        Rollback();
        return Failure(bound1.error);
      }
      var second := ExpectTypeIs("Expected 'ab' or 'ad'", {From, To});
      if !second.Success? {
        if second.Thrown? { return Thrown; }
        Rollback();
        return Failure(second.error);
      }
      if first.value.kind == second.value.kind {
        Rollback();
        var ft := first.value;
        var expected := if ft.kind == From then "ad" else "ab";
        var t := start.value;
        return Failure(ErrorAt(SyntaxError, "Expected '" + expected + "' after '" + ft.value + "'", t.line, t.column, t.file));
      }
      var bound2 := ParseExpression();
      if !bound2.Success? {
        if bound2.Thrown? { return Thrown; }
        Rollback();
        return Failure(bound2.error);
      }
      exp := ExpectTypeIs("Expected 'face'", {Do});
      if !exp.Success? {
        if exp.Thrown? { return Thrown; }
        Rollback();
        return Failure(exp.error);
      }
      var body := ParseSentenceList(true);
      if !body.Success? {
        if body.Thrown? { return Thrown; }
        Rollback();
        return Failure(body.error);
      }
      Commit();
      var fromFirst := first.value.kind == From;
      return Success(Sentence.For(body.value.pos, variable.value,
                                  if fromFirst then bound1.value else bound2.value,
                                  if fromFirst then bound2.value else bound1.value, body.value));
    }

    method ParseWhile() returns (r: Attempt<Sentence>)
      requires current <= |tokens|
      modifies this
      ensures tokens == old(tokens) && file == old(file)
      ensures var p := WhileAt(tokens, old(At())); r == p.out && (!r.Thrown? ==> At() == p.at)
      decreases |tokens| - current, 0
    {
      Enter();
      var start := Peek();
      var exp := ExpectTypeIs("Expected 'dum'", {TokenType.While});
      if !exp.Success? {
        if exp.Thrown? { return Thrown; }
        Rollback();
        return Failure(exp.error);
      }
      var condition := ParseExpression();
      if !condition.Success? {
        if condition.Thrown? { return Thrown; }
        Rollback();
        return Failure(condition.error);
      }
      exp := ExpectTypeIs("Expected 'face'", {Do});
      if !exp.Success? {
        if exp.Thrown? { return Thrown; }
        Rollback();
        return Failure(exp.error);
      }
      var body := ParseSentenceList(true);
      if !body.Success? {
        if body.Thrown? { return Thrown; }
        Rollback();
        return Failure(body.error);
      }
      Commit();
      return Success(Sentence.While(PosOf(start.value), condition.value, body.value));
    }

    method ParseFunction() returns (r: Attempt<Sentence>)
      requires current <= |tokens|
      modifies this
      ensures tokens == old(tokens) && file == old(file)
      ensures var p := FunctionAt(tokens, old(At())); r == p.out && (!r.Thrown? ==> At() == p.at)
      decreases |tokens| - current, 0
    {
      Enter();
      var start := Peek();
      var exp := ExpectTypeIs("Expected 'define'", {Define});
      if !exp.Success? {
        if exp.Thrown? { return Thrown; }
        Rollback();
        return Failure(exp.error);
      }
      var name := ParseIdentifier();
      if !name.Success? {
        if name.Thrown? { return Thrown; }
        Rollback();
        return Failure(name.error);
      }
      exp := ExpectTypeIs("Expected 'cum'", {With});
      if !exp.Success? {
        if exp.Thrown? { return Thrown; }
        Rollback();
        return Failure(exp.error);
      }
      var param1 := ParseIdentifier();
      if !param1.Success? {
        if param1.Thrown? { return Thrown; }
        Rollback();
        return Failure(param1.error);
      }
      var param2: Option<Ident> := None;
      if name.value.identifier.kind == SpecialBinaryOp {
        exp := ExpectTypeIs("Expected 'et'", {And});
        if !exp.Success? {
          if exp.Thrown? { return Thrown; }
          Rollback();
          return Failure(exp.error);
        }
        var p2 := ParseIdentifier();
        if !p2.Success? {
          if p2.Thrown? { return Thrown; }
          Rollback();
          return Failure(p2.error);
        }
        param2 := Some(p2.value);
      }
      exp := ExpectTypeIs("Expected 'face'", {Do});
      if !exp.Success? {
        if exp.Thrown? { return Thrown; }
        Rollback();
        return Failure(exp.error);
      }
      var body := ParseSentenceList(true);
      if !body.Success? {
        if body.Thrown? { return Thrown; }
        Rollback();
        return Failure(body.error);
      }
      Commit();
      return Success(Function(PosOf(start.value), name.value, param1.value, param2, body.value));
    }

    method ParseProgram() returns (r: Attempt<Program>)
      requires current <= |tokens|
      modifies this
      ensures tokens == old(tokens) && file == old(file)
      ensures var p := ProgramAt(tokens, old(At())); r == p.out && (!r.Thrown? ==> At() == p.at)
    {
      var list := ParseSentenceList(false);
      match list
      case Thrown => r := Thrown;
      case Failure(e) => r := Failure(e);
      case Success(l) => r := Success(Program(Pos(1, 1, l.pos.file), l));
    }

    /** `analyzeIdentifiers()`: the scope tree of the tokens, then every
        identifier outside a comment rewritten into a tagged token, in place,
        stopping at the first one that nothing declares. */
    method AnalyzeIdentifiers(constants: seq<string>, lib: Scopes.Library) returns (r: Attempt<()>)
      modifies this
      ensures current == old(current) && saved == old(saved) && file == old(file)
      ensures match Scopes.NamesOf(old(tokens), constants, lib)
        case Thrown => r.Thrown? && tokens == old(tokens)
        case Failure(e) => r == Failure(e) && tokens == old(tokens)
        case Success(root) =>
          var a := Resolution.Analyze(root, old(tokens));
          tokens == a.tokens && r == (if a.error.None? then Success(()) else Failure(a.error.value))
    {
      var names := Scopes.ScanNames(tokens, constants, lib);
      if names.Thrown? {
        return Thrown;
      }
      if names.Failure? {
        return Failure(names.error);
      }
      var root := names.value;
      ghost var orig := tokens;
      var inComment := false;
      var i := 0;
      while i < |tokens|
        invariant i <= |tokens| == |orig|
        invariant current == old(current) && saved == old(saved) && file == old(file)
        invariant Resolution.AnalyzeFrom(root, tokens, i, inComment) == Resolution.Analyze(root, orig)
        decreases |tokens| - i
      {
        var token := tokens[i];
        var chain := Scopes.Match(root, i);
        var blocks := Resolution.Reversed(chain);
        if inComment {
          inComment := token.kind != EndOfSentence;
        } else if token.kind == Note {
          inComment := true;
        } else if token.kind == Identifier {
          var found := FindDeclaration(blocks, token.value);
          if found.Some? {
            tokens := tokens[i := Resolution.Tagged(token, found.value.0, found.value.1)];
          } else if !(i > 0 && Resolution.Declarator(tokens[i - 1].kind)) {
            return Failure(Resolution.UndefinedIdentifier(token));
          }
        }
        i := i + 1;
      }
      return Success(());
    }

    /** `feed(tokens, file)`: a fresh start on `toks`, the identifiers
        resolved, then the program parsed and its `aliter`s folded. A
        failure of the last two is wrapped in an error group. */
    method Feed(toks: seq<Token>, f: Option<string>, constants: seq<string>, lib: Scopes.Library)
      returns (r: Attempt<map<string, Program>>)
      modifies this
      ensures file == FileName(f)
      ensures r == Fed(toks, FileName(f), constants, lib)
    {
      Initialize();
      tokens := toks;
      file := FileName(f);
      var analyzed := AnalyzeIdentifiers(constants, lib);
      if analyzed.Thrown? {
        return Thrown;
      }
      if analyzed.Failure? {
        return Failure(analyzed.error);
      }
      var program := ParseProgram();
      if program.Thrown? {
        return Thrown;
      }
      if program.Failure? {
        return Failure(FeedError(file, program.error));
      }
      var folded := Folding.VerifyProgram(program.value);
      if folded.Err? {
        return Failure(FeedError(file, folded.error));
      }
      return Success(map[file := folded.value]);
    }
  }

  /** The search of one token's scopes, innermost first: in each, the
      variables, then the unary, then the binary operators. */
  method FindDeclaration(blocks: seq<Scopes.Scope>, name: string) returns (r: Option<(TokenType, Token)>)
    ensures r == Resolution.Lookup(blocks, name)
  {
    var k := 0;
    while k < |blocks|
      invariant k <= |blocks|
      invariant Resolution.Lookup(blocks[k..], name) == Resolution.Lookup(blocks, name)
      decreases |blocks| - k
    {
      var block := blocks[k];
      assert blocks[k..][0] == block && blocks[k..][1..] == blocks[k + 1..];
      if name in block.variables {
        return Some((SpecialVariable, block.variables[name]));
      } else if name in block.unaryOperators {
        return Some((SpecialUnaryOp, block.unaryOperators[name]));
      } else if name in block.binaryOperators {
        return Some((SpecialBinaryOp, block.binaryOperators[name]));
      }
      k := k + 1;
    }
    return None;
  }

  /** `file ?? "<unknown>"` */
  function FileName(f: Option<string>): string
  {
    if f.Some? then f.value else "<unknown>"
  }

  /** The error group `feed` answers when the program does not parse. */
  function FeedError(file: string, e: QError): QError
  {
    Group("Failed to parse the program", 1, 1, Some(file), [e])
  }

  /** What `feed` answers for the tokens `toks` of the file `file`. */
  function Fed(toks: seq<Token>, file: string, constants: seq<string>, lib: Scopes.Library)
    : Attempt<map<string, Program>>
  {
    match Scopes.NamesOf(toks, constants, lib)
    case Thrown => Thrown
    case Failure(e) => Failure(e)
    case Success(root) =>
      var a := Resolution.Analyze(root, toks);
      if a.error.Some? then Failure(a.error.value)
      else match ProgramAt(a.tokens, Cursor(0, [])).out
        case Thrown => Thrown
        case Failure(e) => Failure(FeedError(file, e))
        case Success(p) =>
          match Folding.FoldProgram(p)
          case Err(e) => Failure(FeedError(file, e))
          case Ok(q) => Success(map[file := q])
  }

  /** What `feed` promises: a program comes back under the file's name alone,
      at line 1, column 1, and in folded shape; once the scopes are built, a
      failure is either the first identifier that nothing declares or a parse
      failure wrapped, alone, in the group. */
  lemma FedOutcome(toks: seq<Token>, file: string, constants: seq<string>, lib: Scopes.Library)
    ensures var r := Fed(toks, file, constants, lib);
      r.Success? ==>
        r.value.Keys == {file} && r.value[file].pos == Pos(1, 1, r.value[file].program.pos.file)
        && FoldedList(r.value[file].program)
    ensures var r := Fed(toks, file, constants, lib);
      Scopes.NamesOf(toks, constants, lib).Success? && r.Failure? ==>
        var root := Scopes.NamesOf(toks, constants, lib).value;
        (exists k :: 0 <= k < |toks| && Resolution.Undeclared(root, toks, k)
           && r.error == Resolution.UndefinedIdentifier(toks[k]))
        || (exists e :: r.error == FeedError(file, e))
  {
    var names := Scopes.NamesOf(toks, constants, lib);
    if names.Success? {
      var root := names.value;
      Resolution.AnalyzeOutcome(root, toks);
      var a := Resolution.Analyze(root, toks);
      if a.error.None? {
        var parsed := ProgramAt(a.tokens, Cursor(0, []));
        if parsed.out.Success? {
          var p := parsed.out.value;
          Folding.FoldProgramFolded(p);
          if Folding.FoldProgram(p).Ok? {
            var q := Folding.FoldProgram(p).value;
            assert Fed(toks, file, constants, lib) == Success(map[file := q]);
            assert q.pos == p.pos;
          }
        }
      }
    }
  }
}
