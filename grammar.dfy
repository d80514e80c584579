/** The productions of the recursive-descent parser of src/parse/parser.ts
    (lines 101-243 and 808-1694), each as a function of the token list and the
    parser's cursor that answers with the node it builds, or the error it
    reports, and the cursor it leaves. The methods of `Parsing.Parser` run
    the same productions on the parser's fields and are proved to agree with
    these functions.

    A production that starts with `enter()` saves the current index; on an
    error it calls `rollback()`, which goes back to the index saved last, and
    on success `commit()`, which drops it. `return_` saves an index and never
    drops it, so the saved indices are not balanced in general: what every
    production keeps is stated by `Keeps`, and the backtracking promise by
    `Restores`, which holds whenever the saved indices come back as they were.

    A read past the last token is a JavaScript TypeError in the source, which
    nothing catches but the `try` of `comment()`; here it is `Thrown`. */
module Grammar {
  import opened Either
  import opened Errors
  import opened Lexer
  import opened Numbers
  import opened Ast
  import Scopes

  // ---------------------------------------------------------------------------
  // The cursor and its operations.

  /** `current` and `prevScanIndices`. The saved indices are kept with the
      front of the source's array, where `unshift` adds and `shift` takes,
      as the LAST element. */
  datatype Cursor = Cursor(current: nat, saved: seq<nat>)

  /** What a production answers, and the cursor it leaves. After `Thrown`
      the cursor is the one the production started with: the exception ends
      the run, so nothing reads it. */
  datatype Parsed<+T> = Parsed(out: Attempt<T>, at: Cursor)

  /** `move(n)` */
  function Move(c: Cursor, n: nat): Cursor
  {
    c.(current := c.current + n)
  }

  /** `enter()`: save the current index. */
  function Enter(c: Cursor): Cursor
  {
    c.(saved := c.saved + [c.current])
  }

  /** `commit()`: drop the index saved last; with none saved, nothing changes. */
  function Commit(c: Cursor): Cursor
  {
    c.(saved := if c.saved == [] then [] else c.saved[..|c.saved| - 1])
  }

  /** `rollback()`: go back to the index saved last and drop it. The source
      throws when there is none; every production here rolls back only after
      its own `enter()`, so the model requires one. */
  function Rollback(c: Cursor): Cursor
    requires c.saved != []
  {
    Cursor(c.saved[|c.saved| - 1], c.saved[..|c.saved| - 1])
  }

  /** `rollback()` after `enter()` and any moves is back at the start;
      `commit()` after them keeps the moves and nothing else. */
  lemma RollbackUndoesEnter(c: Cursor, n: nat)
    ensures Rollback(Move(Enter(c), n)) == c
    ensures Commit(Move(Enter(c), n)) == Move(c, n)
  {
    assert Move(Enter(c), n).saved[..|c.saved|] == c.saved;
  }

  function PosOf(t: Token): Pos
  {
    Pos(t.line, t.column, t.file)
  }

  // ---------------------------------------------------------------------------
  // What every production keeps.

  /** `later` is a cursor that a production started at `c` may leave, in a
      list of `n` tokens: the index has not gone back nor past the end, the
      indices saved before are still saved underneath, and every index saved
      since lies between `c.current` and `n`. */
  predicate Within(n: nat, c: Cursor, later: Cursor)
  {
    c.current <= later.current <= n
    && c.saved <= later.saved
    && forall i :: |c.saved| <= i < |later.saved| ==> c.current <= later.saved[i] <= n
  }

  /** The cursor a production leaves is `Within` reach; after an exception it
      is the one it started with. */
  predicate Keeps<T>(n: nat, c: Cursor, r: Parsed<T>)
  {
    Within(n, c, r.at) && (r.out.Thrown? ==> r.at == c)
  }

  /** Backtracking: a production that reports an error, with the saved
      indices as they were, leaves the cursor where it started. */
  predicate Restores<T>(c: Cursor, r: Parsed<T>)
  {
    r.out.Failure? && |r.at.saved| == |c.saved| ==> r.at == c
  }

  /** A production that succeeds has read at least one token. */
  predicate Consumes<T>(c: Cursor, r: Parsed<T>)
  {
    r.out.Success? ==> r.at.current > c.current
  }

  /** At the end of the list a production reads a missing token and throws. */
  predicate ThrowsAtEnd<T>(n: nat, c: Cursor, r: Parsed<T>)
  {
    c.current == n ==> r.out.Thrown?
  }

  /** The saved indices come back as they were, unless an exception ended
      the run. Every production that cannot reach `return_` keeps this. */
  predicate Balanced<T>(c: Cursor, r: Parsed<T>)
  {
    !r.out.Thrown? ==> r.at.saved == c.saved
  }

  /** The contract of every production but `sentenceList` and `program`. */
  predicate Production<T>(n: nat, c: Cursor, r: Parsed<T>)
  {
    Keeps(n, c, r) && Restores(c, r) && Consumes(c, r) && ThrowsAtEnd(n, c, r)
  }

  lemma WithinTransitive(n: nat, a: Cursor, b: Cursor, d: Cursor)
    requires Within(n, a, b) && Within(n, b, d)
    ensures Within(n, a, d)
  {
    forall i | |a.saved| <= i < |d.saved|
      ensures a.current <= d.saved[i] <= n
    {
      if i < |b.saved| {
        assert d.saved[i] == b.saved[i];
      }
    }
  }

  /** After `enter()`: whatever stays within reach of the entered cursor stays
      within reach of the cursor before, it has an index to roll back to,
      and rolling back or committing keeps it within reach. When exactly the
      production's own index is left, rolling back returns to the start. */
  lemma WithinEntered(n: nat, c: Cursor, b: Cursor)
    requires c.current <= n && Within(n, Enter(c), b)
    ensures Within(n, c, b) && b.saved != []
    ensures Within(n, c, Rollback(b)) && Within(n, c, Commit(b))
    ensures |b.saved| == |c.saved| + 1 ==> Rollback(b) == c && Commit(b).saved == c.saved
  {
    var e := Enter(c);
    assert e.saved[|c.saved|] == c.current;
    forall i | |c.saved| <= i < |b.saved|
      ensures c.current <= b.saved[i] <= n
    {
      if i == |c.saved| {
        assert b.saved[i] == e.saved[i];
      }
    }
    assert c.saved <= b.saved[..|b.saved| - 1] by {
      assert c.saved <= e.saved;
    }
    if |b.saved| == |c.saved| + 1 {
      assert b.saved == e.saved;
    }
  }

  // ---------------------------------------------------------------------------
  // Steps shared by the productions.

  /** `expectTypeIs(message, ...kinds)`: the token at the cursor when its type
      is one of `kinds`, and the cursor after it; otherwise a SyntaxError at
      the token, without a file, and the cursor stays. */
  function Expect(tokens: seq<Token>, c: Cursor, message: string, kinds: set<TokenType>): (r: Parsed<Token>)
    requires c.current <= |tokens|
    ensures Production(|tokens|, c, r) && Balanced(c, r)
    ensures r.out.Success? ==> r.out.value == tokens[c.current] && r.out.value.kind in kinds && r.at == Move(c, 1)
    ensures r.out.Failure? ==>
      r.at == c && tokens[c.current].kind !in kinds
      && r.out.error == Error(SyntaxError, message, tokens[c.current].line, tokens[c.current].column, None)
  {
    if c.current == |tokens| then Parsed(Thrown, c)
    else
      var t := tokens[c.current];
      if t.kind in kinds then Parsed(Success(t), Move(c, 1))
      else Parsed(Failure(Error(SyntaxError, message, t.line, t.column, None)), c)
  }

  /** Giving up after `enter()`: an error rolls back and is passed on; an
      exception is passed on. */
  function Abandon<T(!new), U>(n: nat, c: Cursor, r: Parsed<U>): (s: Parsed<T>)
    requires c.current <= n && !r.out.Success? && Within(n, Enter(c), r.at)
    ensures Keeps(n, c, s) && Restores(c, s) && !s.out.Success?
    ensures r.out.Thrown? <==> s.out.Thrown?
    ensures r.out.Failure? ==> s == Parsed(Failure(r.out.error), Rollback(r.at))
    ensures r.out.Failure? && r.at.saved == Enter(c).saved ==> s.at == c
  {
    WithinEntered(n, c, r.at);
    if r.out.Failure? then Parsed(Failure(r.out.error), Rollback(r.at)) else Parsed(Thrown, c)
  }

  /** Finishing after `enter()`: `commit()` and answer `value`. */
  function Complete<T>(n: nat, c: Cursor, at: Cursor, value: T): (s: Parsed<T>)
    requires c.current <= n && Within(n, Enter(c), at) && at.current > c.current
    ensures Keeps(n, c, s) && Restores(c, s) && Consumes(c, s)
    ensures s == Parsed(Success(value), Commit(at))
    ensures at.saved == Enter(c).saved ==> s.at.saved == c.saved
  {
    WithinEntered(n, c, at);
    Parsed(Success(value), Commit(at))
  }

  /** Passing on a sub-production's error or exception, without backtracking. */
  function Relay<T(!new), U>(c: Cursor, r: Parsed<U>): (s: Parsed<T>)
    requires !r.out.Success?
    ensures s.out.Thrown? <==> r.out.Thrown?
    ensures s.at == (if r.out.Thrown? then c else r.at)
    ensures r.out.Failure? ==> s.out == Failure(r.out.error)
  {
    if r.out.Failure? then Parsed(Failure(r.out.error), r.at) else Parsed(Thrown, c)
  }

  // ---------------------------------------------------------------------------
  // Tokens that stand alone.

  /** `identifier()`: an identifier, tagged or not, as an IDENTIFIER node. */
  function IdentifierAt(tokens: seq<Token>, c: Cursor): (r: Parsed<Ident>)
    requires c.current <= |tokens|
    ensures Production(|tokens|, c, r) && Balanced(c, r)
    ensures r.out.Success? ==>
      r.out.value == Ident(PosOf(tokens[c.current]), tokens[c.current])
      && tokens[c.current].kind in {Identifier, SpecialBinaryOp, SpecialUnaryOp, SpecialVariable}
  {
    var e := Expect(tokens, c, "Expected an identifier", {Identifier, SpecialBinaryOp, SpecialUnaryOp, SpecialVariable});
    if e.out.Success? then Parsed(Success(Ident(PosOf(e.out.value), e.out.value)), e.at) else Relay(c, e)
  }

  /** `numericLiteral()`: the literal and its value as `parseFloat` reads it. */
  function NumericLiteralAt(tokens: seq<Token>, c: Cursor): (r: Parsed<Expr>)
    requires c.current <= |tokens|
    ensures Production(|tokens|, c, r) && Balanced(c, r)
    ensures r.out.Success? ==>
      var t := tokens[c.current];
      t.kind == TokenType.NumericLiteral && r.out.value == Expr.NumericLiteral(PosOf(t), t, ParseNumber(t.value))
  {
    var e := Expect(tokens, c, "Expected a numeric literal", {TokenType.NumericLiteral});
    if e.out.Success? then
      Parsed(Success(Expr.NumericLiteral(PosOf(e.out.value), e.out.value, ParseNumber(e.out.value.value))), e.at)
    else Relay(c, e)
  }

  /** `stringLiteral()`: the literal and its text without the quotes. */
  function StringLiteralAt(tokens: seq<Token>, c: Cursor): (r: Parsed<Expr>)
    requires c.current <= |tokens|
    ensures Production(|tokens|, c, r) && Balanced(c, r)
    ensures r.out.Success? ==>
      var t := tokens[c.current];
      t.kind == TokenType.StringLiteral && r.out.value == Expr.StringLiteral(PosOf(t), t, Scopes.Unquote(t.value))
  {
    var e := Expect(tokens, c, "Expected a string literal", {TokenType.StringLiteral});
    if e.out.Success? then
      Parsed(Success(Expr.StringLiteral(PosOf(e.out.value), e.out.value, Scopes.Unquote(e.out.value.value))), e.at)
    else Relay(c, e)
  }

  /** `variable()`: a tagged name used as a value. */
  function VariableAt(tokens: seq<Token>, c: Cursor): (r: Parsed<Expr>)
    requires c.current <= |tokens|
    ensures Production(|tokens|, c, r) && Balanced(c, r)
    ensures r.out.Success? ==>
      var t := tokens[c.current];
      t.kind in {SpecialVariable, SpecialBinaryOp, SpecialUnaryOp} && r.out.value == VariableRef(PosOf(t), t, t.value)
  {
    var e := Expect(tokens, c, "Expected a variable", {SpecialVariable, SpecialBinaryOp, SpecialUnaryOp});
    if e.out.Success? then Parsed(Success(VariableRef(PosOf(e.out.value), e.out.value, e.out.value.value)), e.at)
    else Relay(c, e)
  }

  // ---------------------------------------------------------------------------
  // Expressions. A binary operation is a left expression, the operator and a
  // whole expression, so chains nest to the right.

  /** `expression()`: a binary operation if one can be read here, otherwise a
      left expression. */
  function ExpressionAt(tokens: seq<Token>, c: Cursor): (r: Parsed<Expr>)
    requires c.current <= |tokens|
    ensures Production(|tokens|, c, r) && Balanced(c, r)
    ensures r.out.Success? ==> r.out.value.pos == PosOf(tokens[c.current])
    decreases |tokens| - c.current, 3
  {
    var b := BinaryOpAt(tokens, c);
    if !b.out.Failure? then b
    else
      var l := LeftExpressionAt(tokens, b.at);
      WithinTransitive(|tokens|, c, b.at, l.at);
      if l.out.Thrown? then Parsed(Thrown, c) else l
  }

  /** `binaryOp()`: left operand, operator, right operand. */
  function BinaryOpAt(tokens: seq<Token>, c: Cursor): (r: Parsed<Expr>)
    requires c.current <= |tokens|
    ensures Production(|tokens|, c, r) && Balanced(c, r)
    ensures r.out.Success? ==>
      r.out.value.BinaryOp? && !r.out.value.left.BinaryOp?
      && r.out.value.pos == PosOf(tokens[c.current]) && r.out.value.operator.kind == SpecialBinaryOp
    decreases |tokens| - c.current, 2
  {
    var n := |tokens|;
    if c.current == n then Parsed(Thrown, c)
    else
      var start := tokens[c.current];
      var left := LeftExpressionAt(tokens, Enter(c));
      if !left.out.Success? then Abandon(n, c, left)
      else
        var op := Expect(tokens, left.at, "Expected a binary operator", {SpecialBinaryOp});
        WithinTransitive(n, Enter(c), left.at, op.at);
        if !op.out.Success? then Abandon(n, c, op)
        else
          var right := ExpressionAt(tokens, op.at);
          WithinTransitive(n, Enter(c), op.at, right.at);
          if !right.out.Success? then Abandon(n, c, right)
          else Complete(n, c, right.at, BinaryOp(PosOf(start), op.out.value, left.out.value, right.out.value))
  }

  /** `leftExpression()`: a unary operation, a numeric or string literal, or
      a variable, tried in that order from where the previous try left off. */
  function LeftExpressionAt(tokens: seq<Token>, c: Cursor): (r: Parsed<Expr>)
    requires c.current <= |tokens|
    ensures Production(|tokens|, c, r) && Balanced(c, r)
    ensures r.out.Success? ==> !r.out.value.BinaryOp? && r.out.value.pos == PosOf(tokens[c.current])
    decreases |tokens| - c.current, 1
  {
    var n := |tokens|;
    var u := UnaryOpAt(tokens, c);
    if !u.out.Failure? then u
    else
      var num := NumericLiteralAt(tokens, u.at);
      WithinTransitive(n, c, u.at, num.at);
      if num.out.Thrown? then Parsed(Thrown, c) else if num.out.Success? then num
      else
        var str := StringLiteralAt(tokens, num.at);
        WithinTransitive(n, c, num.at, str.at);
        if str.out.Thrown? then Parsed(Thrown, c) else if str.out.Success? then str
        else
          var v := VariableAt(tokens, str.at);
          WithinTransitive(n, c, str.at, v.at);
          if v.out.Thrown? then Parsed(Thrown, c) else if v.out.Success? then v
          else if v.at.current == n then Parsed(Thrown, c)
          else
            var start := tokens[c.current];
            Parsed(Failure(ErrorAt(SyntaxError, "Unexpected token '" + tokens[v.at.current].value + "' found",
                                   start.line, start.column, start.file)), v.at)
  }

  /** `unaryOp()`: a unary operator and its operand. */
  function UnaryOpAt(tokens: seq<Token>, c: Cursor): (r: Parsed<Expr>)
    requires c.current <= |tokens|
    ensures Production(|tokens|, c, r) && Balanced(c, r)
    ensures r.out.Success? ==>
      r.out.value.UnaryOp? && r.out.value.pos == PosOf(tokens[c.current])
      && r.out.value.operator == tokens[c.current] && r.out.value.operator.kind == SpecialUnaryOp
    decreases |tokens| - c.current, 0
  {
    var n := |tokens|;
    var op := Expect(tokens, Enter(c), "Expected a unary operator", {SpecialUnaryOp});
    if !op.out.Success? then Abandon(n, c, op)
    else
      var operand := LeftExpressionAt(tokens, op.at);
      WithinTransitive(n, Enter(c), op.at, operand.at);
      if !operand.out.Success? then Abandon(n, c, operand)
      else Complete(n, c, operand.at, UnaryOp(PosOf(op.out.value), op.out.value, operand.out.value))
  }

  // ---------------------------------------------------------------------------
  // Sentences that hold no sentence list.

  /** `variableDeclaration()`: `crea variabile name .` */
  function VariableDeclarationAt(tokens: seq<Token>, c: Cursor): (r: Parsed<Sentence>)
    requires c.current <= |tokens|
    ensures Production(|tokens|, c, r) && Balanced(c, r)
    ensures r.out.Success? ==> r.out.value.VariableDeclaration? && r.out.value.pos == PosOf(tokens[c.current])
  {
    var n := |tokens|;
    if c.current == n then Parsed(Thrown, c)
    else
      var start := tokens[c.current];
      var create := Expect(tokens, Enter(c), "Expected 'crea'", {Create});
      if !create.out.Success? then Abandon(n, c, create)
      else
        var variable := Expect(tokens, create.at, "Expected 'variabilis'", {Variable});
        WithinTransitive(n, Enter(c), create.at, variable.at);
        if !variable.out.Success? then Abandon(n, c, variable)
        else
          var name := IdentifierAt(tokens, variable.at);
          WithinTransitive(n, Enter(c), variable.at, name.at);
          if !name.out.Success? then Abandon(n, c, name)
          else
            var end := Expect(tokens, name.at, "Expected '.'", {EndOfSentence});
            WithinTransitive(n, Enter(c), name.at, end.at);
            if !end.out.Success? then Abandon(n, c, end)
            else Complete(n, c, end.at, VariableDeclaration(PosOf(start), name.out.value))
  }

  /** `assignment()`: `da name value .` */
  function AssignmentAt(tokens: seq<Token>, c: Cursor): (r: Parsed<Sentence>)
    requires c.current <= |tokens|
    ensures Production(|tokens|, c, r) && Balanced(c, r)
    ensures r.out.Success? ==> r.out.value.Assignment? && r.out.value.pos == PosOf(tokens[c.current])
  {
    var n := |tokens|;
    if c.current == n then Parsed(Thrown, c)
    else
      var start := tokens[c.current];
      var assign := Expect(tokens, Enter(c), "Expected 'da'", {Assign});
      if !assign.out.Success? then Abandon(n, c, assign)
      else
        var name := IdentifierAt(tokens, assign.at);
        WithinTransitive(n, Enter(c), assign.at, name.at);
        if !name.out.Success? then Abandon(n, c, name)
        else
          var value := ExpressionAt(tokens, name.at);
          WithinTransitive(n, Enter(c), name.at, value.at);
          if !value.out.Success? then Abandon(n, c, value)
          else
            var end := Expect(tokens, value.at, "Expected '.'", {EndOfSentence});
            WithinTransitive(n, Enter(c), value.at, end.at);
            if !end.out.Success? then Abandon(n, c, end)
            else Complete(n, c, end.at, Assignment(PosOf(start), name.out.value, value.out.value))
  }

  /** `imperative()`: an expression and `.`, at the expression's position. */
  function ImperativeAt(tokens: seq<Token>, c: Cursor): (r: Parsed<Sentence>)
    requires c.current <= |tokens|
    ensures Production(|tokens|, c, r) && Balanced(c, r)
    ensures r.out.Success? ==> r.out.value.Imperative? && r.out.value.pos == PosOf(tokens[c.current])
  {
    var n := |tokens|;
    var value := ExpressionAt(tokens, Enter(c));
    if !value.out.Success? then Abandon(n, c, value)
    else
      var end := Expect(tokens, value.at, "Expected '.'", {EndOfSentence});
      WithinTransitive(n, Enter(c), value.at, end.at);
      if !end.out.Success? then Abandon(n, c, end)
      else Complete(n, c, end.at, Imperative(value.out.value.pos, value.out.value))
  }

  /** `return_()`: `redi value .`. On success the index saved on entry is
      never dropped. */
  function ReturnAt(tokens: seq<Token>, c: Cursor): (r: Parsed<Sentence>)
    requires c.current <= |tokens|
    ensures Production(|tokens|, c, r)
    ensures r.out.Failure? ==> r.at.saved == c.saved
    ensures r.out.Success? ==>
      r.out.value.Return? && r.out.value.pos == PosOf(tokens[c.current])
      && r.at.saved == c.saved + [c.current]
  {
    var n := |tokens|;
    if c.current == n then Parsed(Thrown, c)
    else
      var start := tokens[c.current];
      var keyword := Expect(tokens, Enter(c), "", {TokenType.Return});
      if !keyword.out.Success? then Abandon(n, c, keyword)
      else
        var value := ExpressionAt(tokens, keyword.at);
        WithinTransitive(n, Enter(c), keyword.at, value.at);
        if !value.out.Success? then Abandon(n, c, value)
        else
          var end := Expect(tokens, value.at, "Expected '.'", {EndOfSentence});
          WithinTransitive(n, Enter(c), value.at, end.at);
          if !end.out.Success? then Abandon(n, c, end)
          else
            WithinEntered(n, c, end.at);
            Parsed(Success(Sentence.Return(PosOf(start), value.out.value)), end.at)
  }

  /** `scanUntil(message, ...kinds)`: the tokens from index `p` up to the
      next one of a type in `kinds`, and the index after that one; `None`
      when the list ends first, where the source throws. */
  function Until(tokens: seq<Token>, p: nat, kinds: set<TokenType>): (r: Option<(seq<Token>, nat)>)
    requires p <= |tokens|
    ensures r.Some? ==>
      p < r.value.1 <= |tokens| && r.value.0 == tokens[p..r.value.1 - 1]
      && tokens[r.value.1 - 1].kind in kinds
      && forall k :: p <= k < r.value.1 - 1 ==> tokens[k].kind !in kinds
    ensures r.None? ==> forall k :: p <= k < |tokens| ==> tokens[k].kind !in kinds
    decreases |tokens| - p
  {
    if p == |tokens| then None
    else if tokens[p].kind in kinds then Some(([], p + 1))
    else match Until(tokens, p + 1, kinds)
      case None => None
      case Some((words, q)) => Some(([tokens[p]] + words, q))
  }

  /** `.map(({ value }) => value).join(" ")` */
  function Join(words: seq<Token>): string
  {
    if words == [] then ""
    else if |words| == 1 then words[0].value
    else words[0].value + " " + Join(words[1..])
  }

  /** `comment()`: `nota` and the words up to the next `.`, joined by
      spaces. Whatever goes wrong inside its `try` (no `nota`, no `.` before
      the end) is the one error "Expected 'nota'". */
  function CommentAt(tokens: seq<Token>, c: Cursor): (r: Parsed<Sentence>)
    requires c.current <= |tokens|
    ensures Production(|tokens|, c, r) && Balanced(c, r)
    ensures r.out.Success? ==> r.out.value.Comment? && r.out.value.pos == PosOf(tokens[c.current])
    ensures r.out.Failure? ==> r.at == c
  {
    if c.current == |tokens| then Parsed(Thrown, c)
    else
      var start := tokens[c.current];
      var failed := Parsed(Failure(ErrorAt(SyntaxError, "Expected 'nota'", start.line, start.column, start.file)),
                           Rollback(Enter(c)));
      assert Rollback(Enter(c)) == c by { RollbackUndoesEnter(c, 0); }
      if start.kind != Note then failed
      else match Until(tokens, c.current + 1, {EndOfSentence})
        case None => failed
        case Some((words, next)) =>
          assert Commit(Cursor(next, Enter(c).saved)) == Cursor(next, c.saved) by {
            assert Enter(c).saved[..|c.saved|] == c.saved;
          }
          Parsed(Success(Comment(PosOf(start), Join(words))), Commit(Cursor(next, Enter(c).saved)))
  }

  /** `import_()`: `profer name ab "path" .`, keeping the path without its
      quotes. */
  function ImportAt(tokens: seq<Token>, c: Cursor): (r: Parsed<Sentence>)
    requires c.current <= |tokens|
    ensures Production(|tokens|, c, r) && Balanced(c, r)
    ensures r.out.Success? ==> r.out.value.Import? && r.out.value.pos == PosOf(tokens[c.current])
  {
    var n := |tokens|;
    if c.current == n then Parsed(Thrown, c)
    else
      var start := tokens[c.current];
      var keyword := Expect(tokens, Enter(c), "Expected 'profer'", {TokenType.Import});
      if !keyword.out.Success? then Abandon(n, c, keyword)
      else
        var name := IdentifierAt(tokens, keyword.at);
        WithinTransitive(n, Enter(c), keyword.at, name.at);
        if !name.out.Success? then Abandon(n, c, name)
        else
          var from := Expect(tokens, name.at, "Expected 'ab'", {From});
          WithinTransitive(n, Enter(c), name.at, from.at);
          if !from.out.Success? then Abandon(n, c, from)
          else
            var path := StringLiteralAt(tokens, from.at);
            WithinTransitive(n, Enter(c), from.at, path.at);
            if !path.out.Success? then Abandon(n, c, path)
            else
              var end := Expect(tokens, path.at, "Expected '.'", {EndOfSentence});
              WithinTransitive(n, Enter(c), path.at, end.at);
              if !end.out.Success? then Abandon(n, c, end)
              else Complete(n, c, end.at, Sentence.Import(PosOf(start), name.out.value, path.out.value.text))
  }

  // ---------------------------------------------------------------------------
  // Sentences and the lists that hold them. The measure of this group is the
  // number of tokens left, then the production's rank in the call graph.

  /** The last parameter of `function_()`: `et name` when the function
      being defined is a binary operator, nothing otherwise. */
  function SecondParameter(tokens: seq<Token>, c: Cursor, binary: bool): (r: Parsed<Option<Ident>>)
    requires c.current <= |tokens|
    ensures Keeps(|tokens|, c, r) && Balanced(c, r)
    ensures !binary ==> r == Parsed(Success(None), c)
    ensures binary && r.out.Success? ==> r.out.value.Some? && r.at.current > c.current
  {
    if !binary then Parsed(Success(None), c)
    else
      var and := Expect(tokens, c, "Expected 'et'", {And});
      if !and.out.Success? then Relay(c, and)
      else
        var name := IdentifierAt(tokens, and.at);
        WithinTransitive(|tokens|, c, and.at, name.at);
        if !name.out.Success? then Relay(c, name)
        else Parsed(Success(Some(name.out.value)), name.at)
  }

  /** `sentenceList(needsEOB)`: sentences up to a `fini`, which it consumes,
      or up to the end of the tokens, which is an error "Unexpected EOF" for
      a block that needs its `fini`. The first error of a sentence ends the
      list. The list is at the position of its `fini`, or, ended by the end
      of the tokens, at the position of its first token. */
  function SentenceListAt(tokens: seq<Token>, c: Cursor, needsEOB: bool): (r: Parsed<SentenceList>)
    requires c.current <= |tokens|
    ensures Keeps(|tokens|, c, r) && Consumes(c, r)
    ensures !needsEOB ==> ThrowsAtEnd(|tokens|, c, r)
    ensures needsEOB && r.out.Success? ==>
      tokens[r.at.current - 1].kind == EndOfBlock && r.out.value.pos == PosOf(tokens[r.at.current - 1])
    decreases |tokens| - c.current, 4, 0
  {
    var start := if c.current < |tokens| then Some(tokens[c.current]) else None;
    ListFrom(tokens, c, needsEOB, start, [])
  }

  /** The loop of `sentenceList`, with the sentences `done` so far and the
      token `start` it began at (none when it began past the end). */
  function ListFrom(tokens: seq<Token>, c: Cursor, needsEOB: bool, start: Option<Token>, done: seq<Sentence>)
    : (r: Parsed<SentenceList>)
    requires c.current <= |tokens|
    ensures Keeps(|tokens|, c, r)
    ensures c.current < |tokens| ==> Consumes(c, r)
    ensures c.current == |tokens| && !needsEOB && start.None? ==> r.out.Thrown?
    ensures needsEOB && r.out.Success? ==>
      r.at.current > 0 && tokens[r.at.current - 1].kind == EndOfBlock
      && r.out.value.pos == PosOf(tokens[r.at.current - 1])
    decreases |tokens| - c.current, 3, 0
  {
    var n := |tokens|;
    if c.current == n then
      if !needsEOB then
        match start
        case None => Parsed(Thrown, c)
        case Some(first) => Parsed(Success(SentenceList(PosOf(first), done)), c)
      else if n > 0 then
        var last := tokens[n - 1];
        Parsed(Failure(ErrorAt(SyntaxError, "Unexpected EOF", last.line, last.column, last.file)), c)
      else
        match start
        case None => Parsed(Thrown, c)
        case Some(first) => Parsed(Failure(ErrorAt(SyntaxError, "Unexpected EOF", first.line, first.column, first.file)), c)
    else
      var t := tokens[c.current];
      if t.kind == EndOfBlock then Parsed(Success(SentenceList(PosOf(t), done)), Move(c, 1))
      else
        var sentence := SentenceAt(tokens, c);
        if !sentence.out.Success? then Relay(c, sentence)
        else
          var rest := ListFrom(tokens, sentence.at, needsEOB, start, done + [sentence.out.value]);
          WithinTransitive(n, c, sentence.at, rest.at);
          if rest.out.Thrown? then Parsed(Thrown, c) else rest
  }

  /** `sentence()`: the alternatives in the order of the source, each tried
      where the one before gave up; when none fits, "Unexpected token '...'
      found" at the token the sentence began at. */
  function SentenceAt(tokens: seq<Token>, c: Cursor): (r: Parsed<Sentence>)
    requires c.current <= |tokens|
    ensures Production(|tokens|, c, r)
    ensures r.out.Failure? ==>
      var first := tokens[c.current];
      r.out.error == ErrorAt(SyntaxError, "Unexpected token '" + first.value + "' found", first.line, first.column, first.file)
    decreases |tokens| - c.current, 2, 0
  {
    if c.current == |tokens| then Parsed(Thrown, c)
    else AlternativesFrom(tokens, tokens[c.current], c, 0)
  }

  /** The alternatives of `sentence()` from the `k`-th on. */
  function AlternativesFrom(tokens: seq<Token>, first: Token, c: Cursor, k: nat): (r: Parsed<Sentence>)
    requires c.current <= |tokens| && k <= 11
    ensures Keeps(|tokens|, c, r) && Restores(c, r) && Consumes(c, r)
    ensures k < 11 ==> ThrowsAtEnd(|tokens|, c, r)
    ensures r.out.Failure? ==>
      r.out.error == ErrorAt(SyntaxError, "Unexpected token '" + first.value + "' found", first.line, first.column, first.file)
    decreases |tokens| - c.current, 1, 11 - k
  {
    if k == 11 then
      Parsed(Failure(ErrorAt(SyntaxError, "Unexpected token '" + first.value + "' found", first.line, first.column, first.file)), c)
    else
      var attempt := Alternative(tokens, c, k);
      if !attempt.out.Failure? then attempt
      else
        var rest := AlternativesFrom(tokens, first, attempt.at, k + 1);
        WithinTransitive(|tokens|, c, attempt.at, rest.at);
        if rest.out.Thrown? then Parsed(Thrown, c) else rest
  }

  /** The `k`-th alternative of `sentence()`. */
  function Alternative(tokens: seq<Token>, c: Cursor, k: nat): (r: Parsed<Sentence>)
    requires c.current <= |tokens| && k < 11
    ensures Production(|tokens|, c, r)
    decreases |tokens| - c.current, 0, 2
  {
    match k
    case 0 => VariableDeclarationAt(tokens, c)
    case 1 => AssignmentAt(tokens, c)
    case 2 => ImperativeAt(tokens, c)
    case 3 => IfAt(tokens, c)
    case 4 => ElseAt(tokens, c)
    case 5 => ForAt(tokens, c)
    case 6 => WhileAt(tokens, c)
    case 7 => FunctionAt(tokens, c)
    case 8 => ReturnAt(tokens, c)
    case 9 => CommentAt(tokens, c)
    case _ => ImportAt(tokens, c)
  }

  /** One alternative of `sentence()`: its answer when it does not give up,
      the rest of the alternatives from where it gave up otherwise. */
  lemma AlternativeStep(tokens: seq<Token>, first: Token, c: Cursor, k: nat)
    requires c.current <= |tokens| && k < 11
    ensures var a := Alternative(tokens, c, k);
      if a.out.Failure? then Agrees(AlternativesFrom(tokens, first, c, k), AlternativesFrom(tokens, first, a.at, k + 1))
      else AlternativesFrom(tokens, first, c, k) == a
  {
  }

  /** `if_()`: `si condition tum block`. */
  function IfAt(tokens: seq<Token>, c: Cursor): (r: Parsed<Sentence>)
    requires c.current <= |tokens|
    ensures Production(|tokens|, c, r)
    ensures r.out.Success? ==> r.out.value.If? && r.out.value.pos == PosOf(tokens[c.current])
    decreases |tokens| - c.current, 0, 0
  {
    var n := |tokens|;
    if c.current == n then Parsed(Thrown, c)
    else
      var start := tokens[c.current];
      var keyword := Expect(tokens, Enter(c), "Expected 'si'", {TokenType.If});
      if !keyword.out.Success? then Abandon(n, c, keyword)
      else
        var condition := ExpressionAt(tokens, keyword.at);
        WithinTransitive(n, Enter(c), keyword.at, condition.at);
        if !condition.out.Success? then Abandon(n, c, condition)
        else
          var then_ := Expect(tokens, condition.at, "Expected 'tum'", {Then});
          WithinTransitive(n, Enter(c), condition.at, then_.at);
          if !then_.out.Success? then Abandon(n, c, then_)
          else
            var body := SentenceListAt(tokens, then_.at, true);
            WithinTransitive(n, Enter(c), then_.at, body.at);
            if !body.out.Success? then Abandon(n, c, body)
            else Complete(n, c, body.at, Sentence.If(PosOf(start), condition.out.value, body.out.value))
  }

  /** `else_()`: `aliter` and then either a whole `si` sentence, or `tum`
      and a block, tried where the `si` gave up. */
  function ElseAt(tokens: seq<Token>, c: Cursor): (r: Parsed<Sentence>)
    requires c.current <= |tokens|
    ensures Production(|tokens|, c, r)
    ensures r.out.Success? ==> r.out.value.Else? && r.out.value.pos == PosOf(tokens[c.current])
    decreases |tokens| - c.current, 0, 0
  {
    var n := |tokens|;
    if c.current == n then Parsed(Thrown, c)
    else
      var start := tokens[c.current];
      var keyword := Expect(tokens, Enter(c), "Expected 'aliter'", {TokenType.Else});
      if !keyword.out.Success? then Abandon(n, c, keyword)
      else
        var branch := IfAt(tokens, keyword.at);
        WithinTransitive(n, Enter(c), keyword.at, branch.at);
        if branch.out.Success? then
          var orIf := branch.out.value;
          Complete(n, c, branch.at, Sentence.Else(PosOf(start), OrIf(orIf.pos, orIf.condition, orIf.body)))
        else if branch.out.Thrown? then Parsed(Thrown, c)
        else
          var then_ := Expect(tokens, branch.at, "Expected 'tum'", {Then});
          WithinTransitive(n, Enter(c), branch.at, then_.at);
          if !then_.out.Success? then Abandon(n, c, then_)
          else
            var body := SentenceListAt(tokens, then_.at, true);
            WithinTransitive(n, Enter(c), then_.at, body.at);
            if !body.out.Success? then Abandon(n, c, body)
            else Complete(n, c, body.at, Sentence.Else(PosOf(start), Otherwise(body.out.value)))
  }

  /** `for_()`: `per name ab low ad high face block`, with `ab` and `ad` in
      either order but not the same one twice. The sentence is at the
      position of its block. */
  function ForAt(tokens: seq<Token>, c: Cursor): (r: Parsed<Sentence>)
    requires c.current <= |tokens|
    ensures Production(|tokens|, c, r)
    ensures r.out.Success? ==> r.out.value.For?
    decreases |tokens| - c.current, 0, 1
  {
    var n := |tokens|;
    if c.current == n then Parsed(Thrown, c)
    else
      var start := tokens[c.current];
      var keyword := Expect(tokens, Enter(c), "Expected 'per'", {TokenType.For});
      if !keyword.out.Success? then Abandon(n, c, keyword)
      else
        var variable := IdentifierAt(tokens, keyword.at);
        WithinTransitive(n, Enter(c), keyword.at, variable.at);
        if !variable.out.Success? then Abandon(n, c, variable)
        else
          var first := Expect(tokens, variable.at, "Expected 'ab' or 'ad'", {From, To});
          WithinTransitive(n, Enter(c), variable.at, first.at);
          if !first.out.Success? then Abandon(n, c, first)
          else
            var bound1 := ExpressionAt(tokens, first.at);
            WithinTransitive(n, Enter(c), first.at, bound1.at);
            if !bound1.out.Success? then Abandon(n, c, bound1)
            else
              var second := Expect(tokens, bound1.at, "Expected 'ab' or 'ad'", {From, To});
              WithinTransitive(n, Enter(c), bound1.at, second.at);
              if !second.out.Success? then Abandon(n, c, second)
              else
                ForRest(tokens, c, start, variable.out.value, first.out.value, bound1.out.value, second.out.value, second.at)
  }

  /** The rest of `for_()`, once both bounds' keywords are read. */
  function ForRest(tokens: seq<Token>, c: Cursor, start: Token, variable: Ident,
                   first: Token, bound1: Expr, second: Token, at: Cursor): (r: Parsed<Sentence>)
    requires c.current < at.current <= |tokens| && Within(|tokens|, Enter(c), at)
    requires at.saved == Enter(c).saved
    ensures Keeps(|tokens|, c, r) && Restores(c, r) && Consumes(c, r)
    ensures r.out.Success? ==> r.out.value.For?
    ensures first.kind == second.kind ==>
      r == Parsed(Failure(ErrorAt(SyntaxError,
                                  "Expected '" + (if first.kind == From then "ad" else "ab") + "' after '" + first.value + "'",
                                  start.line, start.column, start.file)), c)
    decreases |tokens| - c.current, 0, 0
  {
    var n := |tokens|;
    WithinEntered(n, c, at);
    if first.kind == second.kind then
      var expected := if first.kind == From then "ad" else "ab";
      Parsed(Failure(ErrorAt(SyntaxError, "Expected '" + expected + "' after '" + first.value + "'",
                             start.line, start.column, start.file)), Rollback(at))
    else
      var bound2 := ExpressionAt(tokens, at);
      WithinTransitive(n, Enter(c), at, bound2.at);
      if !bound2.out.Success? then Abandon(n, c, bound2)
      else
        var do := Expect(tokens, bound2.at, "Expected 'face'", {Do});
        WithinTransitive(n, Enter(c), bound2.at, do.at);
        if !do.out.Success? then Abandon(n, c, do)
        else
          var body := SentenceListAt(tokens, do.at, true);
          WithinTransitive(n, Enter(c), do.at, body.at);
          if !body.out.Success? then Abandon(n, c, body)
          else
            var fromFirst := first.kind == From;
            Complete(n, c, body.at, Sentence.For(body.out.value.pos, variable,
                                        if fromFirst then bound1 else bound2.out.value,
                                        if fromFirst then bound2.out.value else bound1, body.out.value))
  }

  /** `while_()`: `dum condition face block`. */
  function WhileAt(tokens: seq<Token>, c: Cursor): (r: Parsed<Sentence>)
    requires c.current <= |tokens|
    ensures Production(|tokens|, c, r)
    ensures r.out.Success? ==> r.out.value.While? && r.out.value.pos == PosOf(tokens[c.current])
    decreases |tokens| - c.current, 0, 0
  {
    var n := |tokens|;
    if c.current == n then Parsed(Thrown, c)
    else
      var start := tokens[c.current];
      var keyword := Expect(tokens, Enter(c), "Expected 'dum'", {TokenType.While});
      if !keyword.out.Success? then Abandon(n, c, keyword)
      else
        var condition := ExpressionAt(tokens, keyword.at);
        WithinTransitive(n, Enter(c), keyword.at, condition.at);
        if !condition.out.Success? then Abandon(n, c, condition)
        else
          var do := Expect(tokens, condition.at, "Expected 'face'", {Do});
          WithinTransitive(n, Enter(c), condition.at, do.at);
          if !do.out.Success? then Abandon(n, c, do)
          else
            var body := SentenceListAt(tokens, do.at, true);
            WithinTransitive(n, Enter(c), do.at, body.at);
            if !body.out.Success? then Abandon(n, c, body)
            else Complete(n, c, body.at, Sentence.While(PosOf(start), condition.out.value, body.out.value))
  }

  /** `function_()`: `define name cum param face block`, with `et param2`
      before `face` when `name` is a binary operator. */
  function FunctionAt(tokens: seq<Token>, c: Cursor): (r: Parsed<Sentence>)
    requires c.current <= |tokens|
    ensures Production(|tokens|, c, r)
    ensures r.out.Success? ==>
      r.out.value.Function? && r.out.value.pos == PosOf(tokens[c.current])
      && (r.out.value.param2.Some? <==> r.out.value.identifier.identifier.kind == SpecialBinaryOp)
    decreases |tokens| - c.current, 0, 0
  {
    var n := |tokens|;
    if c.current == n then Parsed(Thrown, c)
    else
      var start := tokens[c.current];
      var keyword := Expect(tokens, Enter(c), "Expected 'define'", {Define});
      if !keyword.out.Success? then Abandon(n, c, keyword)
      else
        var name := IdentifierAt(tokens, keyword.at);
        WithinTransitive(n, Enter(c), keyword.at, name.at);
        if !name.out.Success? then Abandon(n, c, name)
        else
          var with := Expect(tokens, name.at, "Expected 'cum'", {With});
          WithinTransitive(n, Enter(c), name.at, with.at);
          if !with.out.Success? then Abandon(n, c, with)
          else
            var param1 := IdentifierAt(tokens, with.at);
            WithinTransitive(n, Enter(c), with.at, param1.at);
            if !param1.out.Success? then Abandon(n, c, param1)
            else
              var binary := name.out.value.identifier.kind == SpecialBinaryOp;
              var param2 := SecondParameter(tokens, param1.at, binary);
              WithinTransitive(n, Enter(c), param1.at, param2.at);
              if !param2.out.Success? then Abandon(n, c, param2)
              else
                var do := Expect(tokens, param2.at, "Expected 'face'", {Do});
                WithinTransitive(n, Enter(c), param2.at, do.at);
                if !do.out.Success? then Abandon(n, c, do)
                else
                  var body := SentenceListAt(tokens, do.at, true);
                  WithinTransitive(n, Enter(c), do.at, body.at);
                  if !body.out.Success? then Abandon(n, c, body)
                  else Complete(n, c, body.at, Function(PosOf(start), name.out.value, param1.out.value,
                                                        param2.out.value, body.out.value))
  }

  /** `program()`: the list of all sentences, with no `fini` needed, at
      line 1, column 1 of the list's file. */
  function ProgramAt(tokens: seq<Token>, c: Cursor): (r: Parsed<Program>)
    requires c.current <= |tokens|
    ensures Keeps(|tokens|, c, r) && ThrowsAtEnd(|tokens|, c, r)
    ensures r.out.Success? ==> r.out.value.pos == Pos(1, 1, r.out.value.program.pos.file)
  {
    var list := SentenceListAt(tokens, c, false);
    if list.out.Success? then Parsed(Success(Program(Pos(1, 1, list.out.value.pos.file), list.out.value)), list.at)
    else Relay(c, list)
  }

  // ---------------------------------------------------------------------------
  // What each sentence is read from: a sentence production succeeds exactly
  // when its keywords stand where it reads them and its sub-productions
  // succeed one after the other, and its node is built from their values.

  /** `crea variabile name .` */
  lemma VariableDeclarationReads(tokens: seq<Token>, c: Cursor)
    requires c.current <= |tokens|
    ensures var r := VariableDeclarationAt(tokens, c);
      r.out.Success? <==>
        c.current + 1 < |tokens| && tokens[c.current].kind == Create && tokens[c.current + 1].kind == Variable
        && var name := IdentifierAt(tokens, Move(Enter(c), 2));
           name.out.Success? && name.at.current < |tokens| && tokens[name.at.current].kind == EndOfSentence
           && r == Parsed(Success(VariableDeclaration(PosOf(tokens[c.current]), name.out.value)), Commit(Move(name.at, 1)))
  {
  }

  /** `da name value .` */
  lemma AssignmentReads(tokens: seq<Token>, c: Cursor)
    requires c.current <= |tokens|
    ensures var r := AssignmentAt(tokens, c);
      r.out.Success? <==>
        c.current < |tokens| && tokens[c.current].kind == Assign
        && var name := IdentifierAt(tokens, Move(Enter(c), 1));
           name.out.Success?
           && var value := ExpressionAt(tokens, name.at);
              value.out.Success? && value.at.current < |tokens| && tokens[value.at.current].kind == EndOfSentence
              && r == Parsed(Success(Assignment(PosOf(tokens[c.current]), name.out.value, value.out.value)),
                             Commit(Move(value.at, 1)))
  {
    if c.current < |tokens| {
      var assign := Expect(tokens, Enter(c), "Expected 'da'", {Assign});
      if tokens[c.current].kind == Assign {
        assert assign.out.Success? && assign.at == Move(Enter(c), 1);
        var name := IdentifierAt(tokens, assign.at);
        if name.out.Success? {
          var value := ExpressionAt(tokens, name.at);
          if value.out.Success? {
            var end := Expect(tokens, value.at, "Expected '.'", {EndOfSentence});
            assert end.out.Success? <==> value.at.current < |tokens| && tokens[value.at.current].kind == EndOfSentence;
          }
        }
      } else {
        assert !assign.out.Success?;
      }
    }
  }

  /** `value .` */
  lemma ImperativeReads(tokens: seq<Token>, c: Cursor)
    requires c.current <= |tokens|
    ensures var r := ImperativeAt(tokens, c);
      var value := ExpressionAt(tokens, Enter(c));
      r.out.Success? <==>
        value.out.Success? && value.at.current < |tokens| && tokens[value.at.current].kind == EndOfSentence
        && r == Parsed(Success(Imperative(value.out.value.pos, value.out.value)), Commit(Move(value.at, 1)))
  {
  }

  /** `si condition tum block` */
  lemma IfReads(tokens: seq<Token>, c: Cursor)
    requires c.current <= |tokens|
    ensures var r := IfAt(tokens, c);
      r.out.Success? <==>
        c.current < |tokens| && tokens[c.current].kind == TokenType.If
        && var condition := ExpressionAt(tokens, Move(Enter(c), 1));
           condition.out.Success? && condition.at.current < |tokens| && tokens[condition.at.current].kind == Then
           && var body := SentenceListAt(tokens, Move(condition.at, 1), true);
              body.out.Success?
              && r == Parsed(Success(Sentence.If(PosOf(tokens[c.current]), condition.out.value, body.out.value)),
                             Commit(body.at))
  {
  }

  /** `aliter` and a whole `si` sentence, or else `aliter tum block`, read
      where the `si` gave up with an error. */
  lemma ElseReads(tokens: seq<Token>, c: Cursor)
    requires c.current <= |tokens|
    ensures var r := ElseAt(tokens, c);
      r.out.Success? <==>
        c.current < |tokens| && tokens[c.current].kind == TokenType.Else
        && var branch := IfAt(tokens, Move(Enter(c), 1));
           var pos := PosOf(tokens[c.current]);
           (branch.out.Success?
            && r == Parsed(Success(Sentence.Else(pos, OrIf(branch.out.value.pos, branch.out.value.condition, branch.out.value.body))),
                           Commit(branch.at)))
           || (branch.out.Failure? && branch.at.current < |tokens| && tokens[branch.at.current].kind == Then
               && var body := SentenceListAt(tokens, Move(branch.at, 1), true);
                  body.out.Success? && r == Parsed(Success(Sentence.Else(pos, Otherwise(body.out.value))), Commit(body.at)))
  {
  }

  /** The rest of `per`, once both bound keywords are read. */
  lemma ForRestReads(tokens: seq<Token>, c: Cursor, start: Token, variable: Ident,
                     first: Token, bound1: Expr, second: Token, at: Cursor)
    requires c.current < at.current <= |tokens| && Within(|tokens|, Enter(c), at)
    requires at.saved == Enter(c).saved
    ensures var r := ForRest(tokens, c, start, variable, first, bound1, second, at);
      r.out.Success? <==>
        second.kind != first.kind
        && var bound2 := ExpressionAt(tokens, at);
           bound2.out.Success? && bound2.at.current < |tokens| && tokens[bound2.at.current].kind == Do
           && var body := SentenceListAt(tokens, Move(bound2.at, 1), true);
              body.out.Success?
              && r == Parsed(Success(Sentence.For(body.out.value.pos, variable,
                                                  if first.kind == From then bound1 else bound2.out.value,
                                                  if first.kind == From then bound2.out.value else bound1,
                                                  body.out.value)),
                             Commit(body.at))
  {
  }

  /** A `per` sentence that fails has failed to read its head: the keyword,
      the variable, a bound keyword, the first bound and a bound keyword. */
  lemma ForNeedsHead(tokens: seq<Token>, c: Cursor)
    requires c.current <= |tokens|
    ensures ForAt(tokens, c).out.Success? ==>
      c.current < |tokens| && tokens[c.current].kind == TokenType.For
      && var variable := IdentifierAt(tokens, Move(Enter(c), 1));
         variable.out.Success? && variable.at.current < |tokens| && tokens[variable.at.current].kind in {From, To}
         && var bound1 := ExpressionAt(tokens, Move(variable.at, 1));
            bound1.out.Success? && bound1.at.current < |tokens| && tokens[bound1.at.current].kind in {From, To}
  {
    if ForAt(tokens, c).out.Success? {
      var keyword := Expect(tokens, Enter(c), "Expected 'per'", {TokenType.For});
      assert keyword.out.Success?;
      var variable := IdentifierAt(tokens, keyword.at);
      assert variable.out.Success?;
      var first := Expect(tokens, variable.at, "Expected 'ab' or 'ad'", {From, To});
      assert first.out.Success?;
      var bound1 := ExpressionAt(tokens, first.at);
      assert bound1.out.Success?;
    }
  }

  /** Once its head is read, a `per` sentence is what the rest reads. */
  lemma ForReachesRest(tokens: seq<Token>, c: Cursor, variable: Parsed<Ident>, bound1: Parsed<Expr>)
    requires c.current < |tokens| && tokens[c.current].kind == TokenType.For
    requires variable == IdentifierAt(tokens, Move(Enter(c), 1))
    requires variable.out.Success? && variable.at.current < |tokens| && tokens[variable.at.current].kind in {From, To}
    requires bound1 == ExpressionAt(tokens, Move(variable.at, 1))
    requires bound1.out.Success? && bound1.at.current < |tokens| && tokens[bound1.at.current].kind in {From, To}
    ensures c.current < bound1.at.current + 1 && Within(|tokens|, Enter(c), Move(bound1.at, 1))
    ensures Move(bound1.at, 1).saved == Enter(c).saved
    ensures ForAt(tokens, c) == ForRest(tokens, c, tokens[c.current], variable.out.value, tokens[variable.at.current],
                                        bound1.out.value, tokens[bound1.at.current], Move(bound1.at, 1))
  {
    var n := |tokens|;
    var keyword := Expect(tokens, Enter(c), "Expected 'per'", {TokenType.For});
    assert keyword.out.Success? && keyword.at == Move(Enter(c), 1);
    WithinTransitive(n, Enter(c), keyword.at, variable.at);
    var first := Expect(tokens, variable.at, "Expected 'ab' or 'ad'", {From, To});
    assert first.out.Success? && first.at == Move(variable.at, 1);
    WithinTransitive(n, Enter(c), variable.at, first.at);
    WithinTransitive(n, Enter(c), first.at, bound1.at);
    var second := Expect(tokens, bound1.at, "Expected 'ab' or 'ad'", {From, To});
    assert second.out.Success? && second.at == Move(bound1.at, 1);
    WithinTransitive(n, Enter(c), bound1.at, second.at);
  }

  /** `per name ab low ad high face block`, the two bound keywords in either
      order but different. */
  lemma ForReads(tokens: seq<Token>, c: Cursor)
    requires c.current <= |tokens|
    ensures var r := ForAt(tokens, c);
      r.out.Success? <==>
        c.current < |tokens| && tokens[c.current].kind == TokenType.For
        && var variable := IdentifierAt(tokens, Move(Enter(c), 1));
           variable.out.Success? && variable.at.current < |tokens|
           && var first := tokens[variable.at.current];
              first.kind in {From, To}
              && var bound1 := ExpressionAt(tokens, Move(variable.at, 1));
                 bound1.out.Success? && bound1.at.current < |tokens|
                 && var second := tokens[bound1.at.current];
                    second.kind in {From, To} && second.kind != first.kind
                    && var bound2 := ExpressionAt(tokens, Move(bound1.at, 1));
                       bound2.out.Success? && bound2.at.current < |tokens| && tokens[bound2.at.current].kind == Do
                       && var body := SentenceListAt(tokens, Move(bound2.at, 1), true);
                          body.out.Success?
                          && r == Parsed(Success(Sentence.For(body.out.value.pos, variable.out.value,
                                                              if first.kind == From then bound1.out.value else bound2.out.value,
                                                              if first.kind == From then bound2.out.value else bound1.out.value,
                                                              body.out.value)),
                                         Commit(body.at))
  {
    ForNeedsHead(tokens, c);
    if c.current < |tokens| && tokens[c.current].kind == TokenType.For {
      var variable := IdentifierAt(tokens, Move(Enter(c), 1));
      if variable.out.Success? && variable.at.current < |tokens| && tokens[variable.at.current].kind in {From, To} {
        var bound1 := ExpressionAt(tokens, Move(variable.at, 1));
        if bound1.out.Success? && bound1.at.current < |tokens| && tokens[bound1.at.current].kind in {From, To} {
          ForReachesRest(tokens, c, variable, bound1);
          ForRestReads(tokens, c, tokens[c.current], variable.out.value, tokens[variable.at.current],
                       bound1.out.value, tokens[bound1.at.current], Move(bound1.at, 1));
        }
      }
    }
  }

  /** `dum condition face block` */
  lemma WhileReads(tokens: seq<Token>, c: Cursor)
    requires c.current <= |tokens|
    ensures var r := WhileAt(tokens, c);
      r.out.Success? <==>
        c.current < |tokens| && tokens[c.current].kind == TokenType.While
        && var condition := ExpressionAt(tokens, Move(Enter(c), 1));
           condition.out.Success? && condition.at.current < |tokens| && tokens[condition.at.current].kind == Do
           && var body := SentenceListAt(tokens, Move(condition.at, 1), true);
              body.out.Success?
              && r == Parsed(Success(Sentence.While(PosOf(tokens[c.current]), condition.out.value, body.out.value)),
                             Commit(body.at))
  {
  }

  /** The last parameter: none, or `et name` for a binary operator. */
  lemma SecondParameterReads(tokens: seq<Token>, c: Cursor, binary: bool)
    requires c.current <= |tokens|
    ensures var r := SecondParameter(tokens, c, binary);
      binary ==>
        (r.out.Success? <==>
          c.current < |tokens| && tokens[c.current].kind == And
          && var name := IdentifierAt(tokens, Move(c, 1));
             name.out.Success? && r == Parsed(Success(Some(name.out.value)), name.at))
  {
  }

  /** `define name cum param face block`, with `et param2` before `face`
      when `name` is a binary operator. */
  lemma FunctionReads(tokens: seq<Token>, c: Cursor)
    requires c.current <= |tokens|
    ensures var r := FunctionAt(tokens, c);
      r.out.Success? <==>
        c.current < |tokens| && tokens[c.current].kind == Define
        && var name := IdentifierAt(tokens, Move(Enter(c), 1));
           name.out.Success? && name.at.current < |tokens| && tokens[name.at.current].kind == With
           && var param1 := IdentifierAt(tokens, Move(name.at, 1));
              param1.out.Success?
              && var param2 := SecondParameter(tokens, param1.at, name.out.value.identifier.kind == SpecialBinaryOp);
                 param2.out.Success? && param2.at.current < |tokens| && tokens[param2.at.current].kind == Do
                 && var body := SentenceListAt(tokens, Move(param2.at, 1), true);
                    body.out.Success?
                    && r == Parsed(Success(Function(PosOf(tokens[c.current]), name.out.value, param1.out.value,
                                                    param2.out.value, body.out.value)),
                                   Commit(body.at))
  {
  }

  /** Two outcomes agree when they answer the same and, unless an exception
      ended the run, leave the same cursor. */
  ghost predicate Agrees<T>(p: Parsed<T>, q: Parsed<T>)
  {
    p.out == q.out && (!p.out.Thrown? ==> p.at == q.at)
  }
}
