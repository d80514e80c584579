/** The syntax tree the parser builds (the node types of src/ast, completed from the way
    src/parse/parser.ts uses it: the `EMPTY` placeholder, the `IMPORT` sentence
    and the composed `si` node with its `elif` list). Every node carries the
    line, column and file of the token it starts at. */
module Ast {
  import opened Either
  import opened Errors
  import opened Lexer
  import opened Numbers

  datatype Pos = Pos(line: int, column: int, file: string)

  /** An `IDENTIFIER` node: the (tagged) token it was read from. */
  datatype Ident = Ident(pos: Pos, identifier: Token)

  datatype Expr =
    | BinaryOp(pos: Pos, operator: Token, left: Expr, right: Expr)
    | UnaryOp(pos: Pos, operator: Token, operand: Expr)
    | NumericLiteral(pos: Pos, representation: Token, number: JsNumber)
    | StringLiteral(pos: Pos, representation: Token, text: string)
    | VariableRef(pos: Pos, identifier: Token, name: string)

  datatype SentenceList = SentenceList(pos: Pos, sentences: seq<Sentence>)

  /** The body of an `aliter`: an unconditional block, or `aliter si … tum …`. */
  datatype ElseBody =
    | Otherwise(block: SentenceList)
    | OrIf(ifPos: Pos, condition: Expr, branch: SentenceList)

  /** An `aliter` entry as the `elif` list of a composed `si` keeps it. */
  datatype Branch = Branch(pos: Pos, body: ElseBody)

  datatype Sentence =
    | VariableDeclaration(pos: Pos, identifier: Ident)
    | Assignment(pos: Pos, identifier: Ident, value: Expr)
    | Imperative(pos: Pos, value: Expr)
    | If(pos: Pos, condition: Expr, body: SentenceList)
    | ComposedIf(pos: Pos, condition: Expr, body: SentenceList, elif: seq<Branch>)
    | Else(pos: Pos, elseBody: ElseBody)
    | For(pos: Pos, variable: Ident, from: Expr, to: Expr, body: SentenceList)
    | While(pos: Pos, condition: Expr, body: SentenceList)
    | Function(pos: Pos, identifier: Ident, param1: Ident, param2: Option<Ident>, body: SentenceList)
    | Return(pos: Pos, value: Expr)
    | Comment(pos: Pos, text: string)
    | Import(pos: Pos, identifier: Ident, path: string)
    | Empty(pos: Pos)

  datatype Program = Program(pos: Pos, program: SentenceList)

  /** An error reported at a node: its line, column and file. */
  function NodeError(pos: Pos, kind: ErrorKind, message: string): QError
  {
    Error(kind, message, pos.line, pos.column, Some(pos.file))
  }

  /** Whether a branch runs only under a condition (`aliter si …`). */
  predicate IsConditional(b: Branch) { b.body.OrIf? }

  // ---------------------------------------------------------------------------
  // The shape the `aliter` folding leaves behind: no `aliter`, no placeholder
  // and no plain `si` in any sentence list, at any depth.

  predicate FoldedList(l: SentenceList)
    decreases l, 1
  {
    forall i :: 0 <= i < |l.sentences| ==> FoldedSentence(l.sentences[i])
  }

  predicate FoldedSentence(s: Sentence)
    decreases s, 0
  {
    match s
    case If(_, _, _) => false
    case Else(_, _) => false
    case Empty(_) => false
    case ComposedIf(_, _, body, elif) =>
      FoldedList(body) && forall j :: 0 <= j < |elif| ==> FoldedBranch(elif[j])
    case For(_, _, _, _, body) => FoldedList(body)
    case While(_, _, body) => FoldedList(body)
    case Function(_, _, _, _, body) => FoldedList(body)
    case _ => true
  }

  predicate FoldedBranch(b: Branch)
    decreases b, 0
  {
    match b.body
    case Otherwise(block) => FoldedList(block)
    case OrIf(_, _, branch) => FoldedList(branch)
  }
}
