/** The tree-walking evaluator of src/runtime/interpreter.ts.

    Environments live in an arena, a sequence of records indexed by `nat`,
    each naming its parent by index; a closure is the FUNCTION node with the
    index of the environment it was defined in. The `State` record the
    source shares between a visit and the visits it makes is threaded in
    and out here: nothing but that chain of visits ever sees it, since a call
    builds a fresh one.

    The functions below say what each case of `visit` computes, on the arena
    as a value; the class `Store` holds the arena in a field and runs the
    same cases with the loops of the source, proved to compute what the
    functions do. `fuel` bounds the closure calls and `dum` iterations a run
    may make: JavaScript gives no such bound, so `OutOfFuel` marks a run
    that the model stops and the source would go on with. */
module Interpreter {
  import opened Either
  import opened Errors
  import opened Lexer
  import opened Numbers
  import opened Ast
  import opened Values
  import Builtins

  /** The three name maps of an environment, as `lookup`'s `type` names them. */
  datatype NameKind = Vars | BinaryOps | UnaryOps

  /** An environment: its three maps and the index of its parent. */
  datatype Env = Env(vars: map<string, Value>, binaryOp: map<string, Value>, unaryOp: map<string, Value>, parent: Option<nat>)

  /** The built-in constants by name, from src/runtime/builtins/constants.ts. */
  type Constants = map<string, Value>

  /** How a visit ends: with the `Either` the source returns, with a
      JavaScript exception (a `panic`, a call of something that is not a
      function, a node `visit` has no case for), with a computation the
      model leaves out (a floating-point quotient, a number with a
      fractional part or an infinity read from a string, the text of a
      dictionary or a function, a `per` over bounds that are not integers),
      or with the fuel spent. */
  datatype Outcome =
    | Normal(result: Either<Value, QError>)
    | Threw
    | Unmodelled
    | OutOfFuel

  /** The `State` record: whether the visit runs a function body, and the
      flags that stop the enclosing lists and loops. `toBreak` and
      `toContinue` are read but never set. */
  datatype State = State(isFunctionContext: bool, toReturn: bool, toBreak: bool, toContinue: bool)

  /** What evaluating an expression leaves: its outcome and the arena. */
  datatype Evaluation = Evaluation(outcome: Outcome, envs: seq<Env>)

  /** What visiting a sentence leaves: its outcome, the arena and the state. */
  datatype Run = Run(outcome: Outcome, envs: seq<Env>, state: State)

  /** `createEnvironment(parent)` */
  function Fresh(parent: Option<nat>): Env
  {
    Env(map[], map[], map[], parent)
  }

  /** The operator functions of a built-in module, by name. */
  function BuiltinMap(names: seq<string>): (m: map<string, Value>)
    ensures forall n :: n in m <==> n in names
    ensures forall n :: n in m ==> m[n] == Builtin(n)
  {
    map n | n in names :: Builtin(n)
  }

  /** The environment `execute` makes first: the constants as variables and
      the built-in operators. */
  function RootEnv(k: Constants): Env
  {
    Env(k, BuiltinMap(Builtins.BinaryNames), BuiltinMap(Builtins.UnaryNames), None)
  }

  function Names(e: Env, kind: NameKind): map<string, Value>
  {
    match kind
    case Vars => e.vars
    case BinaryOps => e.binaryOp
    case UnaryOps => e.unaryOp
  }

  /** `NameTypes`: how the error messages call each kind of name. */
  function KindName(kind: NameKind): string
  {
    match kind
    case Vars => "variable"
    case BinaryOps => "binary operator"
    case UnaryOps => "unary operator"
  }

  /** Every environment's parent comes before it in the arena. */
  predicate Linked(envs: seq<Env>)
  {
    forall i :: 0 <= i < |envs| && envs[i].parent.Some? ==> envs[i].parent.value < i
  }

  /** The arena `after` extends `before`: nothing removed, no parent changed,
      and still linked. The maps of existing environments may change. */
  predicate Grows(before: seq<Env>, after: seq<Env>)
  {
    |before| <= |after| && Linked(after)
    && forall i :: 0 <= i < |before| ==> after[i].parent == before[i].parent
  }

  lemma GrowsTransitive(a: seq<Env>, b: seq<Env>, c: seq<Env>)
    requires Grows(a, b) && Grows(b, c)
    ensures Grows(a, c)
  {
  }

  /** The environments from `env` up to the root, innermost first. */
  function Ancestors(envs: seq<Env>, env: nat): (c: seq<nat>)
    requires Linked(envs) && env < |envs|
    ensures |c| >= 1 && c[0] == env
    ensures forall i :: 0 <= i < |c| ==> c[i] < |envs|
    decreases env
  {
    match envs[env].parent
    case None => [env]
    case Some(p) => [env] + Ancestors(envs, p)
  }

  // ---------------------------------------------------------------------------
  // Names.

  /** The dictionary `variabilia` is: the three maps of the environment the
      search starts in. */
  function InScope(e: Env): Value
  {
    Dict(map["vars" := Dict(e.vars), "binaryOp" := Dict(e.binaryOp), "unaryOp" := Dict(e.unaryOp)])
  }

  /** The dictionary `intrinseca` is: the constants and the built-in operators. */
  function Intrinsics(k: Constants): Value
  {
    Dict(map["vars" := Dict(k), "binaryOp" := Dict(BuiltinMap(Builtins.BinaryNames)),
             "unaryOp" := Dict(BuiltinMap(Builtins.UnaryNames))])
  }

  /** Whether `lookup` answers `name` of this kind before searching. */
  predicate Special(name: string, kind: NameKind)
  {
    kind == Vars && (name == "variabilia" || name == "intrinseca")
  }

  /** `lookup(name, env, type)` */
  function Lookup(envs: seq<Env>, k: Constants, name: string, env: nat, kind: NameKind): (r: Either<Value, string>)
    requires Linked(envs) && env < |envs|
    ensures r.Err? ==> r.error == "Undefined " + KindName(kind) + ": '" + name + "'"
    decreases env
  {
    if kind == Vars && name == "variabilia" then Ok(InScope(envs[env]))
    else if kind == Vars && name == "intrinseca" then Ok(Intrinsics(k))
    else if name in Names(envs[env], kind) then Ok(Names(envs[env], kind)[name])
    else match envs[env].parent
      case Some(p) => Lookup(envs, k, name, p, kind)
      case None => Err("Undefined " + KindName(kind) + ": '" + name + "'")
  }

  /** The map a tagged token is looked up in; `None` for a token of another
      type, for which the source indexes its table with `undefined`. */
  function KindOf(t: TokenType): (r: Option<NameKind>)
    ensures r.Some? <==> t == SpecialVariable || t == SpecialBinaryOp || t == SpecialUnaryOp
  {
    if t == SpecialVariable then Some(Vars)
    else if t == SpecialBinaryOp then Some(BinaryOps)
    else if t == SpecialUnaryOp then Some(UnaryOps)
    else None
  }

  /** `lookupWithTokenType(name, env, type)` */
  function LookupWithTokenType(envs: seq<Env>, k: Constants, name: string, env: nat, t: TokenType)
    : (r: Option<Either<Value, string>>)
    requires Linked(envs) && env < |envs|
    ensures r.Some? <==> KindOf(t).Some?
    ensures t == SpecialVariable ==> r == Some(Lookup(envs, k, name, env, Vars))
    ensures t == SpecialBinaryOp ==> r == Some(Lookup(envs, k, name, env, BinaryOps))
    ensures t == SpecialUnaryOp ==> r == Some(Lookup(envs, k, name, env, UnaryOps))
  {
    match KindOf(t)
    case Some(kind) => Some(Lookup(envs, k, name, env, kind))
    case None => None
  }

  /** `setVar(name, env, value)`: the arena after it, and its answer. */
  function Assigned(envs: seq<Env>, k: Constants, name: string, env: nat, value: Value): (r: (seq<Env>, Either<Value, string>))
    requires Linked(envs) && env < |envs|
    ensures |r.0| == |envs|
    ensures forall i :: 0 <= i < |envs| ==>
      r.0[i].parent == envs[i].parent && r.0[i].binaryOp == envs[i].binaryOp && r.0[i].unaryOp == envs[i].unaryOp
    ensures forall i :: env < i < |envs| ==> r.0[i] == envs[i]
    decreases env
  {
    if name in k then (envs, Ok(value))
    else if name in envs[env].vars then (envs[env := envs[env].(vars := envs[env].vars[name := value])], Ok(value))
    else match envs[env].parent
      case Some(p) => (Assigned(envs, k, name, p, value).0, Ok(value))
      case None => (envs, Err("Undefined variable: '" + name + "'"))
  }

  // ---------------------------------------------------------------------------
  // What a visit computes.

  /** A visit that keeps to the discipline of the `State` record: whether it
      runs a function body and the two reserved flags never change, a set
      `toReturn` stays set, outside a function body the state stays as it
      is, and the visit that sets `toReturn` succeeds with a value. */
  predicate Disciplined(state: State, r: Run)
  {
    r.state.isFunctionContext == state.isFunctionContext
    && r.state.toBreak == state.toBreak && r.state.toContinue == state.toContinue
    && (state.toReturn ==> r.state.toReturn)
    && (!state.isFunctionContext ==> r.state == state)
    && (!state.toReturn && r.state.toReturn ==> r.outcome.Normal? && r.outcome.result.Ok?)
  }

  /** Whether an evaluation ended in anything but a value. */
  predicate Failed(o: Outcome)
  {
    !o.Normal? || o.result.Err?
  }

  /** A built-in operator applied to the arguments of the call. */
  function BuiltinCalled(f: Value, args: seq<Value>): Outcome
  {
    match f
    case Builtin(name) =>
      var applied :=
        if |args| == 2 then Builtins.ApplyBinary(name, args[0], args[1])
        else if |args| == 1 then Builtins.ApplyUnary(name, args[0])
        else None;
      if applied.Some? then Normal(applied.value) else Unmodelled
    case _ => Threw
  }

  /** The `i`-th argument of a call, `undefined` when it is missing. */
  function Arg(args: seq<Value>, i: nat): Value
  {
    if i < |args| then args[i] else Undefined
  }

  /** The variables of a fresh call environment: the parameters bound. */
  function Bound(node: Sentence, args: seq<Value>): map<string, Value>
    requires node.Function?
  {
    var first := map[node.param1.identifier.value := Arg(args, 0)];
    if node.param2.Some? then first[node.param2.value.identifier.value := Arg(args, 1)] else first
  }

  /** The value of an expression in environment `env`. */
  function Evaluated(envs: seq<Env>, k: Constants, e: Expr, env: nat, fuel: nat): (r: Evaluation)
    requires Linked(envs) && env < |envs|
    ensures Grows(envs, r.envs)
    decreases fuel, e, 1, 0
  {
    match e
    case NumericLiteral(_, _, n) => Evaluation(Normal(Ok(Num(n))), envs)
    case StringLiteral(_, _, s) => Evaluation(Normal(Ok(Str(s))), envs)
    case VariableRef(pos, identifier, _) => Evaluation(VariableValue(envs, k, pos, identifier, env), envs)
    case UnaryOp(_, _, _) => UnaryApplied(envs, k, e, env, fuel)
    case BinaryOp(_, _, _, _) => BinaryApplied(envs, k, e, env, fuel)
  }

  /** The `VARIABLE` case: the name looked up in the map its token's type names. */
  function VariableValue(envs: seq<Env>, k: Constants, pos: Pos, identifier: Token, env: nat): Outcome
    requires Linked(envs) && env < |envs|
  {
    match LookupWithTokenType(envs, k, identifier.value, env, identifier.kind)
    case None => Threw
    case Some(Err(message)) => Normal(Err(NodeError(pos, NameError, message)))
    case Some(Ok(v)) => Normal(Ok(v))
  }

  /** The `BINARY_OP` case: both operands evaluated, left first, before
      either is checked; then the operator looked up and called. */
  function BinaryApplied(envs: seq<Env>, k: Constants, e: Expr, env: nat, fuel: nat): (r: Evaluation)
    requires Linked(envs) && env < |envs| && e.BinaryOp?
    ensures Grows(envs, r.envs)
    decreases fuel, e, 0, 1
  {
    var l := Evaluated(envs, k, e.left, env, fuel);
    if !l.outcome.Normal? then l
    else
      var r := Evaluated(l.envs, k, e.right, env, fuel);
      if !r.outcome.Normal? then r
      else if l.outcome.result.Err? then Evaluation(l.outcome, r.envs)
      else if r.outcome.result.Err? then r
      else OperatorCalled(r.envs, k, e, env, BinaryOps, [l.outcome.result.value, r.outcome.result.value], fuel)
  }

  /** The operator of an operation looked up in the map `kind` names from
      `env`, and called on the operands' values: a built-in directly, a
      closure at the cost of one unit of fuel. */
  function OperatorCalled(envs: seq<Env>, k: Constants, e: Expr, env: nat, kind: NameKind, args: seq<Value>, fuel: nat)
    : (r: Evaluation)
    requires Linked(envs) && env < |envs| && (e.BinaryOp? || e.UnaryOp?)
    ensures Grows(envs, r.envs)
    decreases fuel, e, 0, 0
  {
    match Lookup(envs, k, e.operator.value, env, kind)
    case Err(message) => Evaluation(Normal(Err(NodeError(e.pos, NameError, message))), envs)
    case Ok(f) =>
      if !f.Closure? then Evaluation(BuiltinCalled(f, args), envs)
      else if fuel == 0 then Evaluation(OutOfFuel, envs)
      else ClosureCalled(envs, k, f, args, fuel - 1)
  }

  /** The `UNARY_OP` case. */
  function UnaryApplied(envs: seq<Env>, k: Constants, e: Expr, env: nat, fuel: nat): (r: Evaluation)
    requires Linked(envs) && env < |envs| && e.UnaryOp?
    ensures Grows(envs, r.envs)
    decreases fuel, e, 0, 1
  {
    var o := Evaluated(envs, k, e.operand, env, fuel);
    if Failed(o.outcome) then o
    else OperatorCalled(o.envs, k, e, env, UnaryOps, [o.outcome.result.value], fuel)
  }

  /** A call of a closure: a fresh environment under the one the function
      was defined in, holding the parameters, and a fresh state that marks
      a function body. A closure is only ever made from a FUNCTION node and
      an environment of the arena; for anything else the model answers
      `Threw`. */
  function ClosureCalled(envs: seq<Env>, k: Constants, f: Value, args: seq<Value>, fuel: nat): (r: Evaluation)
    requires Linked(envs) && f.Closure?
    ensures Grows(envs, r.envs)
    decreases fuel, f, 0, 0
  {
    if !f.node.Function? || f.env >= |envs| then Evaluation(Threw, envs)
    else
      var locals := |envs|;
      var inner := envs + [Env(Bound(f.node, args), map[], map[], Some(f.env))];
      var run := Listed(inner, k, f.node.body, locals, State(true, false, false, false), fuel);
      Evaluation(run.outcome, run.envs)
  }

  /** A sentence list: its sentences in order, until one fails or stops the
      list; the result of the last one visited, `ok(null)` for none. */
  function Listed(envs: seq<Env>, k: Constants, l: SentenceList, env: nat, state: State, fuel: nat): (r: Run)
    requires Linked(envs) && env < |envs|
    ensures Grows(envs, r.envs) && Disciplined(state, r)
    decreases fuel, l, 2, 0
  {
    ListFrom(envs, k, l, 0, env, state, fuel, Ok(Null))
  }

  /** Whether the state stops a sentence list. */
  predicate Halts(state: State)
  {
    state.toReturn || state.toBreak || state.toContinue
  }

  function ListFrom(envs: seq<Env>, k: Constants, l: SentenceList, i: nat, env: nat, state: State,
                    fuel: nat, result: Either<Value, QError>): (r: Run)
    requires Linked(envs) && env < |envs| && i <= |l.sentences|
    ensures Grows(envs, r.envs) && Disciplined(state, r)
    ensures i == |l.sentences| ==> r == Run(Normal(result), envs, state)
    decreases fuel, l, 1, |l.sentences| - i
  {
    if i == |l.sentences| then Run(Normal(result), envs, state)
    else
      var r := Visited(envs, k, l.sentences[i], env, state, fuel);
      if Failed(r.outcome) || Halts(r.state) then r
      else ListFrom(r.envs, k, l, i + 1, env, r.state, fuel, r.outcome.result)
  }

  /** One sentence in environment `env`. */
  function Visited(envs: seq<Env>, k: Constants, s: Sentence, env: nat, state: State, fuel: nat): (r: Run)
    requires Linked(envs) && env < |envs|
    ensures Grows(envs, r.envs) && Disciplined(state, r)
    decreases fuel, s, 3, 0
  {
    match s
    case VariableDeclaration(pos, identifier) => Declared(envs, k, pos, identifier.identifier.value, env, state)
    case Assignment(_, _, _) => AssignmentVisited(envs, k, s, env, state, fuel)
    case Imperative(_, value) =>
      var v := Evaluated(envs, k, value, env, fuel);
      Run(v.outcome, v.envs, state)
    case If(_, _, _) => Run(Threw, envs, state)
    case ComposedIf(_, _, _, _) => IfVisited(envs, k, s, env, state, fuel)
    case Else(_, _) => Run(Threw, envs, state)
    case For(_, _, _, _, _) => ForVisited(envs, k, s, env, state, fuel)
    case While(_, _, _) => WhileFrom(envs, k, s, env, state, fuel, Ok(Null))
    case Function(_, _, _, _, _) => Run(Normal(Ok(Closure(s, env))), Defined(envs, s, env), state)
    case Return(_, _) => ReturnVisited(envs, k, s, env, state, fuel)
    case Comment(_, _) => Run(Normal(Ok(Null)), envs, state)
    case Import(_, _, _) => Run(Threw, envs, state)
    case Empty(_) => Run(Normal(Ok(Null)), envs, state)
  }

  /** The `VARIABLE_DECLARATION` case: a constant's name is refused, any
      other name is bound to `undefined` in `env` itself. */
  function Declared(envs: seq<Env>, k: Constants, pos: Pos, name: string, env: nat, state: State): (r: Run)
    requires Linked(envs) && env < |envs|
    ensures Grows(envs, r.envs) && r.state == state
    ensures name in k <==> r.outcome == Normal(Err(NodeError(pos, SyntaxError, "Cannot redeclare built-in variable: '" + name + "'")))
    ensures name in k ==> r.envs == envs
    ensures name !in k ==>
      r.outcome == Normal(Ok(Null)) && |r.envs| == |envs|
      && r.envs[env].vars == envs[env].vars[name := Undefined]
      && r.envs[env].binaryOp == envs[env].binaryOp && r.envs[env].unaryOp == envs[env].unaryOp
      && forall j :: 0 <= j < |envs| && j != env ==> r.envs[j] == envs[j]
  {
    if name in k then
      Run(Normal(Err(NodeError(pos, SyntaxError, "Cannot redeclare built-in variable: '" + name + "'"))), envs, state)
    else
      Run(Normal(Ok(Null)), envs[env := envs[env].(vars := envs[env].vars[name := Undefined])], state)
  }

  /** The `ASSIGNMENT` case. */
  function AssignmentVisited(envs: seq<Env>, k: Constants, s: Sentence, env: nat, state: State, fuel: nat): (r: Run)
    requires Linked(envs) && env < |envs| && s.Assignment?
    ensures Grows(envs, r.envs) && r.state == state
    decreases fuel, s, 2, 0
  {
    var v := Evaluated(envs, k, s.value, env, fuel);
    if Failed(v.outcome) then Run(v.outcome, v.envs, state)
    else
      var (after, answer) := Assigned(v.envs, k, s.identifier.identifier.value, env, v.outcome.result.value);
      if answer.Err? then Run(Normal(Err(NodeError(s.pos, NameError, answer.error))), after, state)
      else Run(Normal(Ok(Null)), after, state)
  }

  /** The `FUNCTION` case: the closure installed in `env`, as a unary
      operator when there is no second parameter, else as a binary one. */
  function Defined(envs: seq<Env>, s: Sentence, env: nat): (r: seq<Env>)
    requires env < |envs| && s.Function?
    ensures |r| == |envs| && forall j :: 0 <= j < |envs| && j != env ==> r[j] == envs[j]
    ensures r[env].vars == envs[env].vars && r[env].parent == envs[env].parent
    ensures s.param2.None? ==>
      r[env].unaryOp == envs[env].unaryOp[s.identifier.identifier.value := Closure(s, env)]
      && r[env].binaryOp == envs[env].binaryOp
    ensures s.param2.Some? ==>
      r[env].binaryOp == envs[env].binaryOp[s.identifier.identifier.value := Closure(s, env)]
      && r[env].unaryOp == envs[env].unaryOp
  {
    var name := s.identifier.identifier.value;
    if s.param2.None? then envs[env := envs[env].(unaryOp := envs[env].unaryOp[name := Closure(s, env)])]
    else envs[env := envs[env].(binaryOp := envs[env].binaryOp[name := Closure(s, env)])]
  }

  /** The `IF` case, on a composed `si`. */
  function IfVisited(envs: seq<Env>, k: Constants, s: Sentence, env: nat, state: State, fuel: nat): (r: Run)
    requires Linked(envs) && env < |envs| && s.ComposedIf?
    ensures Grows(envs, r.envs) && Disciplined(state, r)
    decreases fuel, s, 2, 0
  {
    var c := Evaluated(envs, k, s.condition, env, fuel);
    if Failed(c.outcome) then Run(c.outcome, c.envs, state)
    else if Truthy(c.outcome.result.value) then Listed(c.envs, k, s.body, env, state, fuel)
    else ElifFrom(c.envs, k, s, 0, env, state, fuel)
  }

  /** The scan of the `aliter` branches from the `i`-th: the first
      unconditional one, or the first whose condition holds, runs. */
  function ElifFrom(envs: seq<Env>, k: Constants, s: Sentence, i: nat, env: nat, state: State, fuel: nat): (r: Run)
    requires Linked(envs) && env < |envs| && s.ComposedIf? && i <= |s.elif|
    ensures Grows(envs, r.envs) && Disciplined(state, r)
    decreases fuel, s, 1, |s.elif| - i
  {
    if i == |s.elif| then Run(Normal(Ok(Null)), envs, state)
    else
      assert s.elif[i] in s.elif;
      match s.elif[i].body
      case OrIf(_, condition, branch) =>
        var c := Evaluated(envs, k, condition, env, fuel);
        if Failed(c.outcome) then Run(c.outcome, c.envs, state)
        else if Truthy(c.outcome.result.value) then Listed(c.envs, k, branch, env, state, fuel)
        else ElifFrom(c.envs, k, s, i + 1, env, state, fuel)
      case Otherwise(block) => Listed(envs, k, block, env, state, fuel)
  }

  /** The `FOR` case: the environment `locals` made first, then both bounds
      evaluated once, in `env`; the body then runs in `locals` for each
      integer from the first bound up to the second. */
  function ForVisited(envs: seq<Env>, k: Constants, s: Sentence, env: nat, state: State, fuel: nat): (r: Run)
    requires Linked(envs) && env < |envs| && s.For?
    ensures Grows(envs, r.envs) && Disciplined(state, r)
    ensures |r.envs| > |envs| && r.envs[|envs|].parent == Some(env)
    decreases fuel, s, 2, 0
  {
    var locals := |envs|;
    var withLocals := envs + [Fresh(Some(env))];
    var from := Evaluated(withLocals, k, s.from, env, fuel);
    if !from.outcome.Normal? then Run(from.outcome, from.envs, state)
    else
      var to := Evaluated(from.envs, k, s.to, env, fuel);
      if !to.outcome.Normal? then Run(to.outcome, to.envs, state)
      else if from.outcome.result.Err? then Run(from.outcome, to.envs, state)
      else if to.outcome.result.Err? then Run(to.outcome, to.envs, state)
      else
        var lo, hi := from.outcome.result.value, to.outcome.result.value;
        if !(lo.Num? && lo.n.Int? && hi.Num? && hi.n.Int?) then Run(Unmodelled, to.envs, state)
        else ForFrom(to.envs, k, s, locals, lo.n.i, hi.n.i, state, fuel, Ok(Null))
  }

  /** The iterations of a `per` loop from `i` on: the loop variable set
      with `setVar` from `locals`, then the body, until the body fails or
      returns. */
  function ForFrom(envs: seq<Env>, k: Constants, s: Sentence, locals: nat, i: int, hi: int, state: State,
                   fuel: nat, result: Either<Value, QError>): (r: Run)
    requires Linked(envs) && locals < |envs| && s.For?
    ensures Grows(envs, r.envs) && Disciplined(state, r)
    decreases fuel, s, 1, (if hi < i then 0 else hi - i + 1)
  {
    if i > hi then Run(Normal(result), envs, state)
    else
      var written := Assigned(envs, k, s.variable.identifier.value, locals, Num(Int(i))).0;
      var b := Listed(written, k, s.body, locals, state, fuel);
      if Failed(b.outcome) || b.state.toReturn || b.state.toBreak then b
      else ForFrom(b.envs, k, s, locals, i + 1, hi, b.state, fuel, b.outcome.result)
  }

  /** The `WHILE` case from one test of the condition on; each further
      iteration costs one unit of fuel. */
  function WhileFrom(envs: seq<Env>, k: Constants, s: Sentence, env: nat, state: State, fuel: nat,
                     result: Either<Value, QError>): (r: Run)
    requires Linked(envs) && env < |envs| && s.While?
    ensures Grows(envs, r.envs) && Disciplined(state, r)
    decreases fuel, s, 1, 0
  {
    var c := Evaluated(envs, k, s.condition, env, fuel);
    if Failed(c.outcome) then Run(c.outcome, c.envs, state)
    else if !Truthy(c.outcome.result.value) then Run(Normal(result), c.envs, state)
    else
      var b := Listed(c.envs, k, s.body, env, state, fuel);
      if Failed(b.outcome) || b.state.toReturn || b.state.toBreak then b
      else if fuel == 0 then Run(OutOfFuel, b.envs, b.state)
      else WhileFrom(b.envs, k, s, env, b.state, fuel - 1, b.outcome.result)
  }

  /** The `RETURN` case: refused outside a function body; inside one, the
      value is evaluated and `toReturn` set. */
  function ReturnVisited(envs: seq<Env>, k: Constants, s: Sentence, env: nat, state: State, fuel: nat): (r: Run)
    requires Linked(envs) && env < |envs| && s.Return?
    ensures Grows(envs, r.envs) && Disciplined(state, r)
    decreases fuel, s, 2, 0
  {
    if !state.isFunctionContext then
      Run(Normal(Err(NodeError(s.pos, SyntaxError, "return statement outside of function"))), envs, state)
    else
      var v := Evaluated(envs, k, s.value, env, fuel);
      if Failed(v.outcome) then Run(v.outcome, v.envs, state)
      else Run(v.outcome, v.envs, state.(toReturn := true))
  }

  /** `execute(program)`: the root environment, a global one under it, and
      the program's list visited there outside any function. */
  function Executed(p: Program, k: Constants, fuel: nat): (r: Run)
    ensures Grows([RootEnv(k), Fresh(Some(0))], r.envs) && r.state == State(false, false, false, false)
  {
    var envs := [RootEnv(k), Fresh(Some(0))];
    Listed(envs, k, p.program, 1, State(false, false, false, false), fuel)
  }

  // ---------------------------------------------------------------------------
  // What the evaluator promises.

  /** The innermost environment on the chain from `env` whose map of this
      kind has the name. */
  function Nearest(envs: seq<Env>, name: string, env: nat, kind: NameKind): (r: Option<nat>)
    requires Linked(envs) && env < |envs|
    ensures r.Some? ==> r.value <= env && name in Names(envs[r.value], kind)
    decreases env
  {
    if name in Names(envs[env], kind) then Some(env)
    else match envs[env].parent
      case Some(p) => Nearest(envs, name, p, kind)
      case None => None
  }

  /** No environment of the chain `c` has `name` in its map of this kind. */
  ghost predicate Missing(envs: seq<Env>, c: seq<nat>, name: string, kind: NameKind)
    requires forall i :: 0 <= i < |c| ==> c[i] < |envs|
  {
    forall i :: 0 <= i < |c| ==> name !in Names(envs[c[i]], kind)
  }

  lemma MissingCons(envs: seq<Env>, e: nat, rest: seq<nat>, name: string, kind: NameKind)
    requires e < |envs| && forall i :: 0 <= i < |rest| ==> rest[i] < |envs|
    ensures Missing(envs, [e] + rest, name, kind) <==> name !in Names(envs[e], kind) && Missing(envs, rest, name, kind)
  {
    var c := [e] + rest;
    if name !in Names(envs[e], kind) && Missing(envs, rest, name, kind) {
      forall i | 0 <= i < |c| ensures name !in Names(envs[c[i]], kind) {
        if i > 0 { assert c[i] == rest[i - 1]; }
      }
    }
    if Missing(envs, c, name, kind) {
      assert c[0] == e;
      forall i | 0 <= i < |rest| ensures name !in Names(envs[rest[i]], kind) {
        assert c[i + 1] == rest[i];
      }
    }
  }

  /** `Nearest` is `None` exactly when no environment on the chain of
      ancestors has the name. */
  lemma {:induction false} NearestNoneIffMissing(envs: seq<Env>, name: string, env: nat, kind: NameKind)
    requires Linked(envs) && env < |envs|
    ensures Nearest(envs, name, env, kind).None? <==> Missing(envs, Ancestors(envs, env), name, kind)
    decreases env
  {
    match envs[env].parent
    case None =>
      assert Ancestors(envs, env) == [env] + [];
      MissingCons(envs, env, [], name, kind);
    case Some(p) =>
      assert Ancestors(envs, env) == [env] + Ancestors(envs, p);
      MissingCons(envs, env, Ancestors(envs, p), name, kind);
      if name !in Names(envs[env], kind) {
        NearestNoneIffMissing(envs, name, p, kind);
      }
  }

  /** When `Nearest` finds the name, it is the first environment on the chain
      of ancestors that has it: `i` is its place on the chain. */
  lemma {:induction false} NearestIsFirstAncestor(envs: seq<Env>, name: string, env: nat, kind: NameKind) returns (i: nat)
    requires Linked(envs) && env < |envs| && Nearest(envs, name, env, kind).Some?
    ensures var c := Ancestors(envs, env);
      i < |c| && c[i] == Nearest(envs, name, env, kind).value && Missing(envs, c[..i], name, kind)
    decreases env
  {
    var c := Ancestors(envs, env);
    if name in Names(envs[env], kind) {
      i := 0;
      assert c[..i] == [];
    } else {
      var p := envs[env].parent.value;
      var rest := Ancestors(envs, p);
      assert c == [env] + rest;
      var j := NearestIsFirstAncestor(envs, name, p, kind);
      assert c[..j + 1] == [env] + rest[..j];
      MissingCons(envs, env, rest[..j], name, kind);
      assert c[j + 1] == rest[j];
      i := j + 1;
    }
  }

  /** `lookup` answers from the innermost environment on the parent chain
      whose map of that kind has the name, and fails exactly when none has;
      `variabilia` and `intrinseca` are answered before any search. */
  lemma {:induction false} LookupFindsNearest(envs: seq<Env>, k: Constants, name: string, env: nat, kind: NameKind)
    requires Linked(envs) && env < |envs| && !Special(name, kind)
    ensures Lookup(envs, k, name, env, kind)
      == match Nearest(envs, name, env, kind)
         case Some(j) => Ok(Names(envs[j], kind)[name])
         case None => Err("Undefined " + KindName(kind) + ": '" + name + "'")
    decreases env
  {
    if name !in Names(envs[env], kind) && envs[env].parent.Some? {
      LookupFindsNearest(envs, k, name, envs[env].parent.value, kind);
    }
  }

  /** The arena with `name` set to `value` in the variables of environment `j`. */
  function WriteAt(envs: seq<Env>, j: nat, name: string, value: Value): seq<Env>
    requires j < |envs|
  {
    envs[j := envs[j].(vars := envs[j].vars[name := value])]
  }

  /** `setVar` on a constant's name answers the value and changes nothing;
      otherwise it writes into the innermost environment on the chain whose
      variables have the name, and nowhere else, or changes nothing when none
      has it. It fails only when the environment it started in has no parent,
      since a parent's failure is dropped. */
  lemma {:induction false} AssignedWritesNearest(envs: seq<Env>, k: Constants, name: string, env: nat, value: Value)
    requires Linked(envs) && env < |envs|
    ensures name in k ==> Assigned(envs, k, name, env, value) == (envs, Ok(value))
    ensures name !in k ==>
      Assigned(envs, k, name, env, value).0
      == match Nearest(envs, name, env, Vars)
         case Some(j) => WriteAt(envs, j, name, value)
         case None => envs
    ensures var r := Assigned(envs, k, name, env, value).1;
      (r.Err? <==> name !in k && name !in envs[env].vars && envs[env].parent.None?)
      && (r.Ok? ==> r.value == value)
    decreases env
  {
    if name !in k && name !in envs[env].vars && envs[env].parent.Some? {
      AssignedWritesNearest(envs, k, name, envs[env].parent.value, value);
    }
  }

  /** A second `setVar` of the same name from the same environment replaces
      the first: writing twice leaves what writing the last value leaves. */
  lemma {:induction false} AssignedOverwrites(envs: seq<Env>, k: Constants, name: string, env: nat, v: Value, w: Value)
    requires Linked(envs) && env < |envs|
    ensures Linked(Assigned(envs, k, name, env, v).0)
    ensures Assigned(Assigned(envs, k, name, env, v).0, k, name, env, w).0 == Assigned(envs, k, name, env, w).0
    decreases env
  {
    var once := Assigned(envs, k, name, env, v).0;
    assert Linked(once) by {
      forall i | 0 <= i < |once| && once[i].parent.Some? ensures once[i].parent.value < i {
        assert once[i].parent == envs[i].parent;
      }
    }
    if name in k {
    } else if name in envs[env].vars {
      assert once == WriteAt(envs, env, name, v);
      assert once[env].vars[name := w] == envs[env].vars[name := w];
    } else if envs[env].parent.Some? {
      var p := envs[env].parent.value;
      AssignedOverwrites(envs, k, name, p, v, w);
      assert once == Assigned(envs, k, name, p, v).0;
      assert once[env] == envs[env];
      assert Assigned(once, k, name, env, w).0 == Assigned(once, k, name, p, w).0;
    }
  }

  /** A sentence list runs its sentences in order: the first sentence's
      visit, and unless it fails or stops the list, the rest of the list
      from the arena and state it leaves, its result standing for the list's
      when nothing follows. */
  lemma ListedInOrder(envs: seq<Env>, k: Constants, pos: Pos, first: Sentence, rest: seq<Sentence>,
                      env: nat, state: State, fuel: nat)
    requires Linked(envs) && env < |envs|
    ensures var r := Visited(envs, k, first, env, state, fuel);
      Listed(envs, k, SentenceList(pos, [first] + rest), env, state, fuel)
      == if Failed(r.outcome) || Halts(r.state) then r
         else ListFrom(r.envs, k, SentenceList(pos, rest), 0, env, r.state, fuel, r.outcome.result)
  {
    var l := SentenceList(pos, [first] + rest);
    var r := Visited(envs, k, first, env, state, fuel);
    assert l.sentences[0] == first;
    if !(Failed(r.outcome) || Halts(r.state)) {
      ListFromShift(r.envs, k, l, 1, SentenceList(pos, rest), 0, env, r.state, fuel, r.outcome.result);
    }
  }

  /** `ListFrom` depends only on the sentences still to run. */
  lemma {:induction false} ListFromShift(envs: seq<Env>, k: Constants, l: SentenceList, i: nat, m: SentenceList, j: nat,
                                         env: nat, state: State, fuel: nat, result: Either<Value, QError>)
    requires Linked(envs) && env < |envs| && i <= |l.sentences| && j <= |m.sentences|
    requires l.sentences[i..] == m.sentences[j..]
    ensures ListFrom(envs, k, l, i, env, state, fuel, result) == ListFrom(envs, k, m, j, env, state, fuel, result)
    decreases |l.sentences| - i
  {
    if i < |l.sentences| {
      assert l.sentences[i] == l.sentences[i..][0] == m.sentences[j..][0] == m.sentences[j];
      var r := Visited(envs, k, l.sentences[i], env, state, fuel);
      if !(Failed(r.outcome) || Halts(r.state)) {
        assert l.sentences[i + 1..] == l.sentences[i..][1..];
        assert m.sentences[j + 1..] == m.sentences[j..][1..];
        ListFromShift(r.envs, k, l, i + 1, m, j + 1, env, r.state, fuel, r.outcome.result);
      }
    }
  }

  /** The integers from `i` up to `hi`, in order. */
  function Range(i: int, hi: int): (r: seq<int>)
    ensures |r| == if hi < i then 0 else hi - i + 1
    ensures forall m :: 0 <= m < |r| ==> r[m] == i + m
    decreases if hi < i then 0 else hi - i + 1
  {
    if i > hi then [] else [i] + Range(i + 1, hi)
  }

  /** The iterations of a `per` loop over the given values, in order: for
      each, the loop variable written from `locals` and the body run in
      `locals`. A body that fails, returns or breaks ends the loop; one that
      sets `toContinue` does not. */
  function ForSeq(envs: seq<Env>, k: Constants, s: Sentence, locals: nat, values: seq<int>, state: State,
                  fuel: nat, result: Either<Value, QError>): (r: Run)
    requires Linked(envs) && locals < |envs| && s.For?
    ensures Grows(envs, r.envs) && Disciplined(state, r)
    ensures values == [] ==> r == Run(Normal(result), envs, state)
    decreases |values|
  {
    if values == [] then Run(Normal(result), envs, state)
    else
      var written := Assigned(envs, k, s.variable.identifier.value, locals, Num(Int(values[0]))).0;
      var b := Listed(written, k, s.body, locals, state, fuel);
      if Failed(b.outcome) || b.state.toReturn || b.state.toBreak then b
      else ForSeq(b.envs, k, s, locals, values[1..], b.state, fuel, b.outcome.result)
  }

  /** Whether a loop's run ends the loop. */
  predicate EndsLoop(r: Run)
  {
    Failed(r.outcome) || r.state.toReturn || r.state.toBreak
  }

  /** `ForFrom` from `i` runs the body for the integers from `i` up to `hi`,
      in order. */
  lemma {:induction false} ForFromIsForSeq(envs: seq<Env>, k: Constants, s: Sentence, locals: nat, i: int, hi: int,
                                           state: State, fuel: nat, result: Either<Value, QError>)
    requires Linked(envs) && locals < |envs| && s.For?
    ensures ForFrom(envs, k, s, locals, i, hi, state, fuel, result) == ForSeq(envs, k, s, locals, Range(i, hi), state, fuel, result)
    decreases if hi < i then 0 else hi - i + 1
  {
    if i <= hi {
      var values := Range(i, hi);
      assert values[0] == i && values[1..] == Range(i + 1, hi);
      var written := Assigned(envs, k, s.variable.identifier.value, locals, Num(Int(i))).0;
      var b := Listed(written, k, s.body, locals, state, fuel);
      if !EndsLoop(b) {
        ForFromIsForSeq(b.envs, k, s, locals, i + 1, hi, b.state, fuel, b.outcome.result);
      }
    }
  }

  /** Iterating over `a + b` iterates over `a`, then, unless that ended the
      loop, over `b` from the arena, state and result it left. */
  lemma {:induction false} ForSeqSplit(envs: seq<Env>, k: Constants, s: Sentence, locals: nat, a: seq<int>, b: seq<int>,
                                       state: State, fuel: nat, result: Either<Value, QError>)
    requires Linked(envs) && locals < |envs| && s.For?
    requires result.Ok? && !state.toReturn && !state.toBreak
    ensures var r := ForSeq(envs, k, s, locals, a, state, fuel, result);
      ForSeq(envs, k, s, locals, a + b, state, fuel, result)
      == if EndsLoop(r) then r else ForSeq(r.envs, k, s, locals, b, r.state, fuel, r.outcome.result)
    decreases |a|
  {
    if a == [] {
      assert a + b == b;
    } else {
      assert (a + b)[0] == a[0] && (a + b)[1..] == a[1..] + b;
      var written := Assigned(envs, k, s.variable.identifier.value, locals, Num(Int(a[0]))).0;
      var r := Listed(written, k, s.body, locals, state, fuel);
      if !EndsLoop(r) {
        ForSeqSplit(r.envs, k, s, locals, a[1..], b, r.state, fuel, r.outcome.result);
      }
    }
  }

  /** A `per` sentence whose bounds evaluate, once each, to the integers `lo`
      and `hi`: its variables live in the one environment made under `env`
      before the bounds are evaluated, and the body runs there for `lo`,
      `lo + 1`, …, `hi` in order. */
  lemma ForVisitedIterates(envs: seq<Env>, k: Constants, s: Sentence, env: nat, state: State, fuel: nat, lo: int, hi: int)
    requires Linked(envs) && env < |envs| && s.For?
    ensures var withLocals := envs + [Fresh(Some(env))];
      var from := Evaluated(withLocals, k, s.from, env, fuel);
      var to := Evaluated(from.envs, k, s.to, env, fuel);
      from.outcome == Normal(Ok(Num(Int(lo)))) && to.outcome == Normal(Ok(Num(Int(hi)))) ==>
        ForVisited(envs, k, s, env, state, fuel) == ForSeq(to.envs, k, s, |envs|, Range(lo, hi), state, fuel, Ok(Null))
  {
    var withLocals := envs + [Fresh(Some(env))];
    var from := Evaluated(withLocals, k, s.from, env, fuel);
    var to := Evaluated(from.envs, k, s.to, env, fuel);
    if from.outcome == Normal(Ok(Num(Int(lo)))) && to.outcome == Normal(Ok(Num(Int(hi)))) {
      assert ForVisited(envs, k, s, env, state, fuel) == ForFrom(to.envs, k, s, |envs|, lo, hi, state, fuel, Ok(Null));
      ForFromIsForSeq(to.envs, k, s, |envs|, lo, hi, state, fuel, Ok(Null));
    }
  }

  /** A `per` loop over `i .. hi` runs no iteration when `i > hi`; with an
      empty body it runs one iteration for each integer up to `hi`
      inclusive, leaving the loop variable written with `hi`. */
  lemma {:induction false} ForRunsToUpperBound(envs: seq<Env>, k: Constants, s: Sentence, locals: nat, i: int, hi: int,
                                               state: State, fuel: nat, result: Either<Value, QError>)
    requires Linked(envs) && locals < |envs| && s.For? && s.body.sentences == []
    requires !state.toReturn && !state.toBreak
    ensures i > hi ==> ForFrom(envs, k, s, locals, i, hi, state, fuel, result) == Run(Normal(result), envs, state)
    ensures i <= hi ==>
      ForFrom(envs, k, s, locals, i, hi, state, fuel, result)
      == Run(Normal(Ok(Null)), Assigned(envs, k, s.variable.identifier.value, locals, Num(Int(hi))).0, state)
    decreases if hi < i then 0 else hi - i + 1
  {
    if i <= hi {
      var name := s.variable.identifier.value;
      var written := Assigned(envs, k, name, locals, Num(Int(i))).0;
      AssignedOverwrites(envs, k, name, locals, Num(Int(i)), Num(Int(hi)));
      if i < hi {
        ForRunsToUpperBound(written, k, s, locals, i + 1, hi, state, fuel, Ok(Null));
        AssignedOverwrites(envs, k, name, locals, Num(Int(i)), Num(Int(hi)));
      } else {
        AssignedOverwrites(envs, k, name, locals, Num(Int(i)), Num(Int(i)));
      }
    }
  }

  /** A `dum` loop tests its condition first. A failure ends it with that
      failure; a falsy value ends it with the result of the last iteration
      (`ok(null)` before any) and the body does not run; a truthy value runs
      the body, and unless that fails, returns or breaks, the loop tests
      again from what the body left, whether `toContinue` is set or not. */
  lemma WhileTestsFirst(envs: seq<Env>, k: Constants, s: Sentence, env: nat, state: State, fuel: nat,
                        result: Either<Value, QError>)
    requires Linked(envs) && env < |envs| && s.While?
    ensures var c := Evaluated(envs, k, s.condition, env, fuel);
      var r := WhileFrom(envs, k, s, env, state, fuel, result);
      (Failed(c.outcome) ==> r == Run(c.outcome, c.envs, state))
      && (!Failed(c.outcome) && !Truthy(c.outcome.result.value) ==> r == Run(Normal(result), c.envs, state))
      && (!Failed(c.outcome) && Truthy(c.outcome.result.value) ==>
            var b := Listed(c.envs, k, s.body, env, state, fuel);
            (EndsLoop(b) ==> r == b)
            && (!EndsLoop(b) && fuel > 0 ==> r == WhileFrom(b.envs, k, s, env, b.state, fuel - 1, b.outcome.result))
            && (!EndsLoop(b) && fuel == 0 ==> r == Run(OutOfFuel, b.envs, b.state)))
  {
  }

  /** A `dum` loop with an empty body whose condition keeps settling to a
      truthy value never ends: it runs until the fuel is spent. */
  lemma {:induction false} WhileTrueRunsOutOfFuel(envs: seq<Env>, k: Constants, s: Sentence, env: nat, state: State,
                                                  fuel: nat, result: Either<Value, QError>)
    requires Linked(envs) && env < |envs| && s.While? && s.body.sentences == []
    requires !state.toReturn && !state.toBreak
    requires forall f: nat :: f <= fuel ==> Settles(envs, k, s.condition, env, f, true)
    ensures WhileFrom(envs, k, s, env, state, fuel, result) == Run(OutOfFuel, envs, state)
    decreases fuel
  {
    assert Settles(envs, k, s.condition, env, fuel, true);
    if fuel > 0 {
      WhileTrueRunsOutOfFuel(envs, k, s, env, state, fuel - 1, Ok(Null));
    }
  }

  /** A binary operation evaluates both operands, left first, before it looks
      at either: when the left one is an error the right one is still
      evaluated, the arena it leaves is kept, and the left error is the
      answer; when both are values, the operator is called on them. */
  lemma BinaryEvaluatesBoth(envs: seq<Env>, k: Constants, e: Expr, env: nat, fuel: nat)
    requires Linked(envs) && env < |envs| && e.BinaryOp?
    ensures var l := Evaluated(envs, k, e.left, env, fuel);
      var r := Evaluated(l.envs, k, e.right, env, fuel);
      var v := Evaluated(envs, k, e, env, fuel);
      (!l.outcome.Normal? ==> v == l)
      && (l.outcome.Normal? && !r.outcome.Normal? ==> v == r)
      && (l.outcome.Normal? && r.outcome.Normal? ==>
            (l.outcome.result.Err? ==> v == Evaluation(l.outcome, r.envs))
            && (l.outcome.result.Ok? && r.outcome.result.Err? ==> v == r)
            && (l.outcome.result.Ok? && r.outcome.result.Ok? ==>
                  v == OperatorCalled(r.envs, k, e, env, BinaryOps, [l.outcome.result.value, r.outcome.result.value], fuel)))
  {
  }

  /** A unary operation evaluates its operand; a failure is the answer,
      and otherwise the operator is called on the operand's value. */
  lemma UnaryEvaluatesOperand(envs: seq<Env>, k: Constants, e: Expr, env: nat, fuel: nat)
    requires Linked(envs) && env < |envs| && e.UnaryOp?
    ensures var o := Evaluated(envs, k, e.operand, env, fuel);
      var v := Evaluated(envs, k, e, env, fuel);
      (Failed(o.outcome) ==> v == o)
      && (!Failed(o.outcome) ==> v == OperatorCalled(o.envs, k, e, env, UnaryOps, [o.outcome.result.value], fuel))
  {
  }

  /** An operator is looked up in the map of its kind: a missing one is a
      NameError at the operation, any other value is applied as a built-in
      without touching the arena, and a closure is called for one unit of fuel. */
  lemma OperatorLooksUp(envs: seq<Env>, k: Constants, e: Expr, env: nat, kind: NameKind, args: seq<Value>, fuel: nat)
    requires Linked(envs) && env < |envs| && (e.BinaryOp? || e.UnaryOp?)
    ensures var v := OperatorCalled(envs, k, e, env, kind, args, fuel);
      var f := Lookup(envs, k, e.operator.value, env, kind);
      (f.Err? ==> v == Evaluation(Normal(Err(NodeError(e.pos, NameError, f.error))), envs))
      && (f.Ok? && !f.value.Closure? ==> v == Evaluation(BuiltinCalled(f.value, args), envs))
      && (f.Ok? && f.value.Closure? && fuel > 0 ==> v == ClosureCalled(envs, k, f.value, args, fuel - 1))
      && (f.Ok? && f.value.Closure? && fuel == 0 ==> v == Evaluation(OutOfFuel, envs))
  {
  }

  /** A function whose body is `redi e` answers what `e` evaluates to in the
      fresh call environment, and the arena that evaluation leaves. */
  lemma CallAnswersReturnedValue(envs: seq<Env>, k: Constants, f: Value, args: seq<Value>, fuel: nat, p: Pos, e: Expr)
    requires Linked(envs) && f.Closure? && f.node.Function? && f.env < |envs|
    requires f.node.body.sentences == [Sentence.Return(p, e)]
    ensures var inner := envs + [Env(Bound(f.node, args), map[], map[], Some(f.env))];
      Linked(inner) && ClosureCalled(envs, k, f, args, fuel) == Evaluation(Evaluated(inner, k, e, |envs|, fuel).outcome, Evaluated(inner, k, e, |envs|, fuel).envs)
  {
    var inner := envs + [Env(Bound(f.node, args), map[], map[], Some(f.env))];
    var body := f.node.body;
    var fs := State(true, false, false, false);
    assert body.sentences[0] == Sentence.Return(p, e);
    var v := Evaluated(inner, k, e, |envs|, fuel);
    var r := Visited(inner, k, body.sentences[0], |envs|, fs, fuel);
    assert r == ReturnVisited(inner, k, body.sentences[0], |envs|, fs, fuel);
    assert r.outcome == v.outcome && r.envs == v.envs;
    assert Failed(r.outcome) || Halts(r.state);
    assert ListFrom(inner, k, body, 0, |envs|, fs, fuel, Ok(Null)) == r;
  }

  /** Condition `e` evaluates, leaving the arena as it was, to an `ok`
      value that is truthy exactly when `truthy` is. */
  predicate Settles(envs: seq<Env>, k: Constants, e: Expr, env: nat, fuel: nat, truthy: bool)
    requires Linked(envs) && env < |envs|
  {
    var c := Evaluated(envs, k, e, env, fuel);
    c.envs == envs && c.outcome.Normal? && c.outcome.result.Ok? && Truthy(c.outcome.result.value) == truthy
  }

  /** The `aliter` entries from the `j`-th up to the `i`-th are all
      conditional, and each condition settles to a falsy value. */
  predicate PassedOver(envs: seq<Env>, k: Constants, s: Sentence, j: nat, i: nat, env: nat, fuel: nat)
    requires Linked(envs) && env < |envs| && s.ComposedIf? && j <= i <= |s.elif|
  {
    forall m :: j <= m < i ==> s.elif[m].body.OrIf? && Settles(envs, k, s.elif[m].body.condition, env, fuel, false)
  }

  /** Entries passed over change nothing: the scan goes on as from the first
      entry after them. */
  lemma {:induction false} ElifPassesOver(envs: seq<Env>, k: Constants, s: Sentence, j: nat, i: nat, env: nat,
                                          state: State, fuel: nat)
    requires Linked(envs) && env < |envs| && s.ComposedIf? && j <= i <= |s.elif|
    requires PassedOver(envs, k, s, j, i, env, fuel)
    ensures ElifFrom(envs, k, s, j, env, state, fuel) == ElifFrom(envs, k, s, i, env, state, fuel)
    decreases i - j
  {
    if j < i {
      assert s.elif[j].body.OrIf? && Settles(envs, k, s.elif[j].body.condition, env, fuel, false);
      ElifPassesOver(envs, k, s, j + 1, i, env, state, fuel);
    }
  }

  /** The condition of `s` settles to a falsy value and so do those of the
      `aliter` entries before the `i`-th, all conditional. */
  predicate Reaches(envs: seq<Env>, k: Constants, s: Sentence, i: nat, env: nat, fuel: nat)
    requires Linked(envs) && env < |envs| && s.ComposedIf?
  {
    i <= |s.elif| && Settles(envs, k, s.condition, env, fuel, false) && PassedOver(envs, k, s, 0, i, env, fuel)
  }

  /** A composed `si` runs its body when its condition is truthy. Otherwise
      the `aliter` entries are tried in order: when the scan reaches the
      `i`-th entry, that entry runs if it is unconditional or its condition
      is truthy, and when the scan passes every entry the answer is
      `ok(null)`. */
  lemma IfRunsFirstChosen(envs: seq<Env>, k: Constants, s: Sentence, i: nat, env: nat, state: State, fuel: nat)
    requires Linked(envs) && env < |envs| && s.ComposedIf?
    ensures var c := Evaluated(envs, k, s.condition, env, fuel);
      !Failed(c.outcome) && Truthy(c.outcome.result.value) ==>
        IfVisited(envs, k, s, env, state, fuel) == Listed(c.envs, k, s.body, env, state, fuel)
    ensures Reaches(envs, k, s, i, env, fuel) && i == |s.elif| ==>
      IfVisited(envs, k, s, env, state, fuel) == Run(Normal(Ok(Null)), envs, state)
    ensures Reaches(envs, k, s, i, env, fuel) && i < |s.elif| && s.elif[i].body.Otherwise? ==>
      IfVisited(envs, k, s, env, state, fuel) == Listed(envs, k, s.elif[i].body.block, env, state, fuel)
    ensures Reaches(envs, k, s, i, env, fuel) && i < |s.elif| && s.elif[i].body.OrIf?
              && Settles(envs, k, s.elif[i].body.condition, env, fuel, true) ==>
      IfVisited(envs, k, s, env, state, fuel) == Listed(envs, k, s.elif[i].body.branch, env, state, fuel)
  {
    if Reaches(envs, k, s, i, env, fuel) {
      ElifPassesOver(envs, k, s, 0, i, env, state, fuel);
    }
  }

  /** A `redi` outside a function body is a SyntaxError at the sentence and
      changes nothing; inside one whose value evaluates, it sets `toReturn`
      and answers the value. */
  lemma ReturnNeedsFunction(envs: seq<Env>, k: Constants, s: Sentence, env: nat, state: State, fuel: nat)
    requires Linked(envs) && env < |envs| && s.Return?
    ensures !state.isFunctionContext ==>
      Visited(envs, k, s, env, state, fuel)
      == Run(Normal(Err(NodeError(s.pos, SyntaxError, "return statement outside of function"))), envs, state)
    ensures var v := Evaluated(envs, k, s.value, env, fuel);
      state.isFunctionContext && !Failed(v.outcome) ==>
        Visited(envs, k, s, env, state, fuel) == Run(v.outcome, v.envs, state.(toReturn := true))
  {
  }

  /** A call runs in a fresh environment, the first one after the caller's
      arena, whose parent is the environment the function was defined in;
      the caller's state is not passed, so evaluating an expression, calls
      included, never sets the caller's `toReturn`. */
  lemma CallIsolated(envs: seq<Env>, k: Constants, f: Value, args: seq<Value>, fuel: nat, pos: Pos, e: Expr,
                     env: nat, state: State)
    requires Linked(envs) && f.Closure? && f.node.Function? && f.env < |envs| && env < |envs|
    ensures var r := ClosureCalled(envs, k, f, args, fuel);
      |r.envs| > |envs| && r.envs[|envs|].parent == Some(f.env)
    ensures Visited(envs, k, Imperative(pos, e), env, state, fuel).state == state
  {
  }

  /** `execute`: the program runs outside any function body, so its state is
      never changed and every `redi` in it is refused. */
  lemma ExecutedOutsideFunctions(p: Program, k: Constants, fuel: nat)
    ensures Executed(p, k, fuel).state == State(false, false, false, false)
    ensures |Executed(p, k, fuel).envs| >= 2
  {
  }

  // ---------------------------------------------------------------------------
  // The evaluator as the source runs it: the arena in a field, changed in
  // place, and the loops of `visit`.

  /** The environments made during a run, and the constants they shadow. */
  class Store {
    var envs: seq<Env>
    const constants: Constants

    constructor (k: Constants)
      ensures envs == [] && constants == k
    {
      envs := [];
      constants := k;
    }

    /** `createEnvironment(parent)`: a new environment at the end of the arena. */
    method CreateEnvironment(parent: Option<nat>) returns (e: nat)
      requires Linked(envs) && (parent.Some? ==> parent.value < |envs|)
      modifies this
      ensures envs == old(envs) + [Fresh(parent)] && e == |old(envs)|
      ensures Linked(envs)
    {
      e := |envs|;
      envs := envs + [Fresh(parent)];
    }

    /** `setVar(name, env, value)`, writing into the arena. */
    method SetVar(name: string, env: nat, value: Value) returns (r: Either<Value, string>)
      requires Linked(envs) && env < |envs|
      modifies this
      ensures (envs, r) == Assigned(old(envs), constants, name, env, value)
      decreases env
    {
      if name in constants {
        return Ok(value);
      }
      if name in envs[env].vars {
        envs := envs[env := envs[env].(vars := envs[env].vars[name := value])];
        return Ok(value);
      }
      match envs[env].parent {
        case Some(p) =>
          var _ := SetVar(name, p, value);
          return Ok(value);
        case None =>
          return Err("Undefined variable: '" + name + "'");
      }
    }

    /** `visit` on an expression. */
    method Evaluate(e: Expr, env: nat, fuel: nat) returns (r: Outcome)
      requires Linked(envs) && env < |envs|
      modifies this
      ensures Evaluation(r, envs) == Evaluated(old(envs), constants, e, env, fuel)
      decreases fuel, e, 1, 0
    {
      match e {
        case NumericLiteral(_, _, n) => r := Normal(Ok(Num(n)));
        case StringLiteral(_, _, text) => r := Normal(Ok(Str(text)));
        case VariableRef(pos, identifier, _) => r := VariableValue(envs, constants, pos, identifier, env);
        case UnaryOp(_, _, _) => r := EvaluateUnary(e, env, fuel);
        case BinaryOp(_, _, _, _) => r := EvaluateBinary(e, env, fuel);
      }
    }

    /** The `BINARY_OP` case. */
    method EvaluateBinary(e: Expr, env: nat, fuel: nat) returns (r: Outcome)
      requires Linked(envs) && env < |envs| && e.BinaryOp?
      modifies this
      ensures Evaluation(r, envs) == BinaryApplied(old(envs), constants, e, env, fuel)
      decreases fuel, e, 0, 1
    {
      var left := Evaluate(e.left, env, fuel);
      if !left.Normal? {
        return left;
      }
      var right := Evaluate(e.right, env, fuel);
      if !right.Normal? {
        return right;
      }
      if left.result.Err? {
        return left;
      }
      if right.result.Err? {
        return right;
      }
      r := CallOperator(e, env, BinaryOps, [left.result.value, right.result.value], fuel);
    }

    /** The `UNARY_OP` case. */
    method EvaluateUnary(e: Expr, env: nat, fuel: nat) returns (r: Outcome)
      requires Linked(envs) && env < |envs| && e.UnaryOp?
      modifies this
      ensures Evaluation(r, envs) == UnaryApplied(old(envs), constants, e, env, fuel)
      decreases fuel, e, 0, 1
    {
      var operand := Evaluate(e.operand, env, fuel);
      if Failed(operand) {
        return operand;
      }
      r := CallOperator(e, env, UnaryOps, [operand.result.value], fuel);
    }

    /** `lookupWithTokenType` on the operator, and the call of what it finds. */
    method CallOperator(e: Expr, env: nat, kind: NameKind, args: seq<Value>, fuel: nat) returns (r: Outcome)
      requires Linked(envs) && env < |envs| && (e.BinaryOp? || e.UnaryOp?)
      modifies this
      ensures Evaluation(r, envs) == OperatorCalled(old(envs), constants, e, env, kind, args, fuel)
      decreases fuel, e, 0, 0
    {
      match Lookup(envs, constants, e.operator.value, env, kind) {
        case Err(message) =>
          return Normal(Err(NodeError(e.pos, NameError, message)));
        case Ok(f) =>
          if !f.Closure? {
            return BuiltinCalled(f, args);
          }
          if fuel == 0 {
            return OutOfFuel;
          }
          r := CallClosure(f, args, fuel - 1);
      }
    }

    /** The function the FUNCTION case installs, called: its parameters
        written into a new environment under the defining one, and its body
        visited there with a fresh state. */
    method CallClosure(f: Value, args: seq<Value>, fuel: nat) returns (r: Outcome)
      requires Linked(envs) && f.Closure?
      modifies this
      ensures Evaluation(r, envs) == ClosureCalled(old(envs), constants, f, args, fuel)
      decreases fuel, f, 0, 0
    {
      if !f.node.Function? || f.env >= |envs| {
        return Threw;
      }
      var node := f.node;
      var locals := CreateEnvironment(Some(f.env));
      envs := envs[locals := envs[locals].(vars := envs[locals].vars[node.param1.identifier.value := Arg(args, 0)])];
      if node.param2.Some? {
        envs := envs[locals := envs[locals].(vars := envs[locals].vars[node.param2.value.identifier.value := Arg(args, 1)])];
      }
      assert envs == old(envs) + [Env(Bound(node, args), map[], map[], Some(f.env))];
      var st;
      r, st := VisitList(node.body, locals, State(true, false, false, false), fuel);
    }

    /** The `SENTENCE_LIST` case: the loop over the sentences. */
    method VisitList(l: SentenceList, env: nat, state: State, fuel: nat) returns (r: Outcome, st: State)
      requires Linked(envs) && env < |envs|
      modifies this
      ensures Run(r, envs, st) == Listed(old(envs), constants, l, env, state, fuel)
      decreases fuel, l, 2, 0
    {
      var result: Either<Value, QError> := Ok(Null);
      st := state;
      var i := 0;
      while i < |l.sentences|
        invariant 0 <= i <= |l.sentences| && Linked(envs) && env < |envs|
        invariant ListFrom(envs, constants, l, i, env, st, fuel, result) == Listed(old(envs), constants, l, env, state, fuel)
        decreases |l.sentences| - i
      {
        r, st := Visit(l.sentences[i], env, st, fuel);
        if Failed(r) || Halts(st) {
          return;
        }
        result := r.result;
        i := i + 1;
      }
      r := Normal(result);
    }

    /** `visit` on a sentence. */
    method Visit(s: Sentence, env: nat, state: State, fuel: nat) returns (r: Outcome, st: State)
      requires Linked(envs) && env < |envs|
      modifies this
      ensures Run(r, envs, st) == Visited(old(envs), constants, s, env, state, fuel)
      decreases fuel, s, 3, 0
    {
      st := state;
      match s {
        case VariableDeclaration(pos, identifier) =>
          r := Declare(pos, identifier.identifier.value, env);
        case Assignment(_, _, _) =>
          r := Assign(s, env, fuel);
        case Imperative(_, value) =>
          r := Evaluate(value, env, fuel);
        case If(_, _, _) =>
          r := Threw;
        case ComposedIf(_, _, _, _) =>
          r, st := VisitIf(s, env, state, fuel);
        case Else(_, _) =>
          r := Threw;
        case For(_, _, _, _, _) =>
          r, st := VisitFor(s, env, state, fuel);
        case While(_, _, _) =>
          r, st := VisitWhile(s, env, state, fuel);
        case Function(_, _, _, _, _) =>
          var name := s.identifier.identifier.value;
          if s.param2.None? {
            envs := envs[env := envs[env].(unaryOp := envs[env].unaryOp[name := Closure(s, env)])];
          } else {
            envs := envs[env := envs[env].(binaryOp := envs[env].binaryOp[name := Closure(s, env)])];
          }
          r := Normal(Ok(Closure(s, env)));
        case Return(_, _) =>
          r, st := VisitReturn(s, env, state, fuel);
        case Comment(_, _) =>
          r := Normal(Ok(Null));
        case Import(_, _, _) =>
          r := Threw;
        case Empty(_) =>
          r := Normal(Ok(Null));
      }
    }

    /** The `VARIABLE_DECLARATION` case. */
    method Declare(pos: Pos, name: string, env: nat) returns (r: Outcome)
      requires Linked(envs) && env < |envs|
      modifies this
      ensures Run(r, envs, State(false, false, false, false))
        == Declared(old(envs), constants, pos, name, env, State(false, false, false, false))
    {
      if name in constants {
        return Normal(Err(NodeError(pos, SyntaxError, "Cannot redeclare built-in variable: '" + name + "'")));
      }
      envs := envs[env := envs[env].(vars := envs[env].vars[name := Undefined])];
      r := Normal(Ok(Null));
    }

    /** The `ASSIGNMENT` case. */
    method Assign(s: Sentence, env: nat, fuel: nat) returns (r: Outcome)
      requires Linked(envs) && env < |envs| && s.Assignment?
      modifies this
      ensures Run(r, envs, State(false, false, false, false))
        == AssignmentVisited(old(envs), constants, s, env, State(false, false, false, false), fuel)
      decreases fuel, s, 2, 0
    {
      var value := Evaluate(s.value, env, fuel);
      if Failed(value) {
        return value;
      }
      var answer := SetVar(s.identifier.identifier.value, env, value.result.value);
      if answer.Err? {
        return Normal(Err(NodeError(s.pos, NameError, answer.error)));
      }
      r := Normal(Ok(Null));
    }

    /** The `IF` case: the condition, then the loop over the `aliter` branches. */
    method VisitIf(s: Sentence, env: nat, state: State, fuel: nat) returns (r: Outcome, st: State)
      requires Linked(envs) && env < |envs| && s.ComposedIf?
      modifies this
      ensures Run(r, envs, st) == IfVisited(old(envs), constants, s, env, state, fuel)
      decreases fuel, s, 2, 0
    {
      st := state;
      var condition := Evaluate(s.condition, env, fuel);
      if Failed(condition) {
        return condition, st;
      }
      if Truthy(condition.result.value) {
        r, st := VisitList(s.body, env, state, fuel);
        return;
      }
      var i := 0;
      while i < |s.elif|
        invariant 0 <= i <= |s.elif| && Linked(envs) && env < |envs|
        invariant ElifFrom(envs, constants, s, i, env, state, fuel) == IfVisited(old(envs), constants, s, env, state, fuel)
        decreases |s.elif| - i
      {
        assert s.elif[i] in s.elif;
        match s.elif[i].body {
          case OrIf(_, c, branch) =>
            condition := Evaluate(c, env, fuel);
            if Failed(condition) {
              return condition, st;
            }
            if Truthy(condition.result.value) {
              r, st := VisitList(branch, env, state, fuel);
              return;
            }
          case Otherwise(block) =>
            r, st := VisitList(block, env, state, fuel);
            return;
        }
        i := i + 1;
      }
      r := Normal(Ok(Null));
    }

    /** The `FOR` case: `locals` made, both bounds evaluated, then the loop. */
    method VisitFor(s: Sentence, env: nat, state: State, fuel: nat) returns (r: Outcome, st: State)
      requires Linked(envs) && env < |envs| && s.For?
      modifies this
      ensures Run(r, envs, st) == ForVisited(old(envs), constants, s, env, state, fuel)
      decreases fuel, s, 2, 0
    {
      st := state;
      var locals := CreateEnvironment(Some(env));
      var from := Evaluate(s.from, env, fuel);
      if !from.Normal? {
        return from, st;
      }
      var to := Evaluate(s.to, env, fuel);
      if !to.Normal? {
        return to, st;
      }
      if from.result.Err? {
        return from, st;
      }
      if to.result.Err? {
        return to, st;
      }
      var lo, hi := from.result.value, to.result.value;
      if !(lo.Num? && lo.n.Int? && hi.Num? && hi.n.Int?) {
        return Unmodelled, st;
      }
      r, st := ForLoop(s, locals, lo.n.i, hi.n.i, state, fuel);
    }

    /** The loop of the `FOR` case, from the first bound to the second. */
    method ForLoop(s: Sentence, locals: nat, lo: int, hi: int, state: State, fuel: nat) returns (r: Outcome, st: State)
      requires Linked(envs) && locals < |envs| && s.For?
      modifies this
      ensures Run(r, envs, st) == ForFrom(old(envs), constants, s, locals, lo, hi, state, fuel, Ok(Null))
      ensures Run(r, envs, st) == ForSeq(old(envs), constants, s, locals, Range(lo, hi), state, fuel, Ok(Null))
      decreases fuel, s, 1, 0
    {
      ForFromIsForSeq(envs, constants, s, locals, lo, hi, state, fuel, Ok(Null));
      var result: Either<Value, QError> := Ok(Null);
      st := state;
      var i := lo;
      while i <= hi
        invariant Linked(envs) && locals < |envs|
        invariant ForFrom(envs, constants, s, locals, i, hi, st, fuel, result)
          == ForFrom(old(envs), constants, s, locals, lo, hi, state, fuel, Ok(Null))
        decreases if hi < i then 0 else hi - i + 1
      {
        var _ := SetVar(s.variable.identifier.value, locals, Num(Int(i)));
        r, st := VisitList(s.body, locals, st, fuel);
        if Failed(r) || st.toReturn || st.toBreak {
          return;
        }
        result := r.result;
        i := i + 1;
      }
      r := Normal(result);
    }

    /** The `WHILE` case: test, body, test again, each test after the first
        paid for with one unit of fuel. */
    method VisitWhile(s: Sentence, env: nat, state: State, fuel: nat) returns (r: Outcome, st: State)
      requires Linked(envs) && env < |envs| && s.While?
      modifies this
      ensures Run(r, envs, st) == WhileFrom(old(envs), constants, s, env, state, fuel, Ok(Null))
      decreases fuel, s, 1, 0
    {
      var result: Either<Value, QError> := Ok(Null);
      st := state;
      var f: nat := fuel;
      while true
        invariant f <= fuel && Linked(envs) && env < |envs|
        invariant WhileFrom(envs, constants, s, env, st, f, result) == WhileFrom(old(envs), constants, s, env, state, fuel, Ok(Null))
        decreases f
      {
        var condition := Evaluate(s.condition, env, f);
        if Failed(condition) {
          return condition, st;
        }
        if !Truthy(condition.result.value) {
          return Normal(result), st;
        }
        r, st := VisitList(s.body, env, st, f);
        if Failed(r) || st.toReturn || st.toBreak {
          return;
        }
        if f == 0 {
          return OutOfFuel, st;
        }
        result := r.result;
        f := f - 1;
      }
    }

    /** The `RETURN` case. */
    method VisitReturn(s: Sentence, env: nat, state: State, fuel: nat) returns (r: Outcome, st: State)
      requires Linked(envs) && env < |envs| && s.Return?
      modifies this
      ensures Run(r, envs, st) == ReturnVisited(old(envs), constants, s, env, state, fuel)
      decreases fuel, s, 2, 0
    {
      st := state;
      if !state.isFunctionContext {
        return Normal(Err(NodeError(s.pos, SyntaxError, "return statement outside of function"))), st;
      }
      r := Evaluate(s.value, env, fuel);
      if !Failed(r) {
        st := state.(toReturn := true);
      }
    }
  }

  /** `execute(program)`: the root environment holding the constants and the
      built-in operators, a global environment under it, and the program's
      list visited there. */
  method Execute(p: Program, k: Constants, fuel: nat) returns (r: Outcome)
    ensures r == Executed(p, k, fuel).outcome
  {
    var store := new Store(k);
    var root := store.CreateEnvironment(None);
    store.envs := store.envs[root := store.envs[root].(binaryOp := BuiltinMap(Builtins.BinaryNames))];
    store.envs := store.envs[root := store.envs[root].(unaryOp := BuiltinMap(Builtins.UnaryNames))];
    store.envs := store.envs[root := store.envs[root].(vars := k)];
    var global := store.CreateEnvironment(Some(root));
    assert store.envs == [RootEnv(k), Fresh(Some(0))] && global == 1;
    var st;
    r, st := store.VisitList(p.program, global, State(false, false, false, false), fuel);
  }
}
