/** The built-in operators of src/runtime/builtins/binaryOps.ts and
    src/runtime/builtins/unaryOps.ts. Each is one JavaScript expression wrapped
    in `ok(...)`; here each is a function on values whose result, when the
    model has it, is always `Ok`. An arithmetic or comparing operator has no
    result here (`None`) when it would need a number the model lacks (a
    fraction, an infinity) or the text of a dictionary or a function. */
module Builtins {
  import opened Either
  import opened Errors
  import opened Numbers
  import opened Values
  import Lexer

  /** The exported names of the two modules, which the scope resolver seeds the
      root scope with. */
  const UnaryNames: seq<string> := ["minus", "non", "plus", "scribe"]
  const BinaryNames: seq<string> :=
    ["adde", "subtrahe", "multiplicet", "divide", "modulo", "aequat", "ultra", "infra", "vel", "neque"]

  function Flag(b: bool): Value { Num(Int(if b then 1 else 0)) }

  /** The operands of an arithmetic operator as numbers. `NaN` on one side
      decides the result whatever the other side is, so it stands for both. */
  function Operands(a: Value, b: Value): (r: Option<(JsNumber, JsNumber)>)
    ensures a.Num? && b.Num? ==> r == Some((a.n, b.n))
    ensures r.None? <==> (ToNumber(a).None? || ToNumber(b).None?) && ToNumber(a) != Some(NaN) && ToNumber(b) != Some(NaN)
  {
    match (ToNumber(a), ToNumber(b))
    case (Some(x), Some(y)) => Some((x, y))
    case (Some(NaN), None) => Some((NaN, NaN))
    case (None, Some(NaN)) => Some((NaN, NaN))
    case _ => None
  }

  /** `a + b`: both operands are made primitives; when either is then a
      string the two texts are concatenated, otherwise they are added as
      numbers. */
  function Adde(a: Value, b: Value): (r: Option<Either<Value, QError>>)
    ensures r.Some? ==> r.value.Ok?
    ensures a.Num? && b.Num? ==> r == Some(Ok(Num(Add(a.n, b.n))))
    ensures a.Str? && b.Str? ==> r == Some(Ok(Str(a.s + b.s)))
    ensures r.None? <==> ToPrimitive(a).None? || ToPrimitive(b).None?
  {
    match (ToPrimitive(a), ToPrimitive(b))
    case (Some(x), Some(y)) =>
      if x.Str? || y.Str? then Some(Ok(Str(ToText(x) + ToText(y))))
      else Some(Ok(Num(Add(ToNumber(x).value, ToNumber(y).value))))
    case _ => None
  }

  /** `a - b` */
  function Subtrahe(a: Value, b: Value): (r: Option<Either<Value, QError>>)
    ensures r.Some? ==> r.value.Ok? && r.value.value.Num?
    ensures a.Num? && b.Num? ==> r == Some(Ok(Num(Sub(a.n, b.n))))
  {
    match Operands(a, b)
    case Some((x, y)) => Some(Ok(Num(Sub(x, y))))
    case None => None
  }

  /** `a * b` */
  function Multiplicet(a: Value, b: Value): (r: Option<Either<Value, QError>>)
    ensures r.Some? ==> r.value.Ok? && r.value.value.Num?
    ensures a.Num? && b.Num? ==> r == Some(Ok(Num(Mul(a.n, b.n))))
  {
    match Operands(a, b)
    case Some((x, y)) => Some(Ok(Num(Mul(x, y))))
    case None => None
  }

  /** `a % b`, JavaScript's truncated remainder. */
  function Modulo(a: Value, b: Value): (r: Option<Either<Value, QError>>)
    ensures r.Some? ==> r.value.Ok? && r.value.value.Num?
    ensures a.Num? && b.Num? ==> r == Some(Ok(Num(Rem(a.n, b.n))))
  {
    match Operands(a, b)
    case Some((x, y)) => Some(Ok(Num(Rem(x, y))))
    case None => None
  }

  /** `a === b ? 1 : 0` */
  function Aequat(a: Value, b: Value): (r: Either<Value, QError>)
    ensures r.Ok?
  {
    Ok(Flag(StrictEquals(a, b)))
  }

  /** JavaScript's `<` on two strings: code unit by code unit, a proper prefix first. */
  predicate StringLess(x: string, y: string)
    decreases |x|
  {
    if y == [] then false
    else if x == [] then true
    else if x[0] != y[0] then x[0] < y[0]
    else StringLess(x[1..], y[1..])
  }

  /** `a < b`: both operands are made primitives; two strings compare as
      strings, anything else as numbers. */
  function LessThan(a: Value, b: Value): (r: Option<bool>)
    ensures a.Str? && b.Str? ==> r == Some(StringLess(a.s, b.s))
    ensures a.Num? && b.Num? ==> r == Some(Less(a.n, b.n))
  {
    match (ToPrimitive(a), ToPrimitive(b))
    case (Some(x), Some(y)) =>
      if x.Str? && y.Str? then Some(StringLess(x.s, y.s))
      else (match Operands(x, y)
        case Some((m, n)) => Some(Less(m, n))
        case None => None)
    case _ => None
  }

  /** `a > b ? 1 : 0` */
  function Ultra(a: Value, b: Value): (r: Option<Either<Value, QError>>)
    ensures r.Some? <==> LessThan(b, a).Some?
    ensures r.Some? ==> r.value == Ok(Flag(LessThan(b, a).value))
  {
    match LessThan(b, a)
    case Some(t) => Some(Ok(Flag(t)))
    case None => None
  }

  /** `a < b ? 1 : 0` */
  function Infra(a: Value, b: Value): (r: Option<Either<Value, QError>>)
    ensures r.Some? <==> LessThan(a, b).Some?
    ensures r.Some? ==> r.value == Ok(Flag(LessThan(a, b).value))
  {
    match LessThan(a, b)
    case Some(t) => Some(Ok(Flag(t)))
    case None => None
  }

  /** `a || b` */
  function Vel(a: Value, b: Value): (r: Either<Value, QError>)
    ensures r.Ok? && (r.value == a || r.value == b)
  {
    Ok(if Truthy(a) then a else b)
  }

  /** `a && b` */
  function Neque(a: Value, b: Value): (r: Either<Value, QError>)
    ensures r.Ok? && (r.value == a || r.value == b)
  {
    Ok(if Truthy(a) then b else a)
  }

  /** `-a` */
  function Minus(a: Value): (r: Option<Either<Value, QError>>)
    ensures r.Some? ==> r.value.Ok? && r.value.value.Num?
    ensures a.Num? ==> r == Some(Ok(Num(Neg(a.n))))
    ensures r.Some? <==> ToNumber(a).Some?
  {
    match ToNumber(a)
    case Some(n) => Some(Ok(Num(Neg(n))))
    case None => None
  }

  /** `a === 0 ? 1 : 0` */
  function Non(a: Value): (r: Either<Value, QError>)
    ensures r.Ok?
  {
    Ok(Flag(StrictEquals(a, Num(Int(0)))))
  }

  /** `plus` hands its operand back unchanged. */
  function Plus(a: Value): (r: Either<Value, QError>)
    ensures r.Ok?
  {
    Ok(a)
  }

  /** `scribe` writes its operand to the console and answers `null`. */
  function Scribe(a: Value): (r: Either<Value, QError>)
    ensures r.Ok?
  {
    Ok(Null)
  }

  /** A binary built-in applied by name; it never answers with an error.
      `divide` is left out (its quotient is a floating-point number), and so is
      any name that is not a built-in; so is an operator's result that the
      model lacks, but never one on two numbers. */
  function ApplyBinary(name: string, a: Value, b: Value): (r: Option<Either<Value, QError>>)
    ensures r.Some? ==> name in BinaryNames && name != "divide" && r.value.Ok?
    ensures name in BinaryNames && name != "divide" && a.Num? && b.Num? ==> r.Some?
    ensures name in ["aequat", "vel", "neque"] ==> r.Some?
  {
    match name
    case "adde" => Adde(a, b)
    case "subtrahe" => Subtrahe(a, b)
    case "multiplicet" => Multiplicet(a, b)
    case "modulo" => Modulo(a, b)
    case "aequat" => Some(Aequat(a, b))
    case "ultra" => Ultra(a, b)
    case "infra" => Infra(a, b)
    case "vel" => Some(Vel(a, b))
    case "neque" => Some(Neque(a, b))
    case _ => None
  }

  /** A unary built-in applied by name; it never answers with an error. */
  function ApplyUnary(name: string, a: Value): (r: Option<Either<Value, QError>>)
    ensures r.Some? ==> name in UnaryNames && r.value.Ok?
    ensures name in UnaryNames && (name != "minus" || ToNumber(a).Some?) ==> r.Some?
  {
    match name
    case "minus" => Minus(a)
    case "non" => Some(Non(a))
    case "plus" => Some(Plus(a))
    case "scribe" => Some(Scribe(a))
    case _ => None
  }

  // ---------------------------------------------------------------------------
  // What the operators promise.

  /** `aequat` is 1 exactly when the operands are strictly equal, 0 otherwise,
      and it does not depend on their order. */
  lemma AequatIsStrictEquality(a: Value, b: Value)
    ensures Aequat(a, b).value == Num(Int(1)) <==> StrictEquals(a, b)
    ensures Aequat(a, b).value == Num(Int(0)) <==> !StrictEquals(a, b)
    ensures Aequat(a, b) == Aequat(b, a)
  {
    StrictEqualsSymmetric(a, b);
  }

  /** `ultra` and `infra` answer 0 or 1, and `ultra(a, b)` is `infra(b, a)`. */
  lemma UltraIsInfraSwapped(a: Value, b: Value)
    ensures Ultra(a, b) == Infra(b, a)
    ensures Ultra(a, b).Some? ==> Ultra(a, b).value.value in {Num(Int(0)), Num(Int(1))}
    ensures Infra(a, b).Some? ==> Infra(a, b).value.value in {Num(Int(0)), Num(Int(1))}
  {
  }

  lemma {:induction false} StringLessIrreflexive(x: string)
    ensures !StringLess(x, x)
    decreases |x|
  {
    if x != [] {
      StringLessIrreflexive(x[1..]);
    }
  }

  lemma {:induction false} StringLessAsymmetric(x: string, y: string)
    requires StringLess(x, y)
    ensures !StringLess(y, x)
    decreases |x|
  {
    if x != [] && y != [] && x[0] == y[0] {
      StringLessAsymmetric(x[1..], y[1..]);
    }
  }

  /** `ultra(a, b)` and `infra(a, b)` are never both 1. */
  lemma UltraInfraExclusive(a: Value, b: Value)
    ensures !(Ultra(a, b) == Some(Ok(Num(Int(1)))) && Infra(a, b) == Some(Ok(Num(Int(1)))))
  {
    LessThanAsymmetric(a, b);
    assert Flag(false) != Num(Int(1));
  }

  /** No two values are each less than the other. */
  lemma LessThanAsymmetric(a: Value, b: Value)
    ensures !(LessThan(a, b) == Some(true) && LessThan(b, a) == Some(true))
  {
    var x, y := ToPrimitive(a), ToPrimitive(b);
    if x.Some? && y.Some? {
      if x.value.Str? && y.value.Str? {
        if StringLess(x.value.s, y.value.s) {
          StringLessAsymmetric(x.value.s, y.value.s);
        }
      } else {
        OperandsSwapped(x.value, y.value);
      }
    }
  }

  lemma OperandsSwapped(a: Value, b: Value)
    ensures Operands(a, b).Some? <==> Operands(b, a).Some?
    ensures Operands(a, b).Some? ==> Operands(b, a).value == (Operands(a, b).value.1, Operands(a, b).value.0)
  {
  }

  /** For two integers exactly one of `infra`, `aequat` and `ultra` is 1. */
  lemma IntegerTrichotomy(x: int, y: int)
    ensures var a, b := Num(Int(x)), Num(Int(y));
      var lt, eq, gt := Infra(a, b).value.value, Aequat(a, b).value, Ultra(a, b).value.value;
      (lt == Num(Int(1)) && eq == Num(Int(0)) && gt == Num(Int(0))) ||
      (lt == Num(Int(0)) && eq == Num(Int(1)) && gt == Num(Int(0))) ||
      (lt == Num(Int(0)) && eq == Num(Int(0)) && gt == Num(Int(1)))
  {
  }

  /** Over integers, `subtrahe(adde(a, b), b)` is `a`. */
  lemma SubtraheUndoesAdde(a: int, b: int)
    ensures Subtrahe(Adde(Num(Int(a)), Num(Int(b))).value.value, Num(Int(b))) == Some(Ok(Num(Int(a))))
  {
  }

  /** `modulo(a, b)` on integers with `b != 0`: the sign follows `a`, the
      magnitude is below `|b|`, and `a - modulo(a, b)` is a multiple of `b`;
      a zero divisor gives `NaN`. */
  lemma ModuloIsTruncatedRemainder(a: int, b: int)
    ensures b == 0 ==> Modulo(Num(Int(a)), Num(Int(b))) == Some(Ok(Num(NaN)))
    ensures b != 0 ==>
      var r := Modulo(Num(Int(a)), Num(Int(b))).value.value.n;
      r.Int? && (a >= 0 ==> 0 <= r.i < Abs(b)) && (a < 0 ==> -(Abs(b) as int) < r.i <= 0)
      && a == b * TruncQuot(a, b) + r.i
  {
    if b != 0 {
      TruncRemShape(a, b);
    }
  }

  /** `vel(a, b)` is `a` when `a` is truthy and `b` otherwise; `neque(a, b)` is
      `a` when `a` is falsy and `b` otherwise. So the truthiness of the results
      is the boolean "or" and "and" of the operands'. */
  lemma VelNequeTruthiness(a: Value, b: Value)
    ensures Truthy(a) ==> Vel(a, b).value == a
    ensures !Truthy(a) ==> Vel(a, b).value == b
    ensures !Truthy(a) ==> Neque(a, b).value == a
    ensures Truthy(a) ==> Neque(a, b).value == b
    ensures Truthy(Vel(a, b).value) <==> Truthy(a) || Truthy(b)
    ensures Truthy(Neque(a, b).value) <==> Truthy(a) && Truthy(b)
  {
  }

  /** `non(a)` is 1 exactly when `a` is the number zero, 0 otherwise. */
  lemma NonIsZeroTest(a: Value)
    ensures Non(a).value == Num(Int(1)) <==> a == Num(Int(0))
    ensures Non(a).value == Num(Int(0)) <==> a != Num(Int(0))
  {
  }

  /** `plus(a)` is `a`. */
  lemma PlusIsIdentity(a: Value)
    ensures Plus(a) == Ok(a)
  {
  }

  /** Over integers, `minus(minus(a))` is `a`. */
  lemma MinusInvolution(a: int)
    ensures Minus(Minus(Num(Int(a))).value.value) == Some(Ok(Num(Int(a))))
  {
    NegInvolution(Int(a));
  }

  /** `scribe` answers `null`, whatever it was given. */
  lemma ScribeAnswersNull(a: Value)
    ensures Scribe(a) == Ok(Null)
  {
  }

  /** The operators read the number a string denotes, its sign included. */
  lemma OperatorsReadIntegerText(m: int, n: int)
    ensures Subtrahe(Str(IntToString(m)), Num(Int(n))) == Some(Ok(Num(Int(m - n))))
    ensures Infra(Str(IntToString(m)), Num(Int(n))) == Some(Ok(Flag(m < n)))
    ensures Ultra(Str(IntToString(m)), Num(Int(n))) == Some(Ok(Flag(n < m)))
  {
    StringToNumberReadsIntegerText(m);
    OperatorsReadText(IntToString(m), m, n);
  }

  lemma OperatorsReadText(t: string, m: int, n: int)
    requires StringToNumber(t) == Some(Int(m))
    ensures Subtrahe(Str(t), Num(Int(n))) == Some(Ok(Num(Int(m - n))))
    ensures Infra(Str(t), Num(Int(n))) == Some(Ok(Flag(m < n)))
    ensures Ultra(Str(t), Num(Int(n))) == Some(Ok(Flag(n < m)))
  {
    TextOperands(t, m, n);
    LessThanText(t, m, n);
  }

  lemma TextOperands(t: string, m: int, n: int)
    requires StringToNumber(t) == Some(Int(m))
    ensures Operands(Str(t), Num(Int(n))) == Some((Int(m), Int(n)))
    ensures Operands(Num(Int(n)), Str(t)) == Some((Int(n), Int(m)))
  {
    assert ToNumber(Str(t)) == Some(Int(m));
  }

  lemma LessThanText(t: string, m: int, n: int)
    requires StringToNumber(t) == Some(Int(m))
    ensures LessThan(Str(t), Num(Int(n))) == Some(m < n)
    ensures LessThan(Num(Int(n)), Str(t)) == Some(n < m)
  {
    TextOperands(t, m, n);
    assert ToPrimitive(Str(t)) == Some(Str(t)) && ToPrimitive(Num(Int(n))) == Some(Num(Int(n)));
  }

  /** An array of one number is that number to the arithmetic operators, and
      its text where it is added: `[m] + n` is the text of `m` followed by
      that of `n`. */
  lemma OperatorsReadOneItemArrays(m: int, n: int)
    ensures Multiplicet(Array([Num(Int(m))]), Num(Int(n))) == Some(Ok(Num(Int(m * n))))
    ensures Adde(Array([Num(Int(m))]), Num(Int(n))) == Some(Ok(Str(IntToString(m) + IntToString(n))))
  {
    assert JoinText([Num(Int(m))]) == Some(IntToString(m)) by {
      var items := [Num(Int(m))];
      assert items[1..] == [] && items[0] == Num(Int(m));
      assert ItemText(items[0]) == Some(IntToString(m));
      assert IntToString(m) + "" + "" == IntToString(m);
    }
  }

  /** A text that is no number makes the arithmetic `NaN`. */
  lemma WordsAreNaN(t: string, n: int)
    requires t != [] && !Lexer.IsWhitespace(t[0]) && !Lexer.IsWhitespace(t[|t| - 1])
    requires !IsDigit(t[0]) && t[0] !in "+-." && t != "Infinity"
    ensures Subtrahe(Str(t), Num(Int(n))) == Some(Ok(Num(NaN)))
    ensures Minus(Str(t)) == Some(Ok(Num(NaN)))
  {
    WordIsNaN(t);
  }

  /** An operand whose number the model lacks leaves the result out, except
      where the other operand is `NaN`, which decides it. */
  lemma FractionsUnmodelled(d: string, n: int)
    requires d != [] && AllDigits(d)
    ensures Subtrahe(Str(d + ".5"), Num(Int(n))) == None
    ensures Subtrahe(Str(d + ".5"), Undefined) == Some(Ok(Num(NaN)))
    ensures Minus(Str(d + ".5")) == None
  {
    PointFiveUnmodelled(d);
    UnmodelledText(d + ".5", n);
  }

  lemma UnmodelledText(t: string, n: int)
    requires StringToNumber(t) == None
    ensures Subtrahe(Str(t), Num(Int(n))) == None
    ensures Subtrahe(Str(t), Undefined) == Some(Ok(Num(NaN)))
    ensures Minus(Str(t)) == None
  {
    assert ToNumber(Str(t)) == None;
    assert ToNumber(Num(Int(n))) == Some(Int(n));
    assert ToNumber(Undefined) == Some(NaN);
    assert Operands(Str(t), Num(Int(n))) == None;
    assert Operands(Str(t), Undefined) == Some((NaN, NaN));
  }
}
