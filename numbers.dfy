/** The JavaScript numbers the language computes with, restricted to the
    integers plus `NaN`, and the arithmetic of the built-in operators on them.
    JavaScript's `%` is the truncated remainder of ECMA-262 section 6.1.6.1.6
    (Number::remainder), which differs from Dafny's Euclidean `%` when the
    dividend is negative. */
module Numbers {

  datatype JsNumber = Int(i: int) | NaN

  function Abs(n: int): (r: nat)
    ensures r == n || r == -n
  {
    if n < 0 then -n else n
  }

  /** `a + b` */
  function Add(a: JsNumber, b: JsNumber): (r: JsNumber)
    ensures r.NaN? <==> a.NaN? || b.NaN?
  {
    if a.Int? && b.Int? then Int(a.i + b.i) else NaN
  }

  /** `a - b` */
  function Sub(a: JsNumber, b: JsNumber): (r: JsNumber)
    ensures r.NaN? <==> a.NaN? || b.NaN?
  {
    if a.Int? && b.Int? then Int(a.i - b.i) else NaN
  }

  /** `a * b` */
  function Mul(a: JsNumber, b: JsNumber): (r: JsNumber)
    ensures r.NaN? <==> a.NaN? || b.NaN?
  {
    if a.Int? && b.Int? then Int(a.i * b.i) else NaN
  }

  /** The truncated remainder of two integers: the sign of the dividend and the
      magnitude of `|n| mod |d|`. */
  function TruncRem(n: int, d: int): (r: int)
    requires d != 0
  {
    if n >= 0 then n % Abs(d) else -((-n) % Abs(d))
  }

  /** The quotient rounded toward zero that goes with `TruncRem`. */
  function TruncQuot(n: int, d: int): (q: int)
    requires d != 0
  {
    var m := if n >= 0 then n / Abs(d) else -((-n) / Abs(d));
    if d > 0 then m else -m
  }

  /** `a % b`: `NaN` when either side is `NaN` or the divisor is zero. */
  function Rem(a: JsNumber, b: JsNumber): (r: JsNumber)
    ensures r.NaN? <==> a.NaN? || b.NaN? || b.i == 0
  {
    if a.Int? && b.Int? && b.i != 0 then Int(TruncRem(a.i, b.i)) else NaN
  }

  /** Unary `-a`. */
  function Neg(a: JsNumber): (r: JsNumber)
    ensures r.NaN? <==> a.NaN?
  {
    if a.Int? then Int(-a.i) else NaN
  }

  /** `a < b`: false whenever `NaN` is involved. */
  predicate Less(a: JsNumber, b: JsNumber)
  {
    a.Int? && b.Int? && a.i < b.i
  }

  /** `a === b` on numbers: `NaN` equals nothing, not even itself. */
  predicate SameNumber(a: JsNumber, b: JsNumber)
  {
    a.Int? && b.Int? && a.i == b.i
  }

  // ---------------------------------------------------------------------------
  // Properties of the arithmetic.

  /** Subtracting what was added gives back the integer. */
  lemma SubUndoesAdd(a: int, b: int)
    ensures Sub(Add(Int(a), Int(b)), Int(b)) == Int(a)
  {
  }

  /** Negating twice gives back the number, `NaN` included. */
  lemma NegInvolution(a: JsNumber)
    ensures Neg(Neg(a)) == a
  {
  }

  /** The truncated remainder has the sign of the dividend, is smaller than the
      divisor in magnitude, and completes the truncated division. */
  lemma TruncRemShape(n: int, d: int)
    requires d != 0
    ensures n >= 0 ==> 0 <= TruncRem(n, d) < Abs(d)
    ensures n < 0 ==> -(Abs(d) as int) < TruncRem(n, d) <= 0
    ensures n == d * TruncQuot(n, d) + TruncRem(n, d)
    ensures Abs(TruncQuot(n, d)) * Abs(d) <= Abs(n)
  {
    TruncRemBounds(n, d);
    TruncDivides(n, d);
    TruncQuotBound(n, d);
  }

  lemma TruncRemBounds(n: int, d: int)
    requires d != 0
    ensures n >= 0 ==> 0 <= TruncRem(n, d) < Abs(d)
    ensures n < 0 ==> -(Abs(d) as int) < TruncRem(n, d) <= 0
  {
  }

  lemma TruncDivides(n: int, d: int)
    requires d != 0
    ensures n == d * TruncQuot(n, d) + TruncRem(n, d)
  {
    var a: int, m: int := Abs(d), Abs(n);
    var q: int, r: int := m / a, m % a;
    assert m == a * q + r;
    assert TruncRem(n, d) == (if n >= 0 then r else -r);
    SignedProduct(n, d, a, q);
  }

  lemma TruncQuotBound(n: int, d: int)
    requires d != 0
    ensures Abs(TruncQuot(n, d)) * Abs(d) <= Abs(n)
  {
    var a: int, m: int := Abs(d), Abs(n);
    var q: int, r: int := m / a, m % a;
    var p: int := a * q;
    assert m == p + r && 0 <= r;
    QuotMagnitude(n, d);
    assert Abs(TruncQuot(n, d)) * Abs(d) == p;
  }

  lemma QuotMagnitude(n: int, d: int)
    requires d != 0
    ensures Abs(TruncQuot(n, d)) == Abs(n) / Abs(d)
  {
    QuotSign(n, d);
    DivNonnegative(Abs(n), Abs(d));
  }

  lemma QuotSign(n: int, d: int)
    requires d != 0
    ensures var q := Abs(n) / Abs(d); TruncQuot(n, d) == (if (n >= 0) == (d > 0) then q else -q)
  {
    assert Abs(n) == (if n >= 0 then n else -n);
  }

  lemma DivNonnegative(m: nat, a: nat)
    requires a > 0
    ensures m / a >= 0
  {
  }

  /** The product of the divisor and the truncated quotient, by signs. */
  lemma SignedProduct(n: int, d: int, a: int, q: int)
    requires d != 0 && a == Abs(d) && q == Abs(n) / a
    ensures d * TruncQuot(n, d) == (if n >= 0 then a * q else -(a * q))
  {
    if d > 0 {
      assert TruncQuot(n, d) == (if n >= 0 then q else -q);
    } else {
      assert TruncQuot(n, d) == (if n >= 0 then -q else q);
      assert d == -a;
      assert d * q == -(a * q);
      assert d * -q == a * q;
    }
  }

  /** `Rem` agrees with Dafny's `%` exactly when the dividend is not negative,
      and differs on a negative dividend that the divisor does not divide. */
  lemma RemVersusEuclidean(n: int, d: int)
    requires d != 0
    ensures n >= 0 ==> Rem(Int(n), Int(d)) == Int(n % d)
    ensures n < 0 && n % d != 0 ==> Rem(Int(n), Int(d)) != Int(n % d)
  {
    TruncRemShape(n, d);
    if n < 0 && n % d != 0 {
      assert 0 < n % d;
      assert TruncRem(n, d) <= 0;
    }
  }

  /** The concrete case that separates the two: `-7 % 2` is `-1` in JavaScript,
      while Dafny's Euclidean remainder is `1`. */
  lemma NegativeDividendExample()
    ensures Rem(Int(-7), Int(2)) == Int(-1)
    ensures -7 % 2 == 1
  {
  }

  // ---------------------------------------------------------------------------
  // `parseFloat` of a numeric-literal token, rounded toward zero.

  /** `\d`: the ASCII digits. */
  predicate IsDigit(c: char) { '0' <= c <= '9' }

  /** The end of the run of decimal digits that starts at `i`. */
  function DigitsEnd(s: string, i: nat): (j: nat)
    requires i <= |s|
    ensures i <= j <= |s|
    ensures forall k :: i <= k < j ==> IsDigit(s[k])
    ensures j < |s| ==> !IsDigit(s[j])
    decreases |s| - i
  {
    if i < |s| && IsDigit(s[i]) then DigitsEnd(s, i + 1) else i
  }

  /** The value of a string of decimal digits; the partner of `Errors.IntToString`. */
  function DigitsValue(s: string): (n: nat)
    requires forall k :: 0 <= k < |s| ==> IsDigit(s[k])
  {
    if s == [] then 0 else 10 * DigitsValue(s[..|s| - 1]) + DigitOf(s[|s| - 1])
  }

  function DigitOf(c: char): (d: nat)
    requires IsDigit(c)
    ensures d < 10
  {
    c as int - '0' as int
  }

  function Pow10(e: nat): (p: nat)
    ensures p >= 1
  {
    if e == 0 then 1 else 10 * Pow10(e - 1)
  }

  /** The exponent `[eE][+-]?\d+` at `i`, if there is one with at least one digit. */
  function Exponent(s: string, i: nat): (e: int)
    requires i <= |s|
  {
    if i < |s| && (s[i] == 'e' || s[i] == 'E') then
      var signed := i + 1 < |s| && (s[i + 1] == '+' || s[i + 1] == '-');
      var b := if signed then i + 2 else i + 1;
      if b <= |s| && b < |s| && IsDigit(s[b]) then
        var v := DigitsValue(s[b..DigitsEnd(s, b)]);
        if signed && s[i + 1] == '-' then -(v as int) else v
      else 0
    else 0
  }

  /** `parseFloat(text)` for the text of a numeric-literal token, rounded toward
      zero: the longest decimal prefix `digits[.digits][exponent]` is read, an
      underscore ends it, and a text with no digit before or after the point is
      `NaN`. */
  function ParseNumber(s: string): (r: JsNumber)
  {
    var a := DigitsEnd(s, 0);
    var hasPoint := a < |s| && s[a] == '.';
    var b := if hasPoint then DigitsEnd(s, a + 1) else a;
    var fraction := if hasPoint then s[a + 1..b] else "";
    if a == 0 && fraction == "" then NaN
    else
      var mantissa := DigitsValue(s[..a] + fraction);
      var scale := Exponent(s, b) - |fraction|;
      if scale >= 0 then Int(mantissa * Pow10(scale))
      else Int(mantissa / Pow10(-scale))
  }

  /** A literal made only of digits reads as its decimal value. */
  lemma ParseDigits(s: string)
    requires |s| > 0 && forall k :: 0 <= k < |s| ==> IsDigit(s[k])
    ensures ParseNumber(s) == Int(DigitsValue(s))
  {
    DigitsRunToEnd(s, 0);
    assert s[..|s|] + "" == s;
  }

  lemma {:induction false} DigitsRunToEnd(s: string, i: nat)
    requires i <= |s| && forall k :: i <= k < |s| ==> IsDigit(s[k])
    ensures DigitsEnd(s, i) == |s|
    decreases |s| - i
  {
    if i < |s| {
      DigitsRunToEnd(s, i + 1);
    }
  }

  /** A bare underscore, which the tokenizer takes for a numeric literal, is `NaN`. */
  lemma UnderscoreIsNaN()
    ensures ParseNumber("_") == NaN
  {
  }
}
