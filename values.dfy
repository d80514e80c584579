/** The values a running program handles. JavaScript's dynamic values are
    narrowed to those the interpreter can produce or receive: `undefined`,
    `null`, booleans, numbers (integers and `NaN`), strings, arrays, the
    dictionaries of `Thesaurus` (as a snapshot of their entries), closures and
    the built-in operator functions. */
module Values {
  import opened Either
  import opened Errors
  import opened Numbers
  import Ast
  import Lexer

  datatype Value =
    | Undefined
    | Null
    | Bool(b: bool)
    | Num(n: JsNumber)
    | Str(s: string)
    | Array(items: seq<Value>)
    | Dict(entries: map<string, Value>)
    /** A function defined by `define`: its FUNCTION node and the index of the
        environment it was defined in. */
    | Closure(node: Ast.Sentence, env: nat)
    /** One of the built-in operator functions, by name. */
    | Builtin(name: string)

  /** JavaScript's ToBoolean: what `if (v)` and `||`/`&&` test. */
  predicate Truthy(v: Value)
  {
    match v
    case Undefined => false
    case Null => false
    case Bool(b) => b
    case Num(n) => n.Int? && n.i != 0
    case Str(s) => s != ""
    case _ => true
  }

  /** Whether a value is a primitive rather than an object. */
  predicate IsPrimitive(v: Value)
  {
    v.Undefined? || v.Null? || v.Bool? || v.Num? || v.Str?
  }

  /** `a === b`. Numbers compare by value with `NaN` unequal to everything,
      strings by content, built-ins by name (each is one function object);
      arrays, dictionaries and closures compare by content here, where
      JavaScript compares object identity. */
  predicate StrictEquals(a: Value, b: Value)
  {
    match (a, b)
    case (Num(x), Num(y)) => SameNumber(x, y)
    case (Undefined, Undefined) => true
    case (Null, Null) => true
    case (Bool(x), Bool(y)) => x == y
    case (Str(x), Str(y)) => x == y
    case (Builtin(x), Builtin(y)) => x == y
    case (Array(_), Array(_)) => a == b
    case (Dict(_), Dict(_)) => a == b
    case (Closure(_, _), Closure(_, _)) => a == b
    case _ => false
  }

  /** Strict equality is symmetric. */
  lemma StrictEqualsSymmetric(a: Value, b: Value)
    ensures StrictEquals(a, b) == StrictEquals(b, a)
  {
  }

  /** Strict equality is reflexive on everything except `NaN`. */
  lemma StrictEqualsReflexive(a: Value)
    ensures StrictEquals(a, a) <==> a != Num(NaN)
  {
  }

  // ---------------------------------------------------------------------------
  // ToNumber, section 7.1.4 of ECMA-262, on the values the model has. The
  // numbers the model lacks (fractions and the infinities) make `None`.

  /** `s` without the white space at its front. */
  function TrimStart(s: string): (r: string)
    ensures |r| <= |s| && r == s[|s| - |r|..]
    ensures r != [] ==> !Lexer.IsWhitespace(r[0])
    ensures forall k :: 0 <= k < |s| - |r| ==> Lexer.IsWhitespace(s[k])
    decreases |s|
  {
    if s != [] && Lexer.IsWhitespace(s[0]) then TrimStart(s[1..]) else s
  }

  /** `s` without the white space at its end. */
  function TrimEnd(s: string): (r: string)
    ensures |r| <= |s| && r == s[..|r|]
    ensures r != [] ==> !Lexer.IsWhitespace(r[|r| - 1])
    ensures forall k :: |r| <= k < |s| ==> Lexer.IsWhitespace(s[k])
    decreases |s|
  {
    if s != [] && Lexer.IsWhitespace(s[|s| - 1]) then TrimEnd(s[..|s| - 1]) else s
  }

  /** The white space, as `\s` names it, removed from both ends. */
  function Trim(s: string): string
  {
    TrimEnd(TrimStart(s))
  }

  /** The base that the letter after a leading `0` names: `0b`, `0o`, `0x`. */
  function RadixOf(c: char): (r: Option<nat>)
    ensures r.Some? ==> r.value in {2, 8, 16}
  {
    if c == 'b' || c == 'B' then Some(2)
    else if c == 'o' || c == 'O' then Some(8)
    else if c == 'x' || c == 'X' then Some(16)
    else None
  }

  /** The value of `c` as a digit of base `radix`, if it is one. */
  function RadixDigit(c: char, radix: nat): (d: Option<nat>)
    ensures d.Some? ==> d.value < radix
  {
    var v := if IsDigit(c) then DigitOf(c)
             else if 'a' <= c <= 'f' then c as int - 'a' as int + 10
             else if 'A' <= c <= 'F' then c as int - 'A' as int + 10
             else radix;
    if v < radix then Some(v) else None
  }

  predicate AllRadix(s: string, radix: nat)
  {
    forall k :: 0 <= k < |s| ==> RadixDigit(s[k], radix).Some?
  }

  /** The value of a string of digits of base `radix`. */
  function RadixValue(s: string, radix: nat): nat
    requires AllRadix(s, radix)
  {
    if s == [] then 0 else radix * RadixValue(s[..|s| - 1], radix) + RadixDigit(s[|s| - 1], radix).value
  }

  /** The exponent `[eE][+-]?\d+` from index `b` to the end of `s`; 0 when
      `b` is the end, `None` when the rest is anything else. */
  function ExponentPart(s: string, b: nat): (r: Option<int>)
    requires b <= |s|
  {
    if b == |s| then Some(0)
    else if s[b] != 'e' && s[b] != 'E' then None
    else
      var signed := b + 1 < |s| && (s[b + 1] == '+' || s[b + 1] == '-');
      var d := if signed then b + 2 else b + 1;
      if d < |s| && DigitsEnd(s, d) == |s| then
        var v: int := DigitsValue(s[d..]);
        Some(if signed && s[b + 1] == '-' then -v else v)
      else None
  }

  /** `StrUnsignedDecimalLiteral` but `Infinity`, as the whole of `s`: the
      digits before the point, those after it and the exponent. */
  function DecimalParts(s: string): (r: Option<(string, string, int)>)
    ensures r.Some? ==>
      var (whole, fraction, _) := r.value;
      |whole| + |fraction| > 0 && AllDigits(whole) && AllDigits(fraction)
  {
    var a := DigitsEnd(s, 0);
    var hasPoint := a < |s| && s[a] == '.';
    var b := if hasPoint then DigitsEnd(s, a + 1) else a;
    var fraction := if hasPoint then s[a + 1..b] else "";
    if a == 0 && fraction == "" then None
    else match ExponentPart(s, b)
      case None => None
      case Some(e) => Some((s[..a], fraction, e))
  }

  predicate AllDigits(s: string)
  {
    forall k :: 0 <= k < |s| ==> IsDigit(s[k])
  }

  /** StringToNumber, section 7.1.4.1.1 of ECMA-262: the text without the
      white space around it is empty (0), `0b`, `0o` or `0x` and digits of
      that base, or a decimal literal with an optional sign, point and
      exponent; anything else is `NaN`. `None` when the text denotes a
      number this model does not have: one with a fractional part, or
      `Infinity`. */
  function StringToNumber(s: string): (r: Option<JsNumber>)
  {
    TrimmedNumber(Trim(s))
  }

  /** StringToNumber of a text without white space at its ends. */
  function TrimmedNumber(t: string): (r: Option<JsNumber>)
  {
    if t == "" then Some(Int(0))
    else if |t| > 2 && t[0] == '0' && RadixOf(t[1]).Some? then PrefixedNumber(RadixOf(t[1]).value, t[2..])
    else if t[0] == '-' then UnsignedNumber(true, t[1..])
    else if t[0] == '+' then UnsignedNumber(false, t[1..])
    else UnsignedNumber(false, t)
  }

  /** The digits after `0b`, `0o` or `0x`. */
  function PrefixedNumber(radix: nat, d: string): (r: Option<JsNumber>)
  {
    if AllRadix(d, radix) then Some(Int(RadixValue(d, radix))) else Some(NaN)
  }

  /** `StrUnsignedDecimalLiteral` after the sign. */
  function UnsignedNumber(negative: bool, body: string): (r: Option<JsNumber>)
  {
    if body == "Infinity" then None else DecimalNumber(negative, body)
  }

  /** The number a decimal literal without its sign denotes, `NaN` when `s`
      is not one, `None` when the number has a fractional part. */
  function DecimalNumber(negative: bool, s: string): (r: Option<JsNumber>)
  {
    match DecimalParts(s)
    case None => Some(NaN)
    case Some((whole, fraction, e)) =>
      var m := DigitsValue(whole + fraction);
      var scale := e - |fraction|;
      if scale >= 0 then Some(Int(Signed(negative, m * Pow10(scale))))
      else if m % Pow10(-scale) == 0 then Some(Int(Signed(negative, m / Pow10(-scale))))
      else None
  }

  function Signed(negative: bool, v: nat): int
  {
    if negative then -(v as int) else v
  }

  /** ToNumber: `undefined` is `NaN`, `null` and `false` 0, `true` 1, a string
      as `StringToNumber` reads it. An object is first made a primitive: an
      array through the text of `join(",")` (see `ArrayNumberIsItsText`), a
      dictionary or a function through a text that starts with `{` or with
      `define` and so is `NaN`. */
  function ToNumber(v: Value): (r: Option<JsNumber>)
    ensures v.Num? ==> r == Some(v.n)
    ensures !v.Str? && !v.Array? ==> r.Some?
  {
    match v
    case Undefined => Some(NaN)
    case Null => Some(Int(0))
    case Bool(b) => Some(Int(if b then 1 else 0))
    case Num(n) => Some(n)
    case Str(s) => StringToNumber(s)
    case Array(items) =>
      // No text is empty but that of no item or one empty item, and two
      // items or more are joined by a comma, which no number has.
      if |items| == 0 then Some(Int(0))
      else if |items| > 1 then Some(NaN)
      else (match items[0]
        case Undefined => Some(Int(0))
        case Null => Some(Int(0))
        case Bool(_) => Some(NaN)
        case _ => ToNumber(items[0]))
    case _ => Some(NaN)
  }

  /** The text an array item is joined with: empty for `undefined` and
      `null`, the item's own text otherwise; `None` for a dictionary or a
      function, whose text the model does not have. */
  function ItemText(v: Value): (r: Option<string>)
    decreases v, 1
  {
    match v
    case Undefined => Some("")
    case Null => Some("")
    case Array(items) => JoinText(items)
    case _ => if IsPrimitive(v) then Some(ToText(v)) else None
  }

  /** `items.join(",")` */
  function JoinText(items: seq<Value>): (r: Option<string>)
    decreases items, 0
  {
    if items == [] then Some("")
    else match (ItemText(items[0]), JoinText(items[1..]))
      case (Some(first), Some(rest)) => Some(first + (if |items| > 1 then "," else "") + rest)
      case _ => None
  }

  /** ToPrimitive, section 7.1.1 of ECMA-262: a primitive as it is, an array
      as its text; `None` for a dictionary or a function. */
  function ToPrimitive(v: Value): (r: Option<Value>)
    ensures r.Some? ==> IsPrimitive(r.value)
    ensures IsPrimitive(v) ==> r == Some(v)
  {
    if IsPrimitive(v) then Some(v)
    else if v.Array? then
      match JoinText(v.items)
      case Some(t) => Some(Str(t))
      case None => None
    else None
  }

  // ---------------------------------------------------------------------------
  // What ToNumber promises.

  /** A text with no white space at either end is its own trimmed text. */
  lemma TrimUnpadded(s: string)
    requires s != [] && !Lexer.IsWhitespace(s[0]) && !Lexer.IsWhitespace(s[|s| - 1])
    ensures Trim(s) == s
  {
  }

  /** Trimming twice is trimming once. */
  lemma TrimIdempotent(s: string)
    ensures Trim(Trim(s)) == Trim(s)
  {
    var t := Trim(s);
    if t != [] {
      assert t[0] == TrimStart(s)[0];
      TrimUnpadded(t);
    }
  }

  lemma {:induction false} TrimStartSkips(w: string, s: string)
    requires forall k :: 0 <= k < |w| ==> Lexer.IsWhitespace(w[k])
    ensures TrimStart(w + s) == TrimStart(s)
    decreases |w|
  {
    if w != [] {
      assert (w + s)[0] == w[0];
      assert (w + s)[1..] == w[1..] + s;
      TrimStartSkips(w[1..], s);
    } else {
      assert w + s == s;
    }
  }

  lemma {:induction false} TrimEndSkips(s: string, w: string)
    requires forall k :: 0 <= k < |w| ==> Lexer.IsWhitespace(w[k])
    ensures TrimEnd(s + w) == TrimEnd(s)
    decreases |w|
  {
    if w != [] {
      assert (s + w)[|s + w| - 1] == w[|w| - 1];
      assert (s + w)[..|s + w| - 1] == s + w[..|w| - 1];
      TrimEndSkips(s, w[..|w| - 1]);
    } else {
      assert s + w == s;
    }
  }

  lemma {:induction false} TrimSkipsEnd(s: string, w: string)
    requires forall k :: 0 <= k < |w| ==> Lexer.IsWhitespace(w[k])
    ensures Trim(s + w) == Trim(s)
    decreases |s|
  {
    if s == [] {
      TrimStartSkips(w, "");
      assert s + w == w + "";
    } else if Lexer.IsWhitespace(s[0]) {
      assert (s + w)[1..] == s[1..] + w;
      TrimSkipsEnd(s[1..], w);
    } else {
      TrimEndSkips(s, w);
    }
  }

  /** White space around a text does not change the number it denotes. */
  lemma SurroundingSpaceIgnored(u: string, s: string, w: string)
    requires forall k :: 0 <= k < |u| ==> Lexer.IsWhitespace(u[k])
    requires forall k :: 0 <= k < |w| ==> Lexer.IsWhitespace(w[k])
    ensures StringToNumber(u + s + w) == StringToNumber(s)
  {
    assert u + s + w == u + (s + w);
    TrimStartSkips(u, s + w);
    TrimSkipsEnd(s, w);
  }

  /** Decimal digits read as their value, with the sign given. */
  lemma DecimalReadsDigits(negative: bool, d: string)
    requires d != [] && AllDigits(d)
    ensures DecimalNumber(negative, d) == Some(Int(Signed(negative, DigitsValue(d))))
  {
    assert DigitsEnd(d, 0) == |d|;
    assert d[..|d|] + "" == d;
  }

  /** Decimal digits, not `Infinity`, with the sign given. */
  lemma UnsignedReadsDigits(negative: bool, d: string)
    requires d != [] && AllDigits(d)
    ensures UnsignedNumber(negative, d) == Some(Int(Signed(negative, DigitsValue(d))))
  {
    assert d != "Infinity" by {
      assert IsDigit(d[0]);
    }
    DecimalReadsDigits(negative, d);
  }

  /** Decimal digits, with a minus sign in front or none, read as their value. */
  lemma SignedDigitsRead(negative: bool, d: string)
    requires d != [] && AllDigits(d)
    ensures StringToNumber((if negative then "-" else "") + d) == Some(Int(Signed(negative, DigitsValue(d))))
  {
    SignedDigitsUnpadded(negative, d);
    SignedDigitsTrimmed(negative, d);
    UnsignedReadsDigits(negative, d);
  }

  lemma SignedDigitsUnpadded(negative: bool, d: string)
    requires d != [] && AllDigits(d)
    ensures var s := (if negative then "-" else "") + d; Trim(s) == s
  {
    var s := (if negative then "-" else "") + d;
    assert s[|s| - 1] == d[|d| - 1];
    assert IsDigit(d[0]) && IsDigit(d[|d| - 1]);
    TrimUnpadded(s);
  }

  lemma SignedDigitsTrimmed(negative: bool, d: string)
    requires d != [] && AllDigits(d)
    ensures TrimmedNumber((if negative then "-" else "") + d) == UnsignedNumber(negative, d)
  {
    var s := (if negative then "-" else "") + d;
    if negative {
      assert s[0] == '-' && s[1..] == d;
    } else {
      assert s == d;
      assert |s| > 2 ==> IsDigit(s[1]);
      assert s[0] != '-' && s[0] != '+';
    }
  }

  /** The text of an integer reads back as that integer: the partner of
      `Errors.IntToString`. */
  lemma StringToNumberReadsIntegerText(n: int)
    ensures StringToNumber(IntToString(n)) == Some(Int(n))
  {
    var m: nat := if n < 0 then -n else n;
    IntToStringRoundTrip(m);
    assert IntToString(n) == (if n < 0 then "-" else "") + IntToString(m);
    SignedDigitsRead(n < 0, IntToString(m));
  }

  /** A text that starts with neither a sign, a digit nor a point and is not
      `Infinity` is `NaN`: `NaN`, `true` and `false` among them. */
  lemma WordIsNaN(t: string)
    requires t != [] && !Lexer.IsWhitespace(t[0]) && !Lexer.IsWhitespace(t[|t| - 1])
    requires !IsDigit(t[0]) && t[0] !in "+-." && t != "Infinity"
    ensures StringToNumber(t) == Some(NaN)
  {
    TrimUnpadded(t);
    assert TrimmedNumber(t) == DecimalNumber(false, t);
    assert DigitsEnd(t, 0) == 0;
  }

  /** What a number is written as reads back as that number, `NaN` included. */
  lemma ToNumberReadsNumberText(x: JsNumber)
    ensures ToNumber(Str(ToText(Num(x)))) == Some(x)
  {
    if x.Int? {
      assert ToText(Num(x)) == IntToString(x.i);
      StringToNumberReadsIntegerText(x.i);
    } else {
      assert ToText(Num(x)) == "NaN";
      WordIsNaN("NaN");
    }
  }

  /** `0b`, `0o` or `0x` (in either case) and digits of that base read as
      their value. */
  lemma PrefixedReadsDigits(c: char, d: string)
    requires RadixOf(c).Some? && d != [] && AllRadix(d, RadixOf(c).value)
    ensures StringToNumber(['0', c] + d) == Some(Int(RadixValue(d, RadixOf(c).value)))
  {
    var s := ['0', c] + d;
    assert RadixDigit(d[|d| - 1], RadixOf(c).value).Some?;
    assert s[|s| - 1] == d[|d| - 1];
    TrimUnpadded(s);
    assert s[2..] == d;
  }

  lemma ExponentStopsAtComma(s: string, b: nat, i: nat)
    requires b <= i < |s| && s[i] == ','
    ensures ExponentPart(s, b) == None
  {
  }

  lemma CommaBreaksDecimal(s: string, i: nat)
    requires i < |s| && s[i] == ','
    ensures DecimalParts(s) == None
  {
    var a := DigitsEnd(s, 0);
    var hasPoint := a < |s| && s[a] == '.';
    var b := if hasPoint then DigitsEnd(s, a + 1) else a;
    assert i >= a;
    assert i >= b;
    ExponentStopsAtComma(s, b, i);
  }

  /** No number is written with a comma. */
  lemma CommaIsNaN(s: string, k: nat)
    requires k < |s| && s[k] == ','
    ensures StringToNumber(s) == Some(NaN)
  {
    var j := CommaSurvivesTrim(s, k);
    CommaInTrimmedIsNaN(Trim(s), j);
  }

  /** A comma is not white space, so trimming keeps it. */
  lemma CommaSurvivesTrim(s: string, k: nat) returns (j: nat)
    requires k < |s| && s[k] == ','
    ensures j < |Trim(s)| && Trim(s)[j] == ','
  {
    var u := TrimStart(s);
    var a := |s| - |u|;
    assert !Lexer.IsWhitespace(',');
    assert k >= a;
    j := k - a;
    assert u[j] == ',';
    assert j < |TrimEnd(u)|;
  }

  lemma CommaInTrimmedIsNaN(t: string, j: nat)
    requires j < |t| && t[j] == ','
    ensures TrimmedNumber(t) == Some(NaN)
  {
    assert t != [];
    if |t| > 2 && t[0] == '0' && RadixOf(t[1]).Some? {
      assert t[2..][j - 2] == ',';
      assert !AllRadix(t[2..], RadixOf(t[1]).value);
    } else if t[0] == '-' || t[0] == '+' {
      assert t[1..][j - 1] == ',';
      CommaInBodyIsNaN(t[0] == '-', t[1..], j - 1);
    } else {
      CommaInBodyIsNaN(false, t, j);
    }
  }

  lemma CommaInBodyIsNaN(negative: bool, body: string, i: nat)
    requires i < |body| && body[i] == ','
    ensures UnsignedNumber(negative, body) == Some(NaN)
  {
    assert body != "Infinity" by {
      assert ',' !in "Infinity";
      assert body[i] in body;
    }
    CommaBreaksDecimal(body, i);
  }

  /** The text of two items or more holds a comma, so it is `NaN`. */
  lemma JoinedIsNaN(items: seq<Value>)
    requires |items| > 1 && JoinText(items).Some?
    ensures StringToNumber(JoinText(items).value) == Some(NaN)
  {
    var first := ItemText(items[0]).value;
    var rest := JoinText(items[1..]).value;
    var t := first + "," + rest;
    assert JoinText(items).value == t;
    assert t[|first|] == ',';
    CommaIsNaN(t, |first|);
  }

  /** ToNumber of an array is the number its `join(",")` text denotes,
      whenever the model has that text. */
  lemma {:induction false} ArrayNumberIsItsText(v: Value)
    requires v.Array? && JoinText(v.items).Some?
    ensures ToNumber(v) == StringToNumber(JoinText(v.items).value)
    decreases v, 1
  {
    if |v.items| > 1 {
      JoinedIsNaN(v.items);
    } else if |v.items| == 1 {
      OneItemNumberIsItsText(v);
    } else {
      assert JoinText(v.items) == Some("");
      assert Trim("") == "";
    }
  }

  lemma {:induction false} OneItemNumberIsItsText(v: Value)
    requires v.Array? && |v.items| == 1 && JoinText(v.items).Some?
    ensures JoinText(v.items) == ItemText(v.items[0])
    ensures ToNumber(v) == StringToNumber(ItemText(v.items[0]).value)
    decreases v, 0
  {
    var item := v.items[0];
    JoinOne(v.items);
    if item.Undefined? || item.Null? {
      EmptyItemNumber(v);
    } else if item.Bool? {
      BoolItemNumber(v);
    } else if item.Num? {
      NumItemNumber(v);
    } else if item.Array? {
      ArrayNumberIsItsText(item);
    }
  }

  lemma JoinOne(items: seq<Value>)
    requires |items| == 1 && JoinText(items).Some?
    ensures JoinText(items) == ItemText(items[0])
  {
    assert JoinText(items[1..]) == Some("") by {
      assert items[1..] == [];
    }
    var first := ItemText(items[0]).value;
    assert first + "" + "" == first;
  }

  lemma EmptyItemNumber(v: Value)
    requires v.Array? && |v.items| == 1 && (v.items[0].Undefined? || v.items[0].Null?)
    ensures ToNumber(v) == StringToNumber(ItemText(v.items[0]).value)
  {
    assert ItemText(v.items[0]) == Some("");
    assert Trim("") == "";
  }

  lemma BoolItemNumber(v: Value)
    requires v.Array? && |v.items| == 1 && v.items[0].Bool?
    ensures ToNumber(v) == StringToNumber(ItemText(v.items[0]).value)
  {
    assert ToNumber(v) == Some(NaN);
    if v.items[0].b {
      assert ItemText(v.items[0]) == Some("true");
      WordIsNaN("true");
    } else {
      assert ItemText(v.items[0]) == Some("false");
      WordIsNaN("false");
    }
  }

  lemma NumItemNumber(v: Value)
    requires v.Array? && |v.items| == 1 && v.items[0].Num?
    ensures ToNumber(v) == StringToNumber(ItemText(v.items[0]).value)
  {
    var item := v.items[0];
    assert ToNumber(v) == Some(item.n);
    assert ItemText(item) == Some(ToText(item));
    ToNumberReadsNumberText(item.n);
  }

  /** A text that starts with a digit not followed by a base letter and
      ends in no white space is read as an unsigned decimal literal. */
  lemma StartsDecimal(s: string)
    requires s != [] && IsDigit(s[0]) && !Lexer.IsWhitespace(s[|s| - 1])
    requires |s| > 1 ==> RadixOf(s[1]).None?
    ensures StringToNumber(s) == DecimalNumber(false, s)
  {
    TrimUnpadded(s);
    StartsDecimalTrimmed(s);
  }

  lemma StartsDecimalTrimmed(s: string)
    requires s != [] && IsDigit(s[0])
    requires |s| > 1 ==> RadixOf(s[1]).None?
    ensures TrimmedNumber(s) == DecimalNumber(false, s)
  {
    assert s != "Infinity";
  }

  /** Digits, `e` and digits: the first times ten to the power of the second. */
  lemma ExponentReads(d: string, e: string)
    requires d != [] && AllDigits(d) && e != [] && AllDigits(e)
    ensures StringToNumber(d + "e" + e) == Some(Int(DigitsValue(d) * Pow10(DigitsValue(e))))
  {
    ExponentIsDecimal(d, e);
    ExponentValue(d, e);
  }

  lemma ExponentIsDecimal(d: string, e: string)
    requires d != [] && AllDigits(d) && e != [] && AllDigits(e)
    ensures StringToNumber(d + "e" + e) == DecimalNumber(false, d + "e" + e)
  {
    var s := d + "e" + e;
    assert s[|s| - 1] == e[|e| - 1];
    assert IsDigit(s[0]) && IsDigit(s[|s| - 1]);
    assert |s| > 1 ==> s[1] == 'e' || IsDigit(s[1]);
    StartsDecimal(s);
  }

  lemma ExponentValue(d: string, e: string)
    requires d != [] && AllDigits(d) && e != [] && AllDigits(e)
    ensures DecimalNumber(false, d + "e" + e) == Some(Int(DigitsValue(d) * Pow10(DigitsValue(e))))
  {
    ExponentParts(d, e);
    WholeScaled(false, d + "e" + e, d, DigitsValue(e));
  }

  /** A decimal literal without a fraction: its digits times ten to the
      power of its exponent. */
  lemma WholeScaled(negative: bool, s: string, whole: string, e: nat)
    requires DecimalParts(s) == Some((whole, "", e as int))
    ensures DecimalNumber(negative, s) == Some(Int(Signed(negative, DigitsValue(whole) * Pow10(e))))
  {
    assert whole + "" == whole;
  }

  lemma ExponentParts(d: string, e: string)
    requires d != [] && AllDigits(d) && e != [] && AllDigits(e)
    ensures DecimalParts(d + "e" + e) == Some((d, "", DigitsValue(e) as int))
  {
    var s := d + "e" + e;
    assert s[|d|] == 'e' && s[|d| + 1] == e[0];
    assert DigitsEnd(s, 0) == |d|;
    assert DigitsEnd(s, |d| + 1) == |s|;
    assert s[|d| + 1..] == e && s[..|d|] == d;
  }

  /** A point followed by a zero leaves the number whole. */
  lemma PointZeroReads(d: string)
    requires d != [] && AllDigits(d)
    ensures StringToNumber(d + ".0") == Some(Int(DigitsValue(d)))
  {
    assert d + ".0" == d + "." + ['0'];
    PointIsDecimal(d, '0');
    PointZeroValue(d);
  }

  lemma PointZeroValue(d: string)
    requires d != [] && AllDigits(d)
    ensures DecimalNumber(false, d + "." + ['0']) == Some(Int(DigitsValue(d)))
  {
    PointParts(d, '0');
    var k := DigitsValue(d);
    var m := DigitsValue(d + ['0']);
    DigitsAppend(d, '0');
    assert DigitOf('0') == 0;
    assert m == 10 * k;
    TenfoldDivides(k, 0);
    assert m % 10 == 0 && m / 10 == k;
    WholeTenths(false, d + "." + ['0'], d, ['0'], DigitsValue(d));
  }

  /** One digit after the point that leaves the number whole: its digits
      divided by ten. */
  lemma WholeTenths(negative: bool, s: string, whole: string, fraction: string, k: nat)
    requires DecimalParts(s) == Some((whole, fraction, 0)) && |fraction| == 1
    requires DigitsValue(whole + fraction) % 10 == 0 && DigitsValue(whole + fraction) / 10 == k
    ensures DecimalNumber(negative, s) == Some(Int(Signed(negative, k)))
  {
    assert Pow10(1) == 10;
  }

  lemma DigitsAppend(d: string, f: char)
    requires AllDigits(d) && IsDigit(f)
    ensures DigitsValue(d + [f]) == 10 * DigitsValue(d) + DigitOf(f)
  {
    var w := d + [f];
    assert w[..|d|] == d && w[|w| - 1] == f;
  }

  /** A point followed by a five makes a fraction, which the model does not
      have. */
  lemma PointFiveUnmodelled(d: string)
    requires d != [] && AllDigits(d)
    ensures StringToNumber(d + ".5") == None
  {
    assert d + ".5" == d + "." + ['5'];
    PointIsDecimal(d, '5');
    PointFiveValue(d);
  }

  lemma PointFiveValue(d: string)
    requires d != [] && AllDigits(d)
    ensures DecimalNumber(false, d + "." + ['5']) == None
  {
    PointParts(d, '5');
    DigitsAppend(d, '5');
    TenfoldDivides(DigitsValue(d), 5);
  }

  lemma TenfoldDivides(k: nat, r: nat)
    requires r < 10
    ensures (10 * k + r) % 10 == r && (10 * k + r) / 10 == k
  {
  }

  lemma PointIsDecimal(d: string, f: char)
    requires d != [] && AllDigits(d) && IsDigit(f)
    ensures StringToNumber(d + "." + [f]) == DecimalNumber(false, d + "." + [f])
  {
    var s := d + "." + [f];
    assert s[|s| - 1] == f;
    assert IsDigit(s[0]);
    assert |s| > 1 ==> s[1] == '.' || IsDigit(s[1]);
    StartsDecimal(s);
  }

  lemma PointParts(d: string, f: char)
    requires d != [] && AllDigits(d) && IsDigit(f)
    ensures DecimalParts(d + "." + [f]) == Some((d, [f], 0))
  {
    var s := d + "." + [f];
    assert s[|d|] == '.';
    assert DigitsEnd(s, 0) == |d|;
    assert DigitsEnd(s, |d| + 1) == |s|;
    assert s[|d| + 1..|s|] == [f] && s[..|d|] == d;
  }

  /** Arrays: none, one and two items. */
  lemma ArrayToNumberExamples()
    ensures ToNumber(Array([])) == Some(Int(0))
    ensures ToNumber(Array([Num(Int(5))])) == Some(Int(5))
    ensures ToNumber(Array([Str("-3")])) == Some(Int(-3))
    ensures ToNumber(Array([Null])) == Some(Int(0))
    ensures ToNumber(Array([Num(Int(1)), Num(Int(2))])) == Some(NaN)
  {
    ArrayOfMinusThree();
  }

  lemma ArrayOfMinusThree()
    ensures ToNumber(Array([Str("-3")])) == Some(Int(-3))
  {
    MinusThreeReads();
    assert ToNumber(Array([Str("-3")])) == ToNumber(Str("-3"));
  }

  lemma MinusThreeReads()
    ensures StringToNumber("-3") == Some(Int(-3))
  {
    var t := "-3";
    assert t == "-" + ['3'];
    assert DigitsValue(['3']) == 3;
    SignedDigitsRead(true, ['3']);
  }

  /** JavaScript's ToString on primitives: what a template literal writes. */
  function ToText(v: Value): (s: string)
    requires IsPrimitive(v)
  {
    match v
    case Undefined => "undefined"
    case Null => "null"
    case Bool(b) => if b then "true" else "false"
    case Num(n) => if n.Int? then IntToString(n.i) else "NaN"
    case Str(s) => s
  }

  /** The property key a string or number becomes; `None` for any other value. */
  function PropertyKey(v: Value): (k: Option<string>)
    ensures k.Some? <==> v.Str? || v.Num?
  {
    match v
    case Str(s) => Some(s)
    case Num(n) => Some(if n.Int? then IntToString(n.i) else "NaN")
    case _ => None
  }

  /** Two different integers never name the same property. */
  lemma NumberKeysDistinct(m: int, n: int)
    requires PropertyKey(Num(Int(m))) == PropertyKey(Num(Int(n)))
    ensures m == n
  {
    IntToStringInjective(m, n);
  }

  /** The number `n` and the string of its decimal digits name the same
      property, as they do on a JavaScript object. */
  lemma NumberKeyIsItsText(n: int)
    ensures PropertyKey(Num(Int(n))) == PropertyKey(Str(IntToString(n)))
  {
  }
}
