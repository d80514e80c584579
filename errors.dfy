/** The error records of src/errors.ts: a kind, a message and a source position.
    `Group` is the error group that `Parser.feed` builds from several failures. */
module Errors {
  import opened Either
  import opened Numbers

  datatype ErrorKind =
    | SyntaxError
    | NameError
    | TypeError
    | ReferenceError
    | ImportError
    | InternalError

  datatype QError =
    | Error(kind: ErrorKind, message: string, line: int, column: int, file: Option<string>)
    | Group(message: string, line: int, column: int, file: Option<string>, errors: seq<QError>)

  /** The outcome of a step that can also end in a JavaScript exception that
      nothing catches (reading a field of a missing token, say): `Thrown`
      carries no value, since the exception ends the whole run. */
  datatype Attempt<+T> = Success(value: T) | Failure(error: QError) | Thrown

  /** The error the parser builds at a token (`composeError`): its line and
      column, and its file or `<unknown>`. */
  function ErrorAt(kind: ErrorKind, message: string, line: int, column: int, file: string): QError
  {
    Error(kind, message, line, column, Some(file))
  }

  /** The decimal text of an integer, as JavaScript's `${n}` writes an integer below 10^21. */
  function IntToString(n: int): (s: string)
    ensures |s| > 0
    ensures n >= 0 ==> forall i :: 0 <= i < |s| ==> IsDigit(s[i])
    ensures s[0] == '-' <==> n < 0
    decreases if n < 0 then 1 - n else n
  {
    if n < 0 then "-" + IntToString(-n)
    else if n < 10 then [DigitChar(n)]
    else IntToString(n / 10) + [DigitChar(n % 10)]
  }

  function DigitChar(d: int): (c: char)
    requires 0 <= d < 10
    ensures IsDigit(c)
  {
    ['0', '1', '2', '3', '4', '5', '6', '7', '8', '9'][d]
  }

  lemma DigitRoundTrip(d: int)
    requires 0 <= d < 10
    ensures DigitOf(DigitChar(d)) == d
  {
  }

  /** Reading back the decimal text of a natural number gives the number. */
  lemma {:induction false} IntToStringRoundTrip(n: nat)
    ensures DigitsValue(IntToString(n)) == n
    decreases n
  {
    if n < 10 {
      DigitRoundTrip(n);
    } else {
      var s := IntToString(n);
      assert s == IntToString(n / 10) + [DigitChar(n % 10)];
      assert s[..|s| - 1] == IntToString(n / 10);
      IntToStringRoundTrip(n / 10);
      DigitRoundTrip(n % 10);
    }
  }

  /** Different integers have different decimal texts, so a JavaScript object keyed
      by numbers never confuses two of them. */
  lemma IntToStringInjective(m: int, n: int)
    requires IntToString(m) == IntToString(n)
    ensures m == n
  {
    if m >= 0 {
      IntToStringRoundTrip(m);
      IntToStringRoundTrip(n);
    } else {
      assert IntToString(-m) == IntToString(m)[1..];
      assert IntToString(-n) == IntToString(n)[1..];
      IntToStringRoundTrip(-m);
      IntToStringRoundTrip(-n);
    }
  }
}
