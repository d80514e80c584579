# Quaesitum, modelled in Dafny

Quaesitum is a small programming language with Latin keywords (`crea
variabile x.`, `si … tum … huc finis est.`, `define f cum a face …`). Its
TypeScript implementation runs a program through four stages:

1. **Tokenizer** (`Lexer.tokenize`). It tries an ordered table of patterns on
   the trimmed rest of the input. The first pattern that matches wins.
2. **Scope resolver**. `scanCodeBlock` cuts the tokens into a region tree.
   `scanNames` builds the scope tree of declared names. `match` picks the
   scopes around a token. `analyzeIdentifiers` rewrites each identifier into a
   token tagged as a variable, a unary operator or a binary operator.
3. **Parser**. A backtracking recursive-descent parser with
   `enter`/`commit`/`rollback` over a saved-index stack. `verifyAST` then folds
   each `aliter` into the `si` before it, and `feed` collects the errors.
4. **Evaluator** (`visit`). It walks the tree over a chain of environments.
   Functions become closures, and a mutable `State` record signals `redi`.

Around these sit the `Either` result type, the `Thesaurus` dictionary and the
built-in operators.

The project has one Dafny module per component.

- **Either** (`either.dfy`): the result type and its combinators.
- **Errors** (`errors.dfy`): error records, exceptions modelled as the outcome
  `Attempt.Thrown`, and the decimal text of integers.
- **Numbers** (`numbers.dfy`): the language's numbers. These are the integers
  plus `NaN`, with JavaScript's truncated `%`.
- **Values** (`values.dfy`): runtime values, truthiness, strict equality and
  property keys.
- **Builtins** (`builtins.dfy`): the built-in operators.
- **Thesauri** (`thesaurus.dfy`): the `Thesaurus` class.
- **Lexer** (`lexer.dfy`, with an example run in `lexer_examples.dfy`):
  - a hand-written prefix matcher per row of the pattern table;
  - the first-match rule;
  - `calcLineno`;
  - the tokenizer loop.
- **Scopes** (`scopes.dfy`):
  - `scanCodeBlock` and the region tree it builds;
  - the scope tree and `match`;
  - `scanNames`, a loop over three explicit stacks, proved equal to a
    recursive scan.
- **Resolution** (`resolution.dfy`): what `analyzeIdentifiers` does to each
  token.
- **Ast** (`ast.dfy`): the syntax tree.
- **Grammar** (`grammar.dfy`): every production as a function of the token
  list and a cursor (`current` and the saved indices).
- **Parsing** (`parser.dfy`): the `Parser` class. Its fields change in place.
  Its methods are proved to compute what the Grammar functions say.
  `analyzeIdentifiers` and `feed` are here too.
- **Folding** (`folding.dfy`): `verifyAST`.
- **Interpreter** (`interpreter.dfy`):
  - `lookup`, `setVar` and `visit` as functions over an arena of
    environments with parent indices;
  - a `Store` class whose methods run the same evaluation on an arena held in
    a field;
  - `execute`.

JavaScript exceptions are modelled as their own outcome rather than as `Err`.
They come from reads past the last token, an uncomposed `si` in the evaluator,
and similar cases. Imported files enter the scope resolver as a `Library`, a
map from import path to the root scope of that file or its error. The names of
the built-in constants are a parameter (`constants`). A `fuel` bound limits
closure calls and `dum` iterations; running out of it is the outcome
`OutOfFuel`.

## Model

| member | source | states |
|---|---|---|
| Either.Either.Map | src/util/either.ts:38-40 | `map` keeps the side: the result is Ok exactly when the input is |
| Either.Either.MapErr | src/util/either.ts:41-43 | `mapErr` keeps the side: the result is Err exactly when the input is |
| Either.Either.Unwrap | src/util/either.ts:50-55 | on an Ok, the answer is the value the Ok holds; on an Err the source throws, which the precondition excludes |
| Either.Either.UnwrapErr | src/util/either.ts:56-61 | on an Err, the answer is the error the Err holds; on an Ok the source throws, which the precondition excludes |
| Either.Either.Expect | src/util/either.ts:62-67 | on an Ok, the answer is the value the Ok holds |
| Either.Either.ExpectErr | src/util/either.ts:68-73 | on an Err, the answer is the error the Err holds |
| Either.Either.UnwrapOrNull | src/util/either.ts:74-76 | the answer is a value exactly for an Ok |
| Either.OkIsNotErr | src/util/either.ts:44-49 | `isOk()` is exactly `!isErr()` for every value |
| Either.UnwrapInvertsConstruction | src/util/either.ts:50-61 | `ok(v).unwrap() == v` and `err(e).unwrapErr() == e`; unwrap on the wrong side is excluded by a precondition, because it throws |
| Either.ConstructionInvertsUnwrap | src/util/either.ts:50-61 | a result equals `ok` or `err` applied to its own contents |
| Either.MapOnBothSides | src/util/either.ts:38-40 | `map(f)` turns `ok(v)` into `ok(f(v))` and leaves an Err unchanged |
| Either.MapErrOnBothSides | src/util/either.ts:41-43 | `mapErr(f)` turns `err(e)` into `err(f(e))` and leaves an Ok unchanged |
| Either.MapFunctor | src/util/either.ts:38-40 | mapping the identity changes nothing; two maps equal one map of the composition |
| Either.MapAndMapErrCommute | src/util/either.ts:38-43 | `map` and `mapErr` commute |
| Either.UnwrapOrNullCases | src/util/either.ts:74-76 | `unwrapOrNull` gives the value for Ok and null for Err |
| Either.ExpectAgreesWithUnwrap | src/util/either.ts:62-73 | `expect`/`expectErr` return what `unwrap`/`unwrapErr` return, whatever the message |
| Errors.IntToString | src/runtime/internal/utils.ts:40 | the decimal text of a number key is non-empty, all digits for naturals, and starts with `-` exactly for negatives |
| Errors.IntToStringRoundTrip | src/runtime/internal/utils.ts:40 | reading back the decimal text of a natural number gives the number |
| Errors.IntToStringInjective | src/runtime/internal/utils.ts:40 | different integers have different decimal texts |
| Numbers.Rem | src/runtime/builtins/binaryOps.ts:21-23 | `a % b` is NaN exactly when an operand is NaN or the divisor is zero |
| Numbers.SubUndoesAdd | src/runtime/builtins/binaryOps.ts:5-11 | `(a + b) - b == a` on integers |
| Numbers.NegInvolution | src/runtime/builtins/unaryOps.ts:3-5 | `-(-a) == a` |
| Numbers.TruncRemShape | src/runtime/builtins/binaryOps.ts:21-23 | the truncated remainder has the dividend's sign, is below the divisor in magnitude, and `a == b * q + r` with `q` rounded towards zero |
| Numbers.RemVersusEuclidean | src/runtime/builtins/binaryOps.ts:21-23 | the truncated remainder equals Dafny's Euclidean `%` for a non-negative dividend, and differs for a negative dividend that the divisor does not divide |
| Numbers.NegativeDividendExample | src/runtime/builtins/binaryOps.ts:21-23 | `-7 % 2` is `-1` in JavaScript, where Dafny's `%` gives `1` |
| Numbers.ParseDigits | src/parse/parser.ts:1635-1654 | a literal made only of digits reads as its decimal value |
| Numbers.UnderscoreIsNaN | src/parse/parser.ts:1635-1654 | the literal `_`, which the tokenizer accepts as numeric, reads as NaN |
| Values.StrictEqualsSymmetric | src/runtime/builtins/binaryOps.ts:25-27 | `===` is symmetric |
| Values.StrictEqualsReflexive | src/runtime/builtins/binaryOps.ts:25-27 | `a === a` holds for everything but NaN |
| Values.ToNumber | src/runtime/builtins/binaryOps.ts:9-15 | the numeric operators read a number operand as itself; `undefined`, `null`, booleans, dictionaries and functions always convert; only strings and arrays may give a number the model lacks |
| Values.ToPrimitive | src/runtime/builtins/binaryOps.ts:5-7 | `+` first turns each operand into a primitive; a primitive stays as it is |
| Values.TrimIdempotent | src/runtime/builtins/binaryOps.ts:9-11 | trimming white space twice trims it once |
| Values.SurroundingSpaceIgnored | src/runtime/builtins/binaryOps.ts:9-11 | white space around a numeric string does not change the number it reads as |
| Values.StringToNumberReadsIntegerText | src/runtime/builtins/binaryOps.ts:9-11 | the decimal text of any integer reads back as that integer |
| Values.SignedDigitsRead | src/runtime/builtins/binaryOps.ts:9-11 | a string of digits, with or without a leading `-`, reads as its signed decimal value |
| Values.PrefixedReadsDigits | src/runtime/builtins/binaryOps.ts:9-11 | `0b`, `0o` or `0x` and digits of that radix read as their value in that radix |
| Values.ExponentReads | src/runtime/builtins/binaryOps.ts:9-11 | digits `e` digits read as the mantissa times ten to the exponent |
| Values.PointZeroReads | src/runtime/builtins/binaryOps.ts:9-11 | digits followed by `.0` read as the integer the digits spell |
| Values.PointFiveUnmodelled | src/runtime/builtins/binaryOps.ts:9-11 | digits followed by `.5` give a fraction, which the model does not represent |
| Values.WordIsNaN | src/runtime/builtins/binaryOps.ts:9-11 | a string that starts with neither a digit, a sign nor a point, and is not `Infinity`, reads as NaN |
| Values.CommaIsNaN | src/runtime/builtins/binaryOps.ts:9-11 | a string holding a comma reads as NaN |
| Values.ToNumberReadsNumberText | src/runtime/builtins/binaryOps.ts:9-11 | the text of a number reads back as that number |
| Values.ArrayNumberIsItsText | src/runtime/builtins/binaryOps.ts:9-11 | an array converts to a number through its comma-joined text |
| Values.JoinedIsNaN | src/runtime/builtins/binaryOps.ts:9-11 | an array of more than one item has a comma in its text, so it reads as NaN |
| Values.ArrayToNumberExamples | src/runtime/builtins/binaryOps.ts:13-15 | `[]` and `[null]` convert to 0, `[5]` to 5, `["-3"]` to -3, and `[1, 2]` to NaN |
| Values.PropertyKey | src/runtime/internal/utils.ts:28-40 | a value is a valid key exactly when it is a string or a number |
| Values.NumberKeysDistinct | src/runtime/internal/utils.ts:40 | two different integers never name the same entry |
| Values.NumberKeyIsItsText | src/runtime/internal/utils.ts:40 | the number `n` and the string of its digits name the same entry |
| Builtins.Adde | src/runtime/builtins/binaryOps.ts:5-7 | a result is never an error; numbers are added and strings are concatenated; nothing is answered exactly when an operand has no primitive text in the model |
| Builtins.Subtrahe | src/runtime/builtins/binaryOps.ts:9-11 | a result is never an error and is a number; two numbers are subtracted |
| Builtins.Multiplicet | src/runtime/builtins/binaryOps.ts:13-15 | a result is never an error and is a number; two numbers are multiplied |
| Builtins.Modulo | src/runtime/builtins/binaryOps.ts:21-23 | a result is never an error and is a number; two numbers give the truncated remainder |
| Builtins.Aequat | src/runtime/builtins/binaryOps.ts:25-27 | always Ok |
| Builtins.Ultra | src/runtime/builtins/binaryOps.ts:29-31 | answers exactly when `b < a` has a modelled answer, and then 1 or 0 for that comparison |
| Builtins.Infra | src/runtime/builtins/binaryOps.ts:33-35 | answers exactly when `a < b` has a modelled answer, and then 1 or 0 for that comparison |
| Builtins.LessThan | src/runtime/builtins/binaryOps.ts:29-35 | two strings compare by `StringLess`, two numbers numerically |
| Builtins.Operands | src/runtime/builtins/binaryOps.ts:9-23 | two numbers are the operands as they are; no operands exactly when a side fails to convert and neither side is NaN |
| Builtins.Vel | src/runtime/builtins/binaryOps.ts:37-39 | always Ok, and the answer is one of the operands |
| Builtins.Neque | src/runtime/builtins/binaryOps.ts:41-43 | always Ok, and the answer is one of the operands |
| Builtins.Minus | src/runtime/builtins/unaryOps.ts:3-5 | a result is a number, and there is one exactly when the operand converts to a number the model has; a number is negated |
| Builtins.Non | src/runtime/builtins/unaryOps.ts:7-9 | always Ok |
| Builtins.Plus | src/runtime/builtins/unaryOps.ts:11-13 | always Ok |
| Builtins.Scribe | src/runtime/builtins/unaryOps.ts:15-18 | always Ok |
| Builtins.ApplyBinary | src/runtime/builtins/binaryOps.ts:5-43 | an answer comes only for a built-in binary name other than `divide` and is never an error; two numbers always get one, and `aequat`, `vel`, `neque` always answer |
| Builtins.ApplyUnary | src/runtime/builtins/unaryOps.ts:3-18 | an answer comes only for a built-in unary name and is never an error; every unary name answers, `minus` whenever its operand converts |
| Builtins.AequatIsStrictEquality | src/runtime/builtins/binaryOps.ts:25-27 | `aequat(a, b)` is 1 exactly when `a === b` and 0 exactly when not, in either order |
| Builtins.UltraIsInfraSwapped | src/runtime/builtins/binaryOps.ts:29-35 | `ultra(a, b) == infra(b, a)`; both answer only 0 or 1 |
| Builtins.StringLessIrreflexive | src/runtime/builtins/binaryOps.ts:29-35 | no string is below itself under `<` |
| Builtins.StringLessAsymmetric | src/runtime/builtins/binaryOps.ts:29-35 | two strings are never each below the other |
| Builtins.LessThanAsymmetric | src/runtime/builtins/binaryOps.ts:29-35 | for any two values, `a < b` and `b < a` are never both true |
| Builtins.UltraInfraExclusive | src/runtime/builtins/binaryOps.ts:29-35 | `ultra(a, b)` and `infra(a, b)` are never both 1 |
| Builtins.IntegerTrichotomy | src/runtime/builtins/binaryOps.ts:25-35 | for two integers exactly one of `infra`, `aequat`, `ultra` is 1 |
| Builtins.SubtraheUndoesAdde | src/runtime/builtins/binaryOps.ts:5-11 | `subtrahe(adde(a, b), b) == a` on integers |
| Builtins.ModuloIsTruncatedRemainder | src/runtime/builtins/binaryOps.ts:21-23 | `modulo(a, b)` has the sign of `a`, is below `\|b\|` in magnitude and differs from `a` by a multiple of `b`; a zero divisor gives NaN |
| Builtins.VelNequeTruthiness | src/runtime/builtins/binaryOps.ts:37-43 | `vel` answers `a` if `a` is truthy, else `b`; `neque` answers `a` if `a` is falsy, else `b`; their truthiness is the "or" and the "and" of the operands' |
| Builtins.NonIsZeroTest | src/runtime/builtins/unaryOps.ts:7-9 | `non(a)` is 1 exactly when `a === 0` and 0 otherwise |
| Builtins.PlusIsIdentity | src/runtime/builtins/unaryOps.ts:11-13 | `plus(a) == ok(a)` |
| Builtins.MinusInvolution | src/runtime/builtins/unaryOps.ts:3-5 | `minus(minus(a)) == a` on integers |
| Builtins.ScribeAnswersNull | src/runtime/builtins/unaryOps.ts:15-18 | `scribe` answers `ok(null)` |
| Builtins.OperatorsReadIntegerText | src/runtime/builtins/binaryOps.ts:9-35 | `subtrahe`, `infra` and `ultra` read the decimal text of an integer as that integer |
| Builtins.OperatorsReadOneItemArrays | src/runtime/builtins/binaryOps.ts:5-15 | `multiplicet` reads a one-item array as its item, while `adde` concatenates its text |
| Builtins.WordsAreNaN | src/runtime/builtins/binaryOps.ts:9-11 | `subtrahe` and `minus` of a word that does not read as a number give NaN |
| Builtins.FractionsUnmodelled | src/runtime/builtins/binaryOps.ts:9-11 | a numeric string with a fractional part gives no answer against a number, and NaN against `undefined` |
| Builtins.OperatorsReadText | src/runtime/builtins/binaryOps.ts:9-35 | any string that converts to an integer is that integer to `subtrahe`, `infra` and `ultra`, compared in either operand position |
| Builtins.UnmodelledText | src/runtime/builtins/binaryOps.ts:9-11 | a string whose number the model lacks gives no answer against a number, NaN against `undefined`, and no answer to `minus` |
| Thesauri.Thesaurus.Create | src/runtime/internal/utils.ts:11-15 | a new dictionary holding exactly the given entries |
| Thesauri.Thesaurus.Set | src/runtime/internal/utils.ts:17-42 | on success the entries become `SetEntries` of the old ones and the dictionary itself is returned; on error the entries are unchanged |
| Thesauri.Thesaurus.Get | src/runtime/internal/utils.ts:44-66 | the answer is `GetEntry` of the entries |
| Thesauri.Thesaurus.Del | src/runtime/internal/utils.ts:68-80 | on success it answers true and removes the key; on error the entries are unchanged |
| Thesauri.Thesaurus.Copy | src/runtime/internal/utils.ts:82-84 | a new dictionary with the same entries |
| Thesauri.Thesaurus.Keys | src/runtime/internal/utils.ts:86-88 | every stored key exactly once |
| Thesauri.Thesaurus.Length | src/runtime/internal/utils.ts:90-92 | the number of keys |
| Thesauri.SetRejects | src/runtime/internal/utils.ts:17-38 | a non-array or an array whose length is not 2 is "key-value pair expected", a bad key type is "key must be a string or a number"; both are TypeErrors |
| Thesauri.SetThenGet | src/runtime/internal/utils.ts:40-65 | after `set([k, v])`, `get(k)` answers `v` (a stored undefined reads as missing) and every other key answers as before |
| Thesauri.GetErrors | src/runtime/internal/utils.ts:44-63 | a bad key is a TypeError; the ReferenceError comes exactly for a missing key or one bound to undefined |
| Thesauri.DelThenGet | src/runtime/internal/utils.ts:68-80 | a bad key is a TypeError; after `del(k)`, `get(k)` is a ReferenceError and the other keys are untouched |
| Thesauri.LengthAfterSet | src/runtime/internal/utils.ts:40-92 | setting a new key raises the length by one; overwriting a key leaves it |
| Thesauri.CopyIsIndependent | src/runtime/internal/utils.ts:11-84 | the copy is another object, and `set` and `del` on it leave the original's entries unchanged |
| Lexer.MatchKeyword | src/lexer/index.ts:89-111 | a keyword row matches only its word followed by a word boundary |
| Lexer.WordMatchesLeadingWord | src/lexer/index.ts:89-111 | for any word of word characters, `/^word\b/` matches exactly when the input's leading run of word characters is that word |
| Lexer.MatchEndOfBlock | src/lexer/index.ts:104 | matches exactly `huc finis est` followed by `.` or `,` |
| Lexer.MatchNumeric | src/lexer/index.ts:105 | the match is a non-empty prefix |
| Lexer.MatchIdentifier | src/lexer/index.ts:112 | the match is a non-empty prefix that starts with a letter or `_` and ends at a word boundary |
| Lexer.FirstMatchIsFirst | src/lexer/index.ts:88-157 | the table answers the kind whose row matches while no earlier row does, and answers nothing exactly when no row matches |
| Lexer.KeywordWins | src/lexer/index.ts:89-111 | a keyword wins exactly when it is the whole leading word |
| Lexer.IdentifierFallback | src/lexer/index.ts:112 | a word that starts with a letter and is not a keyword (and does not start `huc finis est.`) lexes as IDENTIFIER, covering the whole word |
| Lexer.UnderscoreIsNumeric | src/lexer/index.ts:105 | a leading `_` lexes as NUMERIC_LITERAL, since that row comes before IDENTIFIER |
| Lexer.BlockTerminatorIsOneToken | src/lexer/index.ts:104 | `huc finis est.` and `huc finis est,` are one END_OF_BLOCK token of length 14 |
| Lexer.KeywordTextInjective | src/lexer/index.ts:89-111 | no two keyword rows have the same word |
| Lexer.CalcLinenoCounts | src/lexer/index.ts:116-120 | line = 1 + the newlines before the offset; column = 1 + the characters since the last newline; both at least 1 |
| Lexer.SplitLast | src/lexer/index.ts:116-120 | the last piece of splitting at newlines is exactly the text after the last newline, so the column counts the characters since that newline |
| Lexer.LexOfBlanks | src/lexer/index.ts:131-136 | the result is `ok([])` exactly when the input is empty or all white space |
| Lexer.LexFailsAt | src/lexer/index.ts:145-168 | a failure is at a non-blank character where no row matches, and is that character's syntax error |
| Lexer.SyntaxErrorShape | src/lexer/index.ts:160-168 | the error is a SyntaxError naming `input[0]`, with that character's line and column and the file name |
| Lexer.LexRebuilds | src/lexer/index.ts:131-157 | each token's value is non-empty, its file is the given file name, and its line and column are at least 1; the skipped blanks and the token values, interleaved, rebuild the input |
| Lexer.MatchFirstRow | src/lexer/index.ts:145-158 | the `for` loop over the table answers the first matching row and its length |
| Lexer.Tokenize | src/lexer/index.ts:122-172 | the loop computes `Lex` of the input |
| LexerExamples.DeclarationLexes | src/lexer/lexer.test.ts:5-21 | `crea variabile x.` lexes to exactly CREATE, VARIABLE, IDENTIFIER "x", END_OF_SENTENCE |
| Scopes.ScanCodeBlock | src/parse/parser.ts:259-306 | the loop builds the region that `CodeBlocks` describes |
| Scopes.CodeBlocks | src/parse/parser.ts:259-306 | the region tree starts at the given index and ends no earlier |
| Scopes.CodeBlocksShape | src/parse/parser.ts:259-306 | a region ends at END_OF_BLOCK or past the last token; openers and terminators are never leaves; child regions start right after an opener and lie inside the parent, in increasing, non-overlapping order; flattening rebuilds the tokens |
| Scopes.FirstContaining | src/parse/parser.ts:71-88 | the first child whose span contains the position, or none exactly when no child contains it |
| Scopes.Chain | src/parse/parser.ts:71-88 | `match` answers a non-empty list that starts at the root |
| Scopes.Match | src/parse/parser.ts:71-88 | the loop answers `Chain` |
| Scopes.ChainIsFirstPath | src/parse/parser.ts:71-88 | each later scope is the first child of the one before that contains the position, and the last has no such child |
| Scopes.Seeded | src/parse/parser.ts:358-397 | the root maps exactly the built-in names, each to its `<builtins>` token |
| Scopes.Prefixed | src/parse/parser.ts:686-709 | an imported name that is not a built-in appears as `alias.name` with its token, and nothing else appears |
| Scopes.Qualify | src/parse/parser.ts:686-709 | an import only adds names to the scope |
| Scopes.DeclareVariable | src/parse/parser.ts:458-497 | success moves four items on and only adds names |
| Scopes.DefineOperator | src/parse/parser.ts:498-623 | entering a body keeps the enclosing scope's names and opens the body's scope with parameters only |
| Scopes.Declaration | src/parse/parser.ts:455-713 | each declaration step moves forward and only adds names |
| Scopes.ScanNames | src/parse/parser.ts:356-721 | the three-stack loop answers `NamesOf`, the recursive scan of the region tree |
| Scopes.NamesSeeded | src/parse/parser.ts:356-401 | the finished root spans the program and keeps every built-in name |
| Scopes.VariableDeclared | src/parse/parser.ts:458-497 | `crea variabile id .` adds `id`, with its token, to the scope's variables |
| Scopes.CreateRejected | src/parse/parser.ts:458-497 | a missing `variabile`, identifier or `.` is a SyntaxError at the keyword |
| Scopes.UnaryDefined | src/parse/parser.ts:498-596 | `define f cum a <block>` puts `f` in the unary operators and scans the body with the variables exactly {a} |
| Scopes.BinaryDefined | src/parse/parser.ts:597-623 | `define f cum a et b <block>` puts `f` in the binary operators and scans the body with the variables exactly {a, b} |
| Scopes.DottedRejected | src/parse/parser.ts:498-623 | a dotted `f`, `a` or `b` is a SyntaxError |
| Scopes.ImportRejected | src/parse/parser.ts:624-684 | an import of a file that cannot be read or scanned stops the scan with that file's error |
| Scopes.ImportQualifies | src/parse/parser.ts:637-709 | `profer alias ab "p" .` registers `alias` and copies every non-built-in name of the imported root as `alias.name` |
| Resolution.Lookup | src/parse/parser.ts:753-785 | the search of one token's scopes |
| Resolution.LookupIsFirstHit | src/parse/parser.ts:753-785 | the answer comes from the first scope, innermost first, that declares the name; in it variables precede unary operators, which precede binary operators |
| Resolution.ResolvedKeepsDeclarators | src/parse/parser.ts:787-795 | rewriting never changes whether a token is VARIABLE, WITH or AND |
| Resolution.AnalyzeOutcome | src/parse/parser.ts:733-803 | the token count is unchanged; on success every token is resolved; on failure the error is the NameError of an identifier that no scope declares and that follows no VARIABLE, WITH or AND |
| Resolution.TaggingKeepsTokens | src/parse/parser.ts:733-785 | tokens that are not identifiers, or lie in a comment, are unchanged; a rewritten token keeps value, line, column and file, and its `definedAt` is the declaring token |
| Grammar.RollbackUndoesEnter | src/parse/parser.ts:219-243 | `rollback` after `enter` and any moves is back at the start; `commit` keeps only the moves |
| Grammar.Expect | src/parse/parser.ts:137-155 | the token is returned when its type is expected, else a SyntaxError and the cursor stays |
| Grammar.IdentifierAt | src/parse/parser.ts:827-848 | every production: the cursor never goes back, an error with a balanced stack restores the cursor, success consumes a token, and the end of the list throws |
| Grammar.NumericLiteralAt | src/parse/parser.ts:1635-1654 | as every production; the node holds the literal's value |
| Grammar.StringLiteralAt | src/parse/parser.ts:1656-1675 | as every production; the text is the literal without its quotes |
| Grammar.VariableAt | src/parse/parser.ts:1677-1698 | as every production; a token tagged as a variable, a unary operator or a binary operator is read as a variable reference, and nothing else is |
| Grammar.ExpressionAt | src/parse/parser.ts:1518-1526 | as every production; the node is at the first token |
| Grammar.BinaryOpAt | src/parse/parser.ts:1563-1601 | as every production; the left operand is never a binary operation, so chains nest to the right |
| Grammar.LeftExpressionAt | src/parse/parser.ts:1528-1561 | as every production; the answer is never a binary operation |
| Grammar.UnaryOpAt | src/parse/parser.ts:1603-1633 | as every production; the operator is a tagged unary operator |
| Grammar.VariableDeclarationAt | src/parse/parser.ts:978-1019 | as every production, with the saved stack balanced |
| Grammar.VariableDeclarationReads | src/parse/parser.ts:978-1019 | succeeds exactly on `crea variabile`, an identifier and `.`; the node holds that identifier |
| Grammar.AssignmentAt | src/parse/parser.ts:1021-1063 | as every production, with the saved stack balanced |
| Grammar.AssignmentReads | src/parse/parser.ts:1021-1063 | succeeds exactly on `da`, an identifier, an expression and `.`; the node holds that identifier and that expression |
| Grammar.ImperativeAt | src/parse/parser.ts:1065-1090 | as every production, with the saved stack balanced |
| Grammar.ImperativeReads | src/parse/parser.ts:1065-1090 | succeeds exactly on an expression and `.`; the node holds that expression, at its position |
| Grammar.ReturnAt | src/parse/parser.ts:1402-1433 | as every production; success leaves the entry index saved, because `commit` is never called |
| Grammar.Until | src/parse/parser.ts:182-198 | the tokens up to the first of the given kinds, or none when there is no such token |
| Grammar.CommentAt | src/parse/parser.ts:1435-1465 | as every production; an error leaves the cursor where it was |
| Grammar.ImportAt | src/parse/parser.ts:1467-1516 | as every production, with the saved stack balanced |
| Grammar.SentenceListAt | src/parse/parser.ts:850-899 | the cursor never goes back and something is consumed; a list that needs `huc finis est.` ends just after one |
| Grammar.SentenceAt | src/parse/parser.ts:901-976 | as every production; all alternatives are tried, in the order of the source |
| Grammar.IfAt | src/parse/parser.ts:1092-1133 | as every production; the node is an IF at the keyword |
| Grammar.IfReads | src/parse/parser.ts:1092-1133 | succeeds exactly on `si`, an expression, `tum` and a block; the node holds that condition and that block |
| Grammar.ElseAt | src/parse/parser.ts:1135-1181 | as every production; the node is an ELSE at the keyword |
| Grammar.ElseReads | src/parse/parser.ts:1135-1181 | succeeds exactly on `aliter` and a whole `si` sentence, whose condition and block it holds, or on `aliter`, `tum` and a block after the `si` reported an error |
| Grammar.ForAt | src/parse/parser.ts:1183-1278 | as every production; the node is a FOR |
| Grammar.ForReads | src/parse/parser.ts:1183-1278 | succeeds exactly on `per`, an identifier, two different bound keywords each before an expression, `face` and a block; the `ab` expression is the start and the `ad` one the end, whichever comes first |
| Grammar.ForRestReads | src/parse/parser.ts:1183-1278 | after the second bound keyword, success needs it to differ from the first, and an expression, `face` and a block |
| Grammar.WhileAt | src/parse/parser.ts:1280-1321 | as every production; the node is a WHILE at the keyword |
| Grammar.WhileReads | src/parse/parser.ts:1280-1321 | succeeds exactly on `dum`, an expression, `face` and a block; the node holds that condition and that block |
| Grammar.FunctionAt | src/parse/parser.ts:1323-1400 | as every production; the node is a FUNCTION with its parameters |
| Grammar.FunctionReads | src/parse/parser.ts:1323-1400 | succeeds exactly on `define`, a name, `cum`, a parameter, `et` and a second parameter when the name is a binary operator, `face` and a block; the node holds those |
| Grammar.SecondParameterReads | src/parse/parser.ts:1354-1372 | for a binary operator, the second parameter is the identifier after `et` |
| Grammar.ProgramAt | src/parse/parser.ts:809-825 | the program is at line 1, column 1 |
| Parsing.Parser.Move | src/parse/parser.ts:117-119 | moves the cursor, nothing else |
| Parsing.Parser.Enter | src/parse/parser.ts:219-221 | saves the current index |
| Parsing.Parser.Commit | src/parse/parser.ts:226-228 | drops the index saved last |
| Parsing.Parser.Rollback | src/parse/parser.ts:233-243 | returns to the index saved last and drops it |
| Parsing.Parser.Peek | src/parse/parser.ts:204-206 | the token at the cursor, if there is one |
| Parsing.Parser.ExpectTypeIs | src/parse/parser.ts:137-155 | computes `Expect` on the fields |
| Parsing.Parser.ScanUntil | src/parse/parser.ts:182-198 | computes `Until` on the fields |
| Parsing.Parser.ParseBinaryOp | src/parse/parser.ts:1563-1601 | computes `BinaryOpAt` on the fields, and so does each `Parse…` method for its production |
| Parsing.Parser.ParseSentence | src/parse/parser.ts:901-976 | computes `SentenceAt` on the fields |
| Parsing.Parser.ParseProgram | src/parse/parser.ts:809-825 | computes `ProgramAt` on the fields |
| Parsing.Parser.AnalyzeIdentifiers | src/parse/parser.ts:723-807 | rewrites the token field in place to `Analyze` of the scope tree, or answers the scan's error with the tokens unchanged |
| Parsing.Parser.Feed | src/parse/parser.ts:1868-1919 | answers `Fed` of the tokens and the file name |
| Parsing.FindDeclaration | src/parse/parser.ts:753-785 | the loop over the scopes answers `Resolution.Lookup` |
| Parsing.FedOutcome | src/parse/parser.ts:1868-1919 | a program comes back under the file's name alone, at line 1, column 1, in folded shape; a failure after the scan is an undeclared identifier's NameError or a parse error wrapped in "Failed to parse the program" |
| Folding.WithoutEmpty | src/parse/parser.ts:1732-1739 | the EMPTY placeholders are spliced out |
| Folding.FoldListFolded | src/parse/parser.ts:1721-1866 | an accepted list has no ELSE, no EMPTY and no uncomposed IF at any depth |
| Folding.FoldProgramFolded | src/parse/parser.ts:1711-1720 | an accepted program is in folded shape |
| Folding.LeadingElseMisplaced | src/parse/parser.ts:1779-1810 | an ELSE that opens its list is a SyntaxError |
| Folding.IfElseComposed | src/parse/parser.ts:1743-1850 | `si … aliter …` becomes one composed If with the ELSE as its only `elif` |
| Folding.ElseAfterOtherwiseRejected | src/parse/parser.ts:1822-1834 | an ELSE after an unconditional `aliter` is a SyntaxError |
| Folding.FoldSentence | src/parse/parser.ts:1743-1866 | a folded sentence keeps the length of the list and every sentence from its own index on, and no earlier placeholder appears or disappears |
| Folding.FoldElse | src/parse/parser.ts:1767-1850 | an accepted ELSE leaves an EMPTY placeholder at its own index and keeps every later sentence |
| Folding.PrecedingFindsNearest | src/parse/parser.ts:1779-1797 | the search for the sentence before an ELSE finds the nearest one that is not a placeholder |
| Folding.FoldElseWithoutIf | src/parse/parser.ts:1779-1810 | an ELSE that opens its list, or that has only placeholders before it, is rejected |
| Folding.FoldElseAttaches | src/parse/parser.ts:1767-1850 | an ELSE is rejected after anything but a `si`, and after an unconditional `aliter`; otherwise its branch is appended to the `elif` list of the nearest `si` and nothing else changes |
| Folding.ElsesAttach | src/parse/parser.ts:1743-1850 | a run of ELSEs after a `si` is folded into that `si`, in order, each leaving a placeholder |
| Folding.IfElsesComposed | src/parse/parser.ts:1721-1866 | a `si` followed by `aliter` sentences becomes one composed If holding their branches in order |
| Folding.ElseAfterPlainMisplaced | src/parse/parser.ts:1799-1810 | an ELSE after a sentence that is not a `si` is a SyntaxError |
| Folding.ElseAfterOtherwiseInList | src/parse/parser.ts:1822-1834 | in a list, an ELSE after a `si` whose last branch is unconditional is a SyntaxError |
| Folding.ElseAfterUnconditioned | src/parse/parser.ts:1822-1834 | whenever the nearest non-placeholder sentence before an ELSE is a composed `si` whose last branch is unconditional, folding that ELSE stops the list with an ElseAfterOtherwise SyntaxError at the ELSE |
| Folding.FoldFromStops | src/parse/parser.ts:1724-1730 | the first sentence that fails to fold ends the list loop with its error |
| Folding.VerifyList | src/parse/parser.ts:1721-1742 | the in-place loop computes `FoldList` |
| Folding.VerifyProgram | src/parse/parser.ts:1700-1866 | the pass computes `FoldProgram` |
| Interpreter.Lookup | src/runtime/interpreter.ts:53-88 | a failure is "Undefined …: 'name'" |
| Interpreter.LookupFindsNearest | src/runtime/interpreter.ts:53-88 | `lookup` answers from the innermost environment on the parent chain whose map of that kind has the name, and fails exactly when none has it |
| Interpreter.NearestNoneIffMissing | src/runtime/interpreter.ts:80-87 | no environment is found exactly when no ancestor has the name |
| Interpreter.NearestIsFirstAncestor | src/runtime/interpreter.ts:80-87 | the environment found is the first ancestor that has the name |
| Interpreter.LookupWithTokenType | src/runtime/interpreter.ts:39-51 | each tagged token type is looked up in its own map |
| Interpreter.AssignedWritesNearest | src/runtime/interpreter.ts:90-110 | a constant's name answers ok and changes nothing; otherwise only the nearest environment whose `vars` has the name is written; an error comes exactly when the starting environment lacks the name and has no parent |
| Interpreter.AssignedOverwrites | src/runtime/interpreter.ts:90-110 | writing a name twice leaves what writing the last value leaves |
| Interpreter.Assigned | src/runtime/interpreter.ts:90-110 | no environment is added or removed, no parent or operator map changes, and environments after the starting one are untouched |
| Interpreter.Declared | src/runtime/interpreter.ts:390-405 | a constant's name is a SyntaxError and changes nothing; any other name is bound to undefined in the current environment only |
| Interpreter.Defined | src/runtime/interpreter.ts:272-299 | the closure goes into the defining environment's `unaryOp` map without a second parameter, else into its `binaryOp` map; nothing else changes |
| Interpreter.Evaluated | src/runtime/interpreter.ts:173-478 | evaluating an expression only grows the arena: no environment is removed and no parent changes |
| Interpreter.BinaryApplied | src/runtime/interpreter.ts:206-238 | the arena only grows; `BinaryEvaluatesBoth` states the order of evaluation |
| Interpreter.BinaryEvaluatesBoth | src/runtime/interpreter.ts:206-238 | both operands are evaluated, left first, before either is checked; a left error is the answer with the arena the right operand left; two values go to the operator |
| Interpreter.UnaryApplied | src/runtime/interpreter.ts:429-457 | the arena only grows; `UnaryEvaluatesOperand` states what it answers |
| Interpreter.UnaryEvaluatesOperand | src/runtime/interpreter.ts:429-457 | a failing operand is the answer; otherwise the operator is called on its value |
| Interpreter.OperatorCalled | src/runtime/interpreter.ts:220-238 | the arena only grows; `OperatorLooksUp` states what it answers |
| Interpreter.OperatorLooksUp | src/runtime/interpreter.ts:220-238 | a missing operator is a NameError at the operation; a built-in is applied to the operands without touching the arena; a closure is called |
| Interpreter.ClosureCalled | src/runtime/interpreter.ts:272-299 | the arena only grows; `CallIsolated` and `CallAnswersReturnedValue` state the call |
| Interpreter.CallAnswersReturnedValue | src/runtime/interpreter.ts:272-299 | a function whose body is `redi e` answers what `e` evaluates to in the fresh call environment |
| Interpreter.Visited | src/runtime/interpreter.ts:173-478 | a sentence only grows the arena and keeps the state discipline: the context flag and the loop flags never change, a set `toReturn` stays set, and outside a function the state is unchanged |
| Interpreter.AssignmentVisited | src/runtime/interpreter.ts:184-205 | the arena only grows and the state is unchanged |
| Interpreter.IfVisited | src/runtime/interpreter.ts:300-336 | the arena only grows and the state discipline is kept; `IfRunsFirstChosen` states which branch runs |
| Interpreter.ReturnVisited | src/runtime/interpreter.ts:344-364 | the arena only grows and the state discipline is kept; `ReturnNeedsFunction` states the two cases |
| Interpreter.Executed | src/runtime/interpreter.ts:480-490 | the program runs in the root and global environments, outside a function, and its state never changes |
| Interpreter.ListFrom | src/runtime/interpreter.ts:372-389 | the end of the list answers the last result |
| Interpreter.ListedInOrder | src/runtime/interpreter.ts:372-389 | the first sentence runs first; the list stops at an error or when `toReturn`, `toBreak` or `toContinue` is set, and otherwise runs the rest |
| Interpreter.ForVisited | src/runtime/interpreter.ts:245-271 | the loop's own environment, under `env`, is the first one added to the arena, before the bounds are evaluated |
| Interpreter.Range | src/runtime/interpreter.ts:258-270 | the integers from the first bound to the second, in order, and none when the first is above the second |
| Interpreter.ForSeq | src/runtime/interpreter.ts:258-270 | iterating over no values answers the result so far and changes nothing |
| Interpreter.ForFrom | src/runtime/interpreter.ts:258-270 | the arena only grows and the state discipline is kept; `ForFromIsForSeq` states the iterations |
| Interpreter.ForFromIsForSeq | src/runtime/interpreter.ts:258-270 | the counting loop runs the body for exactly the integers from the first bound to the second, in order, as `ForSeq` over `Range` |
| Interpreter.ForSeqSplit | src/runtime/interpreter.ts:258-270 | iterating over `a + b` iterates over `a` and then, unless that failed, returned or broke, over `b` from where it stopped; a set `toContinue` does not stop the loop |
| Interpreter.ForVisitedIterates | src/runtime/interpreter.ts:245-271 | bounds that evaluate once, in `env`, to integers run the body in the loop's environment for each integer between them, in order |
| Interpreter.ForRunsToUpperBound | src/runtime/interpreter.ts:245-271 | special case of `ForFromIsForSeq`: with an empty body the loop runs once per integer up to the end inclusive and leaves the loop variable written with the last one |
| Interpreter.WhileFrom | src/runtime/interpreter.ts:406-428 | the arena only grows and the state discipline is kept; `WhileTestsFirst` states one round |
| Interpreter.WhileTestsFirst | src/runtime/interpreter.ts:406-428 | the condition is tested first; a falsy one answers the previous result without running the body; a truthy one runs the body and tests again unless the body failed, returned or broke, whether or not `toContinue` is set |
| Interpreter.WhileTrueRunsOutOfFuel | src/runtime/interpreter.ts:406-428 | a loop with an empty body whose condition stays truthy never ends: it runs until the fuel is spent |
| Interpreter.IfRunsFirstChosen | src/runtime/interpreter.ts:300-336 | a truthy condition runs the body; otherwise the first unconditional `aliter`, or the first whose condition is truthy, runs; when none runs the answer is `ok(null)` |
| Interpreter.ReturnNeedsFunction | src/runtime/interpreter.ts:344-364 | outside a function `redi` is a SyntaxError; inside one the value is evaluated and `toReturn` set |
| Interpreter.CallIsolated | src/runtime/interpreter.ts:272-299 | a call runs in a fresh environment whose parent is the defining one, and an expression never changes the caller's state |
| Interpreter.ExecutedOutsideFunctions | src/runtime/interpreter.ts:480-490 | the program runs outside any function, so its state never changes |
| Interpreter.Store.CreateEnvironment | src/runtime/interpreter.ts:30-37 | appends an empty environment with the given parent |
| Interpreter.Store.SetVar | src/runtime/interpreter.ts:90-110 | changes the arena as `Assigned` says and answers its result |
| Interpreter.Store.Evaluate | src/runtime/interpreter.ts:173-478 | changes the arena as `Evaluated` says and answers its outcome |
| Interpreter.Store.EvaluateBinary | src/runtime/interpreter.ts:206-238 | changes the arena as `BinaryApplied` says and answers its outcome |
| Interpreter.Store.EvaluateUnary | src/runtime/interpreter.ts:429-457 | changes the arena as `UnaryApplied` says and answers its outcome |
| Interpreter.Store.CallOperator | src/runtime/interpreter.ts:220-238 | changes the arena as `OperatorCalled` says and answers its outcome |
| Interpreter.Store.CallClosure | src/runtime/interpreter.ts:272-299 | changes the arena as `ClosureCalled` says and answers its outcome |
| Interpreter.Store.Assign | src/runtime/interpreter.ts:184-205 | changes the arena as `AssignmentVisited` says and answers its outcome |
| Interpreter.Store.ForLoop | src/runtime/interpreter.ts:258-270 | the counting loop computes `ForFrom`, that is `ForSeq` over `Range` of the bounds |
| Interpreter.Store.VisitReturn | src/runtime/interpreter.ts:344-364 | changes the arena as `ReturnVisited` says and answers its outcome and state |
| Interpreter.Store.Visit | src/runtime/interpreter.ts:173-478 | changes the arena as `Visited` says and answers its outcome and state |
| Interpreter.Store.VisitList | src/runtime/interpreter.ts:372-389 | the loop computes `Listed` |
| Interpreter.Store.VisitIf | src/runtime/interpreter.ts:300-336 | the loop over the `elif` entries computes `IfVisited` |
| Interpreter.Store.VisitFor | src/runtime/interpreter.ts:245-271 | the loop computes `ForVisited` |
| Interpreter.Store.VisitWhile | src/runtime/interpreter.ts:406-428 | the loop computes `WhileFrom` |
| Interpreter.Store.Declare | src/runtime/interpreter.ts:390-405 | changes the arena as `Declared` says |
| Interpreter.Execute | src/runtime/interpreter.ts:480-490 | answers the outcome of `Executed` |

## Left out

- File I/O and caching of imports. That is `scanNamesForExternalFile`, the path resolution and the static `subParsers` and `nameCache`. An imported file's root scope is an input (`Scopes.Library`), keyed by the path as written, trimmed and without quotes. Nothing is claimed about import cycles.
- Parsing.Parser.Feed: the result map holds only the fed file. The programs of imported files' sub-parsers are not added, because sub-parsers are not modelled.
- The early return of `scanNames` from the static name cache, for the same reason.
- Scopes.ImportRejected and Scopes.Imported: for a file that cannot be read, the ImportError message is `could not read file '<path>'`, with the path as written in the import. The source names the path resolved against the importing file's directory and appends `: ` and the reason the read failed. Both details come from the file system, which is not modelled.
- `divide` and floating point. Numbers are the integers plus NaN. `Builtins.ApplyBinary` answers nothing for `divide`, and the evaluator reports that as an unmodelled outcome.
- Numbers.ParseNumber: `parseFloat` is modelled only up to truncation to an integer. The value is exact and never rounded to a double, so a literal such as `1e400`, which JavaScript reads as Infinity, reads as the integer 10^400.
- Values.ToNumber: a string or an array whose number has a fractional part, or is the text `Infinity`, gets no number (`None`), because numbers are the integers plus NaN. Integers beyond 2^53 are not rounded to doubles, so a string such as `"1e400"`, which JavaScript reads as Infinity, reads as its exact integer. `-0` is not told apart from `0`.
- Values.ToPrimitive: the text of a dictionary or of a function (`[object Object]`, the function's source) is not modelled. So a dictionary, a function, or an array holding one has no primitive (`None`), and `Builtins.Adde`, `Builtins.Infra` and `Builtins.Ultra` give no answer for them, where JavaScript concatenates or compares that text. `Values.ToNumber` is not affected: it answers NaN for these values, as JavaScript does.
- Builtins.ApplyBinary: an operator gives no answer (`None`) whenever converting an operand gives none, as above. The evaluator reports that as an unmodelled outcome.
- Strings are sequences of Unicode scalar values, not of UTF-16 code units. Outside the Basic Multilingual Plane, `Builtins.StringLess` orders by code point where JavaScript compares surrogate units, `Lexer.CalcLineno` counts one column where JavaScript counts two, and the tokenizer's unknown-character error names the whole character where `input[0]` is half of a surrogate pair.
- Interpreter.ForVisited: only bounds that are both integer numbers are run. Every other pair gives the `Unmodelled` outcome, although interpreter.ts:261 runs such loops by comparing with JavaScript's `<=` and stepping with `++`. That covers a bound that is a string, a boolean, `null`, `undefined`, an array, a dictionary, a closure or a number with a fraction. In the source, `per i ab "1" ad 3` writes the string `"1"` and then 2 and 3, an `undefined` end bound runs no iteration and answers `ok(null)`, and a `null` start writes `null` and then 1, 2 and so on.
- Interpreter.Store.VisitFor: it computes `Interpreter.ForVisited`, so it gives the same `Unmodelled` outcome for bounds that are not both integer numbers.
- Lexer.Tokenize and Lexer.Lex: the file name is always an argument. The default `"<string>"` that `tokenize` supplies when none is given is not modelled; every caller in the modelled core passes a name.
- The console output of `scribe`; only its answer is modelled.
- Display and reflection: `Thesaurus.toString`, `Symbol.toStringTag`, `setBuiltinOperatorProperties`, `debugExpressionToString`, and `toString`/`uneval` on closures.
- The REPL (src/shell.ts, src/runtime/interactive.ts), the demo script (src/index.ts) and the stale lexer src/lexer.ts.
- The module of built-in constants (src/runtime/builtins/constants.ts) is not part of this model. Its names are a parameter (`constants`), and its values are the given map.
- Import evaluation: `visit` has no IMPORT case, and the model answers the exception the source would throw.
- Inherited properties of JavaScript objects. Scope maps, environments and the dictionary are maps, so a name such as `constructor`, which a plain `{}` inherits, is not found.
- Values.StrictEquals: arrays, dictionaries and closures compare by content, not by object identity.
- Thesauri.Thesaurus.Keys: JavaScript lists integer-like keys in ascending order and then the rest in insertion order. The model states only that each key appears once.
- Interpreter.Execute: `execute`'s optional environment argument is not modelled. A run always starts from the root environment with a global one under it.
- Interpreter.Execute: closure calls and `dum` iterations are bounded by `fuel`. A run that would need more ends in `OutOfFuel`. About a program that does not terminate, the model claims only that it ends in `OutOfFuel`.
- Interpreter.IfRunsFirstChosen: the `aliter` scan is stated for conditions that evaluate without changing the arena. Conditions that call functions are covered only by `Interpreter.Store.VisitIf` computing `IfVisited`.
- Grammar.IdentifierAt and the other productions promise to restore the cursor on error only when the saved-index stack comes back as it was. `return_` never commits on success, so a failure after a nested `redi` can leave the stack unbalanced.
- Exceptions are one outcome (`Thrown`), without the exception's message. They come from reading past the last token and from the evaluator's panics.
- Grammar.Rollback and Parsing.Parser.Rollback: the source throws when nothing is saved. The model instead requires a saved index. The requirement holds at every call, because each production rolls back only after its own `enter`, so that exception never arises.
