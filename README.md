# Lox scanner, value rules and diagnostics in Dafny

This project models the working core of an early Lox tree-walking interpreter
written in Rust (`alox`). Three pieces of it have real behaviour, and each is
modelled in the form the Rust code takes:

- **The scanner** (`scanner.dfy`, module `Scanner`) is a class with the Rust
  struct's fields (`source`, `tokens`, `start`, `current`, `line`). Its methods
  update the cursor and append to the token sequence in place. `ScanTokens` is
  the cursor loop, with the invariant that the tokens pushed so far correspond
  one to one, in order, with the characters consumed; it is proved against the
  specification function `PunctTokens`; through it `Scan` is proved to yield
  `Lex(source)` and `ScanDefault` to yield `Lex("")`, the lone `EOF`. The step methods state their own field updates: `Advance`
  moves the cursor by one, `AddToken` appends one token whose lexeme is the
  byte slice `start..current`, and `ScanToken` appends the token of
  `PunctType` for the character it consumed. Lemmas prove the listed
  properties about `Lex`: exactly one `EOF`, at the end; n + 1 tokens for n
  characters; every token on line 1 with no literal; and the lexemes spelling
  the source back out.
- The cursor counts characters (`chars().count()`, `chars().nth`), while the
  lexeme is cut with a byte slice of the `String`. The model writes that slice
  out as `ByteSlice` over the UTF-8 widths of the characters, with `None`
  where Rust panics; `ByteSliceExact` proves it succeeds exactly when both
  offsets are character boundaries in order. The scanner keeps the invariant `ConsumedAscii`: the
  characters before the cursor take as many bytes as there are of them, which
  by `ByteLengthAscii` means they are all ASCII. Under it `ByteSliceAscii`
  proves the byte slice equal to the character slice.
- **The interpreter's value rules** (`interpreter.dfy`, module `Interpreter`)
  are pure functions. `IsTruthy` is the Lox truthiness rule. `VisitUnaryExpr`,
  `VisitBinaryExpr` and `VisitGroupingExpr` are the visitors. Two
  collaborators are not written in the system: `evaluate` and the `Literal`
  operator implementations (`Neg`, `Not`, `Add`, `Sub`, `Div`, `Mul`,
  ordering, equality). They are fields of the `Interpreter` value, so every
  property holds whatever they turn out to be.
- **Diagnostic text** (`error.dfy`, module `Error`) is pure string
  construction. `Where` chooses the location text. `Report` builds
  `[line N] Error<where>: <message>` and returns it instead of printing it.
  `Error` combines the two. The line number is rendered by `Decimal`, which is
  proved to read back correctly.

`token.dfy` (module `Token`) transcribes `TokenType`, `Token` and `Literal`
from `src/token.rs`, with the `f64` payload as the opaque type `F64`.
`parser.dfy` (module `Parser`) holds only the `Expr` tree the visitors match on.

Where the code departs from the Lox language as usually specified, the model follows the code:

- The scanner accepts only `( ) { } , . - + ; *`. Every other character hits
  `unimplemented!()`, so the model takes "the unscanned source holds only those
  ten characters" as a precondition. Whitespace, comments, literals,
  identifiers and two-character operators are not scanned by the code.
- `visit_grouping_expr` hands the whole grouping node to `evaluate`, not its
  inner expression. `GroupingIsNotForwarded` shows that this differs from the
  inner expression's value under some evaluator.
- The visitors' `panic!` on the wrong `Expr` variant and their
  `unreachable!()` on other operator types are preconditions.
- The code does not compile as shown. Field names `type_` and `token_type`
  are both used for one field; the model calls it `tokenType`. The comparison
  and equality operators yield a `bool` where the arm must yield a `Literal`;
  the model takes the evident intent and wraps the result as
  `Literal::Boolean`.
- `Expr` has no leaf in the Rust visitors. The model adds `LiteralExpr(value)`,
  the Lox literal node, so that trees can be built at all.
- `Scanner::new` is called from `src/run.rs` but defined nowhere. `Scan` builds
  the default scanner and sets its `source` field, which is what
  `Scanner { source, ..Default::default() }` would do.

## Model

| member | source | states |
|---|---|---|
| `Token.PunctType` | src/scanner.rs:47-56 | each of the ten punctuation characters maps to its token type, never `EOF`, and the reverse table gives the character back |
| `Token.PunctTypeInjective` | src/scanner.rs:47-56 | two accepted characters give the same token type exactly when they are the same character |
| `Token.PunctCharCoversPunctTypes` | src/scanner.rs:47-56 | a token type is emitted for some accepted character exactly when the reverse table has a character for it |
| `Scanner.PunctTokens` | src/scanner.rs:45-74 | one token per accepted character, in source order, with the matching type, the character as lexeme, no literal and the current line |
| `Scanner.ScanStep` | src/scanner.rs:26-29 | one loop step: with `start = current`, the slice `start..current+1` is the one character consumed, and the tokens emitted so far grow by exactly its token, at the end |
| `Scanner.PunctTokensSnoc` | src/scanner.rs:45-74 | one more accepted character at the end of the text gives exactly one more token, its own, at the end of the tokens |
| `Scanner.Lex` | src/scanner.rs:25-38 | a fresh scan of n characters yields n+1 tokens, `EOF` exactly once and last, with empty lexeme, no literal and line 1; every token has no literal and line 1 |
| `Scanner.UnlexPunctTokens` | src/scanner.rs:67-70 | the lexemes of the punctuation tokens, joined, are exactly the characters consumed |
| `Scanner.LexUnlex` | src/scanner.rs:25-38 | round trip: joining the lexemes of a scan's output gives the source back |
| `Scanner.ByteLengthAscii` | src/scanner.rs:67 | the UTF-8 byte length is at least the character count, and equal to it exactly when every character is ASCII |
| `Scanner.ByteLengthStep` | src/scanner.rs:61-67 | consuming one more character moves the byte offset on by that character's UTF-8 width |
| `Scanner.CharIndexIsByteIndex` | src/scanner.rs:61-67 | on accepted source, character index i (used by the cursor) is byte offset i (used by the lexeme slice) |
| `Scanner.CharIndexAt` | src/scanner.rs:67 | any character index it returns lies within the text, and the characters before it take exactly the given number of bytes |
| `Scanner.ByteLengthGrowth` | src/scanner.rs:67 | every character takes at least one byte, so a longer prefix has a larger byte length |
| `Scanner.CharIndexAtComplete` | src/scanner.rs:67 | every character boundary is found: the byte length of the first i characters maps back to character index i |
| `Scanner.ByteSlice` | src/scanner.rs:67 | a slice that does not panic has `lo <= hi` and both offsets on character boundaries |
| `Scanner.ByteSliceExact` | src/scanner.rs:67 | the slice `lo..hi` does not panic exactly when `lo <= hi` and both offsets are character boundaries, and then it is the text between the characters at those boundaries |
| `Scanner.CharIndexAtAscii` | src/scanner.rs:67 | within an ASCII prefix, byte offset b is character index b |
| `Scanner.ByteSliceAscii` | src/scanner.rs:67 | where the first `hi` characters take `hi` bytes (an ASCII prefix), the byte slice `lo..hi` is the character slice `lo..hi` and does not panic |
| `Scanner.NonAsciiPrefixMisplacesSlice` | src/scanner.rs:62-67 | after a two-byte character the byte slice at the character cursor is the wrong text, or a panic |
| `Scanner.Scanner.Default` | src/scanner.rs:12-21 | the default scanner has empty source, no tokens, cursor and start at 0, line 1 |
| `Scanner.Scanner.ScanTokens` | src/scanner.rs:25-39 | the cursor ends at the character count; the result, which is also the new token list, is the old tokens, one token per consumed character, then `EOF` on the unchanged line; `start` ends on the last character scanned, or is unchanged when nothing was left; the source and line do not change |
| `Scanner.Scanner.IsAtEnd` | src/scanner.rs:41-43 | with the cursor inside the source, the scanner is at the end exactly when the cursor equals the character count |
| `Scanner.Scanner.ScanToken` | src/scanner.rs:45-59 | consumes exactly one character and appends exactly one token of the matching type, lexeme `start..current`, no literal |
| `Scanner.Scanner.AddToken` | src/scanner.rs:66-74 | appends one token whose lexeme is the byte slice `start..current` of the source (required not to panic), on the current line; with only ASCII before the cursor that lexeme is the character slice `start..current` |
| `Scanner.Scanner.Advance` | src/scanner.rs:61-64 | raises the cursor by exactly 1 and returns the character it passed |
| `Scanner.ScanDefault` | src/scanner.rs:12-38 | the default scanner, run, yields exactly `[EOF]` on line 1, which is `Lex` of the empty source |
| `Scanner.Scan` | src/run.rs:7-8 | a default scanner given an accepted source yields exactly `Lex(source)` |
| `Interpreter.IsTruthy` | src/interpreter.rs:62-68 | always a `Boolean`, true exactly when the value is neither `Nil` nor `Boolean(false)` |
| `Interpreter.IsTruthyFixesBooleans` | src/interpreter.rs:65 | a `Boolean` is returned unchanged, and only a `Boolean` is; truthiness is idempotent |
| `Interpreter.NumbersAndStringsAreTruthy` | src/interpreter.rs:66 | every number and every string (the empty string too) is truthy |
| `Interpreter.UnaryOpOf` | src/interpreter.rs:17-20 | `Minus` selects negation and `Bang` selects logical not, each exactly |
| `Interpreter.VisitUnaryExpr` | src/interpreter.rs:13-27 | `Minus` applies the negation to the operand's value, `Bang` applies `Not` to its truthiness; only `Unary` nodes with those two operators are accepted |
| `Interpreter.BangIsFalsiness` | src/interpreter.rs:19 | when `Not` negates booleans, `!e` is `Boolean(true)` exactly when the value of `e` is falsy |
| `Interpreter.BangExamples` | src/interpreter.rs:17-19 | with an evaluator that returns literal leaves and a boolean `Not`, `!nil` is true and `!0` is false |
| `Interpreter.BinaryOpOf` | src/interpreter.rs:39-50 | each of the ten accepted operator types selects the operation whose operator token it is |
| `Interpreter.BinaryDispatchIsBijective` | src/interpreter.rs:39-50 | an accepted operator type selects an operation exactly when that operation's token is that type: one operation per type and one type per operation |
| `Interpreter.VisitBinaryExpr` | src/interpreter.rs:30-55 | the result is the selected operation applied to the values of `left` and `right`; comparisons and equality always yield a `Boolean`; only `Binary` nodes with the ten operators are accepted |
| `Interpreter.BinaryDependsOnlyOnOperands` | src/interpreter.rs:37-49 | two interpreters that agree on the two operand values and on the selected operation give the same result, whatever else they do |
| `Interpreter.VisitGroupingExpr` | src/interpreter.rs:6-11 | only `Grouping` nodes are accepted; the value is what the evaluator gives for the grouping node itself |
| `Interpreter.GroupingIsNotForwarded` | src/interpreter.rs:8 | for every inner expression some evaluator makes the visitor's value differ from the inner expression's value |
| `Error.Decimal` | src/error.rs:11 | the line number's text is one or more decimal digits, with a leading zero only for zero |
| `Error.ParseDecimalOfDecimal` | src/error.rs:11 | reading back the decimal text of a line number gives the number |
| `Error.AtLexeme` | src/error.rs:6 | the quoted location `" at '<lexeme>'"` is never `" at end"`, and the lexeme can be read back from it |
| `Error.Where` | src/error.rs:4-6 | the location is `" at end"` exactly for `EOF`; for any other token it is the lexeme quoted as `" at '<lexeme>'"`, and the lexeme can be read back |
| `Error.Report` | src/error.rs:10-11 | the text opens with `[line ` and the decimal line number, which reads back as the line; then comes exactly `] Error` and the location; it ends with `": "` and the message, and has exactly the length of those parts |
| `Error.ReadLineNumber` | src/error.rs:11 | a `[line ` head, a run of digits and a `]` read back as the value of those digits |
| `Error.ReportInjective` | src/error.rs:11 | for one location, the reported text determines both the line and the message |
| `Error.Error` | src/error.rs:3-8 | the diagnostic is `Report` of the token's line, its location and the message, unchanged in both branches |
| `Error.ErrorAtEndIgnoresLexeme` | src/error.rs:5 | the diagnostic for an `EOF` token does not depend on its lexeme |
| `Error.ErrorLocation` | src/error.rs:3-11 | in the diagnostic for a token, the text between the line number and `": "` and the message is `] Error` followed by `Where(token)` |
| `Error.ErrorLine` | src/error.rs:3-11 | the token's line can be read back from its diagnostic |

## Left out

- The parser (`src/parser.rs`): every grammar function is `todo!()`, its `Expr` is a placeholder and `match_tokens` depends only on the unimplemented `check`. Only the `Expr` node shapes the interpreter uses are modelled.
- `src/run.rs` and `src/main.rs`: file reading, the prompt loop, argument counting and process exit are I/O. Only the scanner call in `run` is modelled, as `Scan`.
- Printing: `report` writes to standard error. The model returns the text instead.
- `Interpreter::evaluate` is `todo!()`. It is the field `evaluate` of `Interpreter`, an arbitrary function from expressions to values; no recursive evaluator is invented.
- The `Literal` operator implementations (negation, `Not`, arithmetic, ordering, equality) are defined in no file of the system. They are the fields of `LiteralOps`, arbitrary functions; no runtime type errors, no division-by-zero or NaN behaviour, no floating-point arithmetic.
- `Interpreter.VisitUnaryExpr`: does not state that the operand is evaluated exactly once, because with a pure evaluator the number of calls is not observable; the body calls it once, as the source does.
- `Interpreter.VisitBinaryExpr`: does not state that `left` is evaluated before `right`, because `evaluate` has no effects in its signature and the model's evaluator is a pure function, so the order is not observable; the body binds `left` first, as the source does.
- The `f64` payload of `Number` is the opaque type `F64`.
- Integer widths: `start`, `current` and `line` are `usize` in the source and `nat` here. The cursor never exceeds the character count, and `line` is never changed, so no overflow is reachable.
- `Scanner.Scanner.ScanTokens` and `Scanner.Scanner.ScanToken` require `ConsumedAscii` (only ASCII before the cursor, stated as the byte length of the consumed text equalling the cursor). Every state reachable from `Default` and `Scan` satisfies it; from a hand-built state with non-ASCII text before the cursor, Rust would cut the wrong lexeme or panic (`NonAsciiPrefixMisplacesSlice`), which these two methods do not model.
- `Scanner.Scanner.ScanTokens` takes `self` by value in the source, so the scanner cannot be used afterwards; the model keeps the object and states its whole final state: cursor, `start`, tokens, and the unchanged source and line.
