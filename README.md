# A verified model of the uman interpreter core

uman is a small scripting language with Cyrillic keywords (`функция`, `истина`, `ложь`,
`если`, `иначе`, `вернуть`). A program goes through a code-point lexer, a Pratt parser
that builds an AST, and a tree-walking evaluator. The evaluator runs over a chain of
environment frames that closures capture, and it provides one builtin, `длина`.
This project models that pipeline in Dafny and proves what each stage promises.

The modules follow the repository's packages:

- `Base` (base.dfy): joining strings, decimal rendering of integers (Go's `%d`),
  `fmt.Sprintf` for `%s` formats, and the UTF-8 length of a string (Go's `len` on a
  string).
- `Tokens` (token.dfy): the token kinds, `Token`, `New` and the keyword table with
  `LookupIdent`.
- `Lexing` (lexer.dfy):
  - `Scan` and `ReadToken` give, as functions of the cursor position, what one call of
    `NextToken` yields;
  - the class `Lexer` is the cursor itself (`position`, `readPosition`, `ch`), and each
    of its methods is proved to compute those functions.
- `Ast` (ast.dfy): the AST datatypes, `TokenLiteral` and the `String` renderings.
- `ParserSpec` (parser_spec.dfy): the parser as pure functions over a parser state. The
  state is a token position plus the error list.
- `Parsing` (parser.dfy): the class `Parser` with `currToken`, `peekToken` and `errors`.
  Each method is proved equal to its `ParserSpec` function, and `ParseSource` runs the
  lexer and the parser together.
- `Objects` (objects.dfy): the runtime values, int64 arithmetic (wrap-around and division
  that truncates toward zero), `Type` and `Inspect`.
- `Environments` (environment.dfy): the environment frames as an arena.
  - The functions `Get`, `SetF`, `NewEnvironmentF` and `NewEnclosedF` give the semantics.
  - The class `Environments` holds the frames and updates them in place.
- `Builtins` (builtins.dfy): the builtin registry and `длина`.
- `EvaluatorSpec` (evaluator_spec.dfy): `Eval` and its helpers as functions from an AST
  node and an arena to an outcome and a new arena.
- `Evaluation` (evaluator.dfy): the same evaluator as methods that mutate one
  `Environments` object. Each method is proved to compute its `EvaluatorSpec` function.
- `EvaluatorProperties` (evaluator_properties.dfy): the properties of the evaluator,
  proved of the `EvaluatorSpec` functions. The methods compute those functions, so the
  properties hold of the methods as well.

The parser and the evaluator run the corrected definitions of the two findings at the
end. The definitions as written sit beside them, with lemmas that show the difference.

Some Go behaviour has no direct counterpart in Dafny, and is modelled explicitly:

- **A Go `nil` object** is `Option.None`.
- **A Go runtime panic** is an outcome `Panic(reason)`. The reasons are a nil
  dereference, division by zero and an index out of range.
- **Reference identity** of function and return-value objects is an allocation number.
  The arena's counter hands these out.
- **The evaluator's recursion** spends one unit of a `fuel` budget per `Eval` call, and
  one per round of a loop. A run that spends it all ends in `Exhausted`.

## Model

| member | source | states |
|---|---|---|
| Tokens.New | token/token.go:57-62 | the token has the given kind and its literal is exactly the one code point given |
| Tokens.KindName | token/token.go:5-41 | the text of each kind, as token.go spells the kinds it defines (the six it does not define are listed under Left out); the parser's and the evaluator's messages print kinds through it; never empty |
| Tokens.LookupIdent | token/token.go:64-69 | a word in the keyword table maps to that table's keyword kind; every other word maps to IDENT |
| Tokens.KeywordKinds | token/token.go:43-50 | функция, истина, ложь, если, иначе, вернуть map to FUNCTION, TRUE, FALSE, IF, ELSE, RETURN |
| Tokens.KeywordsInjective | token/token.go:43-50 | two different keywords never share a kind |
| Tokens.LookupIdentIsIdent | token/token.go:64-69 | LookupIdent yields IDENT exactly when the word is not a keyword |
| Lexing.IsLetter | lexer/lexer.go:136-138 | a Cyrillic or Latin letter, on the Basic Multilingual Plane ranges listed in the model; among ASCII characters exactly a-z and A-Z, and every letter of the Russian alphabet |
| Lexing.IsDigit | lexer/lexer.go:140-142 | a decimal digit, on the ranges listed in the model; among ASCII characters exactly 0-9 |
| Lexing.IsWhitespace | lexer/lexer.go:175-179 | the four characters skipWhitespace passes over; each is at most U+0020 and none is a letter or a digit |
| Lexing.At | lexer/lexer.go:144-153 | the code point readChar puts under the cursor: the input's at that index, or 0 past the end |
| Lexing.ClassesDisjoint | lexer/lexer.go:136-142 | letters, digits and whitespace are disjoint, and none of them is an operator, a delimiter, the quote or NUL |
| Lexing.PeekByte | lexer/lexer.go:167-173 | the lookahead is a byte: the next code point reduced modulo 256, or 0 past the end |
| Lexing.SkipWs | lexer/lexer.go:175-179 | the cursor moves past exactly the maximal run of space, tab, CR and LF, and stops on a non-whitespace position |
| Lexing.LetterRunEnd | lexer/lexer.go:118-125 | the end of the maximal run of letters from the cursor |
| Lexing.DigitRunEnd | lexer/lexer.go:127-134 | the end of the maximal run of digits from the cursor |
| Lexing.StringClose | lexer/lexer.go:155-165 | the first `"` or NUL at or after the position, or the end of input; nothing before it is a quote or NUL |
| Lexing.Scan | lexer/lexer.go:23-116 | one NextToken call from a cursor position: skip whitespace, then read one token; the token and the position after it |
| Lexing.ReadToken | lexer/lexer.go:28-115 | the switch of NextToken on the code point under the cursor: two-character operators by lookahead, single-character tokens, strings, identifiers through LookupIdent, digit runs, EOF and ILLEGAL |
| Lexing.WhitespaceYieldsNothing | lexer/lexer.go:26 | whitespace before a token produces no token of its own |
| Lexing.TwoCharOperators | lexer/lexer.go:31-88 | `=`, `!`, `>` or `<` followed by `=` gives one two-character token (EQUALS, NEQ, EGT, ELT); otherwise the one-character token |
| Lexing.LookaheadTruncates | lexer/lexer.go:167-173 | a code point whose low byte is `=` (U+013D) completes `==`, because the lookahead compares only the low 8 bits |
| Lexing.StringLiterals | lexer/lexer.go:89-91 | a string token's literal is exactly the code points strictly between its opening quote and the next quote (or NUL); an unclosed string runs to the end of input |
| Lexing.IdentifiersAreMaximal | lexer/lexer.go:100-103 | a letter run is maximal, contains no digit, and is a keyword kind or IDENT via LookupIdent |
| Lexing.DigitRunsAreMaximal | lexer/lexer.go:104-107 | a digit run is maximal and yields INT_VAL with exactly that text |
| Lexing.IllegalCodePoints | lexer/lexer.go:108-113 | any other code point yields ILLEGAL carrying that code point, and the cursor advances by one |
| Lexing.EndOfInput | lexer/lexer.go:92-94 | at the end of input, or at a NUL, NextToken yields EOF with an empty literal |
| Lexing.ReadTokenProgress | lexer/lexer.go:23-116 | every call moves the cursor forward, and a call that starts inside the input stops at most one past its end |
| Lexing.TokenStream | lexer/lexer.go:23-116 | the tokens of successive NextToken calls, which always end with EOF |
| Lexing.StreamStep | lexer/lexer.go:23-116 | the stream is the first scanned token followed by the stream from where that scan left the cursor |
| Lexing.StreamScans | lexer/lexer.go:23-116 | each token of the stream is what Scan yields at the position the previous call left |
| Lexing.Lexer.constructor | lexer/lexer.go:16-21 | a lexer over the given code points, cursor at the first one |
| Lexing.Lexer.ReadChar | lexer/lexer.go:144-153 | position takes readPosition, readPosition is position + 1, and ch is the code point at position or 0 past the end |
| Lexing.Lexer.PeekRune | lexer/lexer.go:167-173 | returns the low byte of the next code point, or 0 past the end |
| Lexing.Lexer.SkipWhitespace | lexer/lexer.go:175-179 | leaves the cursor where SkipWs says |
| Lexing.Lexer.ReadIdentifier | lexer/lexer.go:118-125 | returns the maximal letter run and leaves the cursor after it |
| Lexing.Lexer.ReadDigit | lexer/lexer.go:127-134 | returns the maximal digit run and leaves the cursor after it |
| Lexing.Lexer.ReadString | lexer/lexer.go:155-165 | returns the text up to the closing quote, NUL or end, and leaves the cursor on the closing character |
| Lexing.Lexer.NextToken | lexer/lexer.go:23-116 | the token and the new cursor are exactly what Scan gives for the old cursor |
| Ast.ProgramTokenLiteral | ast/ast.go:28-33 | the first statement's token literal, or "" for an empty program |
| Ast.ExprTokenLiteral | ast/ast.go:49-51 | the literal of the token that introduced the expression, as every TokenLiteral method does (also ast/call_expression.go:16-18, ast/function_literal.go:17-19, ast/for_loop_expression.go:15-17, ast/string_literal.go:12-14, ast/boolean_literal.go:11-13); the parser's nil has "" |
| Ast.StmtTokenLiteral | ast/expression_stmt.go:17-19 | the literal of the statement's own token, as the TokenLiteral methods of ast/return_stmt.go:12-14 and ast/variable_stmt.go:13-15 also return |
| Ast.IdentifierString | ast/ast.go:52-54 | an identifier renders as its name |
| Ast.ProgramString | ast/ast.go:34-42 | the renderings of the statements, concatenated in order |
| Ast.StmtString | ast/expression_stmt.go:11-16 | an expression statement renders as its expression, and as "" when it holds none; a declaration renders as ast/ast_test.go:37 expects; the return form is assumed (see Left out) |
| Ast.BlockString | ast/block_stmt.go:17-25 | the renderings of the block's statements, concatenated in order |
| Ast.ExprString | ast/call_expression.go:20-34 | a call renders its callee, then its arguments joined by ", " in parentheses; identifiers, function literals and loops render as ast/ast.go:52-54, ast/function_literal.go:21-35 and ast/for_loop_expression.go:19-30 do |
| Ast.ParamStrings | object/function.go:24-26 | one rendering per parameter, each parameter's name, in declaration order |
| Ast.StmtStrings | ast/ast.go:37-39 | one rendering per statement, in order |
| Ast.ProgramStringAppend | ast/ast.go:34-42 | a program renders as its statements' renderings concatenated in order, with no separator |
| Ast.EmptyProgram | ast/ast.go:28-42 | an example of ProgramStringAppend and ProgramTokenLiteral: the empty program renders as "" and has token literal "" |
| Ast.BlockStringIsConcat | ast/block_stmt.go:17-25 | a block renders as the concatenation of its statements, like a program |
| Ast.BlockStringAppend | ast/block_stmt.go:17-25 | statement order is preserved and an empty block renders as "" |
| Ast.FunctionLiteralNoParams | ast/function_literal.go:21-36 | with no parameters a function literal renders as its token literal, `() ` and the body |
| Ast.FunctionLiteralParamOrder | ast/function_literal.go:24-31 | parameters render in order, separated by ", " |
| Ast.ArgStrings | ast/call_expression.go:23-28 | one rendering per argument, in order |
| Ast.CallNoArgs | ast/call_expression.go:20-34 | with no arguments a call renders as the callee followed by `()` |
| Ast.CallArgOrder | ast/call_expression.go:23-31 | arguments render in order, separated by ", ", inside parentheses after the callee |
| Ast.ForLoopRendering | ast/for_loop_expression.go:19-29 | `цикл (` + condition + `)` + body, with no space before the body and independent of the token |
| Ast.ExpressionStmtRendering | ast/expression_stmt.go:11-16 | an expression statement renders as its expression, "" when that is absent, and with no trailing `;` |
| Ast.DeclarationRendering | ast/ast_test.go:37 | the declaration in the AST test renders as `test: строка = "тест";` |
| ParserSpec.PrecedenceLadder | parser/parser.go:18-56 | LOWEST < EQUALS < LESSGREATER < SUM < PRODUCT < PREFIX < CALL, each operator kind has its level, and every other kind has LOWEST |
| ParserSpec.Precedence | parser/parser.go:29-55 | the level of each operator kind in the precedence table, LOWEST for every kind not in it |
| ParserSpec.HasPrefixRule | parser/parser.go:79-86 | the kinds with a registered prefix parse function; `-` is the only kind with both a prefix and an infix rule, and no closing delimiter, `;`, `=`, `:`, `,` or EOF starts an expression |
| ParserSpec.HasInfixRule | parser/parser.go:88-97 | the kinds with a registered infix parse function: exactly the kinds whose precedence is above LOWEST |
| ParserSpec.InfixRulesMatchPrecedences | parser/parser.go:79-97 | a kind has an infix rule exactly when its precedence is above LOWEST |
| ParserSpec.ParseInt | parser/parser.go:276 | a converted literal always lies in the int64 range |
| ParserSpec.ParseIntDecimal | parser/parser.go:276 | a decimal numeral converts to its value when that fits in int64, and fails otherwise |
| ParserSpec.ParseIntNegativeDecimal | parser/parser.go:276 | a negative decimal numeral converts down to -2^63 and fails below it |
| ParserSpec.ParseIntExamples | parser/parser.go:276 | base 0 reads a leading 0 as octal (`017` is 15, `09` fails) and `0x` as hexadecimal |
| ParserSpec.Messages | parser/parser.go:221-233 | one message per recorded error, in order |
| ParserSpec.Message | parser/parser.go:225-233 | the text recorded for each error kind: the peek error, the missing prefix rule, the bad integer literal and the missing data type |
| ParserSpec.PeekErrorText | parser/parser.go:225-229 | an example of Message: the text "expected next token to be ), got EOF instead" |
| ParserSpec.NoPrefixText | parser/parser.go:324-327 | an example of Message: the text "no prefix parse function for ; found" |
| ParserSpec.NotAnIntegerText | parser/parser.go:278-280 | an example of Message: the text `could not parse "09" as integer` |
| ParserSpec.Curr | parser/parser.go:199-201 | the current token: the one at the position, or EOF once the stream is used up |
| ParserSpec.Peek | parser/parser.go:203-205 | the peek token: the one after the current one, or EOF once the stream is used up |
| ParserSpec.NextTokenF | parser/parser.go:194-197 | the peek token becomes the current one, the position moves by one and no error is recorded |
| ParserSpec.ExpectPeekF | parser/parser.go:207-215 | the error list only grows and the position never goes back |
| ParserSpec.ExpectPeekBehaviour | parser/parser.go:207-215 | on a match it advances exactly one token and adds nothing; otherwise it stays and appends the peek error |
| ParserSpec.ParseExpressionF | parser/parser.go:249-265 | the error list only grows and the position never goes back |
| ParserSpec.ParsePrefixF | parser/parser.go:267-347 | the error list only grows and the position never goes back |
| ParserSpec.IdentifierPrefix | parser/parser.go:267-269 | an identifier parses to an Identifier whose TokenLiteral and String are both the token's text, so the assignment target evaluator/evaluator.go:56 takes by TokenLiteral is the name the identifier renders as |
| ParserSpec.ParsePrefixExpressionF | parser/parser.go:297-308 | the error list only grows and the position never goes back |
| ParserSpec.InfixLoopF | parser/parser.go:256-264 | the error list only grows and the position never goes back |
| ParserSpec.ParseInfixF | parser/parser.go:310-322 | the error list only grows and the position never goes back |
| ParserSpec.InfixLoopStep | parser/parser.go:256-264 | one fold of the infix loop leaves the rest of the loop's result unchanged and strictly shrinks the remaining input |
| ParserSpec.ParseVariableStatementF | parser/parser.go:139-177 | the error list only grows and the position never goes back |
| ParserSpec.DeclarationValueF | parser/parser.go:162-177 | the error list only grows and the position never goes back |
| ParserSpec.SkipUnlessSemicolon | parser/parser.go:171-173 | stays on a `;`, otherwise advances exactly one token; never adds an error |
| ParserSpec.ParseReturnStatementF | parser/parser.go:179-192 | the error list only grows and the position never goes back |
| ParserSpec.ParseExpressionStatementF | parser/parser.go:235-247 | the error list only grows and the position never goes back |
| ParserSpec.ParseStatementF | parser/parser.go:128-137 | only a declaration can yield no statement; errors only grow |
| ParserSpec.StatementTokenLiteral | parser/parser.go:128-137 | a parsed statement's TokenLiteral is the literal of the token parseStatement was called on (the statements take p.currToken at parser/parser.go:141, 181 and 237) |
| ParserSpec.ParseProgramFrom | parser/parser.go:113-126 | parsing runs to EOF and errors only grow (the corrected loop, see Findings) |
| ParserSpec.ParseRoundF | parser/parser.go:117-123 | one round from a non-EOF token leads to EOF with errors only growing |
| ParserSpec.ParseRoundStep | parser/parser.go:117-123 | one round appends the parsed statement, if any, and leaves the rest of the program and the final state unchanged, with strictly less input left |
| ParserSpec.ParseProgramAsWrittenFrom | parser/parser.go:113-126 | the loop as written, keeping failed declarations as nil; errors only grow |
| ParserSpec.NoPrefixRule | parser/parser.go:249-254 | a token with no prefix rule yields no expression, does not move, and appends "no prefix parse function" |
| ParserSpec.InfixLoopStops | parser/parser.go:256-264 | folding stops exactly at a `;` or at a peek precedence not above the current one |
| ParserSpec.ParseExpressionStops | parser/parser.go:249-265 | after an expression the peek token is `;` or binds no tighter than the given precedence |
| ParserSpec.PrefixOperand | parser/parser.go:297-308 | `-` and `!` parse their operand at PREFIX precedence |
| ParserSpec.InfixOperand | parser/parser.go:310-322 | an infix operator parses its right operand at its own precedence |
| ParserSpec.GroupedNeedsRParen | parser/parser.go:337-347 | a grouped expression is its inner expression when `)` follows, else nothing plus the peek error |
| ParserSpec.BadIntegerLiteral | parser/parser.go:271-286 | a literal ParseInt rejects yields no node and appends `could not parse ... as integer` |
| ParserSpec.DeclarationNeedsType | parser/parser.go:155-157 | after `:` a type other than STRING or INT appends "missing data type" and yields no node |
| ParserSpec.DeclarationNeedsColon | parser/parser.go:151-153 | a declaration without `:` appends the peek error and yields no node |
| ParserSpec.ParseProgramShape | parser/parser.go:113-126 | parsing ends at EOF, errors only grow, and there are no more statements than tokens |
| ParserSpec.ParseTokens | parser/parser.go:113-126 | the program ParseProgram builds from a whole token stream, with the error list Errors returns |
| ParserSpec.ParseProgramOrder | parser/parser.go:117-123 | statements are kept in source order |
| ParserSpec.AsWrittenKeepsNils | parser/parser.go:117-123 | the corrected program is the as-written one with the nil entries dropped, and both end in the same state |
| ParserSpec.FailedDeclarationKeptAsNil | parser/parser.go:119 | a failed declaration leaves a nil entry in the as-written program but none in the corrected one |
| ParserSpec.LeafOperand | parser/parser.go:249-265 | an identifier followed by a weaker operator parses as that identifier alone |
| ParserSpec.ProductBindsTighter | parser/parser.go:18-56 | `a + b * c` parses as `(a + (b * c))` |
| ParserSpec.SameLevelGroupsLeft | parser/parser.go:256-264 | `a - b - c` parses as `((a - b) - c)` |
| ParserSpec.PrefixBindsTightest | parser/parser.go:297-308 | `-a * b` parses as `((-a) * b)` |
| Parsing.Parser.constructor | parser/parser.go:69-100 | a parser over the lexer's token stream, at its start with no errors |
| Parsing.Parser.NextToken | parser/parser.go:194-197 | currToken takes peekToken and peekToken the next token from the lexer; errors unchanged |
| Parsing.Parser.AddError | parser/parser.go:231-233 | appends the error and changes nothing else |
| Parsing.Parser.Errors | parser/parser.go:221-223 | one message per recorded error, in the order recorded |
| Parsing.Parser.ExpectPeek | parser/parser.go:207-215 | computes ExpectPeekF |
| Parsing.Parser.ParseExpression | parser/parser.go:249-265 | computes ParseExpressionF |
| Parsing.Parser.InfixLoop | parser/parser.go:256-264 | computes InfixLoopF |
| Parsing.Parser.ParsePrefix | parser/parser.go:79-97 | computes ParsePrefixF by dispatching on the registered prefix rules |
| Parsing.Parser.ParseIntegerLiteral | parser/parser.go:271-286 | computes ParsePrefixF on an INT_VAL token |
| Parsing.Parser.ParsePrefixExpression | parser/parser.go:297-308 | computes ParsePrefixExpressionF |
| Parsing.Parser.ParseInfix | parser/parser.go:310-322 | computes ParseInfixF |
| Parsing.Parser.ParseGroupedExpression | parser/parser.go:337-347 | computes ParsePrefixF on `(` |
| Parsing.Parser.ParseVariableStatement | parser/parser.go:139-160 | computes ParseVariableStatementF |
| Parsing.Parser.ParseDeclarationValue | parser/parser.go:162-177 | computes DeclarationValueF |
| Parsing.Parser.SkipUnlessSemicolon | parser/parser.go:171-173 | computes SkipUnlessSemicolon |
| Parsing.Parser.ParseReturnStatement | parser/parser.go:179-192 | computes ParseReturnStatementF |
| Parsing.Parser.ParseExpressionStatement | parser/parser.go:235-247 | computes ParseExpressionStatementF |
| Parsing.Parser.ParseStatement | parser/parser.go:128-137 | computes ParseStatementF |
| Parsing.Parser.ParseProgram | parser/parser.go:113-126 | returns the statements of ParseProgramFrom and ends in its state |
| Parsing.Parser.ParseRound | parser/parser.go:117-123 | one loop round keeps ParseProgramFrom's result as its invariant and shrinks the remaining input |
| Parsing.ParseSource | parser/parser.go:69-126 | the program and error messages are those of parsing the source's whole token stream |
| Base.Sprintf | evaluator/evaluator.go:24-26 | fmt.Sprintf for formats whose verbs are `%s`: each verb takes the next argument, in order, and a verb with none left renders as `%!s(MISSING)` |
| Base.DecimalRoundTrip | evaluator/builtins.go:9 | the decimal rendering used for `%d` reads back as the same number |
| Base.IntToDecimal | evaluator/builtins.go:9 | the rendering is non-empty and starts with `-` exactly for negatives |
| Base.Utf8Length | evaluator/builtins.go:14 | Go's len on a string, its UTF-8 byte count; at least the code-point count and at most four times it |
| Base.Utf8LengthBounds | evaluator/builtins.go:14 | the UTF-8 length lies between the code-point count and four times it, and equals it exactly for ASCII text |
| Objects.Wrap | evaluator/evaluator.go:262-269 | the int64 result is congruent to the exact one modulo 2^64, and equal to it when it fits |
| Objects.TruncDivRemainder | evaluator/evaluator.go:266-267 | Go's division leaves a remainder smaller than the divisor, with the dividend's sign |
| Objects.TruncDiv | evaluator/evaluator.go:266-267 | Go's integer division, which truncates toward zero |
| Objects.TruncDivExamples | evaluator/evaluator.go:266-267 | -7 / 2 is -3 in Go, not Euclidean -4, and likewise for the other sign pairs |
| Objects.MinInt64DivMinusOne | evaluator/evaluator.go:266-267 | MinInt64 / -1 wraps back to MinInt64 |
| Objects.NativeBool | evaluator/evaluator.go:320-325 | the shared Boolean object of the given truth value |
| Objects.TypeNameIdentifiesVariant | evaluator/evaluator.go:239-240 | two values have the same Type exactly when they are the same kind of object |
| Objects.TypeName | object/object.go:5-13 | the ObjectType tag each kind of object reports |
| Objects.SameObject | evaluator/evaluator.go:236-238 | Go's `==` on two objects: the same object; objects with different type tags are never the same |
| Objects.DistinctAllocations | evaluator/evaluator.go:235-238 | two function objects from different allocations are never `==`, even with equal fields |
| Objects.InspectAll | object/array.go:16-19 | one rendering per element, in stored order |
| Objects.Inspect | object/function.go:20-36 | the text each kind of object renders as: closures, arrays, booleans, null, builtins and wrapped return values as their files do |
| Objects.ArrayInspectEmpty | object/array.go:16-23 | an empty array renders as `[]` |
| Objects.ArrayInspectOrder | object/array.go:17-23 | elements render in stored order, separated by ", " |
| Objects.InspectArray | object/array.go:13-26 | an array renders as `[` + the elements' renderings joined by ", " + `]` |
| Objects.ArrayInspectSingle | object/array.go:13-26 | a one-element array renders as `[` + that element + `]` |
| Objects.ClosureInspectNoParams | object/function.go:20-36 | with no parameters the rendering starts `функция() {` |
| Objects.ClosureInspectParamOrder | object/function.go:24-31 | parameters render in declaration order, separated by ", ", then the body between braces |
| Objects.ClosureInspectIgnoresEnv | object/function.go:20-36 | the rendering does not depend on the captured environment or the allocation |
| Objects.ReturnValueInspect | object/return.go:11-13 | a wrapped value renders as the value itself |
| Objects.BooleanInspect | object/boolean.go:9-14 | TRUE renders as истина and FALSE as ложь |
| Environments.OnChain | object/environment.go:27-33 | every frame on a chain is at or before the frame the chain starts from |
| Environments.GetIsInnermost | object/environment.go:27-33 | Get reports not-found exactly when no frame on the chain holds the name, and otherwise returns the binding of the innermost frame that holds it |
| Environments.Get | object/environment.go:27-33 | the binding of a name: the frame's own store, then its outer frame, and not found at the end of the chain |
| Environments.Shadowing | object/environment.go:28-29 | a name bound in a frame shadows every outer binding |
| Environments.GetDelegates | object/environment.go:29-32 | an absent name is looked up in the outer frame, and is not found when there is none |
| Environments.NewEnvironmentEmpty | object/environment.go:8-14 | a new environment binds nothing, has no outer frame, and leaves existing frames alone |
| Environments.NewEnclosedDelegates | object/environment.go:16-20 | a new enclosed environment binds nothing itself, so every name resolves as in its outer frame |
| Environments.AppendKeepsGet | object/environment.go:16-20 | adding a frame changes no lookup from an existing frame |
| Environments.SetThenGet | object/environment.go:22-25 | after Set, Get of that name in that frame returns the value set |
| Environments.SetKeepsOtherNames | object/environment.go:22-25 | Set changes no lookup of any other name from any frame |
| Environments.SetKeepsOtherChains | object/environment.go:22-25 | Set changes no lookup from a frame whose chain does not pass through the frame written |
| Environments.SetKeepsOlderFrames | object/environment.go:22-25 | Set leaves outer frames unchanged: no lookup from an older frame changes |
| Environments.NewEnvironmentOk | object/environment.go:8-14 | the arena stays well formed |
| Environments.NewEnvironmentF | object/environment.go:8-14 | a new frame with an empty store and no outer frame |
| Environments.NewEnclosedF | object/environment.go:16-20 | a new frame with an empty store whose outer frame is the given one |
| Environments.SetF | object/environment.go:22-25 | the name bound to the object in the given frame's own store, every other frame as it was |
| Environments.NewEnclosedOk | object/environment.go:16-20 | the arena stays well formed |
| Environments.SetOk | object/environment.go:22-25 | the arena stays well formed |
| Environments.Environments.constructor | object/environment.go:8-14 | an empty arena |
| Environments.Environments.NewEnvironment | object/environment.go:8-14 | the new frame and arena are NewEnvironmentF of the old arena |
| Environments.Environments.NewEnclosedEnvironment | object/environment.go:16-20 | the new frame and arena are NewEnclosedF of the old arena |
| Environments.Environments.Set | object/environment.go:22-25 | returns the object it stores, and the arena becomes SetF of the old arena |
| Environments.Environments.Lookup | object/environment.go:27-33 | env.Get on the arena's frames, so GetIsInnermost describes its answer |
| Environments.Environments.Allocate | evaluator/evaluator.go:88-95 | hands out the next allocation number and changes no frame |
| Builtins.LookupBuiltin | evaluator/builtins.go:5-6 | the registry holds exactly one builtin, `длина` |
| Builtins.CallBuiltin | evaluator/builtins.go:7-18 | calling the registered function on the argument objects |
| Builtins.StringLength | evaluator/builtins.go:8-17 | the count error, the type error, or the length of one String counted in characters (the corrected half of the second finding) |
| Builtins.StringLengthAsWritten | evaluator/builtins.go:8-17 | the same, with the length counted in UTF-8 bytes as `len` does |
| Builtins.StringLengthTotalOnObjects | evaluator/builtins.go:7-18 | `длина` panics only on a single nil argument; otherwise it returns an object |
| Builtins.StringLengthErrors | evaluator/builtins.go:8-16 | a wrong argument count or a non-String argument gives an Error value; one String gives an Integer |
| Builtins.StringLengthCounts | evaluator/builtins.go:13-14 | the length of a String is its number of characters, one more per character added |
| Builtins.StringLengthExamples | evaluator/builtins.go:8-16 | `""` is 0, `"four"` is 4, `"йй"` is 2, an Integer gives "не подходящий тип данных INTEGER", two arguments give "неверное количество аргументов 2, должен быть 1" |
| Builtins.StringLengthAsWrittenCountsBytes | evaluator/builtins.go:14 | as written, `длина("йй")` is 4, the UTF-8 byte count |
| Builtins.StringLengthAgreesOnAscii | evaluator/builtins.go:14 | on ASCII text the byte count and the character count agree |
| EvaluatorSpec.KeepsTrans | evaluator/evaluator.go:35-118 | the arena invariant composes over successive evaluation steps |
| EvaluatorSpec.IsError | evaluator/evaluator.go:28-33 | an object whose type tag is ERROR; nil is not an error |
| EvaluatorSpec.UnknownInfixMessage | evaluator/evaluator.go:242 | the unknown-operator text for two operands; UnknownInfixFormatted states its format |
| EvaluatorSpec.TypeMismatchMessage | evaluator/evaluator.go:240 | the type-mismatch text; TypeMismatchFormatted states its format |
| EvaluatorSpec.UnknownPrefixMessage | evaluator/evaluator.go:294 | the unknown-operator text for a prefix operator; UnknownPrefixFormatted and UnknownMinusFormatted state its formats |
| EvaluatorSpec.ConditionTypeMessage | evaluator/evaluator.go:204 | the non-boolean-condition text; ConditionTypeFormatted states its format |
| EvaluatorSpec.BadInitMessage | evaluator/evaluator.go:78 | the bad-initialisation text; BadInitFormatted states its format |
| EvaluatorSpec.RedeclaredMessage | evaluator/evaluator.go:82 | the redeclaration text; RedeclaredFormatted states its format |
| EvaluatorSpec.NotCallableMessage | evaluator/evaluator.go:137 | the not-a-function text; NotCallableFormatted states its format |
| EvaluatorSpec.UnboundMessage | evaluator/evaluator.go:180 | the unbound-name text; UnboundFormatted states its format |
| EvaluatorSpec.UnknownInfixFormatted | evaluator/evaluator.go:242 | the message is fmt.Sprintf of "неизвестный оператор: %s %s %s" with the left type, the operator and the right type (the same format as lines 248 and 283) |
| EvaluatorSpec.TypeMismatchFormatted | evaluator/evaluator.go:240 | the message is fmt.Sprintf of "разные типы: %s %s %s" with the left type, the operator and the right type |
| EvaluatorSpec.UnknownPrefixFormatted | evaluator/evaluator.go:294 | the message is fmt.Sprintf of "неизвестный оператор: %s%s" with the operator and the operand's type |
| EvaluatorSpec.UnknownMinusFormatted | evaluator/evaluator.go:313 | with "-" as the operator, the message is fmt.Sprintf of "неизвестный оператор: -%s" with the operand's type |
| EvaluatorSpec.ConditionTypeFormatted | evaluator/evaluator.go:204 | the message is fmt.Sprintf of "условие должно быть булевого типа, получено %s" with the condition's type |
| EvaluatorSpec.BadInitFormatted | evaluator/evaluator.go:78 | the message is fmt.Sprintf of "неверная инициализация типа данных %s %s" with the declared kind's text and the value's type |
| EvaluatorSpec.RedeclaredFormatted | evaluator/evaluator.go:82 | the message is fmt.Sprintf of "переменная %s уже существует = %s" with the name and the bound object's Inspect |
| EvaluatorSpec.NotCallableFormatted | evaluator/evaluator.go:137 | the message is fmt.Sprintf of "нет функции %s" with the callee's type |
| EvaluatorSpec.UnboundFormatted | evaluator/evaluator.go:180 | the message is fmt.Sprintf of "нет переменной: %s" with the name |
| EvaluatorSpec.EvalIdentifierF | evaluator/evaluator.go:171-181 | the environment binding, then the builtin, then the not-found error |
| EvaluatorSpec.IsTrue | evaluator/evaluator.go:214-225 | only the shared TRUE object counts as true |
| EvaluatorSpec.EvalInfixValues | evaluator/evaluator.go:227-244 | the case order of evalInfixExpression once both operands are objects |
| EvaluatorSpec.EvalStringInfix | evaluator/evaluator.go:246-255 | `+` concatenates, every other operator is unknown |
| EvaluatorSpec.EvalIntegerInfix | evaluator/evaluator.go:257-285 | int64 arithmetic, truncating division with its zero-divisor panic, and the six comparisons |
| EvaluatorSpec.EvalPrefix | evaluator/evaluator.go:287-296 | `!` and `-` dispatch, and the unknown-operator error for the rest |
| EvaluatorSpec.EvalBang | evaluator/evaluator.go:298-309 | FALSE for TRUE, TRUE for FALSE and NULL, FALSE for everything else |
| EvaluatorSpec.EvalMinus | evaluator/evaluator.go:311-318 | int64 negation, and the unknown-operator error for anything not an Integer |
| EvaluatorSpec.DataTypeTag | evaluator/evaluator.go:17-22 | the table of declarable types: defined exactly for INT, STRING, BOOL and FUNCTION, whose tags are carried exactly by integers, strings, booleans and functions respectively |
| EvaluatorSpec.CheckDataType | evaluator/evaluator.go:120-126 | the declared type must be in the table of evaluator/evaluator.go:17-22 (INT, STRING, BOOL, FUNCTION) and the object must carry that table's tag |
| EvaluatorSpec.UnwrapReturnValue | evaluator/evaluator.go:150-155 | a return signal gives its wrapped object, anything else is kept |
| EvaluatorSpec.RunF | evaluator/evaluator.go:327-342 | a program evaluated in a fresh top-level environment |
| EvaluatorSpec.DeclareF | evaluator/evaluator.go:80-85 | the arena stays well formed, and frames and allocation numbers never shrink |
| EvaluatorSpec.ExtendF | evaluator/evaluator.go:144-146 | binding parameters keeps the arena well formed and writes no frame other than the new one |
| EvaluatorSpec.ExtendEnvF | evaluator/evaluator.go:141-149 | the new frame is appended after all existing ones, and the arena stays well formed |
| EvaluatorSpec.EvalExprF | evaluator/evaluator.go:35-118 | Eval on an expression keeps the arena well formed; frames and allocation numbers never shrink; the result refers only to existing frames |
| EvaluatorSpec.EvalPrefixF | evaluator/evaluator.go:41-46 | the same arena invariant for a prefix expression |
| EvaluatorSpec.EvalInfixF | evaluator/evaluator.go:47-56 | the same arena invariant for an infix expression and assignment |
| EvaluatorSpec.EvalIfF | evaluator/evaluator.go:183-195 | the same arena invariant for `если` |
| EvaluatorSpec.EvalForF | evaluator/evaluator.go:197-212 | the same arena invariant for `цикл` |
| EvaluatorSpec.ForRoundsF | evaluator/evaluator.go:206-211 | the same arena invariant over any number of loop rounds |
| EvaluatorSpec.EvalCallF | evaluator/evaluator.go:96-105 | the same arena invariant for a call |
| EvaluatorSpec.EvalArgsF | evaluator/evaluator.go:157-169 | the same arena invariant, and every collected object refers to existing frames |
| EvaluatorSpec.ApplyF | evaluator/evaluator.go:128-139 | the same arena invariant for applying a function |
| EvaluatorSpec.EvalStmtF | evaluator/evaluator.go:35-118 | the same arena invariant for a statement |
| EvaluatorSpec.EvalReturnF | evaluator/evaluator.go:65-70 | the same arena invariant for `вернуть` |
| EvaluatorSpec.EvalDeclarationF | evaluator/evaluator.go:71-85 | the same arena invariant for a declaration |
| EvaluatorSpec.InitializeF | evaluator/evaluator.go:77-85 | the same arena invariant for binding a checked initializer |
| EvaluatorSpec.EvalBlockF | evaluator/evaluator.go:344-359 | the same arena invariant for a block |
| EvaluatorSpec.BlockLoopF | evaluator/evaluator.go:347-356 | the same arena invariant over the rest of a block |
| EvaluatorSpec.EvalProgramF | evaluator/evaluator.go:327-342 | the same arena invariant for a program |
| EvaluatorSpec.ProgramLoopF | evaluator/evaluator.go:330-339 | the same arena invariant over the rest of a program |
| Evaluation.Eval | evaluator/evaluator.go:35-118 | the outcome and the new environments are EvalExprF of the old ones |
| Evaluation.EvalPrefixExpression | evaluator/evaluator.go:41-46 | computes EvalPrefixF |
| Evaluation.EvalInfixExpression | evaluator/evaluator.go:47-56 | computes EvalInfixF, writing assignments through Environments.Set |
| Evaluation.EvalIfExpression | evaluator/evaluator.go:183-195 | computes EvalIfF |
| Evaluation.EvalForLoopExpression | evaluator/evaluator.go:197-212 | computes EvalForF |
| Evaluation.ForRounds | evaluator/evaluator.go:206-211 | its loop keeps ForRoundsF of the current state equal to that of the initial state |
| Evaluation.EvalCall | evaluator/evaluator.go:96-105 | computes EvalCallF |
| Evaluation.EvalExpressions | evaluator/evaluator.go:157-169 | computes EvalArgsF from the first argument with nothing collected |
| Evaluation.ApplyFunction | evaluator/evaluator.go:128-139 | computes ApplyF |
| Evaluation.ExtendFunctionEnv | evaluator/evaluator.go:141-149 | the new frame, the argument check and the arena are ExtendEnvF |
| Evaluation.EvalStatement | evaluator/evaluator.go:35-118 | computes EvalStmtF |
| Evaluation.EvalReturn | evaluator/evaluator.go:65-70 | computes EvalReturnF |
| Evaluation.EvalDeclaration | evaluator/evaluator.go:71-85 | computes EvalDeclarationF |
| Evaluation.Initialize | evaluator/evaluator.go:77-85 | computes InitializeF |
| Evaluation.Declare | evaluator/evaluator.go:80-85 | computes DeclareF |
| Evaluation.EvalBlockStatement | evaluator/evaluator.go:344-359 | computes EvalBlockF |
| Evaluation.EvalProgram | evaluator/evaluator.go:327-342 | computes EvalProgramF |
| Evaluation.Interpret | evaluator/evaluator.go:327-342 | a fresh top-level environment, then the program: the outcome is RunF's |
| EvaluatorProperties.IntegerArithmetic | evaluator/evaluator.go:262-269 | `+ - *` on two Integers give the int64 result: exact when it fits, otherwise congruent to it modulo 2^64 |
| EvaluatorProperties.IntegerDivision | evaluator/evaluator.go:266-267 | `/` panics exactly on a zero divisor, otherwise truncates toward zero, and MinInt64 / -1 wraps to MinInt64 |
| EvaluatorProperties.IntegerComparisons | evaluator/evaluator.go:270-281 | the six comparisons yield a shared Boolean and agree: `>` swaps `<`, `>=` and `<=` negate, `!=` negates `==`, exactly one of `<`, `==`, `>` |
| EvaluatorProperties.UnknownIntegerOperator | evaluator/evaluator.go:282-283 | any other operator on Integers gives "неизвестный оператор: INTEGER op INTEGER" |
| EvaluatorProperties.StringOperators | evaluator/evaluator.go:246-255 | `+` concatenates two Strings, the left one first; any other operator gives "неизвестный оператор: STRING op STRING" |
| EvaluatorProperties.EqualityIsIdentity | evaluator/evaluator.go:235-238 | `==` and `!=` on other operands compare object identity |
| EvaluatorProperties.OtherOperandErrors | evaluator/evaluator.go:239-242 | otherwise differing types give "разные типы: L op R", and equal types give "неизвестный оператор: L op R" |
| EvaluatorProperties.InfixPanics | evaluator/evaluator.go:227-244 | an infix expression panics exactly on a nil left operand, on a nil right operand where its Type is needed, or on division by zero |
| EvaluatorProperties.InfixErrorExamples | evaluator/evaluator_test.go:234-244 | the messages for `5 + истина`, `истина + ложь`, `"Hello" - "World"` and `-истина` |
| EvaluatorProperties.BangTable | evaluator/evaluator.go:298-309 | `!` maps FALSE and NULL to TRUE and every other object to FALSE, so `!!1` is TRUE although 1 is not true |
| EvaluatorProperties.MinusInvolution | evaluator/evaluator.go:316-317 | `-` on an Integer yields an Integer, and negating twice gives back the original, MinInt64 included |
| EvaluatorProperties.MinusNonInteger | evaluator/evaluator.go:312-313 | `-` on anything but an Integer gives "неизвестный оператор: -T" |
| EvaluatorProperties.DataTypes | evaluator/evaluator.go:17-22 | a declaration's type accepts exactly INT/Integer, STRING/String, BOOL/Boolean and FUNCTION/function |
| EvaluatorProperties.DeclarationOrder | evaluator/evaluator.go:77-85 | the type check comes first; then a name found anywhere on the chain is refused without change; otherwise the name is bound in the current frame, the result is nil, and no other lookup changes |
| EvaluatorProperties.RedeclarationMessage | evaluator/evaluator.go:80-82 | a redeclaration gives "переменная x уже существует = " followed by the old value's rendering |
| EvaluatorProperties.IdentifierResolution | evaluator/evaluator.go:171-181 | an identifier resolves to its innermost binding, else to the builtin of that name, else to "нет переменной: x" |
| EvaluatorProperties.AssignToUnbound | evaluator/evaluator.go:48-51 | assigning to an unbound name gives "нет переменной: x", before the right side is evaluated |
| EvaluatorProperties.AssignBindsCurrentFrame | evaluator/evaluator.go:229-230 | assignment binds the name in the current innermost frame, returns the value, and leaves outer frames unchanged |
| EvaluatorProperties.ParametersBound | evaluator/evaluator.go:141-149 | arguments suffice exactly when there are at least as many as parameters; each parameter is bound to its positional argument, with the last repeat winning; every other name resolves as in the captured frame |
| EvaluatorProperties.ExtendStore | evaluator/evaluator.go:144-146 | the parameter loop writes only the new frame: it binds the parameters and keeps every other entry |
| EvaluatorProperties.UnwrapOnce | evaluator/evaluator.go:150-155 | unwrapReturnValue removes exactly one return wrapper and changes nothing else |
| EvaluatorProperties.PrefixOperandFirst | evaluator/evaluator.go:41-46 | an operand that yields an Error, panics or runs out of fuel is the whole result; otherwise the operator is applied to its object |
| EvaluatorProperties.InfixOperandsFirst | evaluator/evaluator.go:47-56 | the left operand's Error is the result and the right operand is never evaluated; then the right operand's Error is the result |
| EvaluatorProperties.ReturnWrapsValue | evaluator/evaluator.go:65-70 | the value's Error is passed on unwrapped; any other object is wrapped once in a newly allocated return signal |
| EvaluatorProperties.InitializerFirst | evaluator/evaluator.go:71-75 | an initializer's Error is the result and nothing is bound; otherwise the type check and the declaration follow |
| EvaluatorProperties.ArgumentErrorFirst | evaluator/evaluator.go:160-164 | the first argument that yields an Error makes the list exactly that Error, dropping what was collected and evaluating no later argument |
| EvaluatorProperties.ArgumentsCollected | evaluator/evaluator.go:157-169 | the list is one Error alone, or one non-Error object per argument, in order, after those already collected |
| EvaluatorProperties.CallShortCircuits | evaluator/evaluator.go:96-105 | a callee Error is the result; then an argument list that is one Error, or a panic among the arguments, is the result and the function is not applied |
| EvaluatorProperties.IfSelectsBranch | evaluator/evaluator.go:183-195 | only the TRUE object selects the consequence; any other non-error object takes the alternative, or yields NULL without one; an error condition is passed on |
| EvaluatorProperties.ForRoundsYieldNull | evaluator/evaluator.go:206-211 | loop rounds that end normally yield NULL whatever the body yields, errors included |
| EvaluatorProperties.ForLoopOutcome | evaluator/evaluator.go:197-212 | a loop yields NULL or its condition's Error, and a first condition that is not Boolean gives the condition-type Error |
| EvaluatorProperties.ProgramIsUnwrappedBlock | evaluator/evaluator.go:327-359 | a program runs like a block and stops at the same place, except that it unwraps the return value a block passes up |
| EvaluatorProperties.BlockSequencing | evaluator/evaluator.go:344-359 | a block of `a + b` runs `a`, and goes on with `b` unless `a` stopped at a return, an Error, a panic or an exhausted budget |
| EvaluatorProperties.BlockSuffix | evaluator/evaluator.go:347-356 | the rest of a block is the loop over the statements still to run |
| EvaluatorProperties.ReturnEndsProgram | evaluator/evaluator_test.go:190-215 | `вернуть 10; 9;` yields 10 |
| EvaluatorProperties.IntegerConditionIsNotTrue | evaluator/evaluator.go:214-225 | `если (1) { 10 }` yields NULL, because only TRUE is true |
| EvaluatorProperties.CallBindsArgument | evaluator/evaluator.go:128-149 | calling `функция(x) { x; }` with 5 yields 5 |
| EvaluatorProperties.MissingArgumentPanics | evaluator/evaluator.go:145 | calling it with no argument indexes past the end of the argument list |

## Left out

- Unicode tables: `isLetter` and `isDigit` are modelled on the Latin, Cyrillic and
  decimal-digit ranges of the Basic Multilingual Plane that lexer.dfy lists, not on Go's
  full tables.
- The source files come from different revisions and do not compile together.
  - The model uses one token enumeration with every kind the lexer and parser use.
  - `VariableStatement` gets the `DataType` field that parser/parser.go:162 uses.
  - object/object.go defines no `BuiltinObj` or `ArrayObj`, although object/builtin.go:8
    and object/array.go:12 use them. The model tags these objects "BUILTIN" and "ARRAY",
    following the names of the other tags.
  - token/token.go defines no constant for six kinds the source uses: LET
    (parser/parser.go:130), BOOL (evaluator/evaluator.go:20), STRING_VAL and INT_VAL
    (parser/parser.go:80-81), LBRACKET and RBRACKET (lexer/lexer.go:96-98). Their text
    "LET", "BOOL", "STRING_VAL", "INT_VAL", "[" and "]" is assumed. It reaches the parser's
    messages, for example `no prefix parse function for [ found`.
  - The lexer never produces LET, STRING or INT, because the keyword table does not hold
    them, so source text never reaches the declaration parser. The parser is modelled
    on token sequences, where these kinds can occur.
- The parser tests cover `если`, `функция`, call, index and loop syntax, but the parser
  has no rules for them, so there is no parsing code to model.
  - The evaluator still handles these nodes.
  - Array literals and index expressions have no evaluation code, so no array value is
    ever created. Only their rendering is modelled.
- The `String` methods of the prefix, infix and `если` nodes and of the integer literal are
  not part of this model, and ast/return_stmt.go and ast/variable_stmt.go define none.
  - The repository's tests fix two of these renderings: the declaration, by
    ast/ast_test.go:37, and the infix form, by evaluator/evaluator_test.go:324-330.
  - Three renderings are assumed, with no source text behind them: the prefix form
    `(` operator operand `)`, the `если` form, and the return form
    `вернуть value;`.
  - object/ holds no integer, string or error object file. Three object renderings are
    assumed: an integer renders as its decimal text, a string as its text and an error
    as its message. They reach the redeclaration message of evaluator/evaluator.go:82,
    which prints the old value's `Inspect()`.
  - The integer literal renders as its token's text, as the string and boolean literals
    do in ast/string_literal.go:16-18 and ast/boolean_literal.go:14-16.
- `strconv.ParseInt` with base 0 is modelled for signs, the `0`/`0x`/`0o`/`0b` prefixes
  and digits. Underscore separators are not modelled; the lexer never puts them in an
  integer token.
- Go's `%q` in the integer error message is rendered as plain double quotes. This is
  exact for the digit runs the lexer produces.
- `log.Println` in parser/parser.go:175 is a side effect with no effect on the result,
  and is not modelled.
- Non-termination is not modelled. A fuel budget bounds every run, and a run that uses it
  all ends in `Exhausted`; Go would keep running or overflow its stack.
- Go panics are not modelled as process crashes: they are the outcome `Panic`.
  - Division by zero is one.
  - Too few call arguments is another: evaluator/evaluator.go:145 indexes past the end.
  - A nil object used where its `Type` or `Inspect` is needed is a third. The `default`
    and declaration cases of `Eval` yield nil.
- Frames live in an arena and are addressed by index, and closures capture an index. The
  Go code uses pointers. Frames are only ever added, so the two agree.
- Integer literals are wrapped to int64 when evaluated. On parser output this changes
  nothing, because ParseInt already refused anything out of range.
- The REPL, `main.go` and `cmd/main.go` (reading input, printing, exiting) are I/O and are
  not part of this model.
- EvaluatorSpec.EvalExprF and the other evaluator functions in EvaluatorSpec: their own
  contracts state only the arena invariant. What they compute is their definition, and
  the EvaluatorProperties lemmas state its properties.
- EvalPrefixF: its contract states only the arena invariant; EvaluatorProperties.PrefixOperandFirst
  states that the operand's Error, panic or exhaustion is the result.
- EvalInfixF: its contract states only the arena invariant; EvaluatorProperties.InfixOperandsFirst
  states that the left operand's Error comes before the right operand is evaluated, then the
  right operand's.
- EvalCallF: its contract states only the arena invariant; EvaluatorProperties.CallShortCircuits
  states that an Error from the callee or the arguments is returned without applying the function.
- EvalArgsF: its contract states only the arena invariant; EvaluatorProperties.ArgumentErrorFirst
  and EvaluatorProperties.ArgumentsCollected state that the first Error becomes the whole list.
- EvalReturnF: its contract states only the arena invariant; EvaluatorProperties.ReturnWrapsValue
  states the error propagation and the single new wrapper.
- EvalDeclarationF: its contract states only the arena invariant; EvaluatorProperties.InitializerFirst
  states that an initializer's Error is returned and nothing is bound.
- Ast.ExprString renders every missing child as "". Go does that only for the expression of
  an expression statement (ast/expression_stmt.go:12-15). A missing loop condition
  (ast/for_loop_expression.go:24), callee or argument (ast/call_expression.go:25, 28) makes
  Go's `String` panic. The rendering lemmas about these nodes hold for the model's "".
- Parsing.Parser.ParseProgram, Parsing.ParseSource, Builtins.CallBuiltin and
  Evaluation.Interpret follow the corrected behaviour of the two findings below:
  ParseProgram drops the nil that a failed declaration leaves, and `длина` counts
  characters. The behaviour as written is ParserSpec.ParseProgramAsWrittenFrom and
  Builtins.StringLengthAsWritten.

Where the repository's text and its code disagree, the model follows the code:

- Assignment `x = e` binds `x` in the current innermost frame, as `env.Set` does, not in
  the nearest frame that already holds `x`.
- A declaration is refused when `env.Get` finds the name anywhere on the chain, not only
  in the current frame.
- evaluator/evaluator_test.go:163 expects `если (1) { 10 }` to yield 10. `isTrue`
  (evaluator/evaluator.go:214-225) counts only TRUE, so the model yields NULL
  (EvaluatorProperties.IntegerConditionIsNotTrue).
- parser/variable_stmt_test.go writes declarations without a leading keyword, while
  `parseStatement` starts a declaration only at LET.

## Findings

| source | as written | input that shows it | evidently intended | confidence | as-written member | corrected member |
|---|---|---|---|---|---|---|
| parser/parser.go:119 | `parseVariableStatement` returns a typed nil `*VariableStatement` on failure, and `stmt != nil` is true for it, so a nil statement is appended to the program | the tokens LET `x` (no `:`) | a failed declaration adds no statement | high (not executed) | ParserSpec.ParseProgramAsWrittenFrom, ParserSpec.FailedDeclarationKeptAsNil | ParserSpec.ParseProgramFrom, ParserSpec.AsWrittenKeepsNils |
| evaluator/builtins.go:14 | `len(arg.Value)` counts UTF-8 bytes | `длина("йй")` gives 4; evaluator/evaluator_test.go:380 expects 2 | the number of characters | high (not executed) | Builtins.StringLengthAsWritten, Builtins.StringLengthAsWrittenCountsBytes | Builtins.StringLength, Builtins.StringLengthCounts |
