# unnamed-language front end and evaluator, in Dafny

This project models the core of a small scripting-language implementation.
The core has three layers:

- **Front end.** A character cursor, a fixed-depth peek buffer, tokens and
  spans, and two scanners. Each scanner call turns the source text into one
  token or one scan error.
- **Parsers.** Two recursive-descent parsers that use precedence climbing for
  expressions.
- **Evaluator.** A tree-walking evaluator over a chain of variable scopes.

The repository holds two snapshots of the front end, and both are modelled:

- the newer one under `src/compiler/`;
- the older one under `src/parser/` and `src/parser.rs`. The interactive
  front end (src/main.rs) drives only its scanner. Neither src/main.rs nor
  the evaluator, which reads the newer syntax tree, calls the older parser.

Everything is a pure function over immutable data:

- Sources are `string`s indexed by character.
- A scanner's state is the index of the next unread character.
- A parser reads a finished `seq<Token>` that ends in `Eof`. Its state is the
  number of tokens consumed.
- The evaluator threads a scope chain, modelled as a non-empty
  `seq<map<string, Value>>` with the innermost scope last.
- A panic in the source (`todo!`, `unimplemented!`, `unreachable!`, a failed
  `unwrap`, the `expect` in `pop`) is an explicit outcome of the model. It is
  not a precondition.

Modules, in dependency order:

| module | file | models |
|---|---|---|
| `Wrappers`, `Values` | wrappers.dfy, values.dfy | `Option`, `Result`, and the runtime `Value` (number, boolean, nil) |
| `Chars`, `Lexing` | chars.dfy, lexing.dfy | ASCII character classes, maximal runs, and the reference lexical classes of whole lexemes |
| `Tokens` | tokens.dfy | `Token`, `Span`, `Span::slice`, `TokenKind` and the keyword table |
| `Cursor` | cursor.dfy | the older character cursor |
| `Lookahead` | lookahead.dfy | the `Lookahead<N, I>` peek buffer |
| `Scanner`, `ScannerProofs` | scanner.dfy | the newer scanner, and its properties and examples |
| `OldScanner`, `OldScannerExamples` | old_scanner.dfy | the older scanner (inclusive span ends), and its examples |
| `Numerals` | numerals.dfy | parsing of numeric literal text |
| `Ast`, `OldAst` | ast.dfy, old_ast.dfy | both syntax trees, the operator binding-power tables, `TryFrom<Token>` and parse errors |
| `Parser`, `ParserProofs` | parser.dfy, parser_proofs.dfy | the newer parser, and its properties and examples |
| `OldParser`, `OldParserExamples` | old_parser.dfy | the older parser, and its examples |
| `Environment` | environment.dfy | the scope chain: define, get, set, push, pop |
| `Interpreter`, `InterpreterProofs` | interpreter.dfy, interpreter_proofs.dfy | statement and expression evaluation, and its properties |

Where the code and its documented design disagree, the model follows the code.

- **Assignment yields the old value.** `Environment::set` swaps the new value
  into the binding and returns what was there before. So an assignment
  expression evaluates to the variable's previous value, not to the value
  assigned.
- **A failing block keeps its scope.** A block statement propagates an error
  with `?` before it pops. A failing block therefore leaves its scope pushed.
- **Any operand is accepted as an assignment target.** At binding power 0
  the newer parser wraps whatever it has parsed so far in an assignment
  (src/compiler/parser.rs:236-237). It reports an invalid target only when a
  `=` is left over after the loop (248-250). So `true = x` parses
  (`ParserProofs.LiteralTargetAccepted`), and the failure moves to the
  evaluator's `unimplemented!` for a target that is not a name
  (src/interpreter.rs:60-62, `InterpreterProofs.AssignmentToNonNameAborts`).
- **The older scanner's span ends are inclusive.** It builds spans whose `end`
  is the index of the token's last character. Its own tests expect this.
  `Span`, however, documents `end` as exclusive, and `Span::slice` uses it as
  exclusive. `OldScanner.Ends` models both readings. The finding below shows
  what the combination does.

## Model

| member | source | states |
|---|---|---|
| Chars.EofCharIsUnclassified | src/parser/cursor.rs:20-26 | The NUL sentinel that both cursors return at the end of input is not whitespace, not a digit and not an identifier character, so every scanning loop stops on it. |
| Lexing.At | src/parser/scanner.rs:143-148 | Looking ahead gives the character at an index inside the source, and the sentinel past its end. |
| Lexing.RunEnd | src/compiler/parser/scanner.rs:128-130 | A "consume while" loop stops at the first character outside the class. Every character it passed is in the class, and it never runs past the source. |
| Lexing.RunEndUnique | src/compiler/parser/scanner.rs:128-130 | Any index with those two properties is the run's end, so the end is uniquely determined. |
| Tokens.Slice | src/parser/token.rs:39-41 | `slice` is the source text from `start` up to, but not including, `end`: of length end - start, character by character. |
| Tokens.KeywordTableRoundTrip | src/parser/token.rs:45-109 | The keyword table maps each keyword spelling to its kind, and each keyword kind back to its spelling, one to one. |
| Cursor.New | src/parser/cursor.rs:11-13 | A new cursor is valid and has consumed nothing. |
| Cursor.Lookahead | src/parser/cursor.rs:24-26 | `lookahead(n)` is the n-th unread character, or the sentinel past the end. |
| Cursor.Advance | src/parser/cursor.rs:20-22 | `advance` returns what `lookahead(0)` would. It consumes one character, or nothing once the source is exhausted. |
| Cursor.IsAtEnd | src/parser/cursor.rs:28-30 | The cursor is at its end exactly when the next character is the sentinel: past the source, or in front of a NUL inside it. |
| Cursor.BytesRemaining | src/parser/cursor.rs:16-18 | The count is zero exactly when the source is exhausted, and never exceeds its length. |
| Cursor.LookaheadThenAdvance | src/parser/cursor.rs:20-26 | Peeking does not consume. After an `advance`, every lookahead shifts by one, or stays the sentinel at the end. |
| Cursor.AdvanceConsumesOneByte | src/parser/cursor.rs:15-18 | `bytes_remaining` drops by one per `advance` and stays 0 once exhausted. |
| Cursor.AdvanceManyReadsSource | src/parser/cursor.rs:20-22 | k calls to `advance` return the next k characters of the source in order, followed by sentinels. |
| Cursor.CursorExamples | src/parser/cursor.rs:38-80 | The cursor's own tests: "one" reads o, n, e, then the sentinel. "" reads the sentinel at once and is at its end. The byte counts are as expected. |
| Lookahead.New | src/lookahead.rs:23-28 | A new buffer is empty, and the items it will yield are exactly the iterator's. |
| Lookahead.Next | src/lookahead.rs:12-17 | `next` yields the front of the buffer if there is one, else the iterator's next item. Later items shift by one. |
| Lookahead.Fill | src/lookahead.rs:36-38 | Pulling items into the buffer changes none of the items that will be yielded. |
| Lookahead.Peek | src/lookahead.rs:30-41 | `lookahead(n)` requires n < N. It returns the item n places ahead and changes no future item. Afterwards the buffer holds max(previous length, n+1) entries. |
| Lookahead.Run | src/lookahead.rs:12-41 | A run of `next` and `lookahead` calls keeps the buffer within its capacity, and yields one item per `next`. |
| Lookahead.RunYieldsInOrder | src/lookahead.rs:12-17 | The i-th `next` of a run yields the item i places ahead of where the run began. |
| Lookahead.PeekingIsTransparent | src/lookahead.rs:12-41 | Removing every `lookahead` call from a run does not change what its `next` calls yield. |
| Lookahead.PeekPredictsNext | src/lookahead.rs:36-40 | `lookahead(n)` returns exactly what the (n+1)-th following `next` returns. |
| Scanner.Scan | src/compiler/parser/scanner.rs:17-22 | A scan skips ASCII whitespace. The token's span starts at the first non-whitespace character, lies inside the source, and ends where the cursor stops. |
| Scanner.ScanAt | src/compiler/parser/scanner.rs:24-99 | A token is non-empty unless it is `Eof` at the end of input. An error is either an unterminated string running to the end, or one unexpected character reported over its own one-character span. |
| Scanner.ScanString | src/compiler/parser/scanner.rs:111-124 | A string runs to its closing quote, which is consumed. With no closing quote before the end, it is "expected closing quotes". |
| Scanner.ScanSymbol | src/compiler/parser/scanner.rs:37-96 | A punctuator or operator is two characters exactly when the pair table has the pair, and one character otherwise. Any other character is "unexpected character". |
| Scanner.ScanClassifiesLexeme | src/compiler/parser/scanner.rs:17-100 | The text of every token has the lexical form of the token's kind: identifier or keyword, number, string, or punctuator. |
| Scanner.Tokenize | src/compiler/parser.rs:55-63 | The scanning loop that feeds the newer parser, run over a whole source. It stops at the first `Eof` or at the first scan error; the error becomes the result, where the loop calls `todo!`. A successful stream holds `Eof` once, as its last token. |
| Scanner.TokenizeCovers | src/compiler/parser/scanner.rs:17-100 | The tokens of a stream follow one another in the source, separated only by whitespace. Each token's text is a lexeme of its kind. |
| Scanner.TokenizeIsScanChain | src/compiler/parser/scanner.rs:17-100 | A token stream is the result of scanning exactly when each token is what `scan` returns at the position the previous one left. |
| ScannerProofs.LexemeByFirstChar | src/compiler/parser/scanner.rs:24-96 | The first character of a lexeme decides its class. |
| ScannerProofs.ScanIsMaximalMunch | src/compiler/parser/scanner.rs:24-143 | No longer text starting at the same place is a lexeme: every token is the longest match. |
| ScannerProofs.IdentNotLonger | src/compiler/parser/scanner.rs:102-109 | An identifier stops at the first character that cannot continue it. |
| ScannerProofs.NumberNotLonger | src/compiler/parser/scanner.rs:126-143 | A number stops after its digits, and after a fraction only when a digit follows the point. |
| ScannerProofs.StringNotLonger | src/compiler/parser/scanner.rs:111-124 | A string stops at its closing quote. |
| ScannerProofs.SymbolNotLonger | src/compiler/parser/scanner.rs:46-89 | An operator is never extended beyond its pair. |
| ScannerProofs.ScanEofIsStable | src/compiler/parser/scanner.rs:177-182 | With only whitespace left, `scan` returns `Eof` over [len, len), and keeps returning it on every later call. |
| ScannerProofs.ScanWordAt | src/compiler/parser/scanner.rs:102-109 | An identifier-shaped word scans as a keyword if the table has it, else as `Identifier`. |
| ScannerProofs.ScanIntegerAt | src/compiler/parser/scanner.rs:126-143 | A digit run not followed by a point and a digit scans as one `Number`. |
| ScannerProofs.ScanFractionAt | src/compiler/parser/scanner.rs:136-142 | Digits, a point and more digits scan as one `Number`. |
| ScannerProofs.ScanSymbolAt | src/compiler/parser/scanner.rs:37-89 | A one-character punctuator scans on its own. |
| ScannerProofs.ScanPairAt | src/compiler/parser/scanner.rs:46-81 | A pair from the table scans as its two-character kind. |
| ScannerProofs.ScanMethodCallOnNumber | src/compiler/parser/scanner.rs:185-194 | "256.log2()" scans as Number[0,3), Period[3,4), Identifier[4,8), LParen, RParen, Eof. |
| ScannerProofs.ScanVarDecl | src/compiler/parser/scanner.rs:202-214 | Successive scans of "let x = 10;" give Let[0,3), Identifier[4,5), Equal[6,7), Number[8,10), Semicolon[10,11), Eof[11,11). |
| ScannerProofs.ScanFuncDecl | src/compiler/parser/scanner.rs:216-236 | Successive scans of "func add(x, y) { return x + y; }" give the fourteen tokens the scanner's test lists, from Func[0,4) to RBrace[31,32), with `return` a keyword and `,` a Comma. |
| ScannerProofs.ScanFractionAndEmpty | src/compiler/parser/scanner.rs:177-200 | "12.34" is one Number[0,5). "" scans to the single token Eof[0,0). |
| ScannerProofs.ScanPlusEqualIsTwoTokens | src/compiler/parser/scanner.rs:82-87 | `+` has no compound arm, so "+=" is `Plus` then `Equal`. |
| ScannerProofs.ScanLoneBang | src/compiler/parser/scanner.rs:93-96 | A `!` not followed by `=` is "unexpected character '!'" over its own character. |
| ScannerProofs.ScanUnterminatedString | src/compiler/parser/scanner.rs:111-124 | `"ab` without a closing quote is "expected closing quotes" over the rest of the input. |
| OldScanner.Scan | src/parser/scanner.rs:38-141 | After whitespace, a token's span starts at its first character and ends where the chosen reading puts it. At the end of input the token is `Eof`. |
| OldScanner.ScanAt | src/parser/scanner.rs:40-140 | Every token other than `Eof` consumes at least one character and has a valid span. |
| OldScanner.SliceOfToken | src/parser/scanner.rs:238-247 | Under the code as written, the slice of a token lacks its last character. |
| OldScanner.Narrow | src/parser/scanner.rs:245-247 | Moving `end` back to the last character consumed keeps a span valid. |
| OldScanner.AsWrittenNarrowsEveryToken | src/parser/scanner.rs:150-157 | The code as written gives the same tokens as the exclusive reading, with every `end` moved back by one. |
| OldScanner.AsWrittenNarrowsAt | src/parser/scanner.rs:150-157 | The same holds for a scan that starts at a token's first character. |
| OldScanner.ExclusiveMatchesNewScanner | src/parser/scanner.rs:38-141 | Read exclusively, the older scanner agrees with the newer one on every token except those starting with `+` or `!`. |
| OldScanner.PairKindsAgree | src/parser/scanner.rs:70-131 | Apart from `+` and `!`, both scanners have the same two-character operators. |
| OldScanner.PlusEqualIsOneToken | src/parser/scanner.rs:70-76 | In the older scanner, "+=" is one `PlusEqual` token. |
| OldScanner.BangIsUnexpected | src/parser/scanner.rs:135-137 | The older scanner has no `!` arm, so `!` is "unexpected character". |
| OldScanner.EofRepeats | src/parser/scanner.rs:150-157 | At the end of input, `Eof` is returned again and again. As written, its span repeats the last character's index. |
| OldScanner.Next | src/parser/scanner.rs:21-23 | `Iterator::next` always returns an item. |
| OldScanner.StreamIsUnbounded | src/parser/scanner.rs:21-23 | Any number of `next` calls all return `Some`, so the token stream never ends. |
| OldScannerExamples.MethodCallAsWritten | src/parser/scanner.rs:277-286 | "256.log2()" gives Number(0,2), Period(3,3), Identifier(4,7), LParen(8,8), RParen(9,9). |
| OldScannerExamples.FractionAsWritten | src/parser/scanner.rs:288-291 | "12.34" is one Number(0,4): its span ends on its last digit. |
| OldScannerExamples.VarDeclScans | src/parser/scanner.rs:295-306 | "let x = 10;" gives Let(0,2), Identifier(4,4), Equal(6,6), Number(8,9), Semicolon(10,10), Eof(10,10) as written. Read exclusively, every end is one further on, and Eof is at (11,11). |
| Numerals.ParseNumber | src/parser.rs:143-148 | A text parses exactly when it is a numeral: digits and points only, at least one digit, at most one point. Its value is all its digits read as one integer, divided by 10 to the number of digits after the point. |
| Numerals.PointIndex | src/parser.rs:142-151 | This is the first point of a numeral, or its length if it has none. |
| Numerals.NumberWordsParse | src/parser.rs:142-151 | The text of every number lexeme parses, so a literal the scanner produced never fails to convert. |
| Numerals.DecimalRoundTrip | src/parser.rs:142-151 | Reading back the digits of a rendering gives the number. |
| Numerals.ParseDecimal | src/parser.rs:142-151 | A rendered natural number parses to itself. |
| Numerals.ParseExamples | src/parser.rs:142-151 | "12.34", "10" and "1." parse. "" and "." do not. |
| Ast.QuoteMaybe | src/compiler/parser.rs:71-77 | A kind is named bare exactly when it is variable-length or `Eof`, and quoted otherwise. |
| Ast.PrefixPowerExactlyForPrefix | src/compiler/parser/ast.rs:88-95 | A prefix binding power exists exactly for the prefix operators `not` and `-`. Where those powers sit is stated by PrefixPowersOnLadder. |
| Ast.PrefixPowersOnLadder | src/compiler/parser/ast.rs:88-113 | The operand of `not` (power 7) runs through operators of equality level and above, and stops before `and`, `or` and `=`: 7 lies between the right power of `and` (6) and the left power of `==` (9). The operand of unary `-` (power 19) stops before every infix operator, `**` (18) included. |
| Ast.InfixPowerExactlyForInfix | src/compiler/parser/ast.rs:100-116 | An infix binding power exists exactly for the infix operators, which are all but `not`. |
| Ast.Associativity | src/compiler/parser/ast.rs:104-111 | Only assignment and `**` have a left power above their right power, so they associate to the right. Each pair differs by one. |
| Ast.LeftPowerFollowsLadder | src/compiler/parser/ast.rs:104-111 | Left powers order the operators along the ladder assignment < or < and < equality < comparison < additive < multiplicative < power, and are equal exactly within a level. |
| Ast.RightPowerSeparatesLevels | src/compiler/parser/ast.rs:104-111 | Each right power lies between its own level and the next, so precedence climbing groups by level. |
| Ast.GroupingFollowsPowers | src/compiler/parser/ast.rs:104-111 | For any two infix operators, the right power of the first reaches the left power of the second exactly when the precedence ladder groups `a o1 b o2 c` as `a o1 (b o2 c)`: the second is higher, or both are on one right-associative level. |
| Ast.TryFromTokenInvertsOperatorKind | src/compiler/parser/ast.rs:132-160 | A token written with an operator's kind converts back to that operator. |
| Ast.TryFromTokenIsOperatorKind | src/compiler/parser/ast.rs:132-160 | A successful conversion names the operator written with the token's kind, so the 16 kinds map one to one. |
| Ast.TryFromTokenFailsOffOperators | src/compiler/parser/ast.rs:150-158 | The conversion fails exactly on kinds that no operator is written with, and it reports "unexpected token" at that token. |
| Ast.EofIsNoOperator | src/compiler/parser/ast.rs:150-158 | `Eof` never converts, so the end of the stream always stops an operator loop. |
| OldAst.ToNewRoundTrips | src/parser/ast.rs:18-35 | The two operator sets correspond one to one by name. |
| OldAst.TablesAgree | src/parser/ast.rs:38-81 | The older trees classify and bind every operator exactly as the newer tables do. |
| Parser.Advance | src/compiler/parser.rs:27-32 | `advance` returns the peeked token if there is one, else the next token of the stream, and empties the buffer. |
| Parser.Peek | src/compiler/parser.rs:43-52 | `peek` returns the next token of the stream without consuming it, and leaves it buffered. |
| Parser.PeeksAreTransparent | src/compiler/parser.rs:27-52 | Any number of `peek` calls before an `advance` do not change the token it returns or the state after it. |
| Parser.Peeks | src/compiler/parser.rs:43-52 | Repeated peeks keep the position and buffer the next token. |
| Parser.NonEofHasSuccessor | src/compiler/parser.rs:27-32 | Only `Eof` is the last token, so consuming anything else leaves reading inside the stream. |
| Parser.AdvanceIf | src/compiler/parser.rs:34-41 | `advance_if` consumes the next token exactly when it has the given kind. |
| Parser.Expect | src/compiler/parser.rs:66-87 | `expect` consumes and returns the token exactly when its kind matches. Otherwise it fails at that token with "expected X got Y", each kind quoted or bare as in `quote_maybe`. It never panics. |
| Parser.Parse | src/compiler/parser.rs:89-100 | A successful parse stops at `Eof`. |
| Parser.ScriptLoop | src/compiler/parser.rs:93-100 | Declarations are parsed until `Eof`. On a stream that is just `Eof`, the script is empty. |
| Parser.Decl | src/compiler/parser.rs:102-109 | A declaration is a variable exactly when it starts with `let`, and a function exactly when it starts with `func`. |
| Parser.VarDecl | src/compiler/parser.rs:161-174 | A variable declaration is `let`, an identifier whose text is the name, an initializer exactly when `=` follows, and a required `;`. |
| Parser.Finish | src/compiler/parser.rs:171-173 | The closing `;` is required: a missing one fails at the token found instead. |
| Parser.FuncDecl | src/compiler/parser.rs:176-189 | A function declaration takes the identifier's text as its name, and its body is a block. |
| Parser.FuncRest | src/compiler/parser.rs:181-188 | After `(`, the parameters, `)` and a block form a function declaration with the given name and a block body. |
| Parser.Params | src/compiler/parser.rs:182-185 | Parameters are a run of identifiers up to `)` or `Eof`, with their texts in order. Anything else fails expecting an identifier. |
| Parser.Stmt | src/compiler/parser.rs:111-117 | A statement is a block exactly when it starts with `{`, and an `if` exactly when it starts with `if`. A `print` statement is never produced. |
| Parser.Block | src/compiler/parser.rs:119-134 | A block ends with a consumed `}`. |
| Parser.BlockLoop | src/compiler/parser.rs:122-129 | Declarations are collected until `}` or `Eof`, which is left unconsumed. |
| Parser.If | src/compiler/parser.rs:136-151 | An `if` without `else` is never followed by `else`, so a dangling `else` binds to the innermost `if`. |
| Parser.ExprStmt | src/compiler/parser.rs:153-159 | An expression statement ends with a consumed `;`. |
| Parser.ExprBp | src/compiler/parser.rs:195-253 | An expression stops at a token that does not continue it at this binding power, and never in front of `=`. Above the assignment level, it contains no binary `=`. |
| Parser.Group | src/compiler/parser.rs:207-211 | The same holds for a parenthesised group. |
| Parser.Prefix | src/compiler/parser.rs:212-222 | The same holds for a prefix operation. An operand position holding `Eof` is a parse error. |
| Parser.InfixLoop | src/compiler/parser.rs:225-250 | The operator loop stops only where no operator continues the expression. A stray `=` is the "invalid assignment target" panic. |
| Parser.InfixStep | src/compiler/parser.rs:228-242 | One infix step consumes the operator and its right operand, and keeps the loop's guarantees. |
| ParserProofs.LetNeedsIdentifier | src/compiler/parser.rs:161-164 | "let 5 ..." fails at the second token, expecting an identifier. |
| ParserProofs.UnclosedBlockFails | src/compiler/parser.rs:119-134 | A block that reaches `Eof` fails at `Eof`, expecting '}'. |
| ParserProofs.EmptyUnclosedBlock | src/compiler/parser.rs:119-134 | "{" alone fails with "expected '}' got Eof". |
| ParserProofs.CommaInParameters | src/compiler/parser.rs:182-185 | A `,` between parameters fails, expecting an identifier. |
| ParserProofs.EmptyScript | src/compiler/parser.rs:93-100 | A stream that is just `Eof` parses to an empty script. |
| ParserProofs.EndStops | src/compiler/parser.rs:226-246 | `Eof` ends every expression. |
| ParserProofs.OperandBefore | src/compiler/parser.rs:229-231 | An operator whose left power is below the minimum is left for the caller. |
| ParserProofs.StrayEqualPanics | src/compiler/parser.rs:248-250 | An `=` after an operand parsed above the assignment level is the "invalid assignment target" panic. |
| ParserProofs.OperandAtEnd | src/compiler/parser.rs:196-198 | An identifier followed by `Eof` is the whole expression. |
| ParserProofs.TrailingOperation | src/compiler/parser.rs:226-246 | `a op b` at the end of the stream is one binary node. |
| ParserProofs.PrecedenceAndAssociativity | src/compiler/parser.rs:195-253 | For every pair of infix operators other than `=`, `a o1 b o2 c` parses as `a o1 (b o2 c)` when the ladder groups it that way, and as `(a o1 b) o2 c` otherwise. |
| ParserProofs.AssignmentTakesRest | src/compiler/parser.rs:236-237 | `a = b o c` is an assignment to `a` of the whole `b o c`, for every other infix operator. |
| ParserProofs.AssignmentAfterOperatorPanics | src/compiler/parser.rs:248-250 | `a o b = c` reaches the "invalid assignment target" panic, for every infix operator other than `=`. |
| ParserProofs.LiteralTargetAccepted | src/compiler/parser.rs:236-237 | `true = x` parses to an assignment whose target is the literal `true`: at level 0 the target is not checked. |
| ParserProofs.NotTakesEquality | src/compiler/parser.rs:215-217 | `not a == b` parses as `not (a == b)`. |
| ParserProofs.NotStopsBeforeAnd | src/compiler/parser.rs:215-217 | `not a and b` parses as `(not a) and b`. |
| ParserProofs.NegationBindsTighterThanPower | src/compiler/parser.rs:215-217 | `- a ** b` parses as `(-a) ** b`. |
| ParserProofs.ProductBindsTighter | src/compiler/parser.rs:195-253 | `a + b * c` parses as `a + (b * c)`. |
| ParserProofs.DifferenceGroupsLeft | src/compiler/parser.rs:195-253 | `a - b - c` parses as `(a - b) - c`. |
| ParserProofs.PowerGroupsRight | src/compiler/parser.rs:195-253 | `a ** b ** c` parses as `a ** (b ** c)`. |
| ParserProofs.AssignmentGroupsRight | src/compiler/parser.rs:236-237 | `a = b = c` parses as `a = (b = c)`. |
| ParserProofs.AssignmentToSumPanics | src/compiler/parser.rs:248-250 | `a + b = c` reaches the "invalid assignment target" panic. |
| OldParser.TryFromToken | src/parser.rs:233-261 | A failed conversion reports "unexpected token" at the token's span. |
| OldParser.TryFromTokenAgrees | src/parser.rs:233-261 | The older conversion accepts the same kinds as the newer one, gives the same-named operator, and fails with the same error. |
| OldParser.Expect | src/parser.rs:57-71 | `expect` consumes exactly when the kind matches. Otherwise it fails at the next token with "expected X", with X quoted or bare as for the newer parser. It never panics. |
| OldParser.Parse | src/parser.rs:73-75 | A parse is exactly one statement. |
| OldParser.ParseStmt | src/parser.rs:77-86 | A statement is a block exactly when it starts with `{`, and a declaration exactly when it starts with `let`. Anything else is an expression statement. |
| OldParser.ParseBlock | src/parser.rs:88-104 | A block ends with a consumed `}`. |
| OldParser.BlockLoop | src/parser.rs:91-99 | Statements are collected until `}` or `Eof`, which is left unconsumed. |
| OldParser.ParseExprStmt | src/parser.rs:106-113 | An expression statement ends with a consumed `;`. |
| OldParser.Finish | src/parser.rs:128-129 | The closing `;` is required. |
| OldParser.ParseVarDecl | src/parser.rs:115-132 | The token after `let` is the name, whatever its kind. The initializer is present exactly when `=` follows. |
| OldParser.VarRest | src/parser.rs:121-131 | The rest of a declaration keeps the name, and has an initializer exactly when it starts with `=`. |
| OldParser.VarInit | src/parser.rs:121-130 | After `=`, an initializer and `;` give a declaration with the given name and an initializer. |
| OldParser.ExprBp | src/parser.rs:138-204 | An expression stops at a token that does not continue it. Assignment never appears as its own node, only as a binary `=`. |
| OldParser.Group | src/parser.rs:163-167 | The same holds for a parenthesised group. |
| OldParser.Prefix | src/parser.rs:168-178 | The same holds for a prefix operation. |
| OldParser.InfixLoop | src/parser.rs:181-201 | The loop stops only where no operator continues the expression. |
| OldParser.InfixStep | src/parser.rs:188-197 | Every infix operator, `=` included, builds a binary node. |
| OldParserExamples.LetTakesAnyName | src/parser.rs:118-119 | `let` followed by any token and `;` declares that token's text, with no initializer. |
| OldParserExamples.LetAtEnd | src/parser.rs:115-132 | "let" alone consumes `Eof` as the name, then fails at `Eof` expecting ';'. |
| OldParserExamples.EmptyNumberFails | src/parser.rs:142-148 | A number token whose text is empty fails with "failed to parse numeric literal". |
| OldParserExamples.AssignmentIsBinary | src/parser.rs:196 | `a = b = c` is `Binary(Assign, a, Binary(Assign, b, c))`. |
| OldParserExamples.AssignmentToSumAccepted | src/parser.rs:181-201 | `a + b = c` is accepted as `Binary(Assign, a + b, c)`. The older parser has no assignment-target check. |
| OldParserExamples.PrecedenceAndAssociativity | src/parser.rs:181-201 | For every pair of infix operators, `=` included, `a o1 b o2 c` parses as `a o1 (b o2 c)` when the ladder groups it that way, and as `(a o1 b) o2 c` otherwise, as in the newer parser. |
| OldParserExamples.NumberDecl | src/parser.rs:115-151 | `let n = <number>;` declares the name with the parsed number as its initializer. |
| OldParserExamples.VarDeclAsWritten | src/parser.rs:119 | The older scanner's "let x = 10;" parses, as written, to a declaration of "" initialised to 1. |
| OldParserExamples.VarDeclExclusive | src/parser.rs:115-132 | With exclusive span ends, "let x = 10;" declares "x" initialised to 10. |
| Environment.Root | src/interpreter/environment.rs:5-9 | The default environment is one empty scope. |
| Environment.Define | src/interpreter/environment.rs:12-14 | `define` binds the name in the innermost scope, replacing a binding there. Outer scopes and other names are unchanged. |
| Environment.FindIndex | src/interpreter/environment.rs:26-30 | `find` picks the innermost scope that binds the name, or reports that none does. |
| Environment.Get | src/interpreter/environment.rs:16-18 | `get` succeeds exactly when some scope binds the name. |
| Environment.Set | src/interpreter/environment.rs:20-24 | `set` returns what `get` would have returned. It changes nothing on an unbound name, and never adds or removes a binding. |
| Environment.Push | src/interpreter/environment.rs:38-41 | `push` adds an empty innermost scope. |
| Environment.Pop | src/interpreter/environment.rs:43-46 | `pop` drops the innermost scope. On the root scope it is the panic "pop called on root environment". |
| Environment.GetIsInnermost | src/interpreter/environment.rs:16-30 | `get` yields v exactly when some scope binds the name to v and no inner scope binds it. |
| Environment.FindIndexAgrees | src/interpreter/environment.rs:26-30 | Lookup of a name depends only on that name's bindings. |
| Environment.DefineThenGet | src/interpreter/environment.rs:12-18 | After `define`, `get` returns the new value, and every other name reads as before. |
| Environment.SetReplacesInnermost | src/interpreter/environment.rs:20-36 | `set` on a bound name returns the previous value. Afterwards `get` returns the new one. Only the scope found changes, and other names read as before. |
| Environment.SetUnboundChangesNothing | src/interpreter/environment.rs:20-21 | `set` never creates a binding. |
| Environment.PushPreservesGet | src/interpreter/environment.rs:38-41 | After `push`, every name reads as before. |
| Environment.PushPopRestores | src/interpreter/environment.rs:38-46 | `push` then `pop` restores the chain, discarding anything defined in between. |
| Interpreter.Message | src/interpreter.rs:181-188 | Every runtime error has a non-empty message. |
| Interpreter.MessagesDistinct | src/interpreter.rs:181-188 | Different errors have different messages. |
| Interpreter.CheckNumberOperands | src/interpreter.rs:164-170 | It succeeds, with both numbers, exactly when both operands are numbers. Otherwise the error is `InvalidOperand`. |
| Interpreter.UnaryOp | src/interpreter.rs:138-158 | `not` requires a boolean and negates it. Unary `-` requires a number and negates it. Other operands are `InvalidOperand`, and other operators are unreachable. |
| Interpreter.EvalExpr | src/interpreter.rs:47-161 | Evaluating an expression never adds or removes a binding. |
| Interpreter.ExecStmt | src/interpreter.rs:14-45 | A successful statement keeps the chain's depth and only adds names to the innermost scope. A block leaves the names exactly as they were. A failure never shortens the chain. |
| Interpreter.RunBlock | src/interpreter.rs:16-22 | A successful block restores the chain's shape. A failing one leaves its scope pushed. |
| Interpreter.ExecBlock | src/interpreter.rs:18-20 | The statements run in order, and the first error stops them. |
| InterpreterProofs.OrShortCircuits | src/interpreter.rs:64-79 | `or` yields a truthy left value without evaluating the right operand. Otherwise it yields the right operand's run, uncoerced. |
| InterpreterProofs.AndShortCircuits | src/interpreter.rs:64-79 | `and` yields a left value that is not truthy without evaluating the right operand. Otherwise it yields the right operand's run. |
| InterpreterProofs.EqualityNeverFails | src/interpreter.rs:85-86 | `==` and `!=` compare any two values structurally and never fail. |
| InterpreterProofs.StrictOperandsLeftToRight | src/interpreter.rs:80-82 | Other binary operators evaluate the left operand, then the right one, then apply the operator. The first error stops it. |
| InterpreterProofs.NumericNeedsNumbers | src/interpreter.rs:87-132 | Ordering and arithmetic are `InvalidOperand` exactly when an operand is not a number. |
| InterpreterProofs.ZeroDivisor | src/interpreter.rs:115-128 | `/` and `%` are `DivisionByZero` exactly when both operands are numbers and the divisor is zero. The operand types are checked first. |
| InterpreterProofs.NumbersNeverFailOtherwise | src/interpreter.rs:87-132 | Every other numeric operator succeeds on two numbers. |
| InterpreterProofs.ComparisonsAgree | src/interpreter.rs:87-102 | `a < b` equals `b > a`, `a <= b` is the negation of `a > b`, and `a >= b` equals `b <= a`. |
| InterpreterProofs.UnaryInvolutive | src/interpreter.rs:138-158 | `not` and unary `-` each undo themselves. Nil is rejected by both. |
| InterpreterProofs.LiteralIsItsValue | src/interpreter.rs:49 | A literal evaluates to its value and leaves the chain unchanged. |
| InterpreterProofs.IdentifierReadsInnermost | src/interpreter.rs:50-53 | A name evaluates to v exactly when some scope binds it to v and no inner scope binds it. It fails with `UndefinedVariable` exactly when no scope binds it. Either way the chain is unchanged. |
| InterpreterProofs.UnaryAfterOperand | src/interpreter.rs:138-158 | The operand is evaluated first, and its failure is passed through. Otherwise the operator is applied in the chain the operand left: `not` succeeds exactly on a boolean and negates it, and `-` succeeds exactly on a number and negates it. |
| InterpreterProofs.AssignmentYieldsPrevious | src/interpreter.rs:54-63 | Assignment evaluates its source first, then yields the variable's previous value. Afterwards the variable reads as the new value and other names as before. An unbound target is `UndefinedVariable` and creates nothing. |
| InterpreterProofs.AssignmentToNonNameAborts | src/interpreter.rs:60-62 | A target other than a name is the `unimplemented!` panic, reached after the source has run. |
| InterpreterProofs.ReadsDoNotWrite | src/interpreter.rs:47-161 | An expression without assignments leaves every binding as it was. |
| InterpreterProofs.VarDeclDefaultsToNil | src/interpreter.rs:26-34 | A declaration without an initializer binds nil in the innermost scope. |
| InterpreterProofs.VarDeclBindsValue | src/interpreter.rs:26-34 | A declaration with an initializer binds its value, after the initializer's own effects. |
| InterpreterProofs.IfRunsOneBranch | src/interpreter.rs:35-41 | `if` runs the consequent exactly when the condition is truthy, else the alternative if there is one. It never runs both. |
| InterpreterProofs.ExecBlockAppend | src/interpreter.rs:18-20 | Running `xs + ys` is running `xs`, then `ys` from where `xs` left off, unless `xs` failed. |
| InterpreterProofs.BlockDiscardsDefinitions | src/interpreter.rs:16-22 | A declaration inside a block is gone once the block ends, and the chain is as before. |
| InterpreterProofs.BlockErrorKeepsScope | src/interpreter.rs:16-22 | An error inside a block returns with the block's scope still pushed. |

## Left out

- Unicode. Sources are sequences of characters indexed by character. Spans
  and `bytes_remaining` count bytes of UTF-8 in the source. The two agree on
  ASCII, the only input the model treats.
- The older scanner's identifier start. It accepts any Unicode alphabetic
  character (`char::is_alphabetic`). The model accepts ASCII letters and
  `_`, as the newer scanner does.
- The end-of-input sentinel. It is NUL, and a NUL inside the source acts as
  it does in the code: it ends strings, and it scans as `Eof`. Nothing
  beyond that is claimed about such input.
- Scan errors seen by the parsers. Both parsers call `todo!` on any scan
  error (src/parser.rs:46-54, src/compiler/parser.rs:55-63). The parsers
  here read a stream that has already scanned without error.
- Floating point. Numbers are exact reals.
  - `+ - * /` and the comparisons are exact.
  - The `%` of `f64` and `powf` are parameters of the evaluator (`Host`).
  - The signed zero in `right == 0.0` is not modelled.
  - `str::parse::<f64>` is modelled only on digits with at most one point.
- `Value::is_truthy`. It is not part of this model, so it is a parameter of
  the evaluator.
- Parse errors in the newer parser. Their messages are kept as structure
  (`Ast.Message`), not rendered text. `Display` for `TokenKind`,
  `is_variable_length` and `keyword_kind_from_str` are not part of this
  model. The keyword table and the variable-length kinds are reconstructed
  from the names in `TokenKind`.
- Number literals in the newer parser. It calls `parse().unwrap()`. A text
  that does not parse is the `UnwrapFailed` panic, which cannot arise from
  scanner output (`Numerals.NumberWordsParse`).
- Statements the evaluator matches but no shown tree defines. The evaluator
  matches `Stmt::Block`, `Stmt::Expr`, `Stmt::VarDecl` and `Stmt::If`. Neither
  syntax tree has exactly these statements. `Interpreter.Stmt` is that merged
  statement type, with the newer tree's expressions.
- `Value`'s equality and copying. Value equality is structural, as the
  evaluator assumes with `==`, `!=` and `*val`.
- src/main.rs. It is the older scanner's only caller. It reads standard
  input line by line and prints each line's tokens up to `Eof`, reporting a
  scan error and carrying on past it. The tokens it prints are those of
  `OldScanner.Next`; the reading and printing are not modelled.
- src/interpreter/object.rs. It holds raw-pointer heap objects that the
  evaluator never uses.
- src/compiler/bytecode.rs. It is an opcode enumeration with no behaviour.
- src/compiler/parser/cursor.rs and src/compiler/parser/token.rs are not
  part of this model. The newer scanner's cursor is a character index, and
  its tokens are the shared `Tokens.Token`.
- Parser.Parse: states only that a parse ends at `Eof`. What it yields is
  stated by the lemmas about `ScriptLoop` and `Decl` and by the examples.
- Numerals.ParseNumber: a sign, an exponent, `inf` or `nan` gives `None`
  here, where `str::parse::<f64>` accepts them. A number token never slices
  to such a text, so neither parser can meet one.
- Parser.ExprBp and OldParser.ExprBp: their own contracts state where an
  expression stops. How operands group is stated by the
  `PrecedenceAndAssociativity` lemmas and the examples beside them.
- Interpreter.EvalExpr: its own contract states only that the shape of the
  chain is kept. Each of its five forms has a lemma that states its value:
  - literals: `LiteralIsItsValue`;
  - names: `IdentifierReadsInnermost`;
  - assignments: `AssignmentYieldsPrevious` and `AssignmentToNonNameAborts`;
  - binary operations: `OrShortCircuits`, `AndShortCircuits` and
    `StrictOperandsLeftToRight`;
  - prefix operations: `UnaryAfterOperand`.

## Findings

| source | as written | input that shows it | evidently intended | confidence | as-written member | corrected member |
|---|---|---|---|---|---|---|
| src/parser.rs:119 | The older scanner sets span `end` to the index of the token's last character (src/parser/scanner.rs:150-157, 245-247). `Span::slice` and the older parser read `end` as exclusive (src/parser/token.rs:39-41), so every slice loses its last character. | "let x = 10;" scans to Let(0,2), Identifier(4,4), Equal(6,6), Number(8,9), Semicolon(10,10). The parser then declares the name "" with initializer 1. "let x = 5;" fails with "failed to parse numeric literal". | The declaration of "x" initialised to 10 | not executed | OldParserExamples.VarDeclAsWritten | OldParserExamples.VarDeclExclusive |
