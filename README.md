# js-eval in Dafny

A model of the core of js-eval, a Kotlin interpreter for a small
JavaScript-like language, with proofs about it. The pipeline has four stages:

- **Scanner** (`Tokenizer`): a cursor over the source text that reads
  whitespace, literal keywords, identifiers, integers, quoted strings and
  booleans.
- **Parser** (`Parser`): a recursive-descent parser that builds statements and
  expressions. Precedence runs assignment, then additive, then
  multiplicative, then primary. It backtracks by saving and restoring the
  cursor.
- **Evaluator**:
  - The `Value` operator table, with its int, string and boolean coercions.
  - `Expression.eval` and `Statement.step`.
  - The `Environment` symbol table. Every read of a variable re-evaluates the
    expression the variable was last bound to (the "reactive" recompute).
  - Function calls, which run in a fresh, empty environment.
- **Program**: runs the statement list in order and answers point requests:
  evaluate a line, or assign a variable.

Two helpers are modelled as well:

- The parse-error report, which turns an offset into a line, a column and a
  caret line.
- The alternate combinator parser `ParserC`. It holds the only code that
  decodes the `\n`, `\t` and `\r` escapes.

## Layout

Each module is one file.

- `Common` (`common.dfy`):
  - `Option` and `Result`.
  - Kotlin's 32-bit `Int` as the subtype `I32`, with `Wrap32` for the
    wrap-around of `+`, `-` and `*`.
  - Truncating division, `TruncDiv`.
  - Decimal rendering (`IntToString`) and reading (`ToIntOrNull`).
- `Scanner` (`scanner.dfy`):
  - The character classes.
  - One specification function per tokenizer operation, over the text and a
    start position.
  - The class `Tokenizer`, whose mutable `position` its methods advance. Each
    method is proved to do what its function says.
- `Values` (`values.dfy`): `Value`, the operator table as pure functions, the
  `Error` datatype for everything evaluation can fail with, and the laws of the
  table.
- `Ast` (`ast.dfy`): `Modifier`, `Expression`, `Statement`, `Symbol`, and size
  measures used for termination.
- `Semantics` (`semantics.dfy`): evaluation as pure functions over a table
  `map<string, Symbol>`. Every result carries the table it leaves, because
  effects made before a failure remain, as in the interpreter.
- `Runtime` (`runtime.dfy`):
  - The class `Environment`, whose `table` field its methods update in place.
  - `Evaluate`, `Step` and the call protocol as methods over an
    `Environment`. The call protocol binds the arguments in a loop, runs the
    body in a loop, and stops at the first `return`.
  - Each method is proved equal to its `Semantics` function.
- `EvalLaws` (`laws.dfy`) and `CallLaws` (`call_laws.dfy`): properties of
  evaluation and of calls.
- `Programs` (`programs.dfy`): `Request` and the class `Program`, with
  `ProgramLaws` (`program_laws.dfy`) for the request laws and the test
  scenarios.
- `Grammar` (`grammar.dfy`): the parser as pure functions from a text and a
  position to a `Parse` (a value and the new position, or a `ParseError`).
- `Parsing` (`parsing.dfy`): the class `Parser`, which drives a shared
  `Tokenizer` as the Kotlin class does. Every method is proved to return and
  move the cursor exactly as the matching `Grammar` function.
- `ParserLaws` (`parser_laws.dfy`): which trees the parser can build.
- `ParserExamples` (`parser_examples.dfy`): the parses that the precedence,
  grouping and error rules promise, worked out on concrete texts.
- `ParseErrors` (`parse_errors.dfy`): the error report and its line and
  column arithmetic.
- `Combinators` (`combinators.dfy`): `ParserC` as function values, and its
  laws.

Fuel stands in for the JVM stack. A read of a variable bound to an expression
consumes one unit, and so does running a function body. When the fuel runs
out, the result is `StackExhausted`, which is how `x = x + 1; x` ends.

### Where the tests and the code disagree

- `TokenizerTests.kt:41` expects `boolean()` on `truthy` to return null. The
  code matches `true` as a plain prefix, so it returns `true` and leaves `thy`.
  The model follows the code: `Scanner.BooleanReadsPrefix`.
- Keywords are matched as plain prefixes too. `letter = a` parses as
  `let ter = a`: `ParserExamples.KeywordPrefix`.
- `ParserTests.kt` and `IntegrationTests.kt` use an older API. Only the tree
  shapes they expect are taken from them.

## Model

| member | source | states |
|---|---|---|
| Common.Wrap32Congruent | src/main/kotlin/interpreter/Value.kt:60-80 | 32-bit wrap-around differs from the exact result by a multiple of 2^32, and leaves in-range results alone |
| Common.TruncDivRemainder | src/main/kotlin/interpreter/Value.kt:117-133 | truncating division leaves a remainder smaller than the divisor in magnitude, with the sign of the dividend |
| Common.NatToString | src/main/kotlin/interpreter/Value.kt:37-42 | the decimal rendering is a non-empty run of digits with no leading zero |
| Common.IntToString | src/main/kotlin/interpreter/Value.kt:37-42 | the rendering is non-empty and starts with `-` exactly for negative numbers |
| Common.NatToStringRoundTrip | src/main/kotlin/interpreter/Value.kt:37-42 | reading the digits of a rendered natural gives the number back |
| Common.ToIntOrNull | src/main/kotlin/parser/Tokenizer.kt:91-110 | `toIntOrNull` succeeds only on non-empty text |
| Common.IntToStringRoundTrip | src/main/kotlin/parser/Tokenizer.kt:91-110 | `toIntOrNull` of the rendering of any 32-bit integer gives that integer |
| Scanner.SkipWs | src/main/kotlin/parser/Tokenizer.kt:62-66 | skipping whitespace never moves back, steps only over whitespace, and stops at the end or on a non-whitespace character |
| Scanner.IdentEnd | src/main/kotlin/parser/Tokenizer.kt:77-89 | the identifier run is maximal: identifier characters up to it, none at it |
| Scanner.DigitEnd | src/main/kotlin/parser/Tokenizer.kt:91-110 | the digit run is maximal |
| Scanner.QuoteEnd | src/main/kotlin/parser/Tokenizer.kt:112-134 | the string scan stops on the closing quote or at the end of the text |
| Scanner.MatchReadsLiteral | src/main/kotlin/parser/Tokenizer.kt:68-73 | `match(s)` succeeds exactly when the characters at the cursor are those of `s`, and then advances by exactly `|s|` |
| Scanner.NumberReadsIntToString | src/main/kotlin/parser/Tokenizer.kt:91-110 | `number()` on the decimal text of any 32-bit integer reads that integer and stops after its digits |
| Scanner.IntToStringDigits | src/main/kotlin/parser/Tokenizer.kt:91-110 | a rendering is digits after an optional `-` |
| Scanner.IdentEndOfRun | src/main/kotlin/parser/Tokenizer.kt:77-89 | the identifier run ends exactly where the identifier characters stop |
| Scanner.IdentifierReadsName | src/main/kotlin/parser/Tokenizer.kt:77-89 | `identifier()` on a name followed by a non-identifier character returns exactly that name |
| Scanner.QuoteEndOfPlainRun | src/main/kotlin/parser/Tokenizer.kt:112-134 | with no backslash before it, the first matching quote closes the string |
| Scanner.StringRawReadsQuoted | src/main/kotlin/parser/Tokenizer.kt:112-134 | `string()` on a quoted text without quotes or backslashes returns that text and ends one past the closing quote |
| Scanner.BooleanReadsPrefix | src/main/kotlin/parser/Tokenizer.kt:136-150 | `boolean()` reads `true`/`false` as a prefix whatever follows, so `truthy` reads as true |
| Scanner.Tokenizer.constructor | src/main/kotlin/parser/Tokenizer.kt:55-58 | a new tokenizer stands at position 0 of its input |
| Scanner.Tokenizer.HasMore | src/main/kotlin/parser/Tokenizer.kt:60 | true exactly while the cursor is inside the input |
| Scanner.Tokenizer.SkipWhitespace | src/main/kotlin/parser/Tokenizer.kt:62-66 | the loop leaves the cursor where `SkipWs` says |
| Scanner.Tokenizer.Match | src/main/kotlin/parser/Tokenizer.kt:68-73 | returns whether the text matched, and moves the cursor past it only then |
| Scanner.Tokenizer.Peek | src/main/kotlin/parser/Tokenizer.kt:75 | the character at the cursor, or none at the end, without moving |
| Scanner.Tokenizer.Identifier | src/main/kotlin/parser/Tokenizer.kt:77-89 | the loop reads and moves exactly as `IdentifierAt`: nothing and no move on a non-start character |
| Scanner.Tokenizer.Number | src/main/kotlin/parser/Tokenizer.kt:91-110 | reads as `NumberAt`: a lone `-` restores the cursor, an out-of-range literal is null with the cursor after its digits |
| Scanner.Tokenizer.String | src/main/kotlin/parser/Tokenizer.kt:112-134 | reads as `StringRaw`: raw text, end one past the closing quote, null at the end of the text when unterminated |
| Scanner.Tokenizer.Boolean | src/main/kotlin/parser/Tokenizer.kt:136-150 | reads as `BooleanAt` |
| Values.AsInt | src/main/kotlin/interpreter/Value.kt:24-35 | `asInt` fails exactly on strings, with that value in the error |
| Values.AsString | src/main/kotlin/interpreter/Value.kt:37-42 | `asString` fails exactly on booleans |
| Values.AsBool | src/main/kotlin/interpreter/Value.kt:44-49 | `asBool` fails exactly on strings |
| Values.CoercionsAgree | src/main/kotlin/interpreter/Value.kt:24-49 | `asBool` and `asInt` accept the same values, and `asBool` is true exactly when `asInt` is positive |
| Values.AddMeaning | src/main/kotlin/interpreter/Value.kt:60-80 | without booleans, ints add with wrap-around and anything with a string concatenates the decimal renderings |
| Values.AddTotal | src/main/kotlin/interpreter/Value.kt:60-80 | addition fails exactly when a boolean meets a string |
| Values.AddIntsCommute | src/main/kotlin/interpreter/Value.kt:60-80 | integer addition commutes |
| Values.RepeatContents | src/main/kotlin/interpreter/Value.kt:82-99 | a string repeated `n` times has `n` times its length and cycles through its characters |
| Values.MultiplyStringRepeats | src/main/kotlin/interpreter/Value.kt:82-99 | string times a non-negative int repeats the string; a negative count fails |
| Values.MultiplyMeaning | src/main/kotlin/interpreter/Value.kt:82-99 | numbers multiply as coerced ints; a string on the right always fails; a string times a boolean fails in `asInt` |
| Values.SubtractMeaning | src/main/kotlin/interpreter/Value.kt:101-115 | subtraction succeeds exactly without strings, and is then the wrapped difference of the coerced ints |
| Values.TruncDivInRange | src/main/kotlin/interpreter/Value.kt:117-133 | truncating division of 32-bit ints stays in range, except `MinInt / -1` |
| Values.DivideInts | src/main/kotlin/interpreter/Value.kt:117-133 | int division fails exactly on a zero divisor, truncates otherwise, and `MinInt / -1` wraps to `MinInt` |
| Values.DivideByFalse | src/main/kotlin/interpreter/Value.kt:117-133 | the boolean branch has no zero check: dividing by `false` is a JVM arithmetic fault |
| Values.LogicOnTruthiness | src/main/kotlin/interpreter/Value.kt:135-179 | and, or and neg on non-strings are boolean logic on truthiness |
| Values.DeMorgan | src/main/kotlin/interpreter/Value.kt:135-179 | `neg(and(l, r)) == or(neg(l), neg(r))` on non-strings |
| Values.ShortCircuit | src/main/kotlin/interpreter/Value.kt:135-164 | a falsy int left of and, or a truthy one left of or, decides without converting the right side |
| Values.CompareMeaning | src/main/kotlin/interpreter/Value.kt:181-254 | every comparison fails exactly on strings, and otherwise is the boolean of the relation on the coerced ints |
| Values.LessThanFlips | src/main/kotlin/interpreter/Value.kt:181-209 | `l < r` and `r > l` agree |
| Values.ComparisonDuality | src/main/kotlin/interpreter/Value.kt:181-239 | `<=` is the negation of `>`, and `>=` the negation of `<` |
| Values.EqualsBehaviour | src/main/kotlin/interpreter/Value.kt:241-254 | equality is reflexive on ints and booleans and refuses strings |
| Ast.ExprSize | src/main/kotlin/interpreter/Expression.kt:7-88 | every expression has positive size |
| Ast.ArgSmaller | src/main/kotlin/interpreter/Expression.kt:25-28 | each argument, and each tail of the arguments, is smaller than the call |
| Semantics.Eval | src/main/kotlin/interpreter/Expression.kt:90-142 | evaluation keeps the table's names, evolves the table (functions and constants unchanged, mutable variables stay mutable) and keeps every symbol under its own name |
| Semantics.EvalBinary | src/main/kotlin/interpreter/Expression.kt:130-141 | lhs, then rhs, then the operator, with the same table guarantees |
| Semantics.ApplyRight | src/main/kotlin/interpreter/Expression.kt:130-141 | the right operand after the left, with the same table guarantees |
| Semantics.GetVariable | src/main/kotlin/interpreter/Environment.kt:57-66 | a read keeps every name and never changes a function or a constant (the read rules themselves are `EvalLaws.ReadRules`) |
| Semantics.AssignVariable | src/main/kotlin/interpreter/Environment.kt:39-55 | assignment keeps the table's names and every symbol's name and modifier |
| Semantics.DeclareVariable | src/main/kotlin/interpreter/Environment.kt:16-24 | a declared name fails with `AlreadyDeclared` and leaves the table as it was; a new name without initializer gets a variable holding the default 0 and bound to nothing; a successful declaration adds exactly its name, a failed one adds none |
| Semantics.DeclareFunction | src/main/kotlin/interpreter/Environment.kt:27-37 | succeeds exactly for a new name, adding that function; otherwise fails with the table unchanged |
| Semantics.GetFunction | src/main/kotlin/interpreter/Environment.kt:68-75 | succeeds exactly on a function, returning it; otherwise names the missing or non-function symbol |
| Semantics.GetSymbols | src/main/kotlin/interpreter/Environment.kt:77 | the symbols returned are exactly the table's |
| Semantics.CallFunction | src/main/kotlin/interpreter/Expression.kt:103-128 | a call keeps the caller's names and evolves the caller's table |
| Semantics.BindArgs | src/main/kotlin/interpreter/Expression.kt:113-117 | arguments evaluate in the caller's table, with the same table guarantees |
| Semantics.RunBody | src/main/kotlin/interpreter/Expression.kt:119-127 | the body runs in the inner table and evolves it |
| Semantics.Step | src/main/kotlin/interpreter/Statement.kt:58-79 | a statement evolves the table and keeps every symbol under its own name |
| Runtime.Environment.constructor | src/main/kotlin/interpreter/Environment.kt:13 | a new environment is empty |
| Runtime.Environment.DeclareVariable | src/main/kotlin/interpreter/Environment.kt:16-24 | result and new table are those of `Semantics.DeclareVariable` |
| Runtime.Environment.DeclareFunction | src/main/kotlin/interpreter/Environment.kt:27-37 | result and new table are those of `Semantics.DeclareFunction` |
| Runtime.Environment.AssignVariable | src/main/kotlin/interpreter/Environment.kt:39-55 | result and new table are those of `Semantics.AssignVariable` |
| Runtime.Environment.GetVariable | src/main/kotlin/interpreter/Environment.kt:57-66 | result and new table are those of `Semantics.GetVariable` |
| Runtime.Environment.GetFunction | src/main/kotlin/interpreter/Environment.kt:68-75 | the result of `Semantics.GetFunction` |
| Runtime.Environment.GetSymbols | src/main/kotlin/interpreter/Environment.kt:77 | the symbols of `Semantics.GetSymbols` |
| Runtime.Evaluate | src/main/kotlin/interpreter/Expression.kt:90-142 | the in-place evaluation gives `Semantics.Eval`'s value and table |
| Runtime.EvaluateBinary | src/main/kotlin/interpreter/Expression.kt:130-141 | the in-place binary evaluation matches `EvalBinary` |
| Runtime.EvaluateRight | src/main/kotlin/interpreter/Expression.kt:130-141 | matches `ApplyRight` |
| Runtime.CallFunction | src/main/kotlin/interpreter/Expression.kt:103-128 | the call protocol on a fresh inner environment matches `Semantics.CallFunction` |
| Runtime.BindArguments | src/main/kotlin/interpreter/Expression.kt:113-117 | the binding loop matches `BindArgs`: the inner table it builds and the caller's table it leaves |
| Runtime.RunFunctionBody | src/main/kotlin/interpreter/Expression.kt:119-127 | the body loop stops at the first return and matches `RunBody` |
| Runtime.Step | src/main/kotlin/interpreter/Statement.kt:58-79 | the in-place step matches `Semantics.Step` |
| EvalLaws.EvalKeepsPureTable | src/main/kotlin/interpreter/Expression.kt:90-142 | an expression without assignments, evaluated in a table whose bound expressions have no assignments either, leaves the table unchanged |
| EvalLaws.BinaryKeepsPureTable | src/main/kotlin/interpreter/Expression.kt:130-141 | the same for binary nodes |
| EvalLaws.GetVariableKeepsPureTable | src/main/kotlin/interpreter/Environment.kt:57-66 | the same for reads |
| EvalLaws.CallKeepsPureTable | src/main/kotlin/interpreter/Expression.kt:103-128 | the same for calls |
| EvalLaws.BindKeepsPureTable | src/main/kotlin/interpreter/Expression.kt:113-117 | the same for argument binding |
| EvalLaws.ReadRules | src/main/kotlin/interpreter/Environment.kt:57-66 | a read of a missing name fails with `NotDefined`, of a function with `NotAVariable`, of a variable without bound expression gives the stored value or 0, and of a bound variable gives its expression evaluated again against the current table |
| EvalLaws.AssignFailures | src/main/kotlin/interpreter/Environment.kt:39-51 | assignment to a missing name, a function or a constant fails with `NotDefined`, `NotAVariable` or `ConstReassignment` and leaves the table as it was |
| EvalLaws.AssignReplacesOnlyThatEntry | src/main/kotlin/interpreter/Environment.kt:39-55 | assignment of an expression without assignments to a mutable variable fails without change when the value fails, and otherwise replaces only that entry, keeping name and modifier and storing the new value and expression |
| EvalLaws.DeclareStoresValue | src/main/kotlin/interpreter/Environment.kt:16-23 | declaring a new name with an initializer without assignments fails without change when the value fails, and otherwise adds a variable holding the initializer's value and bound to the initializer |
| EvalLaws.AssignmentGivesValueAndBinds | src/main/kotlin/interpreter/Expression.kt:92-98 | an assignment expression yields the value of its right side and binds the name to that expression |
| EvalLaws.ConstantsStay | src/main/kotlin/interpreter/Environment.kt:49-51 | no evaluation changes a constant or a function |
| EvalLaws.DeclaringTwiceFails | src/main/kotlin/interpreter/Environment.kt:21 | after a successful declaration, declaring the same name again, as variable or as function, fails and leaves the table unchanged |
| EvalLaws.ReadsFollowAssignments | src/main/kotlin/interpreter/Environment.kt:57-66 | `d = a + b` reads `a + b`, and after `a` is reassigned it reads the new sum (the reactive law) |
| EvalLaws.ReadSum | src/main/kotlin/interpreter/Environment.kt:57-66 | a variable bound to `a + b` reads the wrapped sum of their literals and leaves the table unchanged |
| EvalLaws.SelfReadExhausts | src/main/kotlin/interpreter/Environment.kt:65 | an expression that reads a variable whose expression reads itself first never finishes, for any fuel |
| EvalLaws.IncrementMakesReadsLoop | src/main/kotlin/interpreter/Expression.kt:92-98 | `x = x + 1` yields the incremented value, and afterwards every read of `x` exhausts the stack |
| CallLaws.ArityMismatchFailsFirst | src/main/kotlin/interpreter/Expression.kt:104-111 | a wrong argument count fails before any argument is evaluated, with the table unchanged |
| CallLaws.ParamSet | src/main/kotlin/interpreter/Symbol.kt:18-22 | the set of a parameter list holds exactly its names |
| CallLaws.BindStep | src/main/kotlin/interpreter/Expression.kt:113-117 | a successful binding evaluates the first argument in the caller's table and binds a fresh name to it as a mutable literal |
| CallLaws.BindArgsTable | src/main/kotlin/interpreter/Expression.kt:113-117 | the inner table holds exactly the parameters, each bound to a literal |
| CallLaws.BindArgsFreshParams | src/main/kotlin/interpreter/Expression.kt:113-117 | a successful binding had distinct parameters |
| CallLaws.DuplicateParamsFail | src/main/kotlin/interpreter/Expression.kt:113-117 | a function with a repeated parameter name fails on every call of the right arity |
| CallLaws.CalleeSeesOnlyParams | src/main/kotlin/interpreter/Expression.kt:113 | a body that returns a non-parameter fails with "not defined": the callee does not see the caller's table |
| CallLaws.ReturnStopsBody | src/main/kotlin/interpreter/Expression.kt:119-127 | the first executed return decides the result; later statements do not run |
| CallLaws.NoReturnGivesVoid | src/main/kotlin/interpreter/Expression.kt:123-124 | a body without return gives -999 |
| CallLaws.CallGives | src/main/kotlin/interpreter/Expression.kt:103-128 | a call whose arguments bind without touching the caller's table, and whose body gives a value, gives that value and leaves the caller's table as it was |
| CallLaws.AddFiveSeven | src/test/kotlin/interpreter/EvalTests.kt:265-310 | `add(5, 7)` gives 12 and leaves the caller's table unchanged |
| CallLaws.AddBodyGivesTwelve | src/main/kotlin/interpreter/Expression.kt:119-127 | the body of `add` on 5 and 7 returns 12 |
| CallLaws.ReadArguments | src/main/kotlin/interpreter/Expression.kt:116 | the bound parameters read back the arguments |
| CallLaws.BindFiveSeven | src/main/kotlin/interpreter/Expression.kt:113-117 | binding 5 and 7 to `a` and `b` builds exactly the table of two mutable literals |
| Programs.Red | src/main/kotlin/interactive/ConsoleColors.kt:25 | the red text is the text between two colour codes |
| Programs.TopLevel | src/main/kotlin/interpreter/Program.kt:32-36 | a top-level step evolves the table |
| Programs.ExecuteAll | src/main/kotlin/interpreter/Program.kt:32-36 | running the statements evolves the table |
| Programs.EvalLineOf | src/main/kotlin/interpreter/Program.kt:76-82 | evaluating a line evolves the table |
| Programs.AssignRequest | src/main/kotlin/interpreter/Program.kt:84-91 | an assignment request evolves the table |
| Programs.Serve | src/main/kotlin/interpreter/Program.kt:99-118 | a request evolves the table |
| Programs.Program.constructor | src/main/kotlin/interpreter/Program.kt:26-29 | a program owns its statements and a fresh, empty environment |
| Programs.Program.Execute | src/main/kotlin/interpreter/Program.kt:32-36 | the loop over the statements matches `ExecuteAll` |
| Programs.Program.EvalLine | src/main/kotlin/interpreter/Program.kt:76-82 | matches `EvalLineOf` |
| Programs.Program.TopLevelStep | src/main/kotlin/interpreter/Program.kt:33-35 | matches `TopLevel` |
| Programs.Program.AssignVariable | src/main/kotlin/interpreter/Program.kt:84-91 | matches `AssignRequest` |
| Programs.Program.InvokeFunction | src/main/kotlin/interpreter/Program.kt:93-96 | the stub answers 4 whatever it is asked |
| Programs.Program.ExecuteRequest | src/main/kotlin/interpreter/Program.kt:99-111 | matches `Serve` |
| ProgramLaws.ExecuteAppend | src/main/kotlin/interpreter/Program.kt:32-36 | running `p + q` runs `p`, then `q` from where `p` left the table, unless `p` failed |
| ProgramLaws.DeclaredName | src/main/kotlin/interpreter/Statement.kt:60-72 | exactly declarations and function declarations declare a name |
| ProgramLaws.ExecuteDeclares | src/main/kotlin/interpreter/Program.kt:32-36 | after a successful run every declared name is in the table |
| ProgramLaws.EvalLineRedeclares | src/main/kotlin/interpreter/Program.kt:76-82 | re-evaluating a declaring line after a run fails as a duplicate |
| ProgramLaws.OutOfRangeLine | src/main/kotlin/interpreter/Program.kt:77-79 | an out-of-range line number answers the red message and changes nothing |
| ProgramLaws.ReadLiteral | src/main/kotlin/interpreter/Environment.kt:65 | a variable bound to a literal reads that literal |
| ProgramLaws.AddReads | src/main/kotlin/interpreter/Expression.kt:130 | the sum of two reads is the wrapped sum of their values |
| ProgramLaws.ExecuteCons | src/main/kotlin/interpreter/Program.kt:32-36 | running `s` then the rest stops at the first failure |
| ProgramLaws.DeclareLiteral | src/main/kotlin/interpreter/Statement.kt:60-63 | declaring a new name with a literal answers "Declared variable" and binds it |
| ProgramLaws.RunDeclarations | src/test/kotlin/interpreter/EvalTests.kt:72-78 | the scenario's declarations build the expected table |
| ProgramLaws.DeclaredReads | src/test/kotlin/interpreter/EvalTests.kt:75-78 | after them a, b, c, d read 1, 2, 3, 3 |
| ProgramLaws.SumOfCAndD | src/test/kotlin/interpreter/EvalTests.kt:72 | `c + d` gives 6 |
| ProgramLaws.ScenarioRun | src/test/kotlin/interpreter/EvalTests.kt:72-78 | the whole scenario runs and leaves a=1, b=2, c=3, d=3 |
| ProgramLaws.ScenarioReactive | src/test/kotlin/interpreter/EvalTests.kt:80-82 | the request `a = 2` answers "ok" and then `d` reads 4 |
| ProgramLaws.ConstRequestFails | src/test/kotlin/interpreter/EvalTests.kt:148-152 | a request to reassign the constant fails and changes nothing |
| ProgramLaws.ConstReassignmentInProgram | src/test/kotlin/interpreter/EvalTests.kt:219-227 | a program that reassigns a constant fails with that error |
| ProgramLaws.DuplicateNameFails | src/test/kotlin/interpreter/EvalTests.kt:230-262 | a program that declares a name twice fails as a duplicate |
| ProgramLaws.RunAddProgram | src/test/kotlin/interpreter/EvalTests.kt:265-310 | declaring `add` and `result = add(5, 7)` builds the expected table |
| ProgramLaws.AddProgramResult | src/test/kotlin/interpreter/EvalTests.kt:265-310 | `result` then reads 12 |
| Grammar.ParseExpression | src/main/kotlin/parser/Parser.kt:183 | the cursor stays in the text and never moves back; a non-null result consumed something |
| Grammar.ParseAssignment | src/main/kotlin/parser/Parser.kt:185-223 | the same cursor guarantees |
| Grammar.ParseOperand | src/main/kotlin/parser/Parser.kt:214-222 | the same cursor guarantees |
| Grammar.AssignedValue | src/main/kotlin/parser/Parser.kt:193-212 | a parsed assignment always has a value |
| Grammar.ParseAdditive | src/main/kotlin/parser/Parser.kt:230-259 | the same cursor guarantees |
| Grammar.ParseMultiplicative | src/main/kotlin/parser/Parser.kt:261-290 | the same cursor guarantees |
| Grammar.ParsePrimary | src/main/kotlin/parser/Parser.kt:324-369 | the same cursor guarantees |
| Grammar.ParseArgumentList | src/main/kotlin/parser/Parser.kt:296-322 | the cursor stays in the text |
| Grammar.ParseStatement | src/main/kotlin/parser/Parser.kt:29-86 | the same cursor guarantees |
| Grammar.ParseDeclaration | src/main/kotlin/parser/Parser.kt:36-80 | the cursor stays in the text |
| Grammar.ParseFunctionDeclaration | src/main/kotlin/parser/Parser.kt:88-116 | the cursor stays in the text |
| Grammar.ParseParameterList | src/main/kotlin/parser/Parser.kt:118-143 | the cursor stays in the text |
| Grammar.ParseFunctionBody | src/main/kotlin/parser/Parser.kt:145-172 | the cursor stays in the text |
| Parsing.Ran | src/main/kotlin/parser/Parser.kt:17-27 | a method's outcome reads as a successful parse exactly when it did not throw |
| Parsing.Parser.constructor | src/main/kotlin/parser/Parser.kt:12-15 | the parser's tokenizer reads its source from position 0 |
| Parsing.Parser.Parse | src/main/kotlin/parser/Parser.kt:17-27 | the statement loop gives the statements or the error of `ParseProgram` |
| Parsing.Parser.ParseStatement | src/main/kotlin/parser/Parser.kt:29-86 | result and cursor are those of `Grammar.ParseStatement` |
| Parsing.Parser.ParseDeclaration | src/main/kotlin/parser/Parser.kt:36-80 | result and cursor are those of `Grammar.ParseDeclaration` |
| Parsing.Parser.ParseFunctionDeclaration | src/main/kotlin/parser/Parser.kt:88-116 | result and cursor are those of `Grammar.ParseFunctionDeclaration` |
| Parsing.Parser.FunctionBodyAfter | src/main/kotlin/parser/Parser.kt:101-115 | result and cursor are those of `Grammar.FunctionBodyAfter` |
| Parsing.Parser.ParseParameterList | src/main/kotlin/parser/Parser.kt:118-143 | the parameter loop matches `Grammar.ParseParameterList` |
| Parsing.Parser.ParseFunctionBody | src/main/kotlin/parser/Parser.kt:145-172 | the body loop matches `Grammar.ParseFunctionBody` |
| Parsing.Parser.ParseReturn | src/main/kotlin/parser/Parser.kt:153-161 | matches `Grammar.ReturnClause` |
| Parsing.Parser.ParseExpression | src/main/kotlin/parser/Parser.kt:183 | result and cursor are those of `Grammar.ParseExpression` |
| Parsing.Parser.ParseAssignment | src/main/kotlin/parser/Parser.kt:185-223 | matches `Grammar.ParseAssignment`, including the restore of the cursor to the identifier's start |
| Parsing.Parser.AssignedValue | src/main/kotlin/parser/Parser.kt:193-212 | matches `Grammar.AssignedValue` |
| Parsing.Parser.ParseOperand | src/main/kotlin/parser/Parser.kt:214-222 | matches `Grammar.ParseOperand` |
| Parsing.Parser.ParseAdditive | src/main/kotlin/parser/Parser.kt:230-259 | the left-folding loop matches `Grammar.ParseAdditive` |
| Parsing.Parser.ParseMultiplicative | src/main/kotlin/parser/Parser.kt:261-290 | the left-folding loop matches `Grammar.ParseMultiplicative` |
| Parsing.Parser.ParsePrimary | src/main/kotlin/parser/Parser.kt:324-369 | matches `Grammar.ParsePrimary` |
| Parsing.Parser.ParseNameOrGroup | src/main/kotlin/parser/Parser.kt:346-368 | matches `Grammar.ParseNameOrGroup` |
| Parsing.Parser.ParseCall | src/main/kotlin/parser/Parser.kt:348-353 | matches `Grammar.ParseCall` |
| Parsing.Parser.ParseParenthesised | src/main/kotlin/parser/Parser.kt:358-364 | matches `Grammar.ParseParenthesised` |
| Parsing.Parser.ParseArgumentList | src/main/kotlin/parser/Parser.kt:296-322 | the argument loop matches `Grammar.ParseArgumentList` |
| Parsing.ParseSource | src/main/kotlin/parser/Parser.kt:12-27 | a parser over a text returns the statements, or the error, of `ParseProgram` |
| ParserLaws.ExpressionBuildable | src/main/kotlin/parser/Parser.kt:183-369 | a parsed expression only uses literals, variables, calls, the four arithmetic operators and non-nested assignments |
| ParserLaws.AssignmentBuildable | src/main/kotlin/parser/Parser.kt:185-223 | the same for assignments: the value of an assignment is never itself one |
| ParserLaws.AdditiveBuildable | src/main/kotlin/parser/Parser.kt:230-259 | the same for the additive level |
| ParserLaws.MultiplicativeBuildable | src/main/kotlin/parser/Parser.kt:261-290 | the same for the multiplicative level |
| ParserLaws.PrimaryBuildable | src/main/kotlin/parser/Parser.kt:324-369 | the same for primaries |
| ParserLaws.ArgumentListBuildable | src/main/kotlin/parser/Parser.kt:296-322 | every parsed argument is buildable |
| ParserLaws.StatementWellFormed | src/main/kotlin/parser/Parser.kt:29-86 | a parsed statement is well formed and never a `return` |
| ParserLaws.DeclarationWellFormed | src/main/kotlin/parser/Parser.kt:36-80 | a declaration stores no value and a buildable, non-assignment initializer |
| ParserLaws.FunctionDeclarationWellFormed | src/main/kotlin/parser/Parser.kt:88-116 | a parsed function has a `return` in its body, and its statements are well formed |
| ParserLaws.BodyFromWellFormed | src/main/kotlin/parser/Parser.kt:145-172 | the body loop keeps its statements well formed and reaches `}` only after a `return` |
| ParserLaws.ReturnClauseWellFormed | src/main/kotlin/parser/Parser.kt:153-161 | a return clause adds a well-formed `return` |
| ParserLaws.ProgramWellFormed | src/main/kotlin/parser/Parser.kt:17-27 | every accepted program is well-formed statements, none a `return` |
| ParserExamples.Precedence | src/main/kotlin/parser/Parser.kt:230-290 | `a + b * c - d / e` parses as `Sub(Add(a, Mul(b, c)), Div(d, e))` over the whole text |
| ParserExamples.Grouping | src/main/kotlin/parser/Parser.kt:358-364 | `(a + b) * c` parses as `Mul(Add(a, b), c)` |
| ParserExamples.ChainedAssignment | src/main/kotlin/parser/Parser.kt:202-209 | `x = y = z` throws the nested-assignment error |
| ParserExamples.DoubleEquals | src/main/kotlin/parser/Parser.kt:193-200 | `a == b` throws the multiple-assignment error at the second `=` |
| ParserExamples.LiteralTarget | src/main/kotlin/parser/Parser.kt:216-221 | `5 = x` throws the invalid-left-side error at the `=` |
| ParserExamples.ChainedLet | src/main/kotlin/parser/Parser.kt:36-57 | `let x = y = z;` throws "Expected expression after '='" |
| ParserExamples.KeywordPrefix | src/main/kotlin/parser/Parser.kt:36-57 | `letter = a` declares `ter` |
| ParserExamples.BodyWithoutReturn | src/main/kotlin/parser/Parser.kt:163-166 | a function body without `return` throws at its `}` |
| ParserExamples.FunctionWithReturn | src/main/kotlin/parser/Parser.kt:88-172 | `function f() { return x; }` parses with an empty parameter list |
| ParserExamples.SilentStop | src/main/kotlin/parser/Parser.kt:17-27 | `parse` stops silently at a statement that cannot start, keeping the ones before it |
| ParserExamples.MissingOperand | src/main/kotlin/parser/Parser.kt:236-243 | `a +` throws "Expected expression after +" |
| ParserExamples.Unclosed | src/main/kotlin/parser/Parser.kt:358-362 | `(a` throws the unclosed-parenthesis error |
| ParseErrors.Lines | src/main/kotlin/parser/ParserException.kt:8 | `lines()` gives at least one line |
| ParseErrors.LinesHaveNoBreaks | src/main/kotlin/parser/ParserException.kt:8 | no line holds a line break |
| ParseErrors.JoinLines | src/main/kotlin/parser/ParserException.kt:8 | without `\r`, the lines joined by `\n` give the source back |
| ParseErrors.JoinLength | src/main/kotlin/parser/ParserException.kt:10-18 | the joined text ends where the last line ends |
| ParseErrors.JoinIndex | src/main/kotlin/parser/ParserException.kt:10-18 | the character at line start plus column is that line's character, or the newline after it |
| ParseErrors.Walk | src/main/kotlin/parser/ParserException.kt:10-18 | the located column never exceeds the located line's length |
| ParseErrors.Position | src/main/kotlin/parser/ParserException.kt:10-23 | the line number is 1-based and in range, and the column is within that line |
| ParseErrors.WalkFindsLine | src/main/kotlin/parser/ParserException.kt:10-18 | an offset inside line k, or at its end, is found on line k at that column |
| ParseErrors.WalkRecoversOffset | src/main/kotlin/parser/ParserException.kt:10-18 | line start plus column gives the offset back |
| ParseErrors.WalkPastEnd | src/main/kotlin/parser/ParserException.kt:10-20 | the loop runs past the last line exactly for offsets past the end of the text |
| ParseErrors.PositionFindsLine | src/main/kotlin/parser/ParserException.kt:10-23 | each line and column inside the text is reported as itself, 1-based |
| ParseErrors.PositionRecoversOffset | src/main/kotlin/parser/ParserException.kt:10-23 | for offsets inside the text, the report points back at the offset |
| ParseErrors.PositionClamps | src/main/kotlin/parser/ParserException.kt:20-23 | offsets past the end clamp to the end of the last line |
| ParseErrors.Repeat | src/main/kotlin/parser/ParserException.kt:30 | `repeat` gives `n` copies of the character |
| ParseErrors.Caret | src/main/kotlin/parser/ParserException.kt:30 | the caret line is `column` spaces, `^`, then `min(3, length - column)` tildes |
| ParseErrors.CaretUnderOffendingCharacter | src/main/kotlin/parser/ParserException.kt:10-31 | the reported line's character at the reported column is the source character at the offset |
| ParseErrors.Locate | src/main/kotlin/parser/ParserException.kt:10-23 | the loop and the clamp give `Position` |
| ParseErrors.PrettyPrintParseError | src/main/kotlin/parser/ParserException.kt:3-33 | the report is the header, the offending line and the caret line |
| Combinators.MapKeepsPosition | src/main/kotlin/parser/ParserC.kt:17-26 | `map` fails exactly when the inner parser does, keeps its end and transforms only the value |
| Combinators.MapIdentity | src/main/kotlin/parser/ParserC.kt:17-26 | mapping the identity changes nothing |
| Combinators.MapFusion | src/main/kotlin/parser/ParserC.kt:17-26 | two maps are one map of the composition |
| Combinators.AndThreadsPosition | src/main/kotlin/parser/ParserC.kt:28-38 | `and` runs the second parser from the first one's end and fails if either fails |
| Combinators.AndAssociative | src/main/kotlin/parser/ParserC.kt:28-38 | `and` is associative up to regrouping the pairs |
| Combinators.OrPrefersFirst | src/main/kotlin/parser/ParserC.kt:40-46 | `or` tries the right parser, at the same position, only when the left one fails |
| Combinators.OrAssociative | src/main/kotlin/parser/ParserC.kt:40-46 | `or` is associative |
| Combinators.OrFailNeutral | src/main/kotlin/parser/ParserC.kt:40-46 | a parser that always fails is neutral for `or` |
| Combinators.MapOverOr | src/main/kotlin/parser/ParserC.kt:17-46 | `map` distributes over `or` |
| Combinators.ParseWhitespace | src/main/kotlin/parser/ParserC.kt:50-62 | the loop always succeeds, steps only over whitespace and ends at the end or on a non-whitespace character |
| Combinators.StringAgreesWithMatch | src/main/kotlin/parser/ParserC.kt:64-74 | `string(s)` succeeds exactly where `match(s)` does and ends at the same place |
| Combinators.BooleanAgreesWithTokenizer | src/main/kotlin/parser/ParserC.kt:131 | the combinator `boolean` reads exactly what `Tokenizer.boolean()` reads |
| Combinators.ParseStringLiteral | src/main/kotlin/parser/ParserC.kt:94-129 | the decoding loop gives `StringLiteralAt` |
| Combinators.DecodedIsUnescape | src/main/kotlin/parser/ParserC.kt:108-121 | the decoded text is the raw text with `\n`, `\t`, `\r` decoded and other escapes passed through |
| Combinators.StringLiteralAgreesWithTokenizer | src/main/kotlin/parser/ParserC.kt:94-129 | `stringLiteral` succeeds exactly where `Tokenizer.string()` does, ends at the same place, and gives the unescaped raw text |
| Combinators.QuoteEndOfEncoded | src/main/kotlin/parser/ParserC.kt:108-121 | the closing quote of an encoded text is found right after it |
| Combinators.DecodesEncoded | src/main/kotlin/parser/ParserC.kt:108-121 | decoding an encoded text gives the text back |
| Combinators.StringLiteralReadsEncoded | src/main/kotlin/parser/ParserC.kt:94-129 | any text, escaped and quoted, reads back as itself, ending after the closing quote |

## Left out

- The interactive layer is not part of this model: `Interactor.kt`, `InterpreterGUI.kt` and `REPLInterpreter.kt`. It is input, output and a UI.
- `ConsoleColors.kt` is modelled only through `Programs.Red`, the red wrapping of the out-of-range message.
- `Program.formatStatement`, `formatExpression`, `toString` and the `PrintInfo`/`PrintHelp` requests are left out. They render diagnostics and use members the current AST does not have.
- The `evaluator` package is left out. It is an earlier, superseded interpreter that does not build against the current code.
- `Function.kt` is left out; it is an unused duplicate of `Symbol.Function`.
- `Parser.parseFuncExpr` is left out; nothing calls it.
- `parseFunctionCall` is folded into `Grammar.ParseCall` and `Parsing.Parser.ParseCall`, which also read the closing `)`.
- The `let` and `const` branches of `parseStatement` are one function, `ParseDeclaration`, over the modifier; the two branches differ only in the modifier.
- `ParserC.regex`, `identifier` and `integer` are left out. They are thin wrappers over `kotlin.text.Regex`.
- `ReturnValueE` and `UndefinedBehaviourException` are not classes here. They are the `Return` completion and the `Error` variants.
- Host faults are explicit errors: the JVM's division by zero (`ArithmeticFault`), `repeat` with a negative count (`NegativeRepeatCount`), a stack overflow (`StackExhausted`, reached when the fuel runs out) and a `return` that escapes to the top level (`UncaughtReturn`).
- Semantics.Eval: fuel bounds the depth of re-evaluating reads and of calls. A run that the JVM would finish with a deeper stack than the fuel allows reports `StackExhausted` instead.
- Semantics.GetSymbols: returns a set, so the insertion order of the `LinkedHashMap` behind `getSymbols()` is not modelled.
- Character classes are ASCII: letters, digits and whitespace as `isLetter`, `isDigit` and `isWhitespace` see them in the ASCII range only.
- Combinators.ToBoolean: `String.toBoolean()` is modelled only as a comparison with `"true"`. That is its whole behaviour on the two texts it can receive here.
- ParseErrors.PrettyPrintParseError: the offset is a `nat`. The parser never reports a negative offset, so Kotlin's behaviour on one (a failing `repeat`) is not modelled.
- ParseErrors.Lines: Kotlin's `lines()` is modelled as splitting at `\r\n`, `\n` and `\r`. The column arithmetic counts one character per line break, as written, so for `\r\n` sources the column is off by one per earlier line; the model keeps that.
- Grammar's parse functions state cursor bounds only. What they build is stated by the `ParserLaws` lemmas and the `ParserExamples` lemmas, and the `Parsing` methods are proved equal to them.
