# kvikk front end, modelled in Dafny

kvikk reads one line of a Kaleidoscope-like language and parses it. The
line holds function definitions (`def f(a, b) a + b`) and bare top-level
expressions. For each one it prints whether it parsed, or prints an
error. This project models that front end, which has four parts:

- **The grammar tables** (`Grammar.dfy`, module `Grammar`):
  - token records;
  - the read-only keyword table (`def`, `lambda`);
  - the operator precedence table (`<` 10, `+` and `-` 20, `*` 40).
- **The syntax tree** (`Ast.dfy`, module `Ast`): Number, Variable,
  Binary and Call nodes, Prototype and Function, as datatypes.
- **The lexer** (`Lexer.dfy`, module `Lexing`), in two layers:
  - a class with the cursor fields `input`, `index` and `curChar`, and
    the methods `GetChar`, `SetInput` and `GetToken`;
  - the function `Scan`, which says which token one `GetToken` call
    returns and where it leaves the cursor; `GetToken` is proved to do
    exactly that.
  - `Stream` is the sequence of tokens the lexer hands out until it
    reaches its end sentinel `'\r'`.
- **The parser** (`Parser.dfy`, module `Parsing`), also in two layers:
  - a class holding the lexer, the one-token lookahead `current`, the
    console `log` and a ghost list of the functions produced;
  - one specification function per parsing routine, over the remaining
    token stream. Each returns the node (or `None` for the source's
    `null`), the stream left over, and the console lines printed.
  - Every parsing method is proved to do exactly what its function
    says. `Parse` is proved to print `ParseSpec(Stream(line))`.

The properties are proved about the specification functions, in four
files:

- `ParsingProperties.dfy`:
  - each routine consumes a prefix of the stream;
  - a success prints nothing;
  - a failure prints exactly one `Error:\t` line, and callers pass the
    failure on without printing again.
- `ParseShapes.dfy`:
  - the trees precedence climbing builds;
  - the order of arguments and parameters;
  - the error messages of calls, parentheses and prototypes.
- `ParseLoop.dfy`: what the top-level loop prints.
- `LexingProperties.dfy`:
  - the shape of each token kind;
  - the white-space loop that, with an unbounded index, never ends.

`ParseExamples.dfy` proves what whole lines produce in the model: from
the characters of `1 + // x` to its tokens and on to the console lines,
and the same for a line holding only a comment.

Where the code differs from the usual precedence-climbing formulation, the
model follows the code:

- **The nested climb restarts from `prec + 1`** (`kvikk/Parser.cs:157`),
  not from the operator's own precedence + 1. So after an absorbed tighter
  operator, the nested climb from 1 takes in every later operator,
  whatever its precedence, and all of it becomes the right operand:
  - `a - b * c - d` is `a - ((b * c) - d)`;
  - `a + b * c < d` is `a + ((b * c) < d)`.

  `ParseShapes.ClimbConsumesChain` and `ParseShapes.QuirkAbsorbsChain`
  prove this for any chain of operators; `ParseShapes.PrecPlusOneQuirk`
  and `ParseShapes.MinusTimesMinus` give the tree for one more operator.
- **`def f(a a`** reports `Unexpected token '' in argument list`. The
  lookahead at the end of the line is EOL, whose null text prints as
  nothing. No message says what was expected.
- **`//` returns EOL but leaves the cursor on the second slash.** The
  error recovery of a failed expression discards that EOL, and the lexer
  then reads the comment's text. `1 + // x` prints three lines: an error,
  `Unknown or unexpected token ' '` and `Parsed anonymous expression`.
  The parse of `x` is kept (`ParseExamples.CommentLine`).
- **A lone `/` is dropped, and the next character becomes the token**,
  even a letter: `a/b` lexes as `a` followed by an Unknown token `b`.
- **A top-level `(` has kind Unknown** and is reported as an unknown
  token. Only inside an expression does it open a parenthesis
  (`ParseExamples.ParenthesisAtTopLevel`).

## Model

| member | source | states |
|---|---|---|
| Grammar.KindToken | kvikk/Grammar.cs:27-30 | Token(type) sets only the type; the string value stays null (empty) and the number 0 |
| Grammar.NumberToken | kvikk/Grammar.cs:32-36 | Token(double) always has type Number and carries exactly the value |
| Grammar.TextToken | kvikk/Grammar.cs:38-42 | Token(string, type) stores both unchanged |
| Grammar.GetKeywordType | kvikk/Grammar.cs:61-67 | exactly "def" gives Definition and exactly "lambda" gives Lambda; every other word gives Identifier |
| Grammar.GetPrecedence | kvikk/Grammar.cs:69-77 | "<" is 10, "+" and "-" are 20, "*" is 40; null and every other string give -1; a precedence is positive exactly for table operators |
| Grammar.PrecedenceOrder | kvikk/Grammar.cs:53-59 | every table precedence is positive, ordered `<` below `+` = `-` below `*` |
| Ast.NewCall | kvikk/AST.cs:67-75 | the params Call constructor copies the argument array: same length, same order |
| Lexing.SkipWhiteSpace | kvikk/Lexer.cs:28-29 | the white-space skip stops at the first non-white-space position, and everything it passes is white space |
| Lexing.RunEnd | kvikk/Lexer.cs:34-35 | a word or numeral run is maximal: every character inside belongs to it, and the one after it does not |
| Lexing.Scan | kvikk/Lexer.cs:23-69 | at the sentinel GetToken returns EOL and does not move; otherwise it moves strictly forward, and an EOL away from the sentinel comes from `//` and leaves curChar on a slash |
| Lexing.ScanWord | kvikk/Lexer.cs:31-38 | a token that starts with a letter is the maximal letter/digit run, typed by GetKeywordType; curChar stops on the first character after the run |
| Lexing.ScanNumber | kvikk/Lexer.cs:40-52 | a token that starts with a digit or '.' is a Number built from the non-empty maximal run of digits and dots |
| Lexing.ScanComment | kvikk/Lexer.cs:54-57 | `//` yields EOL with curChar on the second slash |
| Lexing.ScanPunctuation | kvikk/Lexer.cs:54-68 | a lone '/' is dropped; then ';' yields Semicolon and any other character an Unknown token carrying exactly that character, consuming one character |
| Lexing.NoTrailingWhitespaceHalts | kvikk/Lexer.cs:28-29 | on a line that does not end in white space the skip always stops |
| Lexing.Stream | kvikk/Lexer.cs:23-69 | the tokens GetToken hands out until the sentinel: at most one per character plus one, since each token moves the cursor, and none exactly when the cursor already sits on the sentinel |
| Lexing.Lexer.constructor | kvikk/Lexer.cs:11-13 | the static fields start empty, at index 0 |
| Lexing.Lexer.GetChar | kvikk/Lexer.cs:14 | reads input[index], or '\r' past the end, into curChar, and increments index by one |
| Lexing.Lexer.SetInput | kvikk/Lexer.cs:16-21 | afterwards index is 1 and curChar is the first character, or '\r' for an empty line |
| Lexing.Lexer.SkipWhiteSpaceChars | kvikk/Lexer.cs:28-29 | the loop leaves curChar at SkipWhiteSpace's position |
| Lexing.Lexer.ReadWord | kvikk/Lexer.cs:33-35 | the word read is the input slice up to RunEnd, and curChar sits just past it |
| Lexing.Lexer.ReadNumeral | kvikk/Lexer.cs:42-47 | the numeral read is the input slice up to RunEnd of the digit/dot run |
| Lexing.Lexer.ReadWordToken | kvikk/Lexer.cs:31-38 | the letter branch returns the token Scan gives, leaving the cursor where Scan says |
| Lexing.Lexer.ReadNumberToken | kvikk/Lexer.cs:40-52 | the number branch returns the token Scan gives, leaving the cursor where Scan says |
| Lexing.Lexer.ReadPunctuation | kvikk/Lexer.cs:54-68 | the comment, semicolon and single-character branches return the token Scan gives |
| Lexing.Lexer.GetToken | kvikk/Lexer.cs:23-69 | returns Scan's token and leaves curChar at Scan's position; at the sentinel it returns EOL and changes nothing, so it keeps returning EOL |
| LexingProperties.TrailingWhitespaceNeverHalts | kvikk/Lexer.cs:28-29 | once only white space is left, every character getChar will read is white space (the sentinel too), so, with an unbounded index, the skip never stops |
| LexingProperties.TrailingWhitespaceDiverges | kvikk/Lexer.cs:25-29 | on a line ending in white space other than '\r', GetToken on the last character passes the sentinel test and its skip has no position to stop at |
| LexingProperties.ScanShapes | kvikk/Lexer.cs:31-68 | words are non-empty letter/digit runs starting with a letter; numbers carry a non-empty digit/dot lexeme and no text; Unknown tokens hold one character; EOL and Semicolon hold no text; a Definition is "def" and a Lambda is "lambda" |
| Parsing.ExpressionSpec | kvikk/Parser.cs:54-60 | an expression consumes a token when it succeeds, prints nothing on success and at most one line on failure, and uses only table operators |
| Parsing.PrimarySpec | kvikk/Parser.cs:62-76 | the same progress and quietness for the dispatch on the lookahead |
| Parsing.NumberSpec | kvikk/Parser.cs:78-83 | a Number node holding the token's value, consuming exactly that token |
| Parsing.ParenSpec | kvikk/Parser.cs:85-97 | a parenthesised expression consumes its tokens on success and prints at most one line |
| Parsing.IdentifierSpec | kvikk/Parser.cs:99-131 | a Variable or Call consumes its tokens on success and prints at most one line |
| Parsing.ArgsSpec | kvikk/Parser.cs:111-126 | the argument loop ends on ')', extends the arguments already read (they stay a prefix), and adds at least one |
| Parsing.RHSSpec | kvikk/Parser.cs:133-165 | the climb never grows the stream, prints at most one line, nothing on success, and builds only table operators |
| Parsing.OperandSpec | kvikk/Parser.cs:149-160 | the right operand consumes at least one token and keeps the same guarantees |
| Parsing.PrototypeSpec | kvikk/Parser.cs:167-206 | a prototype consumes tokens on success and prints at most one line |
| Parsing.ParamsSpec | kvikk/Parser.cs:184-200 | the parameter loop succeeds only at ')' and prints at most one line |
| Parsing.DefinitionSpec | kvikk/Parser.cs:208-221 | a definition consumes tokens on success, prints at most one line, and its body uses only table operators |
| Parsing.TopLevelSpec | kvikk/Parser.cs:223-232 | a top-level expression becomes a Function whose prototype is "__proto" with no parameters |
| Parsing.ItemSpec | kvikk/Parser.cs:21-50 | every pass of the top-level loop consumes at least one token, prints at most one line, and produces at most one function |
| Parsing.Outcome | kvikk/Parser.cs:27-34 | after a parse that prints nothing on success and at most one line on failure: at most one line and one function, and a failure that is not at the end of the stream discards one more token |
| Parsing.DefinitionItem | kvikk/Parser.cs:26-35 | the 'def' case, Outcome of DefinitionSpec with "Parsed a function definition", consumes at least one token and prints at most one line |
| Parsing.ExpressionItem | kvikk/Parser.cs:40-49 | the default case, Outcome of TopLevelSpec with "Parsed anonymous expression", consumes at least one token and prints at most one line |
| Parsing.ParseSpec | kvikk/Parser.cs:19-51 | a line prints at most one line per token, and produces no more functions than lines |
| Parsing.Parser.constructor | kvikk/Parser.cs:11 | a fresh lexer, an empty log and no functions |
| Parsing.Parser.Rest | kvikk/Parser.cs:11-12 | the token stream still to be read; its first token (EOL when it is empty) is always the lookahead CurrentToken |
| Parsing.Parser.NextToken | kvikk/Parser.cs:12 | the lookahead becomes the lexer's next token: the remaining stream loses its first token |
| Parsing.Parser.LogError | kvikk/Parser.cs:239-243 | appends "Error:\t" + message to the console and returns null |
| Parsing.Parser.ErrorPrototype | kvikk/Parser.cs:250-254 | logs through LogError and returns null |
| Parsing.Parser.ParseExpression | kvikk/Parser.cs:54-60 | does exactly what ExpressionSpec says: node, lookahead and console lines |
| Parsing.Parser.ParsePrimary | kvikk/Parser.cs:62-76 | does exactly what PrimarySpec says |
| Parsing.Parser.ParseNumber | kvikk/Parser.cs:78-83 | does exactly what NumberSpec says |
| Parsing.Parser.ParseParenExpression | kvikk/Parser.cs:85-97 | does exactly what ParenSpec says |
| Parsing.Parser.ParseIdentifier | kvikk/Parser.cs:99-131 | does exactly what IdentifierSpec says |
| Parsing.Parser.ParseArguments | kvikk/Parser.cs:111-126 | the argument loop does exactly what ArgsSpec says |
| Parsing.Parser.ParseRHSBinaryOperator | kvikk/Parser.cs:133-165 | the climbing loop does exactly what RHSSpec says |
| Parsing.Parser.ParseOperand | kvikk/Parser.cs:149-160 | the operand step of the loop does exactly what OperandSpec says |
| Parsing.Parser.ParsePrototype | kvikk/Parser.cs:167-206 | does exactly what PrototypeSpec says, with the parameter loop in ParseParameters |
| Parsing.Parser.ParseParameters | kvikk/Parser.cs:184-200 | the parameter loop does exactly what ParamsSpec says, from an empty list |
| Parsing.Parser.ParseDefinition | kvikk/Parser.cs:208-221 | does exactly what DefinitionSpec says |
| Parsing.Parser.ParseTopLevelExpression | kvikk/Parser.cs:223-232 | does exactly what TopLevelSpec says |
| Parsing.Parser.Parse | kvikk/Parser.cs:14-52 | after lexing a line, the console gets exactly ParseSpec's lines for the line's token stream, the functions exactly ParseSpec's functions, and the lookahead ends at EOL |
| Parsing.Parser.ParseItem | kvikk/Parser.cs:21-50 | one pass of the loop does exactly what ItemSpec says |
| Parsing.Parser.HandleDefinition | kvikk/Parser.cs:26-35 | the 'def' case does exactly what DefinitionItem says |
| Parsing.Parser.HandleTopLevelExpression | kvikk/Parser.cs:40-49 | the default case does exactly what ExpressionItem says |
| Parsing.Parser.Report | kvikk/Parser.cs:27-34 | after a parse, prints the success line and keeps the function, or discards one token; the result is what Outcome says |
| ParsingProperties.ErrorLineIsErrorLine | kvikk/Parser.cs:239-243 | every LogError line starts with "Error:\t" |
| ParsingProperties.ExpressionWellBehaved | kvikk/Parser.cs:54-60 | an expression consumes a prefix of the stream; a success prints nothing, a failure exactly one error line |
| ParsingProperties.PrimaryWellBehaved | kvikk/Parser.cs:62-76 | the same for a primary, including the "Unexpected token" error |
| ParsingProperties.ParenWellBehaved | kvikk/Parser.cs:85-97 | the same for a parenthesised expression, including "Expected ')'" |
| ParsingProperties.IdentifierWellBehaved | kvikk/Parser.cs:99-131 | the same for a variable or call; a failed argument is not reported twice |
| ParsingProperties.ArgsWellBehaved | kvikk/Parser.cs:111-126 | the same for the argument loop, including the bad-separator error |
| ParsingProperties.RHSWellBehaved | kvikk/Parser.cs:133-165 | the same for the climb; a failed operand is passed on without a second line |
| ParsingProperties.OperandWellBehaved | kvikk/Parser.cs:149-160 | the same for the operand and its nested climb |
| ParsingProperties.ParamsWellBehaved | kvikk/Parser.cs:184-200 | the same for the parameter loop, including "in argument list" |
| ParsingProperties.PrototypeWellBehaved | kvikk/Parser.cs:167-206 | the same for a prototype, including the two "Expected" errors |
| ParsingProperties.DefinitionWellBehaved | kvikk/Parser.cs:208-221 | the same for a definition |
| ParsingProperties.TopLevelWellBehaved | kvikk/Parser.cs:223-232 | the same for a top-level expression |
| ParseShapes.VariableOperand | kvikk/Parser.cs:104-105 | an identifier not followed by '(' is a Variable and consumes one token |
| ParseShapes.ExpressionFromVariable | kvikk/Parser.cs:54-60 | an expression starting with a Variable climbs from precedence 0 with it as the left operand |
| ParseShapes.LoneVariable | kvikk/Parser.cs:141-142 | a Variable followed by a non-operator is the whole expression; the climb stops at precedence -1 |
| ParseShapes.ClimbStops | kvikk/Parser.cs:141-142 | the climb returns lhs unchanged, consuming nothing, when the lookahead's precedence is below prec |
| ParseShapes.ClimbFolds | kvikk/Parser.cs:144-163 | an operator at or above prec is consumed and its operand folded into Binary(op, lhs, rhs) |
| ParseShapes.VariableOperandStops | kvikk/Parser.cs:149-155 | an operand followed by an operator that does not bind tighter is just that operand |
| ParseShapes.VariableOperandClimbs | kvikk/Parser.cs:154-157 | an operand followed by a tighter operator starts a climb from prec + 1 |
| ParseShapes.SamePrecedenceAssociatesLeft | kvikk/Parser.cs:135-164 | a chain of operators of one precedence folds to the left: x + y - z is (x + y) - z |
| ParseShapes.TighterRightAbsorbed | kvikk/Parser.cs:152-160 | a tighter operator on the right is absorbed into the right operand: 1 + 2 * 3 is 1 + (2 * 3) |
| ParseShapes.ClimbFromOne | kvikk/Parser.cs:157 | the climb from 1 over y b z c w, with c no tighter than b, is (y b z) c w |
| ParseShapes.AbsorbedOperand | kvikk/Parser.cs:149-160 | the right operand before a tighter operator is (y b z) c w |
| ParseShapes.PrecPlusOneQuirk | kvikk/Parser.cs:155-157 | x a y b z c w with a looser than b, and c not tighter than b, is x a ((y b z) c w) |
| ParseShapes.MinusTimesMinus | kvikk/Parser.cs:157 | a - b * c - d is a - ((b * c) - d) |
| ParseShapes.TighterLeftFoldsLeft | kvikk/Parser.cs:141-163 | a tighter operator on the left folds first: x a y b z with a tighter than b is (x a y) b z, as x * y + z is (x * y) + z |
| ParseShapes.ClimbOverChain | kvikk/Parser.cs:133-165 | a climb from any precedence over operators and identifier or number operands succeeds silently and stops only at a chain boundary whose operator binds looser than prec |
| ParseShapes.OperandOverChain | kvikk/Parser.cs:149-160 | the operand after such an operator, with its nested climb, succeeds silently and stops at a chain boundary |
| ParseShapes.ClimbConsumesChain | kvikk/Parser.cs:155-157 | a climb from any precedence up to 10, the nested climb from prec + 1 == 1 among them, takes in every operator of a chain whatever its precedence: it succeeds, prints nothing and stops at the tail |
| ParseShapes.ChainExpressionConsumed | kvikk/Parser.cs:54-60 | x followed by any chain of table operators and identifiers is one expression that consumes it all and prints nothing |
| ParseShapes.QuirkAbsorbsChain | kvikk/Parser.cs:149-160 | once x a y meets a tighter operator, the whole rest of the chain, whatever its later precedences, is a's right operand: the result is Binary(a, x, ...) and only the tail is left |
| ParseShapes.ArgumentsInSourceOrder | kvikk/Parser.cs:111-126 | comma-separated arguments are collected in source order after those already read, ending before ')' |
| ParseShapes.CallArguments | kvikk/Parser.cs:99-131 | f(x1, ..., xk) is Call(f, [x1, ..., xk]) in order, and the ')' is consumed |
| ParseShapes.EmptyCall | kvikk/Parser.cs:107-130 | f() is a Call with an empty argument list |
| ParseShapes.BadSeparator | kvikk/Parser.cs:122-123 | after an argument, a token that is not ',', ')', '(' or an operator fails the call with "Unexpected token '<t>'. Expected ',' or ')'" where it stands |
| ParseShapes.ParenthesisedVariable | kvikk/Parser.cs:85-97 | ( x ) returns the inner node; the parentheses leave nothing behind |
| ParseShapes.UnclosedParenthesis | kvikk/Parser.cs:92-93 | a missing ')' fails with "Expected ')'" at the token found instead |
| ParseShapes.ParametersInSourceOrder | kvikk/Parser.cs:184-200 | parameters are the identifier tokens in source order; commas are optional and repeatable |
| ParseShapes.PrototypeParameters | kvikk/Parser.cs:167-206 | name ( parameters ) is a Prototype with those names in order, with the ')' consumed |
| ParseShapes.PrototypeNeedsName | kvikk/Parser.cs:169-170 | a prototype that does not start with an identifier fails with "Expected name in function definition", consuming nothing |
| ParseShapes.PrototypeNeedsParenthesis | kvikk/Parser.cs:172-176 | a name not followed by '(' fails with "Expected '(' in function definition", after the name |
| ParseShapes.DefinitionNeedsBoth | kvikk/Parser.cs:208-221 | a definition succeeds exactly when its prototype and its body both parse, and then holds both |
| ParseLoop.ErrorLineNotParsed | kvikk/Parser.cs:241 | an error line is neither a "Parsed" line nor an unknown-token report |
| ParseLoop.ItemLines | kvikk/Parser.cs:21-50 | one pass prints a "Parsed" line exactly when it produces a function; every line it prints is a "Parsed" line, an error or an unknown-token report |
| ParseLoop.SessionLines | kvikk/Parser.cs:19-51 | over a whole line: exactly one "Parsed" line per function produced, every other line an error or an unknown-token report, every body using only table operators |
| ParseLoop.StopsAtEol | kvikk/Parser.cs:19 | the loop stops at an EOL lookahead; nothing after it is parsed |
| ParseLoop.SemicolonSkipped | kvikk/Parser.cs:23-25 | ';' at the top level is skipped without a trace |
| ParseLoop.UnknownReported | kvikk/Parser.cs:36-39 | an Unknown token is reported as "Unknown or unexpected token '<c>'" and skipped |
| ParseLoop.TopLevelWrapsExpression | kvikk/Parser.cs:223-232 | a top-level expression succeeds exactly when the expression does, and wraps it in "__proto" with no parameters |
| ParseExamples.SumDefinitionParses | kvikk/Parser.cs:208-221 | def f(a, b) a + b parses to Function(f(a, b), a + b) and consumes the line |
| ParseExamples.DefinitionLine | kvikk/Parser.cs:26-30 | def f(a, b) a + b prints "Parsed a function definition" once and produces that function |
| ParseExamples.ParenthesisAtTopLevel | kvikk/Parser.cs:36-44 | (1) reports '(' as unknown, parses 1 as an expression, and reports ')' |
| ParseExamples.CommentAfterOperator | kvikk/Parser.cs:40-48 | the tokens of 1 + // x print an error, an unknown ' ', and a parsed expression x |
| ParseExamples.CommentTextParses | kvikk/Parser.cs:36-44 | the comment's text ' ' x is reported and then parsed |
| ParseExamples.OperandMissingItem | kvikk/Parser.cs:45-48 | the failed pass on 1 + EOL prints one error and the recovery step discards the EOL |
| ParseExamples.OperandMissingAtEol | kvikk/Parser.cs:149-150 | an operator at the end of the line fails with "Unexpected token ''" |
| ParseExamples.UnclosedParameterList | kvikk/Parser.cs:196-197 | def f(a a prints "Unexpected token '' in argument list" |
| ParseExamples.LambdaNotParsed | kvikk/Parser.cs:66-70 | lambda x reports "Unexpected token 'lambda'", skips it, and parses x |
| ParseExamples.ScanOne | kvikk/Lexer.cs:40-52 | in 1 + // x, the first token is the Number "1", followed by the stream from the next character |
| ParseExamples.ScanPlus | kvikk/Lexer.cs:65-68 | then '+' is an Unknown token |
| ParseExamples.ScanSlashes | kvikk/Lexer.cs:54-57 | then // is EOL, with curChar left on the second slash |
| ParseExamples.ScanLoneSlash | kvikk/Lexer.cs:54-68 | then that slash is dropped as a lone slash and ' ' is an Unknown token |
| ParseExamples.ScanX | kvikk/Lexer.cs:31-38 | then x is an Identifier |
| ParseExamples.PlusCommentTokens | kvikk/Lexer.cs:54-68 | from '+' on, the lexer yields '+', EOL, ' ' and x |
| ParseExamples.CommentTokens | kvikk/Lexer.cs:54-68 | from the first slash on, the lexer yields EOL, ' ' and x |
| ParseExamples.CommentLineTokens | kvikk/Lexer.cs:23-69 | the line 1 + // x lexes to Number 1, '+', EOL, ' ', x |
| ParseExamples.CommentLine | kvikk/Parser.cs:14-52 | the line 1 + // x, from characters to console lines |
| ParseExamples.CommentOnly | kvikk/Parser.cs:16-19 | a line that is only a comment: the first token is EOL, so the loop ends at once with no function and no console line |

## Left out

- `double.TryParse` (`kvikk/Lexer.cs:49-50`): floating-point parsing that depends on the culture is not modelled. A Number token carries `Scanned(lexeme)`, which stands for the value the lexeme parses to (0 when parsing fails). `Zero` is the default double value of every other token.
- `char.IsLetter`, `char.IsDigit`, `char.IsWhiteSpace`: the Unicode tables are not modelled.
  - The three predicates are parameters of the lexer (`CharClass`).
  - They are constrained only by the facts the code relies on: '\r' is white space; '\r', '/', ';' and '(' are neither letters nor digits; '.' is not a digit.
  - The worked lexer example assumes they agree with ASCII.
- `Console.WriteLine`: output is modelled as lines appended to `log`. Formatting `{0}` with a null string prints the empty string, as the model does.
- Null references:
  - a null string value is modelled as the empty string;
  - a null node as `None`.
  - Both agree with every comparison the code makes ("(", ")", ",", the precedence lookup).
- The static classes: their fields are modelled as the state of one `Lexer` object and one `Parser` object, which owns its lexer. Thread safety is not modelled.
  - The lookahead starts as EOL instead of null; `Parse` overwrites it before reading it.
- Lexing.Lexer.GetToken: requires that the white-space skip stops. When only white space is left, the source never leaves that loop normally: it keeps reading the sentinel `'\r'` until its 32-bit `index` wraps to a negative value after about 2^31 reads, and `input[index]` then throws (a checked build throws at `index++` instead). The model has no result for such a call.
- Parsing.Parser.Parse: requires that the line does not end in white space. On most such lines the source never finishes normally: `LexingProperties.TrailingWhitespaceDiverges` shows that its white-space loop has no position to stop at, and the source ends in the exception described for `GetToken`. Neither the loop nor the exception is modelled.
- Parsing.Parser.Parse: the same requires also excludes two kinds of line ending in white space that the source finishes, because it never reads past the EOL that ends its loop. The model does not cover them:
  - trailing white space after a `//` at which the loop stops, such as `x // note `;
  - trailing white space after a `'\r'` that `GetToken` meets as `curChar`, which it takes for the end of the line: `"x\r"` (a line whose carriage return was not stripped), `"x\r "`, `"x\r\r"`.
- Lexing.Lexer.GetChar: `index` is an unbounded `nat`, where the source's is a 32-bit `int` that `index++` can wrap. The wrap is reached only on the white-space loop described above, after about 2^31 reads, and is not modelled.
- Lexing.Scan and Lexing.Lexer.GetChar: a line is modelled as a sequence of Unicode scalar values, while the source indexes UTF-16 code units. A character outside the Basic Multilingual Plane is therefore two code units, and two Unknown tokens (two "Unknown or unexpected token" lines), in the source, but one character and at most one token in the model. "One character" in `Lexing.ScanPunctuation` and `LexingProperties.ScanShapes` means one scalar value; for lines inside the Basic Multilingual Plane the two agree.
- The shape lemmas of `ParseShapes.dfy` that give exact trees are stated for identifier operands; the chain lemmas (`ClimbOverChain`, `OperandOverChain`) also allow number operands.
- `lambda` is only a keyword token. No expression starts with it, so it falls to the "Unexpected token" error, as in the source.
- The list constructor of `ASTExpressionCall` (`kvikk/AST.cs:61-65`) shares the caller's list. Nodes are values here, so that aliasing is not modelled, nor is any later mutation of the list.
- The class hierarchy of `ASTExpression`: it is a closed datatype, so a node's kind is not a runtime type test.
- Some loop bodies are split into helper methods, each proved against its own specification function:
  - the branches of `GetToken`: `ReadWordToken`, `ReadNumberToken`, `ReadPunctuation`;
  - the argument loop of `ParseIdentifier`: `ParseArguments`;
  - the operand step of `ParseRHSBinaryOperator`: `ParseOperand`;
  - the parameter loop of `ParsePrototype`: `ParseParameters`;
  - the body of `Parse`'s loop: `ParseItem`, `HandleDefinition`, `HandleTopLevelExpression`, and their shared tail `Report`.

  The statements and their order are those of the source.
- The REPL and the program entry point are not part of this model.
