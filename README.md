# Interpreter.cpp in Dafny

A model of the small arithmetic interpreter in `Interpreter.cpp`: the lexer
`lex`, the parser `parse` and the evaluation of the expression tree
(`Integer::eval`, `BinaryOperation::eval`), with proofs of what each of them
does.

- `lex` turns a string into tokens: `+`, `-`, `(` and `)` become a token of
  their own; any other character starts a number run that takes the digits
  after it. The integer token is pushed only when a non-digit follows, so a
  run that reaches the end of the input is dropped. `Lexer.Lex` is the loop of
  the source, proved equal to the function `Lexer.TokensOf`. That function is
  in turn shown to be the only token sequence that meets an independent
  description of a correct lexing (`Lexer.Tokenizes`).
- `parse` fills in one binary node in a single pass. The first operand goes
  to `lhs` and every later one to `rhs`. `+` and `-` set the operation. The
  integer case has no `break`, so every integer token also sets the operation
  to addition. An lparen is matched with the first rparen after it, not by
  depth, and the tokens between are parsed recursively. `Parser.Parse` is the
  loop of the source, proved equal to `Parser.ParseTokens`.
  `ParserItems.ParseItems` says what that function computes without the loop:
  the first and the last operand, and the operation of the last integer, plus
  or minus token at the top level.
- Evaluation (`Element.Eval`) adds or subtracts the children.

The model follows the code where the code and its comments disagree:

- The input of `main`, `(13-4)-(12+1)`, evaluates to 4, not the -4 of the
  comment beside `main`. Each pair of parentheses ends with an integer token,
  which turns its node into an addition (`Scenarios.SampleRun`).
- `3+4` does not evaluate to 7: the trailing `4` never becomes a token, and
  the node has no right operand (`Scenarios.TrailingNumberRun`).

Undefined behaviour of the source is modelled as an error result
(`Common.Failure`):

- an lparen with no rparen after it, where the source reads past the end of
  the token vector, gives `UnterminatedParen`;
- a node evaluated with a null child gives `MissingOperand`;
- an addition or subtraction outside the 32-bit `int` range gives `Overflow`.

The exception that `boost::lexical_cast<int>` throws becomes
`BadLexicalCast`. The cast is modelled by its documented behaviour: an
optional sign, at least one ASCII digit and nothing else, with a value inside
the range of `int`.

Files: `common.dfy` (shared types), `lexer.dfy`, `cast.dfy`
(`lexical_cast<int>`), `element.dfy` (tree and evaluation), `parser.dfy`,
`items.dfy` (what `parse` computes), `lex_examples.dfy` and `scenarios.dfy`
(whole runs on concrete inputs).

## Model

| member | source | states |
|---|---|---|
| Lexer.SymbolToken | Interpreter.cpp:26-37 | each of `+`, `-`, `(`, `)` becomes a well-formed token of its own kind (`+` a plus, `-` a minus, `(` an lparen, `)` an rparen) whose text is that one character |
| Lexer.RunEnd | Interpreter.cpp:43-51 | the inner loop of the default case stops at the first non-digit at or after its start, or at the end of the input |
| Lexer.Lex | Interpreter.cpp:22-56 | the loop of `lex` returns exactly `TokensOf(input)` |
| Lexer.LexRun | Interpreter.cpp:39-52 | the default case leaves `i` on the last character of the run (just before its first non-digit, or at the end of the input) and pushes exactly one integer token holding the run when a non-digit follows, none when the run reaches the end; what it pushes followed by the lexing after `i` equals the lexing from the start of the run |
| Lexer.LexFromTokenizes | Interpreter.cpp:22-56 | what `lex` produces is a correct lexing: well-formed tokens cut from the input in order, integer tokens maximal, only a dropped run left at the end |
| Lexer.TokenizesUnique | Interpreter.cpp:22-56 | two correct lexings of the same input are equal |
| Lexer.LexCharacterized | Interpreter.cpp:22-56 | a token sequence is a correct lexing of the input if and only if it is the one `lex` returns |
| Lexer.TokenizesKeepsInput | Interpreter.cpp:25-54 | every token of a correct lexing is well formed, there are at most as many tokens as characters, and the token texts in order spell the input up to a dropped run at its end |
| Lexer.SymbolsKept | Interpreter.cpp:26-37 | each `+`, `-`, `(`, `)` of the input gives exactly one token of its kind: the count of tokens of that kind equals the count of the character |
| Lexer.DroppedRunAddsNothing | Interpreter.cpp:43-52 | appending a number run to an input that lexes completely leaves the lexing unchanged |
| Lexer.TrailingRunDropped | Interpreter.cpp:43-52 | the same for `lex` itself: `TokensOf(p + r) == TokensOf(p)` for a trailing run `r` |
| LexicalCast.CastToInt | Interpreter.cpp:92 | a text the cast accepts starts with a digit or a sign; without a minus its value is not negative |
| LexicalCast.DecimalValue | Interpreter.cpp:92 | the decimal spelling of a natural number is a non-empty digit string whose value is that number |
| LexicalCast.CastSpelling | Interpreter.cpp:92 | the cast reads back every `int` from its decimal spelling |
| LexicalCast.IntegerTokenCast | Interpreter.cpp:92 | an integer token from `lex` converts exactly when it is all digits with a value at most `INT_MAX`, and then to that value |
| Element.Eval | Interpreter.cpp:63-80 | evaluation succeeds exactly on trees whose nodes all have both children and all fit in an `int`, and then yields the arithmetic value of the tree; otherwise it reports a missing operand or an overflow |
| Parser.FindRParen | Interpreter.cpp:108-111 | the index found is the first rparen at or after the lparen; when there is none, no later token is an rparen |
| Parser.Parse | Interpreter.cpp:83-127 | the loop of `parse`, with its recursive call, returns exactly `ParseTokens(tokens)` |
| ParserItems.ParseFromItems | Interpreter.cpp:86-124 | from any point of the pass, on well-shaped items: success exactly when every operand converts, and then the final operation, `lhs` and `rhs` as functions of the items |
| ParserItems.ParseItems | Interpreter.cpp:83-127 | `parse` succeeds exactly when every operand converts; the node is a subtraction only when the last integer, plus or minus token at the top level is a minus; `lhs` is the first operand and `rhs` the last, each missing when there are too few operands |
| ParserItems.UnterminatedFails | Interpreter.cpp:106-113 | `parse` fails whenever some lparen has no rparen after it |
| ParserItems.SplitIntoItems | Interpreter.cpp:106-122 | every token sequence without such an lparen splits into single tokens and parenthesised groups, so `ParseItems` covers all remaining inputs |
| LexExamples.SampleTokens | Interpreter.cpp:22-56 | `lex` turns `(13-4)-(12+1)` into its eleven tokens |
| Scenarios.SampleParse | Interpreter.cpp:83-127 | the eleven tokens parse to a subtraction of the additions 13+4 and 12+1 |
| Scenarios.SampleRun | Interpreter.cpp:131-137 | the input of `main` evaluates to 4 |
| Scenarios.TrailingNumberRun | Interpreter.cpp:43-52 | `3+4` lexes to `3` and `+` only, and its run fails with a missing operand |
| Scenarios.FallThroughRun | Interpreter.cpp:90-102 | `10-2)` evaluates to 12: the integer token after the minus resets the operation to addition |
| Scenarios.LoneGroupRun | Interpreter.cpp:115-120 | `(1+2)` fills only `lhs`, so its run fails with a missing operand |
| Scenarios.NestedParensRun | Interpreter.cpp:108-111 | `((1+2)+3)` fails with an unterminated paren: the outer lparen is closed by the first rparen, leaving an lparen inside with no rparen after it |
| Scenarios.LeadingSpaceRun | Interpreter.cpp:92 | ` 5)` gives the integer token ` 5`, which the cast refuses |

## Left out

- `main`, printing with `std::cout` and `operator<<` for tokens: console I/O is not modelled; the fixed input of `main` appears as `LexExamples.Sample`.
- `std::shared_ptr`, `std::make_unique` and virtual dispatch: the tree is a datatype, and the node `parse` builds is held in local variables.
- The internals of `boost::lexical_cast`: only its accept/reject behaviour and value for `int` are modelled, without locales.
- A Dafny `char` stands for one byte of the `std::string`: the model does not capture a multi-byte UTF-8 character, which is several bytes, and so possibly several tokens, to `lex`.
- `isdigit` is the C-locale test for `'0'`..`'9'`; its undefined behaviour on negative `char` values is not modelled.
- The widths of the loop indices (`int i`, `int j`, `size_t i`): indices are unbounded naturals, so inputs longer than `INT_MAX` characters are not modelled.
- Element.Eval: C++ leaves unspecified whether `lhs` or `rhs` is evaluated first; the model evaluates `lhs` first, which only decides which failure is reported when both children fail.
- ParserItems.UnterminatedFails: states only that the run fails; an earlier integer token the cast refuses can make the failure `BadLexicalCast` rather than `UnterminatedParen`.
