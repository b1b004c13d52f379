# remy front end in Dafny

This project models the front end of the remy language: the logos token
definitions and the chumsky grammar in `remy-core/src/parser.rs`, and the
syntax tree of `remy-core/src/ast.rs`. Each part is modelled, then proved
against a partner definition.

- **Tokens** (`tokens.dfy`): the token enum, and each rule's language as a
  predicate on text.
  - The rules are the skip pattern, the fixed-spelling tokens, and the
    `Ident`, `NormalString` and `Number` regexes.
  - `Matches` is the declarative reading of the `#[token]` / `#[regex]`
    attributes.
- **Scanner** (`scanner.dfy`): an executable scanner `Scan` that picks the
  lexeme at an offset by looking at its first character.
  - `ScanIsLongestMatch` proves that this lexeme is the unique longest match
    over all rules. That is the maximal-munch rule logos follows.
  - It also proves that the scanner finds nothing exactly when no rule
    matches there.
- **Lexer** (`lexer.dfy`): the lexing loop.
  - The loop drops skip matches, emits a token for every other match, and
    stops at the first offset where nothing matches.
  - `Tokenization` is a relational reading: the text splits into longest
    matches. The lexer's output is exactly the tokenization of its input.
- **Parser** (`parser.dfy`): the chumsky combinators as recursive descent
  over the token sequence.
  - `Parsed(value, next)` stands for a combinator's output together with
    the position after it.
  - `choice`, `separated_by`, `delimited_by`, `repeated` and
    `then_ignore(end())` keep their backtracking behaviour. A failed item
    ends a repetition, and the failed item's tokens are not consumed.
- **Printer** (`printer.dfy`): the inverse of the parser.
  - It prints a syntax tree back to its tokens.
  - It carries `…InGrammar` predicates naming the trees the grammar can
    produce.
- **Soundness and round trip** (`soundness.dfy`, `roundtrip.dfy`):
  - Each parser returns an in-grammar node whose printed form is exactly
    the tokens it consumed.
  - Each in-grammar node is parsed back from its printed form.
  - Together: `ParseFile(toks) == Some(f)` holds exactly when
    `toks == PrintFile(f)` for an in-grammar `f`.
- **Front end** (`frontend.dfy`): lexing followed by parsing.
  - It characterises a successful front-end run and each of the two
    failure kinds.
- **Syntax tree** (`ast.dfy`): every variant of the source's tree, plus a
  normal form for type names.

Characters are Dafny `char`s. Offsets are character offsets, not UTF-8 byte
offsets.

The `Number` regex is a parameter `NumberSyntax`:
- `AsWritten` is the pattern in the source, `[0-9]+(\.(0-9)+)?`. Its
  fraction group repeats the literal three characters `0-9`.
- `Intended` is `[0-9]+(\.[0-9]+)?`.

Every lexer lemma holds for both readings, except `AsWrittenRejectsDecimal`,
`OnePointFiveAsWritten`, `AsWrittenAcceptsLiteralRange` and
`IntendedAcceptsDecimal`, which are each about one reading.

## Model

| member | source | states |
|---|---|---|
| Tokens.MakeToken | remy-core/src/parser.rs:32-65 | a fixed-spelling rule emits its own token, and `Ident`, `NormalString` and `Number` carry exactly the text they matched |
| Scanner.ScanIsLongestMatch | remy-core/src/parser.rs:22-66 | the scanner's lexeme is the unique longest match of the skip pattern and all token rules at that offset, and it finds none exactly when no rule matches any non-empty text there |
| Scanner.BlankLongest | remy-core/src/parser.rs:23 | a whitespace character starts a skip match that is the whole maximal run of blanks |
| Scanner.LineCommentLongest | remy-core/src/parser.rs:23 | `//` starts a skip match that runs up to, not including, the next newline or the end of text |
| Scanner.BlockCommentLongest | remy-core/src/parser.rs:23 | `/*` followed by a body free of `( * / )` and then `*/` is one skip match ending at that `*/` |
| Scanner.BlockCommentUnclosed | remy-core/src/parser.rs:23 | a `/*` whose body is not followed by `*/` matches no rule at all |
| Scanner.LoneSlash | remy-core/src/parser.rs:23 | a `/` not followed by `/` or `*` matches no rule |
| Scanner.ColonLongest | remy-core/src/parser.rs:34-37 | `::` is one `DoubleColon`, and a `:` not followed by `:` is `Colon` |
| Scanner.EqualsSign | remy-core/src/parser.rs:52-53 | `=>` is `FatArrow`, and an `=` not followed by `>` matches no rule |
| Scanner.SingleLongest | remy-core/src/parser.rs:32-63 | each one-character token (`, ; ( ) [ ] ! { }`) is the longest match at its character |
| Scanner.IdentLongest | remy-core/src/parser.rs:40-41 | an identifier start begins an `Ident` match covering the whole maximal run of identifier characters |
| Scanner.NumberLongest | remy-core/src/parser.rs:64-65 | a digit begins the longest `Number` match, of the length `NumberLength` computes for either regex |
| Scanner.StringLongest | remy-core/src/parser.rs:54-55 | a `"` begins the longest `NormalString` match when a closing quote is reachable, and otherwise nothing matches |
| Scanner.OtherMatchesNothing | remy-core/src/parser.rs:22-66 | a character that starts no rule matches nothing |
| Lexer.LexWithSound | remy-core/src/parser.rs:22-25 | with any scanner that finds longest matches, a successful lexing loop yields a longest-match tokenization |
| Lexer.LexWithComplete | remy-core/src/parser.rs:22-25 | with any such scanner, every longest-match tokenization is what the loop yields |
| Lexer.LexIsTokenization | remy-core/src/parser.rs:22-66 | the lexer returns `ts` if and only if the text splits into longest matches whose non-skip tokens are `ts` |
| Lexer.LexFailureIsNoMatch | remy-core/src/tests.rs:30-42 | lexing fails fast, at an offset inside the text that the chain of longest matches from the start reaches and where no rule and no skip pattern matches |
| Lexer.StuckPointUnique | remy-core/src/tests.rs:30-42 | the chain of longest matches reaches at most one offset where nothing matches, so the reported offset is the first place the lexer gets stuck |
| Lexer.TokenizationUnfold | remy-core/src/parser.rs:22-25 | a tokenization is determined by its first longest match followed by a tokenization of the rest |
| LexerProperties.RuleOfText | remy-core/src/parser.rs:32-65 | no other rule, the skip pattern included, matches a text a token rule matches, so logos needs no priority between them |
| LexerProperties.WordLexesAlone | remy-core/src/parser.rs:32-65 | a text that is exactly one token's spelling lexes to that single token |
| LexerProperties.ColonsLex | remy-core/src/parser.rs:34-37 | `"::"` lexes to `[DoubleColon]` and `":"` to `[Colon]` |
| LexerProperties.DoubleColonIsOneToken | remy-core/src/parser.rs:34-37 | at `::` the lexer emits `DoubleColon`, never two `Colon`s |
| LexerProperties.IdentWordLexes | remy-core/src/parser.rs:40-41 | every text matching `[_a-zA-Z][_a-zA-Z0-9]*` lexes to one `Ident` carrying that text |
| LexerProperties.KeywordsAreIdents | remy-core/src/parser.rs:40-41 | with no keyword tokens, `match`, `true` and `false` lex as identifiers |
| LexerProperties.StringWordLexes | remy-core/src/parser.rs:54-55 | a quoted string of plain characters and escaped quotes lexes to one `NormalString` that keeps its quotes |
| LexerProperties.NumberWordLexes | remy-core/src/parser.rs:64-65 | a text in the `Number` language lexes to one `Number` token carrying it |
| LexerProperties.LexedTokensWellFormed | remy-core/src/parser.rs:32-65 | every token the lexer emits is well formed: a fixed token, or a regex token whose text is in that regex's language |
| LexerProperties.UnrecognizedCharFails | remy-core/src/parser.rs:22-66 | a character no rule starts with makes lexing fail exactly at its offset |
| LexerProperties.AtSignFails | remy-core/src/parser.rs:22-66 | `"@"` fails at offset 0, and `"a @"` fails at offset 2 after skipping the blank |
| LexerProperties.TriviaLexesToNothing | remy-core/src/parser.rs:23 | a text made only of blanks, line comments and block comments lexes to no tokens |
| LexerProperties.NothingLexedIsTrivia | remy-core/src/parser.rs:23 | a text that lexes to no tokens is made only of such trivia |
| LexerProperties.TriviaIffNoTokens | remy-core/src/parser.rs:23 | a text lexes to the empty sequence if and only if it is all trivia |
| LexerProperties.AsWrittenRejectsDecimal | remy-core/src/parser.rs:64 | with the regex as written, any decimal `d.f` fails to lex at the offset of its `.` |
| LexerProperties.OnePointFiveAsWritten | remy-core/src/parser.rs:64 | with the regex as written, `"1.5"` fails at offset 1 |
| LexerProperties.AsWrittenAcceptsLiteralRange | remy-core/src/parser.rs:64 | with the regex as written, `"1.0-9"` is a single `Number` |
| LexerProperties.IntendedAcceptsDecimal | remy-core/src/parser.rs:64 | with the intended regex, every decimal `d.f` is a single `Number` token |
| Parser.ParseIdent | remy-core/src/parser.rs:157-165 | the ident parser succeeds exactly on an `Ident` token, returns its text and consumes that one token |
| Parser.ParseStringLiteral | remy-core/src/parser.rs:141-145 | the string-literal parser succeeds exactly on a `NormalString` token and returns its text as a `String` literal |
| Parser.ParseDefinition | remy-core/src/parser.rs:80-87 | a parsed top-level definition is a `Binding` with no type arguments |
| Soundness.TypeNameSound | remy-core/src/parser.rs:130-139 | a parsed type name consumed exactly its printed tokens |
| Soundness.AnnotatedSound | remy-core/src/parser.rs:121-128 | a parsed annotated identifier consumed exactly its name followed by its printed type |
| Soundness.ArgsSound | remy-core/src/parser.rs:93-94 | a comma-separated argument list consumed exactly its printed form |
| Soundness.LiteralSound | remy-core/src/parser.rs:89-91 | a parsed literal is in the grammar and consumed exactly its printed tokens |
| Soundness.FunctionLiteralSound | remy-core/src/parser.rs:92-98 | a parsed function literal consumed `(`, its arguments, `)` and its block |
| Soundness.BlockSound | remy-core/src/parser.rs:99-103 | a parsed code block consumed `[`, its semicolon-separated expressions and `]` |
| Soundness.ExprSound | remy-core/src/parser.rs:104-120 | a parsed expression is an identifier or grammar literal and consumed exactly its printed tokens |
| Soundness.ExprsSound | remy-core/src/parser.rs:100-101 | a semicolon-separated expression list consumed exactly its printed form |
| Soundness.DefinitionSound | remy-core/src/parser.rs:80-87 | a parsed definition consumed `name :: literal` exactly |
| Soundness.DefinitionsSound | remy-core/src/parser.rs:75-76 | the repeated definitions consumed exactly their printed forms in order |
| Soundness.FileSound | remy-core/src/parser.rs:70-79 | a parsed file is in the grammar, and the tokens are exactly its printed form |
| RoundTrip.NoExprWithoutStart | remy-core/src/parser.rs:104-120 | no expression starts at a token other than an identifier, `(` or a string |
| RoundTrip.TypeNameRoundTrip | remy-core/src/parser.rs:130-139 | every type name is parsed back from its printed tokens, consuming all of them |
| RoundTrip.AnnotatedRoundTrip | remy-core/src/parser.rs:121-128 | every annotated identifier is parsed back from its printed tokens |
| RoundTrip.ArgsRoundTrip | remy-core/src/parser.rs:93-94 | every argument list followed by a token that cannot continue it is parsed back whole |
| RoundTrip.LiteralRoundTrip | remy-core/src/parser.rs:89-91 | every grammar literal is parsed back from its printed tokens |
| RoundTrip.FunctionLiteralRoundTrip | remy-core/src/parser.rs:92-98 | every grammar function literal is parsed back from its printed tokens |
| RoundTrip.BlockRoundTrip | remy-core/src/parser.rs:99-103 | every code block of grammar expressions is parsed back from its printed tokens |
| RoundTrip.ExprRoundTrip | remy-core/src/parser.rs:104-120 | every grammar expression is parsed back from its printed tokens |
| RoundTrip.ExprsRoundTrip | remy-core/src/parser.rs:100-101 | every expression list followed by a token that cannot continue it is parsed back whole |
| RoundTrip.DefinitionRoundTrip | remy-core/src/parser.rs:80-87 | every grammar definition is parsed back from its printed tokens |
| RoundTrip.DefinitionsRoundTrip | remy-core/src/parser.rs:75-77 | printed definitions filling the rest of the tokens are parsed back in order, up to the end |
| RoundTrip.FileRoundTrip | remy-core/src/parser.rs:70-79 | every grammar file is parsed back from its printed tokens |
| RoundTrip.ParseFileIff | remy-core/src/parser.rs:70-79 | `ParseFile(toks) == Some(f)` holds if and only if `f` is in the grammar and `toks` is its printed form |
| RoundTrip.EmptyFile | remy-core/src/parser.rs:75-78 | the empty token sequence parses to a file with no definitions |
| RoundTrip.PrintFileInjective | remy-core/src/parser.rs:70-79 | two grammar files with the same tokens are the same file, so the grammar is unambiguous |
| Ast.TypeNameNormalForm | remy-core/src/ast.rs:59-63 | every type name is a named type wrapped in slices `Depth` times |
| Ast.WrapDecomposes | remy-core/src/ast.rs:59-63 | wrapping a name in `n` slices gives depth `n` and keeps the name, the inverse of the normal form |
| Frontend.ParseSource | remy-core/src/tests.rs:30-42 | a lexing failure reports an offset inside the text, reached by the chain of longest matches from the start, where nothing matches |
| Frontend.ParseSourceIff | remy-core/src/parser.rs:22-79 | the front end yields `f` if and only if `f` is in the grammar and the text splits into longest matches whose tokens are `f` printed |
| Frontend.LexFailedAtNoMatch | remy-core/src/tests.rs:30-42 | a lexing failure names the one offset where the chain of longest matches from the start gets stuck: no rule matches there and the chain reaches no other such offset |
| Frontend.ParseFailedMeansNoFile | remy-core/src/parser.rs:70-79 | a parse failure means the text lexed, but to tokens that are no grammar file's printed form |

## Left out

- Tokenizer state and interpolated strings: `LogosState`, `StringState` and
  the commented-out interpolation tokens (`parser.rs:10-20,24,56-59`). The
  state is never read by any live rule.
- Source spans and error values.
  - `Spanned` and the span end of a lexing error are not modelled. A lexing
    error carries only its start offset.
  - chumsky's `Simple` error sets are not modelled. A parse failure is a
    plain `None` / `ParseFailed`, without the expected-token set.
- Lex: logos keeps producing results after an error. The model stops at the
  first error, as the lexing loop in `tests.rs` does.
- Character encoding: text is a sequence of `char`, so offsets count
  characters rather than UTF-8 bytes.
- `Literal.Float` (`ast.rs:22`) is left out. No parser produces it, and
  floating point is outside the model. `Literal.Int` is kept, bounded to the
  64-bit range by a newtype.
- Variants no parser produces:
  - `TopLevelDefinition.Extern`, `Literal.Int`, `Literal.Bool`,
    `Expr.FunctionCall`, `Expr.BinaryOp`, `Expr.Match` and `Expr.Binding`
    are declared, but no parser produces them.
  - The `…InGrammar` predicates exclude them, and the round-trip lemmas
    cover only the trees the grammar produces.
- Parser.ParseDefinition: the source builds
  `TopLevelDefinition::Binding { name, rhs }` (`parser.rs:86`). The enum
  declares `Binding { lhs: BindingLeftHand, rhs }` (`ast.rs:8`). The model
  reads the definition as `lhs = BindingLeftHand(name, [])`, the only
  well-typed choice.
- Parser construction: in `expr` (`parser.rs:104-120`) the closure given to
  `recursive` ignores its own `expr` argument and builds `literal()` afresh.
  `literal()` (`parser.rs:89-91`) builds `function_literal()`, whose
  `code_block()` builds `expr()` again, so building the parser as written
  recurses without end before any token is read. The model gives the
  grammar the combinators denote, with `expr` and `literal` sharing one
  recursion.
- Sources outside the front end: `compiler.rs`, `types.rs`, `main.rs` and
  `lib.rs` are not part of this model.
- The richer grammar in `tests.rs` is not part of this model. It has
  `match`, infix operators, `=>` after an argument list, `[string]` slice
  types and a `parse` function that `parser.rs` does not define.
- Grammar and tree only: there is no execution, no type checking and no
  name resolution.

## Findings

| source | as written | input that shows it | evidently intended | confidence | as-written member | corrected member |
|---|---|---|---|---|---|---|
| remy-core/src/parser.rs:64 | `[0-9]+(\.(0-9)+)?`: the parentheses make `(0-9)+` one or more copies of the literal text `0-9`, not a digit class | `1.5` fails to lex at offset 1, the `.`; `1.0-9` lexes as one `Number` | `[0-9]+(\.[0-9]+)?`: a decimal fraction of one or more digits | high (not executed) | LexerProperties.AsWrittenRejectsDecimal | LexerProperties.IntendedAcceptsDecimal |
