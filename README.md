# sass-rta core, modelled in Dafny

sass-rta is a small Rust tool that reads SCSS and builds a tree of rule blocks (scopes, each with a
selector list and a body) and declarations (properties, `key: value;`). This project models its
three sequential components and proves what they do:

- **The recursive-descent parser** (`src/parser.rs`). `Parser` holds a token source and a two-token
  window, `curr` and `peek`. It decides "property or scope" by scanning a copy of the token source
  for the first `;` or `{`. It builds selector texts and property values by concatenating and
  trimming. It drops a construct when the stream ends before the construct is complete.
  - The module `Parser` has a reference parser of pure functions: `ExpressionsFrom`,
    `ConstructFrom`, `ScopeFrom`, `SelectorsFrom`, `PropertyFrom` and `PropertyValueFrom`. Each
    takes the tokens and the index of `curr`, and returns the result plus the index that is
    current afterwards.
  - The class `Parser.Parser` has the stateful parser, one method per routine of the source, with
    the same loops and mutual recursion. Three further methods each cover part of a routine:
    `ParseStep` is one pass of `parse_expression`'s loop, `ParseConstruct` is that pass before its
    `next()`, and `ParseSelectors` is the selector loop of `parse_scope`. Each method is proved to
    return what the corresponding function returns and to leave the same token current.
  - `ParserProperties` proves what the reference parser guarantees.
  - `ParserExamples` works the source's test cases through the reference parser. Two of them,
    the nested scope and the `padding` property, are also proved for the stateful parser's methods
    (`ParseNestedExample`, `ParsePaddingExample`). The other results carry over to the stateful
    parser through the equalities its methods prove.
  - Value texts are called clean when they are non-empty and have no outer whitespace, as the
    texts of a lexer's tokens are (`Text.Clean`).
- **The character lexer** (`src/lexer.rs`): the class `Lexer.Lexer`, with a fixed input and a
  mutable `position`. `Token` skips whitespace and emits one token per remaining character. The
  pure function `TokensFrom` gives the whole token run, and `LexRoundTrip` proves that the run
  spells the input without its whitespace.
- **The evil-ampersand classifier** (`src/ambuster.rs`): `HasEvilAmp`. The regular expression is
  replaced by an explicit search for one of its twelve two-character alternatives.
- **The expression tree** (`src/expression.rs`): the datatypes of module `Expression`. `Expr` is a
  closed sum of six node kinds, each carrying a `Range`. Equality is Dafny's structural datatype
  equality, matching the source's derived `PartialEq`.

The lexer of src/lexer.rs does not produce the tokens the parser consumes. The parser uses `PToken`,
`Cursor`, `Range` and the tokens `Value`, `Colon` and `Semicolon`, and src/lexer.rs defines none
of them. So the parser runs over an abstract, already tokenized input. `TokenStream.TokenSource` is
a sequence of `PToken`s plus the index of the next one to hand out. Cloning the lexer for lookahead
is copying this value. Module `Position` defines `Cursor` and `Range` from the way the parser uses
them.

Some functions are reference definitions, which the contracts in the table are stated in terms of:

- `Text.IsWhitespace` is the White_Space set that Rust's `char::is_whitespace` tests.
- `Lexer.Classify` maps a character to the token `token()` emits for it (src/lexer.rs:27-33).
- `Lexer.Structural` is the classification `tokenSelector` makes (src/lexer.rs:44-50).
- `Lexer.TokensFrom` is the whole run of tokens that repeated `token()` calls give (src/lexer.rs:20-36).
- `Parser.IsPropertyAt` and `Parser.IsScopeAt` are the two lookahead answers (src/parser.rs:134-164).

Where the code behaves differently from what a reader might expect, the model follows the code:

- A scope may have no selectors at all. For example, `; { }` gives a scope with an empty selector
  list (`ParserExamples.NoSelectorExample`). A selector may also be the empty string, as in `, a {}`.
- In `has_evil_amp`, one allowed pair anywhere in the string clears the whole string. This is not
  the rule "an `&` next to an identifier character is evil"; both directions of the difference are
  proved in `Ambuster.PatternRuleDiffersFromIdentifierRule`.
- A property value stops at any token that is not a `Value`, not only at `;` or `}`.
- The token after a property's key is skipped whether or not it is a `:`.
- A stray `}` at the top level ends `parse`, and everything after it is discarded. For example,
  `} .a {}` parses to nothing (`ParserExamples.StrayBraceExample`).
- The lookahead does not stop at a `}`. In `a : b } c {`, `a` counts as the head of a scope, because
  the first `;` or `{` after it is the `{` beyond the `}` (`ParserExamples.LookaheadPastBraceExample`).

## Model

| member | source | states |
|---|---|---|
| `Parser.Parser.constructor` | src/parser.rs:19-23 | `curr` and `peek` are the first two tokens the source hands out (absent past the end), and the source is positioned after them |
| `Parser.Parser.Next` | src/parser.rs:25-28 | the old `peek` becomes `curr`; `peek` becomes the token after it, pulled from the source; the window moves by exactly one token |
| `Parser.Parser.Parse` | src/parser.rs:30-32 | returns the top-level expressions the reference parser gives from the current token, and leaves current the token it stops at |
| `Parser.Parser.ParseExpression` | src/parser.rs:34-57 | collects the constructs of the reference parser until the stream ends or `curr` is `}`; that `}` is left current, not consumed |
| `Parser.Parser.ParseStep` | src/parser.rs:37-53 | one loop pass: adds what the reference pass `ConstructFrom` gives and leaves current the token after the one it stops at; so it strictly advances, and the remaining result is what this pass added followed by what the rest of the loop adds |
| `Parser.Parser.ParseConstruct` | src/parser.rs:38-52 | parses a property when the lookahead says property, else a scope when it says scope, else nothing; a dropped construct adds nothing |
| `Parser.Parser.ParseScope` | src/parser.rs:59-95 | equals the reference `ScopeFrom`: the selectors, one unconditional step, the body up to `}`; the scope is dropped when the stream ends first |
| `Parser.Parser.ParseSelectors` | src/parser.rs:60-83 | equals the reference selector loop `SelectorsFrom` from an empty text and an empty list, and stops on the same token |
| `Parser.Parser.ParseProperty` | src/parser.rs:97-114 | equals the reference `PropertyFrom`: nothing unless `curr` is a `Value`; the key, one skipped token, then the value; dropped at end of stream |
| `Parser.Parser.ParsePropertyValue` | src/parser.rs:116-132 | always returns `Some`: the trimmed, space-separated texts of the run of `Value` tokens; the first non-`Value` token is left current |
| `Parser.Parser.IsProperty` | src/parser.rs:134-148 | true exactly when the first `;` or `{` after `curr` is a `;`; the parser's state is not changed |
| `Parser.Parser.IsScope` | src/parser.rs:150-164 | true exactly when the first `;` or `{` after `curr` is a `{`; the parser's state is not changed |
| `Parser.Parser.NextNotValueToken` | src/parser.rs:166-179 | the first token from `peek` on that is not a `Value`, or `None` when there is none; the parser's state is not changed |
| `Parser.FirstDelimiter` | src/parser.rs:137-145 | the lookahead scan: every token it passes is neither `;` nor `{`, and it stops on one of them or at the end |
| `Parser.ValueRunEnd` | src/parser.rs:120-129 | the value loop's stop: every token it passes is a `Value`, and the token it stops at is not |
| `Parser.NextNotValue` | src/parser.rs:166-179 | `None` exactly when only `Value` tokens remain; otherwise a non-`Value` token with only `Value`s before it |
| `Parser.PropertyValueFrom` | src/parser.rs:116-132 | the value ends at the end of the `Value` run |
| `Parser.PropertyFrom` | src/parser.rs:97-114 | never moves backwards; a property is produced only at a `Value` token and only when a token is current at its end |
| `Parser.SelectorsFrom` | src/parser.rs:67-83 | passes only `Value`, `,` and `:` tokens and stops at the first other token or at the end |
| `Parser.ScopeOf` | src/parser.rs:85-94 | ends where the body ends, and is produced exactly when a token is current there |
| `Parser.ScopeFrom` | src/parser.rs:59-95 | a produced scope ends on a `}` that is still current |
| `Parser.ConstructFrom` | src/parser.rs:38-52 | one loop pass adds at most one expression and never moves backwards |
| `Parser.ExpressionsFrom` | src/parser.rs:34-57 | stops at the end or at a `}`; when `curr` is present and not `}`, it consumes at least one token |
| `ParserProperties.IsPropertyMeaning` | src/parser.rs:134-148 | `is_property` holds if and only if some `;` follows `curr` with no `{` before it |
| `ParserProperties.IsScopeMeaning` | src/parser.rs:150-164 | `is_scope` holds if and only if some `{` follows `curr` with no `;` before it |
| `ParserProperties.LookaheadExclusive` | src/parser.rs:134-164 | the two lookaheads are never both true, and both are false exactly when no `;` or `{` follows `curr` |
| `ParserProperties.ValueTextsAt` | src/parser.rs:120-129 | the value loop collects one text per `Value` token of the run, in order, and each is that token's text |
| `ParserProperties.PropertyValueJoins` | src/parser.rs:116-132 | when the value tokens' texts are non-empty and have no outer whitespace, the value is exactly those texts joined by single spaces |
| `ParserProperties.PropertyStructure` | src/parser.rs:97-114 | at a `Value(key)` token, including the last token of the stream: produced exactly when the value run ends before the stream does; the key is unchanged, the value is joined, and the range runs from the key to the token that ends the run |
| `ParserProperties.DeclarationStep` | src/parser.rs:37-53 | a declaration `key : v1 ... vn ;` in a block adds exactly one property, with its key, the value `parse_property_value` reads after the `:` and its range up to the `;`, and the block goes on after the `;` |
| `ParserProperties.DeclarationStepJoined` | src/parser.rs:37-53 | the same for clean value texts, where the property's value is the texts joined by single spaces |
| `ParserProperties.PropertyNeedsValue` | src/parser.rs:97-113 | without a current `Value` token, `parse_property` produces nothing and consumes nothing |
| `ParserProperties.SelectorsValueRun` | src/parser.rs:67-69 | the selector loop passes a run of `Value` tokens by appending each text followed by a space |
| `ParserProperties.SelectorGroup` | src/parser.rs:67-83 | a run of clean (non-empty, no outer whitespace) `Value` texts becomes one selector, the texts joined by single spaces: finished and stopped at `{`, finished and followed by the next group at `,`, continued with `:` appended at `:`, discarded at `;`, `}` or the end |
| `ParserProperties.SelectorsCount` | src/parser.rs:67-83 | one selector per `,` passed, plus one when the loop stops at `{`; selectors already finished are kept in front |
| `ParserProperties.SelectorsTrimmed` | src/parser.rs:67-83 | every selector the loop finishes starts and ends with a non-whitespace character, or is empty |
| `ParserProperties.ScopeStructure` | src/parser.rs:59-95 | a scope is produced exactly when a token is current after its body; its selectors are the selector loop's, its children the body's, and its range runs from its first token to the closing `}`, which is current afterwards |
| `ParserProperties.SingleSelectorScope` | src/parser.rs:59-95 | a scope headed by one run of clean (non-empty, no outer whitespace) `Value` texts and a `{` has that run, joined by spaces, as its only selector and the block after the `{` as its children |
| `ParserProperties.ExpressionsSound` | src/parser.rs:34-57 | every expression produced is a scope or a property, down to the leaves; with ordered tokens every node's range runs forwards |
| `ParserProperties.ConstructSound` | src/parser.rs:38-52 | the same for one loop pass |
| `ParserProperties.ScopeSound` | src/parser.rs:59-95 | the same for one scope and its children |
| `ParserExamples.NestedExample` | src/parser.rs:312-337 | `.a { color: red; .b { width: 100px; } }` gives one scope holding a property and a scope holding a property, with the source's ranges |
| `ParserExamples.ParseNestedExample` | src/parser.rs:312-337 | the stateful parser returns that same tree |
| `ParserExamples.PropertiesExample` | src/parser.rs:193-214 | `color: red;\npadding: 1px 1rem; margin: 0 1px 2px;` gives three properties with the source's values and ranges |
| `ParserExamples.ParsePaddingExample` | src/parser.rs:202-206 | `parse_property` at `padding` gives `"1px 1rem"` over (1,0)-(1,17) and leaves the `;` current |
| `ParserExamples.VariableExample` | src/parser.rs:217-226 | `$primary: #123456;` gives one property over (0,0)-(0,17) |
| `ParserExamples.TwoScopesExample` | src/parser.rs:233-249 | `.a {}\n.c {}` gives two empty scopes over (0,0)-(0,4) and (1,0)-(1,4) |
| `ParserExamples.SelectorListExample` | src/parser.rs:252-268 | `.a .b {}\n.c, .d {}` gives the selector `.a .b` and the list `.c`, `.d` |
| `ParserExamples.PseudoExample` | src/parser.rs:271-287 | `.a:b {} .cc::ff {}` gives the selectors `.a:b` and `.cc::ff` |
| `ParserExamples.NestedSelectorsExample` | src/parser.rs:290-310 | `.a .b { .c, .d {} #e {} }` gives one scope holding two empty scopes, with the source's ranges |
| `ParserExamples.NoSelectorExample` | src/parser.rs:67-85 | `; { }` gives a scope with no selectors: the loop stops at once, and the step after it lands on the `{` |
| `ParserExamples.StrayBraceExample` | src/parser.rs:30-39 | `} .a {}` parses to nothing at the top level, although a scope starts right after the `}` |
| `ParserExamples.LookaheadPastBraceExample` | src/parser.rs:134-164 | in `a : b } c {` the lookahead at `a` says scope and not property, because it runs past the `}` |
| `Lexer.Lexer.constructor` | src/lexer.rs:16-18 | the lexer starts at position 0 over the given input |
| `Lexer.Lexer.Token` | src/lexer.rs:20-36 | skips whitespace; returns `None` exactly when only whitespace remains, leaving the position there; otherwise returns the character's token and moves one past it; the returned token is the head of the remaining token run |
| `Lexer.Lexer.TokenSelector` | src/lexer.rs:38-53 | skips whitespace, classifies its argument rather than the input character (`None` unless structural), and always moves one further, possibly past the end |
| `Lexer.Lexer.Next` | src/lexer.rs:55-57 | the position moves by one, and the old `peek` becomes `curr` |
| `Lexer.Lexer.Curr` | src/lexer.rs:59-61 | the character at the position, absent exactly past the end |
| `Lexer.Lexer.Peek` | src/lexer.rs:63-65 | the character after the position, absent exactly past the end |
| `Lexer.Lexer.IsNumber` | src/lexer.rs:67-69 | holds exactly for the ASCII digits and `.` |
| `Lexer.TokensFromRoundTrip` | src/lexer.rs:20-36 | the tokens from any position spell the rest of the input with its whitespace removed |
| `Lexer.LexRoundTrip` | src/lexer.rs:20-36 | a full run of `token()` spells the input with all whitespace removed, in order |
| `Lexer.LexDotAExample` | src/lexer.rs:77-84 | `.a { }` lexes to `.`, `a`, `{`, `}` and then nothing |
| `Ambuster.PairAllowedExactly` | src/ambuster.rs:14-17 | the character-level test accepts exactly the pattern's twelve two-character alternatives |
| `Ambuster.FindAllowedPair` | src/ambuster.rs:24-27 | the leftmost allowed pair at or after a position, or none when no allowed pair starts there or later |
| `Ambuster.HasEvilAmp` | src/ambuster.rs:19-28 | false without `&`; otherwise true if and only if no allowed pair occurs at any index |
| `Ambuster.ScopeHasAmp` | src/ambuster.rs:9-11 | always false |
| `Ambuster.AllowedPairClears` | src/ambuster.rs:15-16 | one allowed pair anywhere makes the string not evil, whatever surrounds it |
| `Ambuster.LoneTrailingAmpIsEvil` | src/ambuster.rs:15-16 | a string whose only `&` is its last character, right after `.`, `:`, `#` or a space, is evil, since only `+&`, `>&` and `~&` allow a character before `&` |
| `Ambuster.NotEvilExamples` | src/ambuster.rs:35-45 | the source's nine strings that are not evil |
| `Ambuster.EvilExamples` | src/ambuster.rs:48-56 | the source's six strings that are evil |
| `Ambuster.PatternRuleDiffersFromIdentifierRule` | src/ambuster.rs:19-28 | the pattern rule and the "`&` next to an identifier character" rule disagree in both directions |
| `Text.SkipWhitespace` | src/lexer.rs:22-24 | stops at the first non-whitespace position at or after the start, passing only whitespace, and never past the end |
| `Text.SkipWhitespaceBack` | src/parser.rs:71 | the start of the trailing whitespace before a position |
| `Text.Trim` | src/parser.rs:131 | `trim` never lengthens a string |
| `Text.TrimShape` | src/parser.rs:71 | `trim` keeps a contiguous part of the string, removes only whitespace around it, and neither end of the result is whitespace |
| `Text.TrimOfTrimmed` | src/parser.rs:78 | a string with no outer whitespace trims to itself |
| `Text.TrimIdempotent` | src/parser.rs:78 | trimming twice is trimming once |
| `Text.TrimSpacedIsJoin` | src/parser.rs:122-131 | texts accumulated each with a trailing space, then trimmed, are the texts joined by single spaces when each is non-empty and has no outer whitespace |

## Left out

- `src/main.rs`: command-line parsing, subcommands and printing. This is I/O, and it is not part of
  this model.
- The `regex` crate and `lazy_static!` (src/ambuster.rs:1, 6, 14-17). They are replaced by an
  explicit search for the twelve two-character alternatives.
- Connecting the parser to the lexer of src/lexer.rs. Its tokens and `token()` signature are not
  the ones the parser uses, so the parser runs over an abstract sequence of positioned tokens.
- The import of `Expr` and `Scope` from `crate::parser` in src/ambuster.rs:3-4, which names
  definitions that live in src/expression.rs. `ScopeHasAmp` takes the `Expression.Scope` datatype.
- Building `Import`, `Include`, `Mixin` and `Media`. No code in src/ builds them, so they are declared
  as datatypes only.
- Comments, quotes, escapes and row/column tracking. No code in src/ implements them.
- Machine integer widths. Positions are unbounded `nat`s. The source's `usize` position in
  `tokenSelector` could only overflow after `usize::MAX` calls.
- Text.Trim: its own contract states only that the result is no longer than the input. Its full
  meaning is stated and proved in `Text.TrimShape`, `Text.TrimOfTrimmed` and
  `Text.TrimIdempotent`. Keeping it off `Trim` itself keeps every proof that uses `Trim` small.
- Parser.PropertyValueFrom: its own contract states only where the value stops. The value itself
  is characterised by `ParserProperties.PropertyValueJoins`.
- ParserProperties.PropertyValueJoins: assumes value texts that are non-empty and have no outer
  whitespace (clean), as a lexer emits them. Without that assumption the value is still `Trim` of the space-separated
  texts, by the definition of `PropertyValueFrom`.
- ParserProperties.PropertyStructure: assumes clean value texts, as a lexer emits them, to state
  the value as the texts joined by spaces.
- ParserProperties.DeclarationStepJoined: assumes clean value texts, as a lexer emits them. The
  general form, with the value as `PropertyValueFrom` reads it, is `ParserProperties.DeclarationStep`.
- ParserProperties.SelectorGroup: assumes clean value texts, as a lexer emits them. The general
  form, with each text followed by a space, is `ParserProperties.SelectorsValueRun`.
- ParserProperties.SingleSelectorScope: assumes clean value texts, as a lexer emits them, since it
  builds on `ParserProperties.SelectorGroup`.
- The examples give the parser the tokens a lexer would produce from each test input, at the rows
  and columns of the input. A token's own end position is not used by the parser and is set one
  column after its start.
