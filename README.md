# Krill tokenizer in Dafny

This project models the Krill front end's tokenizer, `krill_frontend/src/lexer.rs`,
and proves properties of the model. The tokenizer is a `logos`-derived lexer:
- a `Token` enum whose variants carry `#[token]` and `#[regex]` attributes;
- two `#[logos(skip …)]` rules;
- the decomposition `Token::split_tokens`, its iterator `SplitIter`, and the length table `Token::len`.

It also models the REPL driver, which lexes one line and pulls tokens with
`while let Some(t) = lex.next()`, and the unit test `test_lexer`.

Modules, one per file:

- `Wrappers` (`wrappers.dfy`): `Option` and `Result`.
- `Tokens` (`tokens.dfy`): the `Token` variants and their fixed spellings.
  - `Integer` carries a `u128`, modelled as a `nat` below 2^128.
  - `Float` carries its lexeme (see Left out).
  - `Ident` carries nothing, as in the source. Its text is the span's.
- `Decompose` (`decompose.dfy`): `len`, `split_tokens` and the `SplitIter` cursor.
  Lengths and spellings are proved consistent.
- `Literals` (`literals.dfy`): the digit parser behind `str::parse::<u128>` and
  `u128::from_str_radix`, with its three failures:
  - `Empty`;
  - `InvalidDigit`, which includes every `_`;
  - `PosOverflow`.
  It also defines a reference rendering `Render`, which the parser inverts.
- `Patterns` (`patterns.dfy`): each attribute's pattern, as a language (`InLanguage`) and as a longest-match length (`MatchLen`).
  Each rule also has its `logos` priority:
  - comment 7;
  - whitespace 1;
  - a literal token twice its length;
  - `[0-9_]+` 1;
  - the prefixed integers 5;
  - the float 3;
  - the identifier 3, as written in its attribute.
- `Scanner` (`scanner.dfy`): the contest at a cursor and the lexer itself.
  - The longest match wins, and priority breaks ties.
  - A round either skips, emits a token or integer error, or finds no rule.
  - `TokenizeFrom` is the whole pull sequence.
  - The imperative `Lexer` class has `source`, `pos` and `span` fields, and `Next` is proved against `Pull`.
  - `LexAll` is the driver's loop.
- `Munch` (`munch.dfy`): what a round does, by the first character.
- `RoundTrip` (`roundtrip.dfy`): the rendering of every `u128`, in each of the four literal forms, lexes back to that integer. The rendering of any larger number lexes to one overflow error.
- `Examples` (`examples.dfy`): small sources, and `test_lexer` as a theorem over the whole test string.

Positions are indices into a `string` (`seq<char>`), and spans are half-open.

Errors:
- A `.unwrap()` on a failing integer parse would panic. Here it becomes the item `Err(BadInteger(kind))` over the literal's span.
- A position where no rule matches yields `Err(UnexpectedCharacter)` over one character.
- In both cases the scan goes on after the bad lexeme. For the unexpected character this is what `logos` does. For the integer error it replaces the source's panic.

The comment rule is `\/\/[^\n]\n`, and the model follows that regex. It matches exactly four characters:
- two slashes;
- one character that is not a newline;
- a newline.

A line comment of any other length is not skipped. Under the fallback assumption stated in "## Left out", it lexes as `/`, `/`, then whatever follows: `//ab\n` is `Divide`, `Divide`, `Ident`. A general "`//` up to and including the newline" rule would skip it, so the regex and that description disagree. The lemmas `Examples.ShortCommentSkipped` and `Examples.LongCommentNotSkipped` show the two cases.

## Model

| member | source | states |
|---|---|---|
| Tokens.Spelling | krill_frontend/src/lexer.rs:7-58 | the `#[token]` strings: every spelling is one to three characters, and only `let` has three |
| Tokens.FromSpelling | krill_frontend/src/lexer.rs:7-58 | the token a text names, if any, is one whose `#[token]` spelling is exactly that text |
| Tokens.SpellingRoundTrip | krill_frontend/src/lexer.rs:6-71 | every spelled variant is recovered from its spelling; exactly `Integer`, `Float` and `Ident` have no fixed spelling |
| Tokens.SpellingInjective | krill_frontend/src/lexer.rs:7-58 | no two variants share a `#[token]` spelling |
| Decompose.Len | krill_frontend/src/lexer.rs:92-124 | `len` is `None` exactly for `Integer`, `Float` and `Ident`, and otherwise the length of the token's source spelling |
| Decompose.SplitTokens | krill_frontend/src/lexer.rs:80-90 | a token of length 2 splits into two tokens of length 1; every other token yields only itself |
| Decompose.SplitPreservesText | krill_frontend/src/lexer.rs:80-124 | the pieces' spellings concatenate to the token's spelling, and their lengths sum to `len` (the table and the split agree) |
| Decompose.SplitOutputIsPrimitive | krill_frontend/src/lexer.rs:80-90 | every piece is primitive, so splitting it again gives it back |
| Decompose.SplitAll | krill_frontend/src/lexer.rs:80-90 | splitting a token stream keeps its total length when every token has a fixed length (otherwise both totals are `None`), and yields only primitive tokens, at least as many and at most twice as many |
| Decompose.SplitAllAppend | krill_frontend/src/lexer.rs:80-90 | splitting distributes over concatenation of token streams |
| Decompose.SplitAllPrimitive | krill_frontend/src/lexer.rs:80-90 | a stream of primitive tokens is unchanged by splitting |
| Decompose.SplitAllIdempotent | krill_frontend/src/lexer.rs:80-90 | splitting twice is the same as splitting once |
| Decompose.SplitIter.constructor | krill_frontend/src/lexer.rs:74-90 | the iterator starts before the first piece of `split_tokens` |
| Decompose.SplitIter.Next | krill_frontend/src/lexer.rs:130-135 | yields the pieces in order, one per call, then `None` without moving |
| Literals.DigitOf | krill_frontend/src/lexer.rs:61-64 | a digit's value is below the radix, and `_` is never a digit |
| Literals.DigitOfUpperCase | krill_frontend/src/lexer.rs:62 | an upper-case letter is the same digit as its lower-case counterpart, in every radix |
| Literals.ParseDigits | krill_frontend/src/lexer.rs:61-64 | `parse::<u128>` and `from_str_radix` on the digits: `Empty` exactly for the empty text (its full meaning is `ParseDigitsCorrect`) |
| Literals.ParseFrom | krill_frontend/src/lexer.rs:61-64 | the accumulation loop never reports an empty text, and the value it returns is never below the accumulator |
| Literals.ParseFromCorrect | krill_frontend/src/lexer.rs:61-64 | the digit loop, from any prefix and its value, returns the positional value when it fits in `u128` and `PosOverflow` when it does not |
| Literals.ParseDigitsCorrect | krill_frontend/src/lexer.rs:61-64 | parsing succeeds iff the text is non-empty, all digits of the radix and below 2^128, with the positional value; too large gives `PosOverflow`, empty gives `Empty` |
| Literals.UnderscoreRejected | krill_frontend/src/lexer.rs:60-64 | a literal containing `_` never parses, although the patterns admit `_` |
| Literals.RenderValue | krill_frontend/src/lexer.rs:61-64 | the reference rendering of `n` is a non-empty digit string whose positional value is `n` |
| Literals.ParseRender | krill_frontend/src/lexer.rs:61-64 | parsing the rendering of any `u128` in any radix from 2 to 36 gives it back |
| Patterns.Priority | krill_frontend/src/lexer.rs:4-70 | the priorities `logos` derives and the explicit `priority = 3`: literal tokens get even priorities, the comment rule alone has 7, and none is higher |
| Patterns.InLanguage | krill_frontend/src/lexer.rs:4-70 | the patterns as languages: no pattern admits the empty word, and every word starts with a character that can start its rule |
| Patterns.RunLength | krill_frontend/src/lexer.rs:5 | a character-class run stays inside the source and stops at a character outside the class |
| Patterns.RunLengthLongest | krill_frontend/src/lexer.rs:5 | the run is all in the class, and no longer stretch is |
| Patterns.RunLengthStopsAt | krill_frontend/src/lexer.rs:5 | a stretch in the class followed by a character outside it is the run |
| Patterns.RunLengthSubclass | krill_frontend/src/lexer.rs:61-71 | a run over a narrower class is never longer than over a wider one |
| Patterns.MatchLen | krill_frontend/src/lexer.rs:4-71 | a rule's match stays inside the source; a prefixed integer match is longer than its two-character prefix |
| Patterns.PrefixedLongest | krill_frontend/src/lexer.rs:62-64 | `0x…`, `0b…`, `0o…` reads the longest prefix of the source in the regex's language |
| Patterns.FloatLongest | krill_frontend/src/lexer.rs:67 | the float match is in `[0-9]*\.[0-9]+`, and no longer prefix is |
| Patterns.IdentLongest | krill_frontend/src/lexer.rs:70 | the identifier match is in `[a-zA-Z_][0-9a-zA-Z_]*`, and no longer prefix is |
| Patterns.CommentLongest | krill_frontend/src/lexer.rs:4 | the comment match is a four-character `//`, non-newline, newline text, and no longer prefix is one |
| Patterns.FixedLongest | krill_frontend/src/lexer.rs:7-58 | a literal token matches exactly its spelling and nothing longer |
| Patterns.MatchIsWord | krill_frontend/src/lexer.rs:4-71 | every rule's match is a word of the rule's pattern |
| Patterns.MatchIsLongest | krill_frontend/src/lexer.rs:4-71 | no longer prefix of the source is a word of the rule's pattern |
| Patterns.LongestFixedCorrect | krill_frontend/src/lexer.rs:7-58 | the literal read one character at a time matches, and beats every other literal that matches (longer, or the same token) |
| Patterns.LongestFixedMatches | krill_frontend/src/lexer.rs:7-58 | the literal read has its full spelling at the cursor |
| Patterns.MatchStarts | krill_frontend/src/lexer.rs:4-71 | a rule only matches where the source has a character that can start it |
| Patterns.FixedStart | krill_frontend/src/lexer.rs:7-58 | `let` is the only spelling starting with a letter; all others are one or two characters, each an operator character |
| Patterns.StartersAtSpace | krill_frontend/src/lexer.rs:5 | only the whitespace skip can start at whitespace |
| Patterns.StartersAtDigit | krill_frontend/src/lexer.rs:61-68 | only integer and float rules can start at a digit |
| Patterns.StartersAtWord | krill_frontend/src/lexer.rs:7-8 | at a letter or `_` only the identifier, `let` (at `l`) and `[0-9_]+` (at `_`) can start |
| Patterns.StartersAtOperator | krill_frontend/src/lexer.rs:4 | at an operator character only literal tokens and the comment (at `/`) can start |
| Patterns.StartersAtPoint | krill_frontend/src/lexer.rs:67 | only the float can start at `.` |
| Scanner.BestOf | krill_frontend/src/lexer.rs:3-71 | a rule chosen from a list matches |
| Scanner.BestOfCorrect | krill_frontend/src/lexer.rs:3-71 | nothing is chosen iff no rule in the list matches; a chosen rule outranks every listed rule (longer match, else higher priority) |
| Scanner.CandidatesCover | krill_frontend/src/lexer.rs:3-71 | the rules tried at a cursor include one that outranks any rule that matches there |
| Scanner.Winner | krill_frontend/src/lexer.rs:3-71 | a winning rule matches at the cursor |
| Scanner.WinnerCorrect | krill_frontend/src/lexer.rs:3-71 | there is no winner iff no rule at all matches; the winner outranks every rule |
| Scanner.WinnerUnique | krill_frontend/src/lexer.rs:3-71 | two rules cannot both win at a cursor: the priorities leave no tie unbroken |
| Scanner.SameRankSameRule | krill_frontend/src/lexer.rs:3-71 | two rules of the same priority that match the same length are the same rule |
| Scanner.FixedSameMatch | krill_frontend/src/lexer.rs:7-58 | two literal tokens matching the same text are the same token |
| Scanner.Produce | krill_frontend/src/lexer.rs:4-71 | a rule's lexeme is consumed whole; it is skipped exactly for the two skip rules, and is never an unexpected character |
| Scanner.ProduceMeaning | krill_frontend/src/lexer.rs:4-71 | what a rule makes of a word denotes that word: the parsed integer or its error, the float's text, the identifier or the spelled token |
| Scanner.StepAt | krill_frontend/src/lexer.rs:3-71 | a round that matches consumes at least one character and stays in the source |
| Scanner.StepLongest | krill_frontend/src/lexer.rs:3-71 | a round finds nothing iff no rule matches, and otherwise consumes at least as much as any rule matches (maximal munch) |
| Scanner.StepOfWinner | krill_frontend/src/lexer.rs:3-71 | the round does what the winning rule makes of its match |
| Scanner.WinnerLength | krill_frontend/src/lexer.rs:3-71 | the winner's match is at least as long as any rule's |
| Scanner.KeywordBeatsIdent | krill_frontend/src/lexer.rs:7-8 | an identifier never wins on the exact text `let` |
| Scanner.IdentWinnerIsNotLet | krill_frontend/src/lexer.rs:70-71 | when the identifier rule is the winner its text is not `let` |
| Scanner.StepMeaning | krill_frontend/src/lexer.rs:3-71 | the text a round skips is whitespace or a comment, and the text it emits denotes the item emitted |
| Scanner.Report | krill_frontend/src/lexer.rs:3-71 | a round reports nothing exactly when it skips, and otherwise a lexeme starting at the cursor inside the source |
| Scanner.ReportedIsWellPlaced | krill_frontend/src/lexer.rs:3-71 | a reported lexeme's text denotes its item, and an unexpected character is reported only where no rule matches |
| Scanner.Pull | krillscript/repl/src/main.rs:13 | `lex.next()` returns a lexeme at or after the cursor, inside the source |
| Scanner.PullReported | krillscript/repl/src/main.rs:13 | what `next` returns is what the round at its start reports |
| Scanner.TokenizeFrom | krillscript/repl/src/main.rs:13-15 | every span the driver prints lies inside the source, after the start, and there are no more lexemes than characters left |
| Scanner.TokenizeFromOrdered | krillscript/repl/src/main.rs:13-15 | spans come out in order and never overlap |
| Scanner.TokenizeFromWellPlaced | krillscript/repl/src/main.rs:13-15 | every lexeme in the sequence is reported by its round and its text denotes its item |
| Scanner.TokenizeFromEmit | krillscript/repl/src/main.rs:13 | an emitting round puts its lexeme first and resumes after it |
| Scanner.TokenizeFromSkip | krill_frontend/src/lexer.rs:4-5 | a skipped stretch contributes nothing to the sequence |
| Scanner.TokenizeFromNoMatch | krill_frontend/src/lexer.rs:3-71 | where no rule matches, one unexpected-character error covers one character and scanning resumes after it |
| Scanner.TokenizeFromEnd | krillscript/repl/src/main.rs:13 | at the end of the source `next` yields nothing |
| Scanner.Tokenize | krillscript/repl/src/main.rs:12-15 | `Token::lexer(src)` pulled until `None`: at most one lexeme per source character |
| Scanner.WholeSource | krill_frontend/src/lexer.rs:3-71 | a source consumed by one emitting round lexes to exactly that one lexeme |
| Scanner.Lexer.constructor | krillscript/repl/src/main.rs:12 | a fresh lexer is at position 0 of its source |
| Scanner.Lexer.Next | krillscript/repl/src/main.rs:13-14 | returns the next item and sets `span` to its span, advancing past it; at the end returns `None` |
| Scanner.LexAll | krillscript/repl/src/main.rs:13-15 | the driver loop collects exactly the lexeme sequence of the source |
| Munch.SoleMatchWins | krill_frontend/src/lexer.rs:3-71 | a rule that alone matches wins |
| Munch.WhitespaceSkipped | krill_frontend/src/lexer.rs:5 | at whitespace the whole run of whitespace is skipped |
| Munch.WhitespaceOnly | krill_frontend/src/lexer.rs:5 | a source of whitespace only yields no token |
| Munch.NoItemAtWhitespace | krill_frontend/src/lexer.rs:5 | no lexeme starts at a whitespace character |
| Munch.CommentSkipped | krill_frontend/src/lexer.rs:4 | where the comment matches, exactly four characters are skipped |
| Munch.OperatorStep | krill_frontend/src/lexer.rs:10-58 | at an operator character (no comment) the longest spelling present is emitted |
| Munch.WordStep | krill_frontend/src/lexer.rs:7-8 | at a letter or `_` the whole identifier-shaped word is read: `Let` if it is exactly `let`, else `Ident` |
| Munch.KeywordShorter | krill_frontend/src/lexer.rs:7-8 | when `let` matches but the word is not `let`, the word is longer |
| Munch.Radix | krill_frontend/src/lexer.rs:62-64 | the prefixed forms use radixes that `from_str_radix` accepts |
| Munch.PrefixedStep | krill_frontend/src/lexer.rs:62-64 | a prefixed literal is read whole and its digits after the prefix are parsed in its radix |
| Munch.FloatStep | krill_frontend/src/lexer.rs:67-68 | where the float matches, the float is emitted with its text |
| Munch.FloatOutranks | krill_frontend/src/lexer.rs:61-68 | where the float matches it outranks every rule |
| Munch.PrefixedNotAtFloat | krill_frontend/src/lexer.rs:62-67 | a prefixed integer and the float never match at the same cursor |
| Munch.DecimalShorterThanFloat | krill_frontend/src/lexer.rs:61-67 | where the float matches, `[0-9_]+` matches less |
| Munch.DecimalStep | krill_frontend/src/lexer.rs:61 | at a digit, with no float or prefix, the `[0-9_]+` run is read and parsed in base 10 |
| RoundTrip.RenderInClass | krill_frontend/src/lexer.rs:61-64 | a rendering only uses characters of any class holding the radix's digits |
| RoundTrip.PrefixedText | krill_frontend/src/lexer.rs:62-64 | a prefixed rendering is one match of its rule |
| RoundTrip.PrefixedRoundTrip | krill_frontend/src/lexer.rs:62-65 | `0x`, `0b` or `0o` followed by the rendering of `n` lexes to one `Integer(n)` over the whole source |
| RoundTrip.DecimalText | krill_frontend/src/lexer.rs:61-67 | a decimal rendering is one decimal match, and neither the float nor a prefixed form matches it |
| RoundTrip.DecimalRoundTrip | krill_frontend/src/lexer.rs:61-65 | the decimal rendering of `n` lexes to one `Integer(n)` over the whole source |
| RoundTrip.DecimalOverflow | krill_frontend/src/lexer.rs:61 | the decimal rendering of any number of 2^128 or more lexes to one `PosOverflow` error over the whole source |
| RoundTrip.PrefixedOverflow | krill_frontend/src/lexer.rs:62-64 | `0x`, `0b` or `0o` followed by the rendering of any number of 2^128 or more lexes to one `PosOverflow` error over the whole source |
| Examples.AndAndIsOneToken | krill_frontend/src/lexer.rs:22-25 | `&&` lexes to one `AndAnd` |
| Examples.OrOrIsOneToken | krill_frontend/src/lexer.rs:26-29 | two vertical bars lex to one `OrOr` |
| Examples.AndThenOr | krill_frontend/src/lexer.rs:22-27 | an ampersand then a vertical bar lex to `And` then `Or` |
| Examples.EqIsOneToken | krill_frontend/src/lexer.rs:30-33 | `==` lexes to one `Eq` |
| Examples.KeywordAt | krill_frontend/src/lexer.rs:7-8 | `let` not followed by an identifier character is the keyword |
| Examples.IdentAt | krill_frontend/src/lexer.rs:70-71 | an identifier-shaped word that is not `let` is one `Ident` |
| Examples.PrefixedAt | krill_frontend/src/lexer.rs:62-64 | a prefixed literal whose digits parse is one `Integer` of that value |
| Examples.DecimalAt | krill_frontend/src/lexer.rs:61 | a digit run not followed by a word character or `.` is one `Integer` |
| Examples.LetIsKeyword | krill_frontend/src/lexer.rs:7-8 | `let` lexes to `Let` |
| Examples.Let0IsIdent | krill_frontend/src/lexer.rs:70-71 | `let0` lexes to one `Ident` |
| Examples.MixedCaseHexDigits | krill_frontend/src/lexer.rs:62 | hex digits `aB` parse to 0xab |
| Examples.LeadingZeroOctalDigits | krill_frontend/src/lexer.rs:64 | octal digits `0456` parse to 0o456 |
| Examples.DecimalDigits | krill_frontend/src/lexer.rs:61 | `34`, `1` and `0` parse to their values |
| Examples.HexLiteral | krill_frontend/src/lexer.rs:62 | `0xaB` lexes to `Integer(0xab)` |
| Examples.OctalLiteral | krill_frontend/src/lexer.rs:64 | `0o0456` lexes to `Integer(0o456)` |
| Examples.DecimalLiteral | krill_frontend/src/lexer.rs:61 | `34` lexes to `Integer(34)` |
| Examples.BlanksYieldNothing | krill_frontend/src/lexer.rs:5 | blanks, tab, carriage return and newline lex to nothing |
| Examples.BarePrefix | krill_frontend/src/lexer.rs:61-71 | `0x` with no digits lexes to `Integer(0)` then `Ident`, assuming the automaton falls back after the failed partial match of `0x[0-9a-fA-F_]+` (see Left out) |
| Examples.ShortCommentSkipped | krill_frontend/src/lexer.rs:4 | `//a` plus newline is skipped entirely |
| Examples.LongCommentNotSkipped | krill_frontend/src/lexer.rs:4 | `//ab` plus newline is not a comment: it lexes to `Divide`, `Divide`, `Ident`, assuming the automaton falls back to `/` after the failed partial match of the comment rule (see Left out) |
| Examples.UnitTest | krill_frontend/src/lexer.rs:141-166 | the test's source lexes to exactly the eighteen expected tokens, each `Ok` |

## Left out

- `Float`'s `f64` payload: the token carries its lexeme, because the decimal-to-binary rounding of `str::parse::<f64>` is floating point. The float rule's shape and priority are modelled.
- The `logos` state machine: the model assumes that the generated automaton returns the longest match among the declared rules, with priority breaking ties, and that after a failed partial match it falls back to the last accepting position. The automaton's tables and code are not modelled. `Examples.BarePrefix` and `Examples.LongCommentNotSkipped` depend on the fallback.
- The REPL's terminal I/O: the prompt, flushing stdout, `read_line`, printing and `line.clear()` in `krillscript/repl/src/main.rs`. The driver is modelled as lexing one given string and collecting what it would print.
- `.unwrap()` panics: an integer literal that does not parse is the item `Err(BadInteger(kind))` and scanning continues. The source aborts the process there.
- An unrecognised position is one character long in the model. `logos` skips one UTF-8 character, so byte-based spans are the same only for ASCII text.
- Spans are character indices in the model, not byte offsets. The two agree up to the first non-ASCII character. The comment rule's `[^\n]` and an unrecognised character can both consume a multi-byte character, and every later span on that line is then shifted.
- `SplitIter`'s `Once`/`Multi` wrappers around `core::iter::Once` and `core::slice::Iter`: both are one cursor over the sequence `split_tokens` yields.
- Signs in integer parsing: only unsigned digit strings are parsed. The patterns never pass a sign to the parser, so the `+` prefix and `Empty` on a sign alone are not modelled.
- The derived `Clone`, `Copy`, `Debug` and `PartialEq` implementations: they are Dafny's value semantics and equality on the `Token` datatype.
- `len`'s `usize`: it is a `nat`, because no value above 3 occurs.
