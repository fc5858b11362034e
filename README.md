# Ruau lexer and translator in Dafny

Ruau translates a small Rust-like syntax into print-oriented script text in two
stages. This project models both stages:

- **The lexer** (`src/ruau/src/lexer/lexer.rs`). `tokenize` scans the characters
  one at a time with two states, normal and inside a string. It keeps a pending
  word buffer and appends tokens to a list. `push_token` flushes the buffer
  through `parse_token`, which classifies a word in a fixed order: Boolean,
  Keyword, `i32` Integer, `f32` Float, Function (the word holds a `!`), then
  Identifier.
- **The translator** (`src/ruau/src/translator/translator.rs`). `translate`
  walks the tokens once and appends a fixed text fragment for each one. A
  single flag, `doing_function`, decides whether a `)` gets a trailing space.
  The output always ends with `main()`.

Files:

- `wrappers.dfy`: the `Option` type.
- `lexer.dfy`: the token datatypes and Rust's `i32` parser. It also holds
  `ParseToken` and the scanner specification: `Step` is one loop iteration,
  `Run` folds it over the input, and `Tokens` is the result of `tokenize`.
  `Tokenize` and `PushToken` are imperative methods proved equal to that
  specification.
- `lexer_properties.dfy`: lemmas about the scanner and the classifier.
- `translator.dfy`: the specification of `translate`. `Fragment` is one
  token's text and `Rendered` is the whole loop's output. The file also holds
  the method `Translate`, whose loop body is `TranslateToken`; both are proved
  against that specification.
- `translator_properties.dfy`: lemmas about the translator's output.
- `pipeline.dfy`: both stages proved on a sample program.

`Tokenize` keeps the three mutable locals of the Rust loop (`tokens`, the
pending buffer and the string flag). `PushToken` receives them and hands them
back, in place of the `&mut` arguments. `Translate` keeps `end_result` and
`doing_function`. The two `continue` statements of the Rust loop (translator.rs:34
and :62) sit inside an `if` and skip the append that follows it (`") "` and
`";\n"`); the model writes each of them as an `if`/`else` that appends one
fragment or the other.

## Model

| member | source | states |
|---|---|---|
| `Lexer.ParseI32` | src/ruau/src/lexer/lexer.rs:144 | Rust's `i32` parse. A result needs the shape `SignedDigits` describes: a non-empty text, digits after the first character, and a first character that is a digit or a `+`/`-` followed by at least one digit. |
| `LexerProperties.SignedDigits` | src/ruau/src/lexer/lexer.rs:144 | For every sign in {none, `+`, `-`} and every non-empty digit string, the parse is `Some` of the signed decimal value when it lies in the i32 range and `None` otherwise. With the contract of `ParseI32` this fixes the parse of every text. |
| `Lexer.ParseToken` | src/ruau/src/lexer/lexer.rs:127-171 | Each kind holds exactly when the fixed priority order says so: `true`/`false` are Boolean, `if`/`fn`/`let`/`else` are Keyword, then i32, then f32, then text containing `!` is Function, and the rest is Identifier. The payload tag matches the kind, the payload is the text or its parsed value, and no word becomes a String or NoValue token. |
| `Lexer.PushToken` | src/ruau/src/lexer/lexer.rs:120-125 | An empty buffer adds no token. A non-empty buffer appends exactly `parse_token` of its text. The buffer is empty afterwards. |
| `Lexer.Tokenize` | src/ruau/src/lexer/lexer.rs:49-118 | The loop and the final flush compute `Tokens(input)`: the left fold of the per-character step over the input, then one more flush. |
| `LexerProperties.DelimiterStep` | src/ruau/src/lexer/lexer.rs:70-97 | Outside a string, a bracket flushes the buffer and appends its own NoValue token. Inside a string, it is appended to the buffer. |
| `LexerProperties.SemicolonStep` | src/ruau/src/lexer/lexer.rs:63-69 | `;` flushes and appends a Semicolon in both states, and keeps the string flag. |
| `LexerProperties.QuoteStep` | src/ruau/src/lexer/lexer.rs:98-107 | A quote toggles the flag. A String token is emitted only when a string closes on a non-empty buffer. The quote character itself is never stored. |
| `LexerProperties.RunAppend` | src/ruau/src/lexer/lexer.rs:58-113 | Scanning `p + q` is scanning `p`, then scanning `q` from the state reached. |
| `LexerProperties.NewlinesIgnored` | src/ruau/src/lexer/lexer.rs:108 | Deleting every `\n` from the input leaves the token list unchanged. |
| `LexerProperties.StringFlagIsQuoteParity` | src/ruau/src/lexer/lexer.rs:98-107 | After any input, the string flag is the starting flag toggled by the parity of the number of quotes. |
| `LexerProperties.TokensLexed` | src/ruau/src/lexer/lexer.rs:58-117 | Every token `tokenize` returns has a payload tag matching its kind, and every Keyword is `if`, `fn`, `let` or `else`. Every text payload is non-empty and holds no `;`, quote or newline. |
| `LexerProperties.TokenCount` | src/ruau/src/lexer/lexer.rs:58-117 | There are never more tokens than input characters. |
| `LexerProperties.SpaceBetweenTokens` | src/ruau/src/lexer/lexer.rs:60-62 | Outside a string with nothing pending, inserting a space changes no token. |
| `LexerProperties.SpaceAroundDelimiter` | src/ruau/src/lexer/lexer.rs:60-97 | Outside a string, spaces on both sides of a bracket or `;` change no token. |
| `LexerProperties.ParseFormat` | src/ruau/src/lexer/lexer.rs:144-147 | Printing any i32 in decimal and parsing it back gives the same value. |
| `LexerProperties.ReclassifySpelling` | src/ruau/src/lexer/lexer.rs:127-171 | Boolean, Keyword, Function and Identifier tokens carry their text unchanged. Re-classifying the text of any token other than a Float (an Integer's in decimal form) gives the same token. |
| `LexerProperties.I32Asymmetry` | src/ruau/src/lexer/lexer.rs:144 | Digits worth 2147483648 are refused unsigned and with `+`, and accepted with `-`. |
| `LexerProperties.LeadingZeroAndPlus` | src/ruau/src/lexer/lexer.rs:144 | A leading `0` or a leading `+` does not change the parse of a digit string. |
| `LexerProperties.I32Signs` | src/ruau/src/lexer/lexer.rs:144 | `+7`, `-0` and `007` are accepted, with the values 7, 0 and 7. |
| `LexerProperties.I32Rejects` | src/ruau/src/lexer/lexer.rs:144 | The empty text, a lone sign, two signs and `1.0` are refused. |
| `LexerProperties.EmptyQuotes` | src/ruau/src/lexer/lexer.rs:98-107 | `""` yields no token. |
| `LexerProperties.QuotedText` | src/ruau/src/lexer/lexer.rs:98-107 | `"abc"` yields exactly one String token, `abc`, without its quotes. |
| `LexerProperties.SemicolonInsideString` | src/ruau/src/lexer/lexer.rs:63-69 | `;` has no string guard. Inside quotes it still flushes the pending text as a word, so `'a;b'` gives Identifier `a`, Semicolon, String `b`. |
| `LexerProperties.WordRun` | src/ruau/src/lexer/lexer.rs:109-111 | Characters that are not spaces, brackets, `;`, quotes or newlines go to the buffer in either state. |
| `LexerProperties.SingleWord` | src/ruau/src/lexer/lexer.rs:109-115 | A lone word lexes to exactly the one token `parse_token` makes of it. |
| `LexerProperties.LiteralClassification` | src/ruau/src/lexer/lexer.rs:129-147 | `true` is Boolean(true), `fn` is a Keyword, and `42` is Integer 42, whatever the f32 parser says. |
| `LexerProperties.NameClassification` | src/ruau/src/lexer/lexer.rs:149-164 | `3.5` is a Float when the f32 parser accepts it. If the f32 parser refuses them, `42x` and `main` are Identifiers and `println!` is a Function. |
| `Translator.TranslateToken` | src/ruau/src/translator/translator.rs:11-68 | One loop iteration appends exactly the token's fragment and updates the flag as `CallingAfter` says. |
| `Translator.EmittedIsRendered` | src/ruau/src/translator/translator.rs:10-69 | The text built position by position, each token seeing the flag left by the tokens before it, is the left-to-right rendering. |
| `Translator.Translate` | src/ruau/src/translator/translator.rs:4-75 | The output is every token's fragment in order, then `main()`. It always ends with `main()`, and an empty token list gives exactly `main()`. It requires that the last token is not a Semicolon. |
| `TranslatorProperties.FragmentIgnoresNext` | src/ruau/src/translator/translator.rs:60-65 | Only a Semicolon's fragment depends on the token after it. |
| `TranslatorProperties.FragmentTable` | src/ruau/src/translator/translator.rs:11-68 | The fragment of each kind:<br>- `fn` gives `function `, and any other keyword gives nothing;<br>- `name `, `"s"`, `(`, `{\n` and `\n}\n`;<br>- `print` only for `println!`;<br>- `)` or `) ` by the flag;<br>- `;` before `}` and `;\n` otherwise.<br>A Function sets the flag, a `)` clears it, and no other token touches it. |
| `TranslatorProperties.RenderedAppend` | src/ruau/src/translator/translator.rs:10-69 | The output of `a + b` is the output of `a`, then the output of `b` started with the flag `a` leaves. |
| `TranslatorProperties.TokenLocality` | src/ruau/src/translator/translator.rs:10-69 | A token in the middle that does not follow a Semicolon contributes exactly its fragment, under the flag left by the tokens before it. |
| `TranslatorProperties.CallFlagMeansOpenCall` | src/ruau/src/translator/translator.rs:30-52 | After any tokens, `doing_function` is set exactly when some Function token has no `)` after it. |
| `TranslatorProperties.SilentTokenInvisible` | src/ruau/src/translator/translator.rs:13-67 | Some tokens can be deleted without changing the output, provided they do not follow a Semicolon (a Semicolon looks at the token after it): those of the kinds without a rule, a keyword other than `fn`, and an Identifier or String token with the wrong payload tag. |
| `TranslatorProperties.RenderedCons` | src/ruau/src/translator/translator.rs:11-68 | A token other than a Semicolon renders its fragment, then the rest under its updated flag, whatever follows it. |
| `TranslatorProperties.BraceExample` | src/ruau/src/translator/translator.rs:38-43 | `{` `}` renders as `{\n\n}\n`. |
| `TranslatorProperties.CallEndExample` | src/ruau/src/translator/translator.rs:30-63 | Inside a call, `)` `;` `}` renders as `);\n}\n`: no space after the `)` and no newline after the `;`. |
| `TranslatorProperties.CallArgumentExample` | src/ruau/src/translator/translator.rs:27-65 | `("hi");}` inside a call renders as `("hi");\n}\n`. |
| `TranslatorProperties.PrintlnExample` | src/ruau/src/translator/translator.rs:45-65 | `println!("hi");}` renders as `print("hi");\n}\n`. |
| `Pipeline.SampleLexes` | src/ruau/src/lexer/lexer.rs:49-118 | The sample `fn main() {\n    println!("hi");\n}` lexes to the eleven tokens listed below, when the f32 parser refuses `main` and `println!`. |
| `Pipeline.SampleTranslates` | src/ruau/src/translator/translator.rs:4-75 | Those tokens translate to `function main () {\nprint("hi");\n}\nmain()`. |
| `Pipeline.TrailingSemicolon` | src/ruau/src/translator/translator.rs:61 | A source ending in `;` (`x;`) lexes to tokens ending in a Semicolon, which `translate` cannot take. |

The eleven sample tokens are:

1. Keyword `fn`
2. Identifier `main`
3. LParen
4. RParen
5. LBrace
6. Function `println!`
7. LParen
8. String `hi`
9. RParen
10. Semicolon
11. RBrace

## Left out

- Rust's `str::parse::<f32>` (src/ruau/src/lexer/lexer.rs:149) is floating point and outside the model. Every lexer member takes a predicate `parsesAsF32` for it.
- The `f32` payload of a Float token is not modelled. `FloatValue` keeps the text that was parsed instead.
- The `HashSet` built at the start of `tokenize` (lexer.rs:50-53) is the constant set `Keywords`.
- `src/ruau/src/main.rs` is left out. It only feeds a fixed string to the lexer and prints the tokens.
- The unused `Keywords` enum (lexer.rs:40-47), the unused `in_string`/`in_function` locals of `translate` (translator.rs:5) and the `Debug`/`PartialEq` derives are left out. None of them affects a result.
- Translate: a Semicolon in last position makes the Rust code index past the end of the vector and panic. The model does not model the panic. It makes "the last token is not a Semicolon" a precondition, and `Pipeline.TrailingSemicolon` shows that the lexer can produce such a list.
- Rust strings are UTF-8 and `chars()` yields Unicode scalar values. The model treats a string as a sequence of `char` and does no encoding.
- LexerProperties.ReclassifySpelling: says nothing about Float tokens. The source's Float payload is an f32, and printing it need not give back the lexed text (`1e3` holds 1000.0, whose decimal form `1000` lexes as an Integer). The model's `FloatValue` keeps the text, so a Float clause would hold only in the model.
